/** The operator's side of the Redis proxy: reading one client command together
    with the raw bytes it was made of, and encoding a command. */
module RespCommand {
  import opened Bytes
  import opened Streams
  import opened Decimal
  import opened RespReply

  /** strings.Fields, an arbitrary tokeniser of an inline line. */
  type Tokeniser = bytes -> seq<bytes>

  datatype Parsed = Parsed(args: seq<bytes>, raw: bytes, rest: bytes) | Malformed

  const STAR: byte := 42
  const DOLLAR: byte := 36

  function Command(s: bytes, fields: Tokeniser): (c: Parsed)
    ensures c.Parsed? ==> |c.rest| < |s|
  {
    if s == [] then Malformed
    else if s[0] != STAR then
      var k := LineEnd(s);
      if k == |s| then Malformed else Parsed(fields(s[..k + 1]), s[..k + 1], s[k + 1..])
    else
      match ReadHeader(s[1..])
      case BadHeader => Malformed
      case Header(line, rest, n) =>
        if n < 0 then Parsed([], [STAR] + line, rest)
        else if n > MAX_ARRAY_LEN then Malformed
        else After([], [STAR] + line, Arguments(rest, n))
  }

  datatype Bulk = Bulk(text: bytes, raw: bytes, rest: bytes) | NoBulk

  /** One bulk-string argument; a null one is the empty argument. */
  function Argument(s: bytes): (a: Bulk)
    ensures a.Bulk? ==> |a.rest| <= |s|
  {
    if s == [] || s[0] != DOLLAR then NoBulk else
    match ReadHeader(s[1..])
    case BadHeader => NoBulk
    case Header(line, rest, n) =>
      if n < 0 then Bulk([], [DOLLAR] + line, rest)
      else if n > MAX_BULK_LEN || n + 2 > |rest| then NoBulk
      else Bulk(rest[..n], [DOLLAR] + line + rest[..n + 2], rest[n + 2..])
  }

  function Arguments(s: bytes, n: nat): (c: Parsed)
    ensures c.Parsed? ==> |c.rest| <= |s|
    decreases n
  {
    if n == 0 then Parsed([], [], s) else
    match Argument(s)
    case NoBulk => Malformed
    case Bulk(text, raw, rest) => After([text], raw, Arguments(rest, n - 1))
  }

  function After(args: seq<bytes>, raw: bytes, c: Parsed): Parsed {
    if c.Parsed? then Parsed(args + c.args, raw + c.raw, c.rest) else Malformed
  }

  lemma AfterTwice(a: seq<bytes>, p: bytes, b: seq<bytes>, q: bytes, c: Parsed)
    ensures After(a, p, After(b, q, c)) == After(a + b, p + q, c)
  {
    if c.Parsed? {
      assert a + (b + c.args) == a + b + c.args;
      assert p + (q + c.raw) == p + q + c.raw;
    }
  }

  /** readRESPCommand. */
  method ReadCommand(r: Reader, fields: Tokeniser) returns (ok: bool, args: seq<bytes>, raw: bytes)
    modifies r
    ensures ok == Command(old(r.rest), fields).Parsed?
    ensures ok ==> Command(old(r.rest), fields) == Parsed(args, raw, r.rest)
  {
    ok, args, raw := false, [], [];
    if r.rest == [] { return; }
    if r.rest[0] != STAR {
      var whole, inline := r.ReadLine();
      if !whole { return; }
      return true, fields(inline), inline;
    }
    var _, prefix := r.ReadByte();
    var whole, line := r.ReadLine();
    if !whole { return; }
    var n := Atoi(TrimEnd(line));
    if n.None? { return; }
    if n.value < 0 { return true, [], [prefix] + line; }
    if n.value > MAX_ARRAY_LEN { return; }
    ok, args, raw := ReadArguments(r, [prefix] + line, n.value);
  }

  /** The argument loop, appending to the count line already in `head`. */
  method ReadArguments(r: Reader, head: bytes, n: nat) returns (ok: bool, args: seq<bytes>, raw: bytes)
    modifies r
    ensures ok == Arguments(old(r.rest), n).Parsed?
    ensures ok ==> After([], head, Arguments(old(r.rest), n)) == Parsed(args, raw, r.rest)
  {
    hide Argument;
    ok, args, raw := true, [], head;
    ghost var all := After([], head, Arguments(r.rest, n));
    var i := 0;
    while i < n
      invariant 0 <= i <= n
      invariant all == After(args, raw, Arguments(r.rest, n - i))
    {
      ghost var args0, raw0 := args, raw;
      var got, text, piece := ReadArgument(r);
      if !got { return false, [], []; }
      args, raw := args + [text], raw + piece;
      i := i + 1;
      AfterTwice(args0, raw0, [text], piece, Arguments(r.rest, n - i));
    }
  }

  method ReadArgument(r: Reader) returns (ok: bool, text: bytes, raw: bytes)
    modifies r
    ensures ok == Argument(old(r.rest)).Bulk?
    ensures ok ==> Argument(old(r.rest)) == Bulk(text, raw, r.rest)
  {
    hide Atoi, TrimEnd;
    ok, text, raw := false, [], [];
    var got, typ := r.ReadByte();
    if !got || typ != DOLLAR { return; }
    var whole, line := r.ReadLine();
    if !whole { return; }
    var n := Atoi(TrimEnd(line));
    if n.None? { return; }
    if n.value < 0 { return true, [], [typ] + line; }
    if n.value > MAX_BULK_LEN { return; }
    var status, payload := r.ReadFull(n.value + 2);
    if status != Complete { return; }
    ok, text, raw := true, payload[..n.value], [typ] + line + payload;
  }

  /** encodeRESPCommand. */
  function Encode(parts: seq<bytes>): bytes {
    [STAR] + (Itoa(|parts|) + CRLF + EncodeParts(parts))
  }

  function EncodePart(p: bytes): bytes {
    [DOLLAR] + (Itoa(|p|) + CRLF + (p + CRLF))
  }

  function EncodeParts(parts: seq<bytes>): bytes {
    if parts == [] then [] else EncodePart(parts[0]) + EncodeParts(parts[1..])
  }

  predicate Encodable(parts: seq<bytes>) {
    |parts| <= MAX_ARRAY_LEN && forall p :: p in parts ==> |p| <= MAX_BULK_LEN
  }

  /** The encoder's loop over the parts. */
  method EncodeCommand(parts: seq<bytes>) returns (b: bytes)
    ensures b == Encode(parts)
  {
    hide EncodePart, Itoa;
    b := [STAR] + Itoa(|parts|) + CRLF;
    ghost var head := b;
    var i := 0;
    while i < |parts|
      invariant 0 <= i <= |parts|
      invariant b + EncodeParts(parts[i..]) == head + EncodeParts(parts)
    {
      assert parts[i..][1..] == parts[i + 1..];
      Regroup(b, EncodePart(parts[i]), EncodeParts(parts[i + 1..]));
      b := b + EncodePart(parts[i]);
      i := i + 1;
    }
    assert parts[i..] == [];
    assert head + EncodeParts(parts) == Encode(parts);
  }

  lemma ArgumentOfPart(p: bytes, tail: bytes)
    ensures Argument(EncodePart(p) + tail) == if |p| <= MAX_BULK_LEN then Bulk(p, EncodePart(p), tail) else NoBulk
  {
    var s, after := EncodePart(p) + tail, p + CRLF + tail;
    assert s[1..] == Itoa(|p|) + CRLF + after;
    HeaderOf(|p|, after);
    assert after[..|p|] == p && after[..|p| + 2] == p + CRLF && after[|p| + 2..] == tail;
    assert [DOLLAR] + (Itoa(|p|) + CRLF) + (p + CRLF) == EncodePart(p);
  }

  lemma {:induction false} ArgumentsOfParts(parts: seq<bytes>, rest: bytes)
    ensures Arguments(EncodeParts(parts) + rest, |parts|) ==
            if forall p :: p in parts ==> |p| <= MAX_BULK_LEN then Parsed(parts, EncodeParts(parts), rest)
            else Malformed
  {
    hide Argument;
    if parts == [] {
      assert EncodeParts(parts) + rest == rest;
    } else {
      var p, tail := parts[0], EncodeParts(parts[1..]) + rest;
      assert EncodeParts(parts) + rest == EncodePart(p) + tail;
      ArgumentOfPart(p, tail);
      ArgumentsOfParts(parts[1..], rest);
      assert parts == [p] + parts[1..];
    }
  }

  /** Reading inverts encoding, and leaves the following bytes alone, exactly
      when the command is within the reader's bounds. */
  lemma ReadInvertsEncode(parts: seq<bytes>, rest: bytes, fields: Tokeniser)
    ensures Command(Encode(parts) + rest, fields) ==
            if Encodable(parts) then Parsed(parts, Encode(parts), rest) else Malformed
  {
    hide Argument, Arguments, ReadHeader;
    var s := Encode(parts) + rest;
    assert s[1..] == Itoa(|parts|) + CRLF + (EncodeParts(parts) + rest);
    HeaderOf(|parts|, EncodeParts(parts) + rest);
    ArgumentsOfParts(parts, rest);
    assert [STAR] + (Itoa(|parts|) + CRLF) + EncodeParts(parts) == Encode(parts);
  }
}
