/** The Redis reply reader: one complete RESP2/RESP3 value off the upstream
    stream, returned as its raw bytes. */
module RespReply {
  import opened Bytes
  import opened Streams
  import opened Decimal

  const MAX_BULK_LEN := 64 * 1024 * 1024
  const MAX_ARRAY_LEN := 1024 * 1024
  const MAX_DEPTH := 64

  // Type bytes: + - : _ # , (   then $ = !   then * ~ > %
  predicate IsLineType(t: byte) { t == 43 || t == 45 || t == 58 || t == 95 || t == 35 || t == 44 || t == 40 }
  predicate IsBlobType(t: byte) { t == 36 || t == 61 || t == 33 }
  predicate IsAggregateType(t: byte) { t == 42 || t == 126 || t == 62 || t == 37 }

  function PerElem(t: byte): (k: nat)
    ensures 1 <= k <= 2
  {
    if t == 37 then 2 else 1
  }

  // ---------------------------------------------------------------- values

  datatype Value =
    | Line(typ: byte, text: bytes)
    | Blob(typ: byte, payload: bytes)
    | Null(typ: byte)
    | Aggregate(typ: byte, elems: seq<Value>)

  /** The values RESP can express: line text holds no LF, a map holds pairs. */
  predicate WellFormed(v: Value) {
    match v
    case Line(t, text) => IsLineType(t) && LF !in text
    case Blob(t, _) => IsBlobType(t)
    case Null(t) => IsBlobType(t) || IsAggregateType(t)
    case Aggregate(t, elems) =>
      IsAggregateType(t) && |elems| % PerElem(t) == 0 && forall e :: e in elems ==> WellFormed(e)
  }

  /** The reader's limits: nesting, blob length and element count. */
  predicate Fits(v: Value, depth: nat) {
    depth <= MAX_DEPTH &&
    match v
    case Line(_, _) => true
    case Blob(_, payload) => |payload| <= MAX_BULK_LEN
    case Null(_) => true
    case Aggregate(t, elems) =>
      |elems| / PerElem(t) <= MAX_ARRAY_LEN && forall e :: e in elems ==> Fits(e, depth + 1)
  }

  function Serialise(v: Value): (s: bytes)
    ensures |s| > 0
    decreases v, 1
  {
    match v
    case Line(t, text) => [t] + (text + CRLF)
    case Blob(t, payload) => [t] + (Itoa(|payload|) + CRLF + (payload + CRLF))
    case Null(t) => [t] + ([45, 49] + CRLF)
    case Aggregate(t, elems) => [t] + (Itoa(|elems| / PerElem(t)) + CRLF + SerialiseAll(elems))
  }

  function SerialiseAll(vs: seq<Value>): (s: bytes)
    decreases vs, 0
  {
    if vs == [] then [] else Serialise(vs[0]) + SerialiseAll(vs[1..])
  }

  // --------------------------------------------------------- specification

  datatype Outcome = Ok(raw: bytes, rest: bytes) | Err

  datatype Header = Header(line: bytes, rest: bytes, count: int) | BadHeader

  /** The length or count line after the type byte. */
  function ReadHeader(s: bytes): (h: Header)
    ensures h.Header? ==> |h.rest| < |s|
  {
    var k := LineEnd(s);
    if k == |s| then BadHeader else
    match Atoi(TrimEnd(s[..k + 1]))
    case None => BadHeader
    case Some(n) => Header(s[..k + 1], s[k + 1..], n)
  }

  /** What one call of the reader at nesting `depth` does on the bytes `s`. */
  function Reply(s: bytes, depth: nat): (r: Outcome)
    ensures r.Ok? ==> |r.rest| < |s|
    decreases |s|, 0
  {
    if depth > MAX_DEPTH || s == [] then Err
    else if IsLineType(s[0]) then LineReply(s[0], s[1..])
    else if IsBlobType(s[0]) then BlobReply(s[0], s[1..])
    else if IsAggregateType(s[0]) then AggregateReply(s[0], s[1..], depth)
    else Err
  }

  function LineReply(t: byte, body: bytes): (r: Outcome)
    ensures r.Ok? ==> |r.rest| <= |body|
  {
    var k := LineEnd(body);
    if k == |body| then Err else Ok([t] + body[..k + 1], body[k + 1..])
  }

  function BlobReply(t: byte, body: bytes): (r: Outcome)
    ensures r.Ok? ==> |r.rest| <= |body|
  {
    match ReadHeader(body)
    case BadHeader => Err
    case Header(line, rest, n) =>
      if n < 0 then Ok([t] + line, rest)
      else if n > MAX_BULK_LEN || n + 2 > |rest| then Err
      else Ok([t] + line + rest[..n + 2], rest[n + 2..])
  }

  function AggregateReply(t: byte, body: bytes, depth: nat): (r: Outcome)
    ensures r.Ok? ==> |r.rest| <= |body|
    decreases |body|, 1, 0
  {
    match ReadHeader(body)
    case BadHeader => Err
    case Header(line, rest, n) =>
      if n < 0 then Ok([t] + line, rest)
      else if n > MAX_ARRAY_LEN then Err
      else Prefixed([t] + line, Elements(rest, n * PerElem(t), depth + 1))
  }

  /** `n` replies in a row, their bytes appended in order. */
  function Elements(s: bytes, n: nat, depth: nat): (r: Outcome)
    ensures r.Ok? ==> |r.rest| <= |s|
    decreases |s|, 1, n
  {
    if n == 0 then Ok([], s) else
    match Reply(s, depth)
    case Err => Err
    case Ok(raw, rest) => Prefixed(raw, Elements(rest, n - 1, depth))
  }

  function Prefixed(p: bytes, r: Outcome): Outcome {
    if r.Ok? then Ok(p + r.raw, r.rest) else Err
  }

  // ------------------------------------------------------------- the reader

  /** readRESPReplyDepth, over a stateful stream. */
  method ReadReply(r: Reader, depth: nat) returns (ok: bool, raw: bytes)
    modifies r
    ensures ok == Reply(old(r.rest), depth).Ok?
    ensures ok ==> Reply(old(r.rest), depth) == Ok(raw, r.rest)
    ensures ok ==> |r.rest| < |old(r.rest)|
    decreases |r.rest|, 0
  {
    ok, raw := false, [];
    if depth > MAX_DEPTH { return; }
    var got, t := r.ReadByte();
    if !got { return; }
    if IsLineType(t) {
      var whole, line := r.ReadLine();
      if !whole { return; }
      ok, raw := true, [t] + line;
    } else if IsBlobType(t) {
      ok, raw := ReadBlobReply(r, t);
    } else if IsAggregateType(t) {
      ok, raw := ReadAggregateReply(r, t, depth);
    }
  }

  /** readRESPBlobReply. */
  method ReadBlobReply(r: Reader, t: byte) returns (ok: bool, raw: bytes)
    modifies r
    ensures ok == BlobReply(t, old(r.rest)).Ok?
    ensures ok ==> BlobReply(t, old(r.rest)) == Ok(raw, r.rest)
  {
    ok, raw := false, [];
    var whole, line := r.ReadLine();
    if !whole { return; }
    var n := Atoi(TrimEnd(line));
    if n.None? { return; }
    if n.value < 0 { return true, [t] + line; }
    if n.value > MAX_BULK_LEN { return; }
    var status, payload := r.ReadFull(n.value + 2);
    if status != Complete { return; }
    ok, raw := true, [t] + line + payload;
  }

  /** readRESPAggregateReply: `n * perElem` nested replies, appended in order. */
  method ReadAggregateReply(r: Reader, t: byte, depth: nat) returns (ok: bool, raw: bytes)
    modifies r
    ensures ok == AggregateReply(t, old(r.rest), depth).Ok?
    ensures ok ==> AggregateReply(t, old(r.rest), depth) == Ok(raw, r.rest)
    decreases |r.rest|, 1
  {
    ok, raw := false, [];
    var whole, line := r.ReadLine();
    if !whole { return; }
    var n := Atoi(TrimEnd(line));
    if n.None? { return; }
    if n.value < 0 { return true, [t] + line; }
    if n.value > MAX_ARRAY_LEN { return; }
    ok, raw := ReadElements(r, [t] + line, n.value * PerElem(t), depth + 1);
  }

  /** The element loop, appending to the header already in `head`. */
  method ReadElements(r: Reader, head: bytes, total: nat, depth: nat) returns (ok: bool, out: bytes)
    modifies r
    ensures ok == Elements(old(r.rest), total, depth).Ok?
    ensures ok ==> Prefixed(head, Elements(old(r.rest), total, depth)) == Ok(out, r.rest)
    decreases |r.rest|, 1
  {
    hide Reply;
    ok, out := true, head;
    ghost var all := Prefixed(head, Elements(r.rest, total, depth));
    ghost var size := |r.rest|;
    var i := 0;
    while i < total
      invariant 0 <= i <= total && |r.rest| <= size
      invariant all == Prefixed(out, Elements(r.rest, total - i, depth))
    {
      ghost var before, prefix := r.rest, out;
      var got, elem := ReadReply(r, depth);
      if !got { return false, []; }
      out := out + elem;
      i := i + 1;
      PrefixedTwice(prefix, elem, Elements(r.rest, total - i, depth));
    }
  }

  lemma PrefixedTwice(p: bytes, q: bytes, r: Outcome)
    ensures Prefixed(p, Prefixed(q, r)) == Prefixed(p + q, r)
  {
    if r.Ok? { assert p + (q + r.raw) == p + q + r.raw; }
  }

  // ------------------------------------------------------------- properties

  /** On any input, the bytes returned are exactly the bytes consumed. */
  lemma {:induction false} ReplyIsExact(s: bytes, depth: nat)
    requires Reply(s, depth).Ok?
    ensures Reply(s, depth).raw + Reply(s, depth).rest == s
    decreases |s|, 0
  {
    assert [s[0]] + s[1..] == s;
    if IsLineType(s[0]) {
    } else if IsBlobType(s[0]) {
      BlobIsExact(s[0], s[1..]);
    } else {
      AggregateIsExact(s[0], s[1..], depth);
    }
  }

  lemma BlobIsExact(t: byte, body: bytes)
    requires BlobReply(t, body).Ok?
    ensures BlobReply(t, body).raw + BlobReply(t, body).rest == [t] + body
  {
  }

  lemma {:induction false} AggregateIsExact(t: byte, body: bytes, depth: nat)
    requires AggregateReply(t, body, depth).Ok?
    ensures AggregateReply(t, body, depth).raw + AggregateReply(t, body, depth).rest == [t] + body
    decreases |body|, 1, 0
  {
    var h := ReadHeader(body);
    if h.count >= 0 {
      var e := Elements(h.rest, h.count * PerElem(t), depth + 1);
      ElementsAreExact(h.rest, h.count * PerElem(t), depth + 1);
      Regroup([t] + h.line, e.raw, e.rest);
      Regroup([t], h.line, e.raw + e.rest);
    }
  }

  lemma {:induction false} ElementsAreExact(s: bytes, n: nat, depth: nat)
    requires Elements(s, n, depth).Ok?
    ensures Elements(s, n, depth).raw + Elements(s, n, depth).rest == s
    decreases |s|, 1, n
  {
    hide Reply;
    if n > 0 {
      ReplyIsExact(s, depth);
      ElementsAreExact(Reply(s, depth).rest, n - 1, depth);
    }
  }

  /** The header a serialiser writes for count `n` parses to `n`. */
  lemma HeaderOf(n: nat, rest: bytes)
    ensures ReadHeader(Itoa(n) + CRLF + rest) == if n <= MAX_INT64 then Header(Itoa(n) + CRLF, rest, n) else BadHeader
  {
    var d := Itoa(n);
    ItoaIsDigits(n);
    LineThenRest(d, rest);
    LengthRoundTrip(n);
    var s := d + CRLF + rest;
    assert s[..|d| + 2] == d + CRLF;
    assert s[|d| + 2..] == rest;
  }

  lemma NullHeader(rest: bytes)
    ensures ReadHeader([45, 49] + CRLF + rest) == Header([45, 49] + CRLF, rest, -1)
  {
    var d: bytes := [45, 49];
    LineThenRest(d, rest);
    var s := d + CRLF + rest;
    assert s[..4] == d + CRLF && s[4..] == rest;
    assert (d + CRLF)[..3] == d + [CR] && (d + [CR])[..2] == d;
    assert TrimEnd(d + [CR]) == d;
    assert d[1..] == [49];
  }

  /** One reply read off a stream that starts with a serialised value is that
      value, byte for byte, and nothing after it is touched; the read succeeds
      exactly when the value is within the limits. */
  lemma {:induction false} ReadsOneValue(v: Value, depth: nat, rest: bytes)
    requires WellFormed(v)
    ensures Reply(Serialise(v) + rest, depth) == if Fits(v, depth) then Ok(Serialise(v), rest) else Err
    decreases v, 1
  {
    match v
    case Line(t, text) => ReadsLine(v, depth, rest);
    case Blob(t, payload) => ReadsBlob(v, depth, rest);
    case Null(t) => ReadsNull(v, depth, rest);
    case Aggregate(t, elems) =>
      if depth <= MAX_DEPTH {
        assert (Serialise(v) + rest)[1..] == Itoa(|elems| / PerElem(t)) + CRLF + (SerialiseAll(elems) + rest);
        AggregateCase(v, depth, rest);
      }
  }

  lemma ReadsLine(v: Value, depth: nat, rest: bytes)
    requires v.Line? && WellFormed(v)
    ensures Reply(Serialise(v) + rest, depth) == if depth <= MAX_DEPTH then Ok(Serialise(v), rest) else Err
  {
    assert (Serialise(v) + rest)[1..] == v.text + CRLF + rest;
    LineCase(v.typ, v.text, rest);
  }

  lemma ReadsBlob(v: Value, depth: nat, rest: bytes)
    requires v.Blob? && WellFormed(v)
    ensures Reply(Serialise(v) + rest, depth) == if Fits(v, depth) then Ok(Serialise(v), rest) else Err
  {
    assert (Serialise(v) + rest)[1..] == Itoa(|v.payload|) + CRLF + (v.payload + CRLF + rest);
    BlobCase(v.typ, v.payload, rest);
  }

  lemma ReadsNull(v: Value, depth: nat, rest: bytes)
    requires v.Null? && WellFormed(v)
    ensures Reply(Serialise(v) + rest, depth) == if depth <= MAX_DEPTH then Ok(Serialise(v), rest) else Err
  {
    assert (Serialise(v) + rest)[1..] == [45, 49] + CRLF + rest;
    NullHeader(rest);
  }

  lemma {:induction false} AggregateCase(v: Value, depth: nat, rest: bytes)
    requires v.Aggregate? && WellFormed(v) && depth <= MAX_DEPTH
    ensures AggregateReply(v.typ, Itoa(|v.elems| / PerElem(v.typ)) + CRLF + (SerialiseAll(v.elems) + rest), depth) ==
            if Fits(v, depth) then Ok(Serialise(v), rest) else Err
    decreases v, 0
  {
    var n := |v.elems| / PerElem(v.typ);
    HeaderOf(n, SerialiseAll(v.elems) + rest);
    if n <= MAX_ARRAY_LEN {
      ReadsAllElements(v.elems, depth + 1, rest);
      assert n * PerElem(v.typ) == |v.elems|;
      assert [v.typ] + (Itoa(n) + CRLF) + SerialiseAll(v.elems) == Serialise(v);
    }
  }

  lemma LineCase(t: byte, text: bytes, rest: bytes)
    requires LF !in text
    ensures LineReply(t, text + CRLF + rest) == Ok([t] + (text + CRLF), rest)
  {
    var s := text + CRLF + rest;
    LineThenRest(text, rest);
    assert s[..|text| + 2] == text + CRLF;
    assert s[|text| + 2..] == rest;
  }

  lemma BlobCase(t: byte, payload: bytes, rest: bytes)
    ensures BlobReply(t, Itoa(|payload|) + CRLF + (payload + CRLF + rest)) ==
            if |payload| <= MAX_BULK_LEN then Ok([t] + (Itoa(|payload|) + CRLF + (payload + CRLF)), rest) else Err
  {
    hide ReadHeader, Itoa;
    HeaderOf(|payload|, payload + CRLF + rest);
    PayloadThenRest(payload, rest);
    Regroup([t], Itoa(|payload|) + CRLF, payload + CRLF);
  }

  lemma PayloadThenRest(payload: bytes, rest: bytes)
    ensures var tail := payload + CRLF + rest;
            |tail| >= |payload| + 2 && tail[..|payload| + 2] == payload + CRLF && tail[|payload| + 2..] == rest
  {
  }

  lemma {:induction false} ReadsAllElements(vs: seq<Value>, depth: nat, rest: bytes)
    requires forall v :: v in vs ==> WellFormed(v)
    ensures Elements(SerialiseAll(vs) + rest, |vs|, depth) ==
            if forall v :: v in vs ==> Fits(v, depth) then Ok(SerialiseAll(vs), rest) else Err
    decreases vs, 0
  {
    hide Reply, Serialise, Fits;
    if vs == [] {
      assert SerialiseAll(vs) + rest == rest;
    } else {
      var tail := SerialiseAll(vs[1..]) + rest;
      assert SerialiseAll(vs) + rest == Serialise(vs[0]) + tail;
      ReadsOneValue(vs[0], depth, tail);
      ReadsAllElements(vs[1..], depth, rest);
      assert vs == [vs[0]] + vs[1..];
    }
  }

  /** More input never changes a completed read. */
  lemma {:induction false} ReplyExtends(s: bytes, t: bytes, depth: nat)
    requires Reply(s, depth).Ok?
    ensures Reply(s + t, depth) == Ok(Reply(s, depth).raw, Reply(s, depth).rest + t)
    decreases |s|, 0
  {
    var body := s[1..];
    assert (s + t)[1..] == body + t;
    if IsLineType(s[0]) {
      LineReplyExtends(s[0], body, t);
    } else if IsBlobType(s[0]) {
      BlobReplyExtends(s[0], body, t);
    } else {
      HeaderExtends(body, t);
      var h := ReadHeader(body);
      if h.count >= 0 {
        ElementsExtend(h.rest, t, h.count * PerElem(s[0]), depth + 1);
      }
    }
  }

  lemma LineReplyExtends(typ: byte, s: bytes, t: bytes)
    requires LineReply(typ, s).Ok?
    ensures LineReply(typ, s + t) == Ok(LineReply(typ, s).raw, LineReply(typ, s).rest + t)
  {
    var k := LineEnd(s);
    LineEndExtends(s, t);
    assert (s + t)[..k + 1] == s[..k + 1];
    assert (s + t)[k + 1..] == s[k + 1..] + t;
  }

  lemma BlobReplyExtends(typ: byte, s: bytes, t: bytes)
    requires BlobReply(typ, s).Ok?
    ensures BlobReply(typ, s + t) == Ok(BlobReply(typ, s).raw, BlobReply(typ, s).rest + t)
  {
    HeaderExtends(s, t);
    var h := ReadHeader(s);
    if h.count >= 0 {
      assert (h.rest + t)[..h.count + 2] == h.rest[..h.count + 2];
      assert (h.rest + t)[h.count + 2..] == h.rest[h.count + 2..] + t;
    }
  }

  lemma {:induction false} LineEndExtends(s: bytes, t: bytes)
    requires LineEnd(s) < |s|
    ensures LineEnd(s + t) == LineEnd(s)
  {
    if s[0] != LF {
      LineEndExtends(s[1..], t);
      assert (s + t)[1..] == s[1..] + t;
    }
  }

  lemma HeaderExtends(s: bytes, t: bytes)
    requires ReadHeader(s).Header?
    ensures ReadHeader(s + t) == ReadHeader(s).(rest := ReadHeader(s).rest + t)
  {
    var k := LineEnd(s);
    LineEndExtends(s, t);
    assert (s + t)[..k + 1] == s[..k + 1];
    assert (s + t)[k + 1..] == s[k + 1..] + t;
  }

  lemma {:induction false} ElementsExtend(s: bytes, t: bytes, n: nat, depth: nat)
    requires Elements(s, n, depth).Ok?
    ensures Elements(s + t, n, depth) == Ok(Elements(s, n, depth).raw, Elements(s, n, depth).rest + t)
    decreases |s|, 1, n
  {
    hide Reply;
    if n > 0 {
      ReplyExtends(s, t, depth);
      ElementsExtend(Reply(s, depth).rest, t, n - 1, depth);
    }
  }

  /** A reply cut anywhere before its end is never taken for a whole one. */
  lemma CutReplyIsRejected(v: Value, depth: nat, k: nat)
    requires WellFormed(v) && k < |Serialise(v)|
    ensures Reply(Serialise(v)[..k], depth).Err?
  {
    var whole := Serialise(v);
    if Reply(whole[..k], depth).Ok? {
      ReplyExtends(whole[..k], whole[k..], depth);
      assert whole[..k] + whole[k..] == whole == whole + [];
      ReadsOneValue(v, depth, []);
    }
  }
}
