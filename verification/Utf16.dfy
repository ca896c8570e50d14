/** UTF-16 text as the TDS and RDP encoders write it, over Unicode scalar values. */
module Utf16 {
  import opened Bytes

  /** What a Go string holds after conversion to runes. */
  type Rune = r: int | 0 <= r < 0xD800 || 0xE000 <= r < 0x11_0000
  type Text = seq<Rune>
  type Unit = u: int | 0 <= u < 0x1_0000

  const REPLACEMENT: Rune := 0xFFFD

  predicate IsHigh(u: Unit) { 0xD800 <= u < 0xDC00 }
  predicate IsLow(u: Unit) { 0xDC00 <= u < 0xE000 }

  function EncodeRune(r: Rune): seq<Unit> {
    if r < 0x1_0000 then [r] else [0xD800 + (r - 0x1_0000) / 0x400, 0xDC00 + (r - 0x1_0000) % 0x400]
  }

  /** utf16.Encode. */
  function Encode(t: Text): seq<Unit> {
    if t == [] then [] else EncodeRune(t[0]) + Encode(t[1..])
  }

  function Combine(hi: Unit, lo: Unit): Rune
    requires IsHigh(hi) && IsLow(lo)
  {
    0x1_0000 + (hi - 0xD800) as int * 0x400 + (lo - 0xDC00) as int
  }

  /** utf16.Decode: pairs are combined, lone surrogates replaced. */
  function Decode(us: seq<Unit>): Text {
    if us == [] then []
    else if IsHigh(us[0]) && |us| > 1 && IsLow(us[1]) then [Combine(us[0], us[1])] + Decode(us[2..])
    else if IsHigh(us[0]) || IsLow(us[0]) then [REPLACEMENT] + Decode(us[1..])
    else [us[0] as int] + Decode(us[1..])
  }

  lemma DecodeOne(r: Rune, us: seq<Unit>)
    ensures Decode(EncodeRune(r) + us) == [r] + Decode(us)
  {
    var s := EncodeRune(r) + us;
    if r < 0x1_0000 {
      assert s[1..] == us;
    } else {
      var v: int := r - 0x1_0000;
      assert s[2..] == us;
      assert v / 0x400 * 0x400 + v % 0x400 == v;
    }
  }

  lemma {:induction false} DecodeInvertsEncode(t: Text)
    ensures Decode(Encode(t)) == t
  {
    hide EncodeRune, Decode;
    if t == [] {
      DecodeNothing();
    } else {
      DecodeOne(t[0], Encode(t[1..]));
      DecodeInvertsEncode(t[1..]);
    }
  }

  lemma DecodeNothing()
    ensures Decode([]) == []
  {
  }

  // ------------------------------------------------------------ little endian

  function UnitBytes(us: seq<Unit>): (b: bytes)
    ensures |b| == 2 * |us|
  {
    if us == [] then [] else PutU16LE(us[0]) + UnitBytes(us[1..])
  }

  function BytesUnits(b: bytes): (us: seq<Unit>)
    ensures |us| == |b| / 2
  {
    if |b| < 2 then [] else [U16LE(b[..2])] + BytesUnits(b[2..])
  }

  lemma {:induction false} UnitsRoundTrip(us: seq<Unit>)
    ensures BytesUnits(UnitBytes(us)) == us
  {
    hide PutU16LE, U16LE;
    if us != [] {
      U16LERoundTrip(us[0]);
      UnitsRoundTrip(us[1..]);
      assert UnitBytes(us)[..2] == PutU16LE(us[0]);
      assert UnitBytes(us)[2..] == UnitBytes(us[1..]);
    }
  }

  function EncodeLE(t: Text): bytes { UnitBytes(Encode(t)) }

  /** decodeUTF16LE: a trailing odd byte is dropped. */
  function DecodeLE(b: bytes): Text { Decode(BytesUnits(b)) }

  lemma TextRoundTrip(t: Text)
    ensures DecodeLE(EncodeLE(t)) == t
  {
    hide Encode, Decode, UnitBytes, BytesUnits;
    UnitsRoundTrip(Encode(t));
    DecodeInvertsEncode(t);
  }

  /** utf16LEBytes: the code units written in place, two bytes each. */
  method Utf16LEBytes(t: Text) returns (out: bytes)
    ensures out == EncodeLE(t)
  {
    hide PutU16LE;
    var u := Encode(t);
    var a := new byte[2 * |u|];
    var i := 0;
    while i < |u|
      invariant 0 <= i <= |u|
      invariant a[..2 * i] == UnitBytes(u[..i])
    {
      var p := PutU16LE(u[i]);
      a[2 * i], a[2 * i + 1] := p[0], p[1];
      assert a[..2 * i] == UnitBytes(u[..i]);
      assert a[..2 * (i + 1)] == a[..2 * i] + p;
      UnitBytesSnoc(u[..i], u[i]);
      assert u[..i + 1] == u[..i] + [u[i]];
      i := i + 1;
    }
    assert u[..i] == u;
    out := a[..];
  }

  lemma {:induction false} UnitBytesSnoc(us: seq<Unit>, u: Unit)
    ensures UnitBytes(us + [u]) == UnitBytes(us) + PutU16LE(u)
  {
    hide PutU16LE;
    if us == [] {
      assert [u][1..] == [];
    } else {
      assert (us + [u])[1..] == us[1..] + [u];
      UnitBytesSnoc(us[1..], u);
    }
  }
}
