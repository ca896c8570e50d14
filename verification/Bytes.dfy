/** Byte strings and the fixed-width integer encodings the wire formats share. */
module Bytes {

  type byte = x: int | 0 <= x < 256
  type bytes = seq<byte>

  datatype Option<+T> = None | Some(value: T)

  const CR: byte := 13
  const LF: byte := 10
  const CRLF: bytes := [CR, LF]

  /** Go's `uint16(v)` written most significant byte first. */
  function PutU16BE(v: nat): (b: bytes)
    ensures |b| == 2
  {
    [v / 256 % 256, v % 256]
  }

  function U16BE(b: bytes): (v: nat)
    requires |b| == 2
    ensures v < 0x1_0000
  {
    b[0] as int * 256 + b[1] as int
  }

  /** Go's `uint16(v)` written least significant byte first. */
  function PutU16LE(v: nat): (b: bytes)
    ensures |b| == 2
  {
    [v % 256, v / 256 % 256]
  }

  function U16LE(b: bytes): (v: nat)
    requires |b| == 2
    ensures v < 0x1_0000
  {
    b[0] as int + b[1] as int * 256
  }

  function PutU32BE(v: nat): (b: bytes)
    ensures |b| == 4
  {
    PutU16BE(v / 0x1_0000) + PutU16BE(v % 0x1_0000)
  }

  function U32BE(b: bytes): (v: nat)
    requires |b| == 4
    ensures v < 0x1_0000_0000
  {
    U16BE(b[..2]) * 0x1_0000 + U16BE(b[2..])
  }

  function PutU32LE(v: nat): (b: bytes)
    ensures |b| == 4
  {
    PutU16LE(v % 0x1_0000) + PutU16LE(v / 0x1_0000)
  }

  function U32LE(b: bytes): (v: nat)
    requires |b| == 4
    ensures v < 0x1_0000_0000
  {
    U16LE(b[..2]) + U16LE(b[2..]) * 0x1_0000
  }

  function PutU64BE(v: nat): (b: bytes)
    ensures |b| == 8
  {
    PutU32BE(v / 0x1_0000_0000) + PutU32BE(v % 0x1_0000_0000)
  }

  function U64BE(b: bytes): (v: nat)
    requires |b| == 8
    ensures v < 0x1_0000_0000_0000_0000
  {
    U32BE(b[..4]) * 0x1_0000_0000 + U32BE(b[4..])
  }

  lemma U16BERoundTrip(v: nat)
    ensures U16BE(PutU16BE(v)) == v % 0x1_0000
  {
    assert v / 256 % 256 * 256 + v % 256 == v % 0x1_0000;
  }

  lemma U16LERoundTrip(v: nat)
    ensures U16LE(PutU16LE(v)) == v % 0x1_0000
  {
    assert v / 256 % 256 * 256 + v % 256 == v % 0x1_0000;
  }

  lemma U32BERoundTrip(v: nat)
    requires v < 0x1_0000_0000
    ensures U32BE(PutU32BE(v)) == v
  {
    U16BERoundTrip(v / 0x1_0000);
    U16BERoundTrip(v % 0x1_0000);
    assert PutU32BE(v)[..2] == PutU16BE(v / 0x1_0000);
    assert PutU32BE(v)[2..] == PutU16BE(v % 0x1_0000);
  }

  lemma U32LERoundTrip(v: nat)
    requires v < 0x1_0000_0000
    ensures U32LE(PutU32LE(v)) == v
  {
    U16LERoundTrip(v / 0x1_0000);
    U16LERoundTrip(v % 0x1_0000);
    assert PutU32LE(v)[..2] == PutU16LE(v % 0x1_0000);
    assert PutU32LE(v)[2..] == PutU16LE(v / 0x1_0000);
  }

  lemma U64BERoundTrip(v: nat)
    requires v < 0x1_0000_0000_0000_0000
    ensures U64BE(PutU64BE(v)) == v
  {
    var hi, lo := v / 0x1_0000_0000, v % 0x1_0000_0000;
    U32BERoundTrip(hi);
    U32BERoundTrip(lo);
    assert PutU64BE(v)[..4] == PutU32BE(hi);
    assert PutU64BE(v)[4..] == PutU32BE(lo);
  }

  /** Concatenation of a list of byte strings. */
  function Flatten(parts: seq<bytes>): (b: bytes)
  {
    if parts == [] then [] else parts[0] + Flatten(parts[1..])
  }

  lemma Regroup<T>(a: seq<T>, b: seq<T>, c: seq<T>)
    ensures a + (b + c) == a + b + c
  {
  }
}
