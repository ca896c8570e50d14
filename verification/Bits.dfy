/** Bit operations on bytes, for the few places the source works bit by bit. */
module Bits {
  import opened Bytes

  function Pow2(n: nat): nat { if n == 0 then 1 else 2 * Pow2(n - 1) }

  /** Exclusive or of the low `n` bits. */
  function Xor(a: nat, b: nat, n: nat): (x: nat)
    ensures x < Pow2(n)
  {
    if n == 0 then 0 else (if a % 2 == b % 2 then 0 else 1) + 2 * Xor(a / 2, b / 2, n - 1)
  }

  lemma {:induction false} XorTwice(a: nat, b: nat, n: nat)
    requires a < Pow2(n)
    ensures Xor(Xor(a, b, n), b, n) == a
  {
    if n > 0 {
      var y := Xor(a / 2, b / 2, n - 1);
      XorTwice(a / 2, b / 2, n - 1);
      LowBit(if a % 2 == b % 2 then 0 else 1, y);
      assert Xor(a, b, n) / 2 == y;
    }
  }

  lemma LowBit(bit: nat, y: nat)
    requires bit < 2
    ensures (bit + 2 * y) % 2 == bit && (bit + 2 * y) / 2 == y
  {
  }

  lemma Pow2Of8()
    ensures Pow2(8) == 256
  {
    assert Pow2(4) == 16;
  }

  function XorByte(a: byte, b: byte): byte {
    Pow2Of8();
    Xor(a as int, b as int, 8)
  }

  lemma XorByteTwice(a: byte, b: byte)
    ensures XorByte(XorByte(a, b), b) == a
  {
    Pow2Of8();
    XorTwice(a as int, b as int, 8);
  }

  /** `(x << 4) | (x >> 4)`: the two halves do not overlap. */
  function SwapNibbles(x: byte): byte { x as int % 16 * 16 + x as int / 16 }

  lemma SwapTwice(x: byte)
    ensures SwapNibbles(SwapNibbles(x)) == x
  {
    Nibbles(x as int % 16, x as int / 16);
  }

  lemma Nibbles(high: nat, low: nat)
    requires low < 16
    ensures (high * 16 + low) / 16 == high && (high * 16 + low) % 16 == low
  {
  }
}
