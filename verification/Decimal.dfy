/** The decimal length fields of RESP: strconv.Itoa, strconv.Atoi and the
    trimming applied before Atoi. */
module Decimal {
  import opened Bytes

  const MAX_INT64 := 0x7fff_ffff_ffff_ffff

  predicate IsDigit(b: byte) { 48 <= b <= 57 }

  function Itoa(n: nat): (s: bytes)
    ensures |s| > 0
  {
    if n < 10 then [48 + n] else Itoa(n / 10) + [48 + n % 10]
  }

  /** Value of a digit string; None on the empty string or a non-digit. */
  function Digits(s: bytes): (v: Option<nat>)
  {
    if s == [] || !IsDigit(s[|s| - 1]) then None
    else if |s| == 1 then Some(s[0] as int - 48)
    else
      match Digits(s[..|s| - 1])
      case None => None
      case Some(hi) => Some(10 * hi + (s[|s| - 1] as int - 48))
  }

  /** strconv.Atoi on a 64-bit platform: optional sign, digits, int64 range. */
  function Atoi(s: bytes): (v: Option<int>)
  {
    var signed := s != [] && (s[0] == 43 || s[0] == 45);
    var digits := Digits(if signed then s[1..] else s);
    if digits.None? then None
    else
      var m: int := digits.value;
      if signed && s[0] == 45 then (if m <= MAX_INT64 + 1 then Some(0 - m) else None)
      else if m <= MAX_INT64 then Some(m) else None
  }

  /** strings.TrimRight(s, "\r\n"). */
  function TrimEnd(s: bytes): (t: bytes)
    ensures t <= s
  {
    if s != [] && (s[|s| - 1] == CR || s[|s| - 1] == LF) then TrimEnd(s[..|s| - 1]) else s
  }

  lemma {:induction false} DigitsOfItoa(n: nat)
    ensures Digits(Itoa(n)) == Some(n)
  {
    if n >= 10 {
      DigitsOfItoa(n / 10);
      assert Itoa(n)[..|Itoa(n)| - 1] == Itoa(n / 10);
    }
  }

  lemma {:induction false} ItoaIsDigits(n: nat)
    ensures forall i :: 0 <= i < |Itoa(n)| ==> IsDigit(Itoa(n)[i])
  {
    if n >= 10 {
      ItoaIsDigits(n / 10);
    }
  }

  lemma TrimsTerminator(d: bytes)
    requires |d| > 0 && IsDigit(d[|d| - 1])
    ensures TrimEnd(d + CRLF) == d
  {
    assert (d + CRLF)[..|d| + 1] == d + [CR];
    assert (d + [CR])[..|d|] == d;
    assert TrimEnd(d) == d;
    assert TrimEnd(d + [CR]) == d;
  }

  /** The length line the encoders write is read back exactly when it fits int64. */
  lemma LengthRoundTrip(n: nat)
    ensures Atoi(TrimEnd(Itoa(n) + CRLF)) == if n <= MAX_INT64 then Some(n) else None
  {
    hide Itoa, Digits, TrimEnd;
    var d := Itoa(n);
    DigitsOfItoa(n);
    ItoaIsDigits(n);
    TrimsTerminator(d);
    assert IsDigit(d[0]);
  }
}
