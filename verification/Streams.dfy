/** A byte stream as the gateway's readers see it: what is left to read. */
module Streams {
  import opened Bytes

  datatype ReadStatus = Complete | AtEnd | Cut

  /** Index of the first LF in `s`, or `|s|` when there is none. */
  function LineEnd(s: bytes): (k: nat)
    ensures k <= |s|
  {
    if s == [] || s[0] == LF then 0 else 1 + LineEnd(s[1..])
  }

  lemma LineEndAt(s: bytes, k: nat)
    requires k <= |s| && (k < |s| ==> s[k] == LF)
    requires forall i :: 0 <= i < k ==> s[i] != LF
    ensures LineEnd(s) == k
  {
    if k > 0 {
      LineEndAt(s[1..], k - 1);
    }
  }

  /** A line terminated by CRLF is found whole, whatever follows it. */
  lemma LineThenRest(text: bytes, rest: bytes)
    requires LF !in text
    ensures LineEnd(text + CRLF + rest) == |text| + 1
  {
    var s := text + CRLF + rest;
    LineEndAt(s, |text| + 1);
  }

  class Reader {
    var rest: bytes

    constructor (data: bytes)
      ensures rest == data
    {
      rest := data;
    }

    /** bufio.Reader.ReadByte. */
    method ReadByte() returns (ok: bool, b: byte)
      modifies this
      ensures ok == (old(rest) != [])
      ensures ok ==> b == old(rest)[0] && rest == old(rest)[1..]
      ensures !ok ==> rest == []
    {
      ok, b := rest != [], 0;
      if ok {
        b, rest := rest[0], rest[1..];
      }
    }

    /** bufio.Reader.ReadBytes('\n'): the line with its terminator; without a
        terminator the whole stream is consumed and the read fails. */
    method ReadLine() returns (ok: bool, line: bytes)
      modifies this
      ensures ok == (LineEnd(old(rest)) < |old(rest)|)
      ensures ok ==> line == old(rest)[..LineEnd(old(rest)) + 1] && rest == old(rest)[LineEnd(old(rest)) + 1..]
      ensures !ok ==> rest == []
    {
      var k := 0;
      while k < |rest| && rest[k] != LF
        invariant 0 <= k <= |rest|
        invariant forall i :: 0 <= i < k ==> rest[i] != LF
      {
        k := k + 1;
      }
      LineEndAt(rest, k);
      if k < |rest| {
        ok, line, rest := true, rest[..k + 1], rest[k + 1..];
      } else {
        ok, line, rest := false, [], [];
      }
    }

    /** io.ReadFull for `n` bytes: nothing read is AtEnd, a short read is Cut. */
    method ReadFull(n: nat) returns (status: ReadStatus, data: bytes)
      modifies this
      ensures status == FullStatus(old(rest), n)
      ensures status == Complete ==> data == old(rest)[..n] && rest == old(rest)[n..]
      ensures status != Complete ==> rest == []
    {
      status := FullStatus(rest, n);
      if status == Complete {
        data, rest := rest[..n], rest[n..];
      } else {
        data, rest := [], [];
      }
    }
  }

  function FullStatus(s: bytes, n: nat): (status: ReadStatus)
    ensures status == Complete <==> n <= |s|
    ensures status == AtEnd <==> n > 0 && s == []
  {
    if n <= |s| then Complete else if s == [] then AtEnd else Cut
  }
}
