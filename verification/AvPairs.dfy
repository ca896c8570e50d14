/** The NTLM AV_PAIR list, section 2.2.2.1 of [MS-NLMP]: lookup, and the copy
    that announces a message integrity code. Any byte string is a list: reading
    stops at the terminator or at the first pair that does not fit. */
module AvPairs {
  import opened Bytes

  const EOL := 0
  const FLAGS := 6

  datatype Pair = Pair(id: nat, value: bytes)

  predicate Valid(p: Pair) { p.id < 0x1_0000 && |p.value| < 0x1_0000 }

  /** The pairs a reader walks over, for well-formed and malformed lists alike. */
  function Pairs(s: bytes): seq<Pair>
    decreases |s|
  {
    if |s| < 4 then [] else
      var id, n := U16LE(s[..2]), U16LE(s[2..4]);
      if id == EOL || 4 + n > |s| then [] else [Pair(id, s[4..4 + n])] + Pairs(s[4 + n..])
  }

  function First(ps: seq<Pair>, id: nat): Option<bytes> {
    if ps == [] then None else if ps[0].id == id then Some(ps[0].value) else First(ps[1..], id)
  }

  /** avPairFind; Go's nil is None, and an empty value is also returned as nil. */
  method Find(targetInfo: bytes, id: nat) returns (value: Option<bytes>)
    ensures value == if First(Pairs(targetInfo), id) == Some([]) then None else First(Pairs(targetInfo), id)
  {
    hide U16LE, Pairs, First;
    var i := 0;
    assert targetInfo[0..] == targetInfo;
    while i + 4 <= |targetInfo|
      invariant 0 <= i <= |targetInfo|
      invariant First(Pairs(targetInfo), id) == First(Pairs(targetInfo[i..]), id)
    {
      PairsFrom(targetInfo, i);
      FirstOfNothing(id);
      var avId, avLen := U16LE(targetInfo[i..i + 2]), U16LE(targetInfo[i + 2..i + 4]);
      i := i + 4;
      if avId == EOL { return None; }
      if i + avLen > |targetInfo| { return None; }
      FirstCons(Pair(avId, targetInfo[i..i + avLen]), Pairs(targetInfo[i + avLen..]), id);
      if avId == id {
        var found := targetInfo[i..i + avLen];
        return if found == [] then None else Some(found);
      }
      i := i + avLen;
    }
    PairsFrom(targetInfo, i);
    FirstOfNothing(id);
    return None;
  }

  lemma FirstOfNothing(id: nat)
    ensures First([], id) == None
  {
  }

  lemma FirstCons(p: Pair, ps: seq<Pair>, id: nat)
    ensures First([p] + ps, id) == if p.id == id then Some(p.value) else First(ps, id)
  {
    assert ([p] + ps)[1..] == ps;
  }

  // ------------------------------------------------------------ the rewrite

  /** appendAVPair. */
  function EncodePair(p: Pair): (b: bytes)
    ensures |b| == 4 + |p.value|
  {
    PutU16LE(p.id) + PutU16LE(|p.value|) + p.value
  }

  function EncodePairs(ps: seq<Pair>): bytes {
    if ps == [] then [] else EncodePair(ps[0]) + EncodePairs(ps[1..])
  }

  /** The flags word; a value shorter than four bytes counts as zero. */
  function FlagsWord(value: bytes): (w: nat)
    ensures w < 0x1_0000_0000
  {
    if |value| >= 4 then U32LE(value[..4]) else 0
  }

  /** `flags | 0x2`. */
  function WithMicBit(w: nat): nat { if w / 2 % 2 == 1 then w else w + 2 }

  lemma MicBitOnly(w: nat)
    requires w < 0x1_0000_0000
    ensures var w' := WithMicBit(w);
            w' < 0x1_0000_0000 && w' / 2 % 2 == 1 && w' % 2 == w % 2 && w' / 4 == w / 4
  {
  }

  function Marked(p: Pair): Pair {
    if p.id == FLAGS then Pair(FLAGS, PutU32LE(WithMicBit(FlagsWord(p.value)))) else p
  }

  function MarkAll(ps: seq<Pair>): (r: seq<Pair>)
    ensures |r| == |ps|
  {
    if ps == [] then [] else [Marked(ps[0])] + MarkAll(ps[1..])
  }

  predicate HasFlags(ps: seq<Pair>) { First(ps, FLAGS).Some? }

  /** The pairs of the copy. */
  function Announced(ps: seq<Pair>): seq<Pair> {
    MarkAll(ps) + (if HasFlags(ps) then [] else [Pair(FLAGS, PutU32LE(2))])
  }

  function WithMicFlag(targetInfo: bytes): bytes {
    EncodePairs(Announced(Pairs(targetInfo))) + EncodePair(Pair(EOL, []))
  }

  /** avPairsWithMICFlag. */
  method CopyWithMicFlag(targetInfo: bytes) returns (out: bytes)
    ensures out == WithMicFlag(targetInfo)
  {
    hide U16LE, PutU32LE, EncodePair, EncodePairs, Marked, MarkAll, HasFlags, Pairs;
    out := [];
    var sawFlags, i := false, 0;
    ghost var done: seq<Pair> := [];
    NothingMarked();
    assert targetInfo[0..] == targetInfo;
    while i + 4 <= |targetInfo|
      invariant 0 <= i <= |targetInfo|
      invariant Pairs(targetInfo) == done + Pairs(targetInfo[i..])
      invariant out == EncodePairs(MarkAll(done)) && sawFlags == HasFlags(done)
    {
      var avId, avLen := U16LE(targetInfo[i..i + 2]), U16LE(targetInfo[i + 2..i + 4]);
      if avId == EOL { break; }
      if i + 4 + avLen > |targetInfo| { break; }
      var val := targetInfo[i + 4..i + 4 + avLen];
      PairsFrom(targetInfo, i);
      if avId == FLAGS { sawFlags := true; }
      out := out + EncodePair(Marked(Pair(avId, val)));
      MarkedSnoc(done, Pair(avId, val));
      Regroup(done, [Pair(avId, val)], Pairs(targetInfo[i + 4 + avLen..]));
      done := done + [Pair(avId, val)];
      i := i + 4 + avLen;
    }
    PairsFrom(targetInfo, i);
    assert done + [] == done;
    if !sawFlags {
      EncodeSnoc(MarkAll(done), Pair(FLAGS, PutU32LE(2)));
      out := out + EncodePair(Pair(FLAGS, PutU32LE(2)));
    } else {
      assert MarkAll(done) + [] == MarkAll(done);
    }
    out := out + EncodePair(Pair(EOL, []));
  }

  lemma NothingMarked()
    ensures EncodePairs(MarkAll([])) == [] && !HasFlags([])
  {
  }

  /** One turn of either loop, at index `i`. */
  lemma PairsFrom(s: bytes, i: nat)
    requires i <= |s|
    ensures i + 4 > |s| ==> Pairs(s[i..]) == []
    ensures i + 4 <= |s| ==>
              var id, n := U16LE(s[i..i + 2]), U16LE(s[i + 2..i + 4]);
              Pairs(s[i..]) == if id == EOL || i + 4 + n > |s| then []
                               else [Pair(id, s[i + 4..i + 4 + n])] + Pairs(s[i + 4 + n..])
  {
    hide U16LE;
    if i + 4 <= |s| {
      var t := s[i..];
      assert t[..2] == s[i..i + 2] && t[2..4] == s[i + 2..i + 4];
      var n := U16LE(t[2..4]);
      if i + 4 + n <= |s| {
        assert t[4..4 + n] == s[i + 4..i + 4 + n] && t[4 + n..] == s[i + 4 + n..];
      }
    }
  }

  lemma {:induction false} EncodeSnoc(ps: seq<Pair>, p: Pair)
    ensures EncodePairs(ps + [p]) == EncodePairs(ps) + EncodePair(p)
  {
    hide EncodePair;
    if ps == [] {
      assert [p][1..] == [];
    } else {
      assert (ps + [p])[1..] == ps[1..] + [p];
      EncodeSnoc(ps[1..], p);
    }
  }

  lemma {:induction false} MarkedSnoc(ps: seq<Pair>, p: Pair)
    ensures EncodePairs(MarkAll(ps + [p])) == EncodePairs(MarkAll(ps)) + EncodePair(Marked(p))
    ensures HasFlags(ps + [p]) == (HasFlags(ps) || p.id == FLAGS)
  {
    hide EncodePair, Marked;
    if ps == [] {
      assert [p][1..] == [];
      assert [Marked(p)][1..] == [];
      assert MarkAll([p]) == [Marked(p)];
    } else {
      assert (ps + [p])[1..] == ps[1..] + [p];
      MarkedSnoc(ps[1..], p);
    }
  }

  // ---------------------------------------------------------------- theorems

  lemma {:induction false} PairsAreValid(s: bytes)
    ensures forall i :: 0 <= i < |Pairs(s)| ==> Valid(Pairs(s)[i]) && Pairs(s)[i].id != EOL
    decreases |s|
  {
    if |s| >= 4 {
      var id, n := U16LE(s[..2]), U16LE(s[2..4]);
      if id != EOL && 4 + n <= |s| { PairsAreValid(s[4 + n..]); }
    }
  }

  lemma ReadOnePair(p: Pair, rest: bytes)
    requires Valid(p) && p.id != EOL
    ensures Pairs(EncodePair(p) + rest) == [p] + Pairs(rest)
  {
    hide PutU16LE, U16LE;
    var s := EncodePair(p) + rest;
    U16LERoundTrip(p.id);
    U16LERoundTrip(|p.value|);
    assert s[..2] == PutU16LE(p.id) && s[2..4] == PutU16LE(|p.value|);
    assert s[4..4 + |p.value|] == p.value && s[4 + |p.value|..] == rest;
  }

  lemma ReadTerminator()
    ensures Pairs(EncodePair(Pair(EOL, []))) == []
  {
    U16LERoundTrip(EOL);
    assert EncodePair(Pair(EOL, []))[..2] == PutU16LE(EOL);
  }

  lemma {:induction false} ReadsEncodedPairs(ps: seq<Pair>)
    requires forall i :: 0 <= i < |ps| ==> Valid(ps[i]) && ps[i].id != EOL
    ensures Pairs(EncodePairs(ps) + EncodePair(Pair(EOL, []))) == ps
  {
    hide EncodePair, Pairs;
    var end := EncodePair(Pair(EOL, []));
    if ps == [] {
      assert EncodePairs(ps) + end == end;
      ReadTerminator();
    } else {
      ReadsEncodedPairs(ps[1..]);
      ReadOnePair(ps[0], EncodePairs(ps[1..]) + end);
      assert EncodePairs(ps) + end == EncodePair(ps[0]) + (EncodePairs(ps[1..]) + end);
      assert [ps[0]] + ps[1..] == ps;
    }
  }

  lemma MarkAllAt(ps: seq<Pair>, i: nat)
    requires i < |ps|
    ensures MarkAll(ps)[i] == Marked(ps[i])
  {
    hide Marked;
    if i > 0 { MarkAllAt(ps[1..], i - 1); }
  }

  /** The copy is a well-formed list holding the original pairs, marked. */
  lemma CopyReparses(s: bytes)
    ensures Pairs(WithMicFlag(s)) == Announced(Pairs(s))
  {
    hide Pairs, EncodePair, Marked;
    var ps, qs := Pairs(s), Announced(Pairs(s));
    PairsAreValid(s);
    forall i | 0 <= i < |qs| ensures Valid(qs[i]) && qs[i].id != EOL {
      if i < |ps| { MarkAllAt(ps, i); MarkedIsValid(ps[i]); }
    }
    ReadsEncodedPairs(qs);
  }

  lemma MarkedIsValid(p: Pair)
    requires Valid(p) && p.id != EOL
    ensures Valid(Marked(p)) && Marked(p).id == p.id
  {
  }

  lemma {:induction false} FirstOfAppend(ps: seq<Pair>, qs: seq<Pair>, id: nat)
    ensures First(ps + qs, id) == if First(ps, id).Some? then First(ps, id) else First(qs, id)
  {
    if ps == [] {
      assert ps + qs == qs;
    } else {
      assert (ps + qs)[1..] == ps[1..] + qs;
      FirstOfAppend(ps[1..], qs, id);
    }
  }

  lemma {:induction false} FirstOfMarked(ps: seq<Pair>, id: nat)
    ensures id != FLAGS ==> First(MarkAll(ps), id) == First(ps, id)
    ensures First(MarkAll(ps), FLAGS) ==
            if HasFlags(ps) then Some(PutU32LE(WithMicBit(FlagsWord(First(ps, FLAGS).value)))) else None
  {
    hide PutU32LE, FlagsWord, WithMicBit;
    if ps != [] { FirstOfMarked(ps[1..], id); }
  }

  /** For every byte string, the copy answers every lookup but the flags as the
      original does; the flags it answers with are the original word (zero when
      absent or short) with bit 0x2 set. */
  lemma CopyPreservesLookups(s: bytes, id: nat)
    ensures id != FLAGS ==> First(Pairs(WithMicFlag(s)), id) == First(Pairs(s), id)
    ensures First(Pairs(WithMicFlag(s)), FLAGS) ==
            Some(PutU32LE(WithMicBit(if HasFlags(Pairs(s)) then FlagsWord(First(Pairs(s), FLAGS).value) else 0)))
  {
    hide Pairs, WithMicFlag, PutU32LE, FlagsWord;
    CopyReparses(s);
    var ps := Pairs(s);
    FirstOfMarked(ps, id);
    if !HasFlags(ps) {
      FirstOfAppend(MarkAll(ps), [Pair(FLAGS, PutU32LE(2))], id);
      FirstOfAppend(MarkAll(ps), [Pair(FLAGS, PutU32LE(2))], FLAGS);
    } else {
      assert MarkAll(ps) + [] == MarkAll(ps);
    }
  }

  lemma MarkedTwice(p: Pair)
    ensures Marked(Marked(p)) == Marked(p)
  {
    hide PutU32LE, U32LE;
    if p.id == FLAGS {
      var w := WithMicBit(FlagsWord(p.value));
      MicBitOnly(FlagsWord(p.value));
      U32LERoundTrip(w);
      assert PutU32LE(w)[..4] == PutU32LE(w);
    }
  }

  lemma AddedFlagsAreMarked()
    ensures Marked(Pair(FLAGS, PutU32LE(2))) == Pair(FLAGS, PutU32LE(2))
  {
    U32LERoundTrip(2);
    assert PutU32LE(2)[..4] == PutU32LE(2);
  }

  /** Copying a copy changes nothing. */
  lemma CopyIsIdempotent(s: bytes)
    ensures WithMicFlag(WithMicFlag(s)) == WithMicFlag(s)
  {
    hide Pairs, EncodePair, Marked, PutU32LE;
    var ps := Pairs(s);
    CopyReparses(s);
    CopyPreservesLookups(s, FLAGS);
    var qs := Announced(ps);
    forall i | 0 <= i < |qs| ensures MarkAll(qs)[i] == qs[i] {
      MarkAllAt(qs, i);
      if i < |ps| { MarkAllAt(ps, i); MarkedTwice(ps[i]); } else { AddedFlagsAreMarked(); }
    }
    assert MarkAll(qs) == qs;
    assert qs + [] == qs;
    assert Announced(Pairs(WithMicFlag(s))) == qs;
  }
}
