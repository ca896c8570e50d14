/** The GCC settings blocks of the MCS connect exchange: the client's virtual
    channel names and the ids the server assigns to them. */
module RdpChannels {
  import opened Bytes
  import opened RdpPdu

  const CLIENT_KEY: bytes := [68, 117, 99, 97]    // "Duca"
  const SERVER_KEY: bytes := [77, 99, 68, 110]    // "McDn"
  const CS_NET := 0xC003
  const SC_NET := 0x0C03

  // ------------------------------------------------------------ block lookup

  /** bytes.Index: where `key` first occurs, or |s| when it does not. */
  function Index(s: bytes, key: bytes): (k: nat)
    ensures k <= |s|
  {
    if s == [] then 0
    else if |key| <= |s| && s[..|key|] == key then 0
    else 1 + Index(s[1..], key)
  }

  /** The first block of type `want` in a run of (type, length) blocks. */
  function FindBlock(ud: bytes, want: nat): (b: Option<bytes>)
    ensures b.Some? ==> |b.value| >= 4
    decreases |ud|
  {
    if |ud| < 4 then None else
      var typ, n := U16LE(ud[..2]), U16LE(ud[2..4]);
      if n < 4 || n > |ud| then None
      else if typ == want then Some(ud[..n])
      else FindBlock(ud[n..], want)
  }

  /** gccBlock. */
  function GccBlock(pdu: bytes, key: bytes, want: nat): (b: Option<bytes>)
    requires |key| == 4
    ensures b.Some? ==> |b.value| >= 4
  {
    var k := Index(pdu, key);
    if k + 4 > |pdu| then None else
    match PerRead(pdu[k + 4..])
    case NoPer => None
    case Per(n, consumed) =>
      var p := k + 4 + consumed;
      if p + n > |pdu| then None else FindBlock(pdu[p..p + n], want)
  }

  /** gccBlock's walk over the PDU. */
  method LocateBlock(pdu: bytes, key: bytes, want: nat) returns (block: Option<bytes>)
    requires |key| == 4
    ensures block == GccBlock(pdu, key, want)
  {
    hide Index, U16LE, PerRead;
    var keyIdx := Index(pdu, key);
    var p := keyIdx + 4;
    if p > |pdu| { return None; }
    var per := PerRead(pdu[p..]);
    if per.NoPer? { return None; }
    p := p + per.consumed;
    var end := p + per.length;
    if end > |pdu| { return None; }
    ghost var all := FindBlock(pdu[p..end], want);
    while p + 4 <= end
      invariant p <= end <= |pdu|
      invariant all == FindBlock(pdu[p..end], want)
    {
      ghost var ud := pdu[p..end];
      assert ud[..2] == pdu[p..p + 2] && ud[2..4] == pdu[p + 2..p + 4];
      var blockType, blockLen := U16LE(pdu[p..p + 2]), U16LE(pdu[p + 2..p + 4]);
      if blockLen < 4 || p + blockLen > end { return None; }
      assert ud[..blockLen] == pdu[p..p + blockLen] && ud[blockLen..] == pdu[p + blockLen..end];
      if blockType == want { return Some(pdu[p..p + blockLen]); }
      p := p + blockLen;
    }
    return None;
  }

  // -------------------------------------------------- channel names and ids

  function TrimNul(s: bytes): bytes {
    if s != [] && s[|s| - 1] == 0 then TrimNul(s[..|s| - 1]) else s
  }

  /** Up to `count` 12-byte definitions: an 8-byte name and options. */
  function Names(defs: bytes, count: nat): seq<bytes> {
    if count == 0 || |defs| < 12 then [] else [TrimNul(defs[..8])] + Names(defs[12..], count - 1)
  }

  function Ids(items: bytes, count: nat): seq<nat> {
    if count == 0 || |items| < 2 then [] else [U16LE(items[..2])] + Ids(items[2..], count - 1)
  }

  /** parseClientNetworkData: the requested channel names, when there are any. */
  function ClientNames(pdu: bytes): Option<seq<bytes>> { NamesIn(GccBlock(pdu, CLIENT_KEY, CS_NET)) }

  function NamesIn(block: Option<bytes>): Option<seq<bytes>> {
    match block
    case None => None
    case Some(b) =>
      if |b| < 8 then None else
        var names := Names(b[8..], U32LE(b[4..8]));
        if names == [] then None else Some(names)
  }

  /** parseServerNetworkData: the assigned ids, when there are any. */
  function ServerIds(pdu: bytes): Option<seq<nat>> { IdsIn(GccBlock(pdu, SERVER_KEY, SC_NET)) }

  function IdsIn(block: Option<bytes>): Option<seq<nat>> {
    match block
    case None => None
    case Some(b) =>
      if |b| < 8 then None else
        var ids := Ids(b[8..], U16LE(b[6..8]));
        if ids == [] then None else Some(ids)
  }

  method ParseClientNetworkData(pdu: bytes) returns (names: Option<seq<bytes>>)
    ensures names == ClientNames(pdu)
  {
    hide U32LE, GccBlock, TrimNul;
    var block := LocateBlock(pdu, CLIENT_KEY, CS_NET);
    if block.None? || |block.value| < 8 { return None; }
    var b := block.value;
    var count, p := U32LE(b[4..8]), 8;
    var defs: seq<bytes> := [];
    var i := 0;
    while i < count && p + 12 <= |b|
      invariant 0 <= i <= count && 8 <= p <= |b|
      invariant Names(b[8..], count) == defs + Names(b[p..], count - i)
    {
      assert b[p..][..8] == b[p..p + 8] && b[p..][12..] == b[p + 12..];
      ghost var defs0 := defs;
      defs := defs + [TrimNul(b[p..p + 8])];
      p := p + 12;
      i := i + 1;
      assert defs0 + ([TrimNul(b[p - 12..p - 4])] + Names(b[p..], count - i)) == defs + Names(b[p..], count - i);
    }
    assert defs + [] == defs;
    names := if defs == [] then None else Some(defs);
  }

  method ParseServerNetworkData(pdu: bytes) returns (ids: Option<seq<nat>>)
    ensures ids == ServerIds(pdu)
  {
    hide U16LE, GccBlock;
    var block := LocateBlock(pdu, SERVER_KEY, SC_NET);
    if block.None? || |block.value| < 8 { return None; }
    var b := block.value;
    var count, p := U16LE(b[6..8]), 8;
    var out: seq<nat> := [];
    var i := 0;
    while i < count && p + 2 <= |b|
      invariant 0 <= i <= count && 8 <= p <= |b|
      invariant Ids(b[8..], count) == out + Ids(b[p..], count - i)
    {
      assert b[p..][..2] == b[p..p + 2] && b[p..][2..] == b[p + 2..];
      ghost var out0 := out;
      out := out + [U16LE(b[p..p + 2])];
      p := p + 2;
      i := i + 1;
      assert out0 + ([U16LE(b[p - 2..p])] + Ids(b[p..], count - i)) == out + Ids(b[p..], count - i);
    }
    assert out + [] == out;
    ids := if out == [] then None else Some(out);
  }

  // ---------------------------------------------------------------- theorems

  datatype Block = Block(typ: nat, body: bytes)

  predicate ValidBlock(b: Block) { b.typ < 0x1_0000 && 4 + |b.body| < 0x1_0000 }

  function EncodeBlock(b: Block): (s: bytes)
    ensures |s| == 4 + |b.body|
  {
    PutU16LE(b.typ) + PutU16LE(4 + |b.body|) + b.body
  }

  function EncodeBlocks(bs: seq<Block>): bytes {
    if bs == [] then [] else EncodeBlock(bs[0]) + EncodeBlocks(bs[1..])
  }

  function FirstOfType(bs: seq<Block>, want: nat): Option<bytes> {
    if bs == [] then None
    else if bs[0].typ == want then Some(EncodeBlock(bs[0]))
    else FirstOfType(bs[1..], want)
  }

  lemma FindPastBlock(b: Block, rest: bytes, want: nat)
    requires ValidBlock(b)
    ensures FindBlock(EncodeBlock(b) + rest, want) ==
            if b.typ == want then Some(EncodeBlock(b)) else FindBlock(rest, want)
  {
    hide PutU16LE, U16LE;
    var s, n := EncodeBlock(b) + rest, 4 + |b.body|;
    U16LERoundTrip(b.typ);
    U16LERoundTrip(n);
    assert s[..2] == PutU16LE(b.typ) && s[2..4] == PutU16LE(n);
    assert s[..n] == EncodeBlock(b) && s[n..] == rest;
  }

  lemma {:induction false} FindsFirstBlock(bs: seq<Block>, want: nat)
    requires forall b :: b in bs ==> ValidBlock(b)
    ensures FindBlock(EncodeBlocks(bs), want) == FirstOfType(bs, want)
  {
    hide EncodeBlock, FindBlock;
    if bs == [] {
      FindInNothing(want);
    } else {
      FindPastBlock(bs[0], EncodeBlocks(bs[1..]), want);
      FindsFirstBlock(bs[1..], want);
    }
  }

  lemma FindInNothing(want: nat)
    ensures FindBlock([], want) == None
  {
  }

  /** What the lookup makes of the bytes behind a key: a PER length, then blocks. */
  function BlockBehind(tail: bytes, want: nat): Option<bytes> {
    match PerRead(tail)
    case NoPer => None
    case Per(n, consumed) => if consumed + n > |tail| then None else FindBlock(tail[consumed..consumed + n], want)
  }

  /** In any PDU the lookup reads behind the first occurrence of the key: what stands
      before it, and any later occurrence, plays no part. */
  lemma LookupReadsBehindFirstKey(pdu: bytes, key: bytes, want: nat)
    requires |key| == 4
    ensures GccBlock(pdu, key, want) ==
            if Index(pdu, key) + 4 > |pdu| then None else BlockBehind(pdu[Index(pdu, key) + 4..], want)
  {
    hide Index, FindBlock, PerRead;
    var k := Index(pdu, key);
    if k + 4 <= |pdu| {
      var tail := pdu[k + 4..];
      match PerRead(tail)
      case NoPer =>
      case Per(n, consumed) =>
        if consumed + n <= |tail| {
          assert tail[consumed..consumed + n] == pdu[k + 4 + consumed..k + 4 + consumed + n];
        }
    }
  }

  /** So key bytes that occur early, here before a zero byte at the very start, hide
      whatever settings follow: no channel names are learned from such a PDU. */
  lemma EarlierKeyHidesSettings(settings: bytes)
    ensures ClientNames(CLIENT_KEY + ([0] + settings)) == None
  {
    hide FindBlock;
    var pdu := CLIENT_KEY + ([0] + settings);
    assert pdu[..4] == CLIENT_KEY;
    assert Index(pdu, CLIENT_KEY) == 0;
    LookupReadsBehindFirstKey(pdu, CLIENT_KEY, CS_NET);
    var tail := pdu[4..];
    assert tail == [0] + settings && PerRead(tail) == Per(0, 1) && tail[1..1] == [];
    FindInNothing(CS_NET);
  }

  /** A connect PDU: anything, the key, and the settings blocks behind a PER length. */
  function ConnectPdu(pre: bytes, key: bytes, bs: seq<Block>, post: bytes): bytes {
    pre + key + (PerWrite(|EncodeBlocks(bs)|) + EncodeBlocks(bs) + post)
  }

  ghost predicate AreSettings(key: bytes, bs: seq<Block>) {
    |key| == 4 && (forall b :: b in bs ==> ValidBlock(b)) && |EncodeBlocks(bs)| < 0x8000
  }

  lemma {:induction false} IndexAtMost(pre: bytes, key: bytes, tail: bytes)
    requires |key| == 4
    ensures Index(pre + key + tail, key) <= |pre|
  {
    var s := pre + key + tail;
    if pre == [] {
      assert s[..4] == key;
    } else {
      assert s[1..] == pre[1..] + key + tail;
      IndexAtMost(pre[1..], key, tail);
    }
  }

  /** In a connect PDU the lookup returns the first settings block of the wanted
      type, whatever the other blocks' payloads contain, unless the key's bytes
      occur before the key; it then reads behind that earlier occurrence. */
  lemma BlockOfConnectPdu(pre: bytes, key: bytes, bs: seq<Block>, post: bytes, want: nat)
    requires AreSettings(key, bs)
    ensures var pdu := ConnectPdu(pre, key, bs, post);
            && Index(pdu, key) <= |pre|
            && GccBlock(pdu, key, want) ==
               if Index(pdu, key) == |pre| then FirstOfType(bs, want) else BlockBehind(pdu[Index(pdu, key) + 4..], want)
  {
    hide Index, FindBlock, EncodeBlocks, FirstOfType, PerRead, PerWrite, GccBlock;
    var ud, pdu := EncodeBlocks(bs), ConnectPdu(pre, key, bs, post);
    var per := PerWrite(|ud|);
    IndexAtMost(pre, key, per + ud + post);
    LookupReadsBehindFirstKey(pdu, key, want);
    if Index(pdu, key) == |pre| {
      assert pdu[|pre| + 4..] == per + (ud + post);
      PerRoundTrip(|ud|, ud + post);
      assert (per + (ud + post))[|per|..|per| + |ud|] == ud;
      FindsFirstBlock(bs, want);
    }
  }

  /** An id array as the server writes it. */
  function EncodeIds(ids: seq<nat>): bytes {
    if ids == [] then [] else PutU16LE(ids[0]) + EncodeIds(ids[1..])
  }

  lemma {:induction false} IdsRoundTrip(ids: seq<nat>)
    requires forall i :: 0 <= i < |ids| ==> ids[i] < 0x1_0000
    ensures Ids(EncodeIds(ids), |ids|) == ids
  {
    hide PutU16LE, U16LE;
    if ids != [] {
      U16LERoundTrip(ids[0]);
      IdsRoundTrip(ids[1..]);
      var s := EncodeIds(ids);
      assert s[..2] == PutU16LE(ids[0]) && s[2..] == EncodeIds(ids[1..]);
    }
  }

  /** A name that is not itself padded. */
  predicate ProperName(n: bytes) { 0 < |n| <= 8 && n[|n| - 1] != 0 }

  /** A channel definition: the name padded with NULs to 8 bytes, then options. */
  function EncodeDef(name: bytes, options: bytes): bytes
    requires ProperName(name) && |options| == 4
  {
    name + seq(8 - |name|, _ => 0) + options
  }

  function EncodeDefs(names: seq<bytes>, options: bytes): bytes
    requires |options| == 4 && forall i :: 0 <= i < |names| ==> ProperName(names[i])
  {
    if names == [] then [] else EncodeDef(names[0], options) + EncodeDefs(names[1..], options)
  }

  lemma {:induction false} TrimPadding(name: bytes, pad: nat)
    requires ProperName(name)
    ensures TrimNul(name + seq(pad, _ => 0)) == name
    decreases pad
  {
    var s := name + seq(pad, _ => 0);
    if pad == 0 {
      assert s == name;
    } else {
      assert s[..|s| - 1] == name + seq(pad - 1, _ => 0);
      TrimPadding(name, pad - 1);
    }
  }

  lemma {:induction false} NamesRoundTrip(names: seq<bytes>, options: bytes)
    requires |options| == 4 && forall i :: 0 <= i < |names| ==> ProperName(names[i])
    ensures Names(EncodeDefs(names, options), |names|) == names
  {
    hide TrimNul;
    if names != [] {
      var n, s := names[0], EncodeDefs(names, options);
      TrimPadding(n, 8 - |n|);
      assert s[..8] == n + seq(8 - |n|, _ => 0);
      assert s[12..] == EncodeDefs(names[1..], options);
      NamesRoundTrip(names[1..], options);
    }
  }

  lemma BlockBody(b: Block)
    ensures EncodeBlock(b)[4..] == b.body
  {
  }

  function ClientBlock(names: seq<bytes>, options: bytes): Block
    requires |options| == 4 && forall i :: 0 <= i < |names| ==> ProperName(names[i])
  {
    Block(CS_NET, PutU32LE(|names|) + EncodeDefs(names, options))
  }

  function ServerBlock(io: nat, ids: seq<nat>): Block {
    Block(SC_NET, PutU16LE(io) + PutU16LE(|ids|) + EncodeIds(ids))
  }

  lemma ClientBlockReads(names: seq<bytes>, options: bytes)
    requires |names| < 0x1_0000_0000 && |options| == 4 && forall i :: 0 <= i < |names| ==> ProperName(names[i])
    ensures var b := EncodeBlock(ClientBlock(names, options));
            |b| >= 8 && U32LE(b[4..8]) == |names| && b[8..] == EncodeDefs(names, options)
  {
    hide EncodeBlock, EncodeDefs, U32LE, PutU32LE;
    BlockBody(ClientBlock(names, options));
    var b, body := EncodeBlock(ClientBlock(names, options)), PutU32LE(|names|) + EncodeDefs(names, options);
    assert b[4..8] == body[..4] == PutU32LE(|names|);
    assert b[8..] == body[4..] == EncodeDefs(names, options);
    U32LERoundTrip(|names|);
  }

  lemma ServerBlockReads(io: nat, ids: seq<nat>)
    requires |ids| < 0x1_0000
    ensures var b := EncodeBlock(ServerBlock(io, ids));
            |b| >= 8 && U16LE(b[6..8]) == |ids| && b[8..] == EncodeIds(ids)
  {
    hide EncodeBlock, EncodeIds, U16LE, PutU16LE;
    BlockBody(ServerBlock(io, ids));
    var b, body := EncodeBlock(ServerBlock(io, ids)), PutU16LE(io) + PutU16LE(|ids|) + EncodeIds(ids);
    assert b[6..8] == body[2..4] == PutU16LE(|ids|);
    assert b[8..] == body[4..] == EncodeIds(ids);
    U16LERoundTrip(|ids|);
  }

  /** The names a client asks for are learned in order, when its key comes first. */
  lemma ClientNamesOfConnectInitial(pre: bytes, bs: seq<Block>, post: bytes, names: seq<bytes>, options: bytes)
    requires AreSettings(CLIENT_KEY, bs)
    requires 0 < |names| < 0x1_0000_0000 && |options| == 4 && forall i :: 0 <= i < |names| ==> ProperName(names[i])
    requires FirstOfType(bs, CS_NET) == Some(EncodeBlock(ClientBlock(names, options)))
    ensures var pdu := ConnectPdu(pre, CLIENT_KEY, bs, post);
            && Index(pdu, CLIENT_KEY) <= |pre|
            && ClientNames(pdu) == if Index(pdu, CLIENT_KEY) == |pre| then Some(names)
                                   else NamesIn(BlockBehind(pdu[Index(pdu, CLIENT_KEY) + 4..], CS_NET))
  {
    hide GccBlock, EncodeBlock, EncodeBlocks, FirstOfType, Names, EncodeDefs, U32LE, PutU32LE, Index, ConnectPdu,
         BlockBehind, ClientBlock;
    BlockOfConnectPdu(pre, CLIENT_KEY, bs, post, CS_NET);
    ClientBlockReads(names, options);
    NamesRoundTrip(names, options);
  }

  /** The ids a server assigns are learned in order, when its key comes first. */
  lemma ServerIdsOfConnectResponse(pre: bytes, bs: seq<Block>, post: bytes, io: nat, ids: seq<nat>)
    requires AreSettings(SERVER_KEY, bs)
    requires 0 < |ids| < 0x1_0000 && forall i :: 0 <= i < |ids| ==> ids[i] < 0x1_0000
    requires FirstOfType(bs, SC_NET) == Some(EncodeBlock(ServerBlock(io, ids)))
    ensures var pdu := ConnectPdu(pre, SERVER_KEY, bs, post);
            && Index(pdu, SERVER_KEY) <= |pre|
            && ServerIds(pdu) == if Index(pdu, SERVER_KEY) == |pre| then Some(ids)
                                 else IdsIn(BlockBehind(pdu[Index(pdu, SERVER_KEY) + 4..], SC_NET))
  {
    hide GccBlock, EncodeBlock, EncodeBlocks, FirstOfType, Ids, EncodeIds, U16LE, PutU16LE, Index, ConnectPdu,
         BlockBehind, ServerBlock;
    BlockOfConnectPdu(pre, SERVER_KEY, bs, post, SC_NET);
    ServerBlockReads(io, ids);
    IdsRoundTrip(ids);
  }
}
