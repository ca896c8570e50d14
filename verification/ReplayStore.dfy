/** Recordings at rest: the encrypting decorator, which must also read blobs
    written before encryption, and the verifying decoder. */
module ReplayStore {
  import opened Bytes
  import opened Streams
  import opened Frames
  import opened Recorder

  /** Session and workspace ids as text. */
  type Id = bytes

  datatype Sealed = Sealed(envelope: bytes, version: nat)

  /** The per-workspace envelope encryptor: workspace, plaintext, associated data. */
  datatype Sealer = Sealer(
    encrypt: (Id, bytes, bytes) -> Option<Sealed>,
    decrypt: (Id, bytes, bytes, nat) -> Option<bytes>)

  /** What is sealed opens again, under a key version that fits its field. */
  ghost predicate Lawful(s: Sealer) {
    forall ws: Id, p: bytes, a: bytes :: s.encrypt(ws, p, a).Some? ==>
      var e := s.encrypt(ws, p, a).value;
      e.version < 0x1_0000_0000 && s.decrypt(ws, e.envelope, a, e.version) == Some(p)
  }

  /** Nothing opens under another workspace or other associated data. */
  ghost predicate Authentic(s: Sealer) {
    forall ws: Id, p: bytes, a: bytes, ws': Id, a': bytes ::
      s.encrypt(ws, p, a).Some? && (ws, a) != (ws', a') ==>
      var e := s.encrypt(ws, p, a).value;
      s.decrypt(ws', e.envelope, a', e.version) == None
  }

  const MAGIC: bytes := [83, 78, 82, 49]
  const ENVELOPE_HEADER_LEN := 8
  const REPLAY_COLON: bytes := [114, 101, 112, 108, 97, 121, 58]
  const COLON: byte := 58

  /** replayAAD. */
  function Aad(ws: Id, session: Id): bytes {
    REPLAY_COLON + ws + [COLON] + session
  }

  function Envelope(e: Sealed): bytes {
    MAGIC + PutU32BE(e.version) + e.envelope
  }

  predicate IsEncrypted(stored: bytes) {
    |stored| >= ENVELOPE_HEADER_LEN && stored[..4] == MAGIC
  }

  function Open(sealer: Sealer, ws: Id, session: Id, stored: bytes): Option<bytes> {
    if !IsEncrypted(stored) then Some(stored)
    else sealer.decrypt(ws, stored[ENVELOPE_HEADER_LEN..], Aad(ws, session), U32BE(stored[4..8]))
  }

  datatype Fetched = Found(plaintext: bytes) | NotFound | Failed

  class EncryptingReplayStore {
    var inner: map<Id, bytes>
    const sealer: Sealer
    const resolve: Id -> Option<Id>

    constructor (blobs: map<Id, bytes>, sealer: Sealer, resolve: Id -> Option<Id>)
      ensures inner == blobs && this.sealer == sealer && this.resolve == resolve
    {
      this.inner, this.sealer, this.resolve := blobs, sealer, resolve;
    }

    method PutReplay(session: Id, plaintext: bytes) returns (ok: bool)
      modifies this
      ensures ok == (session != [] && resolve(session).Some? &&
                     var ws := resolve(session).value; sealer.encrypt(ws, plaintext, Aad(ws, session)).Some?)
      ensures ok ==> var ws := resolve(session).value;
                     inner == old(inner)[session := Envelope(sealer.encrypt(ws, plaintext, Aad(ws, session)).value)]
      ensures !ok ==> inner == old(inner)
    {
      ok := false;
      if session == [] { return; }
      var ws := resolve(session);
      if ws.None? { return; }
      var sealed := sealer.encrypt(ws.value, plaintext, Aad(ws.value, session));
      if sealed.None? { return; }
      var framed := MAGIC;
      framed := framed + PutU32BE(sealed.value.version);
      framed := framed + sealed.value.envelope;
      inner, ok := inner[session := framed], true;
    }

    method GetReplay(session: Id) returns (r: Fetched)
      ensures r == match resolve(session)
                   case None => Failed
                   case Some(ws) => if ws == [] then Failed else Fetch(inner, sealer, ws, session)
    {
      var ws := resolve(session);
      if ws.None? { return Failed; }
      r := GetReplayForWorkspace(ws.value, session);
    }

    method GetReplayForWorkspace(ws: Id, session: Id) returns (r: Fetched)
      ensures r == if ws == [] then Failed else Fetch(inner, sealer, ws, session)
    {
      if ws == [] { return Failed; }
      if session !in inner { return NotFound; }
      var plaintext := Open(sealer, ws, session, inner[session]);
      r := if plaintext.Some? then Found(plaintext.value) else Failed;
    }
  }

  function Fetch(inner: map<Id, bytes>, sealer: Sealer, ws: Id, session: Id): Fetched {
    if session !in inner then NotFound else
    match Open(sealer, ws, session, inner[session])
    case None => Failed
    case Some(plaintext) => Found(plaintext)
  }

  /** The integrity descriptor a flush leaves behind. */
  datatype Descriptor = Descriptor(sha256: bytes, size: nat, truncated: bool, stored: bool)

  /** Flush: the digest covers exactly the bytes handed to the store, and the
      descriptor says stored only when the store took them. */
  method Flush(rec: IORecorder, store: EncryptingReplayStore?, session: Id, sha: Digest)
    returns (failed: bool, d: Option<Descriptor>)
    modifies rec, store
    ensures rec.Now() == Apply(old(rec.Now()), Recorder.Flush)
    ensures old(rec.closed) ==> !failed && d == None && (store != null ==> store.inner == old(store.inner))
    ensures !old(rec.closed) ==>
              d == Some(Descriptor(Hex(sha(rec.buf)), |rec.buf|, rec.truncated, store != null && !failed))
    ensures !old(rec.closed) && store != null ==>
              (!failed <==> session != [] && store.resolve(session).Some? &&
                            var ws := store.resolve(session).value;
                            store.sealer.encrypt(ws, rec.buf, Aad(ws, session)).Some?)
    ensures !old(rec.closed) && store != null && !failed ==>
              session in store.inner && store.resolve(session).Some? &&
              var ws := store.resolve(session).value;
              store.sealer.encrypt(ws, rec.buf, Aad(ws, session)).Some? &&
              store.inner[session] == Envelope(store.sealer.encrypt(ws, rec.buf, Aad(ws, session)).value)
  {
    hide Hex, Envelope, Aad;
    failed, d := false, None;
    var first, snapshot := rec.Close();
    if !first { return; }
    var descriptor := Descriptor(Hex(sha(snapshot)), |snapshot|, rec.truncated, false);
    if store == null { return false, Some(descriptor); }
    var ok := store.PutReplay(session, snapshot);
    failed, d := !ok, Some(descriptor.(stored := ok));
  }

  // ------------------------------------------------------------ verifying decode

  const MAX_DECODE_BYTES := 256 * 1024 * 1024

  type Digest = bytes -> bytes

  function HexDigit(n: int): byte
    requires 0 <= n < 16
  {
    if n < 10 then 48 + n else 87 + n
  }

  function Hex(b: bytes): (h: bytes)
    ensures |h| == 2 * |b|
  {
    if b == [] then [] else [HexDigit(b[0] as int / 16), HexDigit(b[0] as int % 16)] + Hex(b[1..])
  }

  predicate IsSpace(b: byte) { b == 32 || 9 <= b <= 13 }

  function TrimSpace(s: bytes): bytes {
    if s != [] && IsSpace(s[0]) then TrimSpace(s[1..])
    else if s != [] && IsSpace(s[|s| - 1]) then TrimSpace(s[..|s| - 1])
    else s
  }

  function Lower(b: byte): byte { if 65 <= b <= 90 then b + 32 else b }

  predicate EqualFold(a: bytes, b: bytes) {
    |a| == |b| && forall i :: 0 <= i < |a| ==> Lower(a[i]) == Lower(b[i])
  }

  datatype DecodeResult =
    | Recording(frames: seq<ReplayFrame>, size: nat, sha256: bytes, verified: bool, truncated: bool)
    | TooLarge
    | Corrupt(length: nat)

  function Decode(raw: bytes, expected: bytes, sha: Digest): DecodeResult {
    if |raw| > MAX_DECODE_BYTES then TooLarge
    else
      var d, got := Parse(raw), Hex(sha(raw));
      if d.end.FrameTooLong? then Corrupt(d.end.length)
      else Recording(d.frames, |raw|, got, expected != [] && EqualFold(got, TrimSpace(expected)),
                     d.end == UnexpectedEOF)
  }

  /** DecodeAndVerify, reading at most one byte more than it accepts. */
  method DecodeAndVerify(r: Reader, expected: bytes, sha: Digest) returns (out: DecodeResult)
    modifies r
    ensures out == Decode(old(r.rest), expected, sha)
  {
    hide Hex, EqualFold, TrimSpace, Parse;
    var limit := MAX_DECODE_BYTES + 1;
    var raw := if |r.rest| > limit then r.rest[..limit] else r.rest;
    r.rest := r.rest[|raw|..];
    if |raw| > MAX_DECODE_BYTES { return TooLarge; }
    var got := Hex(sha(raw));
    var buffered := new Reader(raw);
    var frames, end := ParseReplay(buffered);
    var truncated := end == UnexpectedEOF;
    if end != Clean && !truncated { return Corrupt(end.length); }
    out := Recording(frames, |raw|, got, expected != [] && EqualFold(got, TrimSpace(expected)), truncated);
  }

  // ------------------------------------------------------------------ theorems

  lemma EnvelopeOpens(sealer: Sealer, ws: Id, session: Id, plaintext: bytes)
    requires Lawful(sealer) && sealer.encrypt(ws, plaintext, Aad(ws, session)).Some?
    ensures Open(sealer, ws, session, Envelope(sealer.encrypt(ws, plaintext, Aad(ws, session)).value)) ==
            Some(plaintext)
  {
    hide Aad, PutU32BE, U32BE;
    var e := sealer.encrypt(ws, plaintext, Aad(ws, session)).value;
    assert e.version < 0x1_0000_0000;
    var b := Envelope(e);
    assert b[..4] == MAGIC && b[4..8] == PutU32BE(e.version) && b[8..] == e.envelope;
    U32BERoundTrip(e.version);
  }

  /** A blob copied to another session or another tenant is refused. */
  lemma MovedBlobIsRefused(sealer: Sealer, ws: Id, session: Id, ws': Id, session': Id, plaintext: bytes)
    requires Lawful(sealer) && Authentic(sealer)
    requires sealer.encrypt(ws, plaintext, Aad(ws, session)).Some? && (ws, session) != (ws', session')
    ensures Open(sealer, ws', session', Envelope(sealer.encrypt(ws, plaintext, Aad(ws, session)).value)) == None
  {
    hide PutU32BE, U32BE;
    var e := sealer.encrypt(ws, plaintext, Aad(ws, session)).value;
    assert e.version < 0x1_0000_0000;
    var b := Envelope(e);
    assert b[..4] == MAGIC && b[4..8] == PutU32BE(e.version) && b[8..] == e.envelope;
    U32BERoundTrip(e.version);
    if ws == ws' {
      var n := |REPLAY_COLON + ws + [COLON]|;
      assert Aad(ws, session)[n..] == session && Aad(ws, session')[n..] == session';
    }
    var a, a' := Aad(ws, session), Aad(ws', session');
    assert (ws, a) != (ws', a');
    assert sealer.decrypt(ws', e.envelope, a', e.version) == None;
  }

  /** The associated data alone determines workspace and session, as long as
      workspace ids hold no colon. */
  lemma AadIsInjective(ws: Id, session: Id, ws': Id, session': Id)
    requires COLON !in ws && COLON !in ws'
    requires Aad(ws, session) == Aad(ws', session')
    ensures ws == ws' && session == session'
  {
    var a, n, n' := Aad(ws, session), |REPLAY_COLON| + |ws|, |REPLAY_COLON| + |ws'|;
    assert a[n] == COLON && a[n'] == COLON;
    assert forall i :: |REPLAY_COLON| <= i < n ==> a[i] == ws[i - |REPLAY_COLON|];
    assert forall i :: |REPLAY_COLON| <= i < n' ==> a[i] == ws'[i - |REPLAY_COLON|];
    assert n == n';
    assert a[|REPLAY_COLON|..n] == ws && a[|REPLAY_COLON|..n] == ws';
    assert a[n + 1..] == session && a[n + 1..] == session';
  }

  /** With a colon it does not: two different pairs share their associated data. */
  lemma AadCollidesThroughColon()
    ensures Aad([97, COLON, 98], [99]) == Aad([97], [98, COLON, 99])
  {
  }

  ghost predicate StartsWithTag(b: bytes) {
    b == [] || b[0] == Tag(DirInput) || b[0] == Tag(DirOutput) || b[0] == Tag(DirControl)
  }

  lemma {:induction false} RecordingStartsWithTag(st: State, ops: seq<Op>)
    requires StartsWithTag(st.buf)
    ensures StartsWithTag(Run(st, ops).buf)
    decreases |ops|
  {
    hide PutU64BE, PutU32BE;
    if ops != [] { RecordingStartsWithTag(Apply(st, ops[0]), ops[1..]); }
  }

  /** No run of the recorder produces bytes that look encrypted, so a recording
      stored before encryption comes back unchanged. */
  lemma LegacyRecordingPassesThrough(limit: int, ops: seq<Op>, sealer: Sealer, ws: Id, session: Id)
    ensures var buf := Run(Initial(limit), ops).buf;
            !IsEncrypted(buf) && Open(sealer, ws, session, buf) == Some(buf)
  {
    hide Run;
    RecordingStartsWithTag(Initial(limit), ops);
    var buf := Run(Initial(limit), ops).buf;
    assert |buf| >= 4 ==> buf[..4][0] == buf[0];
  }

  lemma {:induction false} HexHasNoSpace(b: bytes)
    ensures forall i :: 0 <= i < |Hex(b)| ==> !IsSpace(Hex(b)[i])
  {
    if b != [] {
      HexHasNoSpace(b[1..]);
    }
  }

  /** What decoding a recording of `transcript` gives, with the digest anchored at
      its flush: the size limit first, then the first frame over the bound, and
      otherwise the whole transcript, verified and never marked truncated. */
  function Replayed(transcript: seq<Frame>, buf: bytes, sha: Digest): DecodeResult {
    var i := FirstOversize(transcript);
    if |buf| > MAX_DECODE_BYTES then TooLarge
    else if i < |transcript| then Corrupt(|transcript[i].payload|)
    else Recording(Views(transcript), |buf|, Hex(sha(buf)), true, false)
  }

  /** The transcript of a session: defined without the buffer. */
  function SessionTranscript(limit: int, ops: seq<Op>): seq<Frame> {
    Transcript(FramesOf(Offered(ops, false, false)), Initial(limit).maxBytes)
  }

  lemma SessionDecodes(limit: int, ops: seq<Op>, sha: Digest)
    requires (forall op :: op in ops ==> OpTimed(op)) && forall b: bytes :: |sha(b)| == 32
    ensures var buf := Run(Initial(limit), ops).buf;
            Decode(buf, Hex(sha(buf)), sha) == Replayed(SessionTranscript(limit, ops), buf, sha)
  {
    hide Run, Parse, Hex, Transcript, Offered, FirstOversize;
    var buf, fs := Run(Initial(limit), ops).buf, SessionTranscript(limit, ops);
    BufferDecodesToTranscript(limit, ops);
    if |buf| <= MAX_DECODE_BYTES {
      forall f | f in fs ensures Timed(f) && |f.payload| < 0x1_0000_0000 {
        var i :| 0 <= i < |fs| && fs[i] == f;
        PayloadWithinRecording(fs, i);
      }
      DecodesUpToFirstOversize(fs);
    }
    HexHasNoSpace(sha(buf));
    assert TrimSpace(Hex(sha(buf))) == Hex(sha(buf));
  }

  /** Every session the recorder can hold, sealed, opened again and decoded, gives
      back its transcript with the digest anchored at flush verified, if and only
      if it is within the decoder's size limit and every frame within its bound. */
  lemma StoredSessionVerifies(limit: int, ops: seq<Op>, sealer: Sealer, ws: Id, session: Id, sha: Digest)
    requires forall op :: op in ops ==> OpTimed(op)
    requires Lawful(sealer) && forall b: bytes :: |sha(b)| == 32
    requires sealer.encrypt(ws, Run(Initial(limit), ops).buf, Aad(ws, session)).Some?
    ensures var buf := Run(Initial(limit), ops).buf;
            var stored := Envelope(sealer.encrypt(ws, buf, Aad(ws, session)).value);
            && Open(sealer, ws, session, stored) == Some(buf)
            && Decode(buf, Hex(sha(buf)), sha) == Replayed(SessionTranscript(limit, ops), buf, sha)
  {
    hide Run, Open, Envelope, Lawful, Aad, Decode, Replayed;
    EnvelopeOpens(sealer, ws, session, Run(Initial(limit), ops).buf);
    SessionDecodes(limit, ops, sha);
  }

  /** The decoder's truncated flag says what the recorder's said, if and only if the
      session fitted under the recorder's cap. */
  lemma TruncationFlagsAgree(limit: int, ops: seq<Op>, sha: Digest)
    requires (forall op :: op in ops ==> OpTimed(op)) && forall b: bytes :: |sha(b)| == 32
    requires Decode(Run(Initial(limit), ops).buf, Hex(sha(Run(Initial(limit), ops).buf)), sha).Recording?
    ensures var st := Run(Initial(limit), ops);
            var offered := FramesOf(Offered(ops, false, false));
            Decode(st.buf, Hex(sha(st.buf)), sha).truncated == st.truncated <==>
            FitCount(offered, Initial(limit).maxBytes) == |offered|
  {
    hide Run, Decode, Offered, FitCount, Transcript;
    SessionDecodes(limit, ops, sha);
    BufferDecodesToTranscript(limit, ops);
  }

  /** The two flags apart: one byte offered to a recorder with room for none. */
  lemma CappedSessionLooksWhole(sha: Digest)
    requires forall b: bytes :: |sha(b)| == 32
    ensures var st := Run(Initial(1), [Record(DirInput, 0, [120])]);
            var decoded := Decode(st.buf, Hex(sha(st.buf)), sha);
            st.truncated && decoded.Recording? && !decoded.truncated
  {
    hide Decode, EncodeFrame;
    var op := Record(DirInput, 0, [120]);
    var st := Run(Initial(1), [op]);
    assert [op][1..] == [] && Run(Apply(Initial(1), op), []) == Apply(Initial(1), op);
    assert st == Apply(Initial(1), op);
    assert st.truncated && st.buf == [] + EncodeFrame(TruncationFrame(0));
    SessionDecodes(1, [op], sha);
    var f := Frame(Tag(DirInput), 0, [120]);
    assert Offered([], false, false) == [];
    assert Offered([op], false, false) == [Entry(f, Payload)] + [];
    assert FramesOf([Entry(f, Payload)]) == [f];
    assert SessionTranscript(1, [op]) == [] + [TruncationFrame(0)];
  }

  /** A session's whole way: flushed, fetched and decoded by the methods above. It
      fails where the flush does, and where the workspace id is empty. */
  method FlushAndReplay(rec: IORecorder, store: EncryptingReplayStore, session: Id, sha: Digest, ghost limit: int,
                        ghost ops: seq<Op>)
    returns (replayed: bool, out: DecodeResult)
    requires rec.Now() == Run(Initial(limit), ops) && !rec.closed && forall op :: op in ops ==> OpTimed(op)
    requires Lawful(store.sealer) && forall b: bytes :: |sha(b)| == 32
    modifies rec, store
    ensures replayed ==> out == Replayed(SessionTranscript(limit, ops), rec.buf, sha)
    ensures replayed <==> session != [] && store.resolve(session).Some? && store.resolve(session).value != [] &&
                          var ws := store.resolve(session).value;
                          store.sealer.encrypt(ws, rec.buf, Aad(ws, session)).Some?
  {
    hide Run, Decode, Replayed, SessionTranscript, Hex, Lawful, Envelope, Aad, Open;
    out := TooLarge;
    ghost var buf := rec.buf;
    var failed, d := Flush(rec, store, session, sha);
    replayed := false;
    if failed { return; }
    var fetched := store.GetReplay(session);
    if !fetched.Found? {
      ghost var ws := store.resolve(session).value;
      if ws != [] { EnvelopeOpens(store.sealer, ws, session, buf); }
      return;
    }
    ghost var ws := store.resolve(session).value;
    EnvelopeOpens(store.sealer, ws, session, buf);
    SessionDecodes(limit, ops, sha);
    replayed := true;
    var reader := new Reader(fetched.plaintext);
    out := DecodeAndVerify(reader, d.value.sha256, sha);
  }
}
