/** The session recorder: a capped, framed log with a soft-pause flag. */
module Recorder {
  import opened Bytes
  import opened Frames

  datatype Direction = DirInput | DirOutput | DirControl

  function Tag(d: Direction): byte {
    match d
    case DirInput => 73
    case DirOutput => 79
    case DirControl => 67
  }

  const DEFAULT_MAX_BYTES := 64 * 1024 * 1024

  // The notes the recorder writes itself, as UTF-8.
  const PAUSED_NOTE: bytes := Ascii("[session paused by administrator]")
  const RESUMED_NOTE: bytes := Ascii("[session resumed by administrator]")
  const TRUNCATED_NOTE: bytes := Ascii("[recording truncated: size cap reached]")

  function Ascii(s: string): (b: bytes)
    ensures |b| == |s|
  {
    seq(|s|, i requires 0 <= i < |s| => if s[i] as int < 128 then s[i] as int else 63)
  }

  /** Everything r.mu guards, except the monitors and the flush result. */
  datatype State = State(maxBytes: nat, buf: bytes, truncated: bool, closed: bool, paused: bool, aborted: bool)

  function Initial(maxBytes: int): State {
    State(if maxBytes <= 0 then DEFAULT_MAX_BYTES else maxBytes, [], false, false, false, false)
  }

  /** appendLocked. */
  function Append(st: State, f: Frame): State {
    if st.truncated then st
    else if |st.buf| + HEADER_LEN + |f.payload| > st.maxBytes then
      st.(truncated := true, buf := st.buf + EncodeFrame(TruncationFrame(f.at)))
    else st.(buf := st.buf + EncodeFrame(f))
  }

  function TruncationFrame(at: int): Frame { Frame(Tag(DirControl), at, TRUNCATED_NOTE) }
  function PausedFrame(at: int): Frame { Frame(Tag(DirControl), at, PAUSED_NOTE) }
  function ResumedFrame(at: int): Frame { Frame(Tag(DirControl), at, RESUMED_NOTE) }

  /** The critical sections a session can run, in whatever order they get the lock. */
  datatype Op =
    | Record(dir: Direction, at: int, payload: bytes)
    | Pause(at: int)
    | Resume(at: int)
    | Interrupt
    | Cancel
    | Flush

  function Apply(st: State, op: Op): State {
    match op
    case Record(dir, at, payload) =>
      if payload == [] || st.closed then st else Append(st, Frame(Tag(dir), at, payload))
    case Pause(at) =>
      if st.paused then st
      else
        var st' := st.(paused := true);
        if st.closed then st' else Append(st', PausedFrame(at))
    case Resume(at) =>
      if !st.paused then st
      else
        var st' := st.(paused := false);
        if st.closed then st' else Append(st', ResumedFrame(at))
    case Interrupt => st.(aborted := true)
    case Cancel => st.(aborted := true)
    case Flush => st.(closed := true)
  }

  function Run(st: State, ops: seq<Op>): State
    decreases |ops|
  {
    if ops == [] then st else Run(Apply(st, ops[0]), ops[1..])
  }

  class IORecorder {
    const maxBytes: nat
    var buf: bytes
    var truncated: bool
    var closed: bool
    var paused: bool
    var aborted: bool

    function Now(): State
      reads this
    {
      State(maxBytes, buf, truncated, closed, paused, aborted)
    }

    constructor (limit: int)
      ensures Now() == Initial(limit)
    {
      maxBytes := if limit <= 0 then DEFAULT_MAX_BYTES else limit;
      buf, truncated, closed, paused, aborted := [], false, false, false, false;
    }

    method RecordFrame(dir: Direction, at: int, payload: bytes)
      modifies this
      ensures Now() == Apply(old(Now()), Record(dir, at, payload))
    {
      if payload == [] { return; }
      if !closed {
        AppendLocked(Frame(Tag(dir), at, payload));
      }
    }

    method AppendLocked(f: Frame)
      modifies this
      ensures Now() == Append(old(Now()), f)
    {
      if truncated { return; }
      if |buf| + HEADER_LEN + |f.payload| > maxBytes {
        truncated := true;
        WriteFrameLocked(TruncationFrame(f.at));
        return;
      }
      WriteFrameLocked(f);
    }

    method WriteFrameLocked(f: Frame)
      modifies this`buf
      ensures buf == old(buf) + EncodeFrame(f)
    {
      var hdr := new byte[HEADER_LEN];
      var stamp := PutU64BE(f.at % TWO_64);
      var length := PutU32BE(|f.payload|);
      hdr[0] := f.dir;
      forall i | 0 <= i < 8 { hdr[1 + i] := stamp[i]; }
      forall i | 0 <= i < 4 { hdr[9 + i] := length[i]; }
      assert hdr[..] == FrameHeader(f);
      buf := buf + hdr[..];
      buf := buf + f.payload;
    }

    method PauseInput(at: int)
      modifies this
      ensures Now() == Apply(old(Now()), Pause(at))
    {
      if paused { return; }
      paused := true;
      if !closed { AppendLocked(PausedFrame(at)); }
    }

    method ResumeInput(at: int)
      modifies this
      ensures Now() == Apply(old(Now()), Resume(at))
    {
      if !paused { return; }
      paused := false;
      if !closed { AppendLocked(ResumedFrame(at)); }
    }

    /** Interrupt, and equally the context watcher. */
    method Abort()
      modifies this
      ensures Now() == Apply(old(Now()), Interrupt) == Apply(old(Now()), Cancel)
    {
      aborted := true;
    }

    /** Flush: closes once, handing out the bytes to hash and store. */
    method Close() returns (first: bool, snapshot: bytes)
      modifies this
      ensures Now() == Apply(old(Now()), Flush)
      ensures first == !old(closed) && (first ==> snapshot == buf)
    {
      first, snapshot := !closed, [];
      if closed { return; }
      closed := true;
      snapshot := buf;
    }
  }

  // ------------------------------------- what a session offers to the recorder

  datatype Origin = Payload | PauseMark | ResumeMark
  datatype Entry = Entry(frame: Frame, origin: Origin)

  function NextPaused(paused: bool, op: Op): bool {
    if op.Pause? then true else if op.Resume? then false else paused
  }

  /** What one operation offers, given the pause flag and whether the log is closed. */
  function OfferedNow(op: Op, paused: bool, closed: bool): (now: seq<Entry>)
    ensures |now| <= 1
  {
    if closed then [] else
    match op
    case Record(dir, at, payload) => if payload == [] then [] else [Entry(Frame(Tag(dir), at, payload), Payload)]
    case Pause(at) => if paused then [] else [Entry(PausedFrame(at), PauseMark)]
    case Resume(at) => if !paused then [] else [Entry(ResumedFrame(at), ResumeMark)]
    case Interrupt => []
    case Cancel => []
    case Flush => []
  }

  /** The frames a run of operations offers to an unbounded log. */
  function Offered(ops: seq<Op>, paused: bool, closed: bool): seq<Entry> {
    if ops == [] then []
    else OfferedNow(ops[0], paused, closed) + Offered(ops[1..], NextPaused(paused, ops[0]), closed || ops[0].Flush?)
  }

  function FramesOf(es: seq<Entry>): (fs: seq<Frame>)
    ensures |fs| == |es|
  {
    seq(|es|, i requires 0 <= i < |es| => es[i].frame)
  }

  /** The transcript: the frames that fit, then one truncation marker if any did not. */
  function Transcript(fs: seq<Frame>, room: int): seq<Frame> {
    var n := FitCount(fs, room);
    fs[..n] + (if n < |fs| then [TruncationFrame(fs[n].at)] else [])
  }

  // ------------------------------------------------------------------ theorems

  /** Offering one frame first. */
  lemma TranscriptCons(f: Frame, fs: seq<Frame>, room: int)
    ensures Transcript([f] + fs, room) ==
            if |EncodeFrame(f)| > room then [TruncationFrame(f.at)]
            else [f] + Transcript(fs, room - |EncodeFrame(f)|)
  {
    hide EncodeFrame;
    var all := [f] + fs;
    assert all[1..] == fs;
    if |EncodeFrame(f)| <= room {
      var n := FitCount(fs, room - |EncodeFrame(f)|);
      assert all[..n + 1] == [f] + fs[..n];
    }
  }

  /** Once the cap was hit nothing is written again. */
  lemma {:induction false} TruncatedStays(st: State, ops: seq<Op>)
    requires st.truncated
    ensures Run(st, ops).buf == st.buf && Run(st, ops).truncated
    decreases |ops|
  {
    hide EncodeFrame;
    if ops != [] { TruncatedStays(Apply(st, ops[0]), ops[1..]); }
  }

  ghost predicate Holds(st: State, start: State, fs: seq<Frame>) {
    var room := start.maxBytes - |start.buf|;
    st.buf == start.buf + EncodeFrames(Transcript(fs, room)) &&
    st.truncated == (FitCount(fs, room) < |fs|)
  }

  /** Appending `f` and then running the rest, against offering `f` first. */
  lemma AppendStep(start: State, f: Frame, ops: seq<Op>, fs: seq<Frame>)
    requires !start.truncated
    requires !Append(start, f).truncated ==> Holds(Run(Append(start, f), ops), Append(start, f), fs)
    ensures Holds(Run(Append(start, f), ops), start, [f] + fs)
  {
    hide EncodeFrame, EncodeFrames, Run, FitCount, Transcript, TruncationFrame;
    var room, next := start.maxBytes - |start.buf|, Append(start, f);
    TranscriptCons(f, fs, room);
    FitCountCons(f, fs, room);
    if next.truncated {
      TruncatedStays(next, ops);
      EncodeOne(TruncationFrame(f.at));
    } else {
      var rest := Transcript(fs, room - |EncodeFrame(f)|);
      EncodeCons(f, rest);
      Regroup(start.buf, EncodeFrame(f), EncodeFrames(rest));
    }
  }

  lemma FitCountCons(f: Frame, fs: seq<Frame>, room: int)
    ensures FitCount([f] + fs, room) == if |EncodeFrame(f)| > room then 0 else 1 + FitCount(fs, room - |EncodeFrame(f)|)
  {
    hide EncodeFrame;
    assert ([f] + fs)[1..] == fs;
  }

  lemma EncodeCons(f: Frame, fs: seq<Frame>)
    ensures EncodeFrames([f] + fs) == EncodeFrame(f) + EncodeFrames(fs)
  {
    hide EncodeFrame;
    assert ([f] + fs)[1..] == fs;
  }

  lemma EncodeOne(f: Frame)
    ensures EncodeFrames([f]) == EncodeFrame(f)
  {
    hide EncodeFrame;
    assert [f][1..] == [];
  }

  lemma {:induction false} RunWritesTranscript(start: State, ops: seq<Op>)
    requires !start.truncated
    ensures Holds(Run(start, ops), start, FramesOf(Offered(ops, start.paused, start.closed)))
    decreases |ops|
  {
    hide EncodeFrame, Holds, Append;
    if ops == [] {
      NothingOffered(start);
    } else {
      var rest := ops[1..];
      var op, next := ops[0], Apply(start, ops[0]);
      var later := Offered(rest, NextPaused(start.paused, op), start.closed || op.Flush?);
      var now := OfferedNow(op, start.paused, start.closed);
      assert Offered(ops, start.paused, start.closed) == now + later;
      if now == [] {
        assert FramesOf(now + later) == FramesOf(later);
        SilentStep(start, op);
        RunWritesTranscript(next, rest);
        SameRoom(Run(next, rest), start, next, FramesOf(later));
      } else {
        var f, base := now[0].frame, start.(paused := NextPaused(start.paused, op));
        assert FramesOf(now + later) == [f] + FramesOf(later);
        LoudStep(start, op);
        AppendKeepsFlags(base, f);
        if !next.truncated { RunWritesTranscript(next, rest); }
        AppendStep(base, f, rest, FramesOf(later));
        SameRoom(Run(next, rest), start, base, [f] + FramesOf(later));
      }
    }
  }

  lemma NothingOffered(start: State)
    requires !start.truncated
    ensures Holds(start, start, FramesOf([]))
  {
    assert FramesOf([]) == [];
    assert Transcript([], start.maxBytes - |start.buf|) == [];
  }

  /** An operation that offers nothing leaves the log alone. */
  lemma SilentStep(start: State, op: Op)
    requires OfferedNow(op, start.paused, start.closed) == []
    ensures Apply(start, op) == start.(paused := NextPaused(start.paused, op),
                                       closed := start.closed || op.Flush?,
                                       aborted := start.aborted || op.Interrupt? || op.Cancel?)
  {
  }

  /** An operation that offers a frame is the flag change and the append. */
  lemma LoudStep(start: State, op: Op)
    requires OfferedNow(op, start.paused, start.closed) != []
    ensures Apply(start, op) == Append(start.(paused := NextPaused(start.paused, op)),
                                       OfferedNow(op, start.paused, start.closed)[0].frame)
  {
  }

  lemma AppendKeepsFlags(st: State, f: Frame)
    ensures Append(st, f).paused == st.paused && Append(st, f).closed == st.closed
  {
  }

  lemma SameRoom(st: State, a: State, b: State, fs: seq<Frame>)
    requires a.maxBytes == b.maxBytes && a.buf == b.buf && Holds(st, b, fs)
    ensures Holds(st, a, fs)
  {
  }

  /** For every sequence of operations, decoding the buffer gives exactly the
      frames accepted before the cap was hit, then at most one truncation marker
      and nothing after it, if and only if every one of those frames is within the
      decoder's bound; a frame the cap refused does no harm. */
  lemma BufferDecodesToTranscript(limit: int, ops: seq<Op>)
    requires forall op :: op in ops ==> OpTimed(op)
    ensures var st := Run(Initial(limit), ops);
            var offered := FramesOf(Offered(ops, false, false));
            var transcript := Transcript(offered, Initial(limit).maxBytes);
            && st.buf == EncodeFrames(transcript) && (forall f :: f in transcript ==> Timed(f))
            && (Parse(st.buf) == Decoded(Views(transcript), Clean) <==>
                  forall f :: f in transcript ==> |f.payload| <= MAX_FRAME_PAYLOAD)
            && st.truncated == (FitCount(offered, Initial(limit).maxBytes) < |offered|)
  {
    hide EncodeFrame, Parse;
    var start, offered := Initial(limit), FramesOf(Offered(ops, false, false));
    RunWritesTranscript(start, ops);
    OfferedAreTimed(ops, false, false);
    TranscriptIsTimed(offered, start.maxBytes);
    var fs := Transcript(offered, start.maxBytes);
    assert Run(start, ops).buf == EncodeFrames(fs);
    DecodesExactlyWithinBound(fs);
  }

  predicate OpTimed(op: Op) {
    match op
    case Record(_, at, _) => -TWO_63 <= at < TWO_63
    case Pause(at) => -TWO_63 <= at < TWO_63
    case Resume(at) => -TWO_63 <= at < TWO_63
    case _ => true
  }

  lemma {:induction false} OfferedAreTimed(ops: seq<Op>, paused: bool, closed: bool)
    requires forall op :: op in ops ==> OpTimed(op)
    ensures forall i :: 0 <= i < |Offered(ops, paused, closed)| ==> Timed(Offered(ops, paused, closed)[i].frame)
  {
    if ops != [] {
      assert OpTimed(ops[0]);
      OfferedAreTimed(ops[1..], NextPaused(paused, ops[0]), closed || ops[0].Flush?);
    }
  }

  lemma TranscriptIsTimed(fs: seq<Frame>, room: int)
    requires forall i :: 0 <= i < |fs| ==> Timed(fs[i])
    ensures forall f :: f in Transcript(fs, room) ==> Timed(f)
  {
  }

  /** At the default cap the recorder keeps any one payload that leaves room for its
      header, and the decoder refuses the recording when it is beyond 32 MiB. */
  lemma LongRecordIsKeptAndRefused(dir: Direction, at: int, payload: bytes)
    requires -TWO_63 <= at < TWO_63 && MAX_FRAME_PAYLOAD < |payload| <= DEFAULT_MAX_BYTES - HEADER_LEN
    ensures var st := Run(Initial(0), [Record(dir, at, payload)]);
            !st.truncated && Parse(st.buf) == Decoded([], FrameTooLong(|payload|))
  {
    hide EncodeFrame, Parse;
    var f, op := Frame(Tag(dir), at, payload), Record(dir, at, payload);
    assert [op][1..] == [];
    assert Run(Initial(0), [op]) == Apply(Initial(0), op);
    assert Apply(Initial(0), op).buf == [] + EncodeFrame(f) == EncodeFrame(f);
    OversizeFrameStopsDecoding([], f, []);
    assert [] + (EncodeFrame(f) + []) == EncodeFrame(f);
  }

  /** The buffer never exceeds the cap by more than one marker frame. */
  lemma BufferIsBounded(limit: int, ops: seq<Op>)
    ensures var st := Run(Initial(limit), ops);
            |st.buf| <= st.maxBytes + (if st.truncated then HEADER_LEN + |TRUNCATED_NOTE| else 0)
  {
    CapInvariant(Initial(limit), ops);
  }

  lemma {:induction false} CapInvariant(st: State, ops: seq<Op>)
    requires |st.buf| <= st.maxBytes + (if st.truncated then HEADER_LEN + |TRUNCATED_NOTE| else 0)
    ensures var st' := Run(st, ops);
            |st'.buf| <= st'.maxBytes + (if st'.truncated then HEADER_LEN + |TRUNCATED_NOTE| else 0)
    decreases |ops|
  {
    hide FrameHeader, Ascii;
    if ops != [] { CapInvariant(Apply(st, ops[0]), ops[1..]); }
  }

  /** The recorder's own markers, in transcript order. */
  function Marks(es: seq<Entry>): seq<Origin> {
    if es == [] then [] else (if es[0].origin == Payload then [] else [es[0].origin]) + Marks(es[1..])
  }

  predicate Alternates(ms: seq<Origin>, paused: bool) {
    ms == [] || (ms[0] == (if paused then ResumeMark else PauseMark) && Alternates(ms[1..], !paused))
  }

  /** In every order of operations, the pause and resume markers that reach the
      transcript (its first `n` entries, wherever the cap falls) strictly
      alternate, starting with paused. */
  lemma {:induction false} MarkersAlternate(ops: seq<Op>, paused: bool, closed: bool, n: nat)
    requires n <= |Offered(ops, paused, closed)|
    ensures Alternates(Marks(Offered(ops, paused, closed)[..n]), paused)
  {
    var es := Offered(ops, paused, closed);
    if n > 0 {
      var now := OfferedNow(ops[0], paused, closed);
      var later := Offered(ops[1..], NextPaused(paused, ops[0]), closed || ops[0].Flush?);
      if now == [] {
        assert es == later;
        MarkersAlternate(ops[1..], NextPaused(paused, ops[0]), closed || ops[0].Flush?, n);
        if NextPaused(paused, ops[0]) != paused { ClosedOffersNothing(ops[1..], !paused); }
      } else {
        assert now == [now[0]];
        assert es == [now[0]] + later;
        assert es[..n] == [now[0]] + later[..n - 1];
        MarkersAlternate(ops[1..], NextPaused(paused, ops[0]), closed || ops[0].Flush?, n - 1);
        MarksCons(now[0], later[..n - 1], paused);
      }
    }
  }

  /** So do the markers of the transcript, whose frames before the truncation marker
      are the offered entries that fit. */
  lemma TranscriptMarkersAlternate(limit: int, ops: seq<Op>)
    ensures var entries := Offered(ops, false, false);
            var room := Initial(limit).maxBytes;
            var n := FitCount(FramesOf(entries), room);
            && n <= |Transcript(FramesOf(entries), room)| <= n + 1
            && Transcript(FramesOf(entries), room)[..n] == FramesOf(entries[..n])
            && Alternates(Marks(entries[..n]), false)
  {
    hide FitCount, Offered;
    var entries := Offered(ops, false, false);
    MarkersAlternate(ops, false, false, FitCount(FramesOf(entries), Initial(limit).maxBytes));
  }

  /** One more entry in front: a payload leaves the markers as they are, the marker
      that is due turns the pause flag. */
  lemma MarksCons(e: Entry, es: seq<Entry>, paused: bool)
    ensures e.origin == Payload ==> Marks([e] + es) == Marks(es)
    ensures e.origin == (if paused then ResumeMark else PauseMark) && Alternates(Marks(es), !paused) ==>
              Alternates(Marks([e] + es), paused)
  {
    assert ([e] + es)[1..] == es;
    if e.origin != Payload { assert ([e.origin] + Marks(es))[1..] == Marks(es); }
  }

  lemma ClosedOffersNothing(ops: seq<Op>, paused: bool)
    ensures Offered(ops, paused, true) == []
  {
    if ops != [] { ClosedOffersNothing(ops[1..], NextPaused(paused, ops[0])); }
  }
}
