/** The framed recording format: what the recorder writes per frame and how the
    replay decoder reads a whole recording. */
module Frames {
  import opened Bytes
  import opened Streams

  const HEADER_LEN := 13
  const MAX_FRAME_PAYLOAD := 32 * 1024 * 1024
  const TWO_63 := 0x8000_0000_0000_0000
  const TWO_64 := 0x1_0000_0000_0000_0000

  /** One frame on the wire: direction tag, UnixNano timestamp, payload. */
  datatype Frame = Frame(dir: byte, at: int, payload: bytes)

  /** Timestamps are int64 nanoseconds. */
  predicate Timed(f: Frame) { -TWO_63 <= f.at < TWO_63 }

  predicate Decodable(f: Frame) { Timed(f) && |f.payload| <= MAX_FRAME_PAYLOAD }

  function FrameHeader(f: Frame): (h: bytes)
    ensures |h| == HEADER_LEN
  {
    [f.dir] + PutU64BE(f.at % TWO_64) + PutU32BE(|f.payload|)
  }

  function EncodeFrame(f: Frame): (b: bytes)
    ensures |b| == HEADER_LEN + |f.payload|
  {
    FrameHeader(f) + f.payload
  }

  function EncodeFrames(fs: seq<Frame>): bytes {
    if fs == [] then [] else EncodeFrame(fs[0]) + EncodeFrames(fs[1..])
  }

  // ---------------------------------------------------------------- decoding

  datatype Label = Input | Output | Control | Unknown(tag: byte)

  /** directionLabel: known tags get their name, others are kept visible. */
  function DirectionLabel(d: byte): Label {
    if d == 73 then Input else if d == 79 then Output else if d == 67 then Control else Unknown(d)
  }

  datatype ReplayFrame = ReplayFrame(direction: Label, at: int, payload: bytes)

  function View(f: Frame): ReplayFrame {
    ReplayFrame(DirectionLabel(f.dir), f.at, f.payload)
  }

  function Views(fs: seq<Frame>): (vs: seq<ReplayFrame>)
    ensures |vs| == |fs|
  {
    if fs == [] then [] else [View(fs[0])] + Views(fs[1..])
  }

  datatype End = Clean | UnexpectedEOF | FrameTooLong(length: nat)
  datatype Decoded = Decoded(frames: seq<ReplayFrame>, end: End)

  function Signed64(v: nat): int {
    if v < TWO_63 then v else v - TWO_64
  }

  function PayloadLength(h: bytes): nat
    requires |h| == HEADER_LEN
  {
    U32BE(h[9..13])
  }

  function FrameOf(h: bytes, payload: bytes): ReplayFrame
    requires |h| == HEADER_LEN
  {
    ReplayFrame(DirectionLabel(h[0]), Signed64(U64BE(h[1..9])), payload)
  }

  function Cons(f: ReplayFrame, d: Decoded): Decoded {
    Decoded([f] + d.frames, d.end)
  }

  function Parse(s: bytes): (d: Decoded)
    decreases |s|
  {
    if s == [] then Decoded([], Clean)
    else if |s| < HEADER_LEN then Decoded([], UnexpectedEOF)
    else
      var n := PayloadLength(s[..HEADER_LEN]);
      if n > MAX_FRAME_PAYLOAD then Decoded([], FrameTooLong(n))
      else if |s| < HEADER_LEN + n then Decoded([], UnexpectedEOF)
      else Cons(FrameOf(s[..HEADER_LEN], s[HEADER_LEN..HEADER_LEN + n]), Parse(s[HEADER_LEN + n..]))
  }

  /** ParseReplay. */
  method ParseReplay(r: Reader) returns (frames: seq<ReplayFrame>, end: End)
    modifies r
    ensures Decoded(frames, end) == Parse(old(r.rest))
  {
    hide FrameOf, PayloadLength;
    frames := [];
    ghost var all := Parse(r.rest);
    while true
      invariant all == Decoded(frames + Parse(r.rest).frames, Parse(r.rest).end)
      decreases |r.rest|
    {
      ghost var s, frames0 := r.rest, frames;
      var status, hdr := r.ReadFull(HEADER_LEN);
      if status == AtEnd { return frames, Clean; }
      if status == Cut { return frames, UnexpectedEOF; }
      var n := PayloadLength(hdr);
      if n > MAX_FRAME_PAYLOAD { return frames, FrameTooLong(n); }
      assert |s| < HEADER_LEN + n || s[HEADER_LEN..][..n] == s[HEADER_LEN..HEADER_LEN + n];
      var got, payload := r.ReadFull(n);
      if got != Complete { return frames, UnexpectedEOF; }
      assert r.rest == s[HEADER_LEN + n..];
      frames := frames + [FrameOf(hdr, payload)];
      assert frames0 + ([FrameOf(hdr, payload)] + Parse(r.rest).frames) == frames + Parse(r.rest).frames;
    }
  }

  // -------------------------------------------------------------- properties

  lemma HeaderRoundTrip(f: Frame)
    requires Timed(f) && |f.payload| < 0x1_0000_0000
    ensures PayloadLength(FrameHeader(f)) == |f.payload|
    ensures FrameOf(FrameHeader(f), f.payload) == View(f)
  {
    hide PutU64BE, PutU32BE, U64BE, U32BE;
    var h := FrameHeader(f);
    assert h[1..9] == PutU64BE(f.at % TWO_64);
    assert h[9..13] == PutU32BE(|f.payload|);
    U64BERoundTrip(f.at % TWO_64);
    U32BERoundTrip(|f.payload|);
  }

  /** Parsing past one whole, decodable frame. */
  lemma ParseOneFrame(f: Frame, rest: bytes)
    requires Decodable(f)
    ensures Parse(EncodeFrame(f) + rest) == Cons(View(f), Parse(rest))
  {
    hide FrameHeader, FrameOf, PayloadLength;
    var s := EncodeFrame(f) + rest;
    HeaderRoundTrip(f);
    var end := HEADER_LEN + |f.payload|;
    assert s[..HEADER_LEN] == FrameHeader(f);
    assert s[HEADER_LEN..end] == f.payload;
    assert s[end..] == rest;
  }

  lemma {:induction false} ParseFrames(fs: seq<Frame>, rest: bytes)
    requires forall f :: f in fs ==> Decodable(f)
    ensures Parse(EncodeFrames(fs) + rest) == Decoded(Views(fs) + Parse(rest).frames, Parse(rest).end)
  {
    hide EncodeFrame, View, Parse;
    if fs == [] {
      assert EncodeFrames(fs) + rest == rest;
    } else {
      assert EncodeFrames(fs) + rest == EncodeFrame(fs[0]) + (EncodeFrames(fs[1..]) + rest);
      ParseOneFrame(fs[0], EncodeFrames(fs[1..]) + rest);
      ParseFrames(fs[1..], rest);
    }
  }

  lemma {:induction false} ParsedPayloadsAreBounded(s: bytes)
    ensures forall i :: 0 <= i < |Parse(s).frames| ==> |Parse(s).frames[i].payload| <= MAX_FRAME_PAYLOAD
    decreases |s|
  {
    hide FrameHeader, PayloadLength;
    if |s| >= HEADER_LEN {
      var n := PayloadLength(s[..HEADER_LEN]);
      if n <= MAX_FRAME_PAYLOAD && HEADER_LEN + n <= |s| {
        ParsedPayloadsAreBounded(s[HEADER_LEN + n..]);
      }
    }
  }

  lemma {:induction false} ViewsAt(fs: seq<Frame>, i: nat)
    requires i < |fs|
    ensures Views(fs)[i] == View(fs[i])
  {
    if i > 0 { ViewsAt(fs[1..], i - 1); }
  }

  /** Decoding inverts recording exactly when every payload is within the
      decoder's 32 MiB bound. */
  lemma DecodesExactlyWithinBound(fs: seq<Frame>)
    requires forall f :: f in fs ==> Timed(f)
    ensures Parse(EncodeFrames(fs)) == Decoded(Views(fs), Clean) <==>
            forall f :: f in fs ==> |f.payload| <= MAX_FRAME_PAYLOAD
  {
    hide Parse, View;
    if forall f :: f in fs ==> |f.payload| <= MAX_FRAME_PAYLOAD {
      ParseFrames(fs, []);
      ParseNothing();
      assert EncodeFrames(fs) + [] == EncodeFrames(fs);
    } else if Parse(EncodeFrames(fs)) == Decoded(Views(fs), Clean) {
      ParsedPayloadsAreBounded(EncodeFrames(fs));
      forall f | f in fs ensures |f.payload| <= MAX_FRAME_PAYLOAD {
        var i :| 0 <= i < |fs| && fs[i] == f;
        ViewsAt(fs, i);
        ViewPayload(f);
      }
    }
  }

  lemma ParseNothing()
    ensures Parse([]) == Decoded([], Clean)
  {
  }

  lemma ViewPayload(f: Frame)
    ensures View(f).payload == f.payload
  {
  }

  /** The frame that is too long stops the decoder, which keeps what came before. */
  lemma OversizeFrameStopsDecoding(before: seq<Frame>, f: Frame, rest: bytes)
    requires forall g :: g in before ==> Decodable(g)
    requires Timed(f) && MAX_FRAME_PAYLOAD < |f.payload| < 0x1_0000_0000
    ensures Parse(EncodeFrames(before) + (EncodeFrame(f) + rest)) == Decoded(Views(before), FrameTooLong(|f.payload|))
  {
    hide FrameHeader, FrameOf, PayloadLength, View;
    ParseFrames(before, EncodeFrame(f) + rest);
    HeaderRoundTrip(f);
    assert (EncodeFrame(f) + rest)[..HEADER_LEN] == FrameHeader(f);
  }

  lemma {:induction false} EncodeAppends(fs: seq<Frame>, gs: seq<Frame>)
    ensures EncodeFrames(fs + gs) == EncodeFrames(fs) + EncodeFrames(gs)
  {
    hide EncodeFrame;
    if fs == [] {
      assert fs + gs == gs;
    } else {
      assert (fs + gs)[1..] == fs[1..] + gs;
      EncodeAppends(fs[1..], gs);
    }
  }

  /** Index of the first frame too long to decode, or |fs| when none is. */
  function FirstOversize(fs: seq<Frame>): (i: nat)
    ensures i <= |fs|
    ensures i < |fs| ==> |fs[i].payload| > MAX_FRAME_PAYLOAD
    ensures forall j :: 0 <= j < i ==> |fs[j].payload| <= MAX_FRAME_PAYLOAD
  {
    if fs == [] || |fs[0].payload| > MAX_FRAME_PAYLOAD then 0 else 1 + FirstOversize(fs[1..])
  }

  /** A recording whose lengths fit their field decodes up to its first frame over
      the bound, whose length is reported, and whole when there is none. */
  lemma DecodesUpToFirstOversize(fs: seq<Frame>)
    requires forall f :: f in fs ==> Timed(f) && |f.payload| < 0x1_0000_0000
    ensures var i := FirstOversize(fs);
            Parse(EncodeFrames(fs)) == if i == |fs| then Decoded(Views(fs), Clean)
                                       else Decoded(Views(fs[..i]), FrameTooLong(|fs[i].payload|))
  {
    hide Parse, EncodeFrame, FirstOversize;
    var i := FirstOversize(fs);
    if i == |fs| {
      DecodesExactlyWithinBound(fs);
    } else {
      var before, after := fs[..i], fs[i..];
      assert fs == before + after;
      EncodeAppends(before, after);
      assert EncodeFrames(after) == EncodeFrame(fs[i]) + EncodeFrames(after[1..]);
      OversizeFrameStopsDecoding(before, fs[i], EncodeFrames(after[1..]));
    }
  }

  lemma {:induction false} PayloadWithinRecording(fs: seq<Frame>, i: nat)
    requires i < |fs|
    ensures |fs[i].payload| <= |EncodeFrames(fs)|
  {
    hide EncodeFrame;
    if i > 0 { PayloadWithinRecording(fs[1..], i - 1); }
  }

  /** How many of the frames fit whole in `room` bytes, before the first that does not. */
  function FitCount(fs: seq<Frame>, room: int): (n: nat)
    ensures n <= |fs|
  {
    if fs == [] || |EncodeFrame(fs[0])| > room then 0 else 1 + FitCount(fs[1..], room - |EncodeFrame(fs[0])|)
  }

  lemma {:induction false} FitCountIsMaximal(fs: seq<Frame>, k: nat)
    ensures var j := FitCount(fs, k);
            |EncodeFrames(fs[..j])| <= k && (j < |fs| ==> k < |EncodeFrames(fs[..j + 1])|)
  {
    hide EncodeFrame;
    if fs != [] && |EncodeFrame(fs[0])| <= k {
      var j := FitCount(fs[1..], k - |EncodeFrame(fs[0])|);
      FitCountIsMaximal(fs[1..], k - |EncodeFrame(fs[0])|);
      assert fs[..j + 1][1..] == fs[1..][..j];
      if j + 1 < |fs| { assert fs[..j + 2][1..] == fs[1..][..j + 1]; }
    } else if fs != [] {
      assert fs[..1][1..] == [];
    }
  }

  /** A recording cut after any `k` bytes replays its whole frames, and reports
      an unexpected end exactly when the cut is not on a frame boundary. */
  lemma {:induction false} CutRecordingReplaysItsPrefix(fs: seq<Frame>, k: nat)
    requires forall f :: f in fs ==> Decodable(f)
    requires k <= |EncodeFrames(fs)|
    ensures var j := FitCount(fs, k);
            Parse(EncodeFrames(fs)[..k]) ==
            Decoded(Views(fs[..j]), if k == |EncodeFrames(fs[..j])| then Clean else UnexpectedEOF)
  {
    hide FrameHeader, FrameOf, PayloadLength, View;
    if fs == [] || k == 0 {
      assert EncodeFrames(fs)[..k] == [];
      return;
    }
    var first, tail := EncodeFrame(fs[0]), EncodeFrames(fs[1..]);
    var cut := EncodeFrames(fs)[..k];
    if |first| > k {
      assert cut == first[..k];
      CutFrame(fs[0], k);
    } else {
      assert cut == first + tail[..k - |first|];
      ParseOneFrame(fs[0], tail[..k - |first|]);
      CutRecordingReplaysItsPrefix(fs[1..], k - |first|);
      var j := FitCount(fs[1..], k - |first|);
      assert fs[..j + 1][1..] == fs[1..][..j];
    }
  }

  lemma CutFrame(f: Frame, k: nat)
    requires Decodable(f) && 0 < k < |EncodeFrame(f)|
    ensures Parse(EncodeFrame(f)[..k]) == Decoded([], UnexpectedEOF)
  {
    hide FrameHeader, FrameOf, PayloadLength;
    HeaderRoundTrip(f);
    if k >= HEADER_LEN {
      assert EncodeFrame(f)[..k][..HEADER_LEN] == FrameHeader(f);
    }
  }
}
