/** The sequential request/reply loop of the Redis proxy: every command is gated
    and answered in the position it was sent. */
module RedisPump {
  import opened Bytes
  import opened Policies
  import opened Streams
  import opened RespReply
  import opened RespCommand

  /** Any policy, stateful or not: the decision on the k-th non-empty command. */
  type Policy = (nat, seq<bytes>) -> Decision

  /** "ERR pam-gateway: ". */
  const PREFIX: bytes := [69, 82, 82, 32, 112, 97, 109, 45, 103, 97, 116, 101, 119, 97, 121, 58, 32]

  /** The gateway's own answer to a denied command; the reason goes in as it is. */
  function ErrorReply(d: Decision): bytes {
    [45] + (PREFIX + Reason(d)) + CRLF
  }

  /** What the loop writes: one entry per write on each side. */
  datatype Trace = Trace(toOperator: seq<bytes>, toUpstream: seq<bytes>)

  function Prepend(op: seq<bytes>, up: seq<bytes>, t: Trace): Trace {
    Trace(op + t.toOperator, up + t.toUpstream)
  }

  /** One turn of the loop: stop, or go on with what is left of both streams. */
  datatype Turn = Stop(toUpstream: seq<bytes>)
                | Next(toOperator: seq<bytes>, toUpstream: seq<bytes>, op: bytes, up: bytes, k: nat)

  function TakeTurn(op: bytes, up: bytes, k: nat, policy: Policy, fields: Tokeniser): (t: Turn)
    ensures t.Next? ==> |t.op| < |op|
  {
    match Command(op, fields)
    case Malformed => Stop([])
    case Parsed(args, raw, rest) =>
      if args == [] then Next([], [], rest, up, k)
      else
        var d := policy(k, args);
        if !d.allowed then Next([ErrorReply(d)], [], rest, up, k + 1)
        else
          match Reply(up, 0)
          case Err => Stop([raw])
          case Ok(reply, up') => Next([reply], [raw], rest, up', k + 1)
  }

  /** The loop as a function of the two input streams, `k` commands in. */
  function Run(op: bytes, up: bytes, k: nat, policy: Policy, fields: Tokeniser): (t: Trace)
    decreases |op|
  {
    match TakeTurn(op, up, k, policy, fields)
    case Stop(raws) => Trace([], raws)
    case Next(answers, raws, op', up', k') => Prepend(answers, raws, Run(op', up', k', policy, fields))
  }

  /** One turn of pump with relayReply. */
  method Serve(operator: Reader, upstream: Reader, k: nat, policy: Policy, fields: Tokeniser)
    returns (more: bool, toOperator: seq<bytes>, toUpstream: seq<bytes>, k': nat)
    requires operator != upstream
    modifies operator, upstream
    ensures var t := TakeTurn(old(operator.rest), old(upstream.rest), k, policy, fields);
            if more then t == Next(toOperator, toUpstream, operator.rest, upstream.rest, k')
            else t == Stop(toUpstream) && toOperator == []
  {
    more, toOperator, toUpstream, k' := false, [], [], k;
    var ok, args, raw := ReadCommand(operator, fields);
    if !ok { return; }
    if args == [] { return true, [], [], k; }
    k' := k + 1;
    var d := policy(k, args);
    if !d.allowed { return true, [ErrorReply(d)], [], k + 1; }
    toUpstream := [raw];
    var got, reply := ReadReply(upstream, 0);
    if !got { return; }
    more, toOperator := true, [reply];
  }

  /** pump. */
  method Pump(operator: Reader, upstream: Reader, policy: Policy, fields: Tokeniser)
    returns (toOperator: seq<bytes>, toUpstream: seq<bytes>)
    requires operator != upstream
    modifies operator, upstream
    ensures Trace(toOperator, toUpstream) == Run(old(operator.rest), old(upstream.rest), 0, policy, fields)
  {
    toOperator, toUpstream := [], [];
    var more, k := true, 0;
    ghost var all := Run(operator.rest, upstream.rest, 0, policy, fields);
    while more
      invariant all ==
                if more then Prepend(toOperator, toUpstream, Run(operator.rest, upstream.rest, k, policy, fields))
                else Trace(toOperator, toUpstream)
      decreases more, |operator.rest|
    {
      ghost var op0, up0 := toOperator, toUpstream;
      var answers, raws;
      more, answers, raws, k := Serve(operator, upstream, k, policy, fields);
      toOperator, toUpstream := toOperator + answers, toUpstream + raws;
      if more {
        PrependTwice(op0, up0, answers, raws, Run(operator.rest, upstream.rest, k, policy, fields));
      }
    }
  }

  lemma PrependTwice(a: seq<bytes>, b: seq<bytes>, c: seq<bytes>, d: seq<bytes>, t: Trace)
    ensures Prepend(a, b, Prepend(c, d, t)) == Prepend(a + c, b + d, t)
  {
    assert a + (c + t.toOperator) == a + c + t.toOperator;
    assert b + (d + t.toUpstream) == b + d + t.toUpstream;
  }

  // -------------------------------------------------------------- alignment

  datatype Sent = Sent(args: seq<bytes>, raw: bytes)

  /** A command the reader takes off any stream it starts, whole. */
  ghost predicate DelimitedCommand(c: Sent, fields: Tokeniser) {
    |c.raw| > 0 && forall t: bytes :: Command(c.raw + t, fields) == Parsed(c.args, c.raw, t)
  }

  ghost predicate DelimitedReply(r: bytes) {
    forall t: bytes :: Reply(r + t, 0) == Ok(r, t)
  }

  /** The operator's byte stream: the commands back to back. */
  function Wire(cs: seq<Sent>): bytes {
    if cs == [] then [] else cs[0].raw + Wire(cs[1..])
  }

  /** The commands that call for an answer. */
  function Issued(cs: seq<Sent>): seq<Sent> {
    if cs == [] then [] else (if cs[0].args == [] then [] else [cs[0]]) + Issued(cs[1..])
  }

  predicate IsAllowed(issued: seq<Sent>, k: nat, j: nat, policy: Policy)
    requires j < |issued|
  {
    policy(k + j, issued[j].args).allowed
  }

  /** How many of the first `j` issued commands were allowed. */
  function Rank(issued: seq<Sent>, k: nat, j: nat, policy: Policy): (n: nat)
    requires j <= |issued|
    ensures n <= j
  {
    if j == 0 then 0 else Rank(issued, k, j - 1, policy) + (if IsAllowed(issued, k, j - 1, policy) then 1 else 0)
  }

  /** The reply the j-th issued command must get. */
  function Answer(issued: seq<Sent>, replies: seq<bytes>, k: nat, j: nat, policy: Policy): bytes
    requires j < |issued| && Rank(issued, k, |issued|, policy) <= |replies|
  {
    RankGrows(issued, k, j + 1, |issued|, policy);
    if IsAllowed(issued, k, j, policy) then replies[Rank(issued, k, j, policy)]
    else ErrorReply(policy(k + j, issued[j].args))
  }

  lemma RankGrows(issued: seq<Sent>, k: nat, i: nat, j: nat, policy: Policy)
    requires i <= j <= |issued|
    ensures Rank(issued, k, i, policy) <= Rank(issued, k, j, policy)
  {
    if i < j { RankGrows(issued, k, i, j - 1, policy); }
  }

  /** Dropping the first command shifts every rank by its own contribution. */
  lemma {:induction false} RankOfTail(issued: seq<Sent>, k: nat, j: nat, policy: Policy)
    requires 0 < |issued| && j < |issued|
    ensures Rank(issued, k, j + 1, policy) ==
            Rank(issued[1..], k + 1, j, policy) + (if IsAllowed(issued, k, 0, policy) then 1 else 0)
  {
    if j == 0 {
      assert Rank(issued, k, 0, policy) == 0;
    } else {
      RankOfTail(issued, k, j - 1, policy);
      assert issued[1..][j - 1] == issued[j];
    }
  }

  /** The raw bytes of the allowed commands among the first `j`, in order. */
  function Forwarded(issued: seq<Sent>, k: nat, j: nat, policy: Policy): seq<bytes>
    requires j <= |issued|
  {
    if j == 0 then [] else
      Forwarded(issued, k, j - 1, policy) + (if IsAllowed(issued, k, j - 1, policy) then [issued[j - 1].raw] else [])
  }

  lemma {:induction false} ForwardedOfTail(issued: seq<Sent>, k: nat, j: nat, policy: Policy)
    requires 0 < |issued| && j < |issued|
    ensures Forwarded(issued, k, j + 1, policy) ==
            (if IsAllowed(issued, k, 0, policy) then [issued[0].raw] else []) + Forwarded(issued[1..], k + 1, j, policy)
  {
    if j == 0 {
      assert Forwarded(issued, k, 0, policy) == [];
    } else {
      ForwardedOfTail(issued, k, j - 1, policy);
      var first := if IsAllowed(issued, k, 0, policy) then [issued[0].raw] else [];
      var last := if IsAllowed(issued, k, j, policy) then [issued[j].raw] else [];
      assert issued[1..][j - 1] == issued[j];
      assert Forwarded(issued[1..], k + 1, j, policy) == Forwarded(issued[1..], k + 1, j - 1, policy) + last;
      assert first + Forwarded(issued[1..], k + 1, j - 1, policy) + last ==
             first + (Forwarded(issued[1..], k + 1, j - 1, policy) + last);
    }
  }

  ghost predicate Aligned(t: Trace, issued: seq<Sent>, replies: seq<bytes>, k: nat, policy: Policy)
    requires Rank(issued, k, |issued|, policy) <= |replies|
  {
    |t.toOperator| == |issued| &&
    (forall j: nat :: j < |issued| ==> t.toOperator[j] == Answer(issued, replies, k, j, policy)) &&
    t.toUpstream == Forwarded(issued, k, |issued|, policy)
  }

  /** The answers to the later commands are those of the run without the first. */
  lemma AnswerOfTail(issued: seq<Sent>, replies: seq<bytes>, k: nat, j: nat, policy: Policy)
    requires 0 < j < |issued| && Rank(issued, k, |issued|, policy) <= |replies|
    requires Rank(issued[1..], k + 1, |issued| - 1, policy) <= |Later(issued, replies, k, policy)|
    ensures Answer(issued, replies, k, j, policy) ==
            Answer(issued[1..], Later(issued, replies, k, policy), k + 1, j - 1, policy)
  {
    hide Rank;
    RankOfTail(issued, k, j - 1, policy);
    RankStep(issued, k, j, policy);
    RankGrows(issued, k, j + 1, |issued|, policy);
    assert issued[1..][j - 1] == issued[j];
  }

  lemma RankStep(issued: seq<Sent>, k: nat, j: nat, policy: Policy)
    requires j < |issued|
    ensures Rank(issued, k, j + 1, policy) ==
            Rank(issued, k, j, policy) + (if IsAllowed(issued, k, j, policy) then 1 else 0)
  {
  }

  /** One more issued command in front of an aligned run. */
  lemma AlignedStep(t: Trace, issued: seq<Sent>, replies: seq<bytes>, k: nat, policy: Policy)
    requires 0 < |issued| && Rank(issued, k, |issued|, policy) <= |replies|
    requires Rank(issued[1..], k + 1, |issued| - 1, policy) <= |Later(issued, replies, k, policy)|
    requires Aligned(t, issued[1..], Later(issued, replies, k, policy), k + 1, policy)
    ensures Aligned(Prepend([Answer(issued, replies, k, 0, policy)],
                            if IsAllowed(issued, k, 0, policy) then [issued[0].raw] else [], t),
                    issued, replies, k, policy)
  {
    hide Rank, Answer, Forwarded, Later, IsAllowed;
    forall j: nat | j < |issued|
      ensures ([Answer(issued, replies, k, 0, policy)] + t.toOperator)[j] == Answer(issued, replies, k, j, policy)
    {
      if j > 0 { AnswerOfTail(issued, replies, k, j, policy); }
    }
    ForwardedOfTail(issued, k, |issued| - 1, policy);
  }

  /** The replies still unread once the first command has been answered. */
  function Later(issued: seq<Sent>, replies: seq<bytes>, k: nat, policy: Policy): seq<bytes>
    requires 0 < |issued|
  {
    if IsAllowed(issued, k, 0, policy) && replies != [] then replies[1..] else replies
  }

  lemma NothingSent(replies: seq<bytes>, k: nat, policy: Policy, fields: Tokeniser)
    ensures Rank([], k, 0, policy) == 0
    ensures Aligned(Run([], Flatten(replies), k, policy, fields), [], replies, k, policy)
  {
  }

  lemma {:induction false} RunIsAligned(cs: seq<Sent>, replies: seq<bytes>, k: nat, policy: Policy, fields: Tokeniser)
    requires forall c :: c in cs ==> DelimitedCommand(c, fields)
    requires forall r :: r in replies ==> DelimitedReply(r)
    requires Rank(Issued(cs), k, |Issued(cs)|, policy) <= |replies|
    ensures Aligned(Run(Wire(cs), Flatten(replies), k, policy, fields), Issued(cs), replies, k, policy)
    decreases |cs|
  {
    hide Command, Reply, Rank, Answer, Forwarded;
    if cs == [] {
      NothingSent(replies, k, policy, fields);
      return;
    }
    var c, issued := cs[0], Issued(cs);
    assert c in cs && DelimitedCommand(c, fields);
    assert Command(Wire(cs), fields) == Parsed(c.args, c.raw, Wire(cs[1..]));
    if c.args == [] {
      assert issued == Issued(cs[1..]);
      RunIsAligned(cs[1..], replies, k, policy, fields);
    } else {
      assert issued[1..] == Issued(cs[1..]) && issued[0] == c;
      RankOfTail(issued, k, |issued| - 1, policy);
      var later := Later(issued, replies, k, policy);
      RunIsAligned(cs[1..], later, k + 1, policy, fields);
      AlignedStep(Run(Wire(cs[1..]), Flatten(later), k + 1, policy, fields), issued, replies, k, policy);
      FirstTurn(cs, replies, k, policy, fields);
    }
  }

  /** The turn that serves the first of the commands, when it is not empty. */
  lemma FirstTurn(cs: seq<Sent>, replies: seq<bytes>, k: nat, policy: Policy, fields: Tokeniser)
    requires cs != [] && cs[0].args != [] && DelimitedCommand(cs[0], fields)
    requires forall r :: r in replies ==> DelimitedReply(r)
    requires Rank(Issued(cs), k, |Issued(cs)|, policy) <= |replies|
    ensures var issued := Issued(cs);
            TakeTurn(Wire(cs), Flatten(replies), k, policy, fields) ==
            Next([Answer(issued, replies, k, 0, policy)],
                 if IsAllowed(issued, k, 0, policy) then [issued[0].raw] else [],
                 Wire(cs[1..]), Flatten(Later(issued, replies, k, policy)), k + 1)
  {
    var issued := Issued(cs);
    assert Command(Wire(cs), fields) == Parsed(cs[0].args, cs[0].raw, Wire(cs[1..]));
    if IsAllowed(issued, k, 0, policy) {
      RankGrows(issued, k, 1, |issued|, policy);
      assert Rank(issued, k, 0, policy) == 0;
      assert replies[0] in replies && DelimitedReply(replies[0]);
      assert Reply(Flatten(replies), 0) == Ok(replies[0], Flatten(replies[1..]));
    }
  }

  /** For every command sequence and every policy: the j-th write to the operator
      is the reply to its j-th non-empty command when that was allowed and the
      gateway's error otherwise, and the upstream is sent exactly the raw bytes of
      the allowed commands, in order. */
  lemma PumpKeepsRepliesAligned(cs: seq<Sent>, replies: seq<bytes>, policy: Policy, fields: Tokeniser)
    requires forall c :: c in cs ==> DelimitedCommand(c, fields)
    requires forall r :: r in replies ==> DelimitedReply(r)
    requires Rank(Issued(cs), 0, |Issued(cs)|, policy) <= |replies|
    ensures var t := Run(Wire(cs), Flatten(replies), 0, policy, fields);
            && |t.toOperator| == |Issued(cs)|
            && (forall j: nat :: j < |Issued(cs)| ==> t.toOperator[j] == Answer(Issued(cs), replies, 0, j, policy))
            && t.toUpstream == Forwarded(Issued(cs), 0, |Issued(cs)|, policy)
  {
    RunIsAligned(cs, replies, 0, policy, fields);
  }

  /** Every encoded command and every serialised value within the limits is such
      a unit, so the alignment covers all well-behaved clients and servers. */
  lemma EncodedCommandsAreDelimited(parts: seq<bytes>, fields: Tokeniser)
    requires Encodable(parts)
    ensures DelimitedCommand(Sent(parts, Encode(parts)), fields)
  {
    forall t: bytes ensures Command(Encode(parts) + t, fields) == Parsed(parts, Encode(parts), t) {
      ReadInvertsEncode(parts, t, fields);
    }
  }

  lemma SerialisedRepliesAreDelimited(v: Value)
    requires WellFormed(v) && Fits(v, 0)
    ensures DelimitedReply(Serialise(v))
  {
    forall t: bytes ensures Reply(Serialise(v) + t, 0) == Ok(Serialise(v), t) {
      ReadsOneValue(v, 0, t);
    }
  }

  // ------------------------------------------------- what the two ends read

  datatype Batch<T> = Batch(units: seq<T>, rest: bytes) | Broken

  function Ahead<T>(u: T, b: Batch<T>): Batch<T> {
    match b
    case Broken => Broken
    case Batch(us, rest) => Batch([u] + us, rest)
  }

  /** A client reading `n` replies off its byte stream. */
  function Replies(s: bytes, n: nat): Batch<bytes>
    decreases n
  {
    if n == 0 then Batch([], s) else
    match Reply(s, 0)
    case Err => Broken
    case Ok(raw, rest) => Ahead(raw, Replies(rest, n - 1))
  }

  /** A server reading `n` commands off its byte stream. */
  function Commands(s: bytes, n: nat, fields: Tokeniser): Batch<Sent>
    decreases n
  {
    if n == 0 then Batch([], s) else
    match Command(s, fields)
    case Malformed => Broken
    case Parsed(args, raw, rest) => Ahead(Sent(args, raw), Commands(rest, n - 1, fields))
  }

  lemma {:induction false} DelimitedRepliesReadBack(parts: seq<bytes>)
    requires forall i :: 0 <= i < |parts| ==> DelimitedReply(parts[i])
    ensures Replies(Flatten(parts), |parts|) == Batch(parts, [])
  {
    hide Reply;
    if parts != [] {
      assert DelimitedReply(parts[0]);
      DelimitedRepliesReadBack(parts[1..]);
      assert [parts[0]] + parts[1..] == parts;
    }
  }

  /** If the stream reads back as the parts it was written in, every part is read whole. */
  lemma {:induction false} PartIsReadWhole(parts: seq<bytes>, j: nat)
    requires Replies(Flatten(parts), |parts|) == Batch(parts, []) && j < |parts|
    ensures Reply(Flatten(parts[j..]), 0) == Ok(parts[j], Flatten(parts[j + 1..]))
  {
    hide Reply;
    var head := Reply(Flatten(parts), 0);
    var tail := Replies(head.rest, |parts| - 1);
    assert [head.raw] + tail.units == parts;
    assert head.raw == parts[0] && tail.units == parts[1..];
    RestIsTail(parts);
    if j == 0 {
      assert parts[0..] == parts;
    } else {
      PartIsReadWhole(parts[1..], j - 1);
      assert parts[1..][j - 1..] == parts[j..] && parts[1..][j..] == parts[j + 1..];
    }
  }

  lemma RestIsTail(parts: seq<bytes>)
    requires parts != [] && Reply(Flatten(parts), 0).Ok? && Reply(Flatten(parts), 0).raw == parts[0]
    ensures Reply(Flatten(parts), 0).rest == Flatten(parts[1..])
  {
    hide Reply;
    ReplyIsExact(Flatten(parts), 0);
    var rest := Reply(Flatten(parts), 0).rest;
    assert parts[0] + rest == parts[0] + Flatten(parts[1..]);
    assert (parts[0] + rest)[|parts[0]|..] == rest;
    assert (parts[0] + Flatten(parts[1..]))[|parts[0]|..] == Flatten(parts[1..]);
  }

  /** The gateway's error is one reply exactly when its reason is one line. */
  lemma OneLineErrorIsDelimited(d: Decision)
    requires LF !in d.reason
    ensures DelimitedReply(ErrorReply(d))
  {
    hide LineReply;
    var text := PREFIX + Reason(d);
    forall t: bytes ensures Reply(ErrorReply(d) + t, 0) == Ok(ErrorReply(d), t) {
      var s := ErrorReply(d) + t;
      LineCase(45, text, t);
      Regroup([45], text, CRLF);
      assert s[0] == 45 && s[1..] == text + CRLF + t;
    }
  }

  lemma SplitErrorIsCutShort(d: Decision, t: bytes)
    requires LF in d.reason
    ensures Reply(ErrorReply(d) + t, 0).Ok? && |Reply(ErrorReply(d) + t, 0).raw| < |ErrorReply(d)|
  {
    var s := ErrorReply(d) + t;
    var i :| 0 <= i < |d.reason| && d.reason[i] == LF;
    var body := s[1..];
    assert s[0] == 45 && body[|PREFIX| + i] == LF;
    LineEndsBy(body, |PREFIX| + i);
  }

  lemma {:induction false} LineEndsBy(s: bytes, k: nat)
    requires k < |s| && s[k] == LF
    ensures LineEnd(s) <= k
  {
    if k > 0 && s[0] != LF { LineEndsBy(s[1..], k - 1); }
  }

  /** Every denial's reason is a single line. */
  predicate OneLineReasons(issued: seq<Sent>, policy: Policy) {
    forall j: nat :: j < |issued| && !IsAllowed(issued, 0, j, policy) ==> LF !in policy(j, issued[j].args).reason
  }

  /** The operator pairs replies with commands by position in one byte stream. For
      every command sequence and policy, reading as many replies as commands were
      issued gives exactly the answers, one each, with nothing left over, if and
      only if no denial's reason holds a line feed. */
  lemma OperatorReadsItsAnswers(cs: seq<Sent>, replies: seq<bytes>, policy: Policy, fields: Tokeniser)
    requires forall c :: c in cs ==> DelimitedCommand(c, fields)
    requires forall r :: r in replies ==> DelimitedReply(r)
    requires Rank(Issued(cs), 0, |Issued(cs)|, policy) <= |replies|
    ensures var t := Run(Wire(cs), Flatten(replies), 0, policy, fields);
            Replies(Flatten(t.toOperator), |Issued(cs)|) == Batch(t.toOperator, []) <==>
            OneLineReasons(Issued(cs), policy)
  {
    hide Rank, DelimitedReply, DelimitedCommand, Run, Reply, ErrorReply, Replies;
    PumpKeepsRepliesAligned(cs, replies, policy, fields);
    var issued, out := Issued(cs), Run(Wire(cs), Flatten(replies), 0, policy, fields).toOperator;
    if OneLineReasons(issued, policy) {
      forall j | 0 <= j < |out| ensures DelimitedReply(out[j]) {
        AnswerIsDelimited(issued, replies, j, policy);
      }
      DelimitedRepliesReadBack(out);
    } else if Replies(Flatten(out), |issued|) == Batch(out, []) {
      var j: nat :| j < |issued| && !IsAllowed(issued, 0, j, policy) && LF in policy(j, issued[j].args).reason;
      PartIsReadWhole(out, j);
      assert out[j..][0] == out[j] && out[j..][1..] == out[j + 1..];
      SplitErrorIsCutShort(policy(j, issued[j].args), Flatten(out[j + 1..]));
      assert false;
    }
  }

  lemma AnswerIsDelimited(issued: seq<Sent>, replies: seq<bytes>, j: nat, policy: Policy)
    requires j < |issued| && Rank(issued, 0, |issued|, policy) <= |replies|
    requires forall r :: r in replies ==> DelimitedReply(r)
    requires IsAllowed(issued, 0, j, policy) || LF !in policy(j, issued[j].args).reason
    ensures DelimitedReply(Answer(issued, replies, 0, j, policy))
  {
    hide DelimitedReply, Answer, Rank, ErrorReply;
    AnswerIsReplyOrError(issued, replies, j, policy);
    if !IsAllowed(issued, 0, j, policy) { OneLineErrorIsDelimited(policy(j, issued[j].args)); }
  }

  lemma AnswerIsReplyOrError(issued: seq<Sent>, replies: seq<bytes>, j: nat, policy: Policy)
    requires j < |issued| && Rank(issued, 0, |issued|, policy) <= |replies|
    ensures IsAllowed(issued, 0, j, policy) ==> Answer(issued, replies, 0, j, policy) in replies
    ensures !IsAllowed(issued, 0, j, policy) ==>
              Answer(issued, replies, 0, j, policy) == ErrorReply(policy(j, issued[j].args))
  {
    hide Rank, ErrorReply;
    RankStep(issued, 0, j, policy);
    RankGrows(issued, 0, j + 1, |issued|, policy);
  }

  /** A two-line reason at work: the first command is denied with the reason "LF +",
      and the client takes the rest of that error for the reply to its second
      command, whose own reply `r` is left unread. */
  lemma TwoLineReasonShiftsReplies(a: Sent, b: Sent, r: bytes, fields: Tokeniser)
    requires DelimitedCommand(a, fields) && DelimitedCommand(b, fields) && a.args != [] && b.args != []
    requires DelimitedReply(r)
    ensures var policy: Policy := (k, args) => Decision(k > 0, [LF, 43]);
            var t := Run(Wire([a, b]), Flatten([r]), 0, policy, fields);
            && t.toOperator == [ErrorReply(Decision(false, [LF, 43])), r]
            && Replies(Flatten(t.toOperator), 2) == Batch([[45] + PREFIX + [LF], [43] + CRLF], r)
  {
    hide DelimitedCommand, DelimitedReply, Run, ErrorReply, Replies;
    var policy: Policy := (k, args) => Decision(k > 0, [LF, 43]);
    TwoCommands(a, b, r, policy, fields);
    SplitErrorReadsAsTwo(r);
  }

  lemma SplitErrorReadsAsTwo(r: bytes)
    ensures Replies(Flatten([ErrorReply(Decision(false, [LF, 43])), r]), 2) ==
            Batch([[45] + PREFIX + [LF], [43] + CRLF], r)
  {
    hide Reply;
    var first, second, e := [45] + PREFIX + [LF], [43] + CRLF, ErrorReply(Decision(false, [LF, 43]));
    assert [e, r][1..] == [r] && [r][1..] == [];
    assert e == first + second;
    assert Flatten([r]) == r + [] == r;
    assert Flatten([e, r]) == e + r == first + (second + r);
    LineTaken(45, PREFIX, second + r);
    LineTaken(43, [CR], r);
    assert [43] + [CR] + [LF] == second;
    assert Replies(r, 0) == Batch([], r);
    assert Replies(second + r, 1) == Batch([second] + [], r);
    assert Replies(first + (second + r), 2) == Batch([first] + [second], r);
  }

  lemma LineTaken(typ: byte, text: bytes, rest: bytes)
    requires IsLineType(typ) && LF !in text
    ensures Reply([typ] + text + [LF] + rest, 0) == Ok([typ] + text + [LF], rest)
  {
    var s := [typ] + text + [LF] + rest;
    var body := text + [LF] + rest;
    assert s[1..] == body;
    LineEndAt(body, |text|);
    assert body[..|text| + 1] == text + [LF] && body[|text| + 1..] == rest;
    assert [typ] + (text + [LF]) == [typ] + text + [LF];
  }

  lemma TwoCommands(a: Sent, b: Sent, r: bytes, policy: Policy, fields: Tokeniser)
    requires DelimitedCommand(a, fields) && DelimitedCommand(b, fields) && a.args != [] && b.args != []
    requires DelimitedReply(r) && !policy(0, a.args).allowed && policy(1, b.args).allowed
    ensures Run(Wire([a, b]), Flatten([r]), 0, policy, fields).toOperator == [ErrorReply(policy(0, a.args)), r]
  {
    hide DelimitedCommand, DelimitedReply, Run, ErrorReply;
    var cs := [a, b];
    assert cs[1..] == [b] && [b][1..] == [];
    assert Issued([]) == [] && Issued([b]) == [b] + [] && Issued(cs) == [a] + [b];
    assert Issued(cs) == cs;
    assert Rank(cs, 0, 0, policy) == 0;
    assert Rank(cs, 0, 1, policy) == 0;
    assert Rank(cs, 0, 2, policy) == 1;
    PumpKeepsRepliesAligned(cs, [r], policy, fields);
    var out := Run(Wire(cs), Flatten([r]), 0, policy, fields).toOperator;
    assert out[0] == Answer(cs, [r], 0, 0, policy) && out[1] == Answer(cs, [r], 0, 1, policy);
  }

  // ------------------------------------------------------------- upstream side

  /** The allowed commands among the first `j`. */
  function Granted(issued: seq<Sent>, k: nat, j: nat, policy: Policy): seq<Sent>
    requires j <= |issued|
  {
    if j == 0 then [] else
      Granted(issued, k, j - 1, policy) + (if IsAllowed(issued, k, j - 1, policy) then [issued[j - 1]] else [])
  }

  function Raws(cs: seq<Sent>): seq<bytes> { seq(|cs|, i requires 0 <= i < |cs| => cs[i].raw) }

  lemma {:induction false} ForwardedAreGranted(issued: seq<Sent>, k: nat, j: nat, policy: Policy)
    requires j <= |issued|
    ensures Forwarded(issued, k, j, policy) == Raws(Granted(issued, k, j, policy))
    ensures forall c :: c in Granted(issued, k, j, policy) ==> c in issued
  {
    if j > 0 { ForwardedAreGranted(issued, k, j - 1, policy); }
  }

  lemma {:induction false} IssuedWereSent(cs: seq<Sent>)
    ensures forall c :: c in Issued(cs) ==> c in cs
  {
    if cs != [] { IssuedWereSent(cs[1..]); }
  }

  lemma {:induction false} CommandsReadBack(cs: seq<Sent>, fields: Tokeniser)
    requires forall c :: c in cs ==> DelimitedCommand(c, fields)
    ensures Commands(Flatten(Raws(cs)), |cs|, fields) == Batch(cs, [])
  {
    hide Command;
    if cs != [] {
      assert DelimitedCommand(cs[0], fields);
      assert Raws(cs)[1..] == Raws(cs[1..]);
      CommandsReadBack(cs[1..], fields);
      assert [cs[0]] + cs[1..] == cs;
    }
  }

  /** The upstream, reading commands off its own byte stream, gets exactly the
      allowed commands, in order, and nothing else. */
  lemma UpstreamReadsTheAllowed(cs: seq<Sent>, replies: seq<bytes>, policy: Policy, fields: Tokeniser)
    requires forall c :: c in cs ==> DelimitedCommand(c, fields)
    requires forall r :: r in replies ==> DelimitedReply(r)
    requires Rank(Issued(cs), 0, |Issued(cs)|, policy) <= |replies|
    ensures var t := Run(Wire(cs), Flatten(replies), 0, policy, fields);
            var granted := Granted(Issued(cs), 0, |Issued(cs)|, policy);
            Commands(Flatten(t.toUpstream), |granted|, fields) == Batch(granted, [])
  {
    hide DelimitedCommand, DelimitedReply, Run, Rank, Commands;
    PumpKeepsRepliesAligned(cs, replies, policy, fields);
    ForwardedAreGranted(Issued(cs), 0, |Issued(cs)|, policy);
    IssuedWereSent(cs);
    CommandsReadBack(Granted(Issued(cs), 0, |Issued(cs)|, policy), fields);
  }
}
