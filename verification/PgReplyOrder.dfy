/** The order in which a pipelining PostgreSQL client gets its answers: it pairs the
    ready messages it reads with the queries and syncs it sent by position, and
    they come from two loops. */
module PgReplyOrder {
  import opened Bytes
  import opened Policies
  import opened PgSplice

  /** A Query and a Sync each call for one ReadyForQuery. */
  predicate IsRequest(m: Front) { m.Query? || m.Sync? }

  function Requests(ms: seq<Front>): nat {
    if ms == [] then 0 else Requests(ms[..|ms| - 1]) + (if IsRequest(ms[|ms| - 1]) then 1 else 0)
  }

  /** Where each ready message the operator got came from: true for the upstream,
      false for the gateway. */
  function Origins(out: seq<Out>): seq<bool> {
    if out == [] then [] else Origins(out[..|out| - 1]) + Origin(out[|out| - 1])
  }

  function Origin(o: Out): seq<bool> {
    if o.Relayed? && o.m.Ready? then [true] else if o.GatewayReady? then [false] else []
  }

  /** Who must answer each request of an operator's input: the upstream what it is
      sent, the gateway each removal that completes. */
  function Fates(p: Policy, ms: seq<Front>, k: nat): seq<bool>
    decreases |ms|
  {
    if ms == [] || ms[0].Terminate? then []
    else if Denied(p, ms[0], k) then
      (if ms[0].Query? || Closes(ms[1..]) then [false] else []) +
      Fates(p, if ms[0].Parse? then SkipThroughSync(ms[1..]) else ms[1..], k + 1)
    else (if IsRequest(ms[0]) then [true] else []) + Fates(p, ms[1..], if Asks(ms[0]) then k + 1 else k)
  }

  // ---------------------------------------------------------------- along a run

  /** The request a step sends upstream, or answers for the gateway. */
  function FateNow(s: Splice, step: Step): seq<bool>
    requires Enabled(s, step)
  {
    if step.Forward? && s.operator.Forwarding? && IsRequest(s.operator.m) then [true]
    else if step.SendReady? then [false] else []
  }

  function FatesSoFar(p: Policy, s: Splice, steps: seq<Step>): seq<bool>
    requires Valid(p, s, steps)
    decreases |steps|
  {
    if steps == [] then [] else FateNow(s, steps[0]) + FatesSoFar(p, Next(p, s, steps[0]), steps[1..])
  }

  function Count(bs: seq<bool>, b: bool): nat {
    if bs == [] then 0 else Count(bs[..|bs| - 1], b) + (if bs[|bs| - 1] == b then 1 else 0)
  }

  function Answered(s: Splice): nat { Count(Origins(s.toOperator), true) }

  function ReadyInHand(s: Splice): nat { if !s.upstream.Waiting? && s.upstream.m.Ready? then 1 else 0 }

  /** The upstream sends a ready message only for a request it has been sent. */
  predicate HonestStep(s: Splice, step: Step) {
    step.Arrive? && step.m.Ready? ==> Answered(s) + ReadyInHand(s) < Requests(s.toUpstream)
  }

  predicate Honest(p: Policy, s: Splice, steps: seq<Step>)
    requires Valid(p, s, steps)
    decreases |steps|
  {
    steps == [] || (HonestStep(s, steps[0]) && Honest(p, Next(p, s, steps[0]), steps[1..]))
  }

  /** The gateway's own ready message goes out with no reply outstanding. */
  predicate StepInTurn(s: Splice, step: Step) { step.SendReady? ==> Answered(s) == Requests(s.toUpstream) }

  predicate InTurn(p: Policy, s: Splice, steps: seq<Step>)
    requires Valid(p, s, steps)
    decreases |steps|
  {
    steps == [] || (StepInTurn(s, steps[0]) && InTurn(p, Next(p, s, steps[0]), steps[1..]))
  }

  // ------------------------------------------------------------------- counting

  lemma CountSnoc(bs: seq<bool>, x: bool, b: bool)
    ensures Count(bs + [x], b) == Count(bs, b) + (if x == b then 1 else 0)
  {
    assert (bs + [x])[..|bs|] == bs;
  }

  lemma {:induction false} CountsAreAll(bs: seq<bool>)
    ensures Count(bs, true) + Count(bs, false) == |bs|
  {
    if bs != [] { CountsAreAll(bs[..|bs| - 1]); }
  }

  /** When all the falses of `f` are in its prefix `o`, the rest is true. */
  lemma {:induction false} RestIsTrue(o: seq<bool>, f: seq<bool>)
    requires o <= f && Count(o, false) == Count(f, false)
    ensures forall i :: |o| <= i < |f| ==> f[i]
    decreases |f|
  {
    if |o| < |f| {
      var g := f[..|f| - 1];
      CountGrows(o, g);
      RestIsTrue(o, g);
    }
  }

  lemma {:induction false} CountGrows(o: seq<bool>, f: seq<bool>)
    requires o <= f
    ensures Count(o, false) <= Count(f, false)
    decreases |f|
  {
    if |o| < |f| { CountGrows(o, f[..|f| - 1]); } else { assert o == f; }
  }

  lemma OriginsSnoc(out: seq<Out>, o: Out)
    ensures Origins(out + [o]) == Origins(out) + Origin(o)
  {
    assert (out + [o])[..|out|] == out;
  }

  lemma RequestsSnoc(ms: seq<Front>, m: Front)
    ensures Requests(ms + [m]) == Requests(ms) + (if IsRequest(m) then 1 else 0)
  {
    assert (ms + [m])[..|ms|] == ms;
  }

  // ------------------------------------------------------------------ the ledger

  /** The requests sent upstream and the gateway's own answers, against `fates`. */
  ghost predicate Ledger(s: Splice, fates: seq<bool>) {
    && Count(fates, true) == Requests(s.toUpstream)
    && Count(fates, false) == Count(Origins(s.toOperator), false)
    && Answered(s) + ReadyInHand(s) <= Requests(s.toUpstream)
  }

  /** The readies a step adds for the operator. */
  function ReadyNow(s: Splice, step: Step): seq<bool>
    requires Enabled(s, step)
  {
    if step.SendReady? then [false] else if step.Relay? && s.upstream.m.Ready? then [true] else []
  }

  lemma StepAddsReadies(p: Policy, s: Splice, step: Step)
    requires Enabled(s, step)
    ensures Origins(Next(p, s, step).toOperator) == Origins(s.toOperator) + ReadyNow(s, step)
  {
    hide Origins, Received;
    match step
    case Receive => ReceiveWritesNothing(p, s);
    case SendError => OriginsSnoc(s.toOperator, GatewayError(s.operator.reason));
    case SendReady => OriginsSnoc(s.toOperator, GatewayReady(s.operator.status));
    case Relay => OriginsSnoc(s.toOperator, Relayed(s.upstream.m));
    case _ =>
  }

  lemma StepAddsRequests(p: Policy, s: Splice, step: Step)
    requires Enabled(s, step)
    ensures Requests(Next(p, s, step).toUpstream) ==
            Requests(s.toUpstream) + (if FateNow(s, step) == [true] then 1 else 0)
  {
    hide Requests, Received;
    match step
    case Receive => ReceiveWritesNothing(p, s);
    case Forward => RequestsSnoc(s.toUpstream, if s.operator.Leaving? then Terminate else s.operator.m);
    case _ =>
  }

  lemma StepMovesHand(p: Policy, s: Splice, step: Step)
    requires Enabled(s, step)
    ensures ReadyInHand(Next(p, s, step)) == (if step.Arrive? then (if step.m.Ready? then 1 else 0)
                                              else if step.Relay? then 0 else ReadyInHand(s))
  {
    hide Received;
    if step.Receive? { ReceiveWritesNothing(p, s); }
  }

  lemma StepKeepsLedger(p: Policy, s: Splice, step: Step, fates: seq<bool>)
    requires Enabled(s, step) && HonestStep(s, step) && Ledger(s, fates)
    ensures Ledger(Next(p, s, step), fates + FateNow(s, step))
  {
    hide Next, Origins, Requests, Count;
    StepAddsReadies(p, s, step);
    StepAddsRequests(p, s, step);
    StepMovesHand(p, s, step);
    CountAdded(fates, FateNow(s, step));
    CountAdded(Origins(s.toOperator), ReadyNow(s, step));
  }

  lemma CountAdded(bs: seq<bool>, now: seq<bool>)
    requires |now| <= 1
    ensures Count(bs + now, true) == Count(bs, true) + (if now == [true] then 1 else 0)
    ensures Count(bs + now, false) == Count(bs, false) + (if now == [false] then 1 else 0)
  {
    if now == [] {
      assert bs + now == bs;
    } else {
      assert now == [now[0]];
      CountSnoc(bs, now[0], true);
      CountSnoc(bs, now[0], false);
    }
  }

  /** One step keeps the readies in order exactly when it is in turn. */
  lemma OrderStep(p: Policy, s: Splice, step: Step, fates: seq<bool>)
    requires Enabled(s, step) && HonestStep(s, step) && Ledger(s, fates) && Origins(s.toOperator) <= fates
    ensures Origins(Next(p, s, step).toOperator) <= fates + FateNow(s, step) <==> StepInTurn(s, step)
  {
    hide Next, Origins, Requests, Count;
    StepAddsReadies(p, s, step);
    var o := Origins(s.toOperator);
    CountsAreAll(o);
    CountsAreAll(fates);
    RestIsTrue(o, fates);
    if step.SendReady? {
      if |o| < |fates| { assert (o + [false])[|o|] != (fates + [false])[|o|]; } else { assert o == fates; }
    }
  }

  /** Readies out of order stay out of order. */
  lemma DisorderStays(o: seq<bool>, fates: seq<bool>, more: seq<bool>, later: seq<bool>)
    requires |o| <= |fates| && !(o <= fates)
    ensures !(o + more <= fates + later)
  {
    var i :| 0 <= i < |o| && o[i] != fates[i];
    assert (o + more)[i] != (fates + later)[i];
  }

  lemma {:induction false} OrderAlongRun(p: Policy, s: Splice, steps: seq<Step>, fates: seq<bool>)
    requires Valid(p, s, steps) && Honest(p, s, steps) && Ledger(s, fates)
    ensures Origins(After(p, s, steps).toOperator) <= fates + FatesSoFar(p, s, steps) <==>
            Origins(s.toOperator) <= fates && InTurn(p, s, steps)
    ensures Ledger(After(p, s, steps), fates + FatesSoFar(p, s, steps))
    decreases |steps|
  {
    hide Next, Origins, Ledger, HonestStep, StepInTurn, FateNow;
    if steps == [] {
      assert fates + [] == fates;
    } else {
      var s', now := Next(p, s, steps[0]), FateNow(s, steps[0]);
      StepKeepsLedger(p, s, steps[0], fates);
      OrderAlongRun(p, s', steps[1..], fates + now);
      Regroup(fates, now, FatesSoFar(p, s', steps[1..]));
      OrderOfStep(p, s, steps[0], fates);
    }
  }

  lemma OrderOfStep(p: Policy, s: Splice, step: Step, fates: seq<bool>)
    requires Enabled(s, step) && HonestStep(s, step) && Ledger(s, fates)
    ensures Origins(Next(p, s, step).toOperator) <= fates + FateNow(s, step) <==>
            Origins(s.toOperator) <= fates && StepInTurn(s, step)
  {
    hide Next, Requests, Origins, Count, HonestStep;
    var o := Origins(s.toOperator);
    if o <= fates {
      OrderStep(p, s, step, fates);
    } else {
      StepAddsReadies(p, s, step);
      CountsAreAll(o);
      CountsAreAll(fates);
      DisorderStays(o, fates, ReadyNow(s, step), FateNow(s, step));
    }
  }

  // -------------------------------------------------------- fates and the input

  /** What the operator loop still owes, given where it stands. */
  function OwedFates(p: Policy, s: Splice): seq<bool> {
    match s.operator
    case Reading => Fates(p, s.input, s.evaluated)
    case Forwarding(m) => (if IsRequest(m) then [true] else []) + Fates(p, s.input, s.evaluated)
    case Draining => (if Closes(s.input) then [false] else []) + Fates(p, SkipThroughSync(s.input), s.evaluated)
    case ExtendedError(_) => (if Closes(s.input) then [false] else []) + Fates(p, SkipThroughSync(s.input), s.evaluated)
    case Leaving => []
    case Stopped => []
    case _ => [false] + Fates(p, s.input, s.evaluated)
  }

  lemma ReceiveOwesFates(p: Policy, s: Splice)
    requires Enabled(s, Receive)
    ensures OwedFates(p, Received(p, s)) == OwedFates(p, s)
  {
  }

  lemma StepOwesFates(p: Policy, s: Splice, step: Step)
    requires Enabled(s, step)
    ensures FateNow(s, step) + OwedFates(p, Next(p, s, step)) == OwedFates(p, s)
  {
    hide Fates, SkipThroughSync, Closes, Received;
    if step.Receive? { ReceiveOwesFates(p, s); }
  }

  lemma {:induction false} RunOwesFates(p: Policy, s: Splice, steps: seq<Step>)
    requires Valid(p, s, steps)
    ensures FatesSoFar(p, s, steps) + OwedFates(p, After(p, s, steps)) == OwedFates(p, s)
    decreases |steps|
  {
    hide Next, OwedFates, FateNow;
    if steps == [] {
      assert [] + OwedFates(p, s) == OwedFates(p, s);
    } else {
      var s' := Next(p, s, steps[0]);
      StepOwesFates(p, s, steps[0]);
      RunOwesFates(p, s', steps[1..]);
      Regroup(FateNow(s, steps[0]), FatesSoFar(p, s', steps[1..]), OwedFates(p, After(p, s, steps)));
    }
  }

  // ---------------------------------------------------------------- theorems

  /** For every input, policy and interleaving with an upstream that answers only
      what it was sent: the ready messages the operator reads come in the order of
      its requests, each from the side that must answer it, if and only if the
      gateway sent none of its own while a forwarded request was unanswered. */
  lemma AnswersKeepOrderExactly(p: Policy, input: seq<Front>, steps: seq<Step>)
    requires Valid(p, Initial(input), steps) && Honest(p, Initial(input), steps)
    ensures Origins(After(p, Initial(input), steps).toOperator) <= Fates(p, input, 0) <==>
            InTurn(p, Initial(input), steps)
  {
    hide Valid, After, Honest, InTurn, FatesSoFar, Fates, OwedFates;
    var s0 := Initial(input);
    var s, so := After(p, s0, steps), FatesSoFar(p, s0, steps);
    StartsClean(p, input);
    OrderAlongRun(p, s0, steps, []);
    assert [] + so == so;
    RunOwesFates(p, s0, steps);
    var o := Origins(s.toOperator);
    CountsAreAll(o);
    CountsAreAll(so);
    PrefixOfPrefix(o, so, OwedFates(p, s));
  }

  lemma StartsClean(p: Policy, input: seq<Front>)
    ensures Ledger(Initial(input), []) && Origins(Initial(input).toOperator) == []
    ensures OwedFates(p, Initial(input)) == Fates(p, input, 0)
  {
  }

  lemma PrefixOfPrefix(o: seq<bool>, f: seq<bool>, rest: seq<bool>)
    requires |o| <= |f|
    ensures o <= f <==> o <= f + rest
  {
    assert (f + rest)[..|f|] == f;
    if o <= f + rest { assert forall i :: 0 <= i < |o| ==> o[i] == (f + rest)[i] == f[i]; }
  }

  /** A denial overtaking a reply: a pipelined second query is denied and answered
      while the reply to the first is still outstanding. */
  lemma DenialOvertakesReply(a: bytes, b: bytes)
    ensures var p: Policy := (k, q) => Decision(k == 0, []);
            var s0 := Initial([Query(a), Query(b)]);
            var steps := [Receive] + ([Forward] + ([Receive] + ([ReadStatus] + ([SendError] + ([SendReady] + [])))));
            && Valid(p, s0, steps) && Honest(p, s0, steps)
            && Origins(After(p, s0, steps).toOperator) == [false]
            && Fates(p, [Query(a), Query(b)], 0) == [true, false]
  {
    hide Valid, Honest, After, Fates, Origins;
    var p: Policy := (k, q) => Decision(k == 0, []);
    SecondDenied(p, a, b);
    var s0 := Initial([Query(a), Query(b)]);
    var s1 := Next(p, s0, Receive);
    var s2 := Next(p, s1, Forward);
    assert s2.input == [Query(b)] && s2.operator == Reading && s2.toOperator == [] && s2.evaluated == 1;
    DenialRuns(p, s2, b);
    Prefixed(p, s1, Forward, [Receive] + ([ReadStatus] + ([SendError] + ([SendReady] + []))));
    Prefixed(p, s0, Receive, [Forward] + ([Receive] + ([ReadStatus] + ([SendError] + ([SendReady] + [])))));
  }

  lemma SecondDenied(p: Policy, a: bytes, b: bytes)
    requires p(0, a).allowed && !p(1, b).allowed
    ensures Fates(p, [Query(a), Query(b)], 0) == [true, false]
  {
    var input := [Query(a), Query(b)];
    assert input[1..] == [Query(b)] && [Query(b)][1..] == [];
    assert Fates(p, [Query(b)], 1) == [false] + Fates(p, [], 2);
    assert Fates(p, input, 0) == [true] + Fates(p, [Query(b)], 1);
  }

  /** A denied query answered at once, whatever is outstanding. */
  lemma DenialRuns(p: Policy, s: Splice, b: bytes)
    requires s.input == [Query(b)] && s.operator == Reading && s.toOperator == [] && !p(s.evaluated, b).allowed
    ensures var steps := [Receive] + ([ReadStatus] + ([SendError] + ([SendReady] + [])));
            && Valid(p, s, steps) && Honest(p, s, steps)
            && Origins(After(p, s, steps).toOperator) == [false]
  {
    hide Origins;
    var s1 := Next(p, s, Receive);
    var s2 := Next(p, s1, ReadStatus);
    var s3 := Next(p, s2, SendError);
    var s4 := Next(p, s3, SendReady);
    assert s4.toOperator == [] + [GatewayError(s1.operator.reason)] + [GatewayReady(s.txStatus)];
    OriginsSnoc([], GatewayError(s1.operator.reason));
    OriginsSnoc([] + [GatewayError(s1.operator.reason)], GatewayReady(s.txStatus));
    NoOrigins();
    Prefixed(p, s3, SendReady, []);
    Prefixed(p, s2, SendError, [SendReady] + []);
    Prefixed(p, s1, ReadStatus, [SendError] + ([SendReady] + []));
    Prefixed(p, s, Receive, [ReadStatus] + ([SendError] + ([SendReady] + [])));
  }

  lemma NoOrigins()
    ensures Origins([]) == []
  {
  }

  lemma Prefixed(p: Policy, s: Splice, step: Step, steps: seq<Step>)
    requires Enabled(s, step) && !step.Arrive?
    requires Valid(p, Next(p, s, step), steps) && Honest(p, Next(p, s, step), steps)
    ensures Valid(p, s, [step] + steps) && Honest(p, s, [step] + steps)
    ensures After(p, s, [step] + steps) == After(p, Next(p, s, step), steps)
  {
    hide Next;
    assert ([step] + steps)[1..] == steps;
  }
}
