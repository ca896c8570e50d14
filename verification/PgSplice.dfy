/** The PostgreSQL proxy's two bridging loops: gated operator messages one way,
    upstream messages the other, sharing the transaction status. A step is one
    receive, one status access or one send, taken as atomic; the theorems hold for
    every interleaving of such steps. */
module PgSplice {
  import opened Bytes
  import opened Policies

  /** Frontend messages, as far as the gate tells them apart. */
  datatype Front = Query(sql: bytes) | Parse(sql: bytes) | Sync | Terminate | Other(tag: byte, body: bytes)

  /** Backend messages; the status is the transaction indicator. */
  datatype Back = Ready(status: byte) | Message(tag: byte, body: bytes)

  /** What reaches the operator. */
  datatype Out = Relayed(m: Back) | GatewayError(reason: bytes) | GatewayReady(status: byte)

  const IDLE: byte := 73

  /** Any policy: its decision on the k-th statement it is asked about. */
  type Policy = (nat, bytes) -> Decision

  // ------------------------------------------------------------ the two loops

  datatype OperatorAt =
    | Reading
    | Forwarding(m: Front)                   // allowed, not yet written upstream
    | SimpleDenied(reason: bytes)            // denied Query, status not yet read
    | SimpleError(reason: bytes, status: byte)
    | ExtendedError(reason: bytes)           // denied Parse, error not yet sent
    | Draining                               // discarding up to Sync
    | Drained                                // Sync seen, status not yet read
    | Answering(status: byte)                // ReadyForQuery to send
    | Leaving                                // Terminate not yet written upstream
    | Stopped

  datatype UpstreamAt = Waiting | Got(m: Back) | Relaying(m: Back)

  datatype Splice = Splice(
    txStatus: byte,
    operator: OperatorAt, upstream: UpstreamAt,
    input: seq<Front>,         // operator messages not yet received
    evaluated: nat,            // statements put to the policy so far
    toUpstream: seq<Front>,
    toOperator: seq<Out>,
    recorded: seq<byte>,       // every transaction status recorded, oldest first
    looks: seq<nat>)           // at each deny, which of them was current

  function Initial(input: seq<Front>): Splice {
    Splice(IDLE, Reading, Waiting, input, 0, [], [], [IDLE], [])
  }

  datatype Step =
    | Receive        // operator loop: Receive, and the policy call
    | ReadStatus     //   currentTxStatus
    | SendError      //   ErrorResponse to the operator
    | SendReady      //   ReadyForQuery to the operator
    | Forward        //   Send and Flush upstream
    | Arrive(m: Back) // upstream loop: Receive
    | SetStatus      //   setTxStatus on ReadyForQuery
    | Relay          //   Send and Flush to the operator

  predicate Enabled(s: Splice, step: Step) {
    match step
    case Receive => s.input != [] && (s.operator.Reading? || s.operator.Draining?)
    case ReadStatus => s.operator.SimpleDenied? || s.operator.Drained?
    case SendError => s.operator.SimpleError? || s.operator.ExtendedError?
    case SendReady => s.operator.Answering?
    case Forward => s.operator.Forwarding? || s.operator.Leaving?
    case Arrive(_) => s.upstream.Waiting?
    case SetStatus => s.upstream.Got?
    case Relay => s.upstream.Relaying?
  }

  function Received(p: Policy, s: Splice): Splice
    requires Enabled(s, Receive)
  {
    var m, rest := s.input[0], s.input[1..];
    if s.operator.Draining? then
      s.(input := rest, operator := if m.Sync? then Drained else if m.Terminate? then Stopped else Draining)
    else
      match m
      case Query(q) =>
        var d := p(s.evaluated, q);
        s.(input := rest, evaluated := s.evaluated + 1,
           operator := if d.allowed then Forwarding(m) else SimpleDenied(Reason(d)))
      case Parse(q) =>
        var d := p(s.evaluated, q);
        s.(input := rest, evaluated := s.evaluated + 1,
           operator := if d.allowed then Forwarding(m) else ExtendedError(Reason(d)))
      case Terminate => s.(input := rest, operator := Leaving)
      case _ => s.(input := rest, operator := Forwarding(m))
  }

  function Next(p: Policy, s: Splice, step: Step): Splice
    requires Enabled(s, step)
  {
    match step
    case Receive => Received(p, s)
    case ReadStatus =>
      s.(operator := if s.operator.SimpleDenied? then SimpleError(s.operator.reason, s.txStatus)
                     else Answering(s.txStatus),
         looks := s.looks + [if s.recorded == [] then 0 else |s.recorded| - 1])
    case SendError =>
      s.(operator := if s.operator.SimpleError? then Answering(s.operator.status) else Draining,
         toOperator := s.toOperator + [GatewayError(s.operator.reason)])
    case SendReady => s.(operator := Reading, toOperator := s.toOperator + [GatewayReady(s.operator.status)])
    case Forward =>
      if s.operator.Leaving? then s.(operator := Stopped, toUpstream := s.toUpstream + [Terminate])
      else s.(operator := Reading, toUpstream := s.toUpstream + [s.operator.m])
    case Arrive(m) => s.(upstream := Got(m))
    case SetStatus =>
      var m := s.upstream.m;
      if m.Ready? then s.(upstream := Relaying(m), txStatus := m.status, recorded := s.recorded + [m.status])
      else s.(upstream := Relaying(m))
    case Relay => s.(upstream := Waiting, toOperator := s.toOperator + [Relayed(s.upstream.m)])
  }

  predicate Valid(p: Policy, s: Splice, steps: seq<Step>)
    decreases |steps|
  {
    steps == [] || (Enabled(s, steps[0]) && Valid(p, Next(p, s, steps[0]), steps[1..]))
  }

  function After(p: Policy, s: Splice, steps: seq<Step>): Splice
    requires Valid(p, s, steps)
    decreases |steps|
  {
    if steps == [] then s else After(p, Next(p, s, steps[0]), steps[1..])
  }

  // ---------------------------------------------------- what must come out

  /** The messages left once a denied Parse has taken everything through Sync;
      a Terminate inside the window ends the session. */
  function SkipThroughSync(ms: seq<Front>): (r: seq<Front>)
    ensures |r| <= |ms|
  {
    if ms == [] || ms[0].Terminate? then []
    else if ms[0].Sync? then ms[1..]
    else SkipThroughSync(ms[1..])
  }

  /** drainUntilSync, over the messages still to come. */
  method DrainUntilSync(input: seq<Front>) returns (synced: bool, rest: seq<Front>)
    ensures synced == Closes(input)
    ensures synced ==> rest == SkipThroughSync(input)
  {
    rest := input;
    while rest != []
      invariant Closes(rest) == Closes(input) && SkipThroughSync(rest) == SkipThroughSync(input)
      decreases |rest|
    {
      var m := rest[0];
      rest := rest[1..];
      if m.Sync? { return true, rest; }
      if m.Terminate? { return false, rest; }
    }
    synced := false;
  }

  /** Whether the window reaches its Sync. */
  predicate Closes(ms: seq<Front>) {
    ms != [] && !ms[0].Terminate? && (ms[0].Sync? || Closes(ms[1..]))
  }

  predicate Denied(p: Policy, m: Front, k: nat) {
    (m.Query? || m.Parse?) && !p(k, m.sql).allowed
  }

  predicate Asks(m: Front) { m.Query? || m.Parse? }

  /** The input minus each denied Query and each denied-Parse-through-Sync window. */
  function Kept(p: Policy, ms: seq<Front>, k: nat): seq<Front>
    decreases |ms|
  {
    if ms == [] then []
    else if ms[0].Terminate? then [ms[0]]
    else if Denied(p, ms[0], k) then Kept(p, if ms[0].Parse? then SkipThroughSync(ms[1..]) else ms[1..], k + 1)
    else [ms[0]] + Kept(p, ms[1..], if Asks(ms[0]) then k + 1 else k)
  }

  /** The reason of each removal, in order. */
  function Reasons(p: Policy, ms: seq<Front>, k: nat): seq<bytes>
    decreases |ms|
  {
    if ms == [] || ms[0].Terminate? then []
    else if Denied(p, ms[0], k) then
      [Reason(p(k, ms[0].sql))] + Reasons(p, if ms[0].Parse? then SkipThroughSync(ms[1..]) else ms[1..], k + 1)
    else Reasons(p, ms[1..], if Asks(ms[0]) then k + 1 else k)
  }

  /** How many removals complete: all of them, except a window that never reaches Sync. */
  function Completed(p: Policy, ms: seq<Front>, k: nat): nat
    decreases |ms|
  {
    if ms == [] || ms[0].Terminate? then 0
    else if Denied(p, ms[0], k) then
      (if ms[0].Query? || Closes(ms[1..]) then 1 else 0) +
      Completed(p, if ms[0].Parse? then SkipThroughSync(ms[1..]) else ms[1..], k + 1)
    else Completed(p, ms[1..], if Asks(ms[0]) then k + 1 else k)
  }

  // ------------------------------------------------------------- invariant

  /** What the operator loop still owes, given where it stands. */
  function Owed(p: Policy, s: Splice): seq<Front> {
    match s.operator
    case Forwarding(m) => [m] + Kept(p, s.input, s.evaluated)
    case Leaving => [Terminate]
    case Stopped => []
    case Draining => Kept(p, SkipThroughSync(s.input), s.evaluated)
    case ExtendedError(_) => Kept(p, SkipThroughSync(s.input), s.evaluated)
    case _ => Kept(p, s.input, s.evaluated)
  }

  function OwedReasons(p: Policy, s: Splice): seq<bytes> {
    match s.operator
    case SimpleDenied(r) => [r] + Reasons(p, s.input, s.evaluated)
    case SimpleError(r, _) => [r] + Reasons(p, s.input, s.evaluated)
    case ExtendedError(r) => [r] + Reasons(p, SkipThroughSync(s.input), s.evaluated)
    case Draining => Reasons(p, SkipThroughSync(s.input), s.evaluated)
    case Leaving => []
    case Stopped => []
    case _ => Reasons(p, s.input, s.evaluated)
  }

  function OwedReadies(p: Policy, s: Splice): nat {
    match s.operator
    case Draining =>
      (if Closes(s.input) then 1 else 0) + Completed(p, SkipThroughSync(s.input), s.evaluated)
    case ExtendedError(_) =>
      (if Closes(s.input) then 1 else 0) + Completed(p, SkipThroughSync(s.input), s.evaluated)
    case SimpleDenied(_) => 1 + Completed(p, s.input, s.evaluated)
    case SimpleError(_, _) => 1 + Completed(p, s.input, s.evaluated)
    case Drained => 1 + Completed(p, s.input, s.evaluated)
    case Answering(_) => 1 + Completed(p, s.input, s.evaluated)
    case Leaving => 0
    case Stopped => 0
    case _ => Completed(p, s.input, s.evaluated)
  }

  function ErrorsIn(out: seq<Out>): seq<bytes> {
    if out == [] then []
    else ErrorsIn(out[..|out| - 1]) + (if out[|out| - 1].GatewayError? then [out[|out| - 1].reason] else [])
  }

  function ReadiesIn(out: seq<Out>): seq<byte> {
    if out == [] then []
    else ReadiesIn(out[..|out| - 1]) + (if out[|out| - 1].GatewayReady? then [out[|out| - 1].status] else [])
  }

  lemma OutSnoc(out: seq<Out>, o: Out)
    ensures ErrorsIn(out + [o]) == ErrorsIn(out) + (if o.GatewayError? then [o.reason] else [])
    ensures ReadiesIn(out + [o]) == ReadiesIn(out) + (if o.GatewayReady? then [o.status] else [])
  {
    assert (out + [o])[..|out|] == out;
  }

  ghost predicate Delivers(p: Policy, s: Splice, input: seq<Front>) {
    && s.toUpstream + Owed(p, s) == Kept(p, input, 0)
    && ErrorsIn(s.toOperator) + OwedReasons(p, s) == Reasons(p, input, 0)
    && |ReadiesIn(s.toOperator)| + OwedReadies(p, s) == Completed(p, input, 0)
  }

  lemma StepDelivers(p: Policy, s: Splice, step: Step, input: seq<Front>)
    requires Enabled(s, step) && Delivers(p, s, input)
    ensures Delivers(p, Next(p, s, step), input)
  {
    hide Next, Owed, OwedReasons, OwedReadies, Kept, Reasons, Completed, ErrorsIn, ReadiesIn;
    StepOwes(p, s, step);
    StepOwesReasons(p, s, step);
    StepOwesReadies(p, s, step);
  }

  /** Each step moves something from what is owed to what is written, or nothing. */
  lemma StepOwes(p: Policy, s: Splice, step: Step)
    requires Enabled(s, step)
    ensures Next(p, s, step).toUpstream + Owed(p, Next(p, s, step)) == s.toUpstream + Owed(p, s)
  {
    hide Kept, SkipThroughSync, Received;
    if step.Receive? {
      ReceiveWritesNothing(p, s);
      ReceiveOwes(p, s);
    }
  }

  lemma StepOwesReasons(p: Policy, s: Splice, step: Step)
    requires Enabled(s, step)
    ensures var s' := Next(p, s, step);
            ErrorsIn(s'.toOperator) + OwedReasons(p, s') == ErrorsIn(s.toOperator) + OwedReasons(p, s)
  {
    hide Reasons, SkipThroughSync, ErrorsIn, ReadiesIn, Received;
    match step
    case Receive =>
      ReceiveWritesNothing(p, s);
      ReceiveOwes(p, s);
    case SendError => OutSnoc(s.toOperator, GatewayError(s.operator.reason));
    case SendReady => OutSnoc(s.toOperator, GatewayReady(s.operator.status));
    case Relay => OutSnoc(s.toOperator, Relayed(s.upstream.m));
    case _ =>
  }

  lemma StepOwesReadies(p: Policy, s: Splice, step: Step)
    requires Enabled(s, step)
    ensures var s' := Next(p, s, step);
            |ReadiesIn(s'.toOperator)| + OwedReadies(p, s') == |ReadiesIn(s.toOperator)| + OwedReadies(p, s)
  {
    hide Completed, Closes, SkipThroughSync, ErrorsIn, ReadiesIn, Received;
    match step
    case Receive =>
      ReceiveWritesNothing(p, s);
      ReceiveOwes(p, s);
    case SendError => OutSnoc(s.toOperator, GatewayError(s.operator.reason));
    case SendReady => OutSnoc(s.toOperator, GatewayReady(s.operator.status));
    case Relay => OutSnoc(s.toOperator, Relayed(s.upstream.m));
    case _ =>
  }

  lemma ReceiveWritesNothing(p: Policy, s: Splice)
    requires Enabled(s, Receive)
    ensures var s' := Received(p, s);
            s'.toUpstream == s.toUpstream && s'.toOperator == s.toOperator && s'.upstream == s.upstream
  {
  }

  /** Receiving a message changes where the loop stands, not what it owes. */
  lemma ReceiveOwes(p: Policy, s: Splice)
    requires Enabled(s, Receive)
    ensures Owed(p, Received(p, s)) == Owed(p, s)
    ensures OwedReasons(p, Received(p, s)) == OwedReasons(p, s)
    ensures OwedReadies(p, Received(p, s)) == OwedReadies(p, s)
  {
  }

  /** The transaction status is the latest one recorded, and each deny answers
      with the one that was current when it read it. */
  ghost predicate Truthful(s: Splice) {
    && |s.recorded| > 0 && s.txStatus == s.recorded[|s.recorded| - 1]
    && (forall i :: 0 <= i < |s.looks| ==> s.looks[i] < |s.recorded|)
    && (forall i, j :: 0 <= i < j < |s.looks| ==> s.looks[i] <= s.looks[j])
    && |s.looks| == |ReadiesIn(s.toOperator)| + (if s.operator.Answering? || s.operator.SimpleError? then 1 else 0)
    && (forall i :: 0 <= i < |ReadiesIn(s.toOperator)| ==> ReadiesIn(s.toOperator)[i] == s.recorded[s.looks[i]])
    && (s.operator.Answering? || s.operator.SimpleError? ==>
          s.operator.status == s.recorded[s.looks[|s.looks| - 1]])
    // errors and readies alternate: an error is open only while its removal is
    && var open := |ErrorsIn(s.toOperator)| - |ReadiesIn(s.toOperator)|;
       if s.operator.Draining? || s.operator.Drained? || s.operator.Answering? then open == 1
       else if s.operator.Stopped? then 0 <= open <= 1
       else open == 0
  }

  lemma StepIsTruthful(p: Policy, s: Splice, step: Step)
    requires Enabled(s, step) && Truthful(s)
    ensures Truthful(Next(p, s, step))
  {
    hide ReadiesIn, ErrorsIn;
    if step.SendError? { OutSnoc(s.toOperator, GatewayError(s.operator.reason)); }
    if step.SendReady? { OutSnoc(s.toOperator, GatewayReady(s.operator.status)); }
    if step.Relay? { OutSnoc(s.toOperator, Relayed(s.upstream.m)); }
  }

  lemma {:induction false} RunDelivers(p: Policy, s: Splice, steps: seq<Step>, input: seq<Front>)
    requires Valid(p, s, steps) && Delivers(p, s, input) && Truthful(s)
    ensures Delivers(p, After(p, s, steps), input) && Truthful(After(p, s, steps))
    decreases |steps|
  {
    hide Delivers, Truthful;
    if steps != [] {
      StepDelivers(p, s, steps[0], input);
      StepIsTruthful(p, s, steps[0]);
      RunDelivers(p, Next(p, s, steps[0]), steps[1..], input);
    }
  }

  // ---------------------------------------------------------------- theorems

  /** Nothing in flight in the operator loop and nothing left to receive. */
  predicate Quiet(s: Splice) {
    s.operator.Stopped? || (s.input == [] && (s.operator.Reading? || s.operator.Draining?))
  }

  lemma QuietOwesNothing(p: Policy, s: Splice)
    requires Quiet(s)
    ensures Owed(p, s) == [] && OwedReasons(p, s) == [] && OwedReadies(p, s) == 0
  {
  }

  /** For every operator input, every policy and every interleaving with upstream
      traffic: the upstream has received a prefix of the input minus the removed
      messages, all of it once the loop is quiet; the operator has got one gateway
      error per removal and one gateway ready per completed removal, each ready
      carrying the latest transaction status recorded when it was decided. */
  lemma UpstreamGetsInputMinusDenials(p: Policy, input: seq<Front>, steps: seq<Step>)
    requires Valid(p, Initial(input), steps)
    ensures var s := After(p, Initial(input), steps);
            && s.toUpstream <= Kept(p, input, 0)
            && ErrorsIn(s.toOperator) <= Reasons(p, input, 0)
            && (Quiet(s) ==> s.toUpstream == Kept(p, input, 0))
            && (Quiet(s) ==> ErrorsIn(s.toOperator) == Reasons(p, input, 0))
            && (Quiet(s) ==> |ReadiesIn(s.toOperator)| == Completed(p, input, 0))
            && Truthful(s)
  {
    hide Kept, Reasons, Completed, Owed, OwedReasons, OwedReadies, Truthful, ErrorsIn, ReadiesIn;
    var s0 := Initial(input);
    InitialDelivers(p, input);
    RunDelivers(p, s0, steps, input);
    var s := After(p, s0, steps);
    if Quiet(s) { QuietOwesNothing(p, s); }
  }

  lemma InitialDelivers(p: Policy, input: seq<Front>)
    ensures Delivers(p, Initial(input), input) && Truthful(Initial(input))
  {
  }

  /** A denied Parse takes exactly its window: whatever stands between it and the
      next Sync never reaches the upstream, and what follows is unaffected. */
  lemma {:induction false} DeniedParseRemovesItsWindow(p: Policy, sql: bytes, window: seq<Front>, rest: seq<Front>,
                                                       k: nat)
    requires Denied(p, Parse(sql), k)
    requires forall i :: 0 <= i < |window| ==> !window[i].Sync? && !window[i].Terminate?
    ensures Kept(p, [Parse(sql)] + window + [Sync] + rest, k) == Kept(p, rest, k + 1)
    ensures Completed(p, [Parse(sql)] + window + [Sync] + rest, k) == 1 + Completed(p, rest, k + 1)
  {
    var ms := [Parse(sql)] + window + [Sync] + rest;
    assert ms[1..] == window + [Sync] + rest;
    SkipsWindow(window, rest);
  }

  lemma {:induction false} SkipsWindow(window: seq<Front>, rest: seq<Front>)
    requires forall i :: 0 <= i < |window| ==> !window[i].Sync? && !window[i].Terminate?
    ensures SkipThroughSync(window + [Sync] + rest) == rest && Closes(window + [Sync] + rest)
  {
    var ms := window + [Sync] + rest;
    if window == [] {
      assert ms[1..] == rest;
    } else {
      assert ms[1..] == window[1..] + [Sync] + rest;
      SkipsWindow(window[1..], rest);
    }
  }

  /** Upstream messages are relayed verbatim and in order. */
  function RelayedIn(out: seq<Out>): seq<Back> {
    if out == [] then []
    else RelayedIn(out[..|out| - 1]) + (if out[|out| - 1].Relayed? then [out[|out| - 1].m] else [])
  }

  function Arrivals(steps: seq<Step>): seq<Back> {
    if steps == [] then [] else (if steps[0].Arrive? then [steps[0].m] else []) + Arrivals(steps[1..])
  }

  function InHand(s: Splice): seq<Back> { if s.upstream.Waiting? then [] else [s.upstream.m] }

  lemma {:induction false} UpstreamIsRelayedInOrder(p: Policy, s: Splice, steps: seq<Step>)
    requires Valid(p, s, steps)
    ensures var e := After(p, s, steps);
            RelayedIn(e.toOperator) + InHand(e) == RelayedIn(s.toOperator) + InHand(s) + Arrivals(steps)
    decreases |steps|
  {
    hide RelayedIn, Next, InHand;
    if steps == [] {
      assert RelayedIn(s.toOperator) + InHand(s) + [] == RelayedIn(s.toOperator) + InHand(s);
    } else {
      var s' := Next(p, s, steps[0]);
      UpstreamIsRelayedInOrder(p, s', steps[1..]);
      RelayStep(p, s, steps[0]);
      var now := if steps[0].Arrive? then [steps[0].m] else [];
      var before := RelayedIn(s.toOperator) + InHand(s);
      assert before + now + Arrivals(steps[1..]) == before + (now + Arrivals(steps[1..]));
    }
  }

  lemma RelayedSnoc(out: seq<Out>, o: Out)
    ensures RelayedIn(out + [o]) == RelayedIn(out) + (if o.Relayed? then [o.m] else [])
  {
    assert (out + [o])[..|out|] == out;
  }

  lemma RelayStep(p: Policy, s: Splice, step: Step)
    requires Enabled(s, step)
    ensures var s' := Next(p, s, step);
            RelayedIn(s'.toOperator) + InHand(s') ==
            RelayedIn(s.toOperator) + InHand(s) + (if step.Arrive? then [step.m] else [])
  {
    hide RelayedIn, Received;
    match step
    case Receive => ReceiveWritesNothing(p, s);
    case SendError => RelayedSnoc(s.toOperator, GatewayError(s.operator.reason));
    case SendReady => RelayedSnoc(s.toOperator, GatewayReady(s.operator.status));
    case Relay => RelayedSnoc(s.toOperator, Relayed(s.upstream.m));
    case _ =>
  }
}
