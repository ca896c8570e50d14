/** The soft-pause gate: reader loops that wait on the condition variable, in
    every interleaving with the recorder's critical sections. */
module PauseGate {
  import opened Recorder

  type ReaderId = nat

  /** Where a reader loop is: about to call the gate, parked in Wait, woken but not
      yet rescheduled, past the gate with the lock released and its read not yet
      begun, or with its read in flight. */
  datatype Place = AtGate | Parked | Woken | Passed | InFlight

  datatype System = System(rec: State, readers: map<ReaderId, Place>)

  /** The loop condition of waitWhilePaused. */
  predicate Shut(st: State) { st.paused && !st.aborted && !st.closed }

  datatype Step =
    | Do(op: Op)              // one critical section of the recorder
    | Enter(r: ReaderId)      // the reader takes the lock and tests the condition
    | Recheck(r: ReaderId)    // a woken reader tests it again
    | Begin(r: ReaderId)      // a reader past the gate starts its read
    | Finish(r: ReaderId)     // its read completes and the loop comes round

  predicate Enabled(s: System, step: Step) {
    match step
    case Do(_) => true
    case Enter(r) => r in s.readers && s.readers[r] == AtGate
    case Recheck(r) => r in s.readers && s.readers[r] == Woken
    case Begin(r) => r in s.readers && s.readers[r] == Passed
    case Finish(r) => r in s.readers && s.readers[r] == InFlight
  }

  /** Whether the critical section reaches its Broadcast. */
  predicate Broadcasts(st: State, op: Op) {
    match op
    case Resume(_) => st.paused
    case Interrupt => true
    case Cancel => true
    case Flush => !st.closed
    case _ => false
  }

  function WakeAll(readers: map<ReaderId, Place>): map<ReaderId, Place> {
    map r | r in readers :: if readers[r] == Parked then Woken else readers[r]
  }

  /** Taking the lock and testing the loop condition once. */
  function Test(st: State): Place { if Shut(st) then Parked else Passed }

  function Next(s: System, step: Step): System
    requires Enabled(s, step)
  {
    match step
    case Do(op) => System(Apply(s.rec, op), if Broadcasts(s.rec, op) then WakeAll(s.readers) else s.readers)
    case Enter(r) => s.(readers := s.readers[r := Test(s.rec)])
    case Recheck(r) => s.(readers := s.readers[r := Test(s.rec)])
    case Begin(r) => s.(readers := s.readers[r := InFlight])
    case Finish(r) => s.(readers := s.readers[r := AtGate])
  }

  predicate Valid(s: System, steps: seq<Step>)
    decreases |steps|
  {
    steps == [] || (Enabled(s, steps[0]) && Valid(Next(s, steps[0]), steps[1..]))
  }

  function After(s: System, steps: seq<Step>): System
    requires Valid(s, steps)
    decreases |steps|
  {
    if steps == [] then s else After(Next(s, steps[0]), steps[1..])
  }

  ghost predicate NoneStranded(s: System) {
    forall r :: r in s.readers && s.readers[r] == Parked ==> Shut(s.rec)
  }

  lemma ApplyFlags(st: State, op: Op)
    ensures var st' := Apply(st, op);
            && st'.paused == NextPaused(st.paused, op)
            && st'.closed == (st.closed || op.Flush?)
            && st'.aborted == (st.aborted || op.Interrupt? || op.Cancel?)
  {
  }

  lemma StepKeepsNoneStranded(s: System, step: Step)
    requires NoneStranded(s) && Enabled(s, step)
    ensures NoneStranded(Next(s, step))
  {
    hide Apply;
    if step.Do? { ApplyFlags(s.rec, step.op); }
  }

  /** No wake-up is ever lost: in every reachable state a parked reader is parked
      because the gate is shut at that moment. */
  lemma {:induction false} NoReaderIsStranded(s: System, steps: seq<Step>)
    requires NoneStranded(s) && Valid(s, steps)
    ensures NoneStranded(After(s, steps))
    decreases |steps|
  {
    if steps != [] {
      StepKeepsNoneStranded(s, steps[0]);
      NoReaderIsStranded(Next(s, steps[0]), steps[1..]);
    }
  }

  /** Once aborted or closed, the gate is open in every later state, no reader is
      parked, and a reader that reaches the gate goes straight through. */
  lemma {:induction false} TornDownGateNeverBlocks(s: System, steps: seq<Step>)
    requires NoneStranded(s) && Valid(s, steps) && (s.rec.aborted || s.rec.closed)
    ensures var e := After(s, steps);
            && !Shut(e.rec)
            && (forall r :: r in e.readers ==> e.readers[r] != Parked)
            && forall r :: r in e.readers && (e.readers[r] == AtGate || e.readers[r] == Woken) ==>
                 var step := if e.readers[r] == AtGate then Enter(r) else Recheck(r);
                 Enabled(e, step) && Next(e, step).readers[r] == Passed
    decreases |steps|
  {
    if steps != [] {
      StepKeepsNoneStranded(s, steps[0]);
      if steps[0].Do? { ApplyFlags(s.rec, steps[0].op); }
      TornDownGateNeverBlocks(Next(s, steps[0]), steps[1..]);
    }
  }

  // ------------------------------------------------------------ during a pause

  /** Reads of `r` that start, and that complete, during the steps. */
  function Started(steps: seq<Step>, r: ReaderId): nat {
    if steps == [] then 0 else (if steps[0] == Begin(r) then 1 else 0) + Started(steps[1..], r)
  }

  function Completed(steps: seq<Step>, r: ReaderId): nat {
    if steps == [] then 0 else (if steps[0] == Finish(r) then 1 else 0) + Completed(steps[1..], r)
  }

  /** Steps of a pause: no resume and no teardown among them. */
  predicate KeepsShut(step: Step) {
    step.Do? ==> step.op.Record? || step.op.Pause?
  }

  predicate WithinPause(s: System, steps: seq<Step>) {
    Valid(s, steps) && forall i :: 0 <= i < |steps| ==> KeepsShut(steps[i])
  }

  /** Past the gate: the read has begun or will. */
  predicate Past(s: System, r: ReaderId) { r in s.readers && (s.readers[r] == Passed || s.readers[r] == InFlight) }

  predicate Waiting(s: System, r: ReaderId) { r in s.readers && s.readers[r] == Passed }

  /** While the session stays paused a reader loop starts a read exactly when it had
      already passed the gate for it and takes that step, once; it completes at most
      that read or the one it had in flight; and a reader not past the gate does
      not get past it. */
  lemma {:induction false} AtMostOneReadInPause(s: System, steps: seq<Step>, r: ReaderId)
    requires WithinPause(s, steps) && Shut(s.rec)
    ensures Shut(After(s, steps).rec)
    ensures Started(steps, r) == (if Waiting(s, r) && Begin(r) in steps then 1 else 0)
    ensures Completed(steps, r) <= (if Past(s, r) then 1 else 0)
    ensures Past(After(s, steps), r) ==> Past(s, r) && Completed(steps, r) == 0
    decreases |steps|
  {
    if steps != [] {
      assert KeepsShut(steps[0]);
      if steps[0].Do? { ApplyFlags(s.rec, steps[0].op); }
      AtMostOneReadInPause(Next(s, steps[0]), steps[1..], r);
      assert steps == [steps[0]] + steps[1..];
    }
  }

  /** A read can start while a pause is in force if and only if its reader had
      passed the gate before the pause. */
  lemma ReadStartsInPauseExactly(s: System, at: int, r: ReaderId)
    requires !s.rec.paused && !s.rec.aborted && !s.rec.closed
    ensures Shut(Next(s, Do(Pause(at))).rec)
    ensures (exists steps :: WithinPause(Next(s, Do(Pause(at))), steps) && Started(steps, r) > 0) <==> Waiting(s, r)
  {
    var p := Next(s, Do(Pause(at)));
    ApplyFlags(s.rec, Pause(at));
    if Waiting(s, r) {
      var steps := [Begin(r)];
      assert steps[1..] == [] && Valid(Next(p, Begin(r)), []);
      assert WithinPause(p, steps) && Started(steps, r) == 1 + Started([], r);
    }
    forall steps | WithinPause(p, steps) && Started(steps, r) > 0 ensures Waiting(s, r) {
      AtMostOneReadInPause(p, steps, r);
    }
  }

  /** The smallest such run: the reader passes the gate, the administrator pauses,
      the read starts. */
  lemma ReadStartsWhilePaused(limit: int)
    ensures var s := System(Initial(limit), map[0 := AtGate]);
            var steps := [Enter(0), Do(Pause(0)), Begin(0)];
            && Valid(s, steps)
            && Shut(After(s, steps).rec) && After(s, steps).readers[0] == InFlight
            && StartedWhileShut(s, steps, 0) == 1
  {
    var s := System(Initial(limit), map[0 := AtGate]);
    var s1 := Next(s, Enter(0));
    var s2 := Next(s1, Do(Pause(0)));
    var s3 := Next(s2, Begin(0));
    ApplyFlags(s1.rec, Pause(0));
    var steps := [Enter(0), Do(Pause(0)), Begin(0)];
    assert steps[1..] == [Do(Pause(0)), Begin(0)] && steps[1..][1..] == [Begin(0)] && [Begin(0)][1..] == [];
    assert Valid(s3, []) && After(s3, []) == s3 && StartedWhileShut(s3, [], 0) == 0;
    assert Valid(s2, [Begin(0)]) && After(s2, [Begin(0)]) == s3 && StartedWhileShut(s2, [Begin(0)], 0) == 1;
    assert Valid(s1, steps[1..]) && After(s1, steps[1..]) == s3 && StartedWhileShut(s1, steps[1..], 0) == 1;
  }

  // ---------------------------------------------------------------- whole runs

  /** Reads of `r` that start, and that complete, while the gate is shut. */
  function StartedWhileShut(s: System, steps: seq<Step>, r: ReaderId): nat
    requires Valid(s, steps)
    decreases |steps|
  {
    if steps == [] then 0
    else (if Shut(s.rec) && steps[0] == Begin(r) then 1 else 0) + StartedWhileShut(Next(s, steps[0]), steps[1..], r)
  }

  function CompletedWhileShut(s: System, steps: seq<Step>, r: ReaderId): nat
    requires Valid(s, steps)
    decreases |steps|
  {
    if steps == [] then 0
    else (if Shut(s.rec) && steps[0] == Finish(r) then 1 else 0) + CompletedWhileShut(Next(s, steps[0]), steps[1..], r)
  }

  /** Pauses that shut the gate. */
  function Pauses(s: System, steps: seq<Step>): nat
    requires Valid(s, steps)
    decreases |steps|
  {
    if steps == [] then 0
    else
      var s' := Next(s, steps[0]);
      (if !Shut(s.rec) && Shut(s'.rec) then 1 else 0) + Pauses(s', steps[1..])
  }

  /** Over every run, each reader loop starts at most one read while the gate is shut
      per pause, and completes at most one. */
  lemma {:induction false} OneReadPerPause(s: System, steps: seq<Step>, r: ReaderId)
    requires Valid(s, steps)
    ensures StartedWhileShut(s, steps, r) <= Pauses(s, steps) + (if Shut(s.rec) && Waiting(s, r) then 1 else 0)
    ensures CompletedWhileShut(s, steps, r) <= Pauses(s, steps) + (if Shut(s.rec) && Past(s, r) then 1 else 0)
    decreases |steps|
  {
    hide Apply;
    if steps != [] {
      if steps[0].Do? { ApplyFlags(s.rec, steps[0].op); }
      OneReadPerPause(Next(s, steps[0]), steps[1..], r);
    }
  }
}
