/** The two relay loops of the RDP proxy sharing the channel state, stepped in
    every interleaving. A step is one piece of a loop between lock operations. */
module RdpRelay {
  import opened Bytes
  import opened RdpPdu
  import opened RdpChannels

  /** strings.ToLower as far as ASCII results go: besides A-Z, the only letters
      whose lower case is ASCII are U+0130 (C4 B0) and U+212A (E2 84 AA). */
  function Lower(s: bytes): bytes {
    if s == [] then []
    else if s[0] == 0xC4 && |s| >= 2 && s[1] == 0xB0 then [105] + Lower(s[2..])
    else if s[0] == 0xE2 && |s| >= 3 && s[1] == 0x84 && s[2] == 0xAA then [107] + Lower(s[3..])
    else [if 65 <= s[0] <= 90 then s[0] + 32 else s[0]] + Lower(s[1..])
  }

  const CLIPRDR: bytes := [99, 108, 105, 112, 114, 100, 114]
  const RDPDR: bytes := [114, 100, 112, 100, 114]
  const DRDYNVC: bytes := [100, 114, 100, 121, 110, 118, 99]

  predicate IsRedirection(name: bytes) {
    Lower(name) == CLIPRDR || Lower(name) == RDPDR || Lower(name) == DRDYNVC
  }

  /** Where the operator loop stands with the PDU it is working on. */
  datatype OperatorAt = Idle | Received(pdu: bytes) | Learned(pdu: bytes) | Passing(pdu: bytes, out: bytes)

  /** Where the upstream loop stands; `redirected` remembers which ids of the PDU
      belong to a redirection channel. */
  datatype UpstreamAt = Waiting | Fetched(pdu: bytes) | Mapped(pdu: bytes, redirected: set<nat>)

  datatype Relay = Relay(
    // rdpRelayState
    channels: seq<bytes>, clientNetSeen: bool, gated: map<nat, bytes>,
    // the loops
    operator: OperatorAt, upstream: UpstreamAt,
    // what has happened
    heard: seq<bytes>,          // operator PDUs inspected, in order
    passed: seq<bytes>,         // those that got through the gate, as received
    toUpstream: seq<bytes>,     // what was written upstream
    mapped: seq<bytes>,         // upstream PDUs inspected, in order
    toOperator: seq<bytes>,     // what was written to the operator
    announced: set<nat>)        // redirection ids whose SC_NET has reached the operator

  datatype Config = Config(clipboardAllowed: bool, credential: Credential)

  function Initial(): Relay {
    Relay([], false, map[], Idle, Waiting, [], [], [], [], [], {})
  }

  datatype Step =
    | Receive(pdu: bytes)      // operator loop: readTPKT
    | Learn                    //   CS_NET, once
    | Gate                     //   the redirection check, then the rewrite
    | Send                     //   write upstream
    | Fetch(pdu: bytes)        // upstream loop: readTPKT
    | MapIds                   //   SC_NET under the lock
    | Deliver                  //   write to the operator

  predicate Enabled(s: Relay, step: Step) {
    match step
    case Receive(_) => s.operator.Idle?
    case Learn => s.operator.Received?
    case Gate => s.operator.Learned?
    case Send => s.operator.Passing?
    case Fetch(_) => s.upstream.Waiting?
    case MapIds => s.upstream.Fetched?
    case Deliver => s.upstream.Mapped?
  }

  /** The gate's decision on one operator PDU. */
  predicate Dropped(c: Config, gated: map<nat, bytes>, pdu: bytes) {
    var sent := ParseSendData(pdu, SEND_DATA_REQUEST);
    sent.SendData? && !c.clipboardAllowed && sent.channel in gated
  }

  /** What is written upstream for a PDU that passes: the injected form when it
      is a Client Info PDU that can be rewritten, the PDU itself otherwise. */
  function Outgoing(c: Config, pdu: bytes): bytes {
    var sent := ParseSendData(pdu, SEND_DATA_REQUEST);
    if sent.SendData? && IsClientInfo(sent.userData) then
      var r := Inject(pdu, sent.userData, c.credential);
      if r.Pdu? then r.pdu else pdu
    else pdu
  }

  /** The ids among `ids` that sit at the position of a redirection channel. */
  function Assigned(channels: seq<bytes>, ids: seq<nat>): set<nat> {
    set i | 0 <= i < |ids| && i < |channels| && IsRedirection(channels[i]) :: ids[i]
  }

  /** forwardUpstream's update of the gate for ids i.. of an SC_NET. */
  function GateIds(gated: map<nat, bytes>, channels: seq<bytes>, ids: seq<nat>, i: nat): map<nat, bytes>
    requires i <= |ids|
    decreases |ids| - i
  {
    if i == |ids| then gated
    else
      var g := if i < |channels| && IsRedirection(channels[i]) then gated[ids[i] := channels[i]] else gated;
      GateIds(g, channels, ids, i + 1)
  }

  function ServerIdsOf(pdu: bytes): seq<nat> {
    var ids := ServerIds(pdu);
    if ids.Some? then ids.value else []
  }

  function Next(c: Config, s: Relay, step: Step): Relay
    requires Enabled(s, step)
  {
    match step
    case Receive(pdu) => s.(operator := Received(pdu))
    case Learn =>
      var pdu := s.operator.pdu;
      var names := ClientNames(pdu);
      var s' := s.(operator := Learned(pdu), heard := s.heard + [pdu]);
      if !s.clientNetSeen && names.Some? then s'.(channels := names.value, clientNetSeen := true) else s'
    case Gate =>
      var pdu := s.operator.pdu;
      if Dropped(c, s.gated, pdu) then s.(operator := Idle)
      else s.(operator := Passing(pdu, Outgoing(c, pdu)), passed := s.passed + [pdu])
    case Send => s.(operator := Idle, toUpstream := s.toUpstream + [s.operator.out])
    case Fetch(pdu) => s.(upstream := Fetched(pdu))
    case MapIds =>
      var pdu := s.upstream.pdu;
      s.(gated := GateIds(s.gated, s.channels, ServerIdsOf(pdu), 0),
         upstream := Mapped(pdu, Assigned(s.channels, ServerIdsOf(pdu))),
         mapped := s.mapped + [pdu])
    case Deliver =>
      s.(upstream := Waiting, toOperator := s.toOperator + [s.upstream.pdu],
         announced := s.announced + s.upstream.redirected)
  }

  predicate Valid(c: Config, s: Relay, steps: seq<Step>)
    decreases |steps|
  {
    steps == [] || (Enabled(s, steps[0]) && Valid(c, Next(c, s, steps[0]), steps[1..]))
  }

  function After(c: Config, s: Relay, steps: seq<Step>): Relay
    requires Valid(c, s, steps)
    decreases |steps|
  {
    if steps == [] then s else After(c, Next(c, s, steps[0]), steps[1..])
  }

  // --------------------------------------------------------------- invariant

  /** The names of the first operator PDU that carries a channel list. */
  function FirstNames(pdus: seq<bytes>): Option<seq<bytes>> {
    if pdus == [] then None
    else
      var earlier := FirstNames(pdus[..|pdus| - 1]);
      if earlier.Some? then earlier else ClientNames(pdus[|pdus| - 1])
  }

  ghost predicate Inv(c: Config, s: Relay) {
    // the state mirrors the first CS_NET inspected
    && s.clientNetSeen == FirstNames(s.heard).Some?
    && s.channels == (if s.clientNetSeen then FirstNames(s.heard).value else [])
    // whatever was announced, or is about to be, is gated
    && s.announced <= s.gated.Keys
    && (s.upstream.Mapped? ==> s.upstream.redirected <= s.gated.Keys)
    // nothing else is gated
    && (forall id :: id in s.gated ==> Blamed(s, id))
    // the upstream gets the passed PDUs, rewritten, in order
    && |s.toUpstream| + (if s.operator.Passing? then 1 else 0) == |s.passed|
    && (forall i :: 0 <= i < |s.toUpstream| ==> s.toUpstream[i] == Outgoing(c, s.passed[i]))
    && (s.operator.Passing? ==>
          s.passed[|s.passed| - 1] == s.operator.pdu && s.operator.out == Outgoing(c, s.operator.pdu))
    && (s.operator.Learned? ==> |s.heard| > 0 && s.heard[|s.heard| - 1] == s.operator.pdu)
  }

  /** Some inspected SC_NET put `id` at the position of a redirection channel of
      the first CS_NET. */
  ghost predicate Blamed(s: Relay, id: nat) {
    FirstNames(s.heard).Some? &&
    exists k :: 0 <= k < |s.mapped| && id in Assigned(FirstNames(s.heard).value, ServerIdsOf(s.mapped[k]))
  }

  lemma {:induction false} GateIdsAddsAssigned(gated: map<nat, bytes>, channels: seq<bytes>, ids: seq<nat>, i: nat)
    requires i <= |ids|
    ensures var g := GateIds(gated, channels, ids, i);
            && gated.Keys <= g.Keys
            && (forall j :: i <= j < |ids| && j < |channels| && IsRedirection(channels[j]) ==> ids[j] in g)
            && (forall id :: id in g && id !in gated ==> id in Assigned(channels, ids))
    decreases |ids| - i
  {
    hide IsRedirection;
    if i < |ids| {
      var g := if i < |channels| && IsRedirection(channels[i]) then gated[ids[i] := channels[i]] else gated;
      GateIdsAddsAssigned(g, channels, ids, i + 1);
    }
  }

  lemma MapIdsGates(s: Relay)
    requires s.upstream.Fetched?
    ensures var ids := ServerIdsOf(s.upstream.pdu);
            var g := GateIds(s.gated, s.channels, ids, 0);
            && Assigned(s.channels, ids) <= g.Keys
            && g.Keys <= s.gated.Keys + Assigned(s.channels, ids)
            && s.gated.Keys <= g.Keys
  {
    hide IsRedirection, ServerIdsOf;
    GateIdsAddsAssigned(s.gated, s.channels, ServerIdsOf(s.upstream.pdu), 0);
  }

  lemma FirstNamesSnoc(pdus: seq<bytes>, pdu: bytes)
    ensures FirstNames(pdus + [pdu]) == if FirstNames(pdus).Some? then FirstNames(pdus) else ClientNames(pdu)
  {
    hide ClientNames;
    assert (pdus + [pdu])[..|pdus|] == pdus;
  }

  lemma StepKeepsInv(c: Config, s: Relay, step: Step)
    requires Inv(c, s) && Enabled(s, step)
    ensures Inv(c, Next(c, s, step))
  {
    hide ClientNames, ServerIdsOf, Outgoing, Dropped, Assigned, GateIds, FirstNames;
    var s' := Next(c, s, step);
    match step
    case Learn =>
      FirstNamesSnoc(s.heard, s.operator.pdu);
      forall id | id in s'.gated ensures Blamed(s', id) { assert Blamed(s, id); }
    case MapIds =>
      MapIdsGates(s);
      if s.channels == [] { NothingAssigned(ServerIdsOf(s.upstream.pdu)); }
      forall id | id in s'.gated ensures Blamed(s', id) {
        var n := |s.mapped|;
        assert s'.mapped[n] == s.upstream.pdu;
        assert forall k :: 0 <= k < n ==> s'.mapped[k] == s.mapped[k];
        if id in s.gated { assert Blamed(s, id); }
      }
    case _ =>
      forall id | id in s'.gated ensures Blamed(s', id) { assert Blamed(s, id); }
  }

  lemma NothingAssigned(ids: seq<nat>)
    ensures Assigned([], ids) == {}
  {
  }

  lemma {:induction false} RunKeepsInv(c: Config, s: Relay, steps: seq<Step>)
    requires Inv(c, s) && Valid(c, s, steps)
    ensures Inv(c, After(c, s, steps))
    decreases |steps|
  {
    hide Inv;
    if steps != [] {
      StepKeepsInv(c, s, steps[0]);
      RunKeepsInv(c, Next(c, s, steps[0]), steps[1..]);
    }
  }

  lemma InitialInv(c: Config)
    ensures Inv(c, Initial())
  {
  }

  // ---------------------------------------------------------------- theorems

  /** Announcements are never withdrawn and the gate never shrinks. */
  lemma {:induction false} AnnouncedStays(c: Config, s: Relay, steps: seq<Step>)
    requires Valid(c, s, steps)
    ensures s.announced <= After(c, s, steps).announced
    ensures |s.passed| <= |After(c, s, steps).passed|
    ensures After(c, s, steps).passed[..|s.passed|] == s.passed
    decreases |steps|
  {
    hide ClientNames, ServerIdsOf, Outgoing, Dropped, Assigned, GateIds;
    if steps != [] {
      AnnouncedStays(c, Next(c, s, steps[0]), steps[1..]);
    }
  }

  /** With redirection denied, once the SC_NET that assigns an id to a redirection
      channel has reached the operator, no operator PDU on that id which comes to
      the gate later gets through, in any interleaving of the two loops. */
  lemma {:induction false} AnnouncedRedirectionIsBlocked(c: Config, s: Relay, steps: seq<Step>, i: nat)
    requires !c.clipboardAllowed && Inv(c, s) && Valid(c, s, steps)
    requires |s.passed| <= i < |After(c, s, steps).passed|
    ensures var sent := ParseSendData(After(c, s, steps).passed[i], SEND_DATA_REQUEST);
            sent.SendData? ==> sent.channel !in s.announced
    decreases |steps|
  {
    hide ClientNames, ServerIdsOf, Outgoing, Assigned, GateIds, FirstNames, ParseSendData;
    var s' := Next(c, s, steps[0]);
    StepKeepsInv(c, s, steps[0]);
    if |s'.passed| <= i {
      AnnouncedRedirectionIsBlocked(c, s', steps[1..], i);
    } else {
      AnnouncedStays(c, s', steps[1..]);
      assert After(c, s', steps[1..]).passed[i] == s'.passed[i];
    }
  }

  /** The rewrite never moves a PDU to another channel: whatever the result parses
      to, at any length, names the channel of the original. */
  lemma OutgoingKeepsChannel(c: Config, pdu: bytes)
    requires ParseSendData(Outgoing(c, pdu), SEND_DATA_REQUEST).SendData?
    ensures ParseSendData(pdu, SEND_DATA_REQUEST).SendData?
    ensures ParseSendData(Outgoing(c, pdu), SEND_DATA_REQUEST).channel == ParseSendData(pdu, SEND_DATA_REQUEST).channel
  {
    hide Rewrap, ParseSendData, ParseInfo, Spell, IsClientInfo;
    var sent := ParseSendData(pdu, SEND_DATA_REQUEST);
    if Outgoing(c, pdu) != pdu {
      SendDataHasHeader(pdu, SEND_DATA_REQUEST);
      RewrapKeepsChannel(pdu, Spell(Replaced(ParseInfo(sent.userData).info, c.credential)), SEND_DATA_REQUEST);
    }
  }

  /** So with redirection denied, of what the gate lets through after the SC_NET
      has reached the operator, nothing that is written upstream is on one of its
      redirection channels, rewritten or not. */
  lemma NoRedirectionReachesUpstream(c: Config, s: Relay, steps: seq<Step>, i: nat)
    requires !c.clipboardAllowed && Inv(c, s) && Valid(c, s, steps)
    requires |s.passed| <= i < |After(c, s, steps).toUpstream|
    ensures var sent := ParseSendData(After(c, s, steps).toUpstream[i], SEND_DATA_REQUEST);
            sent.SendData? ==> sent.channel !in s.announced
  {
    hide ParseSendData, Outgoing, Next, FirstNames, Blamed;
    RunKeepsInv(c, s, steps);
    var e := After(c, s, steps);
    AnnouncedRedirectionIsBlocked(c, s, steps, i);
    if ParseSendData(e.toUpstream[i], SEND_DATA_REQUEST).SendData? { OutgoingKeepsChannel(c, e.passed[i]); }
  }

  /** In every reachable state, whatever the interleaving: the upstream has been
      sent exactly the PDUs that passed, rewritten and in order, and only ids that
      an SC_NET assigned to a redirection channel are gated at all. */
  lemma EveryReachableStateIsSound(c: Config, steps: seq<Step>)
    requires Valid(c, Initial(), steps)
    ensures var s := After(c, Initial(), steps);
            && |s.toUpstream| <= |s.passed| <= |s.toUpstream| + 1
            && (forall i :: 0 <= i < |s.toUpstream| ==> s.toUpstream[i] == Outgoing(c, s.passed[i]))
            && s.announced <= s.gated.Keys
            && forall id :: id in s.gated ==> Blamed(s, id)
  {
    InitialInv(c);
    RunKeepsInv(c, Initial(), steps);
  }

  /** The PDUs that pass are the inspected ones minus the dropped ones, in order. */
  function Kept(heard: seq<bytes>, verdicts: seq<bool>): seq<bytes>
    requires |heard| == |verdicts|
  {
    if heard == [] then []
    else Kept(heard[..|heard| - 1], verdicts[..|heard| - 1]) +
         (if verdicts[|heard| - 1] then [heard[|heard| - 1]] else [])
  }

  /** The gate's verdicts along a run, one per PDU that came to the gate. */
  function Verdicts(c: Config, s: Relay, steps: seq<Step>): seq<bool>
    requires Valid(c, s, steps)
    decreases |steps|
  {
    if steps == [] then []
    else (if steps[0].Gate? then [!Dropped(c, s.gated, s.operator.pdu)] else []) +
         Verdicts(c, Next(c, s, steps[0]), steps[1..])
  }

  /** The operator PDUs that have been through the gate. */
  function Judged(s: Relay): seq<bytes> {
    if s.operator.Learned? && s.heard != [] then s.heard[..|s.heard| - 1] else s.heard
  }

  ghost predicate Accounted(s: Relay, verdicts: seq<bool>) {
    |Judged(s)| == |verdicts| && s.passed == Kept(Judged(s), verdicts) &&
    (s.operator.Learned? ==> |s.heard| > 0 && s.heard[|s.heard| - 1] == s.operator.pdu)
  }

  lemma {:induction false} NothingElseIsLost(c: Config, s: Relay, steps: seq<Step>, verdicts: seq<bool>)
    requires Valid(c, s, steps) && Accounted(s, verdicts)
    ensures Accounted(After(c, s, steps), verdicts + Verdicts(c, s, steps))
    decreases |steps|
  {
    hide Next, Accounted, Dropped;
    if steps == [] {
      assert verdicts + [] == verdicts;
    } else {
      var s' := Next(c, s, steps[0]);
      var now := if steps[0].Gate? then [!Dropped(c, s.gated, s.operator.pdu)] else [];
      StepAccounts(c, s, steps[0], verdicts, now);
      NothingElseIsLost(c, s', steps[1..], verdicts + now);
      assert verdicts + now + Verdicts(c, s', steps[1..]) == verdicts + (now + Verdicts(c, s', steps[1..]));
    }
  }

  lemma StepAccounts(c: Config, s: Relay, step: Step, verdicts: seq<bool>, now: seq<bool>)
    requires Enabled(s, step) && Accounted(s, verdicts)
    requires now == if step.Gate? then [!Dropped(c, s.gated, s.operator.pdu)] else []
    ensures Accounted(Next(c, s, step), verdicts + now)
  {
    hide ClientNames, ServerIdsOf, Outgoing, Dropped, Assigned, GateIds;
    var s' := Next(c, s, step);
    if step.Learn? {
      assert s'.heard[..|s'.heard| - 1] == s.heard;
    } else if step.Gate? {
      assert s.heard[..|s.heard| - 1] == Judged(s);
      assert (verdicts + now)[..|verdicts|] == verdicts;
    }
    if !step.Gate? { assert verdicts + now == verdicts; }
  }

  /** With redirection allowed nothing is ever dropped. */
  lemma {:induction false} AllowedRedirectionPasses(c: Config, s: Relay, steps: seq<Step>)
    requires c.clipboardAllowed && Valid(c, s, steps)
    ensures forall i :: 0 <= i < |Verdicts(c, s, steps)| ==> Verdicts(c, s, steps)[i]
    decreases |steps|
  {
    hide ClientNames, ServerIdsOf, Outgoing, Assigned, GateIds, ParseSendData;
    if steps != [] { AllowedRedirectionPasses(c, Next(c, s, steps[0]), steps[1..]); }
  }

  /** An SC_NET inspected before any CS_NET assigns nothing, so its ids stay open. */
  lemma EarlyAssignmentGatesNothing(c: Config, s: Relay)
    requires Inv(c, s) && s.upstream.Fetched? && !s.clientNetSeen
    ensures Next(c, s, MapIds).gated.Keys == s.gated.Keys && Next(c, s, MapIds).upstream.redirected == {}
  {
    MapIdsGates(s);
    NothingAssigned(ServerIdsOf(s.upstream.pdu));
  }
}
