/** The broker's ownership rows as a run of the session directory, and what that
    says of its connections. */
module BrokerOwnership {
  import opened Bytes
  import opened SessionDirectory
  import opened AgentStore
  import opened Broker

  // --------------------------------------------------- ownership of the rows

  /** Which claim each connection made last. */
  type Claims = map<ConnId, nat>

  /** The broker's rows are those of a run of the directory, in which each connection
      with an epoch made the claim that gave it. */
  ghost predicate Tracks(s: System, w: World, held: Claims) {
    && w.rows == s.rows
    && forall c :: c in s.conns && s.conns[c].epoch != 0 ==> ClaimedAs(s.conns[c], w, held, c)
  }

  predicate ClaimedAs(conn: Conn, w: World, held: Claims, c: ConnId) {
    c in held && held[c] < |w.claims| &&
    var m := w.claims[held[c]];
    m.key == conn.identity && m.node == conn.home && m.epoch == conn.epoch
  }

  /** The directory event a step amounts to, if any. */
  function DirectoryEvent(s: System, e: Step, held: Claims): seq<Event>
    requires Enabled(s, e)
  {
    match e
    case Control(c, Claim(addr, now, true)) => [DoClaim(s.conns[c].identity, s.conns[c].home, addr, now)]
    case Control(c, Maintain(addr, now, true)) =>
      if s.conns[c].epoch == 0 then [DoClaim(s.conns[c].identity, s.conns[c].home, addr, now)]
      else if c in held then [DoRefresh(held[c], now)] else []
    case Control(c, ReleaseRow(true)) => if s.conns[c].epoch != 0 && c in held then [DoRelease(held[c])] else []
    case _ => []
  }

  /** Who makes a claim with a step: at most one connection. */
  function Claimer(s: System, e: Step): seq<ConnId>
    requires Enabled(s, e)
  {
    match e
    case Control(c, Claim(_, _, true)) => [c]
    case Control(c, Maintain(_, _, true)) => if s.conns[c].epoch == 0 then [c] else []
    case _ => []
  }

  /** With `n` claims made before, the step's own claim gets the number `n`. */
  function HeldAfter(s: System, e: Step, n: nat, held: Claims): Claims
    requires Enabled(s, e)
  {
    if Claimer(s, e) == [] then held else held[Claimer(s, e)[0] := n]
  }

  lemma ClaimEffect(w: World, k: Key, node: NodeId, addr: string, now: int)
    ensures var w' := SessionDirectory.Step(w, DoClaim(k, node, addr, now));
            && w'.rows == Claimed(w.rows, k, node, addr, now) && Grows(w, w') && |w'.claims| == |w.claims| + 1
            && var m := w'.claims[|w.claims|]; m.key == k && m.node == node && m.epoch == NextEpoch(w.rows, k)
  {
  }

  lemma RefreshEffect(w: World, i: nat, now: int)
    requires i < |w.claims|
    ensures var w', m := SessionDirectory.Step(w, DoRefresh(i, now)), w.claims[i];
            w'.rows == Refreshed(w.rows, m.key, m.node, m.epoch, now) && w'.claims == w.claims
  {
  }

  lemma ReleaseEffect(w: World, i: nat)
    requires i < |w.claims|
    ensures var w', m := SessionDirectory.Step(w, DoRelease(i)), w.claims[i];
            w'.rows == Released(w.rows, m.key, m.node, m.epoch) && w'.claims == w.claims
  {
  }

  /** What a loop's move does to its own connection and the rows. */
  lemma MoveEffect(s: System, c: ConnId, m: Move)
    requires Enabled(s, Control(c, m))
    ensures var conn, l := s.conns[c], Advance(c, Loop(s.conns[c], s.tunnels, s.db, s.rows), m);
            var claims := Claimer(s, Control(c, m)) != [];
            var refreshes := m.Maintain? && m.claimOk && conn.epoch != 0;
            var releases := m.ReleaseRow? && m.dbOk && conn.epoch != 0;
            && l.conn.identity == conn.identity && l.conn.home == conn.home
            && (claims ==> m.Claim? || m.Maintain?)
            && l.conn.epoch == (if claims then NextEpoch(s.rows, conn.identity) else conn.epoch)
            && l.rows == (if claims then Claimed(s.rows, conn.identity, conn.home, m.addr, m.now)
                          else if refreshes then Refreshed(s.rows, conn.identity, conn.home, conn.epoch, m.now)
                          else if releases then Released(s.rows, conn.identity, conn.home, conn.epoch)
                          else s.rows)
  {
    hide Registered, Beaten, Disconnected, Claimed, Released, NextEpoch;
  }

  /** One loop's move is its event, on its own connection and the rows. */
  lemma MoveIsEvent(s: System, c: ConnId, m: Move, w: World, held: Claims)
    requires Enabled(s, Control(c, m)) && w.rows == s.rows
    requires s.conns[c].epoch != 0 ==> ClaimedAs(s.conns[c], w, held, c)
    ensures var ev := DirectoryEvent(s, Control(c, m), held);
            && |ev| <= 1 && (ev != [] ==> Possible(w, ev[0]))
            && var w' := if ev == [] then w else SessionDirectory.Step(w, ev[0]);
               var l := Advance(c, Loop(s.conns[c], s.tunnels, s.db, s.rows), m);
               && w'.rows == l.rows && Grows(w, w') && |w'.claims| == |w.claims| + |Claimer(s, Control(c, m))|
               && (l.conn.epoch != 0 ==> ClaimedAs(l.conn, w', HeldAfter(s, Control(c, m), |w.claims|, held), c))
  {
    hide Advance, SessionDirectory.Step, Claimed, Refreshed, Released, NextEpoch;
    MoveEffect(s, c, m);
    var ev := DirectoryEvent(s, Control(c, m), held);
    if ev != [] {
      match ev[0]
      case DoClaim(k, node, addr, now) => ClaimEffect(w, k, node, addr, now);
      case DoRefresh(i, now) => RefreshEffect(w, i, now);
      case DoRelease(i) => ReleaseEffect(w, i);
    }
  }

  lemma StepIsEvent(s: System, e: Step, w: World, held: Claims)
    requires Enabled(s, e) && Tracks(s, w, held)
    ensures var ev := DirectoryEvent(s, e, held);
            && |ev| <= 1 && (ev != [] ==> Possible(w, ev[0]))
            && var w' := if ev == [] then w else SessionDirectory.Step(w, ev[0]);
               Tracks(Next(s, e), w', HeldAfter(s, e, |w.claims|, held)) && |w'.claims| == |w.claims| + |Claimer(s, e)|
  {
    hide Advance, Pursue, SessionDirectory.Step;
    if e.Control? {
      var s', held' := Next(s, e), HeldAfter(s, e, |w.claims|, held);
      assert s.conns[e.c].epoch != 0 ==> ClaimedAs(s.conns[e.c], w, held, e.c);
      MoveIsEvent(s, e.c, e.m, w, held);
      var ev := DirectoryEvent(s, e, held);
      var w' := if ev == [] then w else SessionDirectory.Step(w, ev[0]);
      forall c | c in s'.conns && s'.conns[c].epoch != 0 ensures ClaimedAs(s'.conns[c], w', held', c) {
        if c != e.c { assert ClaimedAs(s.conns[c], w, held, c); }
      }
    } else {
      OtherSteps(s, e, w, held);
    }
  }

  lemma OtherSteps(s: System, e: Step, w: World, held: Claims)
    requires Enabled(s, e) && Tracks(s, w, held) && !e.Control?
    ensures DirectoryEvent(s, e, held) == [] && Claimer(s, e) == [] && Tracks(Next(s, e), w, held)
  {
    hide Pursue;
  }

  /** The directory events of a run, with `n` claims made before it. */
  function Events(s: System, es: seq<Step>, n: nat, held: Claims): seq<Event>
    requires Broker.Valid(s, es)
    decreases |es|
  {
    if es == [] then []
    else DirectoryEvent(s, es[0], held) +
         Events(Next(s, es[0]), es[1..], n + |Claimer(s, es[0])|, HeldAfter(s, es[0], n, held))
  }

  /** The connections that claimed during a run, in the order of their claims. */
  function Claimers(s: System, es: seq<Step>): seq<ConnId>
    requires Broker.Valid(s, es)
    decreases |es|
  {
    if es == [] then [] else Claimer(s, es[0]) + Claimers(Next(s, es[0]), es[1..])
  }

  /** The claim each connection holds after a run. */
  function HeldBy(s: System, es: seq<Step>, n: nat, held: Claims): Claims
    requires Broker.Valid(s, es)
    decreases |es|
  {
    if es == [] then held
    else HeldBy(Next(s, es[0]), es[1..], n + |Claimer(s, es[0])|, HeldAfter(s, es[0], n, held))
  }

  /** Every run of the broker acts on the ownership rows as the directory run of its
      own events does, each connection holding the claim its own step made. */
  lemma {:induction false} RunTracks(s: System, es: seq<Step>, w: World, held: Claims)
    requires Broker.Valid(s, es) && Tracks(s, w, held)
    ensures SessionDirectory.Valid(w, Events(s, es, |w.claims|, held))
    ensures var w' := SessionDirectory.After(w, Events(s, es, |w.claims|, held));
            && Tracks(Broker.After(s, es), w', HeldBy(s, es, |w.claims|, held))
            && |w'.claims| == |w.claims| + |Claimers(s, es)|
    decreases |es|
  {
    hide Next, Tracks, SessionDirectory.Step, DirectoryEvent, HeldAfter, Claimer;
    if es != [] {
      var ev := DirectoryEvent(s, es[0], held);
      StepIsEvent(s, es[0], w, held);
      var w' := if ev == [] then w else SessionDirectory.Step(w, ev[0]);
      var held' := HeldAfter(s, es[0], |w.claims|, held);
      RunTracks(Next(s, es[0]), es[1..], w', held');
      var rest := Events(Next(s, es[0]), es[1..], |w'.claims|, held');
      if ev == [] { assert ev + rest == rest; } else { assert (ev + rest)[1..] == rest; }
    }
  }

  /** `held` gives each claimer the position of its last claim. */
  ghost predicate LastClaims(held: Claims, claimers: seq<ConnId>) {
    && (forall j :: 0 <= j < |claimers| ==> claimers[j] in held && j <= held[claimers[j]])
    && (forall c :: c in held ==> held[c] < |claimers| && claimers[held[c]] == c)
  }

  lemma LastClaimsStep(held: Claims, before: seq<ConnId>, now: seq<ConnId>)
    requires LastClaims(held, before) && |now| <= 1
    ensures LastClaims(if now == [] then held else held[now[0] := |before|], before + now)
  {
    if now == [] { assert before + now == before; }
  }

  lemma {:induction false} HeldIsLastClaim(s: System, es: seq<Step>, held: Claims, before: seq<ConnId>)
    requires Broker.Valid(s, es) && LastClaims(held, before)
    ensures LastClaims(HeldBy(s, es, |before|, held), before + Claimers(s, es))
    decreases |es|
  {
    hide Next, LastClaims;
    if es == [] {
      assert before + [] == before;
    } else {
      var now := Claimer(s, es[0]);
      LastClaimsStep(held, before, now);
      HeldIsLastClaim(Next(s, es[0]), es[1..], HeldAfter(s, es[0], |before|, held), before + now);
      Regroup(before, now, Claimers(Next(s, es[0]), es[1..]));
    }
  }

  /** The directory run a broker run from the start amounts to. */
  function DirectoryRun(agents: map<Key, Agent>, es: seq<Step>): seq<Event>
    requires Broker.Valid(Initial(agents), es)
  {
    Events(Initial(agents), es, 0, map[])
  }

  function HeldIn(agents: map<Key, Agent>, es: seq<Step>): Claims
    requires Broker.Valid(Initial(agents), es)
  {
    HeldBy(Initial(agents), es, 0, map[])
  }

  lemma RunFromStart(agents: map<Key, Agent>, es: seq<Step>)
    requires Broker.Valid(Initial(agents), es)
    ensures SessionDirectory.Valid(SessionDirectory.EMPTY, DirectoryRun(agents, es))
    ensures var w := SessionDirectory.After(SessionDirectory.EMPTY, DirectoryRun(agents, es));
            && Tracks(Broker.After(Initial(agents), es), w, HeldIn(agents, es))
            && |w.claims| == |Claimers(Initial(agents), es)| && LatestIsLast(w)
            && LastClaims(HeldIn(agents, es), Claimers(Initial(agents), es))
  {
    hide Broker.After, Broker.Valid, SessionDirectory.After, SessionDirectory.Valid, Events, HeldBy, Claimers;
    RunTracks(Initial(agents), es, SessionDirectory.EMPTY, map[]);
    HeldIsLastClaim(Initial(agents), es, map[], []);
    assert [] + Claimers(Initial(agents), es) == Claimers(Initial(agents), es);
    RunKeepsLatestLast(SessionDirectory.EMPTY, DirectoryRun(agents, es));
  }

  /** So in every reachable state of the broker, with the directory run of its own
      events: a connection's last claim carries its identity, home and epoch, and it
      passes the row's condition if and only if that claim is the row's current one,
      or the row was deleted since and its node has reached the same epoch again. */
  lemma OnlyLatestConnectionOwns(agents: map<Key, Agent>, es: seq<Step>, c: ConnId)
    requires Broker.Valid(Initial(agents), es)
    requires c in Broker.After(Initial(agents), es).conns && Broker.After(Initial(agents), es).conns[c].epoch != 0
    ensures SessionDirectory.Valid(SessionDirectory.EMPTY, DirectoryRun(agents, es))
    ensures var s := Broker.After(Initial(agents), es);
            var w := SessionDirectory.After(SessionDirectory.EMPTY, DirectoryRun(agents, es));
            var conn, held := s.conns[c], HeldIn(agents, es);
            && w.rows == s.rows && ClaimedAs(conn, w, held, c)
            && |w.claims| == |Claimers(Initial(agents), es)| && LastClaims(held, Claimers(Initial(agents), es))
            && (Holds(s.rows, conn.identity, conn.home, conn.epoch) <==>
                  (conn.identity in w.latest && w.latest[conn.identity] == held[c]) || Reborn(w, held[c]))
  {
    hide Broker.After, Broker.Valid, SessionDirectory.After, SessionDirectory.Valid, Reborn, DirectoryRun, HeldIn,
         Claimers;
    RunFromStart(agents, es);
    var w := SessionDirectory.After(SessionDirectory.EMPTY, DirectoryRun(agents, es));
    assert ClaimedAs(Broker.After(Initial(agents), es).conns[c], w, HeldIn(agents, es), c);
    OnlyLatestClaimantHolds(DirectoryRun(agents, es), HeldIn(agents, es)[c]);
  }

  /** A loop's maintenance takes it into the lost-ownership teardown exactly when it
      does not pass the row's condition. Its tunnel has then migrated, to a later
      claim of another connection, if and only if its key is still in the rows. */
  lemma LostTunnelHasSuccessorExactly(agents: map<Key, Agent>, es: seq<Step>, c: ConnId, addr: string, now: int)
    requires Broker.Valid(Initial(agents), es) && c in Broker.After(Initial(agents), es).conns
    requires var conn := Broker.After(Initial(agents), es).conns[c]; conn.epoch != 0 && conn.phase.Beating?
    ensures SessionDirectory.Valid(SessionDirectory.EMPTY, DirectoryRun(agents, es))
    ensures var s := Broker.After(Initial(agents), es);
            var w := SessionDirectory.After(SessionDirectory.EMPTY, DirectoryRun(agents, es));
            var conn, held, claimers := s.conns[c], HeldIn(agents, es), Claimers(Initial(agents), es);
            var lost := Next(s, Control(c, Maintain(addr, now, true))).conns[c].phase == Closing(true);
            && c in held && |w.claims| == |claimers|
            && (lost <==> !Holds(s.rows, conn.identity, conn.home, conn.epoch))
            && (lost ==>
                  (conn.identity in s.rows <==>
                     conn.identity in w.latest && held[c] < w.latest[conn.identity] < |claimers| &&
                     claimers[w.latest[conn.identity]] != c))
  {
    hide Broker.After, Broker.Valid, SessionDirectory.After, SessionDirectory.Valid, Reborn, DirectoryRun, HeldIn,
         Claimers;
    RunFromStart(agents, es);
    OnlyLatestConnectionOwns(agents, es, c);
    SessionDirectory.RunKeepsInv(SessionDirectory.EMPTY, DirectoryRun(agents, es));
    var w := SessionDirectory.After(SessionDirectory.EMPTY, DirectoryRun(agents, es));
    assert w.claims[HeldIn(agents, es)[c]].key == Broker.After(Initial(agents), es).conns[c].identity;
  }

  // --------------------------------------------- the late release, in the broker

  lemma {:induction false} RunAppends(s: System, a: seq<Step>, b: seq<Step>)
    requires Broker.Valid(s, a) && Broker.Valid(Broker.After(s, a), b)
    ensures Broker.Valid(s, a + b) && Broker.After(s, a + b) == Broker.After(Broker.After(s, a), b)
    decreases |a|
  {
    hide Next;
    if a == [] {
      assert a + b == b;
    } else {
      assert (a + b)[1..] == a[1..] + b;
      RunAppends(Next(s, a[0]), a[1..], b);
    }
  }

  lemma RunOne(s: System, e: Step)
    requires Enabled(s, e)
    ensures Broker.Valid(s, [e]) && Broker.After(s, [e]) == Next(s, e)
  {
    hide Next;
    assert [e][1..] == [];
  }

  /** A connection coming into service, and one going out up to its row's release. */
  function Joining(c: ConnId, id: Identity, node: NodeId, reg: Registration): seq<Step> {
    [Connect(c, id, node, 0)] +
    ([Control(c, MarkOnline(reg, 0, true))] + ([Control(c, Claim("a", 0, true))] + [Control(c, Publish)]))
  }

  function Going(c: ConnId): seq<Step> {
    [Control(c, Hangup)] + ([Control(c, Deregister)] + [Control(c, ReleaseRow(true))])
  }

  /** The state after joining. */
  function Joined(s: System, c: ConnId, id: Identity, node: NodeId, reg: Registration): System {
    s.(db := Registered(s.db, id.key, reg, 0), rows := Claimed(s.rows, id.key, node, "a", 0),
       tunnels := s.tunnels[Slot(node, id.key) := c],
       conns := s.conns[c := Conn(id.key, node, Scanning, true, NextEpoch(s.rows, id.key))])
  }

  lemma JoiningSteps(s: System, c: ConnId, id: Identity, node: NodeId, reg: Registration)
    requires c !in s.conns && Admits(s.db, id, 0)
    ensures Enabled(s, Connect(c, id, node, 0))
    ensures var s1 := Next(s, Connect(c, id, node, 0));
            && Enabled(s1, Control(c, MarkOnline(reg, 0, true)))
            && var s2 := Next(s1, Control(c, MarkOnline(reg, 0, true)));
               && Enabled(s2, Control(c, Claim("a", 0, true)))
               && var s3 := Next(s2, Control(c, Claim("a", 0, true)));
                  Enabled(s3, Control(c, Publish)) && Next(s3, Control(c, Publish)) == Joined(s, c, id, node, reg)
  {
    hide Registered, Claimed;
    var s1 := Next(s, Connect(c, id, node, 0));
    var s2 := Next(s1, Control(c, MarkOnline(reg, 0, true)));
    var s3 := Next(s2, Control(c, Claim("a", 0, true)));
    assert Next(s3, Control(c, Publish)).conns == Joined(s, c, id, node, reg).conns;
  }

  lemma Joins(s: System, c: ConnId, id: Identity, node: NodeId, reg: Registration)
    requires c !in s.conns && Admits(s.db, id, 0)
    ensures Broker.Valid(s, Joining(c, id, node, reg))
    ensures Broker.After(s, Joining(c, id, node, reg)) == Joined(s, c, id, node, reg)
    ensures Admits(Registered(s.db, id.key, reg, 0), id, 0)
  {
    hide Broker.Valid, Broker.After, Next, Enabled, Joined;
    var e0, e1 := Connect(c, id, node, 0), Control(c, MarkOnline(reg, 0, true));
    var e2, e3 := Control(c, Claim("a", 0, true)), Control(c, Publish);
    JoiningSteps(s, c, id, node, reg);
    var s1 := Next(s, e0);
    var s2 := Next(s1, e1);
    var s3 := Next(s2, e2);
    RunOne(s, e0);
    RunOne(s1, e1);
    RunOne(s2, e2);
    RunOne(s3, e3);
    RunAppends(s2, [e2], [e3]);
    RunAppends(s1, [e1], [e2] + [e3]);
    RunAppends(s, [e0], [e1] + ([e2] + [e3]));
  }

  /** The state after going. */
  function Left(s: System, c: ConnId): System
    requires c in s.conns
  {
    var conn := s.conns[c];
    var slot := Slot(conn.home, conn.identity);
    s.(rows := Released(s.rows, conn.identity, conn.home, conn.epoch), conns := s.conns[c := conn.(phase := Leaving)],
       tunnels := if slot in s.tunnels && s.tunnels[slot] == c then s.tunnels - {slot} else s.tunnels)
  }

  lemma Goes(s: System, c: ConnId)
    requires c in s.conns && s.conns[c].phase.Scanning? && s.conns[c].registered && s.conns[c].epoch != 0
    ensures Broker.Valid(s, Going(c)) && Broker.After(s, Going(c)) == Left(s, c)
  {
    hide Broker.Valid, Broker.After, Released;
    var e0, e1, e2 := Control(c, Hangup), Control(c, Deregister), Control(c, ReleaseRow(true));
    var s1 := Next(s, e0);
    var s2 := Next(s1, e1);
    var s3 := Next(s2, e2);
    assert s3.conns == Left(s, c).conns;
    RunOne(s, e0);
    RunOne(s1, e1);
    RunOne(s2, e2);
    RunAppends(s1, [e1], [e2]);
    RunAppends(s, [e0], [e1] + [e2]);
  }

  function LateRelease(id: Identity, reg: Registration): seq<Step> {
    Joining(0, id, 1, reg) + (Joining(1, id, 2, reg) + (Going(1) + (Joining(2, id, 1, reg) + Going(0))))
  }

  predicate Admissible(agent: Agent, id: Identity) {
    agent.status != Revoked && agent.revokedAt == None && agent.certNotAfter == None &&
    agent.fingerprint == id.fingerprint
  }

  /** A run in which an old connection's release deletes the row of the connection
      that replaced it: the agent joins node 1, moves to node 2, leaves, and joins
      node 1 again before the first connection is torn down there. Its tunnel stays
      registered and in service, but no replica can find it through the directory. */
  lemma LateReleaseHidesLiveTunnel(id: Identity, agent: Agent, reg: Registration)
    requires Admissible(agent, id)
    ensures var s0 := Initial(map[id.key := agent]);
            && Broker.Valid(s0, LateRelease(id, reg))
            && var s := Broker.After(s0, LateRelease(id, reg));
               && s.tunnels == map[Slot(1, id.key) := 2]
               && 2 in s.conns && s.conns[2] == Conn(id.key, 1, Scanning, true, 1)
               && id.key !in s.rows && Live(s.db, id.key)
  {
    hide Broker.Valid, Broker.After, Joining, Going, Registered, Admits;
    var k, s0 := id.key, Initial(map[id.key := agent]);
    AdmitsAtFirst(id, agent);
    Joins(s0, 0, id, 1, reg);
    var s1 := Broker.After(s0, Joining(0, id, 1, reg));
    Joins(s1, 1, id, 2, reg);
    var s2 := Broker.After(s1, Joining(1, id, 2, reg));
    Goes(s2, 1);
    var s3 := Broker.After(s2, Going(1));
    Joins(s3, 2, id, 1, reg);
    var s4 := Broker.After(s3, Joining(2, id, 1, reg));
    Goes(s4, 0);
    RunAppends(s3, Joining(2, id, 1, reg), Going(0));
    RunAppends(s2, Going(1), Joining(2, id, 1, reg) + Going(0));
    RunAppends(s1, Joining(1, id, 2, reg), Going(1) + (Joining(2, id, 1, reg) + Going(0)));
    RunAppends(s0, Joining(0, id, 1, reg), Joining(1, id, 2, reg) + (Going(1) + (Joining(2, id, 1, reg) + Going(0))));
    AdmittedIsLive(s4.db, id);
  }

  lemma AdmittedIsLive(db: Db, id: Identity)
    requires Admits(db, id, 0)
    ensures Live(db, id.key)
  {
  }

  /** The live connection's next heartbeat, maintenance and deregistration. */
  function Dropping(c: ConnId): seq<Step> {
    [Control(c, Heartbeat(1, true))] + ([Control(c, Maintain("a", 1, true))] + [Control(c, Deregister)])
  }

  lemma DropsAtHeartbeat(s: System, c: ConnId, k: Key)
    requires c in s.conns && s.conns[c] == Conn(k, 1, Scanning, true, 1)
    requires k !in s.rows && Live(s.db, k) && s.tunnels == map[Slot(1, k) := c]
    ensures Broker.Valid(s, Dropping(c))
    ensures var s' := Broker.After(s, Dropping(c));
            && s'.tunnels == map[] && s'.rows == s.rows
            && k in s'.db.agents && s'.db.agents[k].status == Online
            && c in s'.conns && s'.conns[c].phase == Gone
  {
    hide Broker.Valid, Broker.After;
    var e0, e1, e2 := Control(c, Heartbeat(1, true)), Control(c, Maintain("a", 1, true)), Control(c, Deregister);
    var s1 := Next(s, e0);
    var s2 := Next(s1, e1);
    RunOne(s, e0);
    RunOne(s1, e1);
    RunOne(s2, e2);
    RunAppends(s1, [e1], [e2]);
    RunAppends(s, [e0], [e1] + [e2]);
  }

  /** What comes of it: at its next heartbeat the live connection takes the deleted
      row for a takeover and drops its tunnel as migrated, though no replica then
      holds one and the agent stays marked online. */
  lemma LateReleaseLosesTheTunnel(id: Identity, agent: Agent, reg: Registration)
    requires Admissible(agent, id)
    ensures var s0, es := Initial(map[id.key := agent]), LateRelease(id, reg) + Dropping(2);
            && Broker.Valid(s0, es)
            && var s := Broker.After(s0, es);
               && s.tunnels == map[] && id.key !in s.rows
               && id.key in s.db.agents && s.db.agents[id.key].status == Online
  {
    hide Broker.Valid, Broker.After, LateRelease, Dropping;
    var s0 := Initial(map[id.key := agent]);
    LateReleaseHidesLiveTunnel(id, agent, reg);
    DropsAtHeartbeat(Broker.After(s0, LateRelease(id, reg)), 2, id.key);
    RunAppends(s0, LateRelease(id, reg), Dropping(2));
  }

  lemma AdmitsAtFirst(id: Identity, agent: Agent)
    requires Admissible(agent, id)
    ensures Admits(Initial(map[id.key := agent]).db, id, 0)
  {
  }
}
