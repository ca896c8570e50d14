/** The broker as one state machine: any number of replicas, control loops that
    register, heartbeat and hang up, dials served locally or forwarded one hop,
    and revocations, interleaved store call by store call. */
module Broker {
  import opened Bytes
  import opened SessionDirectory
  import opened AgentStore

  type ConnId = nat
  type DialId = nat

  /** Where a control loop stands. */
  datatype Phase =
    | Scanning              // waiting for the next control message
    | Marked                // OnRegister done, ownership not yet claimed
    | Owned                 // claim attempted, tunnel not yet published
    | Beating               // OnHeartbeat done, directory maintenance next
    | Closing(lost: bool)   // the deferred teardown is about to run
    | Releasing             // deregistered, ownership row next
    | Leaving               // released, offline mark next
    | Gone

  /** One tunnel, ended on its home replica. */
  datatype Conn = Conn(identity: Key, home: NodeId, phase: Phase, registered: bool, epoch: nat)

  /** Where a dial stands; a conn in a stage is the tunnel it goes through. */
  datatype Stage =
    | Looking | Routing | Found(conn: ConnId) | Cleared(conn: ConnId) | Open(conn: ConnId)
    | Audited(conn: ConnId) | Returned(conn: ConnId) | Undelivered(conn: ConnId) | Failed

  datatype Dial = Dial(key: Key, caller: NodeId, at: NodeId, hops: nat, stage: Stage)

  datatype Slot = Slot(node: NodeId, key: Key)

  /** A stream opened, or an audit attempted, for a dial, on a replica. */
  datatype Mark = Mark(dial: DialId, node: NodeId, conn: ConnId)

  datatype System = System(
    db: Db, rows: Rows,
    tunnels: map<Slot, ConnId>, conns: map<ConnId, Conn>, dials: map<DialId, Dial>,
    streams: seq<Mark>, audits: seq<Mark>)

  datatype Step =
    | Connect(c: ConnId, id: Identity, node: NodeId, now: int)
    | Control(c: ConnId, m: Move)
    | Revoke(key: Key, actor: string, now: int)
    | Start(d: DialId, node: NodeId, key: Key)
    | Dialing(d: DialId, p: Progress)

  /** A control loop's next store, directory or table call. `dbOk` and `claimOk` say
      whether the database answered, `claimOk` also whether a directory is wired. */
  datatype Move =
    | MarkOnline(reg: Registration, now: int, dbOk: bool)
    | Claim(addr: string, now: int, claimOk: bool)
    | Publish
    | Heartbeat(now: int, dbOk: bool)
    | Maintain(addr: string, now: int, claimOk: bool)
    | Hangup
    | Deregister
    | ReleaseRow(dbOk: bool)
    | MarkOffline(dbOk: bool)

  /** A dial's next call. A directory answer is arbitrary: it may be stale. */
  datatype Progress =
    | Look(crossReplica: bool)
    | Forward(entry: Option<Row>, live: bool, reached: bool)
    | Authorize(dbOk: bool)
    | OpenStream(ok: bool)
    | AuditOpen(actor: string, ok: bool)
    | Answer(ok: bool)

  predicate CanMove(p: Phase, m: Move) {
    match m
    case MarkOnline(_, _, _) => p.Scanning?
    case Claim(_, _, _) => p.Marked?
    case Publish => p.Owned?
    case Heartbeat(_, _) => p.Scanning?
    case Maintain(_, _, _) => p.Beating?
    case Hangup => p.Scanning?
    case Deregister => p.Closing?
    case ReleaseRow(_) => p.Releasing?
    case MarkOffline(_) => p.Leaving?
  }

  predicate CanProgress(g: Stage, p: Progress) {
    match p
    case Look(_) => g.Looking?
    case Forward(_, _, _) => g.Routing?
    case Authorize(_) => g.Found?
    case OpenStream(_) => g.Cleared?
    case AuditOpen(_, _) => g.Open?
    case Answer(_) => g.Audited?
  }

  predicate Enabled(s: System, e: Step) {
    match e
    case Connect(c, id, _, now) => c !in s.conns && Admits(s.db, id, now)
    case Control(c, m) => c in s.conns && CanMove(s.conns[c].phase, m)
    case Revoke(_, _, _) => true
    case Start(d, _, _) => d !in s.dials
    case Dialing(d, p) => d in s.dials && CanProgress(s.dials[d].stage, p)
  }

  /** What a control loop works on: its connection, the tables and the shared stores. */
  datatype Loop = Loop(conn: Conn, tunnels: map<Slot, ConnId>, db: Db, rows: Rows)

  function At(l: Loop, p: Phase): Loop { l.(conn := l.conn.(phase := p)) }

  /** The Claim both a registration and a claimless heartbeat make. */
  function Claiming(l: Loop, addr: string, now: int, ok: bool, p: Phase): Loop {
    if !ok then At(l, p)
    else l.(rows := Claimed(l.rows, l.conn.identity, l.conn.home, addr, now),
            conn := l.conn.(phase := p, epoch := NextEpoch(l.rows, l.conn.identity)))
  }

  function Advance(c: ConnId, l: Loop, m: Move): Loop
    requires CanMove(l.conn.phase, m)
  {
    var k := l.conn.identity;
    var slot := Slot(l.conn.home, k);
    match m
    case MarkOnline(reg, now, dbOk) =>
      if !dbOk || !Live(l.db, k) then At(l, Closing(false)) else At(l, Marked).(db := Registered(l.db, k, reg, now))
    case Claim(addr, now, ok) => Claiming(l, addr, now, ok, Owned)
    case Publish => l.(conn := l.conn.(phase := Scanning, registered := true), tunnels := l.tunnels[slot := c])
    case Heartbeat(now, dbOk) =>
      if !dbOk then At(l, Beating)
      else if !Live(l.db, k) then At(l, Closing(false))
      else At(l, Beating).(db := Beaten(l.db, k, now))
    case Maintain(addr, now, ok) =>
      if l.conn.epoch == 0 then Claiming(l, addr, now, ok, Scanning)
      else if !ok then At(l, Scanning)
      else if !Holds(l.rows, k, l.conn.home, l.conn.epoch) then At(l, Closing(true))
      else At(l, Scanning).(rows := Refreshed(l.rows, k, l.conn.home, l.conn.epoch, now))
    case Hangup => At(l, Closing(false))
    case Deregister =>
      if !l.conn.registered then At(l, Gone)
      else At(l, if l.conn.phase.lost then Gone else Releasing)
           .(tunnels := if slot in l.tunnels && l.tunnels[slot] == c then l.tunnels - {slot} else l.tunnels)
    case ReleaseRow(dbOk) =>
      At(l, Leaving).(rows := if !dbOk || l.conn.epoch == 0 then l.rows
                              else Released(l.rows, k, l.conn.home, l.conn.epoch))
    case MarkOffline(dbOk) => At(l, Gone).(db := if dbOk then Disconnected(l.db, k) else l.db)
  }

  /** A dial's own step: local lookup first, one forward at most, then the
      authoritative check, the stream and its audit at the replica reached. */
  function Pursue(dial: Dial, tunnels: map<Slot, ConnId>, db: Db, p: Progress): Dial
    requires CanProgress(dial.stage, p)
  {
    match p
    case Look(crossReplica) =>
      var slot := Slot(dial.at, dial.key);
      dial.(stage := if slot in tunnels then Found(tunnels[slot])
                     else if dial.hops == 0 && crossReplica then Routing else Failed)
    case Forward(entry, live, reached) =>
      if entry == None || !live || entry.value.addr == "" || entry.value.node == dial.caller || !reached
      then dial.(stage := Failed)
      else dial.(at := entry.value.node, hops := dial.hops + 1, stage := Looking)
    case Authorize(dbOk) => dial.(stage := if dbOk && Live(db, dial.key) then Cleared(dial.stage.conn) else Failed)
    case OpenStream(ok) => dial.(stage := if ok then Open(dial.stage.conn) else Failed)
    case AuditOpen(_, _) => dial.(stage := Audited(dial.stage.conn))
    case Answer(ok) =>
      dial.(stage := if ok || dial.hops == 0 then Returned(dial.stage.conn) else Undelivered(dial.stage.conn))
  }

  function Next(s: System, e: Step): System
    requires Enabled(s, e)
  {
    match e
    case Connect(c, id, node, _) => s.(conns := s.conns[c := Conn(id.key, node, Scanning, false, 0)])
    case Control(c, m) =>
      var l := Advance(c, Loop(s.conns[c], s.tunnels, s.db, s.rows), m);
      s.(conns := s.conns[c := l.conn], tunnels := l.tunnels, db := l.db, rows := l.rows)
    case Revoke(k, actor, now) =>
      if k.workspace == 0 || k.agent == 0 then s else s.(db := RevokedBy(s.db, k, actor, now))
    case Start(d, node, k) =>
      s.(dials := s.dials[d := Dial(k, node, node, 0, if k.workspace == 0 || k.agent == 0 then Failed else Looking)])
    case Dialing(d, p) =>
      var dial := s.dials[d];
      s.(dials := s.dials[d := Pursue(dial, s.tunnels, s.db, p)],
         streams := s.streams + (if p.OpenStream? && p.ok then [Mark(d, dial.at, dial.stage.conn)] else []),
         audits := s.audits + (if p.AuditOpen? then [Mark(d, dial.at, dial.stage.conn)] else []),
         db := if p.AuditOpen? && p.ok then Opened(s.db, dial.key, p.actor) else s.db)
  }

  predicate Valid(s: System, es: seq<Step>)
    decreases |es|
  {
    es == [] || (Enabled(s, es[0]) && Valid(Next(s, es[0]), es[1..]))
  }

  function After(s: System, es: seq<Step>): System
    requires Valid(s, es)
    decreases |es|
  {
    if es == [] then s else After(Next(s, es[0]), es[1..])
  }

  function Initial(agents: map<Key, Agent>): System {
    System(Db(agents, map[], []), map[], map[], map[], map[], [], [])
  }

  // --------------------------------------------------------------- invariant

  predicate HasConn(g: Stage) { !g.Looking? && !g.Routing? && !g.Failed? }
  predicate HasStream(g: Stage) { g.Open? || g.Audited? || g.Returned? || g.Undelivered? }
  predicate HasAudit(g: Stage) { g.Audited? || g.Returned? || g.Undelivered? }

  /** Tunnels stand under their connection's own identity and home; a connection
      whose teardown has deregistered it is in no table. */
  ghost predicate TablesSound(s: System) {
    forall slot :: slot in s.tunnels ==> SlotSound(s, slot)
  }

  predicate SlotSound(s: System, slot: Slot)
    requires slot in s.tunnels
  {
    var c := s.tunnels[slot];
    c in s.conns && s.conns[c].identity == slot.key && s.conns[c].home == slot.node && s.conns[c].registered &&
    !PastDeregister(s.conns[c].phase)
  }

  ghost predicate DialSound(s: System, d: DialId)
    requires d in s.dials
  {
    var dial := s.dials[d];
    && dial.hops <= 1 && (dial.hops == 0 <==> dial.at == dial.caller)
    && (dial.stage.Routing? ==> dial.hops == 0)
    && (HasConn(dial.stage) ==>
          dial.stage.conn in s.conns && s.conns[dial.stage.conn].identity == dial.key &&
          s.conns[dial.stage.conn].home == dial.at)
    && (HasStream(dial.stage) ==> Mark(d, dial.at, dial.stage.conn) in s.streams)
    && (HasAudit(dial.stage) ==> Mark(d, dial.at, dial.stage.conn) in s.audits)
  }

  /** Each mark is the only one for its dial, and is what that dial's stage says. */
  ghost predicate MarksSound(s: System) {
    && (forall i :: 0 <= i < |s.streams| ==> Explained(s, s.streams[i], true))
    && (forall i :: 0 <= i < |s.audits| ==> Explained(s, s.audits[i], false))
    && (forall i, j :: 0 <= i < j < |s.streams| ==> s.streams[i].dial != s.streams[j].dial)
    && (forall i, j :: 0 <= i < j < |s.audits| ==> s.audits[i].dial != s.audits[j].dial)
  }

  predicate Explained(s: System, m: Mark, stream: bool) {
    m.dial in s.dials &&
    var dial := s.dials[m.dial];
    (if stream then HasStream(dial.stage) else HasAudit(dial.stage)) && m == Mark(m.dial, dial.at, dial.stage.conn)
  }

  ghost predicate Inv(s: System) {
    TablesSound(s) && (forall d :: d in s.dials ==> DialSound(s, d)) && MarksSound(s)
  }

  lemma AdvanceKeepsIdentity(c: ConnId, l: Loop, m: Move)
    requires CanMove(l.conn.phase, m)
    ensures var l' := Advance(c, l, m);
            && l'.conn.identity == l.conn.identity && l'.conn.home == l.conn.home
            && (l.conn.registered ==> l'.conn.registered)
  {
    hide Claimed, Refreshed, Released, Registered, Beaten, Disconnected;
  }

  /** What a control step does to the tables: it may put its own connection in its
      own slot, or take it out; it leaves no connection past deregistering in one. */
  lemma AdvanceOnTables(c: ConnId, l: Loop, m: Move)
    requires CanMove(l.conn.phase, m)
    ensures var l' := Advance(c, l, m);
            var slot := Slot(l.conn.home, l.conn.identity);
            && (forall o :: o != slot ==>
                  (o in l'.tunnels <==> o in l.tunnels) && (o in l.tunnels ==> l'.tunnels[o] == l.tunnels[o]))
            && (slot in l'.tunnels ==>
                  l'.tunnels[slot] == c || (slot in l.tunnels && l'.tunnels[slot] == l.tunnels[slot]))
            && (slot in l'.tunnels && l'.tunnels[slot] == c ==>
                  m.Publish? || (slot in l.tunnels && l.tunnels[slot] == c && (!m.Deregister? || !l.conn.registered)))
            && (m.Publish? ==> l'.conn.registered && l'.conn.phase.Scanning?)
  {
    hide Claimed, Refreshed, Released, Registered, Beaten, Disconnected;
  }

  predicate PastDeregister(p: Phase) { p.Releasing? || p.Leaving? || p.Gone? }

  lemma ControlKeepsTables(s: System, c: ConnId, m: Move)
    requires TablesSound(s) && Enabled(s, Control(c, m))
    ensures TablesSound(Next(s, Control(c, m)))
  {
    hide Advance;
    var l := Loop(s.conns[c], s.tunnels, s.db, s.rows);
    AdvanceKeepsIdentity(c, l, m);
    AdvanceOnTables(c, l, m);
    AdvanceEnds(c, l, m);
    var s' := Next(s, Control(c, m));
    forall o | o in s'.tunnels ensures SlotSound(s', o) {
      assert o in s.tunnels ==> SlotSound(s, o);
    }
  }

  lemma AdvanceEnds(c: ConnId, l: Loop, m: Move)
    requires CanMove(l.conn.phase, m)
    ensures PastDeregister(Advance(c, l, m).conn.phase) ==> m.Deregister? || PastDeregister(l.conn.phase)
    ensures TearingDown(l.conn.phase) ==> TearingDown(Advance(c, l, m).conn.phase)
  {
    hide Claimed, Refreshed, Released, Registered, Beaten, Disconnected;
  }

  lemma DialsUnmoved(s: System, s': System)
    requires Inv(s) && TablesSound(s')
    requires s'.dials == s.dials && s'.streams == s.streams && s'.audits == s.audits && s.conns.Keys <= s'.conns.Keys
    requires forall c :: c in s.conns ==>
               s'.conns[c].identity == s.conns[c].identity && s'.conns[c].home == s.conns[c].home
    ensures Inv(s')
  {
    forall d | d in s'.dials ensures DialSound(s', d) { assert DialSound(s, d); }
    forall i | 0 <= i < |s'.streams| ensures Explained(s', s'.streams[i], true) {
      assert Explained(s, s.streams[i], true);
    }
    forall i | 0 <= i < |s'.audits| ensures Explained(s', s'.audits[i], false) {
      assert Explained(s, s.audits[i], false);
    }
  }

  /** A dial's step moves it soundly. */
  lemma PursueIsSound(s: System, d: DialId, p: Progress)
    requires TablesSound(s) && Enabled(s, Dialing(d, p)) && DialSound(s, d)
    ensures DialSound(Next(s, Dialing(d, p)), d)
  {
  }

  lemma DialingKeepsMarks(s: System, d: DialId, p: Progress)
    requires Inv(s) && Enabled(s, Dialing(d, p))
    ensures MarksSound(Next(s, Dialing(d, p)))
  {
    var s' := Next(s, Dialing(d, p));
    forall i | 0 <= i < |s'.streams| ensures Explained(s', s'.streams[i], true) {
      if i < |s.streams| { assert Explained(s, s.streams[i], true); }
    }
    forall i | 0 <= i < |s'.audits| ensures Explained(s', s'.audits[i], false) {
      if i < |s.audits| { assert Explained(s, s.audits[i], false); }
    }
    forall i, j | 0 <= i < j < |s'.streams| ensures s'.streams[i].dial != s'.streams[j].dial {
      assert Explained(s, s.streams[i], true);
    }
    forall i, j | 0 <= i < j < |s'.audits| ensures s'.audits[i].dial != s'.audits[j].dial {
      assert Explained(s, s.audits[i], false);
    }
  }

  lemma DialingKeepsInv(s: System, d: DialId, p: Progress)
    requires Inv(s) && Enabled(s, Dialing(d, p))
    ensures Inv(Next(s, Dialing(d, p)))
  {
    hide MarksSound, Pursue;
    var s' := Next(s, Dialing(d, p));
    DialingKeepsMarks(s, d, p);
    PursueIsSound(s, d, p);
    forall o | o in s'.dials ensures DialSound(s', o) {
      if o != d { assert DialSound(s, o); }
    }
  }

  lemma StartKeepsInv(s: System, e: Step)
    requires Inv(s) && Enabled(s, e) && e.Start?
    ensures Inv(Next(s, e))
  {
    var s' := Next(s, e);
    forall d | d in s'.dials ensures DialSound(s', d) {
      if d != e.d { assert DialSound(s, d); }
    }
    forall i | 0 <= i < |s'.streams| ensures Explained(s', s'.streams[i], true) {
      assert Explained(s, s.streams[i], true);
    }
    forall i | 0 <= i < |s'.audits| ensures Explained(s', s'.audits[i], false) {
      assert Explained(s, s.audits[i], false);
    }
  }

  lemma StepKeepsInv(s: System, e: Step)
    requires Inv(s) && Enabled(s, e)
    ensures Inv(Next(s, e))
  {
    hide DialSound, MarksSound, Advance;
    match e
    case Dialing(d, p) => DialingKeepsInv(s, d, p);
    case Start(_, _, _) => StartKeepsInv(s, e);
    case Control(c, m) =>
      ControlKeepsTables(s, c, m);
      AdvanceKeepsIdentity(c, Loop(s.conns[c], s.tunnels, s.db, s.rows), m);
      DialsUnmoved(s, Next(s, e));
    case _ => DialsUnmoved(s, Next(s, e));
  }

  lemma {:induction false} RunKeepsInv(s: System, es: seq<Step>)
    requires Inv(s) && Valid(s, es)
    ensures Inv(After(s, es))
    decreases |es|
  {
    hide Inv, Next;
    if es != [] {
      StepKeepsInv(s, es[0]);
      RunKeepsInv(Next(s, es[0]), es[1..]);
    }
  }

  // ---------------------------------------------------------------- theorems

  /** How often a mark for dial `d` was made. */
  function Count(ms: seq<Mark>, d: DialId): nat {
    if ms == [] then 0 else (if ms[0].dial == d then 1 else 0) + Count(ms[1..], d)
  }

  lemma {:induction false} CountUnique(ms: seq<Mark>, d: DialId)
    requires forall i, j :: 0 <= i < j < |ms| ==> ms[i].dial != ms[j].dial
    ensures Count(ms, d) == if exists i :: 0 <= i < |ms| && ms[i].dial == d then 1 else 0
  {
    if ms != [] {
      CountUnique(ms[1..], d);
      var tail := ms[1..];
      assert forall i :: 0 <= i < |tail| ==> tail[i] == ms[i + 1];
      if exists i :: 0 <= i < |ms| && ms[i].dial == d {
        var i :| 0 <= i < |ms| && ms[i].dial == d;
        if i > 0 { assert tail[i - 1].dial == d; }
      }
    }
  }

  /** Dial safety, in every reachable state: a returned connection belongs to the
      requested workspace and agent and ends on the replica that served the dial;
      a dial has opened a stream exactly once or not at all; it has been audited
      exactly as often, at the replica that opened the stream, except in the moment
      between the two; and a request is forwarded at most once, to another replica. */
  lemma DialsAreSafe(agents: map<Key, Agent>, es: seq<Step>, d: DialId)
    requires Valid(Initial(agents), es) && d in After(Initial(agents), es).dials
    ensures var s := After(Initial(agents), es);
            var dial := s.dials[d];
            && (dial.stage.Returned? ==> dial.stage.conn in s.conns && s.conns[dial.stage.conn].identity == dial.key &&
                                         s.conns[dial.stage.conn].home == dial.at)
            && Count(s.streams, d) == (if HasStream(dial.stage) then 1 else 0)
            && Count(s.audits, d) == (if HasAudit(dial.stage) then 1 else 0)
            && (Count(s.audits, d) == Count(s.streams, d) || dial.stage.Open?)
            && (forall i :: 0 <= i < |s.audits| && s.audits[i].dial == d ==>
                  s.audits[i].node == dial.at && s.audits[i] in s.streams)
            && dial.hops <= 1 && (dial.hops == 1 ==> dial.at != dial.caller)
  {
    hide After, Count;
    assert Inv(Initial(agents));
    RunKeepsInv(Initial(agents), es);
    var s := After(Initial(agents), es);
    assert DialSound(s, d);
    CountUnique(s.streams, d);
    CountUnique(s.audits, d);
    var dial := s.dials[d];
    if exists i :: 0 <= i < |s.streams| && s.streams[i].dial == d {
      var i :| 0 <= i < |s.streams| && s.streams[i].dial == d;
      assert Explained(s, s.streams[i], true);
    }
    if exists i :: 0 <= i < |s.audits| && s.audits[i].dial == d {
      var i :| 0 <= i < |s.audits| && s.audits[i].dial == d;
      assert Explained(s, s.audits[i], false);
    }
    forall i | 0 <= i < |s.audits| && s.audits[i].dial == d
      ensures s.audits[i].node == dial.at && s.audits[i] in s.streams
    {
      assert Explained(s, s.audits[i], false);
    }
  }

  /** The store transaction a step commits, if any. */
  function Transaction(s: System, e: Step): seq<Tx>
    requires Enabled(s, e)
  {
    match e
    case Revoke(k, actor, now) => if k.workspace == 0 || k.agent == 0 then [] else [TxRevoke(k, actor, now)]
    case Control(c, MarkOnline(reg, now, true)) => [TxRegister(s.conns[c].identity, reg, now)]
    case Control(c, Heartbeat(now, true)) => [TxHeartbeat(s.conns[c].identity, now)]
    case Control(c, MarkOffline(true)) => [TxDisconnect(s.conns[c].identity)]
    case Dialing(d, AuditOpen(actor, true)) => [TxBrokerOpen(s.dials[d].key, actor)]
    case _ => []
  }

  function Transactions(s: System, es: seq<Step>): seq<Tx>
    requires Valid(s, es)
    decreases |es|
  {
    if es == [] then [] else Transaction(s, es[0]) + Transactions(Next(s, es[0]), es[1..])
  }

  lemma StepCommits(s: System, e: Step)
    requires Enabled(s, e)
    ensures Next(s, e).db == CommitAll(s.db, Transaction(s, e))
  {
    hide Claimed, Refreshed, Released;
  }

  lemma {:induction false} CommitAllSplits(db: Db, a: seq<Tx>, b: seq<Tx>)
    ensures CommitAll(db, a + b) == CommitAll(CommitAll(db, a), b)
    decreases |a|
  {
    hide Commit;
    if a == [] {
      assert a + b == b;
    } else {
      assert (a + b)[1..] == a[1..] + b;
      CommitAllSplits(Commit(db, a[0]), a[1..], b);
    }
  }

  /** Every run of the whole broker acts on the store as a run of transactions. */
  lemma {:induction false} RunCommits(s: System, es: seq<Step>)
    requires Valid(s, es)
    ensures After(s, es).db == CommitAll(s.db, Transactions(s, es))
    decreases |es|
  {
    hide Next, Transaction, Commit;
    if es != [] {
      StepCommits(s, es[0]);
      RunCommits(Next(s, es[0]), es[1..]);
      CommitAllSplits(s.db, Transaction(s, es[0]), Transactions(Next(s, es[0]), es[1..]));
    }
  }

  /** So over every run of the broker a revoked agent's row never changes again, and
      each revoked agent has exactly one revoke event. */
  lemma RevokedRowIsFrozen(s: System, es: seq<Step>, k: Key)
    requires Valid(s, es) && OneEventPerRevocation(s.db)
    ensures OneEventPerRevocation(After(s, es).db)
    ensures IsRevoked(s.db, k) ==> IsRevoked(After(s, es).db, k) && After(s, es).db.agents[k] == s.db.agents[k]
  {
    hide OneEventPerRevocation, CommitAll;
    RunCommits(s, es);
    RevocationIsPermanent(s.db, Transactions(s, es), k);
  }

  lemma StepKeepsRevoked(s: System, e: Step, k: Key)
    requires Enabled(s, e) && IsRevoked(s.db, k)
    ensures IsRevoked(Next(s, e).db, k)
  {
    hide Claimed, Refreshed, Released;
  }

  /** A dial keeps its key, and one for a revoked agent is not cleared anew. */
  lemma StepOnDial(s: System, e: Step, d: DialId)
    requires Enabled(s, e) && d in s.dials
    ensures d in Next(s, e).dials && Next(s, e).dials[d].key == s.dials[d].key
    ensures var g, g' := s.dials[d].stage, Next(s, e).dials[d].stage;
            !Live(s.db, s.dials[d].key) && !g.Cleared? && !HasStream(g) ==> !g'.Cleared? && !HasStream(g')
  {
    hide Advance;
  }

  /** Streams after a revocation: every stream open at the end of the run for an
      agent revoked at its start belongs to a dial cleared before the revocation. */
  lemma {:induction false} RevokedAgentOpensNoNewStream(s: System, es: seq<Step>, k: Key, d: DialId)
    requires Valid(s, es) && IsRevoked(s.db, k)
    requires d in After(s, es).dials && After(s, es).dials[d].key == k && HasStream(After(s, es).dials[d].stage)
    ensures d in s.dials && (s.dials[d].stage.Cleared? || HasStream(s.dials[d].stage))
    decreases |es|
  {
    hide Next;
    if es != [] {
      var s' := Next(s, es[0]);
      StepKeepsRevoked(s, es[0], k);
      RevokedAgentOpensNoNewStream(s', es[1..], k, d);
      KeyKept(s', es[1..], d);
      if d in s.dials {
        StepOnDial(s, es[0], d);
      } else {
        NewDialIsBare(s, es[0], d);
      }
    }
  }

  lemma NewDialIsBare(s: System, e: Step, d: DialId)
    requires Enabled(s, e) && d !in s.dials && d in Next(s, e).dials
    ensures !Next(s, e).dials[d].stage.Cleared? && !HasStream(Next(s, e).dials[d].stage)
  {
    hide Advance;
  }

  lemma {:induction false} KeyKept(s: System, es: seq<Step>, d: DialId)
    requires Valid(s, es) && d in s.dials
    ensures d in After(s, es).dials && After(s, es).dials[d].key == s.dials[d].key
    decreases |es|
  {
    hide Next;
    if es != [] {
      StepOnDial(s, es[0], d);
      KeyKept(Next(s, es[0]), es[1..], d);
    }
  }

  predicate TearingDown(p: Phase) { p.Closing? || PastDeregister(p) }

  /** The next heartbeat that reaches the store tears a revoked agent's tunnel
      down: the loop leaves the scan for good, and once the teardown has
      deregistered it the connection is in no replica's table again. */
  lemma HeartbeatTearsDownRevoked(s: System, c: ConnId, now: int, es: seq<Step>)
    requires Inv(s) && c in s.conns && s.conns[c].phase.Scanning? && IsRevoked(s.db, s.conns[c].identity)
    requires Valid(Next(s, Control(c, Heartbeat(now, true))), es)
    ensures var e := After(Next(s, Control(c, Heartbeat(now, true))), es);
            && c in e.conns && TearingDown(e.conns[c].phase)
            && (!e.conns[c].phase.Closing? ==> forall slot :: slot in e.tunnels ==> e.tunnels[slot] != c)
  {
    var s' := Next(s, Control(c, Heartbeat(now, true)));
    StepKeepsInv(s, Control(c, Heartbeat(now, true)));
    TeardownIsFinal(s', es, c);
    RunKeepsInv(s', es);
  }

  lemma {:induction false} TeardownIsFinal(s: System, es: seq<Step>, c: ConnId)
    requires Valid(s, es) && c in s.conns && TearingDown(s.conns[c].phase)
    ensures c in After(s, es).conns && TearingDown(After(s, es).conns[c].phase)
    decreases |es|
  {
    hide Next;
    if es != [] {
      TeardownStep(s, es[0], c);
      TeardownIsFinal(Next(s, es[0]), es[1..], c);
    }
  }

  lemma TeardownStep(s: System, e: Step, c: ConnId)
    requires Enabled(s, e) && c in s.conns && TearingDown(s.conns[c].phase)
    ensures c in Next(s, e).conns && TearingDown(Next(s, e).conns[c].phase)
  {
    hide Advance, Pursue;
    if e.Control? {
      AdvanceEnds(e.c, Loop(s.conns[e.c], s.tunnels, s.db, s.rows), e.m);
    }
  }

  // ---------------------------------------------------- tables and teardown

  /** Somewhere in the run the connection standing in the slot deregistered itself. */
  predicate OwnerDeregisters(s: System, es: seq<Step>, slot: Slot)
    requires Valid(s, es)
    decreases |es|
  {
    es != [] &&
    ((slot in s.tunnels && es[0] == Control(s.tunnels[slot], Deregister)) ||
     OwnerDeregisters(Next(s, es[0]), es[1..], slot))
  }

  lemma StepOnSlot(s: System, e: Step, slot: Slot)
    requires Enabled(s, e) && slot in s.tunnels && slot !in Next(s, e).tunnels
    ensures e == Control(s.tunnels[slot], Deregister)
  {
    hide Pursue;
  }

  /** Over every run a slot once taken is emptied only by the teardown of the very
      connection in it: the late teardown of one it replaced leaves it alone. */
  lemma {:induction false} SlotEmptiesOnlyByItsOwner(s: System, es: seq<Step>, slot: Slot)
    requires Valid(s, es) && slot in s.tunnels && slot !in After(s, es).tunnels
    ensures OwnerDeregisters(s, es, slot)
    decreases |es|
  {
    hide Next;
    if slot !in Next(s, es[0]).tunnels {
      StepOnSlot(s, es[0], slot);
    } else {
      SlotEmptiesOnlyByItsOwner(Next(s, es[0]), es[1..], slot);
    }
  }

  /** None of the run's steps of loop `c` changes the store or the directory. */
  predicate TouchesNothing(s: System, es: seq<Step>, c: ConnId)
    requires Valid(s, es)
    decreases |es|
  {
    es == [] ||
    var s' := Next(s, es[0]);
    (es[0].Control? && es[0].c == c ==> s'.db == s.db && s'.rows == s.rows) && TouchesNothing(s', es[1..], c)
  }

  predicate Migrated(s: System, c: ConnId) {
    c in s.conns && (s.conns[c].phase == Closing(true) || s.conns[c].phase == Gone)
  }

  lemma MigratedStep(s: System, e: Step, c: ConnId)
    requires Enabled(s, e) && Migrated(s, c)
    ensures Migrated(Next(s, e), c)
    ensures e.Control? && e.c == c ==> Next(s, e).db == s.db && Next(s, e).rows == s.rows
  {
    hide Pursue;
  }

  /** A loop whose heartbeat found its ownership lost drops its tunnel without
      touching shared state, whatever else the run does: it stays in that teardown,
      and no step of it changes the store or the directory. */
  lemma {:induction false} MigratedTunnelTouchesNothing(s: System, es: seq<Step>, c: ConnId)
    requires Valid(s, es) && Migrated(s, c)
    ensures TouchesNothing(s, es, c) && Migrated(After(s, es), c)
    decreases |es|
  {
    hide Next, Migrated;
    if es != [] {
      MigratedStep(s, es[0], c);
      MigratedTunnelTouchesNothing(Next(s, es[0]), es[1..], c);
    }
  }
}
