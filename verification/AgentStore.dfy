/** The relay's persistent view of agents: status rows changed by conditional
    updates, each transition that matters appended to the audit log. */
module AgentStore {
  import opened Bytes
  import opened SessionDirectory

  datatype Status = Enrolled | Online | Offline | Revoked

  datatype Agent = Agent(status: Status, fingerprint: string, certNotAfter: Option<int>, lastSeen: Option<int>,
                         revokedAt: Option<int>, version: string, platform: string)

  /** A destination an agent says it can reach. */
  datatype Reach = Reach(pattern: string, kind: string)

  /** What an agent reports when it registers. */
  datatype Registration = Registration(version: string, platform: string, reachable: seq<Reach>)

  datatype Action = AgentOnline | AgentOffline | AgentRevoke | BrokerOpen
  datatype Audit = Audit(action: Action, key: Key, actor: string)

  datatype Db = Db(agents: map<Key, Agent>, reach: map<Key, seq<Reach>>, audit: seq<Audit>)

  datatype Identity = Identity(key: Key, fingerprint: string)

  predicate Live(db: Db, k: Key) { k in db.agents && db.agents[k].status != Revoked }

  /** Who may connect: a live, unrevoked agent presenting its own unexpired certificate. */
  predicate Admits(db: Db, id: Identity, now: int) {
    Live(db, id.key) &&
    var agent := db.agents[id.key];
    agent.revokedAt == None && agent.fingerprint == id.fingerprint &&
    (agent.certNotAfter.Some? ==> now <= agent.certNotAfter.value)
  }

  // ------------------------------------------------- one transaction each

  /** The advertised destinations replace whatever was there. */
  function Registered(db: Db, k: Key, reg: Registration, now: int): Db {
    if !Live(db, k) then db
    else
      var row :=
        db.agents[k].(status := Online, lastSeen := Some(now), version := reg.version, platform := reg.platform);
      Db(db.agents[k := row], db.reach[k := reg.reachable], db.audit + [Audit(AgentOnline, k, "agent")])
  }

  /** A destination reported without a kind gets the one its pattern suggests. */
  function Classified(specs: seq<Reach>, classify: string -> string): seq<Reach> {
    seq(|specs|, i requires 0 <= i < |specs| =>
      if specs[i].kind == "" then specs[i].(kind := classify(specs[i].pattern)) else specs[i])
  }

  function Beaten(db: Db, k: Key, now: int): Db {
    if !Live(db, k) then db else db.(agents := db.agents[k := db.agents[k].(status := Online, lastSeen := Some(now))])
  }

  function Disconnected(db: Db, k: Key): Db {
    Db(if Live(db, k) then db.agents[k := db.agents[k].(status := Offline)] else db.agents, db.reach,
       db.audit + [Audit(AgentOffline, k, "agent")])
  }

  function Opened(db: Db, k: Key, actor: string): Db {
    db.(audit := db.audit + [Audit(BrokerOpen, k, if actor == "" then "pam-gateway" else actor)])
  }

  function RevokedBy(db: Db, k: Key, actor: string, now: int): Db {
    if !Live(db, k) then db
    else Db(db.agents[k := db.agents[k].(status := Revoked, revokedAt := Some(now))], db.reach,
            db.audit + [Audit(AgentRevoke, k, actor)])
  }

  datatype RevokeResult = RevokeOk | RevokeInvalid | RevokeNotFound

  class GormStore {
    var agents: map<Key, Agent>
    var reach: map<Key, seq<Reach>>
    var audit: seq<Audit>

    constructor (agents: map<Key, Agent>)
      ensures Now() == Db(agents, map[], [])
    {
      this.agents, reach, audit := agents, map[], [];
    }

    function Now(): Db
      reads this
    {
      Db(agents, reach, audit)
    }

    /** AuthorizeConnect, against the row and the presented certificate. */
    method AuthorizeConnect(id: Identity, now: int) returns (ok: bool)
      ensures ok == Admits(Now(), id, now)
    {
      ok := false;
      if id.key !in agents { return; }
      var agent := agents[id.key];
      if agent.status == Revoked || agent.revokedAt != None { return; }
      if agent.fingerprint != id.fingerprint { return; }
      if agent.certNotAfter.Some? && now > agent.certNotAfter.value { return; }
      ok := true;
    }

    method OnRegister(k: Key, version: string, platform: string, specs: seq<Reach>, classify: string -> string,
                      now: int)
      returns (ok: bool)
      modifies this
      ensures ok == Live(old(Now()), k)
      ensures Now() == Registered(old(Now()), k, Registration(version, platform, Classified(specs, classify)), now)
    {
      ok := k in agents && agents[k].status != Revoked;
      if !ok { return; }
      var row := agents[k].(status := Online, lastSeen := Some(now), version := version, platform := platform);
      agents := agents[k := row];
      var rows: seq<Reach> := [];
      for i := 0 to |specs|
        invariant rows == Classified(specs, classify)[..i]
      {
        var kind := if specs[i].kind == "" then classify(specs[i].pattern) else specs[i].kind;
        rows := rows + [Reach(specs[i].pattern, kind)];
      }
      assert rows == Classified(specs, classify);
      reach := reach[k := rows];
      audit := audit + [Audit(AgentOnline, k, "agent")];
    }

    /** False is ErrAgentUnavailable. */
    method OnHeartbeat(k: Key, now: int) returns (ok: bool)
      modifies this
      ensures ok == Live(old(Now()), k) && Now() == Beaten(old(Now()), k, now)
    {
      ok := k in agents && agents[k].status != Revoked;
      if ok { agents := agents[k := agents[k].(status := Online, lastSeen := Some(now))]; }
    }

    method OnDisconnect(k: Key)
      modifies this
      ensures Now() == Disconnected(old(Now()), k)
    {
      if k in agents && agents[k].status != Revoked {
        agents := agents[k := agents[k].(status := Offline)];
      }
      audit := audit + [Audit(AgentOffline, k, "agent")];
    }

    method AuthorizeDial(k: Key) returns (ok: bool)
      ensures ok == Live(Now(), k)
    {
      ok := k in agents && agents[k].status != Revoked;
    }

    method AuditBrokerOpen(k: Key, actor: string)
      modifies this
      ensures Now() == Opened(old(Now()), k, actor)
    {
      var who := if actor == "" then "pam-gateway" else actor;
      audit := audit + [Audit(BrokerOpen, k, who)];
    }

    method Revoke(k: Key, actor: string, now: int) returns (r: RevokeResult)
      modifies this
      ensures r == RevokeInvalid <==> k.workspace == 0 || k.agent == 0
      ensures r == RevokeNotFound <==> r != RevokeInvalid && k !in old(agents)
      ensures Now() == if r == RevokeOk then RevokedBy(old(Now()), k, actor, now) else old(Now())
    {
      if k.workspace == 0 || k.agent == 0 { return RevokeInvalid; }
      if k !in agents { return RevokeNotFound; }
      if agents[k].status == Revoked { return RevokeOk; }
      agents := agents[k := agents[k].(status := Revoked, revokedAt := Some(now))];
      audit := audit + [Audit(AgentRevoke, k, actor)];
      r := RevokeOk;
    }
  }

  // ----------------------------------------------------------- every run

  datatype Tx =
    | TxRegister(key: Key, reg: Registration, now: int)
    | TxHeartbeat(key: Key, now: int)
    | TxDisconnect(key: Key)
    | TxBrokerOpen(key: Key, actor: string)
    | TxRevoke(key: Key, actor: string, now: int)

  function Commit(db: Db, tx: Tx): Db {
    match tx
    case TxRegister(k, reg, now) => Registered(db, k, reg, now)
    case TxHeartbeat(k, now) => Beaten(db, k, now)
    case TxDisconnect(k) => Disconnected(db, k)
    case TxBrokerOpen(k, actor) => Opened(db, k, actor)
    case TxRevoke(k, actor, now) => RevokedBy(db, k, actor, now)
  }

  function CommitAll(db: Db, txs: seq<Tx>): Db
    decreases |txs|
  {
    if txs == [] then db else CommitAll(Commit(db, txs[0]), txs[1..])
  }

  function RevokeEvents(audit: seq<Audit>, k: Key): nat {
    if audit == [] then 0
    else RevokeEvents(audit[..|audit| - 1], k) +
         (if audit[|audit| - 1].action == AgentRevoke && audit[|audit| - 1].key == k then 1 else 0)
  }

  lemma AuditSnoc(audit: seq<Audit>, a: Audit, k: Key)
    ensures RevokeEvents(audit + [a], k) ==
            RevokeEvents(audit, k) + (if a.action == AgentRevoke && a.key == k then 1 else 0)
  {
    assert (audit + [a])[..|audit|] == audit;
  }

  function Reachable(db: Db, k: Key): seq<Reach> { if k in db.reach then db.reach[k] else [] }

  predicate IsRevoked(db: Db, k: Key) { k in db.agents && db.agents[k].status == Revoked }

  ghost predicate OneEventPerRevocation(db: Db) {
    forall k :: RevokeEvents(db.audit, k) == if IsRevoked(db, k) then 1 else 0
  }

  lemma CommitKeepsCount(db: Db, tx: Tx)
    requires OneEventPerRevocation(db)
    ensures OneEventPerRevocation(Commit(db, tx))
  {
    hide RevokeEvents;
    var db' := Commit(db, tx);
    if db'.audit != db.audit {
      var a := db'.audit[|db.audit|];
      assert db'.audit == db.audit + [a];
      forall k ensures RevokeEvents(db'.audit, k) == if IsRevoked(db', k) then 1 else 0 {
        AuditSnoc(db.audit, a, k);
        assert RevokeEvents(db.audit, k) == if IsRevoked(db, k) then 1 else 0;
      }
    }
  }

  /** Revocation is permanent: whatever registrations, heartbeats, disconnects,
      dials and further revocations follow, a revoked agent's row and advertised
      destinations never change again and it is never authorized; and over every
      run each revoked agent has exactly one revoke event. */
  lemma {:induction false} RevocationIsPermanent(db: Db, txs: seq<Tx>, k: Key)
    requires OneEventPerRevocation(db)
    ensures var db' := CommitAll(db, txs);
            && OneEventPerRevocation(db')
            && (IsRevoked(db, k) ==> IsRevoked(db', k) && db'.agents[k] == db.agents[k] && !Live(db', k) &&
                                     Reachable(db', k) == Reachable(db, k))
            && (k in db.agents <==> k in db'.agents)
    decreases |txs|
  {
    hide OneEventPerRevocation;
    if txs != [] {
      CommitKeepsCount(db, txs[0]);
      RevocationIsPermanent(Commit(db, txs[0]), txs[1..], k);
    }
  }
}
