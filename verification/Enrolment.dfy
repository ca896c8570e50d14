/** Enrolment: one-shot tokens minted by an operator and redeemed for an agent
    row, the redemption a plain read followed, later, by one transaction. */
module Enrolment {
  import opened Bytes
  import SessionDirectory

  const DEFAULT_TTL := 15 * 60
  const MAX_TTL := 60 * 60

  type Id = SessionDirectory.Id
  type Hash = nat

  /** agent is None while the token is pending. */
  datatype Token = Token(workspace: Id, name: string, created: int, expires: int, agent: Option<Id>)
  datatype Certificate = Certificate(fingerprint: string, serial: string, notAfter: int)

  /** What a redemption brings besides the token: the signed certificate and what
      the agent says of itself. */
  datatype Profile = Profile(certificate: Certificate, version: string, platform: string)

  datatype AgentRow = AgentRow(workspace: Id, name: string, profile: Profile)
  datatype Event = TokenMint(workspace: Id, token: Hash) | AgentEnroll(workspace: Id, agent: Id)

  datatype Tables = Tables(tokens: map<Hash, Token>, agents: map<Id, AgentRow>, audit: seq<Event>)

  /** What a redemption keeps between its read and its transaction: the row it
      read, and the instant it captured on entry. */
  datatype Attempt = Attempt(hash: Hash, workspace: Id, name: string, entered: int)

  function Ttl(configured: int, asked: int): int {
    var ttl := if asked > 0 then asked else configured;
    if ttl > MAX_TTL then MAX_TTL else ttl
  }

  function Minted(t: Tables, hash: Hash, workspace: Id, name: string, now: int, ttl: int): Tables {
    t.(tokens := t.tokens[hash := Token(workspace, name, now, now + ttl, None)],
       audit := t.audit + [TokenMint(workspace, hash)])
  }

  predicate Pending(t: Tables, hash: Hash) { hash in t.tokens && t.tokens[hash].agent == None }

  /** The read lets a redemption start up to and including the expiry instant. */
  predicate Admitted(t: Tables, hash: Hash, now: int) { Pending(t, hash) && now <= t.tokens[hash].expires }

  /** The transaction commits: the agent id is new, the token still pending, and
      the instant captured on entry strictly before its expiry. */
  predicate Commits(t: Tables, a: Attempt, agent: Id) {
    agent !in t.agents && Pending(t, a.hash) && a.entered < t.tokens[a.hash].expires
  }

  function Redeemed(t: Tables, a: Attempt, agent: Id, profile: Profile): Tables {
    if !Commits(t, a, agent) then t
    else Tables(t.tokens[a.hash := t.tokens[a.hash].(agent := Some(agent))],
                t.agents[agent := AgentRow(a.workspace, a.name, profile)],
                t.audit + [AgentEnroll(a.workspace, agent)])
  }

  datatype Outcome = Done | Invalid | Refused | DbError | CsrError

  class EnrollmentService {
    var tokens: map<Hash, Token>
    var agents: map<Id, AgentRow>
    var audit: seq<Event>
    const tokenTtl: int

    constructor (configured: int)
      ensures Now() == Tables(map[], map[], []) && tokenTtl == (if configured > 0 then configured else DEFAULT_TTL)
    {
      tokens, agents, audit := map[], map[], [];
      tokenTtl := if configured > 0 then configured else DEFAULT_TTL;
    }

    function Now(): Tables
      reads this
    {
      Tables(tokens, agents, audit)
    }

    /** hash is that of the freshly drawn secret; the hash column is unique. */
    method MintToken(workspace: Id, name: string, asked: int, now: int, hash: Hash) returns (r: Outcome)
      modifies this
      ensures r == if workspace == 0 || name == "" then Invalid else if hash in old(tokens) then DbError else Done
      ensures Now() == if r == Done then Minted(old(Now()), hash, workspace, name, now, Ttl(tokenTtl, asked))
                       else old(Now())
      ensures r == Done ==> tokens[hash].expires <= now + MAX_TTL
    {
      if workspace == 0 || name == "" { return Invalid; }
      var ttl := tokenTtl;
      if asked > 0 { ttl := asked; }
      if ttl > MAX_TTL { ttl := MAX_TTL; }
      if hash in tokens { return DbError; }
      tokens := tokens[hash := Token(workspace, name, now, now + ttl, None)];
      audit := audit + [TokenMint(workspace, hash)];
      r := Done;
    }

    method ReadToken(hash: Hash, now: int) returns (a: Option<Attempt>)
      ensures a.Some? <==> Admitted(Now(), hash, now)
      ensures a.Some? ==> a.value == Attempt(hash, tokens[hash].workspace, tokens[hash].name, now)
    {
      if hash !in tokens { return None; }
      var token := tokens[hash];
      if token.agent != None || now > token.expires { return None; }
      a := Some(Attempt(hash, token.workspace, token.name, now));
    }

    /** The transaction: the agent row goes in first and is rolled back when the
        conditional update of the token matches nothing. */
    method Redeem(a: Attempt, agent: Id, profile: Profile) returns (r: Outcome)
      modifies this
      ensures r == Done <==> Commits(old(Now()), a, agent)
      ensures r == DbError <==> agent in old(agents)
      ensures Now() == Redeemed(old(Now()), a, agent, profile)
    {
      if agent in agents { return DbError; }
      var before := agents;
      agents := agents[agent := AgentRow(a.workspace, a.name, profile)];
      if !(a.hash in tokens && tokens[a.hash].agent == None && tokens[a.hash].expires > a.entered) {
        agents := before;
        return Refused;
      }
      tokens := tokens[a.hash := tokens[a.hash].(agent := Some(agent))];
      audit := audit + [AgentEnroll(a.workspace, agent)];
      r := Done;
    }

    /** A redemption nothing interleaves with. `sign` signs the request's certificate
        for an agent id and a workspace, or fails. */
    method Enroll(hash: Option<Hash>, csrGiven: bool, sign: (Id, Id) -> Option<Certificate>, agent: Id, version: string,
                  platform: string, now: int)
      returns (r: Outcome)
      modifies this
      ensures r == Done <==>
              hash.Some? && csrGiven && agent !in old(agents) && Pending(old(Now()), hash.value) &&
              now < old(tokens)[hash.value].expires && sign(agent, old(tokens)[hash.value].workspace).Some?
      ensures r == Done ==>
              var token := old(tokens)[hash.value];
              var profile := Profile(sign(agent, token.workspace).value, version, platform);
              && tokens == old(tokens)[hash.value := token.(agent := Some(agent))]
              && agents == old(agents)[agent := AgentRow(token.workspace, token.name, profile)]
              && audit == old(audit) + [AgentEnroll(token.workspace, agent)]
      ensures r != Done ==> Now() == old(Now())
    {
      if hash == None || !csrGiven { return Invalid; }
      var a := ReadToken(hash.value, now);
      if a == None { return Refused; }
      var certificate := sign(agent, a.value.workspace);
      if certificate == None { return CsrError; }
      r := Redeem(a.value, agent, Profile(certificate.value, version, platform));
    }
  }

  // ------------------------------------------- redemptions in every order

  datatype Win = Win(hash: Hash, agent: Id, entered: int)

  /** The tables, the redemptions between read and transaction, and (ghost) the successes. */
  datatype World = World(tables: Tables, attempts: map<nat, Attempt>, wins: seq<Win>)

  /** A commit's own instant `at` is in the step and used by nothing. */
  datatype Step =
    | Mint(hash: Hash, workspace: Id, name: string, now: int, configured: int, asked: int)
    | Enter(r: nat, token: Hash, entered: int)
    | Commit(attempt: nat, agent: Id, profile: Profile, at: int)

  predicate Enabled(w: World, s: Step) {
    match s
    case Mint(hash, workspace, name, _, configured, _) =>
      hash !in w.tables.tokens && workspace != 0 && name != "" && configured > 0
    case Enter(r, token, entered) => r !in w.attempts && Admitted(w.tables, token, entered)
    case Commit(r, _, _, at) => r in w.attempts && w.attempts[r].entered <= at
  }

  function Next(w: World, s: Step): World
    requires Enabled(w, s)
  {
    match s
    case Mint(hash, workspace, name, now, configured, asked) =>
      w.(tables := Minted(w.tables, hash, workspace, name, now, Ttl(configured, asked)))
    case Enter(r, token, entered) =>
      var row := w.tables.tokens[token];
      w.(attempts := w.attempts[r := Attempt(token, row.workspace, row.name, entered)])
    case Commit(r, agent, profile, _) =>
      var a := w.attempts[r];
      World(Redeemed(w.tables, a, agent, profile), w.attempts - {r},
            w.wins + if Commits(w.tables, a, agent) then [Win(a.hash, agent, a.entered)] else [])
  }

  predicate Valid(w: World, ss: seq<Step>)
    decreases |ss|
  {
    ss == [] || (Enabled(w, ss[0]) && Valid(Next(w, ss[0]), ss[1..]))
  }

  function After(w: World, ss: seq<Step>): World
    requires Valid(w, ss)
    decreases |ss|
  {
    if ss == [] then w else After(Next(w, ss[0]), ss[1..])
  }

  const EMPTY := World(Tables(map[], map[], []), map[], [])

  function Consumed(t: Tables): set<Hash> { set h | h in t.tokens && t.tokens[h].agent != None }

  function EnrollEvents(audit: seq<Event>): nat {
    if audit == [] then 0
    else EnrollEvents(audit[..|audit| - 1]) + (if audit[|audit| - 1].AgentEnroll? then 1 else 0)
  }

  lemma EventSnoc(audit: seq<Event>, e: Event)
    ensures EnrollEvents(audit + [e]) == EnrollEvents(audit) + (if e.AgentEnroll? then 1 else 0)
  {
    assert (audit + [e])[..|audit|] == audit;
  }

  /** One success per token and per agent, each in step with the rows. */
  ghost predicate WinsSound(w: World) {
    && (forall i :: 0 <= i < |w.wins| ==> WinSound(w.tables, w.wins[i]))
    && (forall i, j :: 0 <= i < j < |w.wins| ==> w.wins[i].hash != w.wins[j].hash && w.wins[i].agent != w.wins[j].agent)
  }

  predicate WinSound(t: Tables, win: Win) {
    win.hash in t.tokens && win.agent in t.agents &&
    var token, agent := t.tokens[win.hash], t.agents[win.agent];
    token.agent == Some(win.agent) && agent.workspace == token.workspace && agent.name == token.name &&
    win.entered < token.expires
  }

  ghost predicate TokensSound(t: Tables) {
    forall h :: h in t.tokens ==> t.tokens[h].created < t.tokens[h].expires <= t.tokens[h].created + MAX_TTL
  }

  ghost predicate AttemptsSound(w: World) {
    forall r :: r in w.attempts ==>
      var a := w.attempts[r];
      a.hash in w.tables.tokens &&
      var token := w.tables.tokens[a.hash];
      a.workspace == token.workspace && a.name == token.name && a.entered <= token.expires
  }

  ghost predicate Counted(w: World) {
    |Consumed(w.tables)| == |w.tables.agents.Keys| == EnrollEvents(w.tables.audit) == |w.wins|
  }

  ghost predicate Inv(w: World) { WinsSound(w) && TokensSound(w.tables) && AttemptsSound(w) && Counted(w) }

  lemma StepKeepsCounts(w: World, s: Step)
    requires Counted(w) && Enabled(w, s)
    ensures Counted(Next(w, s))
  {
    hide EnrollEvents;
    var w' := Next(w, s);
    match s
    case Mint(hash, workspace, _, _, _, _) =>
      EventSnoc(w.tables.audit, TokenMint(workspace, hash));
      assert Consumed(w'.tables) == Consumed(w.tables);
    case Enter(_, _, _) =>
    case Commit(r, agent, _, _) =>
      var a := w.attempts[r];
      if Commits(w.tables, a, agent) {
        EventSnoc(w.tables.audit, AgentEnroll(a.workspace, agent));
        assert Consumed(w'.tables) == Consumed(w.tables) + {a.hash};
        assert w'.tables.agents.Keys == w.tables.agents.Keys + {agent};
      }
  }

  lemma StepKeepsWins(w: World, s: Step)
    requires WinsSound(w) && AttemptsSound(w) && Enabled(w, s)
    ensures WinsSound(Next(w, s))
  {
    var w' := Next(w, s);
    forall i | 0 <= i < |w'.wins| ensures WinSound(w'.tables, w'.wins[i]) {
      if i < |w.wins| { assert WinSound(w.tables, w.wins[i]); }
    }
    forall i, j | 0 <= i < j < |w'.wins|
      ensures w'.wins[i].hash != w'.wins[j].hash && w'.wins[i].agent != w'.wins[j].agent
    {
      assert WinSound(w.tables, w.wins[i]);
    }
  }

  lemma StepKeepsRows(w: World, s: Step)
    requires TokensSound(w.tables) && AttemptsSound(w) && Enabled(w, s)
    ensures TokensSound(Next(w, s).tables) && AttemptsSound(Next(w, s))
  {
  }

  lemma {:induction false} RunKeepsInv(w: World, ss: seq<Step>)
    requires Inv(w) && Valid(w, ss)
    ensures Inv(After(w, ss))
    decreases |ss|
  {
    hide WinsSound, TokensSound, AttemptsSound, Counted, Next;
    if ss != [] {
      StepKeepsCounts(w, ss[0]);
      StepKeepsWins(w, ss[0]);
      StepKeepsRows(w, ss[0]);
      RunKeepsInv(Next(w, ss[0]), ss[1..]);
    }
  }

  /** Conservation, under every interleaving: as many consumed tokens as agents as
      enroll events as successful redemptions; a token and an agent are in one
      success at most, whose captured instant is strictly before the expiry; and
      no token outlives its minting by more than an hour. */
  lemma EnrolmentIsConserved(ss: seq<Step>)
    requires Valid(EMPTY, ss)
    ensures var w := After(EMPTY, ss);
            && |Consumed(w.tables)| == |w.tables.agents.Keys| == EnrollEvents(w.tables.audit) == |w.wins|
            && (forall i, j :: 0 <= i < j < |w.wins| ==>
                  w.wins[i].hash != w.wins[j].hash && w.wins[i].agent != w.wins[j].agent)
            && (forall i :: 0 <= i < |w.wins| ==> WinSound(w.tables, w.wins[i]))
            && (forall h :: h in w.tables.tokens ==> w.tables.tokens[h].expires <= w.tables.tokens[h].created + MAX_TTL)
  {
    assert Consumed(EMPTY.tables) == {};
    RunKeepsInv(EMPTY, ss);
  }

  /** A consumed token keeps its agent through any further steps. */
  lemma {:induction false} ConsumedForGood(w: World, ss: seq<Step>, h: Hash)
    requires Valid(w, ss) && h in w.tables.tokens && w.tables.tokens[h].agent.Some?
    ensures h in After(w, ss).tables.tokens && After(w, ss).tables.tokens[h] == w.tables.tokens[h]
    decreases |ss|
  {
    if ss != [] {
      ConsumedForGood(Next(w, ss[0]), ss[1..], h);
    }
  }

  // ------------------------------------------------------ the expiry re-check

  /** The transaction compares the expiry with the instant captured on entry, so
      for an attempt the read admitted and whose token is still pending, the
      re-check refuses exactly the attempt that entered at the expiry instant. */
  lemma RecheckRefusesOnlyEquality(w: World, s: Step)
    requires Inv(w) && Enabled(w, s) && s.Commit? && s.agent !in w.tables.agents
    requires Pending(w.tables, w.attempts[s.attempt].hash)
    ensures var a := w.attempts[s.attempt];
            |Next(w, s).wins| == |w.wins| + 1 <==> a.entered != w.tables.tokens[a.hash].expires
  {
  }

  /** Hence a token that lapses between the read and the transaction is redeemed:
      here it expires at 900 and the transaction runs at 2000. */
  lemma LapsedTokenStillEnrolls(p: Profile)
    ensures var ss := [Mint(1, 7, "edge", 0, DEFAULT_TTL, 0), Enter(0, 1, 899), Commit(0, 42, p, 2000)];
            && Valid(EMPTY, ss)
            && var tokens := After(EMPTY, ss).tables.tokens;
               1 in tokens && tokens[1].expires < 2000 && tokens[1].agent == Some(42)
  {
    var m, e, c := Mint(1, 7, "edge", 0, DEFAULT_TTL, 0), Enter(0, 1, 899), Commit(0, 42, p, 2000);
    var w1 := Next(EMPTY, m);
    assert w1.tables.tokens[1].expires == 900;
    var w2 := Next(w1, e);
    var w3 := Next(w2, c);
    assert [m, e, c][1..] == [e, c] && [e, c][1..] == [c] && [c][1..] == [];
    assert Valid(w3, []) && After(w3, []) == w3;
    assert Valid(w2, [c]) && After(w2, [c]) == w3;
    assert Valid(w1, [e, c]) && After(w1, [e, c]) == w3;
  }
}
