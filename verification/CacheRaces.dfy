/** The cached directory with every call split at its database and cache
    operations, so that the operations of different calls land in any order, or
    never. */
module CacheRaces {
  import opened Bytes
  import opened SessionDirectory
  import opened RedisDirectory

  /** A cache entry and the claims it comes from: the one whose node and address it
      names, and the one whose epoch it carries. */
  datatype Stamped = Stamped(entry: Row, owner: nat, stamp: nat)

  /** What a call still has to do. */
  datatype Pending =
    | Storing(key: Key, value: Stamped)              // cachePut next
    | Dropping(key: Key)                             // cacheDel next
    | Folding(key: Key, conn: nat, later: int)       // refreshed: cacheGet next
    | Filling(key: Key)                              // missed: directory read next

  datatype State = State(world: World, cache: map<Key, Stamped>, pending: map<nat, Pending>)

  datatype Move =
    | ClaimRow(op: nat, key: Key, node: NodeId, addr: string, now: int, later: int)
    | RefreshRow(op: nat, conn: nat, now: int, later: int)
    | ReleaseRow(op: nat, conn: nat, dbOk: bool)
    | Miss(op: nat, key: Key)           // a lookup whose get found nothing or failed
    | GetCache(op: nat, getOk: bool)
    | ReadRow(op: nat)
    | Land(op: nat)
    | Lose(op: nat)
    | Expire(key: Key)

  predicate Enabled(s: State, m: Move) {
    match m
    case ClaimRow(op, _, _, _, _, _) => op !in s.pending
    case RefreshRow(op, i, _, _) => op !in s.pending && i < |s.world.claims|
    case ReleaseRow(op, i, _) => op !in s.pending && i < |s.world.claims|
    case Miss(op, _) => op !in s.pending
    case GetCache(op, _) => op in s.pending && s.pending[op].Folding? && s.pending[op].conn < |s.world.claims|
    case ReadRow(op) => op in s.pending && s.pending[op].Filling?
    case Land(op) => op in s.pending && (s.pending[op].Storing? || s.pending[op].Dropping?)
    case Lose(op) => op in s.pending
    case Expire(_) => true
  }

  function Start(s: State, w: World, op: nat, p: Pending): State { State(w, s.cache, s.pending[op := p]) }

  /** Folding the cached entry forward: its node and address stay, the epoch is the
      refresher's. */
  function Folded(s: State, p: Pending): Stamped
    requires p.Folding? && p.key in s.cache && p.conn < |s.world.claims|
  {
    var c := s.cache[p.key];
    Stamped(c.entry.(epoch := s.world.claims[p.conn].epoch, lastSeen := p.later), c.owner, p.conn)
  }

  function Next(s: State, m: Move): State
    requires Enabled(s, m)
  {
    var w := s.world;
    match m
    case ClaimRow(op, k, node, addr, now, later) =>
      Start(s, Step(w, DoClaim(k, node, addr, now)), op,
            Storing(k, Stamped(Row(node, addr, NextEpoch(w.rows, k), later), |w.claims|, |w.claims|)))
    case RefreshRow(op, i, now, later) =>
      var c := w.claims[i];
      Start(s, Step(w, DoRefresh(i, now)), op,
            if Holds(w.rows, c.key, c.node, c.epoch) then Folding(c.key, i, later) else Dropping(c.key))
    case ReleaseRow(op, i, dbOk) =>
      Start(s, if dbOk then Step(w, DoRelease(i)) else w, op, Dropping(w.claims[i].key))
    case Miss(op, k) => Start(s, w, op, Filling(k))
    case GetCache(op, getOk) =>
      var p := s.pending[op];
      Start(s, w, op, if getOk && p.key in s.cache then Storing(p.key, Folded(s, p)) else Filling(p.key))
    case ReadRow(op) =>
      var k := s.pending[op].key;
      if k in w.rows && k in w.latest then Start(s, w, op, Storing(k, Stamped(w.rows[k], w.latest[k], w.latest[k])))
      else s.(pending := s.pending - {op})
    case Land(op) => Landed(s, op)
    case Lose(op) => s.(pending := s.pending - {op})
    case Expire(k) => s.(cache := s.cache - {k})
  }

  function Landed(s: State, op: nat): State
    requires Enabled(s, Land(op))
  {
    var p := s.pending[op];
    State(s.world,
          if p.Dropping? then s.cache - {p.key}
          else if p.value.entry.addr == "" then s.cache
          else s.cache[p.key := p.value],
          s.pending - {op})
  }

  predicate Valid(s: State, ms: seq<Move>)
    decreases |ms|
  {
    ms == [] || (Enabled(s, ms[0]) && Valid(Next(s, ms[0]), ms[1..]))
  }

  function After(s: State, ms: seq<Move>): State
    requires Valid(s, ms)
    decreases |ms|
  {
    if ms == [] then s else After(Next(s, ms[0]), ms[1..])
  }

  const INITIAL := State(SessionDirectory.EMPTY, map[], map[])

  // ------------------------------------------------------------- one landing

  function View(s: State): Store { Store(s.world.rows, map k | k in s.cache :: s.cache[k].entry) }

  /** A put that lands on a coherent cache leaves it coherent if and only if it has
      no address, or the row still has the owner it names and is not further
      behind than the skew. */
  lemma LandingPutKeepsCoherence(s: State, op: nat, skew: int)
    requires Enabled(s, Land(op)) && s.pending[op].Storing? && Coherent(View(s), skew)
    ensures var p := s.pending[op];
            var e, rows := p.value.entry, s.world.rows;
            Coherent(View(Next(s, Land(op))), skew) <==>
            e.addr == "" || (p.key in rows && SameOwner(e, rows[p.key]) && e.lastSeen <= rows[p.key].lastSeen + skew)
  {
    var p, v, v' := s.pending[op], View(s), View(Next(s, Land(op)));
    if p.value.entry.addr == "" {
      assert v' == v;
    } else {
      assert v'.cache == v.cache[p.key := p.value.entry];
      assert p.key in v'.cache;
    }
  }

  // ---------------------------------------------------------------- every run

  ghost predicate Sourced(w: World, k: Key, v: Stamped) {
    v.owner < |w.claims| && v.stamp < |w.claims| &&
    var o, t := w.claims[v.owner], w.claims[v.stamp];
    o.key == k && t.key == k && v.entry.node == o.node && v.entry.addr == o.addr && v.entry.epoch == t.epoch
  }

  ghost predicate PendingSound(w: World, p: Pending) {
    (p.Storing? ==> Sourced(w, p.key, p.value)) &&
    (p.Folding? ==> p.conn < |w.claims| && w.claims[p.conn].key == p.key)
  }

  ghost predicate Sound(s: State) {
    && SessionDirectory.Inv(s.world)
    && (forall k :: k in s.cache ==> Sourced(s.world, k, s.cache[k]))
    && (forall op :: op in s.pending ==> PendingSound(s.world, s.pending[op]))
  }

  lemma WorldStep(w: World, e: Event)
    requires SessionDirectory.Inv(w) && Possible(w, e)
    ensures SessionDirectory.Inv(Step(w, e)) && Grows(w, Step(w, e))
  {
    hide SessionDirectory.Inv;
    SessionDirectory.StepKeepsInv(w, e);
  }

  lemma WorldMoves(s: State, m: Move)
    requires Sound(s) && Enabled(s, m)
    ensures SessionDirectory.Inv(Next(s, m).world) && Grows(s.world, Next(s, m).world)
  {
    hide SessionDirectory.Inv, Step, Sourced;
    match m
    case ClaimRow(_, k, node, addr, now, _) => WorldStep(s.world, DoClaim(k, node, addr, now));
    case RefreshRow(_, i, now, _) => WorldStep(s.world, DoRefresh(i, now));
    case ReleaseRow(_, i, _) => WorldStep(s.world, DoRelease(i));
    case _ =>
  }

  /** The operation a move starts or rewrites is sound. */
  lemma StartedIsSound(s: State, m: Move, op: nat)
    requires Sound(s) && Enabled(s, m) && op in Next(s, m).pending
    requires op !in s.pending || Next(s, m).pending[op] != s.pending[op]
    ensures PendingSound(Next(s, m).world, Next(s, m).pending[op])
  {
    if m.ReadRow? {
      var k := s.pending[op].key;
      assert Owns(s.world, k, s.world.claims[s.world.latest[k]]);
    } else if m.GetCache? {
      assert PendingSound(s.world, s.pending[op]);
    }
  }

  lemma MoveKeepsSound(s: State, m: Move)
    requires Sound(s) && Enabled(s, m)
    ensures Sound(Next(s, m))
  {
    hide SessionDirectory.Inv, Step, Folded;
    var s' := Next(s, m);
    WorldMoves(s, m);
    forall op | op in s'.pending ensures PendingSound(s'.world, s'.pending[op]) {
      if op in s.pending && s'.pending[op] == s.pending[op] {
        assert PendingSound(s.world, s.pending[op]);
      } else {
        StartedIsSound(s, m, op);
      }
    }
    forall k | k in s'.cache ensures Sourced(s'.world, k, s'.cache[k]) {
      if m.Land? { assert PendingSound(s.world, s.pending[m.op]); }
    }
  }

  lemma {:induction false} RunKeepsSound(s: State, ms: seq<Move>)
    requires Sound(s) && Valid(s, ms)
    ensures Sound(After(s, ms))
    decreases |ms|
  {
    hide Sound, Next;
    if ms != [] {
      MoveKeepsSound(s, ms[0]);
      RunKeepsSound(Next(s, ms[0]), ms[1..]);
    }
  }

  // ----------------------------------------------------------------- theorems

  /** Two claims for the same node at the same address. */
  predicate SameEndpoint(a: Claimant, b: Claimant) { a.node == b.node && a.addr == b.addr }

  /** Claim `i` is the row's current one, or one of a deleted incarnation of the row
      that had reached the same epoch. */
  predicate CurrentEpoch(w: World, k: Key, i: nat)
    requires k in w.latest && w.latest[k] < |w.claims| && i < |w.claims|
  {
    var c, latest := w.claims[i], w.claims[w.latest[k]];
    i == w.latest[k] || (c.life < latest.life && c.epoch == latest.epoch)
  }

  /** For every run of such operations, in every order and with any of them lost: a
      cached entry names the directory's owner if and only if there is one, the
      last put that landed for the key took node and address from a claim at its
      endpoint, and took its epoch from the row's current claim (or a claim of a
      deleted incarnation with the same epoch). */
  lemma CacheNamesOwnerExactly(ms: seq<Move>, k: Key)
    requires Valid(INITIAL, ms) && k in After(INITIAL, ms).cache
    ensures var s := After(INITIAL, ms);
            var w, v := s.world, s.cache[k];
            && v.owner < |w.claims| && v.stamp < |w.claims| && (k in w.latest ==> w.latest[k] < |w.claims|)
            && (k in w.rows && SameOwner(v.entry, w.rows[k]) <==>
                  k in w.latest && SameEndpoint(w.claims[v.owner], w.claims[w.latest[k]]) &&
                  CurrentEpoch(w, k, v.stamp))
  {
    hide After;
    RunKeepsSound(INITIAL, ms);
    var s := After(INITIAL, ms);
    var w, v := s.world, s.cache[k];
    assert Sourced(w, k, v) && Placed(w, v.stamp);
    if k in w.rows {
      var c := w.claims[w.latest[k]];
      assert Owns(w, k, c);
      if w.claims[v.stamp].life == c.life && v.stamp != w.latest[k] { assert SameLife(w.claims[v.stamp], c); }
    }
  }

  /** While the row was never deleted, and for a put that was not folded over another
      claim's entry, that is: if and only if the put belongs to the current claim. */
  lemma CacheNamesOwnerOfItsClaim(ms: seq<Move>, k: Key)
    requires Valid(INITIAL, ms) && k in After(INITIAL, ms).cache && Life(After(INITIAL, ms).world, k) == 0
    ensures var s := After(INITIAL, ms);
            var w, v := s.world, s.cache[k];
            && k in w.rows && k in w.latest && w.latest[k] < |w.claims| && v.owner < |w.claims|
            && (SameOwner(v.entry, w.rows[k]) <==>
                  v.stamp == w.latest[k] && SameEndpoint(w.claims[v.owner], w.claims[w.latest[k]]))
            && (v.owner == v.stamp ==> (SameOwner(v.entry, w.rows[k]) <==> v.stamp == w.latest[k]))
  {
    hide After;
    CacheNamesOwnerExactly(ms, k);
    RunKeepsSound(INITIAL, ms);
    var s := After(INITIAL, ms);
    assert Sourced(s.world, k, s.cache[k]) && Placed(s.world, s.cache[k].stamp);
    assert Owns(s.world, k, s.world.claims[s.world.latest[k]]);
  }

  // ---------------------------------------------------------------- freshness

  /** Two readings of a replica's own clock, which moves forward. */
  predicate Reading(clocks: Clocks, node: NodeId, now: int, later: int, skew: int) {
    (node in clocks ==> clocks[node] <= now) && now <= later <= now + skew
  }

  predicate InTime(s: State, clocks: Clocks, m: Move, skew: int)
    requires Enabled(s, m)
  {
    match m
    case ClaimRow(_, _, node, _, now, later) => Reading(clocks, node, now, later, skew)
    case RefreshRow(_, i, now, later) => Reading(clocks, s.world.claims[i].node, now, later, skew)
    case _ => true
  }

  function Ticked(s: State, clocks: Clocks, m: Move): Clocks
    requires Enabled(s, m)
  {
    match m
    case ClaimRow(_, _, node, _, _, later) => clocks[node := later]
    case RefreshRow(_, i, _, later) => clocks[s.world.claims[i].node := later]
    case _ => clocks
  }

  predicate RunsInTime(s: State, clocks: Clocks, ms: seq<Move>, skew: int)
    requires Valid(s, ms)
    decreases |ms|
  {
    ms == [] || (InTime(s, clocks, ms[0], skew) && RunsInTime(Next(s, ms[0]), Ticked(s, clocks, ms[0]), ms[1..], skew))
  }

  /** Time `t`, taken under claim `i` for key `k`: a past reading of that claim's node,
      and no more than the skew ahead of a row that node owns. */
  ghost predicate Dated(w: World, clocks: Clocks, k: Key, i: nat, t: int, skew: int) {
    i < |w.claims| && w.claims[i].node in clocks && t <= clocks[w.claims[i].node] &&
    (k in w.rows && w.rows[k].node == w.claims[i].node ==> t <= w.rows[k].lastSeen + skew)
  }

  ghost predicate RowsDated(w: World, clocks: Clocks) {
    forall k :: k in w.rows ==> w.rows[k].node in clocks && w.rows[k].lastSeen <= clocks[w.rows[k].node]
  }

  ghost predicate PendingDated(w: World, clocks: Clocks, p: Pending, skew: int) {
    (p.Storing? ==> Dated(w, clocks, p.key, p.value.stamp, p.value.entry.lastSeen, skew)) &&
    (p.Folding? ==> Dated(w, clocks, p.key, p.conn, p.later, skew))
  }

  ghost predicate AllDated(s: State, clocks: Clocks, skew: int) {
    && RowsDated(s.world, clocks)
    && (forall k :: k in s.cache ==> Dated(s.world, clocks, k, s.cache[k].stamp, s.cache[k].entry.lastSeen, skew))
    && (forall op :: op in s.pending ==> PendingDated(s.world, clocks, s.pending[op], skew))
  }

  /** A date stays good: rows of a node move only to later readings of its clock. */
  lemma DateKept(s: State, clocks: Clocks, m: Move, k: Key, i: nat, t: int, skew: int)
    requires 0 <= skew && Enabled(s, m) && InTime(s, clocks, m, skew) && RowsDated(s.world, clocks)
    requires Dated(s.world, clocks, k, i, t, skew)
    ensures Dated(Next(s, m).world, Ticked(s, clocks, m), k, i, t, skew)
  {
    hide Folded;
  }

  lemma RowsKeptDated(s: State, clocks: Clocks, m: Move, skew: int)
    requires 0 <= skew && Enabled(s, m) && InTime(s, clocks, m, skew) && RowsDated(s.world, clocks)
    ensures RowsDated(Next(s, m).world, Ticked(s, clocks, m))
  {
    hide Folded;
  }

  /** The operation a move starts or rewrites carries a good date. */
  lemma StartedIsDated(s: State, clocks: Clocks, m: Move, op: nat, skew: int)
    requires 0 <= skew && Sound(s) && AllDated(s, clocks, skew) && Enabled(s, m) && InTime(s, clocks, m, skew)
    requires op in Next(s, m).pending && (op !in s.pending || Next(s, m).pending[op] != s.pending[op])
    ensures PendingDated(Next(s, m).world, Ticked(s, clocks, m), Next(s, m).pending[op], skew)
  {
    if m.ReadRow? {
      var k := s.pending[op].key;
      assert Owns(s.world, k, s.world.claims[s.world.latest[k]]);
    } else if m.GetCache? {
      assert PendingDated(s.world, clocks, s.pending[op], skew);
    }
  }

  lemma MoveKeepsDates(s: State, clocks: Clocks, m: Move, skew: int)
    requires 0 <= skew && Sound(s) && AllDated(s, clocks, skew) && Enabled(s, m) && InTime(s, clocks, m, skew)
    ensures AllDated(Next(s, m), Ticked(s, clocks, m), skew)
  {
    hide Dated, RowsDated, Step, Folded, Sound, InTime, Ticked;
    var s', clocks' := Next(s, m), Ticked(s, clocks, m);
    RowsKeptDated(s, clocks, m, skew);
    forall op | op in s'.pending ensures PendingDated(s'.world, clocks', s'.pending[op], skew) {
      if op in s.pending && s'.pending[op] == s.pending[op] {
        var p := s.pending[op];
        assert PendingDated(s.world, clocks, p, skew);
        if p.Storing? { DateKept(s, clocks, m, p.key, p.value.stamp, p.value.entry.lastSeen, skew); }
        if p.Folding? { DateKept(s, clocks, m, p.key, p.conn, p.later, skew); }
      } else {
        StartedIsDated(s, clocks, m, op, skew);
      }
    }
    forall k | k in s'.cache ensures Dated(s'.world, clocks', k, s'.cache[k].stamp, s'.cache[k].entry.lastSeen, skew) {
      if m.Land? { assert PendingDated(s.world, clocks, s.pending[m.op], skew); }
      DateKept(s, clocks, m, k, s'.cache[k].stamp, s'.cache[k].entry.lastSeen, skew);
    }
  }

  lemma {:induction false} RunKeepsDates(s: State, clocks: Clocks, ms: seq<Move>, skew: int) returns (clocks': Clocks)
    requires 0 <= skew && Sound(s) && AllDated(s, clocks, skew) && Valid(s, ms) && RunsInTime(s, clocks, ms, skew)
    ensures AllDated(After(s, ms), clocks', skew)
    decreases |ms|
  {
    hide Sound, AllDated, Next, InTime, Ticked;
    if ms == [] {
      clocks' := clocks;
    } else {
      MoveKeepsSound(s, ms[0]);
      MoveKeepsDates(s, clocks, ms[0], skew);
      clocks' := RunKeepsDates(Next(s, ms[0]), Ticked(s, clocks, ms[0]), ms[1..], skew);
    }
  }

  /** Freshness, however the operations of calls overlap: an entry stamped by the
      row's current claim, or by any claim of its node, is at most the skew of one
      call ahead of the row, so it looks fresh only while the row is within that
      of being so. */
  lemma CacheIsNoFresherThanRow(ms: seq<Move>, k: Key, skew: int, t: int, staleAfter: int)
    requires 0 <= skew && Valid(INITIAL, ms) && RunsInTime(INITIAL, map[], ms, skew)
    requires k in After(INITIAL, ms).cache && k in After(INITIAL, ms).world.rows
    ensures var s := After(INITIAL, ms);
            var w, v := s.world, s.cache[k];
            && v.stamp < |w.claims| && k in w.latest && w.latest[k] < |w.claims|
            && (v.stamp == w.latest[k] ==> w.claims[v.stamp].node == w.rows[k].node)
            && (w.claims[v.stamp].node == w.rows[k].node ==>
                  && v.entry.lastSeen <= w.rows[k].lastSeen + skew
                  && (Fresh(v.entry.lastSeen, t, staleAfter) ==> Fresh(w.rows[k].lastSeen, t, staleAfter + skew)))
  {
    hide After, Valid, RunsInTime;
    RunKeepsSound(INITIAL, ms);
    var clocks := RunKeepsDates(INITIAL, map[], ms, skew);
    var s := After(INITIAL, ms);
    assert Owns(s.world, k, s.world.claims[s.world.latest[k]]);
    assert Dated(s.world, clocks, k, s.cache[k].stamp, s.cache[k].entry.lastSeen, skew);
  }

  // ---------------------------------------------------------------- witnesses

  lemma {:induction false} RunSplits(s: State, m: Move, ms: seq<Move>)
    requires Enabled(s, m) && Valid(Next(s, m), ms)
    ensures Valid(s, [m] + ms) && After(s, [m] + ms) == After(Next(s, m), ms)
  {
    assert ([m] + ms)[1..] == ms;
  }

  /** Two claims whose puts land in the other order leave the loser cached. */
  lemma CrossedPutsNameOldOwner(k: Key)
    ensures var ms := [ClaimRow(0, k, 1, "a", 0, 0)] +
                      ([ClaimRow(1, k, 2, "b", 0, 0)] + ([Land(1)] + ([Land(0)] + [])));
            && Valid(INITIAL, ms)
            && var s := After(INITIAL, ms);
               k in s.world.rows && s.world.rows[k].node == 2 && k in s.cache && s.cache[k].entry.node == 1
  {
    var s1 := Next(INITIAL, ClaimRow(0, k, 1, "a", 0, 0));
    var s2 := Next(s1, ClaimRow(1, k, 2, "b", 0, 0));
    var s3 := Next(s2, Land(1));
    RunSplits(s3, Land(0), []);
    RunSplits(s2, Land(1), [Land(0)] + []);
    RunSplits(s1, ClaimRow(1, k, 2, "b", 0, 0), [Land(1)] + ([Land(0)] + []));
    RunSplits(INITIAL, ClaimRow(0, k, 1, "a", 0, 0), [ClaimRow(1, k, 2, "b", 0, 0)] + ([Land(1)] + ([Land(0)] + [])));
  }

  /** After a takeover whose put was lost, the new owner's refresh folds the old
      owner's node and address forward under the new epoch. */
  lemma FoldKeepsOldOwner(k: Key)
    ensures var ms := [ClaimRow(0, k, 1, "a", 0, 0)] + ([Land(0)] + ([ClaimRow(1, k, 2, "b", 1, 1)] + AfterTakeover()));
            && Valid(INITIAL, ms)
            && var s := After(INITIAL, ms);
               && k in s.world.rows && s.world.rows[k].node == 2 && s.world.rows[k].epoch == 2
               && k in s.cache && s.cache[k].entry == Row(1, "a", 2, 3)
  {
    var s1 := Next(INITIAL, ClaimRow(0, k, 1, "a", 0, 0));
    var s2 := Next(s1, Land(0));
    var s3 := Next(s2, ClaimRow(1, k, 2, "b", 1, 1));
    RefreshFolds(s3, k);
    RunSplits(s2, ClaimRow(1, k, 2, "b", 1, 1), AfterTakeover());
    RunSplits(s1, Land(0), [ClaimRow(1, k, 2, "b", 1, 1)] + AfterTakeover());
    RunSplits(INITIAL, ClaimRow(0, k, 1, "a", 0, 0), [Land(0)] + ([ClaimRow(1, k, 2, "b", 1, 1)] + AfterTakeover()));
  }

  function AfterTakeover(): seq<Move> {
    [Lose(1)] + ([RefreshRow(2, 1, 2, 3)] + ([GetCache(2, true)] + ([Land(2)] + [])))
  }

  lemma RefreshFolds(s: State, k: Key)
    requires |s.world.claims| == 2 && s.world.claims[1] == Claimant(k, 2, "b", 2, 0)
    requires k in s.world.rows && s.world.rows[k].node == 2 && s.world.rows[k].epoch == 2
    requires k in s.cache && s.cache[k].entry == Row(1, "a", 1, 0) && 1 in s.pending && 2 !in s.pending
    ensures Valid(s, AfterTakeover())
    ensures var e := After(s, AfterTakeover());
            && k in e.world.rows && e.world.rows[k].node == 2 && e.world.rows[k].epoch == 2
            && k in e.cache && e.cache[k].entry == Row(1, "a", 2, 3)
  {
    var s1 := Next(s, Lose(1));
    var s2 := Next(s1, RefreshRow(2, 1, 2, 3));
    var s3 := Next(s2, GetCache(2, true));
    RunSplits(s3, Land(2), []);
    RunSplits(s2, GetCache(2, true), [Land(2)] + []);
    RunSplits(s1, RefreshRow(2, 1, 2, 3), [GetCache(2, true)] + ([Land(2)] + []));
    RunSplits(s, Lose(1), [RefreshRow(2, 1, 2, 3)] + ([GetCache(2, true)] + ([Land(2)] + [])));
  }
}
