/** The optional write-through cache in front of the session directory. Every
    cache operation is best effort: it may fail, and entries may vanish at any
    time. Each call is one atomic step; clock readings are parameters. */
module RedisDirectory {
  import opened Bytes
  import opened SessionDirectory

  /** The directory rows and the cache map. */
  datatype Store = Store(rows: Rows, cache: Rows)

  /** cachePut: skipped for an empty forward address, and possibly lost. */
  function Put(cache: Rows, k: Key, e: Row, ok: bool): Rows {
    if e.addr == "" || !ok then cache else cache[k := e]
  }

  function Drop(cache: Rows, k: Key, ok: bool): Rows {
    if ok then cache - {k} else cache
  }

  /** Calls of any replica, with the outcome of each cache operation they make.
      `now` is the inner directory's reading of the replica's clock, `later` the
      cache's. */
  datatype Call =
    | Claim(key: Key, node: NodeId, addr: string, now: int, later: int, putOk: bool)
    | Refresh(key: Key, node: NodeId, epoch: nat, now: int, later: int, getOk: bool, putOk: bool, delOk: bool)
    | Release(key: Key, node: NodeId, epoch: nat, dbOk: bool, delOk: bool)
    | Lookup(key: Key, now: int, getOk: bool, putOk: bool)
    | Evict(key: Key)

  function Apply(s: Store, c: Call): Store {
    match c
    case Claim(k, node, addr, now, later, putOk) =>
      var rows := Claimed(s.rows, k, node, addr, now);
      Store(rows, Put(s.cache, k, Row(node, addr, rows[k].epoch, later), putOk))
    case Refresh(k, node, epoch, now, later, getOk, putOk, delOk) =>
      if !Holds(s.rows, k, node, epoch) then s.(cache := Drop(s.cache, k, delOk))
      else
        var rows := Refreshed(s.rows, k, node, epoch, now);
        var entry := if getOk && k in s.cache then s.cache[k].(epoch := epoch, lastSeen := later) else rows[k];
        Store(rows, Put(s.cache, k, entry, putOk))
    case Release(k, node, epoch, dbOk, delOk) =>
      s.(rows := if dbOk then Released(s.rows, k, node, epoch) else s.rows, cache := Drop(s.cache, k, delOk))
    case Lookup(k, _, getOk, putOk) =>
      if (getOk && k in s.cache) || k !in s.rows then s else s.(cache := Put(s.cache, k, s.rows[k], putOk))
    case Evict(k) => s.(cache := s.cache - {k})
  }

  /** What a Lookup call answers: the owner entry and whether it is fresh. */
  function Answer(s: Store, k: Key, now: int, getOk: bool, staleAfter: int): (Option<Row>, bool) {
    var entry := if getOk && k in s.cache then Some(s.cache[k]) else Find(s.rows, k);
    (entry, entry.Some? && Fresh(entry.value.lastSeen, now, staleAfter))
  }

  class RedisSessionDirectory {
    const inner: GormSessionDirectory
    var cache: Rows

    constructor (inner: GormSessionDirectory)
      ensures this.inner == inner && cache == map[]
    {
      this.inner, cache := inner, map[];
    }

    ghost function State(): Store
      reads this, inner
    {
      Store(inner.rows, cache)
    }

    method CachePut(k: Key, e: Row, ok: bool)
      modifies this
      ensures cache == Put(old(cache), k, e, ok)
    {
      if e.addr == "" { return; }
      if ok { cache := cache[k := e]; }
    }

    method CacheDel(k: Key, ok: bool)
      modifies this
      ensures cache == Drop(old(cache), k, ok)
    {
      if ok { cache := cache - {k}; }
    }

    method DoClaim(k: Key, node: NodeId, addr: string, now: int, later: int, putOk: bool) returns (epoch: nat)
      modifies this, inner
      ensures State() == Apply(old(State()), Claim(k, node, addr, now, later, putOk))
      ensures k in inner.rows && epoch == inner.rows[k].epoch
    {
      epoch := inner.Claim(k, node, addr, now);
      CachePut(k, Row(node, addr, epoch, later), putOk);
    }

    method DoRefresh(k: Key, node: NodeId, epoch: nat, now: int, later: int, getOk: bool, putOk: bool, delOk: bool)
      returns (held: bool)
      modifies this, inner
      ensures State() == Apply(old(State()), Refresh(k, node, epoch, now, later, getOk, putOk, delOk))
      ensures held == Holds(old(inner.rows), k, node, epoch)
    {
      held := inner.Refresh(k, node, epoch, now);
      if !held {
        CacheDel(k, delOk);
        return;
      }
      if getOk && k in cache {
        CachePut(k, cache[k].(epoch := epoch, lastSeen := later), putOk);
      } else {
        var entry, _ := inner.Lookup(k, later);
        if entry.Some? { CachePut(k, entry.value, putOk); }
      }
    }

    method DoRelease(k: Key, node: NodeId, epoch: nat, dbOk: bool, delOk: bool)
      modifies this, inner
      ensures State() == Apply(old(State()), Release(k, node, epoch, dbOk, delOk))
    {
      if dbOk { inner.Release(k, node, epoch); }
      CacheDel(k, delOk);
    }

    method DoLookup(k: Key, now: int, getOk: bool, putOk: bool) returns (entry: Option<Row>, live: bool)
      modifies this
      ensures State() == Apply(old(State()), Lookup(k, now, getOk, putOk))
      ensures (entry, live) == Answer(old(State()), k, now, getOk, inner.staleAfter)
    {
      if getOk && k in cache {
        return Some(cache[k]), Fresh(cache[k].lastSeen, now, inner.staleAfter);
      }
      entry, live := inner.Lookup(k, now);
      if entry.Some? { CachePut(k, entry.value, putOk); }
    }
  }

  // ----------------------------------------------------------------- coherence

  /** Every cached entry names the row's owner, and its last-seen is at most
      `skew` ahead of the row's. */
  ghost predicate Coherent(s: Store, skew: int) {
    forall k :: k in s.cache ==>
      k in s.rows && SameOwner(s.cache[k], s.rows[k]) && s.cache[k].lastSeen <= s.rows[k].lastSeen + skew
  }

  predicate SameOwner(a: Row, b: Row) { a.node == b.node && a.addr == b.addr && a.epoch == b.epoch }

  /** The latest reading of each replica's own clock. Clocks of different replicas
      are unrelated: they may differ by any amount. */
  type Clocks = map<NodeId, int>

  /** A replica's clock moves forward, and the two readings of a call are within `skew`. */
  predicate Timely(clocks: Clocks, c: Call, skew: int) {
    c.Claim? || c.Refresh? ==> (c.node in clocks ==> clocks[c.node] <= c.now) && c.now <= c.later <= c.now + skew
  }

  function Tick(clocks: Clocks, c: Call): Clocks {
    if c.Claim? || c.Refresh? then clocks[c.node := c.later] else clocks
  }

  /** No row is ahead of its owner's clock. */
  ghost predicate Clocked(s: Store, clocks: Clocks) {
    forall k :: k in s.rows ==> s.rows[k].node in clocks && s.rows[k].lastSeen <= clocks[s.rows[k].node]
  }

  /** The cache writes coherence depends on: a claim's put and a release's delete. */
  predicate WritesThrough(c: Call) {
    (c.Claim? ==> c.putOk && c.addr != "") && (c.Release? ==> c.delOk)
  }

  lemma CallKeepsCoherence(s: Store, clocks: Clocks, c: Call, skew: int)
    requires 0 <= skew && Coherent(s, skew) && Clocked(s, clocks) && Timely(clocks, c, skew) && WritesThrough(c)
    ensures Coherent(Apply(s, c), skew) && Clocked(Apply(s, c), Tick(clocks, c))
  {
  }

  predicate Valid(clocks: Clocks, cs: seq<Call>, skew: int)
    decreases |cs|
  {
    cs == [] || (Timely(clocks, cs[0], skew) && WritesThrough(cs[0]) && Valid(Tick(clocks, cs[0]), cs[1..], skew))
  }

  function After(s: Store, cs: seq<Call>): Store
    decreases |cs|
  {
    if cs == [] then s else After(Apply(s, cs[0]), cs[1..])
  }

  const EMPTY := Store(map[], map[])

  lemma {:induction false} RunKeepsCoherence(s: Store, clocks: Clocks, cs: seq<Call>, skew: int)
    requires 0 <= skew && Coherent(s, skew) && Clocked(s, clocks) && Valid(clocks, cs, skew)
    ensures Coherent(After(s, cs), skew)
    decreases |cs|
  {
    hide Coherent, Clocked, Apply;
    if cs != [] {
      CallKeepsCoherence(s, clocks, cs[0], skew);
      RunKeepsCoherence(Apply(s, cs[0]), Tick(clocks, cs[0]), cs[1..], skew);
    }
  }

  /** Under arbitrary eviction, failed gets and lost refresh and lookup puts, a
      cached Lookup never names another owner than the directory does, and calls an
      owner fresh that the directory calls stale only within the clock skew of a
      single call, however far the replicas' clocks are apart; with no skew it
      never does. */
  lemma CachedLookupNamesTheOwner(cs: seq<Call>, k: Key, t: int, getOk: bool, staleAfter: int, skew: int)
    requires 0 <= skew && Valid(map[], cs, skew)
    ensures var s := After(EMPTY, cs);
            var (entry, live) := Answer(s, k, t, getOk, staleAfter);
            && (entry.Some? <==> k in s.rows || (getOk && k in s.cache))
            && (entry.Some? ==> k in s.rows && SameOwner(entry.value, s.rows[k]))
            && (live ==> Fresh(s.rows[k].lastSeen, t, staleAfter + skew))
            && (skew == 0 && live ==> Fresh(s.rows[k].lastSeen, t, staleAfter))
  {
    RunKeepsCoherence(EMPTY, map[], cs, skew);
  }

  /** A call none of whose cache puts is lost. */
  predicate PutsLand(c: Call) {
    match c
    case Refresh(_, _, _, _, _, _, putOk, _) => putOk
    case Lookup(_, _, _, putOk) => putOk
    case _ => true
  }

  ghost predicate Mirrors(s: Store) {
    forall k :: k in s.cache ==> k in s.rows && s.cache[k] == s.rows[k] && s.rows[k].addr != ""
  }

  lemma {:induction false} RunKeepsMirror(s: Store, clocks: Clocks, cs: seq<Call>)
    requires Mirrors(s) && Valid(clocks, cs, 0) && forall i :: 0 <= i < |cs| ==> PutsLand(cs[i])
    ensures Mirrors(After(s, cs))
    decreases |cs|
  {
    if cs != [] {
      assert PutsLand(cs[0]);
      CallKeepsMirror(s, clocks, cs[0]);
      RunKeepsMirror(Apply(s, cs[0]), Tick(clocks, cs[0]), cs[1..]);
    }
  }

  lemma CallKeepsMirror(s: Store, clocks: Clocks, c: Call)
    requires Mirrors(s) && Timely(clocks, c, 0) && WritesThrough(c) && PutsLand(c)
    ensures Mirrors(Apply(s, c))
  {
  }

  /** When no put is lost either, a cached Lookup and the directory's own Lookup
      give the same answer, entry and freshness. */
  lemma CachedLookupEqualsInner(cs: seq<Call>, k: Key, t: int, getOk: bool, staleAfter: int)
    requires Valid(map[], cs, 0) && forall i :: 0 <= i < |cs| ==> PutsLand(cs[i])
    ensures var s := After(EMPTY, cs);
            Answer(s, k, t, getOk, staleAfter) == Answer(s, k, t, false, staleAfter)
  {
    RunKeepsMirror(EMPTY, map[], cs);
  }

  // ------------------------------------------------------- where it can fail

  /** A Claim leaves the cache coherent exactly when its put takes effect or the
      agent was not cached. */
  lemma ClaimNeedsItsPut(s: Store, c: Call, skew: int)
    requires 0 <= skew && Coherent(s, skew) && c.Claim? && c.later <= c.now + skew
    ensures Coherent(Apply(s, c), skew) <==> (c.putOk && c.addr != "") || c.key !in s.cache
  {
    var s' := Apply(s, c);
    if !(c.putOk && c.addr != "") && c.key in s.cache {
      assert c.key in s'.cache && s'.cache[c.key].epoch != s'.rows[c.key].epoch;
    } else if c.key in s.cache {
      assert s'.cache[c.key] == Row(c.node, c.addr, s'.rows[c.key].epoch, c.later);
    }
  }

  /** A Release leaves it coherent exactly when it deleted no row, its cache delete
      takes effect, or the agent was not cached. */
  lemma ReleaseNeedsItsDelete(s: Store, c: Call, skew: int)
    requires 0 <= skew && Coherent(s, skew) && c.Release?
    ensures Coherent(Apply(s, c), skew) <==>
            !(c.dbOk && Holds(s.rows, c.key, c.node, c.epoch)) || c.delOk || c.key !in s.cache
  {
    var s' := Apply(s, c);
    if c.dbOk && Holds(s.rows, c.key, c.node, c.epoch) && !c.delOk && c.key in s.cache {
      assert c.key in s'.cache && c.key !in s'.rows;
    }
  }

  /** The lost put at work: after a takeover whose cache write failed, a cached
      Lookup keeps naming the old owner, fresh. */
  lemma LostClaimPutNamesOldOwner(k: Key)
    ensures var cs := [Claim(k, 1, "a", 0, 0, true), Claim(k, 2, "b", 1, 1, false)];
            var s := After(EMPTY, cs);
            && k in s.rows && s.rows[k].node == 2
            && var (entry, live) := Answer(s, k, 1, true, 90); entry.Some? && entry.value.node == 1 && live
  {
    var c1, c2 := Claim(k, 1, "a", 0, 0, true), Claim(k, 2, "b", 1, 1, false);
    var s0 := EMPTY;
    assert [c1, c2][1..] == [c2] && [c2][1..] == [];
    assert After(s0, [c1, c2]) == After(Apply(s0, c1), [c2]) == Apply(Apply(s0, c1), c2);
  }

  /** And skew at work: one tick between the two clock readings of a Claim makes a
      stale owner look alive for that tick. */
  lemma SkewShowsStaleOwnerAsFresh(k: Key)
    ensures var s := Apply(EMPTY, Claim(k, 1, "a", 0, 1, true));
            Answer(s, k, 91, true, 90).1 && !Answer(s, k, 91, false, 90).1
  {
  }

  /** Exactly then: a claim leaves some instant at which its cached entry is fresh and
      its row stale if and only if its second clock reading is past its first. */
  lemma ClaimShowsStaleExactlyBySkew(s: Store, c: Call, staleAfter: int)
    requires c.Claim? && c.putOk && c.addr != ""
    ensures var s' := Apply(s, c);
            (exists t :: Answer(s', c.key, t, true, staleAfter).1 && !Answer(s', c.key, t, false, staleAfter).1) <==>
            c.later > c.now
  {
    if c.later > c.now {
      var t := c.later + staleAfter;
      assert Answer(Apply(s, c), c.key, t, true, staleAfter).1 && !Answer(Apply(s, c), c.key, t, false, staleAfter).1;
    }
  }
}
