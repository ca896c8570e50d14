/** The durable record of which replica owns each agent's tunnel: an epoch
    compare-and-set row per (workspace, agent). */
module SessionDirectory {
  import opened Bytes

  type Id = nat            // a UUID; 0 is the nil UUID
  type NodeId = nat

  datatype Key = Key(workspace: Id, agent: Id)
  datatype Row = Row(node: NodeId, addr: string, epoch: nat, lastSeen: int)
  type Rows = map<Key, Row>

  // ---------------------------------------------------------- specification

  predicate Holds(rows: Rows, k: Key, node: NodeId, epoch: nat) {
    k in rows && rows[k].node == node && rows[k].epoch == epoch
  }

  function NextEpoch(rows: Rows, k: Key): nat {
    if k in rows then rows[k].epoch + 1 else 1
  }

  function Claimed(rows: Rows, k: Key, node: NodeId, addr: string, now: int): Rows {
    rows[k := Row(node, addr, NextEpoch(rows, k), now)]
  }

  function Refreshed(rows: Rows, k: Key, node: NodeId, epoch: nat, now: int): Rows {
    if Holds(rows, k, node, epoch) then rows[k := rows[k].(lastSeen := now)] else rows
  }

  function Released(rows: Rows, k: Key, node: NodeId, epoch: nat): Rows {
    if Holds(rows, k, node, epoch) then rows - {k} else rows
  }

  predicate Fresh(lastSeen: int, now: int, staleAfter: int) { now - lastSeen <= staleAfter }

  function Find(rows: Rows, k: Key): Option<Row> { if k in rows then Some(rows[k]) else None }

  class GormSessionDirectory {
    var rows: Rows
    const staleAfter: int

    constructor (staleAfter: int)
      ensures rows == map[] && this.staleAfter == staleAfter
    {
      this.rows, this.staleAfter := map[], staleAfter;
    }

    /** Upsert with epoch bump, then the read of the epoch, in one transaction. */
    method Claim(k: Key, node: NodeId, addr: string, now: int) returns (epoch: nat)
      modifies this
      ensures rows == Claimed(old(rows), k, node, addr, now)
      ensures epoch == rows[k].epoch && (k in old(rows) ==> epoch > old(rows)[k].epoch)
    {
      if k in rows {
        rows := rows[k := Row(node, addr, rows[k].epoch + 1, now)];
      } else {
        rows := rows[k := Row(node, addr, 1, now)];
      }
      epoch := rows[k].epoch;
    }

    /** Whether the conditional update matched a row; false is ErrOwnershipLost. */
    method Refresh(k: Key, node: NodeId, epoch: nat, now: int) returns (held: bool)
      modifies this
      ensures held == Holds(old(rows), k, node, epoch)
      ensures rows == Refreshed(old(rows), k, node, epoch, now)
    {
      held := k in rows && rows[k].node == node && rows[k].epoch == epoch;
      if held { rows := rows[k := rows[k].(lastSeen := now)]; }
    }

    method Release(k: Key, node: NodeId, epoch: nat)
      modifies this
      ensures rows == Released(old(rows), k, node, epoch)
    {
      if k in rows && rows[k].node == node && rows[k].epoch == epoch { rows := rows - {k}; }
    }

    method Lookup(k: Key, now: int) returns (entry: Option<Row>, live: bool)
      ensures entry == Find(rows, k)
      ensures live == (entry.Some? && Fresh(entry.value.lastSeen, now, staleAfter))
    {
      if k !in rows { return None, false; }
      entry, live := Some(rows[k]), now - rows[k].lastSeen <= staleAfter;
    }

    /** The count query; its boundary agrees with Lookup's freshness. */
    method OnlineCount(workspace: Id, now: int) returns (n: nat)
      ensures n == |set k | k in rows && k.workspace == workspace && Fresh(rows[k].lastSeen, now, staleAfter)|
    {
      var live := set k | k in rows && k.workspace == workspace && rows[k].lastSeen >= now - staleAfter;
      assert live == set k | k in rows && k.workspace == workspace && Fresh(rows[k].lastSeen, now, staleAfter);
      n := |live|;
    }
  }

  // --------------------------------------------------------------- every run

  /** One successful Claim: what its connection holds from then on, and in which
      incarnation of the row. Connections are numbered in claim order. */
  datatype Claimant = Claimant(key: Key, node: NodeId, addr: string, epoch: nat, life: nat)

  /** `lives` counts, per key, how often the row has been deleted; `latest` is the
      last connection to claim the row that exists now. */
  datatype World = World(rows: Rows, claims: seq<Claimant>, lives: map<Key, nat>, latest: map<Key, nat>)

  function Life(w: World, k: Key): nat { if k in w.lives then w.lives[k] else 0 }

  /** Any replica claims for a new connection; any connection that ever claimed
      may refresh or release with what it was given, at any later time. */
  datatype Event =
    | DoClaim(key: Key, node: NodeId, addr: string, now: int)
    | DoRefresh(conn: nat, now: int)
    | DoRelease(conn: nat)

  predicate Possible(w: World, e: Event) {
    match e
    case DoClaim(_, _, _, _) => true
    case DoRefresh(c, _) => c < |w.claims|
    case DoRelease(c) => c < |w.claims|
  }

  function Step(w: World, e: Event): World
    requires Possible(w, e)
  {
    match e
    case DoClaim(k, node, addr, now) =>
      World(Claimed(w.rows, k, node, addr, now),
            w.claims + [Claimant(k, node, addr, NextEpoch(w.rows, k), Life(w, k))],
            w.lives, w.latest[k := |w.claims|])
    case DoRefresh(i, now) =>
      var c := w.claims[i];
      w.(rows := Refreshed(w.rows, c.key, c.node, c.epoch, now))
    case DoRelease(i) =>
      var c := w.claims[i];
      if Holds(w.rows, c.key, c.node, c.epoch) then
        w.(rows := Released(w.rows, c.key, c.node, c.epoch), lives := w.lives[c.key := Life(w, c.key) + 1],
           latest := w.latest - {c.key})
      else w
  }

  predicate Valid(w: World, es: seq<Event>)
    decreases |es|
  {
    es == [] || (Possible(w, es[0]) && Valid(Step(w, es[0]), es[1..]))
  }

  function After(w: World, es: seq<Event>): World
    requires Valid(w, es)
    decreases |es|
  {
    if es == [] then w else After(Step(w, es[0]), es[1..])
  }

  const EMPTY := World(map[], [], map[], map[])

  ghost predicate Inv(w: World) {
    && w.latest.Keys == w.rows.Keys
    // the row belongs to the latest claim of its current life
    && (forall k :: k in w.rows ==> w.latest[k] < |w.claims| && Owns(w, k, w.claims[w.latest[k]]))
    // within one life claims come in order, with increasing epochs, up to the latest
    && (forall i :: 0 <= i < |w.claims| ==> Placed(w, i))
    && (forall i, j :: 0 <= i < j < |w.claims| && SameLife(w.claims[i], w.claims[j]) ==>
          w.claims[i].epoch < w.claims[j].epoch)
  }

  predicate SameLife(a: Claimant, b: Claimant) { a.key == b.key && a.life == b.life }

  ghost predicate Owns(w: World, k: Key, c: Claimant)
    requires k in w.rows
  {
    var row := w.rows[k];
    c.key == k && c.life == Life(w, k) && c.node == row.node && c.addr == row.addr && c.epoch == row.epoch
  }

  ghost predicate Placed(w: World, i: nat)
    requires i < |w.claims|
  {
    var c := w.claims[i];
    c.life <= Life(w, c.key) &&
    (c.life == Life(w, c.key) ==>
       c.key in w.rows && c.key in w.latest && i <= w.latest[c.key] && c.epoch <= w.rows[c.key].epoch)
  }

  lemma ClaimPlaces(w: World, e: Event, i: nat)
    requires Inv(w) && e.DoClaim? && i <= |w.claims|
    ensures Placed(Step(w, e), i)
  {
    if i < |w.claims| { assert Placed(w, i); }
  }

  lemma ClaimOrders(w: World, e: Event, i: nat, j: nat)
    requires Inv(w) && e.DoClaim? && i < j <= |w.claims| && SameLife(Step(w, e).claims[i], Step(w, e).claims[j])
    ensures Step(w, e).claims[i].epoch < Step(w, e).claims[j].epoch
  {
    if j == |w.claims| { assert Placed(w, i); } else { assert SameLife(w.claims[i], w.claims[j]); }
  }

  lemma ClaimKeepsInv(w: World, e: Event)
    requires Inv(w) && e.DoClaim?
    ensures Inv(Step(w, e))
  {
    hide Placed, SameLife;
    var w' := Step(w, e);
    forall k | k in w'.rows ensures w'.latest[k] < |w'.claims| && Owns(w', k, w'.claims[w'.latest[k]]) {
      if k != e.key { assert Owns(w, k, w.claims[w.latest[k]]); }
    }
    forall i | 0 <= i < |w'.claims| ensures Placed(w', i) { ClaimPlaces(w, e, i); }
    forall i, j | 0 <= i < j < |w'.claims| && SameLife(w'.claims[i], w'.claims[j])
      ensures w'.claims[i].epoch < w'.claims[j].epoch
    {
      ClaimOrders(w, e, i, j);
    }
  }

  lemma RefreshKeepsInv(w: World, e: Event)
    requires Inv(w) && e.DoRefresh? && Possible(w, e)
    ensures Inv(Step(w, e))
  {
    var w' := Step(w, e);
    forall k | k in w'.rows ensures w'.latest[k] < |w'.claims| && Owns(w', k, w'.claims[w'.latest[k]]) {
      assert Owns(w, k, w.claims[w.latest[k]]);
    }
    forall i | 0 <= i < |w'.claims| ensures Placed(w', i) { assert Placed(w, i); }
  }

  lemma ReleaseKeepsInv(w: World, e: Event)
    requires Inv(w) && e.DoRelease? && Possible(w, e)
    ensures Inv(Step(w, e))
  {
    var w' := Step(w, e);
    forall k | k in w'.rows
      ensures k in w'.latest && w'.latest[k] < |w'.claims| && Owns(w', k, w'.claims[w'.latest[k]])
    {
      assert Owns(w, k, w.claims[w.latest[k]]);
    }
    forall i | 0 <= i < |w'.claims| ensures Placed(w', i) { assert Placed(w, i); }
  }

  lemma StepKeepsInv(w: World, e: Event)
    requires Inv(w) && Possible(w, e)
    ensures Inv(Step(w, e))
  {
    hide Inv;
    match e
    case DoClaim(_, _, _, _) => ClaimKeepsInv(w, e);
    case DoRefresh(_, _) => RefreshKeepsInv(w, e);
    case DoRelease(_) => ReleaseKeepsInv(w, e);
  }

  lemma {:induction false} RunKeepsInv(w: World, es: seq<Event>)
    requires Inv(w) && Valid(w, es)
    ensures Inv(After(w, es))
    decreases |es|
  {
    hide Inv;
    if es != [] {
      StepKeepsInv(w, es[0]);
      RunKeepsInv(Step(w, es[0]), es[1..]);
    }
  }

  // ---------------------------------------------------------------- theorems

  /** Connection `i` shares node and epoch with the live claim of a later life. */
  ghost predicate Reborn(w: World, i: nat)
    requires i < |w.claims|
  {
    var c := w.claims[i];
    c.key in w.rows && c.key in w.latest && w.latest[c.key] < |w.claims| &&
    c.life < Life(w, c.key) &&
    w.claims[w.latest[c.key]].node == c.node && w.claims[w.latest[c.key]].epoch == c.epoch
  }

  /** In every reachable state, a connection's (node, epoch) passes the row's
      condition exactly when it is the latest claimant, or the row was deleted
      since and the same node has reached the same epoch again. So a superseded
      connection's Refresh reports ownership lost and its Release changes
      nothing, except in that one case. */
  lemma OnlyLatestClaimantHolds(es: seq<Event>, i: nat)
    requires Valid(EMPTY, es) && i < |After(EMPTY, es).claims|
    ensures var w := After(EMPTY, es);
            var c := w.claims[i];
            && (Holds(w.rows, c.key, c.node, c.epoch) <==>
                  (c.key in w.latest && w.latest[c.key] == i) || Reborn(w, i))
            && (Step(w, DoRelease(i)).rows != w.rows <==>
                  (c.key in w.latest && w.latest[c.key] == i) || Reborn(w, i))
  {
    RunKeepsInv(EMPTY, es);
    var w := After(EMPTY, es);
    var c := w.claims[i];
    assert Placed(w, i);
    if c.key in w.rows {
      var last := w.latest[c.key];
      assert Owns(w, c.key, w.claims[last]);
      if c.life == Life(w, c.key) && i < last { assert SameLife(c, w.claims[last]); }
      if Holds(w.rows, c.key, c.node, c.epoch) { assert c.key !in Step(w, DoRelease(i)).rows; }
    }
  }

  /** Within one life of the row a later claim always supersedes an earlier one. */
  lemma SupersededLosesOwnership(es: seq<Event>, i: nat, j: nat)
    requires Valid(EMPTY, es) && i < j < |After(EMPTY, es).claims|
    requires SameLife(After(EMPTY, es).claims[i], After(EMPTY, es).claims[j])
    requires After(EMPTY, es).claims[i].life == Life(After(EMPTY, es), After(EMPTY, es).claims[i].key)
    ensures var w := After(EMPTY, es);
            var c := w.claims[i];
            && c.epoch < w.claims[j].epoch
            && !Holds(w.rows, c.key, c.node, c.epoch)
            && forall now :: Step(w, DoRefresh(i, now)) == w && Step(w, DoRelease(i)) == w
  {
    RunKeepsInv(EMPTY, es);
    var w := After(EMPTY, es);
    assert Placed(w, j) && Placed(w, i);
  }

  /** Claims are only ever added. */
  ghost predicate Grows(w: World, w': World) {
    |w.claims| <= |w'.claims| && forall i :: 0 <= i < |w.claims| ==> w'.claims[i] == w.claims[i]
  }

  /** The current claim of a key is the last one made for it, in any incarnation. */
  ghost predicate LatestIsLast(w: World) {
    forall i :: 0 <= i < |w.claims| && w.claims[i].key in w.latest ==> i <= w.latest[w.claims[i].key]
  }

  lemma {:induction false} RunKeepsLatestLast(w: World, es: seq<Event>)
    requires LatestIsLast(w) && Valid(w, es)
    ensures LatestIsLast(After(w, es))
    decreases |es|
  {
    if es != [] { RunKeepsLatestLast(Step(w, es[0]), es[1..]); }
  }

  /** How often a run claims key `k`. */
  function ClaimsOf(es: seq<Event>, k: Key): nat {
    if es == [] then 0 else (if es[0].DoClaim? && es[0].key == k then 1 else 0) + ClaimsOf(es[1..], k)
  }

  /** While the row is not deleted, each Claim raises its epoch by one and nothing
      else moves it. */
  lemma {:induction false} EpochCountsClaims(w: World, es: seq<Event>, k: Key)
    requires Valid(w, es) && k in w.rows && Life(After(w, es), k) == Life(w, k)
    ensures k in After(w, es).rows && After(w, es).rows[k].epoch == w.rows[k].epoch + ClaimsOf(es, k)
    decreases |es|
  {
    if es != [] {
      LivesGrow(Step(w, es[0]), es[1..], k);
      EpochCountsClaims(Step(w, es[0]), es[1..], k);
    }
  }

  lemma {:induction false} LivesGrow(w: World, es: seq<Event>, k: Key)
    requires Valid(w, es)
    ensures Life(w, k) <= Life(After(w, es), k)
    decreases |es|
  {
    if es != [] { LivesGrow(Step(w, es[0]), es[1..], k); }
  }

  /** A late release can delete the live owner's claim: node 1 claims, node 2 takes
      over and disconnects, node 1 claims again and gets epoch 1 once more; the
      first connection's release now removes the third connection's row. */
  lemma LateReleaseCanDeleteLiveClaim(k: Key)
    ensures var es := [DoClaim(k, 1, "a", 0), DoClaim(k, 2, "b", 1), DoRelease(1), DoClaim(k, 1, "a", 2)];
            && Valid(EMPTY, es)
            && var w := After(EMPTY, es);
               && |w.claims| == 3 && k in w.rows && k in w.latest && w.latest[k] == 2
               && k !in Step(w, DoRelease(0)).rows
  {
    var w1 := Step(EMPTY, DoClaim(k, 1, "a", 0));
    var w2 := Step(w1, DoClaim(k, 2, "b", 1));
    var w3 := Step(w2, DoRelease(1));
    var w4 := Step(w3, DoClaim(k, 1, "a", 2));
    var e1, e2, e3, e4 := DoClaim(k, 1, "a", 0), DoClaim(k, 2, "b", 1), DoRelease(1), DoClaim(k, 1, "a", 2);
    assert [e1, e2, e3, e4][1..] == [e2, e3, e4] && [e2, e3, e4][1..] == [e3, e4];
    assert [e3, e4][1..] == [e4] && [e4][1..] == [];
    assert w2.claims[1] == Claimant(k, 2, "b", 2, 0);
    assert w4.claims[0] == Claimant(k, 1, "a", 1, 0);
    assert After(w4, []) == w4 && After(w3, [e4]) == w4 && After(w2, [e3, e4]) == w4;
    assert After(w1, [e2, e3, e4]) == w4;
  }
}
