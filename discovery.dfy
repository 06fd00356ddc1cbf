/**
 * What a breadth-first materialisation of the reachable graph guarantees:
 * the worklist invariant, discovery order, closure under `end`-truthy
 * transitions, and the proofs that relate them to reachability.
 */
module Discovery {
  import opened Wrappers
  import opened Graph

  /** Every State of `r` is the store's answer for its own id. */
  predicate Fetched(store: map<StateId, State>, r: seq<State>) {
    forall k :: 0 <= k < |r| ==> r[k].id in store && store[r[k].id] == r[k]
  }

  /** Every State of `r` carries its transitions. */
  predicate Expanded(r: seq<State>) {
    forall k :: 0 <= k < |r| ==> r[k].transitions.Some?
  }

  /** Every `end`-truthy target of every State of `r` is itself in `r`. */
  predicate Closed(r: seq<State>) {
    forall k :: 0 <= k < |r| ==> EndTargets(r[k]) <= Ids(r)
  }

  /**
   * `r[k]` was appended because of transition `j` of `r[p]`, and that is the
   * first transition in scan order (State by State, transition by transition)
   * whose target was not among the first `k` States.
   */
  predicate FirstDiscovery(r: seq<State>, k: int, p: int, j: int) {
    && 0 <= p < k < |r|
    && EdgeTo(r[p], j, r[k].id)
    && (forall q :: 0 <= q < p ==> EndTargets(r[q]) <= Seen(r, k))
    && 0 <= j && EndTargetsBefore(r[p], j) <= Seen(r, k)
  }

  /** `par[k]` names the (State, transition) pair that discovered `r[k]`, for every State after the root. */
  predicate DiscoveredBy(r: seq<State>, par: seq<(int, int)>) {
    |par| == |r| && forall k :: 1 <= k < |r| ==> FirstDiscovery(r, k, par[k].0, par[k].1)
  }

  /** `r` lists its States in breadth-first discovery order. */
  ghost predicate BfsOrder(r: seq<State>) {
    exists par :: DiscoveredBy(r, par)
  }

  /** `r` is a complete traversal of `store` from `root`. */
  ghost predicate IsTraversal(store: map<StateId, State>, root: StateId, r: seq<State>) {
    && root in store
    && |r| > 0 && r[0] == store[root]
    && Fetched(store, r)
    && Expanded(r)
    && IdsDistinct(r)
    && Closed(r)
    && BfsOrder(r)
  }

  /** The walk reaches a State it cannot expand: a failed fetch or a State without transitions. */
  ghost predicate ReachesBad(store: map<StateId, State>, root: StateId) {
    exists x :: Reachable(store, root, x) && Bad(store, x)
  }

  /**
   * What holds of the worklist `temp` once the first `i` States have been
   * expanded: it starts at the root, holds stored States with distinct ids
   * in discovery order, and every `end`-truthy target of an expanded State
   * is already listed.
   */
  ghost predicate Scanned(store: map<StateId, State>, rootId: StateId, temp: seq<State>, par: seq<(int, int)>, i: int) {
    && rootId in store
    && 0 <= i <= |temp| && |temp| > 0
    && temp[0] == store[rootId]
    && Fetched(store, temp) && IdsDistinct(temp)
    && DiscoveredBy(temp, par)
    && (forall q :: 0 <= q < i ==> temp[q].transitions.Some?)
    && (forall q :: 0 <= q < i ==> EndTargets(temp[q]) <= Ids(temp))
  }
  /**
   * One append of the walk (stateTransitionContext.js:135-136): fetching the
   * unseen target of transition `j` of `temp[i]` keeps the worklist
   * invariant, covers transition `j`, and shrinks the set of ids not yet
   * fetched.
   */
  lemma Extend(store: map<StateId, State>, rootId: StateId, temp: seq<State>, par: seq<(int, int)>, i: int, j: int, x: StateId)
    requires StoreKeyed(store)
    requires Scanned(store, rootId, temp, par, i) && i < |temp|
    requires 0 <= j < |Trans(temp[i])| && EndTargetsBefore(temp[i], j) <= Ids(temp)
    requires EdgeTo(temp[i], j, x)
    requires x in store && x !in Ids(temp)
    ensures Scanned(store, rootId, temp + [store[x]], par + [(i, j)], i)
    ensures EndTargetsBefore((temp + [store[x]])[i], j + 1) <= Ids(temp + [store[x]])
    ensures |store.Keys - Ids(temp + [store[x]])| < |store.Keys - Ids(temp)|
  {
    var y := store[x];
    var temp' := temp + [y];
    IdsAppend(temp, y);
    ExtendFetched(store, temp, x);
    ExtendDiscovered(temp, par, i, j, y);
    ExtendCovered(temp, i, j, y);
    assert forall q :: 0 <= q < i ==> temp'[q] == temp[q];
    var unseen := store.Keys - Ids(temp);
    assert store.Keys - Ids(temp') == unseen - {x};
    assert (unseen - {x}) + {x} == unseen;
  }

  /** Appending the store's State for an unlisted id keeps the States fetched and their ids distinct. */
  lemma ExtendFetched(store: map<StateId, State>, temp: seq<State>, x: StateId)
    requires StoreKeyed(store) && Fetched(store, temp) && IdsDistinct(temp)
    requires x in store && x !in Ids(temp)
    ensures Fetched(store, temp + [store[x]]) && IdsDistinct(temp + [store[x]])
  {
  }

  /** Appending the target of the first uncovered transition keeps the discovery witnesses. */
  lemma ExtendDiscovered(temp: seq<State>, par: seq<(int, int)>, i: int, j: int, y: State)
    requires DiscoveredBy(temp, par) && 0 <= i < |temp|
    requires EdgeTo(temp[i], j, y.id)
    requires forall q :: 0 <= q < i ==> EndTargets(temp[q]) <= Ids(temp)
    requires EndTargetsBefore(temp[i], j) <= Ids(temp)
    ensures DiscoveredBy(temp + [y], par + [(i, j)])
  {
    var temp', par' := temp + [y], par + [(i, j)];
    IdsAppend(temp, y);
    forall k | 1 <= k < |temp'|
      ensures FirstDiscovery(temp', k, par'[k].0, par'[k].1)
    {
      if k < |temp| {
        var (p, m) := par[k];
        assert FirstDiscovery(temp, k, p, m);
        assert Seen(temp', k) == Seen(temp, k);
        assert temp'[p] == temp[p] && temp'[k] == temp[k];
        forall q | 0 <= q < p ensures EndTargets(temp'[q]) <= Seen(temp', k) {
          assert temp'[q] == temp[q];
        }
      } else {
        assert Seen(temp', k) == Ids(temp);
        forall q | 0 <= q < i ensures EndTargets(temp'[q]) <= Seen(temp', k) {
          assert temp'[q] == temp[q];
        }
      }
    }
  }

  /** Appending the target of transition `j` of `temp[i]` covers it, and keeps everything covered before. */
  lemma ExtendCovered(temp: seq<State>, i: int, j: int, y: State)
    requires 0 <= i < |temp| && 0 <= j < |Trans(temp[i])| && Trans(temp[i])[j].state == y.id
    requires forall q :: 0 <= q < i ==> EndTargets(temp[q]) <= Ids(temp)
    requires EndTargetsBefore(temp[i], j) <= Ids(temp)
    ensures forall q :: 0 <= q < i ==> EndTargets((temp + [y])[q]) <= Ids(temp + [y])
    ensures EndTargetsBefore((temp + [y])[i], j + 1) <= Ids(temp + [y])
  {
    IdsAppend(temp, y);
    EndTargetsStep(temp[i], j);
    forall q | 0 <= q < i ensures EndTargets((temp + [y])[q]) <= Ids(temp + [y]) {
      assert (temp + [y])[q] == temp[q];
    }
    assert (temp + [y])[i] == temp[i];
  }

  /** Once every transition of `temp[i]` is covered, the first `i + 1` States are expanded. */
  lemma ExpandedAt(store: map<StateId, State>, rootId: StateId, temp: seq<State>, par: seq<(int, int)>, i: int)
    requires Scanned(store, rootId, temp, par, i) && i < |temp|
    requires temp[i].transitions.Some? && EndTargets(temp[i]) <= Ids(temp)
    ensures Scanned(store, rootId, temp, par, i + 1)
  {
  }

  /**
   * A failed fetch of the unseen target of transition `j` of `temp[i]`
   * (stateTransitionContext.js:135) happens only when a reachable id is
   * missing from the store.
   */
  lemma FailedFetch(store: map<StateId, State>, rootId: StateId, temp: seq<State>, par: seq<(int, int)>, i: int, j: int, x: StateId)
    requires StoreKeyed(store)
    requires Scanned(store, rootId, temp, par, i) && i < |temp|
    requires EdgeTo(temp[i], j, x) && x !in store
    ensures ReachesBad(store, rootId)
  {
    DiscoveredReachable(store, rootId, temp, par, i);
    EdgeInTargets(temp[i], j, x, |Trans(temp[i])|);
    ReachableStep(store, rootId, temp[i].id, x);
  }

  /** Every State of a partial or finished walk is reachable from the root. */
  lemma {:induction false} DiscoveredReachable(store: map<StateId, State>, root: StateId, r: seq<State>, par: seq<(int, int)>, k: int)
    requires |r| > 0 && r[0].id == root
    requires Fetched(store, r) && DiscoveredBy(r, par)
    requires 0 <= k < |r|
    ensures Reachable(store, root, r[k].id)
    decreases k
  {
    if k == 0 {
      ReachableRoot(store, root);
    } else {
      var (p, j) := par[k];
      assert FirstDiscovery(r, k, p, j);
      DiscoveredReachable(store, root, r, par, p);
      EdgeInTargets(r[p], j, r[k].id, |Trans(r[p])|);
      ReachableStep(store, root, r[p].id, r[k].id);
    }
  }

  /** The end of every path from the root lies in a closed result that starts at the root. */
  lemma {:induction false} ReachableListed(store: map<StateId, State>, root: StateId, r: seq<State>, path: seq<StateId>)
    requires |r| > 0 && r[0].id == root
    requires Fetched(store, r) && Closed(r)
    requires IsPath(store, path) && path[0] == root
    ensures path[|path| - 1] in Ids(r)
    decreases |path|
  {
    if |path| == 1 {
      assert r[0].id in Ids(r);
    } else {
      var front := path[..|path| - 1];
      assert IsPath(store, front) by {
        forall k | 0 <= k < |front| - 1 ensures Step(store, front[k], front[k + 1]) {
          assert front[k] == path[k] && front[k + 1] == path[k + 1];
        }
      }
      ReachableListed(store, root, r, front);
      var y := front[|front| - 1];
      var q :| 0 <= q < |r| && r[q].id == y;
      assert Step(store, path[|path| - 2], path[|path| - 1]);
    }
  }

  /** A complete traversal holds exactly the ids reachable from the root. */
  lemma TraversalReaches(store: map<StateId, State>, root: StateId, r: seq<State>)
    requires StoreKeyed(store)
    requires root in store && |r| > 0 && r[0] == store[root]
    requires Fetched(store, r) && Closed(r) && BfsOrder(r)
    ensures forall x :: x in Ids(r) <==> Reachable(store, root, x)
  {
    var par :| DiscoveredBy(r, par);
    forall x | x in Ids(r) ensures Reachable(store, root, x) {
      var k :| 0 <= k < |r| && r[k].id == x;
      DiscoveredReachable(store, root, r, par, k);
    }
    forall x | Reachable(store, root, x) ensures x in Ids(r) {
      var path :| IsPath(store, path) && path[0] == root && path[|path| - 1] == x;
      ReachableListed(store, root, r, path);
    }
  }

  /**
   * The traversal contract determines its result: two sequences that are
   * both complete traversals of `store` from `root` are equal, order included.
   */
  lemma TraversalUnique(store: map<StateId, State>, root: StateId, r1: seq<State>, r2: seq<State>)
    requires IsTraversal(store, root, r1) && IsTraversal(store, root, r2)
    ensures r1 == r2
  {
    var par1 :| DiscoveredBy(r1, par1);
    var par2 :| DiscoveredBy(r2, par2);
    var n := if |r1| < |r2| then |r1| else |r2|;
    AgreeUpTo(store, r1, par1, r2, par2, n);
    if |r1| <= |r2| {
      LengthAgree(r2, par2, r1);
    } else {
      LengthAgree(r1, par1, r2);
    }
    assert forall k :: 0 <= k < |r1| ==> r1[k] == r2[k];
  }

  /** Two traversals from the same root agree on their first `n` States. */
  lemma {:induction false} AgreeUpTo(store: map<StateId, State>, r1: seq<State>, par1: seq<(int, int)>,
                                     r2: seq<State>, par2: seq<(int, int)>, n: int)
    requires 0 < |r1| && 0 < |r2| && r1[0] == r2[0]
    requires Fetched(store, r1) && IdsDistinct(r1) && DiscoveredBy(r1, par1)
    requires Fetched(store, r2) && IdsDistinct(r2) && DiscoveredBy(r2, par2)
    requires 0 <= n <= |r1| && n <= |r2|
    ensures forall k :: 0 <= k < n ==> r1[k] == r2[k]
    decreases n
  {
    if n > 1 {
      AgreeUpTo(store, r1, par1, r2, par2, n - 1);
      SameNext(store, r1, par1, r2, par2, n - 1);
    }
  }

  /** Traversals that agree before position `k` agree at `k`: both take the first unlisted target in scan order. */
  lemma SameNext(store: map<StateId, State>, r1: seq<State>, par1: seq<(int, int)>,
                 r2: seq<State>, par2: seq<(int, int)>, k: int)
    requires Fetched(store, r1) && IdsDistinct(r1) && DiscoveredBy(r1, par1)
    requires Fetched(store, r2) && IdsDistinct(r2) && DiscoveredBy(r2, par2)
    requires 1 <= k < |r1| && k < |r2|
    requires forall q :: 0 <= q < k ==> r1[q] == r2[q]
    ensures r1[k] == r2[k]
  {
    var (p1, j1) := par1[k];
    var (p2, j2) := par2[k];
    assert FirstDiscovery(r1, k, p1, j1);
    assert FirstDiscovery(r2, k, p2, j2);
    SeenAgree(r1, r2, k);
    DistinctNotSeen(r1, k);
    DistinctNotSeen(r2, k);
    EarlierIsSeen(r1, k, p1, j1, r2, p2, j2);
    EarlierIsSeen(r2, k, p2, j2, r1, p1, j1);
    assert p1 == p2 && j1 == j2;
    assert r1[p1] == r2[p2];
    assert r1[k].id == r2[k].id;
  }

  /**
   * Where `ra` and `rb` agree before `k`, if the transition that discovered
   * `ra[k]` comes before the one that discovered `rb[k]` in scan order, then
   * `rb` had already listed the target of the former.
   */
  lemma EarlierIsSeen(ra: seq<State>, k: int, pa: int, ja: int, rb: seq<State>, pb: int, jb: int)
    requires FirstDiscovery(ra, k, pa, ja) && FirstDiscovery(rb, k, pb, jb)
    requires forall q :: 0 <= q < k ==> ra[q] == rb[q]
    ensures pa < pb || (pa == pb && ja < jb) ==> ra[k].id in Seen(rb, k)
  {
  }

  /** A sequence with a discovery witness that extends a closed one lists nothing after it. */
  lemma LengthAgree(rl: seq<State>, parl: seq<(int, int)>, rs: seq<State>)
    requires 0 < |rs| <= |rl|
    requires forall q :: 0 <= q < |rs| ==> rl[q] == rs[q]
    requires IdsDistinct(rl) && DiscoveredBy(rl, parl) && Closed(rs)
    ensures |rl| == |rs|
  {
    if |rl| > |rs| {
      ExtraIsSeen(rl, parl, rs);
      assert false;
    }
  }

  /** The State after a closed prefix was discovered from that prefix, so its id is already in it. */
  lemma ExtraIsSeen(rl: seq<State>, parl: seq<(int, int)>, rs: seq<State>)
    requires 0 < |rs| < |rl|
    requires forall q :: 0 <= q < |rs| ==> rl[q] == rs[q]
    requires DiscoveredBy(rl, parl) && Closed(rs)
    ensures rl[|rs|].id in Seen(rl, |rs|)
  {
    var n := |rs|;
    var (p, j) := parl[n];
    assert FirstDiscovery(rl, n, p, j);
    EdgeInTargets(rl[p], j, rl[n].id, |Trans(rl[p])|);
    assert rl[p] == rs[p];
    assert rl[n].id in Ids(rs);
    SeenAgree(rl, rs, n);
  }

  /** Sequences that agree on their first `k` States have seen the same ids. */
  lemma SeenAgree(r1: seq<State>, r2: seq<State>, k: int)
    requires 0 <= k <= |r1| && k <= |r2|
    requires forall q :: 0 <= q < k ==> r1[q] == r2[q]
    ensures Seen(r1, k) == Seen(r2, k)
  {
  }
}
