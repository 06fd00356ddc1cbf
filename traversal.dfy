/**
 * The breadth-first materialisation of the graph reachable from a root id.
 * The result sequence is also the worklist: it is scanned by index while
 * States fetched from the store are appended to it.
 */
module Traversal {
  import opened Wrappers
  import opened Graph
  import opened Discovery

  /** How the walk ended: with the list of fetched States, or with the TypeError the source throws. */
  datatype WalkResult = Walked(states: seq<State>) | Aborted

  /**
   * The walk of stateTransitionContext.js:116-139 from a truthy root id.
   * A failed root fetch leaves the result empty. A failed later fetch, or a
   * State without transitions, makes the source throw before the result is
   * stored; that is `Aborted`.
   */
  method Walk(store: map<StateId, State>, rootId: StateId) returns (w: WalkResult)
    requires StoreKeyed(store)
    ensures rootId !in store ==> w == Walked([])
    ensures rootId in store ==> (w.Aborted? <==> ReachesBad(store, rootId))
    ensures rootId in store && w.Walked? ==> IsTraversal(store, rootId, w.states)
    ensures rootId in store && w.Walked? ==>
              forall x :: x in Ids(w.states) <==> Reachable(store, rootId, x)
    ensures w.Walked? ==> |w.states| <= |store|
  {
    if rootId !in store {
      return Walked([]);
    }
    var temp := [store[rootId]];
    ghost var par: seq<(int, int)> := [(0, 0)];
    var i := 0;
    while i < |temp|
      invariant Scanned(store, rootId, temp, par, i)
      decreases |store.Keys - Ids(temp)|, |temp| - i
    {
      if temp[i].transitions.None? {
        DiscoveredReachable(store, rootId, temp, par, i);
        return Aborted;
      }
      var ok;
      temp, par, ok := ExpandAt(store, rootId, temp, par, i);
      if !ok {
        return Aborted;
      }
      i := i + 1;
    }
    DistinctCard(temp);
    assert Ids(temp) <= store.Keys;
    TraversalReaches(store, rootId, temp);
    assert !ReachesBad(store, rootId) by {
      forall x | Reachable(store, rootId, x) ensures !Bad(store, x) {
        var k :| 0 <= k < |temp| && temp[k].id == x;
      }
    }
    w := Walked(temp);
  }

  /**
   * The inner loop of stateTransitionContext.js:127-138: scan the transitions
   * of `temp[i]` in order and append the stored State for each `end`-truthy
   * target not yet listed. On success the first `i + 1` States are expanded
   * and the worklist only grew; a failed fetch means some reachable id is bad.
   */
  method ExpandAt(store: map<StateId, State>, rootId: StateId, temp: seq<State>, ghost par: seq<(int, int)>, i: int)
    returns (temp': seq<State>, ghost par': seq<(int, int)>, ok: bool)
    requires StoreKeyed(store)
    requires Scanned(store, rootId, temp, par, i) && i < |temp|
    requires temp[i].transitions.Some?
    ensures !ok ==> ReachesBad(store, rootId)
    ensures ok ==> Scanned(store, rootId, temp', par', i + 1)
    ensures ok ==> |temp| <= |temp'| && temp'[..|temp|] == temp
    ensures ok ==> temp' == temp || |store.Keys - Ids(temp')| < |store.Keys - Ids(temp)|
  {
    var ts := temp[i].transitions.value;
    temp', par' := temp, par;
    var j := 0;
    while j < |ts|
      invariant 0 <= j <= |ts|
      invariant |temp| <= |temp'| && temp'[..|temp|] == temp
      invariant temp' == temp || |store.Keys - Ids(temp')| < |store.Keys - Ids(temp)|
      invariant Scanned(store, rootId, temp', par', i)
      invariant temp'[i] == temp[i]
      invariant EndTargetsBefore(temp'[i], j) <= Ids(temp')
      decreases |store.Keys - Ids(temp')|, |ts| - j
    {
      ghost var before := temp';
      temp', par', ok := Visit(store, rootId, temp', par', i, j);
      if !ok {
        return;
      }
      assert temp'[..|temp|] == temp by {
        assert temp'[..|before|] == before;
        assert temp'[..|before|][..|temp|] == temp'[..|temp|];
      }
      j := j + 1;
    }
    ExpandedAt(store, rootId, temp', par', i);
    ok := true;
  }

  /**
   * One turn of the inner loop (stateTransitionContext.js:128-137): when
   * transition `j` of `temp[i]` is `end`-truthy and its target is not yet
   * listed, fetch the target and append it. Otherwise nothing changes.
   */
  method Visit(store: map<StateId, State>, rootId: StateId, temp: seq<State>, ghost par: seq<(int, int)>, i: int, j: int)
    returns (temp': seq<State>, ghost par': seq<(int, int)>, ok: bool)
    requires StoreKeyed(store)
    requires Scanned(store, rootId, temp, par, i) && i < |temp|
    requires 0 <= j < |Trans(temp[i])| && EndTargetsBefore(temp[i], j) <= Ids(temp)
    ensures !ok ==> ReachesBad(store, rootId)
    ensures ok ==> Scanned(store, rootId, temp', par', i)
    ensures ok ==> |temp| <= |temp'| && temp'[..|temp|] == temp && temp'[i] == temp[i]
    ensures ok ==> EndTargetsBefore(temp'[i], j + 1) <= Ids(temp')
    ensures ok ==> temp' == temp || (Trans(temp[i])[j].state in store
                                     && temp' == temp + [store[Trans(temp[i])[j].state]]
                                     && |store.Keys - Ids(temp')| < |store.Keys - Ids(temp)|)
    ensures !Trans(temp[i])[j].end || Trans(temp[i])[j].state in Ids(temp) ==> ok && temp' == temp && par' == par
    ensures Trans(temp[i])[j].end && Trans(temp[i])[j].state !in Ids(temp) ==>
              (ok <==> Trans(temp[i])[j].state in store)
              && (ok ==> temp' == temp + [store[Trans(temp[i])[j].state]] && par' == par + [(i, j)])
  {
    var t := temp[i].transitions.value[j];
    if t.end && FindIndex(temp, t.state) == -1 {
      if t.state !in store {
        FailedFetch(store, rootId, temp, par, i, j, t.state);
        return temp, par, false;
      }
      Extend(store, rootId, temp, par, i, j, t.state);
      return temp + [store[t.state]], par + [(i, j)], true;
    }
    EndTargetsStep(temp[i], j);
    return temp, par, true;
  }
}
