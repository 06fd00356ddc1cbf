/**
 * The state/transition provider: the in-memory cache of the graph, the
 * lookups on it, the traversal that replaces it, and the three mutations
 * that write to the remote stores first and patch the cache only when the
 * write succeeds.
 */
module Provider {
  import opened Wrappers
  import opened Graph
  import opened Discovery
  import opened Traversal

  /** The root id the provider starts from (stateTransitionContext.js:21); nothing in the provider's value changes it. */
  const DEFAULT_ROOT_ID: string := "602b6749f6d42f1f4cc61533"

  /** A write sent to a remote store. */
  datatype RemoteWrite =
    | UpdateTransition(transId: string, state: State)        // TransitionRequests.update
    | CreateTransition(stateId: StateId, trans: Transition)  // TransitionRequests.create
    | CreateState                                            // StateRequests.create

  /** The object `updateTransInState` resolves to: `success`, and the indices it reports when present. */
  datatype UpdateReply = UpdateReply(success: bool, stateIndex: Option<int>, transIndex: Option<int>)

  /**
   * `arr[i] = t` on a JavaScript array with `0 <= i <= arr.length`: a
   * replacement below the length, an append at the length.
   */
  function Assign(ts: seq<Transition>, i: int, t: Transition): (r: seq<Transition>)
    requires 0 <= i <= |ts|
    ensures |r| == if i == |ts| then |ts| + 1 else |ts|
    ensures r[i] == t
    ensures forall k :: 0 <= k < |ts| && k != i ==> r[k] == ts[k]
  {
    if i == |ts| then ts + [t] else ts[i := t]
  }

  class StateTransProvider {
    /** The id of the State at the root of the graph. */
    var rootStateId: string
    /** The cache: the States materialised by the last traversal, patched by the mutations. */
    var stateTransData: seq<State>
    /** The writes sent to the remote stores, oldest first. */
    var sent: seq<RemoteWrite>

    /** No two cached States share an id. */
    ghost predicate Valid()
      reads this
    {
      IdsDistinct(stateTransData)
    }

    /** The provider as it mounts: the fixed root id, an empty cache, nothing sent. */
    constructor ()
      ensures Valid()
      ensures rootStateId == DEFAULT_ROOT_ID && stateTransData == [] && sent == []
    {
      rootStateId := DEFAULT_ROOT_ID;
      stateTransData := [];
      sent := [];
    }

    /** One plus the index of the first cached State with id `id`, or -1 (stateTransitionContext.js:28-31). */
    function GetStateNum(id: StateId): (n: int)
      reads this
      ensures n != 0 && -1 <= n <= |stateTransData|
      ensures n == -1 <==> id !in Ids(stateTransData)
      ensures n > 0 ==> stateTransData[n - 1].id == id
      ensures n > 0 ==> forall k :: 0 <= k < n - 1 ==> stateTransData[k].id != id
    {
      var i := FindIndex(stateTransData, id);
      if i >= 0 then i + 1 else i
    }

    /** The first cached State with id `id`, if any (stateTransitionContext.js:32-37). */
    function GetStateById(id: StateId): (s: Option<State>)
      reads this
      ensures s.None? <==> id !in Ids(stateTransData)
      ensures s.Some? ==> s.value.id == id && s.value == stateTransData[GetStateNum(id) - 1]
      ensures s.Some? && Valid() ==>
                forall k :: 0 <= k < |stateTransData| && stateTransData[k].id == id ==> stateTransData[k] == s.value
    {
      var i := GetStateNum(id) - 1;
      if i >= 0 then Some(stateTransData[i]) else None
    }

    /** With distinct ids, looking up a cached State's id finds that very position. */
    lemma LookupFindsOwnPosition(k: int)
      requires Valid() && 0 <= k < |stateTransData|
      ensures GetStateNum(stateTransData[k].id) == k + 1
      ensures GetStateById(stateTransData[k].id) == Some(stateTransData[k])
    {
    }

    /**
     * Replace transition `transIndex` of the cached State `stateId` by
     * `trans` (stateTransitionContext.js:39-72). Unknown state, missing
     * transitions and an index outside 0..length fail without a remote call;
     * `transIndex == length` appends. `remoteOk` is the truthiness of the
     * reply of TransitionRequests.update; only a truthy reply patches the cache.
     */
    method UpdateTransInState(stateId: StateId, trans: Transition, transIndex: int, remoteOk: bool)
      returns (reply: UpdateReply)
      requires Valid()
      modifies this
      ensures Valid() && rootStateId == old(rootStateId)
      ensures stateTransData != old(stateTransData) ==> remoteOk && reply.success
      ensures reply.success ==> remoteOk
      ensures var k := FindIndex(old(stateTransData), stateId);
        k < 0 || old(stateTransData)[k].transitions.None? ==>
          && reply == UpdateReply(false, None, None)
          && stateTransData == old(stateTransData) && sent == old(sent)
      ensures var k := FindIndex(old(stateTransData), stateId);
        k >= 0 && old(stateTransData)[k].transitions.Some? &&
        (transIndex < 0 || transIndex > |Trans(old(stateTransData)[k])|) ==>
          && reply == UpdateReply(false, Some(k), None)
          && stateTransData == old(stateTransData) && sent == old(sent)
      ensures var k := FindIndex(old(stateTransData), stateId);
        k >= 0 && old(stateTransData)[k].transitions.Some? &&
        0 <= transIndex <= |Trans(old(stateTransData)[k])| ==>
          var updated := old(stateTransData)[k].(transitions :=
                           Some(Assign(Trans(old(stateTransData)[k]), transIndex, trans)));
          && sent == old(sent) + [UpdateTransition(trans.id, updated)]
          && (remoteOk ==> stateTransData == old(stateTransData)[k := updated]
                           && reply == UpdateReply(true, Some(k), Some(transIndex)))
          && (!remoteOk ==> stateTransData == old(stateTransData)
                            && reply == UpdateReply(false, None, None))
    {
      var stateIndex := GetStateNum(stateId) - 1;
      if stateIndex < 0 {
        return UpdateReply(false, None, None);
      }
      var newState := stateTransData[stateIndex];
      if newState.transitions.None? {
        return UpdateReply(false, None, None);
      }
      var ts := newState.transitions.value;
      if transIndex < 0 || transIndex > |ts| {
        return UpdateReply(false, Some(stateIndex), None);
      }
      newState := newState.(transitions := Some(Assign(ts, transIndex, trans)));
      var newStateTransData := stateTransData[stateIndex := newState];
      sent := sent + [UpdateTransition(trans.id, newState)];
      if remoteOk {
        stateTransData := newStateTransData;
        return UpdateReply(true, Some(stateIndex), Some(transIndex));
      }
      return UpdateReply(false, None, None);
    }

    /**
     * Append `t` to the transitions of the cached State `stateId`
     * (stateTransitionContext.js:74-94). An unknown state or missing
     * transitions does nothing and sends nothing. `remoteOk` is the
     * truthiness of the reply of TransitionRequests.create; there is no
     * duplicate check before the append.
     */
    method AddTransInState(stateId: StateId, t: Transition, remoteOk: bool)
      requires Valid()
      modifies this
      ensures Valid() && rootStateId == old(rootStateId)
      ensures stateTransData != old(stateTransData) ==> remoteOk
      ensures var k := FindIndex(old(stateTransData), stateId);
        k < 0 || old(stateTransData)[k].transitions.None? ==>
          stateTransData == old(stateTransData) && sent == old(sent)
      ensures var k := FindIndex(old(stateTransData), stateId);
        k >= 0 && old(stateTransData)[k].transitions.Some? ==>
          && sent == old(sent) + [CreateTransition(stateId, t)]
          && stateTransData == if remoteOk
                                then old(stateTransData)[k := old(stateTransData)[k].(transitions :=
                                       Some(Trans(old(stateTransData)[k]) + [t]))]
                                else old(stateTransData)
    {
      var stateIndex := GetStateNum(stateId) - 1;
      if stateIndex >= 0 {
        var newState := stateTransData[stateIndex];
        if newState.transitions.None? {
          return;
        }
        sent := sent + [CreateTransition(stateId, t)];
        if remoteOk {
          newState := newState.(transitions := Some(newState.transitions.value + [t]));
          stateTransData := stateTransData[stateIndex := newState];
        }
      }
    }

    /**
     * Ask the State store for a new State and cache it
     * (stateTransitionContext.js:97-107). `created` is the store's reply;
     * the State is appended only when there is one and its id is not cached.
     */
    method AddState(created: Option<State>)
      requires Valid()
      modifies this
      ensures Valid() && rootStateId == old(rootStateId)
      ensures sent == old(sent) + [CreateState]
      ensures stateTransData == if created.Some? && created.value.id !in Ids(old(stateTransData))
                                then old(stateTransData) + [created.value]
                                else old(stateTransData)
    {
      sent := sent + [CreateState];
      if created.Some? {
        var i := GetStateNum(created.value.id) - 1;
        if i < 0 {
          IdsAppend(stateTransData, created.value);
          stateTransData := stateTransData + [created.value];
        }
      }
    }

    /**
     * Rebuild the cache from the State store (stateTransitionContext.js:109-145).
     * A falsy root id leaves the cache alone; a failed root fetch empties it;
     * a walk that throws leaves it alone; otherwise the cache becomes the
     * breadth-first traversal, which holds exactly the reachable States.
     */
    method TraverseCurrGraph(store: map<StateId, State>)
      requires Valid() && StoreKeyed(store)
      modifies this
      ensures Valid() && rootStateId == old(rootStateId) && sent == old(sent)
      ensures rootStateId == "" ==> stateTransData == old(stateTransData)
      ensures rootStateId != "" && rootStateId !in store ==> stateTransData == []
      ensures rootStateId != "" && rootStateId in store && ReachesBad(store, rootStateId) ==>
                stateTransData == old(stateTransData)
      ensures rootStateId != "" && rootStateId in store && !ReachesBad(store, rootStateId) ==>
                && IsTraversal(store, rootStateId, stateTransData)
                && (forall x :: x in Ids(stateTransData) <==> Reachable(store, rootStateId, x))
                && |stateTransData| <= |store|
    {
      if rootStateId != "" {
        var w := Walk(store, rootStateId);
        if w.Walked? {
          stateTransData := w.states;
        }
      }
    }
  }
}
