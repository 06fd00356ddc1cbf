/**
 * The cache writes of stateTransitionContext.js exactly as they are written:
 * `{ ...stateTransData }` at lines 62, 88 and 102 copies the array into a
 * plain object, which has neither `push` nor `findIndex`. The rest of the
 * model keeps the cache an array (see Provider).
 */
module AsWritten {
  import opened Wrappers
  import opened Graph

  /** `stateTransData` as a JavaScript value: an Array, or the plain object a spread makes of one. */
  datatype JsCache = JsArray(elems: seq<State>) | JsObject(props: map<int, State>)

  /** How a call ends: with a value, or with the TypeError of calling a method the receiver lacks. */
  datatype Outcome<T> = Returned(value: T) | Threw

  /** `{ ...c }`: a new plain object holding the own enumerable properties of `c`, for an array its indices. */
  function Spread(c: JsCache): JsCache {
    match c
    case JsArray(e) => JsObject(map k | 0 <= k < |e| :: e[k])
    case JsObject(_) => c
  }

  /** `c.findIndex((st) => st._id === id)`: arrays answer, plain objects throw. */
  function FindIndexAsWritten(c: JsCache, id: StateId): (r: Outcome<int>)
    ensures r.Threw? <==> c.JsObject?
    ensures r.Returned? ==> (r.value == -1 <==> id !in Ids(c.elems))
  {
    match c
    case JsArray(e) => Returned(FindIndex(e, id))
    case JsObject(_) => Threw
  }

  /** `c.push(s)`: arrays grow by `s`, plain objects throw. */
  function PushAsWritten(c: JsCache, s: State): Outcome<JsCache> {
    match c
    case JsArray(e) => Returned(JsArray(e + [s]))
    case JsObject(_) => Threw
  }

  /**
   * addState (lines 97-107) as written: the cache after the call, given the
   * store's reply. The cache never changes: either the id is already listed
   * or nothing came back, or the call throws, and on an array it throws
   * exactly for a created State with a new id.
   */
  function AddStateAsWritten(c: JsCache, created: Option<State>): (r: Outcome<JsCache>)
    ensures r.Returned? ==> r.value == c
    ensures created.None? ==> r.Returned?
    ensures c.JsArray? && created.Some? ==> (r.Threw? <==> created.value.id !in Ids(c.elems))
  {
    if created.None? then Returned(c)
    else
      match FindIndexAsWritten(c, created.value.id)
      case Threw => Threw
      case Returned(i) => if i >= 0 then Returned(c) else PushAsWritten(Spread(c), created.value)
  }

  /** A created State with a new id never reaches the cache: the push at line 103 throws on the spread copy. */
  lemma AddStateThrows(s: seq<State>, st: State)
    requires st.id !in Ids(s)
    ensures AddStateAsWritten(JsArray(s), Some(st)) == Threw
  {
  }

  /** The patch of updateTransInState (lines 62-63, 67) and addTransInState (lines 88-91): slot `k` of a spread copy. */
  function PatchAsWritten(c: JsCache, k: int, st: State): (o: JsCache)
    ensures forall id :: FindIndexAsWritten(o, id).Threw?
    ensures forall s :: PushAsWritten(o, s).Threw?
    ensures k in o.props && o.props[k] == st
    ensures c.JsArray? ==> forall n :: 0 <= n < |c.elems| && n != k ==> n in o.props && o.props[n] == c.elems[n]
    ensures c.JsArray? ==> forall n :: n in o.props ==> n == k || 0 <= n < |c.elems|
  {
    JsObject(Spread(c).props[k := st])
  }

  /** After one successful patch the cache is a plain object, so the next getStateNum (line 29) throws. */
  lemma LookupAfterPatchThrows(s: seq<State>, k: int, st: State, id: StateId)
    ensures FindIndexAsWritten(PatchAsWritten(JsArray(s), k, st), id) == Threw
  {
  }
}
