/**
 * The data the state/transition provider works on: States, their ordered
 * Transitions, the first-match lookup by id, and reachability through
 * transitions whose `end` flag is truthy.
 */
module Graph {
  import opened Wrappers

  type StateId = string

  /**
   * A directed, labelled edge. `end` is the truthiness of the source's `end`
   * field; `state` is the id of the target State; `kind` is the source's `type`
   * field (a reserved word in Dafny).
   */
  datatype Transition = Transition(
    id: string,
    statement: string,
    keywords: seq<string>,
    end: bool,
    spareContent: string,
    intent: string,
    state: StateId,
    kind: string)

  /**
   * A node. `transitions` is None when the entity lacks the field (a malformed
   * State); `attributes` stands for the descriptive fields the core never reads.
   */
  datatype State = State(id: StateId, transitions: Option<seq<Transition>>, attributes: map<string, string>)

  /** The transitions of `s`, or none when the field is missing. */
  function Trans(s: State): seq<Transition> {
    if s.transitions.Some? then s.transitions.value else []
  }

  /** The ids of the first `k` States of `r`. */
  function Seen(r: seq<State>, k: nat): set<StateId>
    requires k <= |r|
  {
    set q | 0 <= q < k :: r[q].id
  }

  /** The ids of all States of `r`. */
  function Ids(r: seq<State>): set<StateId> {
    Seen(r, |r|)
  }

  /** No two States of `r` share an id. */
  predicate IdsDistinct(r: seq<State>) {
    forall a, b :: 0 <= a < b < |r| ==> r[a].id != r[b].id
  }

  /**
   * Array.prototype.findIndex on `_id`: the index of the first State whose id
   * is `id`, or -1 when there is none.
   */
  function FindIndex(r: seq<State>, id: StateId): (i: int)
    ensures -1 <= i < |r|
    ensures i == -1 <==> id !in Ids(r)
    ensures 0 <= i ==> r[i].id == id && forall k :: 0 <= k < i ==> r[k].id != id
  {
    if |r| == 0 then -1
    else if r[|r| - 1].id == id && FindIndex(r[..|r| - 1], id) == -1 then |r| - 1
    else (IdsAppend(r[..|r| - 1], r[|r| - 1]); assert r[..|r| - 1] + [r[|r| - 1]] == r;
          FindIndex(r[..|r| - 1], id))
  }

  /** Appending a State adds exactly its id, and keeps the ids of every prefix. */
  lemma IdsAppend(r: seq<State>, y: State)
    ensures Ids(r + [y]) == Ids(r) + {y.id}
    ensures forall k :: 0 <= k <= |r| ==> Seen(r + [y], k) == Seen(r, k)
  {
    var r' := r + [y];
    assert Ids(r') == Ids(r) + {y.id} by {
      forall x | x in Ids(r')
        ensures x in Ids(r) + {y.id}
      {
        var q :| 0 <= q < |r'| && r'[q].id == x;
        if q < |r| { assert r[q].id == x; }
      }
      forall x | x in Ids(r) ensures x in Ids(r') {
        var q :| 0 <= q < |r| && r[q].id == x;
        assert r'[q].id == x;
      }
      assert r'[|r|].id == y.id;
    }
    forall k | 0 <= k <= |r|
      ensures Seen(r', k) == Seen(r, k)
    {
      forall x | x in Seen(r', k) ensures x in Seen(r, k) {
        var q :| 0 <= q < k && r'[q].id == x;
        assert r[q].id == x;
      }
      forall x | x in Seen(r, k) ensures x in Seen(r', k) {
        var q :| 0 <= q < k && r[q].id == x;
        assert r'[q].id == x;
      }
    }
  }

  /** With distinct ids, a result holds as many States as distinct ids. */
  lemma {:induction false} DistinctCard(r: seq<State>)
    requires IdsDistinct(r)
    ensures |Ids(r)| == |r|
  {
    if |r| > 0 {
      var front := r[..|r| - 1];
      assert front + [r[|r| - 1]] == r;
      DistinctCard(front);
      IdsAppend(front, r[|r| - 1]);
      assert r[|r| - 1].id !in Ids(front);
    }
  }

  /** A State's id is not among the ids before it, when ids are distinct. */
  lemma DistinctNotSeen(r: seq<State>, k: nat)
    requires IdsDistinct(r) && k < |r|
    ensures r[k].id !in Seen(r, k)
  {
  }

  /** The targets of the `end`-truthy transitions of `s` at positions below `j`. */
  function EndTargetsBefore(s: State, j: nat): set<StateId> {
    set m | 0 <= m < j && m < |Trans(s)| && Trans(s)[m].end :: Trans(s)[m].state
  }

  /** The targets of all `end`-truthy transitions of `s`: the ids a traversal follows from it. */
  function EndTargets(s: State): set<StateId> {
    EndTargetsBefore(s, |Trans(s)|)
  }

  /** Transition `j` of `s` is `end`-truthy and points to `x`. */
  predicate EdgeTo(s: State, j: int, x: StateId) {
    0 <= j < |Trans(s)| && Trans(s)[j].end && Trans(s)[j].state == x
  }

  /** Looking at one more transition adds its target exactly when it is `end`-truthy. */
  lemma EndTargetsStep(s: State, j: nat)
    requires j < |Trans(s)|
    ensures EndTargetsBefore(s, j + 1)
         == EndTargetsBefore(s, j) + (if Trans(s)[j].end then {Trans(s)[j].state} else {})
  {
  }

  /** The target of an `end`-truthy transition below `bound` is among the targets before `bound`, and among all targets. */
  lemma EdgeInTargets(s: State, j: int, x: StateId, bound: nat)
    requires EdgeTo(s, j, x) && j < bound
    ensures x in EndTargetsBefore(s, bound) && x in EndTargets(s)
  {
  }

  /** The remote State store answers `fetchById(k)` with a State whose id is `k`. */
  predicate StoreKeyed(store: map<StateId, State>) {
    forall k :: k in store ==> store[k].id == k
  }

  /** Fetching `x` fails, or yields a State without its transitions. */
  predicate Bad(store: map<StateId, State>, x: StateId) {
    x !in store || store[x].transitions.None?
  }

  /** One step of a traversal: `b` is the target of an `end`-truthy transition of the stored State `a`. */
  ghost predicate Step(store: map<StateId, State>, a: StateId, b: StateId) {
    a in store && b in EndTargets(store[a])
  }

  /** A non-empty sequence of ids, each one a Step from the one before. */
  ghost predicate IsPath(store: map<StateId, State>, p: seq<StateId>) {
    |p| > 0 && forall k :: 0 <= k < |p| - 1 ==> Step(store, p[k], p[k + 1])
  }

  /** `x` is reachable from `root` by following `end`-truthy transitions of stored States. */
  ghost predicate Reachable(store: map<StateId, State>, root: StateId, x: StateId) {
    exists p :: IsPath(store, p) && p[0] == root && p[|p| - 1] == x
  }

  /** A path to `a` followed by a Step from `a` to `b` reaches `b`. */
  lemma ReachableStep(store: map<StateId, State>, root: StateId, a: StateId, b: StateId)
    requires Reachable(store, root, a) && Step(store, a, b)
    ensures Reachable(store, root, b)
  {
    var p :| IsPath(store, p) && p[0] == root && p[|p| - 1] == a;
    var p' := p + [b];
    forall k | 0 <= k < |p'| - 1 ensures Step(store, p'[k], p'[k + 1]) {
      if k < |p| - 1 { assert p'[k] == p[k] && p'[k + 1] == p[k + 1]; }
    }
    assert IsPath(store, p');
  }

  /** The root reaches itself by the one-element path. */
  lemma ReachableRoot(store: map<StateId, State>, root: StateId)
    ensures Reachable(store, root, root)
  {
    assert IsPath(store, [root]);
  }
}
