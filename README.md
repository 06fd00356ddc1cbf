# State/transition graph provider: a Dafny model

This project models the core of `src/contexts/stateTransitionContext.js`. That
file is a client-side cache of a directed graph kept in a remote store. The
nodes are States and the ordered, labelled edges are Transitions. The cache is
rebuilt by a breadth-first traversal from one root id. Three mutations patch
it, each only after its remote write succeeds.

- `Graph` (graph.dfy): States and Transitions, the first-match lookup by id
  (`findIndex`), and reachability through transitions whose `end` is truthy.
- `Discovery` (discovery.dfy): what a finished traversal is. It starts at the
  root, every State is the store's answer for its id, ids are distinct, the
  result is closed under `end`-truthy transitions, and States appear in
  breadth-first discovery order. It also holds the proofs that such a result
  lists exactly the reachable ids and that it is unique.
- `Traversal` (traversal.dfy): the nested scan loop of `traverseCurrGraph`,
  where the result sequence is also the worklist.
- `Provider` (provider.dfy): the class `StateTransProvider`. It holds the
  cache, the root id and a log of remote writes, and it has `getStateNum`,
  `getStateById`, `updateTransInState`, `addTransInState`, `addState` and
  `traverseCurrGraph`.
- `AsWritten` (as_written.dfy): the cache writes exactly as the source spells
  them, for the findings below.

The remote services are not called. They become inputs:
- The State store's `fetchById` becomes a `map<StateId, State>`. The
  traversal requires that `store[k].id == k`: a store that answered with a
  different id could make the source loop forever.
- The replies of `TransitionRequests.update`, `TransitionRequests.create` and
  `StateRequests.create` become parameters: `remoteOk: bool` for the first two,
  and `created: Option<State>` for the last.
- Every remote write the provider sends is appended to the field `sent`. This
  lets the contracts say when no remote call is made.

Decisions where the code's behaviour is easy to misread (the model follows
the code):
- `updateTransInState` accepts `transIndex == transitions.length` (line 54).
  The assignment at line 59 then appends, so the model appends too (`Assign`)
  rather than rejecting that index.
- A failed non-root fetch pushes `undefined` (line 136). A State without
  `transitions` fails at line 127. Either way the walk throws before line 141,
  so the cache stays as it was.
  - The model stops the walk at that point (`Aborted`).
  - `TraverseCurrGraph` leaves the cache unchanged exactly when some reachable
    id is missing from the store or has no transitions (`ReachesBad`).
  - Skipping such nodes and continuing would be a different behaviour; it is
    not what the code does.
- A failed root fetch empties the cache (lines 114-121, 141).
- The cache is kept as a sequence everywhere. In the source, the spread
  `{ ...stateTransData }` turns it into a plain object (see Findings).
- `addTransInState` pushes into the `transitions` array that the copied State
  shares with the cached one (lines 77, 86). The model gives the outcome: `t`
  is appended to that State, with no duplicate check.

## Model

| member | source | states |
|---|---|---|
| `Graph.FindIndex` | src/contexts/stateTransitionContext.js:29 | the index of the first State whose id matches, and -1 exactly when no State has that id |
| `Graph.DistinctCard` | src/contexts/stateTransitionContext.js:131-136 | a list with distinct ids has as many ids as States, which bounds the traversal by the store's size |
| `Provider.StateTransProvider.constructor` | src/contexts/stateTransitionContext.js:21-22 | the provider starts at the fixed root id `602b6749f6d42f1f4cc61533`, with an empty cache and no writes sent |
| `Provider.StateTransProvider.GetStateNum` | src/contexts/stateTransitionContext.js:28-31 | never 0; -1 exactly when the id is not cached; otherwise 1 + the index of the first State with that id |
| `Provider.StateTransProvider.GetStateById` | src/contexts/stateTransitionContext.js:32-37 | nothing exactly when the id is not cached; otherwise the State at the index `getStateNum` reports, which is the only State with that id when ids are distinct |
| `Provider.StateTransProvider.LookupFindsOwnPosition` | src/contexts/stateTransitionContext.js:28-37 | with distinct ids, looking up a cached State's id returns its own position and that State, so `getStateNum` is injective on cached ids |
| `Provider.Assign` | src/contexts/stateTransitionContext.js:59 | assigning at an index within the array replaces that element and keeps the others; assigning at the length appends |
| `Provider.StateTransProvider.UpdateTransInState` | src/contexts/stateTransitionContext.js:39-72 | unknown state and missing transitions give `{success:false}`; an index below 0 or above the length gives `{success:false, stateIndex}`; none of these sends a write or changes the cache. Otherwise exactly one update write is sent with the whole new State. On success only transition `transIndex` of that one State changes and the reply is `{success:true, stateIndex, transIndex}`; on failure nothing changes and the reply is `{success:false}`. Distinct ids are kept |
| `Provider.StateTransProvider.AddTransInState` | src/contexts/stateTransitionContext.js:74-94 | an unknown state or missing transitions sends nothing and changes nothing; otherwise one create write is sent, and only on success is `t` appended to that State's transitions, unconditionally; other States are unchanged |
| `Provider.StateTransProvider.AddState` | src/contexts/stateTransitionContext.js:97-107 | one create write is always sent; the created State is appended exactly when there is one and its id is not cached, otherwise the cache is unchanged; distinct ids are kept |
| `Provider.StateTransProvider.TraverseCurrGraph` | src/contexts/stateTransitionContext.js:109-145 | a falsy root id leaves the cache alone; a failed root fetch empties it; a walk that meets a missing or malformed reachable State leaves it alone; otherwise the cache becomes a complete traversal holding exactly the reachable States, at most one per store id |
| `Traversal.Walk` | src/contexts/stateTransitionContext.js:114-141 | the walk aborts exactly when a reachable id is bad. Otherwise it returns a complete traversal: root first, stored States, distinct ids, closed under `end`-truthy transitions, in breadth-first discovery order, exactly the reachable ids, no more States than store ids. It always terminates |
| `Traversal.ExpandAt` | src/contexts/stateTransitionContext.js:127-138 | scanning all transitions of State `i` either proves a reachable id is bad, or keeps the worklist invariant with State `i` expanded, while the worklist only grows |
| `Traversal.Visit` | src/contexts/stateTransitionContext.js:128-137 | a transition with falsy `end`, or whose target is already listed, changes nothing; an `end`-truthy transition to an unlisted target appends the stored target State (shrinking the set of unfetched ids) exactly when the target is in the store, and otherwise fails, which proves a reachable id is bad |
| `Discovery.Extend` | src/contexts/stateTransitionContext.js:131-136 | appending the store's State for an unlisted `end`-truthy target keeps the worklist invariant and the discovery order, covers that transition and strictly shrinks the set of store ids not yet fetched |
| `Discovery.ExtendFetched` | src/contexts/stateTransitionContext.js:133-136 | a target fetched only when its id is not listed keeps the ids pairwise distinct |
| `Discovery.ExtendDiscovered` | src/contexts/stateTransitionContext.js:131-136 | the appended State was discovered by the first transition, in scan order, whose target was unlisted |
| `Discovery.ExtendCovered` | src/contexts/stateTransitionContext.js:131-136 | after the append, every `end`-truthy transition scanned so far points into the list |
| `Discovery.ExpandedAt` | src/contexts/stateTransitionContext.js:123-139 | once all transitions of State `i` are covered, the outer loop may advance to `i + 1` |
| `Discovery.FailedFetch` | src/contexts/stateTransitionContext.js:127-136 | a fetch that fails is for an id reachable from the root |
| `Discovery.DiscoveredReachable` | src/contexts/stateTransitionContext.js:131-136 | every State in a partial or finished walk is reachable from the root through `end`-truthy transitions |
| `Discovery.ReachableListed` | src/contexts/stateTransitionContext.js:123-139 | every id at the end of a path from the root is in any closed result that starts at the root |
| `Discovery.TraversalReaches` | src/contexts/stateTransitionContext.js:123-141 | a complete traversal lists an id exactly when it is reachable from the root |
| `Discovery.TraversalUnique` | src/contexts/stateTransitionContext.js:123-141 | two complete traversals of one store from one root are equal, order included, so re-running the traversal on an unchanged store rebuilds the same cache |
| `Discovery.SameNext` | src/contexts/stateTransitionContext.js:131-136 | two traversals that agree on a prefix append the same next State |
| `AsWritten.FindIndexAsWritten` | src/contexts/stateTransitionContext.js:29 | `findIndex` answers on an array and throws on a plain object |
| `AsWritten.AddStateAsWritten` | src/contexts/stateTransitionContext.js:97-107 | as written, `addState` never changes the cache: it returns it unchanged when nothing came back or the id is listed, and otherwise throws; on a cache array it throws exactly when the created State has a new id |
| `AsWritten.AddStateThrows` | src/contexts/stateTransitionContext.js:97-107 | as written, `addState` with a created State whose id is new always throws, so the cache never receives it |
| `AsWritten.PatchAsWritten` | src/contexts/stateTransitionContext.js:62-67 | as written, a patched cache holds the new State at slot `k` and the old States at every other index, but as a plain object on which every `findIndex` and every `push` throws |
| `AsWritten.LookupAfterPatchThrows` | src/contexts/stateTransitionContext.js:62-67 | as written, after one successful patch the next `getStateNum` throws |

## Left out

- React machinery: `createContext`, `useContext`, the Provider element, and the `useEffect` that re-runs the traversal when the root id or refresh nonce changes (lines 152-154). The setters become assignments to the class's fields.
- `triggerSTRefresh` (lines 147-149): it only stores a random nonce to trigger a re-run.
- `isLoading` (lines 113, 143): a UI signal. After a walk that throws, the source leaves it `true`; that is not modelled.
- Logging and `process.env` (lines 43, 79, 110-111, 117, 121, 144).
- Network I/O and its latency: stores are a map and reply parameters, as described above.
- Concurrency: a traversal racing a mutation, and the lost updates that follow, are not modelled. Every operation runs to completion in one step.
- The `emptyTransition` default argument of `addTransInState` (lines 10-18): callers pass the transition explicitly.
- Shallow copies (lines 47, 52, 77): States and Transitions are values, so copying them has no observable effect.
- The `if (stateTransData)` guard (line 40): an array or object is always truthy, so its implicit `undefined` return is unreachable and is not modelled.
- Fetches after a failed fetch: the source keeps scanning until it throws. Those extra reads are not modelled because they change nothing.
- JavaScript truthiness: `end` is a `bool` and a falsy root id is `""`. A `transIndex` that is not an integer is not modelled.
- Stores that answer with a State whose id differs from the one requested (the traversal requires `StoreKeyed`): on such a store the source can fetch forever.

## Findings

| source | as written | input that shows it | evidently intended | confidence | as-written member | corrected member |
|---|---|---|---|---|---|---|
| src/contexts/stateTransitionContext.js:102-103 | `{ ...stateTransData }` is a plain object, so `newStateTransData.push(state)` throws a TypeError | empty cache, and `StateRequests.create` returns a State with id `"A"` | append the created State to the cache array | high, not executed | `AsWritten.AddStateAsWritten`, `AsWritten.AddStateThrows` | `Provider.StateTransProvider.AddState` |
| src/contexts/stateTransitionContext.js:62-67 (and 88-91) | the patched cache is stored as an index-keyed plain object, so the next `getStateNum` (line 29) calls a missing `findIndex` and throws | cache `[A]`, a successful `updateTransInState("A", t, 0)`, then `getStateNum("A")` | replace one slot of the cache array | high, not executed | `AsWritten.PatchAsWritten`, `AsWritten.LookupAfterPatchThrows` | `Provider.StateTransProvider.UpdateTransInState`, `Provider.StateTransProvider.AddTransInState` |
