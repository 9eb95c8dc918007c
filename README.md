# redux-tree in Dafny

A model of the dual-tree transactional store of `redux-tree` (`src/index.js`).
A schema is a nested object whose leaves are reducing functions. The store
gives each leaf its own node-store, and keeps the leaf states in two trees
addressed by the same key paths:

- SOURCE is the authoritative tree;
- STAGED is a working copy.

A dispatch at a path runs that leaf's reducer through a relay. The relay always
writes the new state into STAGED. It writes into SOURCE only when the
transaction flag is off. `reset` copies SOURCE over STAGED. `commit`
deep-merges STAGED into SOURCE and makes both trees the result.

Files:

- `Wrappers.dfy`: `Option`, `Result` and `Outcome`, for the error paths.
- `TreeSchema.dfy`: the schema (`Leaf`, `Container`, or `Bad` for a leaf that
  is not a function), the `Tagged`/`Untagged` root, and path lookup (`Sub`, `At`).
- `DualTree.dfy`: the two trees as values. Each tree is flattened to its leaf
  slots (`values`, `stores`). It defines the leaf write `WriteAt`, `Reset`,
  `Commit` and `MergeDeep`, the shape and agreement invariants, and lemmas
  about runs of writes.
- `ReduxTree.dfy`: class `TreeStore`. Its fields are the two trees, each
  node-store's box and reducer, and the transaction flag. It has the relay,
  the build walk, the top-level controller and the facade. Each method's
  `ensures` ties the new state to the `DualTree` functions.
- `Scenario.dfy`: a client built only on the contracts. It uses the schema
  `{a: counter, b: {c: counter}}` to walk through a transaction, a commit and
  two resets.

How the model represents the program:

- A node-store is identified by a `Handle` holding the path it was built for.
  The relay writes to that path, like the `path` captured by `wrapReducer`.
- A reducer is a Dafny function value `(V, A) -> V`.
- `undefined` (the state a box starts with) and `initAction` (the action a
  node-store dispatches to itself) are fields fixed at construction.
- The relay reads the node-store's own box, not either tree
  (`src/index.js:98`). So a reset rolls back neither a box nor the state the
  next dispatch starts from. `Scenario.WriteThenReset` shows this: after a
  discarded transactional increment, the next plain increment takes the
  counter from 0 to 2.

Facts about the code that shape the model:

- The relay's branch for any action other than `REDUCE_AT_PATH` (lines 78-93)
  runs the reducer on the plain action and writes the result into both trees.
  `Relay` models that branch as well.
- `replaceReducer` (lines 318-324) looks up the node-store in SOURCE only. It
  does not look at STAGED.
- Each relay captures the SOURCE cursor and the STAGED cursor when
  `wrapReducer` is called (lines 73-74): at build time, and again by
  `replaceReducer` (line 321). Nothing is captured when an action is
  dispatched.
- `reset` (lines 199-206) brings STAGED back to SOURCE. Only transactional
  dispatches leave SOURCE untouched (lines 101-105), so a reset undoes those
  and nothing else (`DualTree.ResetUndoesTransaction`).
- The comment at lines 224-227 asks whether commit's `mergeDeep` (line 213)
  could be replaced by replacing SOURCE with STAGED. For VALUEs treated as
  opaque, as here, on trees of the built shape the merge equals replacement
  (`DualTree.CommitIsReplace`). For VALUEs that are themselves immutable
  collections it does not, because `mergeDeep` merges inside them and keeps
  keys that STAGED dropped.

## Model

| member | source | states |
|---|---|---|
| `DualTree.WriteAt` | src/index.js:96-111 | the new state is in STAGED at the path. SOURCE gets it too when toSource holds; otherwise SOURCE is unchanged. No other path's VALUE and no STORE slot changes |
| `DualTree.Reset` | src/index.js:199-206 | SOURCE is untouched and STAGED equals SOURCE afterwards |
| `DualTree.MergeDeep` | src/index.js:213-214 | key-wise union: the right tree wins at every shared slot, and slots only the left tree has survive |
| `DualTree.Commit` | src/index.js:208-222 | both trees become mergeDeep(SOURCE, STAGED), so they are equal afterwards |
| `DualTree.WriteAtKeepsShape` | src/index.js:101-111 | a leaf write at a built path keeps the shape fixed at build time |
| `DualTree.WriteAtKeepsAgreement` | src/index.js:101-111 | a write to both trees keeps them agreeing. A STAGED-only write breaks agreement only at the written path |
| `DualTree.ResetKeepsShapeAndAgrees` | src/index.js:199-206 | reset keeps the shape and restores full agreement |
| `DualTree.CommitKeepsShapeAndAgrees` | src/index.js:208-222 | commit keeps the shape and restores full agreement |
| `DualTree.ResetIdempotent` | src/index.js:199-206 | a second reset is a no-op |
| `DualTree.CommitIdempotent` | src/index.js:208-222 | a second commit with no write in between is a no-op |
| `DualTree.CommitIsReplace` | src/index.js:210-227 | on built-shape trees, the merged result is exactly STAGED |
| `DualTree.ResetUndoesTransaction` | src/index.js:101-105 | transactional writes never reach SOURCE, and a reset after any run of them gives the same state as a reset before it |
| `DualTree.RunStagedIsLastWrite` | src/index.js:107-111 | after any run of writes, STAGED at each path holds the last value written there, or what it held before |
| `DualTree.RunKeepsShape` | src/index.js:101-111 | any run of writes to built paths keeps the shape and the STORE slots |
| `DualTree.RunKeepsAgreement` | src/index.js:101-111 | agreement invariant: after any run of writes, the trees agree at every path not written to STAGED alone |
| `DualTree.CommitKeepsEveryWrite` | src/index.js:208-222 | after any mix of transactional and non-transactional writes, commit makes the last write at each path authoritative; other paths keep their STAGED value |
| `TreeSchema.LeafWellFormed` | src/index.js:137-141 | a reducing function at a leaf is accepted by the build |
| `TreeSchema.ContainerWellFormed` | src/index.js:158-160 | a container is well-formed if and only if every child is |
| `ReduxTree.TreeStore.constructor` | src/index.js:170-178 | a fresh store has no VALUE or STORE slot in either tree, no node-stores, and the transaction flag off (the facade sets the flag at line 255) |
| `ReduxTree.TreeStore.Relay` | src/index.js:71-115 | the box becomes reducer(box, action). The result goes to STAGED at the handle's path, and to SOURCE unless it is a transactional REDUCE_AT_PATH |
| `ReduxTree.TreeStore.Convert` | src/index.js:126-162 | fails naming a bad leaf's path, or passes and every node below is good. On a pass, each leaf's slot holds reducer(undefined, init) in VALUE and box, its own node-store and its reducer; every other slot is unchanged |
| `ReduxTree.TreeStore.Build` | src/index.js:165-192 | fails with NotATree on an untagged root, or naming a bad leaf. It passes if and only if the schema is well-formed. Then every leaf slot is built, all other slots are empty, STAGED equals SOURCE, and the invariant holds |
| `ReduxTree.TreeStore.ReduceWithTree` | src/index.js:195-247 | RESET applies Reset, COMMIT applies Commit, and neither touches a box. REDUCE_AT_PATH runs the relay of the addressed node-store. Each keeps the store invariant |
| `ReduxTree.TreeStore.GetState` | src/index.js:269-276 | returns SOURCE's VALUE at the path, and fails with InvalidPath if and only if there is none |
| `ReduxTree.TreeStore.Dispatch` | src/index.js:286-302 | fails if and only if SOURCE has no STORE at the path, and then nothing changes. Otherwise it returns the action unchanged, sets the leaf's box to reducer(box, action), and makes a leaf write that reaches SOURCE only with the flag off. Only a transactional dispatch adds the path to the ghost set of paths where STAGED may differ from SOURCE |
| `ReduxTree.TreeStore.ReplaceReducer` | src/index.js:318-324 | fails if and only if there is no STORE at the path. Otherwise it swaps that node-store's reducer, re-runs it on the box with the init action, and writes the result to both trees |
| `ReduxTree.TreeStore.Reset` | src/index.js:351-353 | STAGED becomes SOURCE; SOURCE and every box are unchanged; returns the RESET action |
| `ReduxTree.TreeStore.Commit` | src/index.js:364-366 | both trees become the deep merge; boxes are unchanged; returns the COMMIT action |
| `ReduxTree.TreeStore.Transaction` | src/index.js:355-362 | with no argument it reads the flag without changing it. With one, it sets the flag to the argument's truthiness. Either way it returns the flag |
| `ReduxTree.CreateStoreFromTree` | src/index.js:249-257 | build fidelity: succeeds if and only if the root is tagged and well-formed. The new store is outside a transaction, STAGED equals SOURCE, and every leaf p has VALUE reducer(undefined, init) and a node-store |

## Left out

- `subscribe`, `observable` and `getTree` (lines 304-349): these register listeners and hand out the tree. No store state changes. The redux listener notifications of every dispatch are left out for the same reason.
- Nested tagged sub-trees (lines 130-133): the schema has no constructor for a tagged tree inside another. How such a tree behaves depends on cursor behaviour that is not visible, so only plain containers are modelled.
- ReduxTree.TreeStore.Convert: visits a container's children in an unspecified order, while the source follows the insertion order of the underlying map. When several leaves are bad, the model says only that the named path is one of them.
- ReduxTree.TreeStore.Build: inherits that unspecified order from `Convert`, so its failure names one bad leaf, not necessarily the first in insertion order.
- ReduxTree.CreateStoreFromTree: inherits the same unspecified order through `Build`.
- Error message text, and the partial state left behind by a failed build (the facade is never returned).
- The persistent map and cursor internals (structural sharing, `updateIn` defaults, change notification). Trees are maps from paths to slots, and `mergeDeep` stops at leaf slots. When a reducer's state is itself an immutable collection, the source merges inside it, so keys removed in STAGED survive in SOURCE. VALUEs are opaque here, so that case is not modelled.
- The top-level node-store's own creation dispatch: it matches no case of `reduceWithTree` and changes nothing.
- ReduxTree.TreeStore.ReplaceReducer: one `initAction` stands for both the action a node-store dispatches on creation and the one it dispatches on a reducer swap. Some redux versions use two different action types.
- ReduxTree.TreeStore.ReplaceReducer: the source writes the same node-store back into the STORE slot. The model treats that write as no change. It also assumes that this write-back (lines 320-321), which runs after the callback, keeps the VALUE the relay wrote at line 83 during that callback. If the cursor update instead stored a slot taken from before the callback, SOURCE would keep the old VALUE; that behaviour of the cursor library is not modelled. A missing store there raises a TypeError (a method call on `undefined`); the model returns `InvalidPath`. The source also does not check that the new reducer is a function, as the build does at line 139. A non-function is wrapped and installed, and the re-run throws a TypeError at `reducer.call` (line 80), leaving the node-store in whatever state redux leaves it. The parameter is typed as a function here, so that error path cannot be expressed.
- ReduxTree.CreateStoreFromTree: the build rewrites the caller's tree in place. SOURCE is the caller's own tree object (lines 171-173), the walk replaces its leaves with `{VALUE, STORE}` maps through cursors rooted at it (lines 144-153, 184), and the facade reads SOURCE through the caller's variable (lines 271, 288, 319). As a result a tagged tree can be built only once: a second `createStore` on the same tree throws at line 139, since every STORE slot then holds a redux store, which is neither a function nor an immutable collection. Here `Root` is a value, so the model can build the same root any number of times.
- ReduxTree.TreeStore.GetState: `notSetValue` is dropped. It is consulted only after the slot's existence is checked.
- Key paths are sequences only. The source also accepts a single key for a one-key path.
- ReduxTree.TreeStore.Dispatch: the second check, that the deref'd store is not `NOT_SET` (line 297), cannot fail once the slot exists, so it is not modelled separately.
- ReduxTree.TreeStore.Transaction: its argument is the truthiness of the JavaScript value passed (`None` when omitted or `undefined`, as the default parameter makes it), not the value itself.
