/**
 * A store composed of one isolated node-store per schema leaf, with a
 * transactional mode: the facade returned by `createStore(tree, createStore)`.
 * The node-stores' reducing functions are wrapped in a relay that writes each
 * new leaf state into the SOURCE and/or STAGED tree; a top-level controller
 * serialises every tree mutation (reset, commit, reduce-at-path).
 */
module ReduxTree {
  import opened Wrappers
  import opened TreeSchema
  import opened DualTree

  datatype Error =
    | NotATree                 // the root handed to the store was not tagged by `tree`
    | NotAReducer(path: Path)  // a schema leaf that is not a reducing function
    | InvalidPath(path: Path)  // no VALUE (getState) or STORE (dispatch, replaceReducer) slot at the path

  /** The actions of the top-level controller, as the action creators build them. */
  datatype TreeAction<A> =
    | ResetAction
    | CommitAction
    | ReduceAtPathWith(store: Handle, action: A, isTransaction: bool)

  /** What a leaf node-store's wrapped reducer is dispatched. */
  datatype LeafAction<A> =
      /** any action other than REDUCE_AT_PATH: the node-store's own init dispatch */
    | Plain(action: A)
    | ReduceAtPath(action: A, isTransaction: bool)

  /**
   * Everything the store keeps about one path: the VALUE and STORE slots of
   * SOURCE, and the box and reducer of the node-store built for that path.
   */
  datatype Slot<!V, !A> = Slot(value: Option<V>, store: Option<Handle>, box: Option<V>, reducer: Option<Reducer<V, A>>)

  function SlotOf<V, A>(x: Path, src: Tree<V>, boxes: map<Handle, V>, reducers: map<Handle, Reducer<V, A>>): Slot<V, A>
  {
    Slot(Lookup(src.values, x), Lookup(src.stores, x), Lookup(boxes, Handle(x)), Lookup(reducers, Handle(x)))
  }

  class TreeStore<!V, !A> {
    var source: Tree<V>
    var staged: Tree<V>
    /** the box `{v}` of each node-store: its own local state */
    var boxes: map<Handle, V>
    /** the (unwrapped) reducing function each node-store currently runs */
    var reducers: map<Handle, Reducer<V, A>>
    var isTransaction: bool
    /** the paths written to STAGED alone since the last build, reset or commit */
    ghost var dirty: set<Path>

    /** the state a node-store's box starts with: JavaScript's `undefined` */
    const undefined: V
    /** the action a node-store dispatches to itself when it is created or its reducer replaced */
    const initAction: A

    function Trees(): StoreTree<V>
      reads this`source, this`staged
    {
      StoreTree(source, staged)
    }

    function SlotAt(x: Path): Slot<V, A>
      reads this`source, this`boxes, this`reducers
    {
      SlotOf(x, source, boxes, reducers)
    }

    /** The slot of a path whose leaf with reducer `r` has just been built. */
    function BuiltSlot(x: Path, r: Reducer<V, A>): Slot<V, A>
    {
      var v := r(undefined, initAction);
      Slot(Some(v), Some(Handle(x)), Some(v), Some(r))
    }

    /** The slot at `x` once the schema node `o` found there has been converted. */
    function Expected(o: Option<Schema<V, A>>, x: Path, before: Slot<V, A>): Slot<V, A>
    {
      if ReducerOf(o).Some? then BuiltSlot(x, ReducerOf(o).value) else before
    }

    /**
     * The store invariant: both trees have the built shape, agree outside
     * `dirty`, and every STORE slot holds the node-store built for its path.
     */
    ghost predicate Valid()
      reads this`source, this`staged, this`boxes, this`reducers, this`dirty
    {
      && Shaped(Trees())
      && Agree(Trees(), dirty)
      && forall p :: p in source.stores ==>
           source.stores[p] == Handle(p) && Handle(p) in boxes && Handle(p) in reducers
    }

    constructor (undefined: V, initAction: A)
      ensures Valid() && !isTransaction && dirty == {}
      ensures source == EmptyTree() && staged == EmptyTree() && boxes == map[] && reducers == map[]
      ensures this.undefined == undefined && this.initAction == initAction
    {
      source, staged := EmptyTree(), EmptyTree();
      boxes, reducers := map[], map[];
      isTransaction := false;
      dirty := {};
      this.undefined, this.initAction := undefined, initAction;
    }

    /**
     * The relay around node-store `h`'s reducer, run for one dispatch to `h`:
     * the reducer is applied to the node-store's own box, the box is updated,
     * and the new state is written to STAGED at `h.path`, and to SOURCE unless
     * the action is a transactional REDUCE_AT_PATH.
     */
    method Relay(h: Handle, wa: LeafAction<A>)
      requires h in boxes && h in reducers
      modifies this`boxes, this`source, this`staged
      ensures boxes == old(boxes)[h := reducers[h](old(boxes[h]), wa.action)]
      ensures Trees() == WriteAt(old(Trees()), h.path, boxes[h], !(wa.ReduceAtPath? && wa.isTransaction))
    {
      match wa
      case Plain(action) =>
        var v := reducers[h](boxes[h], action);
        boxes := boxes[h := v];
        source := SetValue(source, h.path, v);
        staged := SetValue(staged, h.path, v);
      case ReduceAtPath(action, isTx) =>
        var v := reducers[h](boxes[h], action);
        boxes := boxes[h := v];
        if !isTx {
          source := SetValue(source, h.path, v);
        }
        staged := SetValue(staged, h.path, v);
    }

    /**
     * The build walk over the schema node `s` found at `path`: every leaf
     * gets a fresh node-store, whose init dispatch fills its VALUE slot, and
     * the node-store goes into its STORE slot. The walk stops at the first
     * leaf that is not a reducing function and names its path. STAGED is
     * scratch during the walk, so the contract says nothing about it:
     * `Build` overwrites it with SOURCE afterwards.
     */
    method Convert(s: Schema<V, A>, path: Path) returns (r: Outcome<Error>)
      modifies this`source, this`staged, this`boxes, this`reducers
      decreases s
      ensures r.Fail? ==> r.error.NotAReducer? && IsBad(At(s, path, r.error.path))
      ensures r.Pass? ==> forall x :: !IsBad(At(s, path, x))
      ensures r.Pass? ==> forall x ::
        SlotAt(x) == Expected(At(s, path, x), x, SlotOf(x, old(source), old(boxes), old(reducers)))
    {
      match s
      case Bad =>
        AtNonContainer(s, path, path);
        return Fail(NotAReducer(path));
      case Leaf(reducer) =>
        ghost var src0, boxes0, reducers0 := source, boxes, reducers;
        var h := Handle(path);
        // a new node-store for the wrapped reducer, its box starting undefined,
        reducers := reducers[h := reducer];
        boxes := boxes[h := undefined];
        // which dispatches its init action through the relay
        Relay(h, Plain(initAction));
        var value := boxes[h];
        source := Tree(source.values[path := value], source.stores[path := h]);
        forall x
          ensures !IsBad(At(s, path, x))
          ensures SlotAt(x) == Expected(At(s, path, x), x, SlotOf(x, src0, boxes0, reducers0))
        {
          AtNonContainer(s, path, x);
          if x != path {
            assert Lookup(source.values, x) == Lookup(src0.values, x);
          }
        }
        return Pass;
      case Container(cs) =>
        ghost var src0, boxes0, reducers0 := source, boxes, reducers;
        var keys := cs.Keys;
        ghost var done: set<Key> := {};
        while keys != {}
          invariant keys + done == cs.Keys && keys !! done
          invariant forall x :: !IsBad(AtKeys(cs, done, path, x))
          invariant forall x ::
            SlotAt(x) == Expected(AtKeys(cs, done, path, x), x, SlotOf(x, src0, boxes0, reducers0))
          decreases keys
        {
          var k :| k in keys;
          ghost var src1, boxes1, reducers1 := source, boxes, reducers;
          var o := Convert(cs[k], path + [k]);
          if o.Fail? {
            AtContainer(cs, path, o.error.path);
            AtKeysAdd(cs, cs.Keys - {k}, k, path, o.error.path);
            assert (cs.Keys - {k}) + {k} == cs.Keys;
            return o;
          }
          forall x
            ensures !IsBad(AtKeys(cs, done + {k}, path, x))
            ensures SlotAt(x) == Expected(AtKeys(cs, done + {k}, path, x), x, SlotOf(x, src0, boxes0, reducers0))
          {
            AtKeysAdd(cs, done, k, path, x);
          }
          keys := keys - {k};
          done := done + {k};
        }
        forall x
          ensures !IsBad(At(s, path, x))
          ensures SlotAt(x) == Expected(At(s, path, x), x, SlotOf(x, src0, boxes0, reducers0))
        {
          AtContainer(cs, path, x);
        }
        return Pass;
    }

    /**
     * buildTree: a fresh pair of trees, the build walk from the root, then
     * STAGED set to a snapshot of SOURCE.
     */
    method Build(root: Root<V, A>) returns (r: Outcome<Error>)
      modifies this`source, this`staged, this`boxes, this`reducers, this`dirty
      ensures r.Pass? <==> root.Tagged? && WellFormed(root.schema)
      ensures root.Untagged? ==> r == Fail(NotATree)
      ensures root.Tagged? && r.Fail? ==> r.error.NotAReducer? && IsBad(Sub(root.schema, r.error.path))
      ensures r.Pass? ==> Valid() && staged == source && dirty == {}
      ensures r.Pass? ==> forall p ::
        SlotAt(p) == (if LeafAt(root.schema, p).Some? then BuiltSlot(p, LeafAt(root.schema, p).value)
                      else Slot(None, None, None, None))
    {
      if root.Untagged? {
        return Fail(NotATree);
      }
      source, staged := EmptyTree(), EmptyTree();
      boxes, reducers := map[], map[];
      r := Convert(root.schema, []);
      if r.Fail? {
        AtRoot(root.schema, r.error.path);
        return;
      }
      staged := source;
      dirty := {};
      forall p
        ensures !IsBad(Sub(root.schema, p))
        ensures SlotAt(p) ==
          if LeafAt(root.schema, p).Some? then BuiltSlot(p, LeafAt(root.schema, p).value)
          else Slot(None, None, None, None)
      {
        AtRoot(root.schema, p);
      }
      assert source.values.Keys == source.stores.Keys by {
        forall p ensures p in source.values <==> p in source.stores {
          assert SlotAt(p).value.Some? <==> SlotAt(p).store.Some?;
        }
      }
      forall p | p in source.stores
        ensures source.stores[p] == Handle(p) && Handle(p) in boxes && Handle(p) in reducers
      {
        assert SlotAt(p).store.Some?;
      }
    }

    /** reduceWithTree: the top-level controller, one tree mutation per action. */
    method ReduceWithTree(ta: TreeAction<A>)
      requires Valid()
      requires ta.ReduceAtPathWith? ==> ta.store.path in source.stores
      modifies this`source, this`staged, this`boxes, this`dirty
      ensures Valid()
      ensures ta.ResetAction? ==> Trees() == DualTree.Reset(old(Trees())) && boxes == old(boxes)
      ensures ta.CommitAction? ==> Trees() == DualTree.Commit(old(Trees())) && boxes == old(boxes)
      ensures ta.ReduceAtPathWith? ==>
        && boxes == old(boxes)[ta.store := reducers[ta.store](old(boxes[ta.store]), ta.action)]
        && Trees() == WriteAt(old(Trees()), ta.store.path, boxes[ta.store], !ta.isTransaction)
      ensures !ta.ReduceAtPathWith? ==> dirty == {}
      ensures ta.ReduceAtPathWith? ==>
        dirty == old(dirty) + (if ta.isTransaction then {ta.store.path} else {})
    {
      match ta
      case ResetAction =>
        ResetKeepsShapeAndAgrees(Trees());
        staged := source;
        dirty := {};
      case CommitAction =>
        CommitKeepsShapeAndAgrees(Trees());
        var merged := MergeDeep(source, staged);
        staged := merged;
        source := merged;
        dirty := {};
      case ReduceAtPathWith(h, action, isTx) =>
        WriteAtKeepsShape(Trees(), h.path, reducers[h](boxes[h], action), !isTx);
        WriteAtKeepsAgreement(Trees(), dirty, h.path, reducers[h](boxes[h], action), !isTx);
        Relay(h, ReduceAtPath(action, isTx));
        if isTx {
          dirty := dirty + {h.path};
        }
    }

    /** getState: the VALUE slot of SOURCE at `p`. */
    method GetState(p: Path) returns (r: Result<V, Error>)
      ensures r.Success? <==> p in source.values
      ensures r.Success? ==> r.value == source.values[p]
      ensures r.Failure? ==> r.error == InvalidPath(p)
    {
      if p !in source.values {
        return Failure(InvalidPath(p));
      }
      return Success(source.values[p]);
    }

    /**
     * dispatch: looks up the node-store in SOURCE's STORE slot at `p` and
     * sends it `action` through the controller with the current flag; returns
     * the action. With no store at `p` it fails before writing anything.
     */
    method Dispatch(p: Path, action: A) returns (r: Result<A, Error>)
      requires Valid()
      modifies this`source, this`staged, this`boxes, this`dirty
      ensures Valid()
      ensures r.Success? <==> p in old(source.stores)
      ensures r.Success? ==> r.value == action
      ensures r.Failure? ==> r.error == InvalidPath(p) && Trees() == old(Trees()) && boxes == old(boxes)
      ensures r.Success? ==>
        && boxes == old(boxes)[Handle(p) := reducers[Handle(p)](old(boxes[Handle(p)]), action)]
        && Trees() == WriteAt(old(Trees()), p, boxes[Handle(p)], !isTransaction)
      ensures dirty == old(dirty) + (if isTransaction && r.Success? then {p} else {})
    {
      if p !in source.stores {
        return Failure(InvalidPath(p));
      }
      var store := source.stores[p];
      ReduceWithTree(ReduceAtPathWith(store, action, isTransaction));
      return Success(action);
    }

    /**
     * replaceReducer: the node-store at `p` gets `next` (wrapped in a new
     * relay for the same path) and, as a node-store does on a reducer swap,
     * dispatches its init action, which writes to both trees.
     */
    method ReplaceReducer(p: Path, next: Reducer<V, A>) returns (r: Outcome<Error>)
      requires Valid()
      modifies this`reducers, this`boxes, this`source, this`staged
      ensures Valid()
      ensures r.Pass? <==> p in old(source.stores)
      ensures r.Fail? ==>
        r.error == InvalidPath(p) && Trees() == old(Trees()) && boxes == old(boxes) && reducers == old(reducers)
      ensures r.Pass? ==>
        && reducers == old(reducers)[Handle(p) := next]
        && boxes == old(boxes)[Handle(p) := next(old(boxes[Handle(p)]), initAction)]
        && Trees() == WriteAt(old(Trees()), p, boxes[Handle(p)], true)
    {
      if p !in source.stores {
        return Fail(InvalidPath(p));
      }
      var store := source.stores[p];
      reducers := reducers[store := next];
      WriteAtKeepsShape(Trees(), p, next(boxes[store], initAction), true);
      WriteAtKeepsAgreement(Trees(), dirty, p, next(boxes[store], initAction), true);
      Relay(store, Plain(initAction));
      return Pass;
    }

    /** reset: STAGED discards its divergence; SOURCE and the boxes stay as they are. */
    method Reset() returns (a: TreeAction<A>)
      requires Valid()
      modifies this`source, this`staged, this`boxes, this`dirty
      ensures Valid()
      ensures Trees() == DualTree.Reset(old(Trees())) && boxes == old(boxes)
      ensures a == ResetAction
      ensures dirty == {}
    {
      a := ResetAction;
      ReduceWithTree(a);
    }

    /** commit: both trees become SOURCE deep-merged with STAGED. */
    method Commit() returns (a: TreeAction<A>)
      requires Valid()
      modifies this`source, this`staged, this`boxes, this`dirty
      ensures Valid()
      ensures Trees() == DualTree.Commit(old(Trees())) && boxes == old(boxes)
      ensures a == CommitAction
      ensures dirty == {}
    {
      a := CommitAction;
      ReduceWithTree(a);
    }

    /**
     * transaction: with no argument, reads the flag; with one, sets the flag
     * to its truthiness. Either way returns the flag.
     */
    method Transaction(newValue: Option<bool>) returns (r: bool)
      modifies this`isTransaction
      ensures isTransaction == if newValue.Some? then newValue.value else old(isTransaction)
      ensures r == isTransaction
    {
      if newValue.Some? {
        isTransaction := newValue.value;
      }
      return isTransaction;
    }
  }

  /**
   * createStore: builds the trees from `root`; the facade starts outside any
   * transaction. Fails exactly when the root is untagged or some leaf is not
   * a reducing function.
   */
  method CreateStoreFromTree<V, A>(root: Root<V, A>, undefined: V, initAction: A)
    returns (r: Result<TreeStore<V, A>, Error>)
    ensures r.Success? <==> root.Tagged? && WellFormed(root.schema)
    ensures root.Untagged? ==> r == Failure(NotATree)
    ensures root.Tagged? && r.Failure? ==> r.error.NotAReducer? && IsBad(Sub(root.schema, r.error.path))
    ensures r.Success? ==> fresh(r.value)
    ensures r.Success? ==> r.value.undefined == undefined && r.value.initAction == initAction
    ensures r.Success? ==> r.value.Valid() && !r.value.isTransaction && r.value.staged == r.value.source
    ensures r.Success? ==> r.value.dirty == {}
    ensures r.Success? ==> forall p ::
      r.value.SlotAt(p) == (if LeafAt(root.schema, p).Some? then r.value.BuiltSlot(p, LeafAt(root.schema, p).value)
                            else Slot(None, None, None, None))
  {
    var store := new TreeStore(undefined, initAction);
    var o := store.Build(root);
    if o.Fail? {
      return Failure(o.error);
    }
    return Success(store);
  }
}
