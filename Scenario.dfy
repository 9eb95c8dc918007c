/**
 * A client of the store: the schema `{a: counter, b: {c: counter}}`, driven
 * through a transaction, a commit and a reset, using only the facade's contracts.
 */
module Scenario {
  import opened Wrappers
  import opened TreeSchema
  import opened DualTree
  import opened ReduxTree

  /** A JavaScript value as a counter sees it. */
  datatype JsValue = Undefined | Int(n: int)

  /** `counter(state = 0, action) = action === "INC" ? state + 1 : state` */
  function Counter(state: JsValue, action: string): JsValue
  {
    var n := if state.Int? then state.n else 0;
    Int(if action == "INC" then n + 1 else n)
  }

  /** The store built from `{a: counter, b: {c: counter}}`. */
  method NewCounterStore() returns (store: TreeStore<JsValue, string>)
    ensures fresh(store) && store.Valid() && !store.isTransaction && store.staged == store.source
    ensures CounterAt(store, ["a"], 0, 0, 0) && CounterAt(store, ["b", "c"], 0, 0, 0)
    ensures ["b"] !in store.source.stores
  {
    var inner := Container(map["c" := Leaf(Counter)]);
    var schema := Container(map["a" := Leaf(Counter), "b" := inner]);
    LeafWellFormed(Counter);
    ContainerWellFormed(map["c" := Leaf(Counter)]);
    ContainerWellFormed(map["a" := Leaf(Counter), "b" := inner]);
    var created := CreateStoreFromTree(Tagged(schema), Undefined, "@@redux/INIT");
    store := created.value;
    assert LeafAt(schema, ["a"]) == Some(Counter) by {
      assert Sub(schema, ["a"]) == Sub(Leaf(Counter), []);
    }
    assert LeafAt(schema, ["b", "c"]) == Some(Counter) by {
      assert Sub(schema, ["b", "c"]) == Sub(inner, ["c"]) == Sub(Leaf(Counter), []);
    }
    assert LeafAt(schema, ["b"]).None? by {
      assert Sub(schema, ["b"]) == Sub(inner, []);
    }
    assert store.SlotAt(["a"]) == store.BuiltSlot(["a"], Counter);
    assert store.SlotAt(["b", "c"]) == store.BuiltSlot(["b", "c"], Counter);
    assert store.SlotAt(["b"]) == Slot(None, None, None, None);
    assert store.staged == store.source;
  }

  /** The counter at `p`: its SOURCE value, its STAGED value and its node-store's box. */
  ghost predicate CounterAt(store: TreeStore<JsValue, string>, p: Path, src: int, stg: int, box: int)
    reads store
  {
    && Lookup(store.source.values, p) == Some(Int(src))
    && Lookup(store.staged.values, p) == Some(Int(stg))
    && Lookup(store.source.stores, p) == Some(Handle(p))
    && Lookup(store.boxes, Handle(p)) == Some(Int(box))
    && Lookup(store.reducers, Handle(p)) == Some(Counter)
  }

  /** A transactional increment of `a` is invisible until commit. */
  method TransactionThenCommit(store: TreeStore<JsValue, string>)
    requires store.Valid() && !store.isTransaction
    requires CounterAt(store, ["a"], 0, 0, 0) && CounterAt(store, ["b", "c"], 0, 0, 0)
    modifies store
    ensures store.source.stores == old(store.source.stores)
    ensures store.Valid() && store.isTransaction
    ensures CounterAt(store, ["a"], 1, 1, 1) && CounterAt(store, ["b", "c"], 0, 0, 0)
  {
    var flag := store.Transaction(Some(true));
    var sent := store.Dispatch(["a"], "INC");
    assert sent == Success("INC");
    var a := store.GetState(["a"]);
    assert a == Success(Int(0));
    CommitIsReplace(store.Trees());
    var done := store.Commit();
    a := store.GetState(["a"]);
    assert a == Success(Int(1));
  }

  /** A reset discards a transactional write from the trees, but not from the node-store's box. */
  method TransactionThenReset(store: TreeStore<JsValue, string>)
    requires store.Valid() && store.isTransaction
    requires CounterAt(store, ["b", "c"], 0, 0, 0)
    modifies store
    ensures store.source.stores == old(store.source.stores)
    ensures store.Valid() && store.isTransaction
    ensures CounterAt(store, ["b", "c"], 0, 0, 1)
  {
    var sent := store.Dispatch(["b", "c"], "INC");
    var discarded := store.Reset();
    var bc := store.GetState(["b", "c"]);
    assert bc == Success(Int(0));
  }

  /** The next write starts from the box; a reset does not undo a non-transactional write. */
  method WriteThenReset(store: TreeStore<JsValue, string>)
    requires store.Valid() && store.isTransaction
    requires CounterAt(store, ["b", "c"], 0, 0, 1)
    modifies store
    ensures store.source.stores == old(store.source.stores)
    ensures store.Valid() && !store.isTransaction
    ensures CounterAt(store, ["b", "c"], 2, 2, 2)
  {
    var flag := store.Transaction(Some(false));
    var sent := store.Dispatch(["b", "c"], "INC");
    var bc := store.GetState(["b", "c"]);
    assert bc == Success(Int(2));
    var discarded := store.Reset();
    bc := store.GetState(["b", "c"]);
    assert bc == Success(Int(2));
  }

  method CounterScenario()
  {
    var store := NewCounterStore();
    var a := store.GetState(["a"]);
    assert a == Success(Int(0));
    var bc := store.GetState(["b", "c"]);
    assert bc == Success(Int(0));
    TransactionThenCommit(store);
    TransactionThenReset(store);
    WriteThenReset(store);
    // a path with no node-store is refused
    var sent := store.Dispatch(["b"], "INC");
    assert sent == Failure(InvalidPath(["b"]));
  }
}
