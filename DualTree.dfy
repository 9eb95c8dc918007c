/**
 * The store tree: an authoritative SOURCE tree and a speculative STAGED tree
 * addressed by the same key paths. Each tree is kept flattened to its leaf
 * nodes: the VALUE slot and the STORE slot of every leaf path.
 */
module DualTree {
  import opened Wrappers
  import opened TreeSchema

  /**
   * The identity of a leaf's node-store. A node-store is created for exactly
   * one leaf, and its relay writes to the path it was wrapped with.
   */
  datatype Handle = Handle(path: Path)

  /** One persistent tree: the VALUE and the STORE slot of each leaf path. */
  datatype Tree<V> = Tree(values: map<Path, V>, stores: map<Path, Handle>)

  /** The two top-level slots of the store tree. */
  datatype StoreTree<V> = StoreTree(source: Tree<V>, staged: Tree<V>)

  function EmptyTree<V>(): Tree<V>
  {
    Tree(map[], map[])
  }

  function Lookup<K, W>(m: map<K, W>, k: K): Option<W>
  {
    if k in m then Some(m[k]) else None
  }

  /** The tree with `v` in the VALUE slot at `p` (a cursor update at `p`'s VALUE). */
  function SetValue<V>(t: Tree<V>, p: Path, v: V): Tree<V>
  {
    t.(values := t.values[p := v])
  }

  /**
   * A leaf write: `v` always goes to STAGED at `p`, and to SOURCE at `p` only
   * when `toSource` holds. No other slot of either tree changes.
   */
  function WriteAt<V>(st: StoreTree<V>, p: Path, v: V, toSource: bool): (r: StoreTree<V>)
    ensures Lookup(r.staged.values, p) == Some(v)
    ensures Lookup(r.source.values, p) == if toSource then Some(v) else Lookup(st.source.values, p)
    ensures !toSource ==> r.source == st.source
    ensures forall q :: q != p ==>
      Lookup(r.source.values, q) == Lookup(st.source.values, q) &&
      Lookup(r.staged.values, q) == Lookup(st.staged.values, q)
    ensures r.source.stores == st.source.stores && r.staged.stores == st.staged.stores
  {
    StoreTree(if toSource then SetValue(st.source, p, v) else st.source, SetValue(st.staged, p, v))
  }

  /** RESET: STAGED becomes a copy of SOURCE; SOURCE is untouched. */
  function Reset<V>(st: StoreTree<V>): (r: StoreTree<V>)
    ensures r.source == st.source
    ensures r.staged == r.source
  {
    StoreTree(st.source, st.source)
  }

  /**
   * `mergeDeep` on flattened trees: a key-wise union in which the right-hand
   * tree wins at every shared slot and slots only the left one has survive.
   */
  function MergeDeep<V>(s: Tree<V>, t: Tree<V>): (r: Tree<V>)
    ensures r.values.Keys == s.values.Keys + t.values.Keys
    ensures r.stores.Keys == s.stores.Keys + t.stores.Keys
    ensures forall p :: p in t.values ==> r.values[p] == t.values[p]
    ensures forall p :: p in s.values && p !in t.values ==> r.values[p] == s.values[p]
    ensures forall p :: p in t.stores ==> r.stores[p] == t.stores[p]
    ensures forall p :: p in s.stores && p !in t.stores ==> r.stores[p] == s.stores[p]
  {
    Tree(s.values + t.values, s.stores + t.stores)
  }

  /** COMMIT: both trees become SOURCE deep-merged with STAGED. */
  function Commit<V>(st: StoreTree<V>): (r: StoreTree<V>)
    ensures r.source == MergeDeep(st.source, st.staged)
    ensures r.staged == r.source
  {
    var merged := MergeDeep(st.source, st.staged);
    StoreTree(merged, merged)
  }

  /**
   * The two trees have the shape fixed at build time: the same STORE slots,
   * and a VALUE slot exactly at every path that has a STORE slot.
   */
  ghost predicate Shaped<V>(st: StoreTree<V>)
  {
    && st.staged.stores == st.source.stores
    && st.source.values.Keys == st.source.stores.Keys
    && st.staged.values.Keys == st.source.stores.Keys
  }

  /** The two trees agree at every VALUE slot outside `dirty`. */
  ghost predicate Agree<V>(st: StoreTree<V>, dirty: set<Path>)
  {
    forall p :: p in st.source.values && p !in dirty ==>
      p in st.staged.values && st.staged.values[p] == st.source.values[p]
  }

  lemma WriteAtKeepsShape<V>(st: StoreTree<V>, p: Path, v: V, toSource: bool)
    requires Shaped(st) && p in st.source.stores
    ensures Shaped(WriteAt(st, p, v, toSource))
  {
  }

  /**
   * A write to both trees keeps them in agreement; a write to STAGED alone
   * keeps them in agreement everywhere but at the written path.
   */
  lemma WriteAtKeepsAgreement<V>(st: StoreTree<V>, dirty: set<Path>, p: Path, v: V, toSource: bool)
    requires Agree(st, dirty)
    ensures Agree(WriteAt(st, p, v, toSource), if toSource then dirty else dirty + {p})
  {
  }

  /** Reset keeps the shape and leaves the two trees in full agreement. */
  lemma ResetKeepsShapeAndAgrees<V>(st: StoreTree<V>)
    requires Shaped(st)
    ensures Shaped(Reset(st)) && Agree(Reset(st), {})
  {
  }

  /** Commit keeps the shape and leaves the two trees in full agreement. */
  lemma CommitKeepsShapeAndAgrees<V>(st: StoreTree<V>)
    requires Shaped(st)
    ensures Shaped(Commit(st)) && Agree(Commit(st), {})
  {
  }

  /** A second reset changes nothing. */
  lemma ResetIdempotent<V>(st: StoreTree<V>)
    ensures Reset(Reset(st)) == Reset(st)
  {
  }

  /** A second commit with no write in between changes nothing. */
  lemma CommitIdempotent<V>(st: StoreTree<V>)
    ensures Commit(Commit(st)) == Commit(st)
  {
  }

  /**
   * On trees of the built shape, the deep merge of commit is the same as
   * replacing SOURCE by STAGED: STAGED has a slot wherever SOURCE has one.
   */
  lemma CommitIsReplace<V>(st: StoreTree<V>)
    requires Shaped(st)
    ensures Commit(st) == StoreTree(st.staged, st.staged)
  {
  }

  /** One leaf write, as a dispatch performs it. */
  datatype Write<V> = Write(path: Path, value: V, toSource: bool)

  /** The store tree after the writes `ws`, in order. */
  function Run<V>(st: StoreTree<V>, ws: seq<Write<V>>): StoreTree<V>
    decreases |ws|
  {
    if ws == [] then st
    else Run(WriteAt(st, ws[0].path, ws[0].value, ws[0].toSource), ws[1..])
  }

  /** The value of the last write to `p` in `ws`, if any. */
  function LastWrite<V>(ws: seq<Write<V>>, p: Path): Option<V>
    decreases |ws|
  {
    if ws == [] then None
    else
      var later := LastWrite(ws[1..], p);
      if later.Some? then later
      else if ws[0].path == p then Some(ws[0].value)
      else None
  }

  /** The paths that `ws` writes to STAGED alone. */
  function StagedOnly<V>(ws: seq<Write<V>>): set<Path>
  {
    set i | 0 <= i < |ws| && !ws[i].toSource :: ws[i].path
  }

  /** Writes made while the transaction flag is set never reach SOURCE, so a reset undoes them all. */
  lemma {:induction false} ResetUndoesTransaction<V>(st: StoreTree<V>, ws: seq<Write<V>>)
    requires forall i :: 0 <= i < |ws| ==> !ws[i].toSource
    ensures Run(st, ws).source == st.source
    ensures Reset(Run(st, ws)) == Reset(st)
    decreases |ws|
  {
    if ws != [] {
      ResetUndoesTransaction(WriteAt(st, ws[0].path, ws[0].value, ws[0].toSource), ws[1..]);
    }
  }

  /** After any writes, STAGED holds at each path the last value written there. */
  lemma {:induction false} RunStagedIsLastWrite<V>(st: StoreTree<V>, ws: seq<Write<V>>, p: Path)
    ensures Lookup(Run(st, ws).staged.values, p) ==
      if LastWrite(ws, p).Some? then LastWrite(ws, p) else Lookup(st.staged.values, p)
    decreases |ws|
  {
    if ws != [] {
      RunStagedIsLastWrite(WriteAt(st, ws[0].path, ws[0].value, ws[0].toSource), ws[1..], p);
    }
  }

  /** Writes to slots of the built shape keep that shape. */
  lemma {:induction false} RunKeepsShape<V>(st: StoreTree<V>, ws: seq<Write<V>>)
    requires Shaped(st)
    requires forall i :: 0 <= i < |ws| ==> ws[i].path in st.source.stores
    ensures Shaped(Run(st, ws))
    ensures Run(st, ws).source.stores == st.source.stores
    decreases |ws|
  {
    if ws != [] {
      var next := WriteAt(st, ws[0].path, ws[0].value, ws[0].toSource);
      WriteAtKeepsShape(st, ws[0].path, ws[0].value, ws[0].toSource);
      RunKeepsShape(next, ws[1..]);
    }
  }

  /**
   * Agreement invariant: the two trees still agree at every path that no
   * write of `ws` reached in STAGED alone.
   */
  lemma {:induction false} RunKeepsAgreement<V>(st: StoreTree<V>, dirty: set<Path>, ws: seq<Write<V>>)
    requires Agree(st, dirty)
    ensures Agree(Run(st, ws), dirty + StagedOnly(ws))
    decreases |ws|
  {
    if ws != [] {
      var w := ws[0];
      var next := WriteAt(st, w.path, w.value, w.toSource);
      var d := if w.toSource then dirty else dirty + {w.path};
      WriteAtKeepsAgreement(st, dirty, w.path, w.value, w.toSource);
      RunKeepsAgreement(next, d, ws[1..]);
      assert d + StagedOnly(ws[1..]) == dirty + StagedOnly(ws) by {
        forall q | q in StagedOnly(ws[1..]) ensures q in StagedOnly(ws) {
          var i :| 0 <= i < |ws[1..]| && !ws[1..][i].toSource && ws[1..][i].path == q;
          assert ws[i + 1] == ws[1..][i];
        }
        forall q | q in StagedOnly(ws) ensures q in d + StagedOnly(ws[1..]) {
          var i :| 0 <= i < |ws| && !ws[i].toSource && ws[i].path == q;
          if i > 0 {
            assert ws[1..][i - 1] == ws[i];
          }
        }
      }
    }
  }

  /**
   * Commit loses no write: after any mix of transactional and
   * non-transactional writes to built slots, committing makes the last value
   * written at each path authoritative, and leaves the other paths as STAGED had them.
   */
  lemma CommitKeepsEveryWrite<V>(st: StoreTree<V>, ws: seq<Write<V>>, p: Path)
    requires Shaped(st)
    requires forall i :: 0 <= i < |ws| ==> ws[i].path in st.source.stores
    ensures Lookup(Commit(Run(st, ws)).source.values, p) ==
      if LastWrite(ws, p).Some? then LastWrite(ws, p) else Lookup(st.staged.values, p)
  {
    RunKeepsShape(st, ws);
    CommitIsReplace(Run(st, ws));
    RunStagedIsLastWrite(st, ws, p);
  }
}
