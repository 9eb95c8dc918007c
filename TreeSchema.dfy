/**
 * The schema descriptor handed to the store: a nested keyed structure whose
 * leaves must be reducing functions, and the paths that address it.
 */
module TreeSchema {
  import opened Wrappers

  type Key = string

  /** A key path: the only way the facade addresses a node. */
  type Path = seq<Key>

  /** A reducing function `(state, action) -> state`. */
  type Reducer<!V, !A> = (V, A) -> V

  datatype Schema<!V, !A> =
    | Leaf(reducer: Reducer<V, A>)
    | Container(children: map<Key, Schema<V, A>>)
      /** any leaf value that is not a function (a number, a string, null, ...) */
    | Bad

  /**
   * What the store is created from. `tree(obj)` tags a plain nested object as a
   * composable schema; any other object handed to the store is `Untagged`.
   */
  datatype Root<!V, !A> = Tagged(schema: Schema<V, A>) | Untagged

  /** The sub-schema at relative path `q`, if `q` addresses one. */
  function Sub<V, A>(s: Schema<V, A>, q: Path): Option<Schema<V, A>>
    decreases q
  {
    if q == [] then Some(s)
    else match s
      case Container(cs) => if q[0] in cs then Sub(cs[q[0]], q[1..]) else None
      case _ => None
  }

  /** The sub-schema of `s` found at the full path `x`, when `s` itself sits at `path`. */
  function At<V, A>(s: Schema<V, A>, path: Path, x: Path): Option<Schema<V, A>>
  {
    if |path| <= |x| && x[..|path|] == path then Sub(s, x[|path|..]) else None
  }

  /** The reducer of the leaf found at `o`, if `o` is a leaf. */
  function ReducerOf<V, A>(o: Option<Schema<V, A>>): Option<Reducer<V, A>>
  {
    if o.Some? && o.value.Leaf? then Some(o.value.reducer) else None
  }

  predicate IsBad<V, A>(o: Option<Schema<V, A>>)
  {
    o.Some? && o.value.Bad?
  }

  /** The reducer of the schema leaf at path `p`, if there is one. */
  function LeafAt<V, A>(s: Schema<V, A>, p: Path): Option<Reducer<V, A>>
  {
    ReducerOf(Sub(s, p))
  }

  /** A schema every leaf of which is a reducing function. */
  ghost predicate WellFormed<V, A>(s: Schema<V, A>)
  {
    forall p :: !IsBad(Sub(s, p))
  }

  /** Seen from the root, `At` is `Sub`. */
  lemma AtRoot<V, A>(s: Schema<V, A>, x: Path)
    ensures At(s, [], x) == Sub(s, x)
  {
  }

  /** A leaf (or a bad leaf) has nothing below it: only its own path finds it. */
  lemma AtNonContainer<V, A>(s: Schema<V, A>, path: Path, x: Path)
    requires !s.Container?
    ensures At(s, path, x) == if x == path then Some(s) else None
  {
  }

  /**
   * The part of a container at `path` reached through the children named in
   * `keys`: the sub-schema at `x` if `x` goes through one of them.
   */
  function AtKeys<V, A>(cs: map<Key, Schema<V, A>>, keys: set<Key>, path: Path, x: Path): Option<Schema<V, A>>
  {
    if |path| < |x| && x[..|path|] == path && x[|path|] in keys && x[|path|] in cs
    then At(cs[x[|path|]], path + [x[|path|]], x)
    else None
  }

  /** A container is found at its own path; everything else below it is found through a child. */
  lemma AtContainer<V, A>(cs: map<Key, Schema<V, A>>, path: Path, x: Path)
    ensures At(Container(cs), path, x) == if x == path then Some(Container(cs)) else AtKeys(cs, cs.Keys, path, x)
  {
  }

  /** Adding one child to the visited keys adds exactly what that child holds. */
  lemma AtKeysAdd<V, A>(cs: map<Key, Schema<V, A>>, keys: set<Key>, k: Key, path: Path, x: Path)
    requires k in cs && k !in keys
    ensures AtKeys(cs, keys + {k}, path, x) ==
      if At(cs[k], path + [k], x).Some? then At(cs[k], path + [k], x) else AtKeys(cs, keys, path, x)
    ensures At(cs[k], path + [k], x).Some? ==> AtKeys(cs, keys, path, x).None?
  {
  }
  /** A single reducing function is a well-formed schema. */
  lemma LeafWellFormed<V, A>(r: Reducer<V, A>)
    ensures WellFormed(Leaf(r))
  {
  }

  /** A container is well-formed exactly when all its children are. */
  lemma ContainerWellFormed<V, A>(cs: map<Key, Schema<V, A>>)
    ensures WellFormed(Container(cs)) <==> forall k :: k in cs ==> WellFormed(cs[k])
  {
    if forall k :: k in cs ==> WellFormed(cs[k]) {
      forall p ensures !IsBad(Sub(Container(cs), p)) {
        if p != [] && p[0] in cs {
          assert !IsBad(Sub(cs[p[0]], p[1..]));
        }
      }
    }
    if WellFormed(Container(cs)) {
      forall k, q | k in cs ensures !IsBad(Sub(cs[k], q)) {
        assert ([k] + q)[1..] == q;
        assert !IsBad(Sub(Container(cs), [k] + q));
      }
    }
  }
}
