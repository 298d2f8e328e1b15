/** The map/reduce framework both stages run on.

    A job maps every input document to a stream of `emit(key, value)` calls,
    then writes one output document per distinct key. Conceptually the value
    of that document is `reduce(key, values)` over all the values emitted
    under the key (`Reduced`). The framework may instead work incrementally:
    it stores a key's first value as it is, without calling `reduce`, and
    folds later values in by reducing the stored value together with the new
    one (`Store`, `Folded`). The order of keys and of values fixed here is
    one the server may choose, not one it promises. The two agree when the reduce function may be
    applied again to its own output, which the framework requires of every
    reduce function (`ReReducible`). */
module MapReduce {
  import opened Collections

  /** The output collection conceptually: group, then reduce each group. */
  function Reduced<K(==), V>(es: seq<Entry<K, V>>, reduce: seq<V> -> V): seq<Entry<K, V>>
  {
    MapValues(Group(es), reduce)
  }

  /** The output collection after one more emission: the stored value is
      reduced together with the new one, or the new value is stored as it is
      when its key is new. */
  function Store<K(==), V>(out: seq<Entry<K, V>>, e: Entry<K, V>, reduce: seq<V> -> V): seq<Entry<K, V>>
  {
    match IndexOf(out, e.key)
    case Some(k) => out[k := Entry(e.key, reduce([out[k].value, e.value]))]
    case None => out + [e]
  }

  /** The output collection the framework builds from a stream of emissions,
      one emission at a time. */
  function Folded<K(==), V>(es: seq<Entry<K, V>>, reduce: seq<V> -> V): seq<Entry<K, V>>
  {
    if es == [] then [] else Store(Folded(es[..|es| - 1], reduce), es[|es| - 1], reduce)
  }

  /** What the framework demands of a reduce function: a single value
      reduces to itself, and reducing a partial result together with a
      further value is the same as reducing all the values at once. */
  ghost predicate ReReducible<V(!new)>(reduce: seq<V> -> V)
  {
    && (forall v :: reduce([v]) == v)
    && (forall vs, v :: reduce([reduce(vs), v]) == reduce(vs + [v]))
  }

  /** Storing one more emission into the group-then-reduce result of a
      stream gives the group-then-reduce result of the longer stream. */
  lemma StoreStep<K, V(!new)>(es: seq<Entry<K, V>>, e: Entry<K, V>, reduce: seq<V> -> V)
    requires ReReducible(reduce)
    ensures Reduced(es + [e], reduce) == Store(Reduced(es, reduce), e, reduce)
  {
    var g := Group(es);
    assert (es + [e])[..|es|] == es;
    assert Group(es + [e]) == Add(g, e);
    IndexOfSameKeys(g, Reduced(es, reduce), e.key);
    match IndexOf(g, e.key)
    case Some(k) =>
      var vs := g[k].value + [e.value];
      assert Add(g, e) == g[k := Entry(e.key, vs)];
      MapValuesUpdate(g, reduce, k, Entry(e.key, vs));
    case None =>
      assert Lookup(g, e.key) == None;
      assert [] + [e.value] == [e.value];
      assert Add(g, e) == g + [Entry(e.key, [e.value])];
      MapValuesAppend(g, reduce, Entry(e.key, [e.value]));
  }

  /** The framework's incremental evaluation computes group-then-reduce. */
  lemma {:induction false} FoldedIsReduced<K, V(!new)>(es: seq<Entry<K, V>>, reduce: seq<V> -> V)
    requires ReReducible(reduce)
    ensures Folded(es, reduce) == Reduced(es, reduce)
  {
    if es != [] {
      var p := es[..|es| - 1];
      FoldedIsReduced(p, reduce);
      assert es == p + [es[|es| - 1]];
      StoreStep(p, es[|es| - 1], reduce);
    }
  }

  /** The output holds one document per emitted key, whose value is the
      reduction of exactly the values emitted under that key, in emission
      order; keys never emitted have no document. */
  lemma ReducedLookup<K, V>(es: seq<Entry<K, V>>, reduce: seq<V> -> V, k: K)
    ensures DistinctKeys(Reduced(es, reduce))
    ensures Lookup(Reduced(es, reduce), k) == if HasKey(es, k) then Some(reduce(ValuesFor(es, k))) else None
  {
    GroupLookup(es, k);
    LookupMapValues(Group(es), reduce, k);
  }
}
