/** Ordered key/value collections.

    Three things in the system are sequences of (key, value) pairs: the stream of
    `emit(key, value)` calls a map function makes, the documents of a map/reduce
    output collection (`{_id: key, value: ...}`), and the fields of an entity's
    `tags` sub-document. All three keep their order, so they are modelled as
    sequences of entries rather than as maps. */
module Collections {

  datatype Option<T> = None | Some(value: T)

  /** One `emit(key, value)` call, one output document, or one field. */
  datatype Entry<K, V> = Entry(key: K, value: V)

  predicate HasKey<K(==), V>(c: seq<Entry<K, V>>, k: K)
  {
    exists i :: 0 <= i < |c| && c[i].key == k
  }

  ghost predicate DistinctKeys<K, V>(c: seq<Entry<K, V>>)
  {
    forall i, j :: 0 <= i < j < |c| ==> c[i].key != c[j].key
  }

  /** Position of the first entry with key `k`. */
  function IndexOf<K(==), V>(c: seq<Entry<K, V>>, k: K): (r: Option<nat>)
    ensures r.Some? ==> r.value < |c| && c[r.value].key == k
    ensures r.Some? ==> forall i :: 0 <= i < r.value ==> c[i].key != k
    ensures r.None? <==> !HasKey(c, k)
  {
    if c == [] then None
    else if c[0].key == k then Some(0)
    else
      match IndexOf(c[1..], k)
      case None =>
        assert forall i :: 0 < i < |c| ==> c[i] == c[1..][i - 1];
        None
      case Some(i) => Some(i + 1)
  }

  /** The value stored under `k`, if any (`find_one({_id: k})`, or `doc[k]`). */
  function Lookup<K(==), V>(c: seq<Entry<K, V>>, k: K): (r: Option<V>)
    ensures r.Some? <==> HasKey(c, k)
    ensures DistinctKeys(c) ==>
      forall i :: 0 <= i < |c| && c[i].key == k ==> r == Some(c[i].value)
  {
    match IndexOf(c, k)
    case None => None
    case Some(i) => Some(c[i].value)
  }

  /** Sets the value under `k`: replaced in place when the key is present,
      appended as a new last entry otherwise. */
  function Put<K(==), V>(c: seq<Entry<K, V>>, k: K, v: V): (r: seq<Entry<K, V>>)
    ensures HasKey(r, k)
    ensures DistinctKeys(c) ==> DistinctKeys(r)
    ensures DistinctKeys(c) ==> Lookup(r, k) == Some(v)
  {
    match IndexOf(c, k)
    case Some(i) =>
      var r := c[i := Entry(k, v)];
      assert r[i].key == k;
      r
    case None =>
      var r := c + [Entry(k, v)];
      assert r[|c|].key == k;
      r
  }

  /** Putting `k` changes what is found under `k` and nothing else. */
  lemma LookupPut<K, V>(c: seq<Entry<K, V>>, k: K, v: V, k': K)
    requires DistinctKeys(c)
    ensures Lookup(Put(c, k, v), k') == if k' == k then Some(v) else Lookup(c, k')
  {
    var r := Put(c, k, v);
    if k' != k {
      if HasKey(c, k') {
        var j :| 0 <= j < |c| && c[j].key == k';
        assert r[j] == c[j];
      }
    }
  }

  /** Putting the value already found under `k` changes nothing. */
  lemma PutSame<K, V>(c: seq<Entry<K, V>>, k: K, v: V)
    requires DistinctKeys(c) && Lookup(c, k) == Some(v)
    ensures Put(c, k, v) == c
  {
    var i := IndexOf(c, k).value;
    assert c[i] == Entry(k, v);
  }

  /** The values emitted under key `k`, in emission order. */
  function ValuesFor<K(==), V>(es: seq<Entry<K, V>>, k: K): (vs: seq<V>)
  {
    if es == [] then []
    else
      var last := es[|es| - 1];
      ValuesFor(es[..|es| - 1], k) + (if last.key == k then [last.value] else [])
  }

  /** Adds one emission to a grouping. */
  function Add<K(==), V>(g: seq<Entry<K, seq<V>>>, e: Entry<K, V>): seq<Entry<K, seq<V>>>
  {
    var old_values := match Lookup(g, e.key) case Some(vs) => vs case None => [];
    Put(g, e.key, old_values + [e.value])
  }

  /** What the map/reduce framework hands to `reduce(key, values)`: one entry
      per distinct emitted key, in the order the keys were first emitted, with
      the values emitted under it in emission order. */
  function Group<K(==), V>(es: seq<Entry<K, V>>): seq<Entry<K, seq<V>>>
  {
    if es == [] then [] else Add(Group(es[..|es| - 1]), es[|es| - 1])
  }

  /** Applies `f` to every value, keeping keys and order. */
  function MapValues<K, V, W>(c: seq<Entry<K, V>>, f: V -> W): (r: seq<Entry<K, W>>)
    ensures |r| == |c|
    ensures forall i :: 0 <= i < |c| ==> r[i] == Entry(c[i].key, f(c[i].value))
  {
    seq(|c|, i requires 0 <= i < |c| => Entry(c[i].key, f(c[i].value)))
  }

  lemma MapValuesUpdate<K, V, W>(c: seq<Entry<K, V>>, f: V -> W, i: nat, e: Entry<K, V>)
    requires i < |c|
    ensures MapValues(c[i := e], f) == MapValues(c, f)[i := Entry(e.key, f(e.value))]
  {
  }

  lemma MapValuesAppend<K, V, W>(c: seq<Entry<K, V>>, f: V -> W, e: Entry<K, V>)
    ensures MapValues(c + [e], f) == MapValues(c, f) + [Entry(e.key, f(e.value))]
  {
  }

  lemma HasKeyAppend<K, V>(a: seq<Entry<K, V>>, b: seq<Entry<K, V>>, k: K)
    ensures HasKey(a + b, k) <==> HasKey(a, k) || HasKey(b, k)
  {
    if HasKey(a + b, k) {
      var i :| 0 <= i < |a + b| && (a + b)[i].key == k;
      if i >= |a| { assert b[i - |a|].key == k; }
    }
    if HasKey(a, k) {
      var i :| 0 <= i < |a| && a[i].key == k;
      assert (a + b)[i].key == k;
    }
    if HasKey(b, k) {
      var i :| 0 <= i < |b| && b[i].key == k;
      assert (a + b)[|a| + i].key == k;
    }
  }

  /** Emissions are looked up key by key: concatenating two emission streams
      concatenates the values each key receives. */
  /** A value is among those emitted under `k` exactly when some emission
      pairs it with `k`. */
  lemma {:induction false} ValuesForMember<K, V>(es: seq<Entry<K, V>>, k: K, v: V)
    ensures v in ValuesFor(es, k) <==> Entry(k, v) in es
  {
    if es != [] {
      var p := es[..|es| - 1];
      ValuesForMember(p, k, v);
      assert es == p + [es[|es| - 1]];
    }
  }

  lemma {:induction false} ValuesForAppend<K, V>(a: seq<Entry<K, V>>, b: seq<Entry<K, V>>, k: K)
    ensures ValuesFor(a + b, k) == ValuesFor(a, k) + ValuesFor(b, k)
    decreases |b|
  {
    if b == [] {
      assert a + b == a;
    } else {
      var b' := b[..|b| - 1];
      assert (a + b)[..|a + b| - 1] == a + b';
      ValuesForAppend(a, b', k);
    }
  }

  /** A key receives values exactly when some emission carries it. */
  lemma {:induction false} ValuesForEmpty<K, V>(es: seq<Entry<K, V>>, k: K)
    ensures ValuesFor(es, k) == [] <==> !HasKey(es, k)
  {
    if es != [] {
      var p := es[..|es| - 1];
      ValuesForEmpty(p, k);
      assert es == p + [es[|es| - 1]];
      HasKeyAppend(p, [es[|es| - 1]], k);
    }
  }

  lemma {:induction false} GroupDistinct<K, V>(es: seq<Entry<K, V>>)
    ensures DistinctKeys(Group(es))
  {
    if es != [] {
      GroupDistinct(es[..|es| - 1]);
    }
  }

  /** Grouping is exact: every emitted key gets one entry holding precisely
      the values emitted under it, and no other key gets one. */
  lemma {:induction false} GroupLookup<K, V>(es: seq<Entry<K, V>>, k: K)
    ensures DistinctKeys(Group(es))
    ensures Lookup(Group(es), k) == if HasKey(es, k) then Some(ValuesFor(es, k)) else None
  {
    GroupDistinct(es);
    if es != [] {
      var p, e := es[..|es| - 1], es[|es| - 1];
      var g := Group(p);
      GroupDistinct(p);
      GroupLookup(p, k);
      assert es == p + [e];
      HasKeyAppend(p, [e], k);
      assert HasKey([e], k) <==> e.key == k;
      if e.key == k {
        ValuesForEmpty(p, k);
        var old_values := if HasKey(p, k) then ValuesFor(p, k) else [];
        assert old_values == ValuesFor(p, k);
        assert Group(es) == Put(g, k, old_values + [e.value]);
      } else {
        var old_values := match Lookup(g, e.key) case Some(vs) => vs case None => [];
        assert Group(es) == Put(g, e.key, old_values + [e.value]);
        LookupPut(g, e.key, old_values + [e.value], k);
        assert ValuesFor(es, k) == ValuesFor(p, k);
      }
    }
  }

  /** Two collections with the same keys at the same positions find a key at
      the same position. */
  lemma {:induction false} IndexOfSameKeys<K, V, W>(c: seq<Entry<K, V>>, d: seq<Entry<K, W>>, k: K)
    requires |c| == |d|
    requires forall i :: 0 <= i < |c| ==> c[i].key == d[i].key
    ensures IndexOf(c, k) == IndexOf(d, k)
  {
    if c != [] {
      IndexOfSameKeys(c[1..], d[1..], k);
    }
  }

  /** Reducing every group by `f` is the same as reducing the one value it
      finds for a key. */
  lemma LookupMapValues<K, V, W>(c: seq<Entry<K, V>>, f: V -> W, k: K)
    requires DistinctKeys(c)
    ensures DistinctKeys(MapValues(c, f))
    ensures Lookup(MapValues(c, f), k) ==
      match Lookup(c, k) case None => None case Some(v) => Some(f(v))
  {
    var r := MapValues(c, f);
    IndexOfSameKeys(c, r, k);
  }
}
