/** The inversion stage, `EntityGrouper#invert_entities` (lib/rugroupy/group.rb).

    A map/reduce job over the entity collection. The map function emits
    `{tag, value} -> {entities: [id]}` for every value of every included tag
    of a document, then lets the dynamic-tag function emit more; the reduce
    function concatenates the entity lists that share a key. The output is
    the inverted collection: one record per (tag, value) key. */
module Inversion {
  import opened Collections
  import opened Documents
  import opened MapReduce

  /** One `emit({tag: t, value: z}, {entities: ids})` call. */
  type InvEmit = Entry<InvKey, seq<Id>>

  /** One record of the inverted collection. */
  type InvRecord = Entry<InvKey, seq<Id>>

  /** The caller's dynamic-tag function: extra emissions derived from a
      whole document. */
  type DynamicTags = Doc -> seq<InvEmit>

  /** The default include function, `function(tag) { return true; }`. */
  function IncludeAll(tag: Tag): bool { true }

  /** The default dynamic-tag function, `function(doc) {}`. */
  function NoDynamicTags(d: Doc): seq<InvEmit> { [] }

  /** `values.forEach(function(z) { emit({tag: tag, value: z}, {entities: [id]}); })` */
  function ValueEmits(id: Id, tag: Tag, values: seq<Value>): seq<InvEmit>
  {
    if values == [] then []
    else ValueEmits(id, tag, values[..|values| - 1]) + [Entry(InvKey(tag, values[|values| - 1]), [id])]
  }

  /** The static pass over the fields of `tags`, skipping excluded tags. */
  function StaticEmits(id: Id, fields: Tags, included: Tag -> bool): seq<InvEmit>
  {
    if fields == [] then []
    else
      var f := fields[|fields| - 1];
      StaticEmits(id, fields[..|fields| - 1], included)
        + (if included(f.key) then ValueEmits(id, f.key, f.value) else [])
  }

  /** Everything the map function emits for one document: nothing when the
      document has no `tags` field, else the static pass followed by the
      dynamic-tag function's emissions. */
  function DocEmits(d: Doc, included: Tag -> bool, dynamicTags: DynamicTags): seq<InvEmit>
  {
    match d.tags
    case None => []
    case Some(fields) => StaticEmits(d.id, fields, included) + dynamicTags(d)
  }

  /** The emissions of the map function over the collection, in scan order. */
  function MapPhase(docs: seq<Doc>, included: Tag -> bool, dynamicTags: DynamicTags): seq<InvEmit>
  {
    if docs == [] then []
    else DocEmits(docs[0], included, dynamicTags) + MapPhase(docs[1..], included, dynamicTags)
  }

  /** What the reduce function computes from a key's values: the entity
      lists concatenated in order. */
  function Concat(lists: seq<seq<Id>>): seq<Id>
  {
    if lists == [] then [] else Concat(lists[..|lists| - 1]) + lists[|lists| - 1]
  }

  /** The inverted collection `invert_entities` writes for a snapshot of the
      entity collection. */
  function Inverted(docs: seq<Doc>, included: Tag -> bool, dynamicTags: DynamicTags): seq<InvRecord>
  {
    Reduced(MapPhase(docs, included, dynamicTags), Concat)
  }

  /** Whether `x` is in the entity list of the inverted record for `k`. */
  predicate Lists(inverted: seq<InvRecord>, k: InvKey, x: Id)
  {
    match Lookup(inverted, k)
    case Some(ids) => x in ids
    case None => false
  }

  /** Whether document `d` holds value `z` under an included tag `t`. */
  ghost predicate Carries(d: Doc, included: Tag -> bool, t: Tag, z: Value)
  {
    && d.tags.Some?
    && included(t)
    && FieldHolds(d.tags.value, t, z)
  }

  // ---------------------------------------------------------------------
  // The map and reduce functions, and the job that runs them.

  /** The map function, run on one document. */
  method MapEntity(d: Doc, included: Tag -> bool, dynamicTags: DynamicTags) returns (es: seq<InvEmit>)
    ensures es == DocEmits(d, included, dynamicTags)
  {
    es := [];
    if d.tags.Some? {
      var fields := d.tags.value;
      for t := 0 to |fields|
        invariant es == StaticEmits(d.id, fields[..t], included)
      {
        assert fields[..t + 1][..t] == fields[..t];
        var tag := fields[t].key;
        if included(tag) {
          var values := fields[t].value;
          for v := 0 to |values|
            invariant es == StaticEmits(d.id, fields[..t], included) + ValueEmits(d.id, tag, values[..v])
          {
            assert values[..v + 1][..v] == values[..v];
            es := es + [Entry(InvKey(tag, values[v]), [d.id])];
          }
          assert values[..|values|] == values;
        }
      }
      assert fields[..|fields|] == fields;
      es := es + dynamicTags(d);
    }
  }

  /** The reduce function: pushes every entity id of every value, in order. */
  method ReduceEntities(values: seq<seq<Id>>) returns (result: seq<Id>)
    ensures result == Concat(values)
  {
    result := [];
    for i := 0 to |values|
      invariant result == Concat(values[..i])
    {
      assert values[..i + 1][..i] == values[..i];
      var entities := values[i];
      for j := 0 to |entities|
        invariant result == Concat(values[..i]) + entities[..j]
      {
        result := result + [entities[j]];
      }
      assert entities[..|entities|] == entities;
    }
    assert values[..|values|] == values;
  }

  /** Stores one emission, calling the reduce function when its key is
      already present. */
  method MergeEmission(inverted: seq<InvRecord>, e: InvEmit) returns (merged: seq<InvRecord>)
    ensures merged == Store(inverted, e, Concat)
  {
    match IndexOf(inverted, e.key)
    case Some(k) =>
      var entities := ReduceEntities([inverted[k].value, e.value]);
      merged := inverted[k := Entry(e.key, entities)];
    case None =>
      merged := inverted + [Entry(e.key, e.value)];
  }

  /** Stores the emissions of one map call, in order. */
  method MergeEmissions(inverted: seq<InvRecord>, ghost emitted: seq<InvEmit>, es: seq<InvEmit>)
    returns (merged: seq<InvRecord>)
    requires inverted == Folded(emitted, Concat)
    ensures merged == Folded(emitted + es, Concat)
  {
    merged := inverted;
    assert emitted + es[..0] == emitted;
    for j := 0 to |es|
      invariant merged == Folded(emitted + es[..j], Concat)
    {
      ghost var before := emitted + es[..j];
      merged := MergeEmission(merged, es[j]);
      assert emitted + es[..j + 1] == before + [es[j]];
    }
    assert es[..|es|] == es;
  }

  /** The whole job: maps every document and stores each emission as it
      comes. The result is the inverted collection: group-then-reduce over
      all the emissions of the scan. */
  method InvertEntities(docs: seq<Doc>, included: Tag -> bool, dynamicTags: DynamicTags)
    returns (inverted: seq<InvRecord>)
    ensures inverted == Inverted(docs, included, dynamicTags)
  {
    inverted := [];
    ghost var emitted: seq<InvEmit> := [];
    for i := 0 to |docs|
      invariant emitted == MapPhase(docs[..i], included, dynamicTags)
      invariant inverted == Folded(emitted, Concat)
    {
      var es := MapEntity(docs[i], included, dynamicTags);
      inverted := MergeEmissions(inverted, emitted, es);
      emitted := emitted + es;
      MapPhaseStep(docs, i, included, dynamicTags);
    }
    assert docs[..|docs|] == docs;
    ConcatReReducible();
    FoldedIsReduced(emitted, Concat);
  }

  // ---------------------------------------------------------------------
  // Properties of the reduce function.

  function TotalLength(lists: seq<seq<Id>>): nat
  {
    if lists == [] then 0 else TotalLength(lists[..|lists| - 1]) + |lists[|lists| - 1]|
  }

  /** How many times `x` occurs across all the lists. */
  function Occurrences(lists: seq<seq<Id>>, x: Id): nat
  {
    if lists == [] then 0 else Occurrences(lists[..|lists| - 1], x) + multiset(lists[|lists| - 1])[x]
  }

  /** The reduce result keeps every entry: its length is the sum of the
      lengths, and each id occurs as often as in all inputs together (no
      duplicate is removed). */
  lemma {:induction false} ConcatKeepsEverything(lists: seq<seq<Id>>, x: Id)
    ensures |Concat(lists)| == TotalLength(lists)
    ensures multiset(Concat(lists))[x] == Occurrences(lists, x)
  {
    if lists != [] {
      ConcatKeepsEverything(lists[..|lists| - 1], x);
    }
  }

  /** The reduce result lists exactly the ids of its inputs. */
  lemma {:induction false} ConcatMember(lists: seq<seq<Id>>, x: Id)
    ensures x in Concat(lists) <==> exists l :: l in lists && x in l
  {
    if lists != [] {
      var p := lists[..|lists| - 1];
      ConcatMember(p, x);
      assert lists == p + [lists[|lists| - 1]];
    }
  }

  lemma {:induction false} ConcatAppend(a: seq<seq<Id>>, b: seq<seq<Id>>)
    ensures Concat(a + b) == Concat(a) + Concat(b)
    decreases |b|
  {
    if b == [] {
      assert a + b == a;
    } else {
      var b' := b[..|b| - 1];
      assert (a + b)[..|a + b| - 1] == a + b';
      ConcatAppend(a, b');
    }
  }

  /** The reduce function may be applied again to its own output, as
      map/reduce requires. */
  lemma ConcatReReducible()
    ensures ReReducible(Concat)
  {
    forall v: seq<Id> ensures Concat([v]) == v {
      assert [v][..0] == [];
    }
    forall vs: seq<seq<Id>>, v: seq<Id> ensures Concat([Concat(vs), v]) == Concat(vs + [v]) {
      var x := Concat(vs);
      assert [x, v][..1] == [x];
      assert [x][..0] == [];
      assert (vs + [v])[..|vs|] == vs;
    }
  }

  // ---------------------------------------------------------------------
  // Which documents end up in which inverted record.

  lemma {:induction false} ValueEmitsMember(id: Id, t: Tag, values: seq<Value>, e: InvEmit)
    ensures e in ValueEmits(id, t, values) <==> e.key.tag == t && e.key.value in values && e.value == [id]
  {
    if values != [] {
      var p := values[..|values| - 1];
      ValueEmitsMember(id, t, p, e);
      assert values == p + [values[|values| - 1]];
    }
  }

  /** Whether some field of `fields` named `t` holds value `z`. */
  ghost predicate FieldHolds(fields: Tags, t: Tag, z: Value)
  {
    exists f :: 0 <= f < |fields| && fields[f].key == t && z in fields[f].value
  }

  lemma FieldHoldsAppend(p: Tags, last: Entry<Tag, seq<Value>>, t: Tag, z: Value)
    ensures FieldHolds(p + [last], t, z) <==> FieldHolds(p, t, z) || (last.key == t && z in last.value)
  {
    var fields := p + [last];
    if FieldHolds(fields, t, z) {
      var f :| 0 <= f < |fields| && fields[f].key == t && z in fields[f].value;
      if f < |p| { assert p[f] == fields[f]; }
    }
    if FieldHolds(p, t, z) {
      var f :| 0 <= f < |p| && p[f].key == t && z in p[f].value;
      assert fields[f] == p[f];
    }
    assert fields[|p|] == last;
  }

  lemma {:induction false} StaticEmitsMember(id: Id, fields: Tags, included: Tag -> bool, e: InvEmit)
    ensures e in StaticEmits(id, fields, included) <==>
      e.value == [id] && included(e.key.tag) && FieldHolds(fields, e.key.tag, e.key.value)
  {
    if fields != [] {
      var p, last := fields[..|fields| - 1], fields[|fields| - 1];
      StaticEmitsMember(id, p, included, e);
      ValueEmitsMember(id, last.key, last.value, e);
      assert fields == p + [last];
      FieldHoldsAppend(p, last, e.key.tag, e.key.value);
    }
  }

  lemma {:induction false} MapPhaseAppend(a: seq<Doc>, b: seq<Doc>, included: Tag -> bool, dynamicTags: DynamicTags)
    ensures MapPhase(a + b, included, dynamicTags) == MapPhase(a, included, dynamicTags) + MapPhase(b, included, dynamicTags)
  {
    if a == [] {
      assert a + b == b;
    } else {
      assert (a + b)[1..] == a[1..] + b;
      MapPhaseAppend(a[1..], b, included, dynamicTags);
    }
  }

  /** The map phase over one more document. */
  lemma MapPhaseStep(docs: seq<Doc>, i: nat, included: Tag -> bool, dynamicTags: DynamicTags)
    requires i < |docs|
    ensures MapPhase(docs[..i + 1], included, dynamicTags) == MapPhase(docs[..i], included, dynamicTags) + DocEmits(docs[i], included, dynamicTags)
  {
    var d := docs[i];
    assert docs[..i + 1] == docs[..i] + [d];
    MapPhaseAppend(docs[..i], [d], included, dynamicTags);
    assert [d][1..] == [];
  }

  lemma {:induction false} MapPhaseMember(docs: seq<Doc>, included: Tag -> bool, dynamicTags: DynamicTags, e: InvEmit)
    ensures e in MapPhase(docs, included, dynamicTags) <==>
      exists i :: 0 <= i < |docs| && e in DocEmits(docs[i], included, dynamicTags)
  {
    if docs != [] {
      MapPhaseMember(docs[1..], included, dynamicTags, e);
      if exists i :: 0 <= i < |docs| && e in DocEmits(docs[i], included, dynamicTags) {
        var i :| 0 <= i < |docs| && e in DocEmits(docs[i], included, dynamicTags);
        if 0 < i { assert docs[1..][i - 1] == docs[i]; }
      }
      if exists i :: 0 <= i < |docs[1..]| && e in DocEmits(docs[1..][i], included, dynamicTags) {
        var i :| 0 <= i < |docs[1..]| && e in DocEmits(docs[1..][i], included, dynamicTags);
        assert docs[i + 1] == docs[1..][i];
      }
    }
  }

  /** An id is listed under a key exactly when some emission for that key
      carries it. */
  lemma EmittedIsListed(es: seq<InvEmit>, k: InvKey, x: Id)
    ensures Lists(Reduced(es, Concat), k, x) <==> exists e :: e in es && e.key == k && x in e.value
  {
    ReducedLookup(es, Concat, k);
    ValuesForEmpty(es, k);
    ConcatMember(ValuesFor(es, k), x);
    if exists e :: e in es && e.key == k && x in e.value {
      var e :| e in es && e.key == k && x in e.value;
      ValuesForMember(es, k, e.value);
      assert HasKey(es, k) by {
        var i :| 0 <= i < |es| && es[i] == e;
      }
    }
    if Lists(Reduced(es, Concat), k, x) {
      var l :| l in ValuesFor(es, k) && x in l;
      ValuesForMember(es, k, l);
    }
  }

  /** Every value `z` of an included tag `t` of a document with a `tags`
      field puts that document's id into the record for `(t, z)`, whatever the
      dynamic-tag function adds. */
  lemma CarriedValueIsListed(docs: seq<Doc>, included: Tag -> bool, dynamicTags: DynamicTags, i: nat, t: Tag, z: Value)
    requires i < |docs|
    requires Carries(docs[i], included, t, z)
    ensures Lists(Inverted(docs, included, dynamicTags), InvKey(t, z), docs[i].id)
  {
    var d := docs[i];
    var e := Entry(InvKey(t, z), [d.id]);
    StaticEmitsMember(d.id, d.tags.value, included, e);
    MapPhaseMember(docs, included, dynamicTags, e);
    EmittedIsListed(MapPhase(docs, included, dynamicTags), InvKey(t, z), d.id);
  }

  /** With the default dynamic-tag function the converse holds too: an id is
      in the record for `(t, z)` exactly when a document with that id carries
      value `z` under the included tag `t`. */
  lemma InvertedMembership(docs: seq<Doc>, included: Tag -> bool, t: Tag, z: Value, x: Id)
    ensures Lists(Inverted(docs, included, NoDynamicTags), InvKey(t, z), x) <==>
      exists i :: 0 <= i < |docs| && docs[i].id == x && Carries(docs[i], included, t, z)
  {
    var es := MapPhase(docs, included, NoDynamicTags);
    EmittedIsListed(es, InvKey(t, z), x);
    if Lists(Inverted(docs, included, NoDynamicTags), InvKey(t, z), x) {
      var e :| e in es && e.key == InvKey(t, z) && x in e.value;
      MapPhaseMember(docs, included, NoDynamicTags, e);
      var i :| 0 <= i < |docs| && e in DocEmits(docs[i], included, NoDynamicTags);
      assert docs[i].tags.Some?;
      assert DocEmits(docs[i], included, NoDynamicTags) == StaticEmits(docs[i].id, docs[i].tags.value, included) + [];
      StaticEmitsMember(docs[i].id, docs[i].tags.value, included, e);
      assert docs[i].id == x;
    }
    if exists i :: 0 <= i < |docs| && docs[i].id == x && Carries(docs[i], included, t, z) {
      var i :| 0 <= i < |docs| && docs[i].id == x && Carries(docs[i], included, t, z);
      CarriedValueIsListed(docs, included, NoDynamicTags, i, t, z);
    }
  }

  /** An excluded tag produces no inverted record when there is no dynamic
      tagging. */
  lemma ExcludedTagIsNotInverted(docs: seq<Doc>, included: Tag -> bool, t: Tag, z: Value)
    requires !included(t)
    ensures Lookup(Inverted(docs, included, NoDynamicTags), InvKey(t, z)) == None
  {
    var es := MapPhase(docs, included, NoDynamicTags);
    ReducedLookup(es, Concat, InvKey(t, z));
    if HasKey(es, InvKey(t, z)) {
      var j :| 0 <= j < |es| && es[j].key == InvKey(t, z);
      var e := es[j];
      MapPhaseMember(docs, included, NoDynamicTags, e);
      var i :| 0 <= i < |docs| && e in DocEmits(docs[i], included, NoDynamicTags);
      assert DocEmits(docs[i], included, NoDynamicTags) == StaticEmits(docs[i].id, docs[i].tags.value, included) + [];
      StaticEmitsMember(docs[i].id, docs[i].tags.value, included, e);
    }
  }

  /** A document without a `tags` field emits nothing, not even the
      dynamic-tag function's emissions, wherever it sits in the collection. */
  lemma UntaggedDocumentEmitsNothing(before: seq<Doc>, id: Id, after: seq<Doc>, included: Tag -> bool, dynamicTags: DynamicTags)
    ensures MapPhase(before + [Doc(id, None)] + after, included, dynamicTags) == MapPhase(before + after, included, dynamicTags)
  {
    var untagged := [Doc(id, None)];
    var m := MapPhase(before, included, dynamicTags);
    var n := MapPhase(after, included, dynamicTags);
    assert untagged[..0] == [];
    assert MapPhase(untagged, included, dynamicTags) == [];
    MapPhaseAppend(before, untagged, included, dynamicTags);
    assert MapPhase(before + untagged, included, dynamicTags) == m;
    MapPhaseAppend(before + untagged, after, included, dynamicTags);
    assert MapPhase(before + untagged + after, included, dynamicTags) == m + n;
    MapPhaseAppend(before, after, included, dynamicTags);
  }

  /** Hence such a document leaves the inverted collection unchanged. */
  lemma UntaggedDocumentIgnored(before: seq<Doc>, id: Id, after: seq<Doc>, included: Tag -> bool, dynamicTags: DynamicTags)
    ensures Inverted(before + [Doc(id, None)] + after, included, dynamicTags) == Inverted(before + after, included, dynamicTags)
  {
    UntaggedDocumentEmitsNothing(before, id, after, included, dynamicTags);
  }
}
