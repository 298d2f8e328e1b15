/** The tag store, `Groupy::Entity` (lib/rugroupy/entity.rb).

    An entity collection holds one document `{_id: <id>, tags: {...}}` per
    entity. `Entity.new` creates the document unless it exists, and the
    other operations update one document's `tags` sub-document with the
    server's update operators: `$set` to clear it, `$addToSet` (with
    `$each` for an array argument) to tag, `$pull` (`$pullAll` for an array
    argument) to untag. An update whose `_id` matches no document changes
    nothing. */
module Entities {
  import opened Collections
  import opened Documents

  /** The `value` argument of `tag` and `untag`: a single value, or a Ruby
      array of values. */
  datatype TagArg = Scalar(v: Value) | Array(vs: seq<Value>)

  /** The values an argument stands for. */
  function Elements(arg: TagArg): seq<Value>
  {
    match arg
    case Scalar(v) => [v]
    case Array(vs) => vs
  }

  /** A tags document as the store keeps it: one field per tag, and no value
      twice under a tag. */
  ghost predicate WellFormed(tags: Tags)
  {
    DistinctKeys(tags) && forall i :: 0 <= i < |tags| ==> NoDuplicates(tags[i].value)
  }

  /** `has_tag`: `tag` is a field of the tags document and `v` is one of its
      values. */
  function Has(tags: Tags, tag: Tag, v: Value): bool
  {
    match Lookup(tags, tag)
    case None => false
    case Some(list) => v in list
  }

  // ---------------------------------------------------------------------
  // The array update operators.

  /** `$addToSet` with `$each`: appends, in order, every value the array
      does not hold yet. The array keeps its existing elements in place. */
  function AddToSet(list: seq<Value>, vs: seq<Value>): (r: seq<Value>)
    ensures forall v :: v in r <==> v in list || v in vs
    ensures |list| <= |r| && r[..|list|] == list
    ensures NoDuplicates(list) ==> NoDuplicates(r)
  {
    if vs == [] then list
    else
      var acc := AddToSet(list, vs[..|vs| - 1]);
      var v := vs[|vs| - 1];
      if v in acc then acc
      else
        assert (acc + [v])[..|list|] == acc[..|list|];
        acc + [v]
  }

  /** `$pullAll`: removes every element equal to one of `vs`, keeping the
      others in order. `$pull` of one value is `$pullAll` of `[value]`. */
  function PullAll(list: seq<Value>, vs: seq<Value>): (r: seq<Value>)
    ensures forall v :: v in r <==> v in list && v !in vs
    ensures |r| <= |list|
    ensures NoDuplicates(list) ==> NoDuplicates(r)
  {
    if list == [] then []
    else
      var init, v := list[..|list| - 1], list[|list| - 1];
      assert list == init + [v];
      var rest := PullAll(init, vs);
      if v in vs then rest else rest + [v]
  }

  /** Adding values the array holds already changes nothing. */
  lemma {:induction false} AddToSetPresent(list: seq<Value>, vs: seq<Value>)
    requires forall v :: v in vs ==> v in list
    ensures AddToSet(list, vs) == list
  {
    if vs != [] {
      AddToSetPresent(list, vs[..|vs| - 1]);
    }
  }

  /** Pulling values the array does not hold changes nothing. */
  lemma {:induction false} PullAllAbsent(list: seq<Value>, vs: seq<Value>)
    requires forall v :: v in list ==> v !in vs
    ensures PullAll(list, vs) == list
  {
    if list != [] {
      PullAllAbsent(list[..|list| - 1], vs);
    }
  }

  // ---------------------------------------------------------------------
  // One document's tags.

  /** The tags document after `tag(tag, value)`: the field `tags.<tag>`,
      created as an empty array when missing, takes the values set-wise. */
  function Tagged(tags: Tags, tag: Tag, arg: TagArg): Tags
  {
    var current := match Lookup(tags, tag) case Some(list) => list case None => [];
    Put(tags, tag, AddToSet(current, Elements(arg)))
  }

  /** The tags document after `untag(tag, value)`: every listed value is
      removed from `tags.<tag>`; a missing field stays missing. */
  function Untagged(tags: Tags, tag: Tag, arg: TagArg): Tags
  {
    match Lookup(tags, tag)
    case None => tags
    case Some(list) => Put(tags, tag, PullAll(list, Elements(arg)))
  }

  lemma TaggedWellFormed(tags: Tags, tag: Tag, arg: TagArg)
    requires WellFormed(tags)
    ensures WellFormed(Tagged(tags, tag, arg))
  {
    var current := match Lookup(tags, tag) case Some(list) => list case None => [];
    assert NoDuplicates(current) by {
      if HasKey(tags, tag) {
        var i :| 0 <= i < |tags| && tags[i].key == tag;
      }
    }
    var r := Tagged(tags, tag, arg);
    forall i | 0 <= i < |r| ensures NoDuplicates(r[i].value) {
      if r[i].key != tag {
        LookupPut(tags, tag, AddToSet(current, Elements(arg)), r[i].key);
        var j := IndexOf(tags, r[i].key).value;
        assert Lookup(r, r[i].key) == Some(r[i].value);
      }
    }
  }

  lemma UntaggedWellFormed(tags: Tags, tag: Tag, arg: TagArg)
    requires WellFormed(tags)
    ensures WellFormed(Untagged(tags, tag, arg))
  {
    if HasKey(tags, tag) {
      var list := Lookup(tags, tag).value;
      assert NoDuplicates(list) by {
        var i :| 0 <= i < |tags| && tags[i].key == tag;
      }
      var r := Untagged(tags, tag, arg);
      forall i | 0 <= i < |r| ensures NoDuplicates(r[i].value) {
        if r[i].key != tag {
          LookupPut(tags, tag, PullAll(list, Elements(arg)), r[i].key);
          var j := IndexOf(tags, r[i].key).value;
          assert Lookup(r, r[i].key) == Some(r[i].value);
        }
      }
    }
  }

  /** After tagging, the tag's values are the union of the old values and
      the new ones. */
  lemma TagIsUnion(tags: Tags, tag: Tag, arg: TagArg, v: Value)
    requires DistinctKeys(tags)
    ensures Has(Tagged(tags, tag, arg), tag, v) <==> Has(tags, tag, v) || v in Elements(arg)
  {
  }

  /** After untagging, the tag holds exactly the old values not listed;
      the field itself stays, possibly as an empty array. */
  lemma UntagRemoves(tags: Tags, tag: Tag, arg: TagArg, v: Value)
    requires DistinctKeys(tags)
    ensures Has(Untagged(tags, tag, arg), tag, v) <==> Has(tags, tag, v) && v !in Elements(arg)
    ensures HasKey(Untagged(tags, tag, arg), tag) <==> HasKey(tags, tag)
  {
  }

  /** Tagging and untagging change the field `tags.<tag>` and no other. */
  lemma OtherTagsUntouched(tags: Tags, tag: Tag, arg: TagArg, other: Tag)
    requires DistinctKeys(tags) && other != tag
    ensures Lookup(Tagged(tags, tag, arg), other) == Lookup(tags, other)
    ensures Lookup(Untagged(tags, tag, arg), other) == Lookup(tags, other)
  {
    var current := match Lookup(tags, tag) case Some(list) => list case None => [];
    LookupPut(tags, tag, AddToSet(current, Elements(arg)), other);
    if HasKey(tags, tag) {
      LookupPut(tags, tag, PullAll(current, Elements(arg)), other);
    }
  }

  /** Tagging twice with the same argument is tagging once. */
  lemma TagIdempotent(tags: Tags, tag: Tag, arg: TagArg)
    requires DistinctKeys(tags)
    ensures Tagged(Tagged(tags, tag, arg), tag, arg) == Tagged(tags, tag, arg)
  {
    var current := match Lookup(tags, tag) case Some(list) => list case None => [];
    var list := AddToSet(current, Elements(arg));
    var once := Tagged(tags, tag, arg);
    assert Lookup(once, tag) == Some(list);
    AddToSetPresent(list, Elements(arg));
    PutSame(once, tag, list);
  }

  /** Untagging twice with the same argument is untagging once. */
  lemma UntagIdempotent(tags: Tags, tag: Tag, arg: TagArg)
    requires DistinctKeys(tags)
    ensures Untagged(Untagged(tags, tag, arg), tag, arg) == Untagged(tags, tag, arg)
  {
    if HasKey(tags, tag) {
      var list := PullAll(Lookup(tags, tag).value, Elements(arg));
      var once := Untagged(tags, tag, arg);
      assert Lookup(once, tag) == Some(list);
      PullAllAbsent(list, Elements(arg));
      PutSame(once, tag, list);
    }
  }

  /** However often a value is tagged, its tag holds it exactly once. */
  lemma TaggedOnce(tags: Tags, tag: Tag, v: Value)
    requires WellFormed(tags)
    ensures var r := Tagged(tags, tag, Scalar(v));
      HasKey(r, tag) && multiset(Lookup(r, tag).value)[v] == 1
  {
    var r := Tagged(tags, tag, Scalar(v));
    TaggedWellFormed(tags, tag, Scalar(v));
    var i := IndexOf(r, tag).value;
    NoDuplicatesCount(r[i].value, v);
  }

  /** Tagging `zip` with `[22204, 22207]` and then with `22206` leaves the
      three values under the one field. */
  lemma ZipScenario()
    ensures Tagged(Tagged([], "zip", Array([Num(22204), Num(22207)])), "zip", Scalar(Num(22206)))
      == [Entry("zip", [Num(22204), Num(22207), Num(22206)])]
  {
    var first := [Num(22204), Num(22207)];
    assert AddToSet([], first[..1]) == [Num(22204)];
    assert AddToSet([], first) == first;
    var once := Tagged([], "zip", Array(first));
    assert once == [Entry("zip", first)];
    assert Lookup(once, "zip") == Some(first);
    var added := AddToSet(first, [Num(22206)]);
    assert added == first + [Num(22206)] by {
      assert [Num(22206)][..0] == [];
      assert Num(22206) !in first;
    }
    assert IndexOf(once, "zip") == Some(0);
    assert Put(once, "zip", added) == [Entry("zip", added)];
    assert Elements(Scalar(Num(22206))) == [Num(22206)];
    assert Tagged(once, "zip", Scalar(Num(22206))) == Put(once, "zip", added);
    assert added == [Num(22204), Num(22207), Num(22206)];
  }

  /** Tagging `likes` with one value and untagging it leaves the field, as an
      empty array. */
  lemma UntagScenario()
    ensures Untagged(Tagged([], "likes", Scalar(Str("mongodb.org"))), "likes", Scalar(Str("mongodb.org")))
      == [Entry("likes", [])]
  {
    var v := Str("mongodb.org");
    var once := Tagged([], "likes", Scalar(v));
    assert once == [Entry("likes", [v])] by {
      assert AddToSet([], [v]) == [v];
    }
    var pulled := PullAll([v], [v]);
    assert pulled == [];
    assert Untagged(once, "likes", Scalar(v)) == Put(once, "likes", pulled) by {
      assert Lookup(once, "likes") == Some([v]);
    }
    assert Put(once, "likes", pulled) == [Entry("likes", [])] by {
      assert IndexOf(once, "likes") == Some(0);
    }
  }

  // ---------------------------------------------------------------------
  // The entity collection.

  /** The collection after `Entity.new(db, name, id, create)`: the document
      `{_id: id, tags: {}}` is inserted when `create` is set, unless a
      document with that id exists, whose duplicate-key error is swallowed. */
  function Created(docs: map<Id, Tags>, id: Id, create: bool): map<Id, Tags>
  {
    if create && id !in docs then docs[id := []] else docs
  }

  /** The collection after an update of the document `id` that turns its
      tags into `update(tags)`; a missing document matches nothing. */
  function Updated(docs: map<Id, Tags>, id: Id, update: Tags -> Tags): map<Id, Tags>
  {
    if id in docs then docs[id := update(docs[id])] else docs
  }

  /** The collection after `apply_tag(tag, value, add)`. */
  function Applied(docs: map<Id, Tags>, id: Id, tag: Tag, arg: TagArg, add: bool): map<Id, Tags>
  {
    Updated(docs, id, (tags: Tags) => if add then Tagged(tags, tag, arg) else Untagged(tags, tag, arg))
  }

  /** Creating an entity twice is creating it once, and creating one that
      exists leaves its document, tags included, as it was. */
  lemma CreateIdempotent(docs: map<Id, Tags>, id: Id, create: bool)
    ensures Created(Created(docs, id, create), id, create) == Created(docs, id, create)
    ensures id in docs ==> Created(docs, id, create) == docs
    ensures create ==> id in Created(docs, id, create)
  {
  }

  /** An update touches its own document only; an update of a missing id
      changes nothing. */
  lemma AppliedTouchesOne(docs: map<Id, Tags>, id: Id, tag: Tag, arg: TagArg, add: bool, other: Id)
    requires other != id
    ensures var r := Applied(docs, id, tag, arg, add);
      && r.Keys == docs.Keys
      && (other in docs ==> r[other] == docs[other])
      && (id !in docs ==> r == docs)
  {
  }

  class EntityStore {
    /** The entity collection: the tags document of each entity, by `_id`. */
    var docs: map<Id, Tags>

    ghost predicate Valid()
      reads this
    {
      forall id :: id in docs ==> WellFormed(docs[id])
    }

    constructor ()
      ensures docs == map[] && Valid()
    {
      docs := map[];
    }

    /** `Entity.new(database, name, id, create)`. */
    method Create(id: Id, create: bool)
      requires Valid()
      modifies this
      ensures Valid()
      ensures docs == Created(old(docs), id, create)
    {
      if create {
        if id !in docs {
          docs := docs[id := []];
        }
      }
    }

    /** `get`: the entity's document, or nothing. */
    method Get(id: Id) returns (r: Option<Doc>)
      ensures r.Some? <==> id in docs
      ensures r.Some? ==> r.value.id == id && r.value.tags == Some(docs[id])
    {
      if id in docs {
        r := Some(Doc(id, Some(docs[id])));
      } else {
        r := None;
      }
    }

    /** `delete`. */
    method Delete(id: Id)
      requires Valid()
      modifies this
      ensures Valid()
      ensures docs == old(docs) - {id}
    {
      docs := docs - {id};
    }

    /** `clear_tags`: `$set` the tags document to `{}`. */
    method ClearTags(id: Id)
      requires Valid()
      modifies this
      ensures Valid()
      ensures docs == Updated(old(docs), id, (tags: Tags) => [])
    {
      if id in docs {
        docs := docs[id := []];
      }
    }

    /** `has_tag`. Reading the tags of a missing entity raises in the
        source; that is `None` here. */
    method HasTag(id: Id, tag: Tag, v: Value) returns (r: Option<bool>)
      ensures r.None? <==> id !in docs
      ensures r == Some(true) <==> id in docs && HasKey(docs[id], tag) && v in Lookup(docs[id], tag).value
    {
      var e := Get(id);
      match e
      case None =>
        r := None;
      case Some(doc) =>
        var tags := doc.tags.value;
        r := Some(Has(tags, tag, v));
    }

    /** `apply_tag(tag, value, add)`: one update of `tags.<tag>` with
        `$addToSet`/`$each` when adding, `$pull`/`$pullAll` when removing. */
    method ApplyTag(id: Id, tag: Tag, arg: TagArg, add: bool)
      requires Valid()
      modifies this
      ensures Valid()
      ensures docs == Applied(old(docs), id, tag, arg, add)
    {
      if id in docs {
        var tags := docs[id];
        var updated := if add then Tagged(tags, tag, arg) else Untagged(tags, tag, arg);
        TaggedWellFormed(tags, tag, arg);
        UntaggedWellFormed(tags, tag, arg);
        docs := docs[id := updated];
      }
    }

    /** `tag(tag, value)`. */
    method Tag(id: Id, tag: Tag, arg: TagArg)
      requires Valid()
      modifies this
      ensures Valid()
      ensures docs == Applied(old(docs), id, tag, arg, true)
    {
      ApplyTag(id, tag, arg, true);
    }

    /** `untag(tag, value)`. */
    method Untag(id: Id, tag: Tag, arg: TagArg)
      requires Valid()
      modifies this
      ensures Valid()
      ensures docs == Applied(old(docs), id, tag, arg, false)
    {
      ApplyTag(id, tag, arg, false);
    }
  }
}
