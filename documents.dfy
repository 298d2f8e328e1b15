/** The entity documents the system stores and the keys it builds from them.

    An entity is a document `{_id: <id>, tags: {<tag>: [<value>, ...], ...}}`.
    A tag value is a scalar (string, number, boolean) or a structured record
    such as `{feet: 6, inches: 1}`. */
module Documents {
  import opened Collections

  type Id = string
  type Tag = string

  datatype Value =
    | Str(s: string)
    | Num(n: int)
    | Flag(b: bool)
    | Hash(fields: seq<(string, Value)>)

  /** The `tags` sub-document: one field per tag name, in insertion order,
      each holding the tag's list of values. */
  type Tags = seq<Entry<Tag, seq<Value>>>

  /** An entity document as the map function sees it; `tags` is `None` when
      the document has no `tags` field at all. */
  datatype Doc = Doc(id: Id, tags: Option<Tags>)

  /** The key of an inverted record: `{tag: <tag>, value: <value>}`. */
  datatype InvKey = InvKey(tag: Tag, value: Value)

  predicate NoDuplicates<T(==)>(s: seq<T>)
  {
    forall i, j :: 0 <= i < j < |s| ==> s[i] != s[j]
  }

  /** Every value occurs once in a list without duplicates. */
  lemma {:induction false} NoDuplicatesCount<T>(s: seq<T>, x: T)
    requires NoDuplicates(s)
    ensures multiset(s)[x] == if x in s then 1 else 0
  {
    if s != [] {
      var p := s[..|s| - 1];
      assert s == p + [s[|s| - 1]];
      NoDuplicatesCount(p, x);
      assert s[|s| - 1] !in p;
    }
  }

  /** Reordering a list without duplicates leaves it without duplicates. */
  lemma NoDuplicatesPermutation<T>(s: seq<T>, r: seq<T>)
    requires NoDuplicates(s)
    requires multiset(r) == multiset(s)
    ensures NoDuplicates(r)
  {
    forall i, j | 0 <= i < j < |r| ensures r[i] != r[j] {
      assert r == r[..j] + r[j..];
      assert r[i] in multiset(r[..j]) && r[j] in multiset(r[j..]);
      NoDuplicatesCount(s, r[j]);
    }
  }
}
