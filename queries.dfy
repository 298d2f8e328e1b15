/** The similarity queries over the count collection,
    `EntityGrouper#similiar` (lib/rugroupy/group.rb) and `Entity#similiar`
    (lib/rugroupy/entity.rb).

    Both select count records by key, sort them by count (highest first, or
    lowest first when `reverse`), apply `skip` and `limit` to the sorted
    result, and project each record: the global query returns the pair
    `_id.e`, the entity query the other member of the pair. */
module Similarity {
  import opened Collections
  import opened Documents
  import opened MapReduce
  import opened Inversion
  import opened Strings
  import opened Counting

  /** Which records a query selects. */
  datatype Criterion =
    | AllPairs(tag: Option<Tag>)          // `{_id.tag: tag}`, or `_id.tag` absent
    | PairsOf(id: Id, tag: Option<Tag>)   // as above, and `id` is one of `_id.e`

  predicate Selects(q: Criterion, k: PairKey)
  {
    match q
    case AllPairs(tag) => k.tag == tag
    case PairsOf(id, tag) => k.tag == tag && (k.a == id || k.b == id)
  }

  /** The query's `find`: the selected records, in collection order. */
  function Select(counts: seq<CountRecord>, q: Criterion): (r: seq<CountRecord>)
    ensures forall e :: e in r <==> e in counts && Selects(q, e.key)
    ensures forall e :: multiset(r)[e] == if Selects(q, e.key) then multiset(counts)[e] else 0
  {
    if counts == [] then []
    else
      var last := counts[|counts| - 1];
      assert counts == counts[..|counts| - 1] + [last];
      Select(counts[..|counts| - 1], q) + (if Selects(q, last.key) then [last] else [])
  }

  /** `x` may come before `y` in the sort on `value.count`: descending, or
      ascending when `reverse`. */
  predicate Precedes(x: CountRecord, y: CountRecord, reverse: bool)
  {
    if reverse then x.value <= y.value else y.value <= x.value
  }

  predicate Ranked(s: seq<CountRecord>, reverse: bool)
  {
    forall i, j :: 0 <= i < j < |s| ==> Precedes(s[i], s[j], reverse)
  }

  /** A record that may precede every record of a ranked list may be put in
      front of it. */
  lemma RankedCons(y: CountRecord, s: seq<CountRecord>, reverse: bool)
    requires Ranked(s, reverse)
    requires forall z :: z in multiset(s) ==> Precedes(y, z, reverse)
    ensures Ranked([y] + s, reverse)
  {
    forall i, j | 0 <= i < j < |[y] + s| ensures Precedes(([y] + s)[i], ([y] + s)[j], reverse) {
      if i == 0 { assert s[j - 1] in multiset(s); }
    }
  }

  /** What may precede the head of a ranked list may precede all of it. */
  lemma RankedLowerBound(x: CountRecord, s: seq<CountRecord>, reverse: bool)
    requires Ranked(s, reverse)
    requires s != [] ==> Precedes(x, s[0], reverse)
    ensures forall z :: z in multiset(s) ==> Precedes(x, z, reverse)
  {
    forall z | z in multiset(s) ensures Precedes(x, z, reverse) {
      var j :| 0 <= j < |s| && s[j] == z;
      if 0 < j { assert Precedes(s[0], s[j], reverse); }
    }
  }

  function InsertByCount(x: CountRecord, s: seq<CountRecord>, reverse: bool): (r: seq<CountRecord>)
    requires Ranked(s, reverse)
    ensures Ranked(r, reverse)
    ensures multiset(r) == multiset(s) + multiset{x}
  {
    if s == [] || Precedes(x, s[0], reverse) then
      RankedLowerBound(x, s, reverse);
      RankedCons(x, s, reverse);
      [x] + s
    else
      var y, tail := s[0], s[1..];
      assert s == [y] + tail;
      var rest := InsertByCount(x, tail, reverse);
      RankedLowerBound(y, s, reverse);
      assert multiset(s) == multiset{y} + multiset(tail);
      assert forall z :: z in multiset(rest) ==> Precedes(y, z, reverse) by {
        forall z | z in multiset(rest) ensures Precedes(y, z, reverse) {
          if z != x { assert z in multiset(s); }
        }
      }
      RankedCons(y, rest, reverse);
      [y] + rest
  }

  /** The server's sort on `value.count`. Records of equal count keep no
      particular order: any order satisfies `Ranked`. */
  function SortByCount(s: seq<CountRecord>, reverse: bool): (r: seq<CountRecord>)
    ensures Ranked(r, reverse)
    ensures multiset(r) == multiset(s)
  {
    if s == [] then []
    else
      assert s == [s[0]] + s[1..];
      InsertByCount(s[0], SortByCount(s[1..], reverse), reverse)
  }

  /** How many records `skip` passes over. */
  function Skipped(n: nat, skip: Option<nat>): nat
  {
    match skip
    case None => 0
    case Some(k) => if k < n then k else n
  }

  /** How many records a limit lets through: a negative limit acts as its
      absolute value (the server returns it in a single batch). */
  function Bound(limit: int): (n: nat)
    ensures n == limit || n == -limit
  {
    if limit < 0 then -limit else limit
  }

  /** `limit` bounds the result; a limit of zero means no limit. */
  predicate Limits(limit: Option<int>)
  {
    limit.Some? && limit.value != 0
  }

  /** `skip` and `limit`, applied after the sort whatever the order of the
      cursor calls: a contiguous run of the sorted records, starting after
      the skipped ones, as long as the limit allows. */
  function Page<T>(s: seq<T>, skip: Option<nat>, limit: Option<int>): (r: seq<T>)
    ensures Skipped(|s|, skip) + |r| <= |s|
    ensures r == s[Skipped(|s|, skip)..Skipped(|s|, skip) + |r|]
    ensures Limits(limit) ==> |r| <= Bound(limit.value)
    ensures Skipped(|s|, skip) + |r| < |s| ==> Limits(limit) && |r| == Bound(limit.value)
  {
    var rest := s[Skipped(|s|, skip)..];
    if Limits(limit) && Bound(limit.value) < |rest| then rest[..Bound(limit.value)] else rest
  }

  /** The records a query returns, before projection. */
  function Query(counts: seq<CountRecord>, q: Criterion, skip: Option<nat>, limit: Option<int>, reverse: bool): seq<CountRecord>
  {
    Page(SortByCount(Select(counts, q), reverse), skip, limit)
  }

  /** `EntityGrouper#similiar`: the pairs `_id.e` of the selected records. */
  function SimilarPairs(counts: seq<CountRecord>, tag: Option<Tag>, skip: Option<nat>, limit: Option<int>, reverse: bool): (r: seq<(Id, Id)>)
    ensures var page := Query(counts, AllPairs(tag), skip, limit, reverse);
      |r| == |page| && forall i :: 0 <= i < |r| ==> r[i] == (page[i].key.a, page[i].key.b)
  {
    var page := Query(counts, AllPairs(tag), skip, limit, reverse);
    seq(|page|, i requires 0 <= i < |page| => (page[i].key.a, page[i].key.b))
  }

  /** The member of the pair `k` that is not `id` (the second when both are). */
  function Other(k: PairKey, id: Id): Id
  {
    if k.a == id then k.b else k.a
  }

  /** `Entity#similiar`: for each selected record, the other member of its
      pair. */
  function SimilarTo(counts: seq<CountRecord>, id: Id, tag: Option<Tag>, skip: Option<nat>, limit: Option<int>, reverse: bool): (r: seq<Id>)
    ensures var page := Query(counts, PairsOf(id, tag), skip, limit, reverse);
      |r| == |page| && forall i :: 0 <= i < |r| ==> r[i] == Other(page[i].key, id)
  {
    var page := Query(counts, PairsOf(id, tag), skip, limit, reverse);
    seq(|page|, i requires 0 <= i < |page| => Other(page[i].key, id))
  }

  // ---------------------------------------------------------------------
  // What a query returns.

  /** A query returns only selected records of the collection. */
  lemma QuerySelects(counts: seq<CountRecord>, q: Criterion, skip: Option<nat>, limit: Option<int>, reverse: bool, e: CountRecord)
    requires e in Query(counts, q, skip, limit, reverse)
    ensures e in counts && Selects(q, e.key)
  {
    var selected := Select(counts, q);
    InPage(SortByCount(selected, reverse), skip, limit, e);
    assert e in multiset(selected);
  }

  /** A page holds only records of the list it is cut from. */
  lemma InPage<T>(s: seq<T>, skip: Option<nat>, limit: Option<int>, e: T)
    requires e in Page(s, skip, limit)
    ensures e in multiset(s)
  {
    var r, d := Page(s, skip, limit), Skipped(|s|, skip);
    var i :| 0 <= i < |r| && r[i] == e;
    assert s[d + i] == e;
  }

  /** A query returns its records ranked by count, and no more than the
      limit. */
  lemma QueryRanked(counts: seq<CountRecord>, q: Criterion, skip: Option<nat>, limit: Option<int>, reverse: bool)
    ensures Ranked(Query(counts, q, skip, limit, reverse), reverse)
    ensures Limits(limit) ==> |Query(counts, q, skip, limit, reverse)| <= Bound(limit.value)
  {
    var sorted := SortByCount(Select(counts, q), reverse);
    var r := Query(counts, q, skip, limit, reverse);
    var d := Skipped(|sorted|, skip);
    RankedSlice(sorted, d, d + |r|, reverse);
  }

  /** A run of a ranked list is ranked. */
  lemma RankedSlice(s: seq<CountRecord>, lo: nat, hi: nat, reverse: bool)
    requires lo <= hi <= |s|
    requires Ranked(s, reverse)
    ensures Ranked(s[lo..hi], reverse)
  {
    forall i, j | 0 <= i < j < hi - lo ensures Precedes(s[lo..hi][i], s[lo..hi][j], reverse) {
      assert Precedes(s[lo + i], s[lo + j], reverse);
    }
  }

  /** Without `skip` and `limit` a query returns every selected record, each
      as often as the collection holds it. */
  lemma QueryComplete(counts: seq<CountRecord>, q: Criterion, reverse: bool)
    ensures multiset(Query(counts, q, None, None, reverse)) == multiset(Select(counts, q))
    ensures forall e :: e in counts && Selects(q, e.key) ==> e in Query(counts, q, None, None, reverse)
  {
    var r := Query(counts, q, None, None, reverse);
    assert r == SortByCount(Select(counts, q), reverse);
    forall e | e in counts && Selects(q, e.key) ensures e in r {
      assert e in multiset(Select(counts, q));
    }
  }

  /** Every pair the global query returns is the pair of a count record
      under the requested tag (or under no tag). */
  lemma SimilarPairsSound(counts: seq<CountRecord>, tag: Option<Tag>, skip: Option<nat>, limit: Option<int>, reverse: bool, i: nat)
    requires i < |SimilarPairs(counts, tag, skip, limit, reverse)|
    ensures var p := SimilarPairs(counts, tag, skip, limit, reverse)[i];
      HasKey(counts, PairKey(tag, p.0, p.1))
  {
    var page := Query(counts, AllPairs(tag), skip, limit, reverse);
    QuerySelects(counts, AllPairs(tag), skip, limit, reverse, page[i]);
    var j :| 0 <= j < |counts| && counts[j] == page[i];
  }

  /** Every id the entity query returns shares a count record with the
      entity, under the requested tag (or under no tag). */
  lemma SimilarToSound(counts: seq<CountRecord>, id: Id, tag: Option<Tag>, skip: Option<nat>, limit: Option<int>, reverse: bool, i: nat)
    requires i < |SimilarTo(counts, id, tag, skip, limit, reverse)|
    ensures var x := SimilarTo(counts, id, tag, skip, limit, reverse)[i];
      HasKey(counts, PairKey(tag, id, x)) || HasKey(counts, PairKey(tag, x, id))
  {
    var page := Query(counts, PairsOf(id, tag), skip, limit, reverse);
    QuerySelects(counts, PairsOf(id, tag), skip, limit, reverse, page[i]);
    var j :| 0 <= j < |counts| && counts[j] == page[i];
  }

  /** Without `skip` and `limit`, `x` is similar to `id` exactly when a
      selected record pairs the two. */
  predicate Pairs(counts: seq<CountRecord>, id: Id, tag: Option<Tag>, x: Id)
  {
    exists e :: e in counts && Selects(PairsOf(id, tag), e.key) && Other(e.key, id) == x
  }

  lemma SimilarToPaired(counts: seq<CountRecord>, id: Id, tag: Option<Tag>, reverse: bool, x: Id)
    requires x in SimilarTo(counts, id, tag, None, None, reverse)
    ensures Pairs(counts, id, tag, x)
  {
    var r := SimilarTo(counts, id, tag, None, None, reverse);
    var page := Query(counts, PairsOf(id, tag), None, None, reverse);
    var i :| 0 <= i < |r| && r[i] == x;
    QuerySelects(counts, PairsOf(id, tag), None, None, reverse, page[i]);
  }

  lemma PairedIsSimilar(counts: seq<CountRecord>, id: Id, tag: Option<Tag>, reverse: bool, x: Id)
    requires Pairs(counts, id, tag, x)
    ensures x in SimilarTo(counts, id, tag, None, None, reverse)
  {
    var r := SimilarTo(counts, id, tag, None, None, reverse);
    var page := Query(counts, PairsOf(id, tag), None, None, reverse);
    var e :| e in counts && Selects(PairsOf(id, tag), e.key) && Other(e.key, id) == x;
    QueryComplete(counts, PairsOf(id, tag), reverse);
    var i :| 0 <= i < |page| && page[i] == e;
    assert r[i] == x;
  }

  /** Similarity is symmetric: `b` is among the entities similar to `a`
      exactly when `a` is among those similar to `b`. */
  lemma SimilarSymmetric(counts: seq<CountRecord>, a: Id, b: Id, tag: Option<Tag>, reverse: bool)
    requires a != b
    ensures b in SimilarTo(counts, a, tag, None, None, reverse) <==> a in SimilarTo(counts, b, tag, None, None, reverse)
  {
    if b in SimilarTo(counts, a, tag, None, None, reverse) {
      SimilarToPaired(counts, a, tag, reverse, b);
      PairsSymmetric(counts, a, b, tag);
      PairedIsSimilar(counts, b, tag, reverse, a);
    }
    if a in SimilarTo(counts, b, tag, None, None, reverse) {
      SimilarToPaired(counts, b, tag, reverse, a);
      PairsSymmetric(counts, b, a, tag);
      PairedIsSimilar(counts, a, tag, reverse, b);
    }
  }

  lemma PairsSymmetric(counts: seq<CountRecord>, a: Id, b: Id, tag: Option<Tag>)
    requires a != b && Pairs(counts, a, tag, b)
    ensures Pairs(counts, b, tag, a)
  {
    var e :| e in counts && Selects(PairsOf(a, tag), e.key) && Other(e.key, a) == b;
    assert Selects(PairsOf(b, tag), e.key) && Other(e.key, b) == a;
  }

  // ---------------------------------------------------------------------
  // From shared tag values to similarity.

  lemma CountPhaseContains(inverted: seq<InvRecord>, score: Score, i: nat, e: CountEmit)
    requires i < |inverted|
    requires e in RecordEmits(inverted[i], score)
    ensures HasKey(CountPhase(inverted, score), e.key)
  {
    CountPhaseMember(inverted, score, i, e);
    MemberHasKey(CountPhase(inverted, score), e);
  }

  /** Every emission of a record's map call is in the map phase. */
  lemma {:induction false} CountPhaseMember(inverted: seq<InvRecord>, score: Score, i: nat, e: CountEmit)
    requires i < |inverted|
    requires e in RecordEmits(inverted[i], score)
    ensures e in CountPhase(inverted, score)
  {
    var head, rest := RecordEmits(inverted[0], score), CountPhase(inverted[1..], score);
    assert CountPhase(inverted, score) == head + rest;
    if i == 0 {
      InLeft(e, head, rest);
    } else {
      assert e in rest by {
        assert inverted[1..][i - 1] == inverted[i];
        CountPhaseMember(inverted[1..], score, i - 1, e);
      }
      InRight(e, head, rest);
    }
  }

  lemma MemberHasKey(es: seq<CountEmit>, e: CountEmit)
    requires e in es
    ensures HasKey(es, e.key)
  {
    var j :| 0 <= j < |es| && es[j] == e;
  }

  /** Two distinct entities listed under the same tag value of the inverted
      collection end up similar to each other, under that tag and under no
      tag. */
  lemma SharedValueMakesSimilar(inverted: seq<InvRecord>, score: Score, i: nat, a: Id, b: Id, reverse: bool)
    requires i < |inverted|
    requires a in inverted[i].value && b in inverted[i].value && a != b
    ensures b in SimilarTo(Counts(inverted, score), a, None, None, None, reverse)
    ensures b in SimilarTo(Counts(inverted, score), a, Some(inverted[i].key.tag), None, None, reverse)
  {
    var rec := inverted[i];
    var s := SortIds(rec.value);
    var t, c := rec.key.tag, score(rec.key.tag);
    assert a in multiset(s) && b in multiset(s);
    var x :| 0 <= x < |s| && s[x] == a;
    var y :| 0 <= y < |s| && s[y] == b;
    var lo, hi := if x < y then x else y, if x < y then y else x;
    var k, kt := PairKey(None, s[lo], s[hi]), PairKey(Some(t), s[lo], s[hi]);
    var counts := Counts(inverted, score);
    assert HasKey(counts, k) && HasKey(counts, kt) by {
      RowsContains(t, s, c, NumericLess, |s|, lo, hi);
      CountPhaseContains(inverted, score, i, Entry(k, c));
      CountPhaseContains(inverted, score, i, Entry(kt, c));
      ReducedLookup(CountPhase(inverted, score), Sum, k);
      ReducedLookup(CountPhase(inverted, score), Sum, kt);
    }
    KeyPairs(counts, k, a, b);
    KeyPairs(counts, kt, a, b);
    PairedIsSimilar(counts, a, None, reverse, b);
    PairedIsSimilar(counts, a, Some(t), reverse, b);
  }

  /** Every key the map phase emits comes from an inverted record whose tag
      it covers and whose entity list holds both of its ids. */
  lemma {:induction false} CountPhaseSource(inverted: seq<InvRecord>, score: Score, k: PairKey)
    requires HasKey(CountPhase(inverted, score), k)
    ensures exists i :: 0 <= i < |inverted| && Covers(k, inverted[i].key.tag)
                     && k.a in inverted[i].value && k.b in inverted[i].value
  {
    var head, rest := RecordEmits(inverted[0], score), CountPhase(inverted[1..], score);
    HasKeyAppend(head, rest, k);
    if HasKey(head, k) {
      var rec := inverted[0];
      var s := SortIds(rec.value);
      var j :| 0 <= j < |head| && head[j].key == k;
      RowsMember(rec.key.tag, s, score(rec.key.tag), NumericLess, |s|, head[j]);
      var x, y :| 0 <= x < |s| && 0 <= y < |s| && NumericLess(x, y) && k.a == s[x] && k.b == s[y];
      assert s[x] in multiset(s) && s[y] in multiset(s);
      assert k.a in rec.value && k.b in rec.value;
    } else {
      CountPhaseSource(inverted[1..], score, k);
      var i :| 0 <= i < |inverted[1..]| && Covers(k, inverted[1..][i].key.tag)
        && k.a in inverted[1..][i].value && k.b in inverted[1..][i].value;
      assert inverted[1..][i] == inverted[i + 1];
    }
  }

  /** Conversely, an entity the query finds similar to `a` shares a
      (tag, value) key with `a`: some inverted record, of the requested tag
      when one is given, lists both. */
  lemma SimilarOnlyIfShared(inverted: seq<InvRecord>, score: Score, a: Id, tag: Option<Tag>, reverse: bool, x: Id)
    requires x in SimilarTo(Counts(inverted, score), a, tag, None, None, reverse)
    ensures exists i :: 0 <= i < |inverted| && a in inverted[i].value && x in inverted[i].value
                     && (tag.Some? ==> inverted[i].key.tag == tag.value)
  {
    var counts := Counts(inverted, score);
    SimilarKey(counts, a, tag, reverse, x);
    var k :| HasKey(counts, k) && k.tag == tag && ((k.a == a && k.b == x) || (k.b == a && k.a == x));
    CountedKeyShared(inverted, score, k);
    var i :| 0 <= i < |inverted| && Covers(k, inverted[i].key.tag)
             && k.a in inverted[i].value && k.b in inverted[i].value;
    assert a in inverted[i].value && x in inverted[i].value;
    assert tag.Some? ==> inverted[i].key.tag == tag.value by {
      if tag.Some? {
        assert k.tag == Some(inverted[i].key.tag);
      }
    }
  }

  /** A count key of two distinct ids pairs each with the other. */
  lemma KeyPairs(counts: seq<CountRecord>, k: PairKey, a: Id, b: Id)
    requires HasKey(counts, k) && a != b
    requires (k.a == a && k.b == b) || (k.a == b && k.b == a)
    ensures Pairs(counts, a, k.tag, b)
  {
    var j :| 0 <= j < |counts| && counts[j].key == k;
    assert counts[j] in counts && Other(k, a) == b && Selects(PairsOf(a, k.tag), k);
  }

  /** An id similar to `a` shares a count key of the requested tag (or no
      tag) with `a`. */
  lemma SimilarKey(counts: seq<CountRecord>, a: Id, tag: Option<Tag>, reverse: bool, x: Id)
    requires x in SimilarTo(counts, a, tag, None, None, reverse)
    ensures exists k :: HasKey(counts, k) && k.tag == tag && ((k.a == a && k.b == x) || (k.b == a && k.a == x))
  {
    SimilarToPaired(counts, a, tag, reverse, x);
    var e :| e in counts && Selects(PairsOf(a, tag), e.key) && Other(e.key, a) == x;
    var j :| 0 <= j < |counts| && counts[j] == e;
    assert HasKey(counts, e.key);
  }

  /** Every key of the count collection comes from an inverted record whose
      tag it covers and whose list holds both ids. */
  lemma CountedKeyShared(inverted: seq<InvRecord>, score: Score, k: PairKey)
    requires HasKey(Counts(inverted, score), k)
    ensures exists i :: 0 <= i < |inverted| && Covers(k, inverted[i].key.tag)
                     && k.a in inverted[i].value && k.b in inverted[i].value
  {
    ReducedLookup(CountPhase(inverted, score), Sum, k);
    CountPhaseSource(inverted, score, k);
  }
}
