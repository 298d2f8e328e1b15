/** The counting stage, `EntityGrouper#count_entities` (lib/rugroupy/group.rb).

    A second map/reduce job, over the inverted collection. For every record
    `(tag, value) -> entities` the map function sorts a copy of the entity
    list and, for every pair of positions `x < y`, emits the record's tag
    score twice: under `{tag, e: [entities[x], entities[y]]}` and under the
    tag-free `{e: [entities[x], entities[y]]}`. The reduce function sums the
    counts that share a key. The output is the count collection. */
module Counting {
  import opened Collections
  import opened Documents
  import opened Strings
  import opened MapReduce
  import opened Inversion

  /** The key of a count record: `{tag: t, e: [a, b]}` when `tag` is
      `Some(t)`, the tag-free `{e: [a, b]}` when it is `None`. */
  datatype PairKey = PairKey(tag: Option<Tag>, a: Id, b: Id)

  /** One `emit(key, {count: c})` call. */
  type CountEmit = Entry<PairKey, int>

  /** One record of the count collection. */
  type CountRecord = Entry<PairKey, int>

  /** The caller's score function, weighting each tag. */
  type Score = Tag -> int

  /** The default score function, `function(tag) { return 1; }`. */
  function DefaultScore(tag: Tag): int { 1 }

  /** An order on the positions of the entity list, deciding which position
      pairs the map function emits. */
  type PositionOrder = (nat, nat) -> bool

  /** Positions compared as numbers. */
  function NumericLess(x: nat, y: nat): bool { x < y }

  /** The two emissions for the pair `(a, b)` of a record with tag `t`. */
  function PairEmits(t: Tag, a: Id, b: Id, c: int): seq<CountEmit>
  {
    [Entry(PairKey(Some(t), a, b), c), Entry(PairKey(None, a, b), c)]
  }

  /** The inner loop for outer position `x`, over inner positions `y < upto`. */
  function Row(t: Tag, s: seq<Id>, c: int, less: PositionOrder, x: nat, upto: nat): seq<CountEmit>
    requires x < |s| && upto <= |s|
  {
    if upto == 0 then []
    else
      var y := upto - 1;
      Row(t, s, c, less, x, y) + (if less(x, y) then PairEmits(t, s[x], s[y], c) else [])
  }

  /** The outer loop, over outer positions `x < upto`. */
  function Rows(t: Tag, s: seq<Id>, c: int, less: PositionOrder, upto: nat): seq<CountEmit>
    requires upto <= |s|
  {
    if upto == 0 then [] else Rows(t, s, c, less, upto - 1) + Row(t, s, c, less, upto - 1, |s|)
  }

  /** Everything the map function emits for one inverted record. */
  function RecordEmits(rec: InvRecord, score: Score): seq<CountEmit>
  {
    var s := SortIds(rec.value);
    Rows(rec.key.tag, s, score(rec.key.tag), NumericLess, |s|)
  }

  /** The emissions of the map function over the inverted collection. */
  function CountPhase(inverted: seq<InvRecord>, score: Score): seq<CountEmit>
  {
    if inverted == [] then []
    else RecordEmits(inverted[0], score) + CountPhase(inverted[1..], score)
  }

  /** What the reduce function computes from a key's counts. */
  function Sum(counts: seq<int>): int
  {
    if counts == [] then 0 else Sum(counts[..|counts| - 1]) + counts[|counts| - 1]
  }

  /** The count collection `count_entities` writes for an inverted collection. */
  function Counts(inverted: seq<InvRecord>, score: Score): seq<CountRecord>
  {
    Reduced(CountPhase(inverted, score), Sum)
  }

  /** The total count of key `k` over a stream of emissions. */
  function Total(es: seq<CountEmit>, k: PairKey): int
  {
    Sum(ValuesFor(es, k))
  }

  // ---------------------------------------------------------------------
  // The map and reduce functions, and the job that runs them.

  /** The map function, run on one inverted record. */
  method CountMap(rec: InvRecord, score: Score) returns (es: seq<CountEmit>)
    ensures es == RecordEmits(rec, score)
  {
    var tag := rec.key.tag;
    var tagScore := score(tag);
    var entities := SortIds(rec.value);
    es := [];
    for x := 0 to |entities|
      invariant es == Rows(tag, entities, tagScore, NumericLess, x)
    {
      var row := PairLoop(tag, entities, tagScore, x);
      assert es + row == Rows(tag, entities, tagScore, NumericLess, x + 1) by {
        RowsStep(tag, entities, tagScore, x + 1);
      }
      es := es + row;
    }
  }

  /** The inner loop of the map function for outer position `x`: both
      emissions for every later position `y`. */
  method PairLoop(tag: Tag, entities: seq<Id>, tagScore: int, x: nat) returns (row: seq<CountEmit>)
    requires x < |entities|
    ensures row == Row(tag, entities, tagScore, NumericLess, x, |entities|)
  {
    row := [];
    for y := 0 to |entities|
      invariant row == Row(tag, entities, tagScore, NumericLess, x, y)
    {
      RowStep(tag, entities, tagScore, x, y + 1);
      if x < y {
        row := row + [Entry(PairKey(Some(tag), entities[x], entities[y]), tagScore)];
        row := row + [Entry(PairKey(None, entities[x], entities[y]), tagScore)];
      }
    }
  }

  /** The reduce function: adds up the counts, starting from zero. */
  method ReduceCounts(values: seq<int>) returns (result: int)
    ensures result == Sum(values)
  {
    result := 0;
    for i := 0 to |values|
      invariant result == Sum(values[..i])
    {
      assert values[..i + 1][..i] == values[..i];
      result := result + values[i];
    }
    assert values[..|values|] == values;
  }

  /** Stores one emission, calling the reduce function when its key is
      already present. */
  method MergeCount(counts: seq<CountRecord>, e: CountEmit) returns (merged: seq<CountRecord>)
    ensures merged == Store(counts, e, Sum)
  {
    match IndexOf(counts, e.key)
    case Some(k) =>
      var total := ReduceCounts([counts[k].value, e.value]);
      merged := counts[k := Entry(e.key, total)];
    case None =>
      merged := counts + [e];
  }

  /** Stores the emissions of one map call, in order. */
  method MergeCounts(counts: seq<CountRecord>, ghost emitted: seq<CountEmit>, es: seq<CountEmit>)
    returns (merged: seq<CountRecord>)
    requires counts == Folded(emitted, Sum)
    ensures merged == Folded(emitted + es, Sum)
  {
    merged := counts;
    assert emitted + es[..0] == emitted;
    for j := 0 to |es|
      invariant merged == Folded(emitted + es[..j], Sum)
    {
      ghost var before := emitted + es[..j];
      merged := MergeCount(merged, es[j]);
      assert emitted + es[..j + 1] == before + [es[j]];
    }
    assert es[..|es|] == es;
  }

  /** The whole job: maps every inverted record and stores each emission as
      it comes. The result is the count collection: group-then-sum over all
      the emissions. */
  method CountEntities(inverted: seq<InvRecord>, score: Score) returns (counts: seq<CountRecord>)
    ensures counts == Counts(inverted, score)
  {
    counts := [];
    ghost var emitted: seq<CountEmit> := [];
    for i := 0 to |inverted|
      invariant emitted == CountPhase(inverted[..i], score)
      invariant counts == Folded(emitted, Sum)
    {
      var es := CountMap(inverted[i], score);
      counts := MergeCounts(counts, emitted, es);
      CountPhaseStep(inverted, i, score);
      emitted := emitted + es;
    }
    assert inverted[..|inverted|] == inverted;
    SumReReducible();
    FoldedIsReduced(emitted, Sum);
  }

  // ---------------------------------------------------------------------
  // The reduce function.

  /** The reduce function may be applied again to its own output, as
      map/reduce requires. */
  lemma SumReReducible()
    ensures ReReducible(Sum)
  {
    forall v: int ensures Sum([v]) == v {
      assert [v][..0] == [];
    }
    forall vs: seq<int>, v: int ensures Sum([Sum(vs), v]) == Sum(vs + [v]) {
      var x := Sum(vs);
      assert [x, v][..1] == [x];
      assert [x][..0] == [];
      assert (vs + [v])[..|vs|] == vs;
    }
  }

  lemma {:induction false} SumAppend(a: seq<int>, b: seq<int>)
    ensures Sum(a + b) == Sum(a) + Sum(b)
    decreases |b|
  {
    if b == [] {
      assert a + b == a;
    } else {
      var b' := b[..|b| - 1];
      assert (a + b)[..|a + b| - 1] == a + b';
      SumAppend(a, b');
    }
  }

  // ---------------------------------------------------------------------
  // The map phase.

  lemma {:induction false} CountPhaseAppend(a: seq<InvRecord>, b: seq<InvRecord>, score: Score)
    ensures CountPhase(a + b, score) == CountPhase(a, score) + CountPhase(b, score)
  {
    if a == [] {
      assert a + b == b;
    } else {
      assert (a + b)[1..] == a[1..] + b;
      CountPhaseAppend(a[1..], b, score);
    }
  }

  /** The map phase over one more record. */
  lemma CountPhaseStep(inverted: seq<InvRecord>, i: nat, score: Score)
    requires i < |inverted|
    ensures CountPhase(inverted[..i + 1], score) == CountPhase(inverted[..i], score) + RecordEmits(inverted[i], score)
  {
    var rec := inverted[i];
    assert inverted[..i + 1] == inverted[..i] + [rec];
    CountPhaseAppend(inverted[..i], [rec], score);
    assert [rec][1..] == [];
  }

  // ---------------------------------------------------------------------
  // The shape of one record's emissions.

  /** A stream of emissions made of consecutive twins: a tagged emission
      for tag `t` with count `c`, then the tag-free emission for the same
      pair with the same count. */
  ghost predicate Twinned(es: seq<CountEmit>, t: Tag, c: int)
    decreases |es|
  {
    es == [] ||
    (&& |es| >= 2
     && es[0] == Entry(PairKey(Some(t), es[0].key.a, es[0].key.b), c)
     && es[1] == Entry(PairKey(None, es[0].key.a, es[0].key.b), c)
     && Twinned(es[2..], t, c))
  }

  lemma {:induction false} TwinnedAppend(a: seq<CountEmit>, b: seq<CountEmit>, t: Tag, c: int)
    requires Twinned(a, t, c) && Twinned(b, t, c)
    ensures Twinned(a + b, t, c)
    decreases |a|
  {
    if a == [] {
      assert a + b == b;
    } else {
      assert (a + b)[2..] == a[2..] + b;
      TwinnedAppend(a[2..], b, t, c);
    }
  }

  lemma {:induction false} RowShape(t: Tag, s: seq<Id>, c: int, x: nat, upto: nat)
    requires x < |s| && upto <= |s|
    ensures |Row(t, s, c, NumericLess, x, upto)| == if upto > x + 1 then 2 * (upto - x - 1) else 0
    ensures Twinned(Row(t, s, c, NumericLess, x, upto), t, c)
  {
    if upto > 0 {
      var y := upto - 1;
      RowShape(t, s, c, x, y);
      var p := PairEmits(t, s[x], s[y], c);
      assert p[2..] == [];
      TwinnedAppend(Row(t, s, c, NumericLess, x, y), if x < y then p else [], t, c);
    }
  }

  /** How many emissions the outer loop makes over its first `upto`
      positions, for a list of `n` ids: two per position pair. */
  function PairSlots(n: nat, upto: nat): nat
    requires upto <= n
  {
    if upto == 0 then 0 else PairSlots(n, upto - 1) + 2 * (n - upto)
  }

  lemma {:induction false} PairSlotsClosedForm(n: nat, upto: nat)
    requires upto <= n
    ensures PairSlots(n, upto) == upto * (2 * n - upto - 1)
  {
    if upto > 0 {
      PairSlotsClosedForm(n, upto - 1);
      PairCountStep(n, upto - 1);
    }
  }

  lemma PairCountStep(n: int, x: int)
    ensures x * (2 * n - x - 1) + 2 * (n - x - 1) == (x + 1) * (2 * n - (x + 1) - 1)
  {
    var m := 2 * n - x - 2;
    assert (x + 1) * m == x * m + m;
    assert x * (m + 1) == x * m + x;
  }

  lemma {:induction false} RowsLength(t: Tag, s: seq<Id>, c: int, upto: nat)
    requires upto <= |s|
    ensures |Rows(t, s, c, NumericLess, upto)| == PairSlots(|s|, upto)
  {
    if upto > 0 {
      RowsLength(t, s, c, upto - 1);
      RowShape(t, s, c, upto - 1, |s|);
    }
  }

  lemma {:induction false} RowsTwinned(t: Tag, s: seq<Id>, c: int, upto: nat)
    requires upto <= |s|
    ensures Twinned(Rows(t, s, c, NumericLess, upto), t, c)
  {
    if upto > 0 {
      var x := upto - 1;
      RowsTwinned(t, s, c, x);
      RowShape(t, s, c, x, |s|);
      TwinnedAppend(Rows(t, s, c, NumericLess, x), Row(t, s, c, NumericLess, x, |s|), t, c);
    }
  }

  /** For an entity list of `n` ids the map function emits `n(n-1)/2`
      twins: `n(n-1)/2` tagged emissions and as many tag-free ones, every
      one carrying the record's tag score. A list of fewer than two ids emits
      nothing. */
  lemma RecordEmitsShape(rec: InvRecord, score: Score)
    ensures |RecordEmits(rec, score)| == |rec.value| * (|rec.value| - 1)
    ensures Twinned(RecordEmits(rec, score), rec.key.tag, score(rec.key.tag))
    ensures |rec.value| < 2 ==> RecordEmits(rec, score) == []
  {
    var s := SortIds(rec.value);
    assert |s| == |rec.value| by {
      assert |multiset(s)| == |multiset(rec.value)|;
    }
    RowsLength(rec.key.tag, s, score(rec.key.tag), |s|);
    RowsTwinned(rec.key.tag, s, score(rec.key.tag), |s|);
    PairSlotsClosedForm(|s|, |s|);
  }

  // ---------------------------------------------------------------------
  // What the counts add up to.

  /** Whether the emissions of a record with tag `t` can carry key `k`:
      the tag-free keys, and the keys of tag `t`. */
  predicate Covers(k: PairKey, t: Tag)
  {
    k.tag == None || k.tag == Some(t)
  }

  /** How many inner positions `x < y < upto` hold `b` while `x` holds `a`. */
  function RowMatches(s: seq<Id>, x: nat, upto: nat, a: Id, b: Id): nat
    requires x < |s| && upto <= |s|
  {
    if upto == 0 then 0
    else
      var y := upto - 1;
      RowMatches(s, x, y, a, b) + (if x < y && s[x] == a && s[y] == b then 1 else 0)
  }

  /** How many position pairs `x < y` with `x < upto` hold `a` at `x` and `b` at `y`. */
  function Matches(s: seq<Id>, upto: nat, a: Id, b: Id): nat
    requires upto <= |s|
  {
    if upto == 0 then 0 else Matches(s, upto - 1, a, b) + RowMatches(s, upto - 1, |s|, a, b)
  }

  /** How many position pairs `x < y` of `s` hold `a` at `x` and `b` at `y`. */
  function PairOccurrences(s: seq<Id>, a: Id, b: Id): nat
  {
    Matches(s, |s|, a, b)
  }

  /** `c * n`, written as `n` additions of `c`. */
  function Times(c: int, n: nat): int
  {
    if n == 0 then 0 else Times(c, n - 1) + c
  }

  lemma {:induction false} TimesIsProduct(c: int, n: nat)
    ensures Times(c, n) == c * n
  {
    if n > 0 {
      TimesIsProduct(c, n - 1);
      assert c * n == c * (n - 1) + c;
    }
  }

  lemma {:induction false} TimesAdd(c: int, m: nat, n: nat)
    ensures Times(c, m + n) == Times(c, m) + Times(c, n)
    decreases n
  {
    if n > 0 {
      TimesAdd(c, m, n - 1);
    }
  }

  lemma TotalAppend(a: seq<CountEmit>, b: seq<CountEmit>, k: PairKey)
    ensures Total(a + b, k) == Total(a, k) + Total(b, k)
  {
    ValuesForAppend(a, b, k);
    SumAppend(ValuesFor(a, k), ValuesFor(b, k));
  }

  lemma PairEmitsTotal(t: Tag, a: Id, b: Id, c: int, k: PairKey)
    ensures Total(PairEmits(t, a, b, c), k) == if Covers(k, t) && k.a == a && k.b == b then c else 0
  {
    var p := PairEmits(t, a, b, c);
    var first, second := p[0], p[1];
    assert p[..1] == [first] && [first][..0] == [];
    var v0 := ValuesFor([first], k);
    assert ValuesFor([first][..0], k) == [];
    assert v0 == (if first.key == k then [c] else []);
    var vs := ValuesFor(p, k);
    assert vs == v0 + (if second.key == k then [c] else []);
    assert [c][..0] == [];
    if Covers(k, t) && k.a == a && k.b == b {
      assert vs == [c];
    } else {
      assert vs == [];
    }
  }

  /** Totals of two runs of emissions under a key add up, and so do their
      match counts. */
  lemma CombineTotals(p: seq<CountEmit>, q: seq<CountEmit>, k: PairKey, covered: bool, c: int, m: nat, n: nat)
    requires Total(p, k) == if covered then Times(c, m) else 0
    requires Total(q, k) == if covered then Times(c, n) else 0
    ensures Total(p + q, k) == if covered then Times(c, m + n) else 0
  {
    TotalAppend(p, q, k);
    TimesAdd(c, m, n);
  }

  /** One round of the inner loop, unfolded. */
  lemma RowStep(t: Tag, s: seq<Id>, c: int, x: nat, upto: nat)
    requires x < |s| && 0 < upto <= |s|
    ensures Row(t, s, c, NumericLess, x, upto)
      == Row(t, s, c, NumericLess, x, upto - 1) + (if x < upto - 1 then PairEmits(t, s[x], s[upto - 1], c) else [])
  {
  }

  lemma RowMatchesStep(s: seq<Id>, x: nat, upto: nat, a: Id, b: Id)
    requires x < |s| && 0 < upto <= |s|
    ensures RowMatches(s, x, upto, a, b)
      == RowMatches(s, x, upto - 1, a, b) + (if x < upto - 1 && s[x] == a && s[upto - 1] == b then 1 else 0)
  {
  }

  /** One round of the outer loop, unfolded. */
  lemma RowsStep(t: Tag, s: seq<Id>, c: int, upto: nat)
    requires 0 < upto <= |s|
    ensures Rows(t, s, c, NumericLess, upto) == Rows(t, s, c, NumericLess, upto - 1) + Row(t, s, c, NumericLess, upto - 1, |s|)
  {
  }

  lemma MatchesStep(s: seq<Id>, upto: nat, a: Id, b: Id)
    requires 0 < upto <= |s|
    ensures Matches(s, upto, a, b) == Matches(s, upto - 1, a, b) + RowMatches(s, upto - 1, |s|, a, b)
  {
  }

  lemma {:induction false} RowTotal(t: Tag, s: seq<Id>, c: int, x: nat, upto: nat, k: PairKey)
    requires x < |s| && upto <= |s|
    ensures Total(Row(t, s, c, NumericLess, x, upto), k)
      == if Covers(k, t) then Times(c, RowMatches(s, x, upto, k.a, k.b)) else 0
  {
    if upto > 0 {
      var y := upto - 1;
      var prev := Row(t, s, c, NumericLess, x, y);
      var last := if x < y then PairEmits(t, s[x], s[y], c) else [];
      var m := RowMatches(s, x, y, k.a, k.b);
      var h := if x < y && s[x] == k.a && s[y] == k.b then 1 else 0;
      assert Row(t, s, c, NumericLess, x, upto) == prev + last
        && RowMatches(s, x, upto, k.a, k.b) == m + h by {
        RowStep(t, s, c, x, upto);
        RowMatchesStep(s, x, upto, k.a, k.b);
      }
      assert Total(prev + last, k) == if Covers(k, t) then Times(c, m + h) else 0 by {
        RowTotal(t, s, c, x, y, k);
        assert Total(last, k) == if Covers(k, t) then Times(c, h) else 0 by {
          if x < y {
            PairEmitsTotal(t, s[x], s[y], c, k);
          } else {
            assert ValuesFor(last, k) == [];
          }
        }
        CombineTotals(prev, last, k, Covers(k, t), c, m, h);
      }
    }
  }

  lemma {:induction false} RowsTotal(t: Tag, s: seq<Id>, c: int, upto: nat, k: PairKey)
    requires upto <= |s|
    ensures Total(Rows(t, s, c, NumericLess, upto), k)
      == if Covers(k, t) then Times(c, Matches(s, upto, k.a, k.b)) else 0
  {
    if upto > 0 {
      var x := upto - 1;
      var prev, row := Rows(t, s, c, NumericLess, x), Row(t, s, c, NumericLess, x, |s|);
      var m, r := Matches(s, x, k.a, k.b), RowMatches(s, x, |s|, k.a, k.b);
      assert Rows(t, s, c, NumericLess, upto) == prev + row by {
        RowsStep(t, s, c, upto);
      }
      assert Matches(s, upto, k.a, k.b) == m + r by {
        MatchesStep(s, upto, k.a, k.b);
      }
      assert Total(prev, k) == if Covers(k, t) then Times(c, m) else 0 by {
        RowsTotal(t, s, c, x, k);
      }
      assert Total(row, k) == if Covers(k, t) then Times(c, r) else 0 by {
        RowTotal(t, s, c, x, |s|, k);
      }
      TotalOfSplit(Rows(t, s, c, NumericLess, upto), prev, row, k, Covers(k, t), c, Matches(s, upto, k.a, k.b), m, r);
    } else {
      assert Rows(t, s, c, NumericLess, 0) == [];
    }
  }

  /** The total of a run split in two, from the totals of its halves. */
  lemma TotalOfSplit(whole: seq<CountEmit>, p: seq<CountEmit>, q: seq<CountEmit>, k: PairKey, covered: bool, c: int, n: nat, m: nat, r: nat)
    requires whole == p + q && n == m + r
    requires Total(p, k) == if covered then Times(c, m) else 0
    requires Total(q, k) == if covered then Times(c, r) else 0
    ensures Total(whole, k) == if covered then Times(c, n) else 0
  {
    CombineTotals(p, q, k, covered, c, m, r);
  }

  /** One inverted record contributes its tag score once for every
      co-occurrence of the pair in its sorted entity list, to the pair's
      tag-free key and to the key of its own tag, and nothing to any other key. */
  lemma RecordTotal(rec: InvRecord, score: Score, k: PairKey)
    ensures Total(RecordEmits(rec, score), k)
      == if Covers(k, rec.key.tag) then Times(score(rec.key.tag), PairOccurrences(SortIds(rec.value), k.a, k.b)) else 0
  {
    var s := SortIds(rec.value);
    RowsTotal(rec.key.tag, s, score(rec.key.tag), |s|, k);
  }

  /** Reference definition of a pair key's total: the sum, over the inverted
      records, of the record's tag score times the pair's co-occurrences in
      the record. */
  function Weighted(inverted: seq<InvRecord>, score: Score, k: PairKey): int
  {
    if inverted == [] then 0
    else
      var rec := inverted[0];
      (if Covers(k, rec.key.tag) then score(rec.key.tag) * PairOccurrences(SortIds(rec.value), k.a, k.b) else 0)
        + Weighted(inverted[1..], score, k)
  }

  /** The counts the map phase emits under a key add up to the reference
      total. */
  lemma {:induction false} CountPhaseTotal(inverted: seq<InvRecord>, score: Score, k: PairKey)
    ensures Total(CountPhase(inverted, score), k) == Weighted(inverted, score, k)
  {
    if inverted != [] {
      var head := RecordEmits(inverted[0], score);
      var tail := CountPhase(inverted[1..], score);
      CountPhaseTotal(inverted[1..], score, k);
      RecordTotal(inverted[0], score, k);
      TimesIsProduct(score(inverted[0].key.tag), PairOccurrences(SortIds(inverted[0].value), k.a, k.b));
      TotalAppend(head, tail, k);
    }
  }

  /** The count collection holds, for every key the map phase emitted, the
      total of its counts; it holds no other key. */
  lemma CountsLookup(inverted: seq<InvRecord>, score: Score, k: PairKey)
    ensures DistinctKeys(Counts(inverted, score))
    ensures Lookup(Counts(inverted, score), k)
      == if HasKey(CountPhase(inverted, score), k) then Some(Weighted(inverted, score, k)) else None
  {
    ReducedLookup(CountPhase(inverted, score), Sum, k);
    CountPhaseTotal(inverted, score, k);
  }

  /** Score linearity: the counts for the sum of two score functions are the
      sums of their counts. */
  lemma {:induction false} ScoreLinearity(inverted: seq<InvRecord>, s1: Score, s2: Score, s3: Score, k: PairKey)
    requires forall t :: s3(t) == s1(t) + s2(t)
    ensures Total(CountPhase(inverted, s3), k) == Total(CountPhase(inverted, s1), k) + Total(CountPhase(inverted, s2), k)
  {
    CountPhaseTotal(inverted, s1, k);
    CountPhaseTotal(inverted, s2, k);
    CountPhaseTotal(inverted, s3, k);
    WeightedLinearity(inverted, s1, s2, s3, k);
  }

  lemma {:induction false} WeightedLinearity(inverted: seq<InvRecord>, s1: Score, s2: Score, s3: Score, k: PairKey)
    requires forall t :: s3(t) == s1(t) + s2(t)
    ensures Weighted(inverted, s3, k) == Weighted(inverted, s1, k) + Weighted(inverted, s2, k)
  {
    if inverted != [] {
      WeightedLinearity(inverted[1..], s1, s2, s3, k);
      var t := inverted[0].key.tag;
      var n := PairOccurrences(SortIds(inverted[0].value), k.a, k.b);
      assert (s1(t) + s2(t)) * n == s1(t) * n + s2(t) * n;
    }
  }

  /** Scoring a tag `k` times as high scales the counts attributable to that
      tag by exactly `k`, relative to the default score of 1. */
  lemma {:induction false} TaggedWeightScales(inverted: seq<InvRecord>, score: Score, t: Tag, a: Id, b: Id)
    ensures Weighted(inverted, score, PairKey(Some(t), a, b))
      == score(t) * Weighted(inverted, DefaultScore, PairKey(Some(t), a, b))
  {
    if inverted != [] {
      var k := PairKey(Some(t), a, b);
      TaggedWeightScales(inverted[1..], score, t, a, b);
      var c, n := score(t), PairOccurrences(SortIds(inverted[0].value), a, b);
      var w := Weighted(inverted[1..], DefaultScore, k);
      if inverted[0].key.tag == t {
        assert Weighted(inverted, score, k) == c * n + c * w;
        assert Weighted(inverted, DefaultScore, k) == 1 * n + w;
        Distributes(c, n, w);
      } else {
        assert Weighted(inverted, score, k) == 0 + c * w;
        assert Weighted(inverted, DefaultScore, k) == 0 + w;
      }
    }
  }

  lemma Distributes(c: int, n: int, w: int)
    ensures c * n + c * w == c * (1 * n + w)
  {
  }

  /** Two emission streams that carry the same keys in the same places. */
  ghost predicate SameKeys(p: seq<CountEmit>, q: seq<CountEmit>)
  {
    |p| == |q| && forall i :: 0 <= i < |p| ==> p[i].key == q[i].key
  }

  lemma SameKeysAppend(p: seq<CountEmit>, q: seq<CountEmit>, p': seq<CountEmit>, q': seq<CountEmit>)
    requires SameKeys(p, q) && SameKeys(p', q')
    ensures SameKeys(p + p', q + q')
  {
    forall i | 0 <= i < |p + p'| ensures (p + p')[i].key == (q + q')[i].key {
      if i >= |p| {
        assert (p + p')[i] == p'[i - |p|] && (q + q')[i] == q'[i - |p|];
      }
    }
  }

  lemma {:induction false} RowSameKeys(t: Tag, s: seq<Id>, c1: int, c2: int, less: PositionOrder, x: nat, upto: nat)
    requires x < |s| && upto <= |s|
    ensures SameKeys(Row(t, s, c1, less, x, upto), Row(t, s, c2, less, x, upto))
  {
    if upto > 0 {
      var y := upto - 1;
      RowSameKeys(t, s, c1, c2, less, x, y);
      var e1 := if less(x, y) then PairEmits(t, s[x], s[y], c1) else [];
      var e2 := if less(x, y) then PairEmits(t, s[x], s[y], c2) else [];
      SameKeysAppend(Row(t, s, c1, less, x, y), Row(t, s, c2, less, x, y), e1, e2);
    }
  }

  lemma {:induction false} RowsSameKeys(t: Tag, s: seq<Id>, c1: int, c2: int, less: PositionOrder, upto: nat)
    requires upto <= |s|
    ensures SameKeys(Rows(t, s, c1, less, upto), Rows(t, s, c2, less, upto))
  {
    if upto > 0 {
      RowsSameKeys(t, s, c1, c2, less, upto - 1);
      RowSameKeys(t, s, c1, c2, less, upto - 1, |s|);
      SameKeysAppend(Rows(t, s, c1, less, upto - 1), Rows(t, s, c2, less, upto - 1),
        Row(t, s, c1, less, upto - 1, |s|), Row(t, s, c2, less, upto - 1, |s|));
    }
  }

  /** The keys the map phase emits do not depend on the score function. */
  lemma {:induction false} CountPhaseSameKeys(inverted: seq<InvRecord>, s1: Score, s2: Score)
    ensures SameKeys(CountPhase(inverted, s1), CountPhase(inverted, s2))
  {
    if inverted != [] {
      var rec := inverted[0];
      var ids := SortIds(rec.value);
      RowsSameKeys(rec.key.tag, ids, s1(rec.key.tag), s2(rec.key.tag), NumericLess, |ids|);
      CountPhaseSameKeys(inverted[1..], s1, s2);
      SameKeysAppend(RecordEmits(rec, s1), RecordEmits(rec, s2),
        CountPhase(inverted[1..], s1), CountPhase(inverted[1..], s2));
    }
  }

  lemma SameKeysHasKey(p: seq<CountEmit>, q: seq<CountEmit>, k: PairKey)
    requires SameKeys(p, q)
    ensures HasKey(p, k) <==> HasKey(q, k)
  {
    if HasKey(p, k) {
      var i :| 0 <= i < |p| && p[i].key == k;
      assert q[i].key == k;
    }
    if HasKey(q, k) {
      var i :| 0 <= i < |q| && q[i].key == k;
      assert p[i].key == k;
    }
  }

  /** In the count collection, a tag's pair record exists under any score
      exactly when it exists under the default score, and its count is the
      tag's score times the default count. */
  lemma TaggedCountsScale(inverted: seq<InvRecord>, score: Score, t: Tag, a: Id, b: Id)
    ensures var k := PairKey(Some(t), a, b);
      var scored, plain := Lookup(Counts(inverted, score), k), Lookup(Counts(inverted, DefaultScore), k);
      scored.Some? <==> plain.Some?
    ensures var k := PairKey(Some(t), a, b);
      var scored, plain := Lookup(Counts(inverted, score), k), Lookup(Counts(inverted, DefaultScore), k);
      scored.Some? && plain.Some? ==> scored.value == score(t) * plain.value
  {
    var k := PairKey(Some(t), a, b);
    CountsLookup(inverted, score, k);
    CountsLookup(inverted, DefaultScore, k);
    CountPhaseSameKeys(inverted, score, DefaultScore);
    SameKeysHasKey(CountPhase(inverted, score), CountPhase(inverted, DefaultScore), k);
    TaggedWeightScales(inverted, score, t, a, b);
  }

  // ---------------------------------------------------------------------
  // Counts as numbers of shared keys.

  /** In a list without duplicates, position `x` pairs with at most one
      later position. */
  lemma {:induction false} RowMatchesDistinct(s: seq<Id>, x: nat, upto: nat, a: Id, b: Id)
    requires x < |s| && upto <= |s|
    requires NoDuplicates(s)
    ensures RowMatches(s, x, upto, a, b) == if s[x] == a && exists y :: x < y < upto && s[y] == b then 1 else 0
  {
    if upto > 0 {
      RowMatchesDistinct(s, x, upto - 1, a, b);
      if s[x] == a && exists y :: x < y < upto && s[y] == b {
        var y :| x < y < upto && s[y] == b;
        if y < upto - 1 {
          assert s[upto - 1] != b;
        }
      }
    }
  }

  /** In a list without duplicates, `(a, b)` occupies at most one position
      pair. */
  lemma {:induction false} MatchesDistinct(s: seq<Id>, upto: nat, a: Id, b: Id)
    requires upto <= |s|
    requires NoDuplicates(s)
    ensures Matches(s, upto, a, b)
      == if exists x, y :: 0 <= x < upto && x < y < |s| && s[x] == a && s[y] == b then 1 else 0
  {
    if upto > 0 {
      var x := upto - 1;
      MatchesDistinct(s, x, a, b);
      RowMatchesDistinct(s, x, |s|, a, b);
      if exists x', y :: 0 <= x' < upto && x' < y < |s| && s[x'] == a && s[y] == b {
        var x', y :| 0 <= x' < upto && x' < y < |s| && s[x'] == a && s[y] == b;
        if x' < x {
          assert s[x] != a;
        }
      }
    }
  }

  /** In a sorted list without duplicates, the pair `(a, b)` occurs once
      when both ids are listed and `a` sorts before `b`, and never
      otherwise. */
  lemma PairOccurrencesDistinct(s: seq<Id>, a: Id, b: Id)
    requires Sorted(s) && NoDuplicates(s)
    ensures PairOccurrences(s, a, b) == if a in s && b in s && LexLess(a, b) then 1 else 0
  {
    MatchesDistinct(s, |s|, a, b);
    if a in s && b in s && LexLess(a, b) {
      var i :| 0 <= i < |s| && s[i] == a;
      var j :| 0 <= j < |s| && s[j] == b;
      if j < i {
        LexLeAntisymmetric(a, b);
      }
    }
  }

  /** How many inverted records whose tag `k` covers list both ids of `k`. */
  function SharedRecords(inverted: seq<InvRecord>, k: PairKey): nat
  {
    if inverted == [] then 0
    else
      var rec := inverted[0];
      (if Covers(k, rec.key.tag) && k.a in rec.value && k.b in rec.value then 1 else 0)
        + SharedRecords(inverted[1..], k)
  }

  /** With the default score, and entity lists without duplicates, the total
      of a pair key `(a, b)` with `a` sorting before `b` is the number of
      inverted records, that is of (tag, value) keys, that list both
      entities: of any tag for the tag-free key, of tag `t` for the key of
      tag `t`. */
  lemma {:induction false} DefaultScoreCountsSharedKeys(inverted: seq<InvRecord>, k: PairKey)
    requires forall i :: 0 <= i < |inverted| ==> NoDuplicates(inverted[i].value)
    requires LexLess(k.a, k.b)
    ensures Total(CountPhase(inverted, DefaultScore), k) == SharedRecords(inverted, k)
  {
    CountPhaseTotal(inverted, DefaultScore, k);
    SharedWeight(inverted, k);
  }

  lemma {:induction false} SharedWeight(inverted: seq<InvRecord>, k: PairKey)
    requires forall i :: 0 <= i < |inverted| ==> NoDuplicates(inverted[i].value)
    requires LexLess(k.a, k.b)
    ensures Weighted(inverted, DefaultScore, k) == SharedRecords(inverted, k)
  {
    if inverted != [] {
      var rec := inverted[0];
      var s := SortIds(rec.value);
      SharedWeight(inverted[1..], k);
      NoDuplicatesPermutation(rec.value, s);
      PairOccurrencesDistinct(s, k.a, k.b);
      assert k.a in rec.value <==> k.a in multiset(s);
      assert k.b in rec.value <==> k.b in multiset(s);
    }
  }

  // ---------------------------------------------------------------------
  // The tag-free counts are the sums of the per-tag counts.

  /** Whether `k` is a per-tag key of the pair `(a, b)`. */
  predicate TaggedPair(k: PairKey, a: Id, b: Id)
  {
    k.tag.Some? && k.a == a && k.b == b
  }

  /** The sum of the counts under the per-tag keys of the pair `(a, b)`,
      over a stream of emissions or over a count collection. */
  function TaggedPairSum(c: seq<CountRecord>, a: Id, b: Id): int
  {
    if c == [] then 0
    else
      var last := c[|c| - 1];
      TaggedPairSum(c[..|c| - 1], a, b) + (if TaggedPair(last.key, a, b) then last.value else 0)
  }

  lemma {:induction false} TaggedPairSumAppend(c: seq<CountRecord>, d: seq<CountRecord>, a: Id, b: Id)
    ensures TaggedPairSum(c + d, a, b) == TaggedPairSum(c, a, b) + TaggedPairSum(d, a, b)
    decreases |d|
  {
    if d == [] {
      assert c + d == c;
    } else {
      var d' := d[..|d| - 1];
      assert (c + d)[..|c + d| - 1] == c + d';
      TaggedPairSumAppend(c, d', a, b);
    }
  }

  /** Replacing the value of one record changes the sum by the difference,
      when the record is one of the pair's per-tag records. */
  lemma {:induction false} TaggedPairSumUpdate(c: seq<CountRecord>, i: nat, v: int, a: Id, b: Id)
    requires i < |c|
    ensures TaggedPairSum(c[i := Entry(c[i].key, v)], a, b)
      == TaggedPairSum(c, a, b) + (if TaggedPair(c[i].key, a, b) then v - c[i].value else 0)
  {
    var n := |c| - 1;
    var c' := c[i := Entry(c[i].key, v)];
    if i == n {
      assert c'[..n] == c[..n];
    } else {
      TaggedPairSumUpdate(c[..n], i, v, a, b);
      assert c'[..n] == c[..n][i := Entry(c[i].key, v)];
    }
  }

  /** Storing an emission adds its count to the sum when it is a per-tag
      emission of the pair. */
  lemma TaggedPairSumStore(c: seq<CountRecord>, e: CountEmit, a: Id, b: Id)
    ensures TaggedPairSum(Store(c, e, Sum), a, b)
      == TaggedPairSum(c, a, b) + (if TaggedPair(e.key, a, b) then e.value else 0)
  {
    match IndexOf(c, e.key)
    case Some(k) =>
      var v := Sum([c[k].value, e.value]);
      assert [c[k].value, e.value][..1] == [c[k].value] && [c[k].value][..0] == [];
      assert v == c[k].value + e.value;
      TaggedPairSumUpdate(c, k, v, a, b);
    case None =>
      assert (c + [e])[..|c|] == c;
  }

  /** The map/reduce framework's incremental storing keeps the sum. */
  lemma {:induction false} TaggedPairSumFolded(es: seq<CountEmit>, a: Id, b: Id)
    ensures TaggedPairSum(Folded(es, Sum), a, b) == TaggedPairSum(es, a, b)
  {
    if es != [] {
      TaggedPairSumFolded(es[..|es| - 1], a, b);
      TaggedPairSumStore(Folded(es[..|es| - 1], Sum), es[|es| - 1], a, b);
    }
  }

  lemma PairEmitsTaggedPairSum(t: Tag, x: Id, y: Id, c: int, a: Id, b: Id)
    ensures TaggedPairSum(PairEmits(t, x, y, c), a, b) == if x == a && y == b then c else 0
  {
    var p := PairEmits(t, x, y, c);
    assert p[..1] == [p[0]] && [p[0]][..0] == [];
    assert TaggedPairSum([p[0]], a, b) == if x == a && y == b then c else 0;
    assert !TaggedPair(p[1].key, a, b);
    assert TaggedPairSum(p, a, b) == TaggedPairSum(p[..1], a, b);
  }

  /** In a stream of twins, each tag-free count of a pair is matched by a
      per-tag count of the same pair. */
  lemma {:induction false} TwinnedTotal(es: seq<CountEmit>, t: Tag, c: int, a: Id, b: Id)
    requires Twinned(es, t, c)
    ensures Total(es, PairKey(None, a, b)) == TaggedPairSum(es, a, b)
    decreases |es|
  {
    if es != [] {
      var twins, rest := es[..2], es[2..];
      var k := es[0].key;
      assert es == twins + rest;
      assert twins == PairEmits(t, k.a, k.b, c);
      assert Total(rest, PairKey(None, a, b)) == TaggedPairSum(rest, a, b) by {
        TwinnedTotal(rest, t, c, a, b);
      }
      assert Total(twins, PairKey(None, a, b)) == TaggedPairSum(twins, a, b) by {
        PairEmitsTotal(t, k.a, k.b, c, PairKey(None, a, b));
        PairEmitsTaggedPairSum(t, k.a, k.b, c, a, b);
      }
      TotalAppend(twins, rest, PairKey(None, a, b));
      TaggedPairSumAppend(twins, rest, a, b);
    }
  }

  lemma {:induction false} CountPhaseTwinnedTotal(inverted: seq<InvRecord>, score: Score, a: Id, b: Id)
    ensures Total(CountPhase(inverted, score), PairKey(None, a, b)) == TaggedPairSum(CountPhase(inverted, score), a, b)
  {
    if inverted != [] {
      var rec := inverted[0];
      var head, tail := RecordEmits(rec, score), CountPhase(inverted[1..], score);
      CountPhaseTwinnedTotal(inverted[1..], score, a, b);
      RecordEmitsShape(rec, score);
      TwinnedTotal(head, rec.key.tag, score(rec.key.tag), a, b);
      TotalAppend(head, tail, PairKey(None, a, b));
      TaggedPairSumAppend(head, tail, a, b);
    }
  }

  /** The tag-free record of a pair holds the sum of that pair's per-tag
      records in the count collection. */
  lemma UntaggedIsSumOfTagged(inverted: seq<InvRecord>, score: Score, a: Id, b: Id)
    ensures Total(CountPhase(inverted, score), PairKey(None, a, b)) == TaggedPairSum(Counts(inverted, score), a, b)
  {
    var es := CountPhase(inverted, score);
    CountPhaseTwinnedTotal(inverted, score, a, b);
    TaggedPairSumFolded(es, a, b);
    SumReReducible();
    FoldedIsReduced(es, Sum);
  }

  // ---------------------------------------------------------------------
  // Which pairs are emitted.

  lemma {:induction false} RowMember(t: Tag, s: seq<Id>, c: int, less: PositionOrder, x: nat, upto: nat, e: CountEmit)
    requires x < |s| && upto <= |s|
    requires e in Row(t, s, c, less, x, upto)
    ensures Covers(e.key, t)
    ensures exists y :: 0 <= y < upto && less(x, y) && e.key.a == s[x] && e.key.b == s[y]
  {
    var y := upto - 1;
    var prev := Row(t, s, c, less, x, y);
    if e in prev {
      RowMember(t, s, c, less, x, y, e);
    }
  }

  lemma {:induction false} RowsMember(t: Tag, s: seq<Id>, c: int, less: PositionOrder, upto: nat, e: CountEmit)
    requires upto <= |s|
    requires e in Rows(t, s, c, less, upto)
    ensures Covers(e.key, t)
    ensures exists x, y :: 0 <= x < upto && 0 <= y < |s| && less(x, y) && e.key.a == s[x] && e.key.b == s[y]
  {
    var x := upto - 1;
    if e in Rows(t, s, c, less, x) {
      RowsMember(t, s, c, less, x, e);
    } else {
      RowMember(t, s, c, less, x, |s|, e);
    }
  }

  /** Both emissions of the pair `(a, b)` with count `c`, the one under tag
      `t` and the tag-free one, occur in `es`. */
  predicate EmitsPair(es: seq<CountEmit>, t: Tag, a: Id, b: Id, c: int)
  {
    Entry(PairKey(Some(t), a, b), c) in es && Entry(PairKey(None, a, b), c) in es
  }

  lemma EmitsPairLeft(p: seq<CountEmit>, q: seq<CountEmit>, t: Tag, a: Id, b: Id, c: int)
    requires EmitsPair(p, t, a, b, c)
    ensures EmitsPair(p + q, t, a, b, c)
  {
    InLeft(Entry(PairKey(Some(t), a, b), c), p, q);
    InLeft(Entry(PairKey(None, a, b), c), p, q);
  }

  lemma EmitsPairRight(p: seq<CountEmit>, q: seq<CountEmit>, t: Tag, a: Id, b: Id, c: int)
    requires EmitsPair(q, t, a, b, c)
    ensures EmitsPair(p + q, t, a, b, c)
  {
    InRight(Entry(PairKey(Some(t), a, b), c), p, q);
    InRight(Entry(PairKey(None, a, b), c), p, q);
  }

  lemma {:induction false} RowContains(t: Tag, s: seq<Id>, c: int, less: PositionOrder, x: nat, upto: nat, y: nat)
    requires x < |s| && y < upto <= |s|
    requires less(x, y)
    ensures EmitsPair(Row(t, s, c, less, x, upto), t, s[x], s[y], c)
  {
    var prev, last := Row(t, s, c, less, x, upto - 1), if less(x, upto - 1) then PairEmits(t, s[x], s[upto - 1], c) else [];
    if y < upto - 1 {
      RowContains(t, s, c, less, x, upto - 1, y);
      EmitsPairLeft(prev, last, t, s[x], s[y], c);
    } else {
      assert last == PairEmits(t, s[x], s[y], c);
      EmitsPairRight(prev, last, t, s[x], s[y], c);
    }
    assert Row(t, s, c, less, x, upto) == prev + last;
  }

  lemma {:induction false} RowsContains(t: Tag, s: seq<Id>, c: int, less: PositionOrder, upto: nat, x: nat, y: nat)
    requires x < upto <= |s| && y < |s|
    requires less(x, y)
    ensures EmitsPair(Rows(t, s, c, less, upto), t, s[x], s[y], c)
  {
    var prev, last := Rows(t, s, c, less, upto - 1), Row(t, s, c, less, upto - 1, |s|);
    if x < upto - 1 {
      RowsContains(t, s, c, less, upto - 1, x, y);
      EmitsPairLeft(prev, last, t, s[x], s[y], c);
    } else {
      RowContains(t, s, c, less, x, |s|, y);
      EmitsPairRight(prev, last, t, s[x], s[y], c);
    }
    assert Rows(t, s, c, less, upto) == prev + last;
  }

  lemma InLeft(e: CountEmit, p: seq<CountEmit>, q: seq<CountEmit>)
    requires e in p
    ensures e in p + q
  {
    var i :| 0 <= i < |p| && p[i] == e;
    assert (p + q)[i] == e;
  }

  lemma InRight(e: CountEmit, p: seq<CountEmit>, q: seq<CountEmit>)
    requires e in q
    ensures e in p + q
  {
    var i :| 0 <= i < |q| && q[i] == e;
    assert (p + q)[|p| + i] == e;
  }

  /** Every emitted pair is in sorted order: its first id sorts no later
      than its second. */
  lemma CanonicalPairs(rec: InvRecord, score: Score, e: CountEmit)
    requires e in RecordEmits(rec, score)
    ensures LexLe(e.key.a, e.key.b)
  {
    var s := SortIds(rec.value);
    RowsMember(rec.key.tag, s, score(rec.key.tag), NumericLess, |s|, e);
  }

  /** Counting sorts a copy of the entity list, so its emissions depend only
      on which ids the record lists, as often as it lists them, and not on
      the order the inversion stage concatenated them in. */
  lemma RecordEmitsIgnoreOrder(r1: InvRecord, r2: InvRecord, score: Score)
    requires r1.key == r2.key
    requires multiset(r1.value) == multiset(r2.value)
    ensures RecordEmits(r1, score) == RecordEmits(r2, score)
  {
    SortedUnique(SortIds(r1.value), SortIds(r2.value));
  }

  // ---------------------------------------------------------------------
  // The reduce function does not depend on the order of its inputs.

  /** Taking one value out of a list takes it out of the total. */
  lemma SumRemove(p: seq<int>, x: int, q: seq<int>)
    ensures Sum(p + [x] + q) == Sum(p + q) + x
  {
    SumAppend(p + [x], q);
    assert (p + [x])[..|p|] == p;
    SumAppend(p, q);
  }

  lemma {:induction false} SumPermutation(a: seq<int>, b: seq<int>)
    requires multiset(a) == multiset(b)
    ensures Sum(a) == Sum(b)
    decreases |a|
  {
    if a != [] {
      var n := |a| - 1;
      var x, a' := a[n], a[..n];
      assert a == a' + [x];
      assert x in multiset(b);
      var j :| 0 <= j < |b| && b[j] == x;
      var p, q := b[..j], b[j + 1..];
      assert b == p + [x] + q;
      SumRemove(p, x, q);
      CancelOne(a', p, x, q);
      SumPermutation(a', p + q);
    }
  }

  /** Taking the same value out of two lists with the same elements leaves
      lists with the same elements. */
  lemma CancelOne(a: seq<int>, p: seq<int>, x: int, q: seq<int>)
    requires multiset(a + [x]) == multiset(p + [x] + q)
    ensures multiset(a) == multiset(p + q)
  {
    forall z ensures multiset(a)[z] == multiset(p + q)[z] {
      assert multiset(a + [x])[z] == multiset(p + [x] + q)[z];
    }
  }

  // ---------------------------------------------------------------------
  // The pair loop as written compares positions as strings.

  /** Positions compared the way the pair loop as written compares them:
      `for..in` yields array positions as property names, so `x < y`
      compares decimal strings ("10" sorts before "2"). */
  function DecimalLess(x: nat, y: nat): bool
  {
    LexLess(Decimal(x), Decimal(y))
  }

  /** The map function's emissions for one record with the comparison as
      written. */
  function RecordEmitsAsWritten(rec: InvRecord, score: Score): seq<CountEmit>
  {
    var s := SortIds(rec.value);
    Rows(rec.key.tag, s, score(rec.key.tag), DecimalLess, |s|)
  }

  /** As decimal strings, position 10 sorts before position 2. */
  lemma TenBeforeTwo()
    ensures DecimalLess(10, 2)
  {
    assert Decimal(10) == "10" && Decimal(2) == "2";
  }

  /** The numeric comparison never emits a pair in reverse sorted order. */
  lemma NeverReversed(rec: InvRecord, score: Score, a: Id, b: Id)
    requires LexLess(a, b)
    ensures !HasKey(RecordEmits(rec, score), PairKey(None, b, a))
  {
    var es := RecordEmits(rec, score);
    if HasKey(es, PairKey(None, b, a)) {
      var i :| 0 <= i < |es| && es[i].key == PairKey(None, b, a);
      CanonicalPairs(rec, score, es[i]);
      LexLeAntisymmetric(a, b);
    }
  }

  /** Every key the map phase emits lists its pair in sorted order. */
  lemma {:induction false} CountPhaseCanonical(inverted: seq<InvRecord>, score: Score, e: CountEmit)
    requires e in CountPhase(inverted, score)
    ensures LexLe(e.key.a, e.key.b)
  {
    if inverted != [] {
      if e in RecordEmits(inverted[0], score) {
        CanonicalPairs(inverted[0], score, e);
      } else {
        CountPhaseCanonical(inverted[1..], score, e);
      }
    }
  }

  /** Every record of the count collection lists its pair in sorted order. */
  lemma CountsCanonical(inverted: seq<InvRecord>, score: Score, k: PairKey)
    requires HasKey(Counts(inverted, score), k)
    ensures LexLe(k.a, k.b)
  {
    var es := CountPhase(inverted, score);
    ReducedLookup(es, Sum, k);
    var i :| 0 <= i < |es| && es[i].key == k;
    CountPhaseCanonical(inverted, score, es[i]);
  }

  /** The count collection holds at most one record per unordered pair and
      tag, so the count seen from `a` is the count seen from `b`. */
  lemma OneRecordPerPair(inverted: seq<InvRecord>, score: Score, t: Option<Tag>, a: Id, b: Id)
    requires a != b
    ensures !(HasKey(Counts(inverted, score), PairKey(t, a, b)) && HasKey(Counts(inverted, score), PairKey(t, b, a)))
  {
    if HasKey(Counts(inverted, score), PairKey(t, a, b)) && HasKey(Counts(inverted, score), PairKey(t, b, a)) {
      CountsCanonical(inverted, score, PairKey(t, a, b));
      CountsCanonical(inverted, score, PairKey(t, b, a));
      LexLeAntisymmetric(a, b);
    }
  }

  /** For a record listing eleven distinct ids or more, the pair at sorted
      positions 2 and 10 comes out reversed as written: its tag-free key is
      `{e: [s[10], s[2]]}`, with the later id first. The numeric comparison
      never emits that key, only `{e: [s[2], s[10]]}`. As written, the counts
      of a pair that also co-occurs in a shorter record are split between
      two keys. */
  lemma AsWrittenReversesPair(rec: InvRecord, score: Score)
    requires |rec.value| >= 11
    requires NoDuplicates(rec.value)
    ensures var s := SortIds(rec.value);
      && |s| == |rec.value|
      && LexLess(s[2], s[10])
      && Entry(PairKey(None, s[10], s[2]), score(rec.key.tag)) in RecordEmitsAsWritten(rec, score)
      && !HasKey(RecordEmits(rec, score), PairKey(None, s[10], s[2]))
      && Entry(PairKey(None, s[2], s[10]), score(rec.key.tag)) in RecordEmits(rec, score)
  {
    var s := SortIds(rec.value);
    var t, c := rec.key.tag, score(rec.key.tag);
    assert |s| == |rec.value| by {
      assert |multiset(s)| == |multiset(rec.value)|;
    }
    assert LexLess(s[2], s[10]) by {
      NoDuplicatesPermutation(rec.value, s);
    }
    TenBeforeTwo();
    RowsContains(t, s, c, DecimalLess, |s|, 10, 2);
    RowsContains(t, s, c, NumericLess, |s|, 2, 10);
    NeverReversed(rec, score, s[2], s[10]);
  }
}
