/** String order and sorting.

    Entity ids are strings. The counting map function sorts each entity list
    with JavaScript's default `Array.prototype.sort()`, which orders strings
    lexicographically. JavaScript compares UTF-16 code units; the model
    compares characters, which agrees except for ids that mix characters
    above U+FFFF with characters in U+E000 to U+FFFF. */
module Strings {

  /** Lexicographic `a <= b`: a prefix sorts first. */
  predicate LexLe(a: string, b: string)
  {
    a == [] || (b != [] && (a[0] < b[0] || (a[0] == b[0] && LexLe(a[1..], b[1..]))))
  }

  predicate LexLess(a: string, b: string)
  {
    LexLe(a, b) && a != b
  }

  lemma {:induction false} LexLeReflexive(a: string)
    ensures LexLe(a, a)
  {
    if a != [] {
      LexLeReflexive(a[1..]);
    }
  }

  lemma {:induction false} LexLeTotal(a: string, b: string)
    ensures LexLe(a, b) || LexLe(b, a)
  {
    if a != [] && b != [] && a[0] == b[0] {
      LexLeTotal(a[1..], b[1..]);
    }
  }

  lemma {:induction false} LexLeTransitive(a: string, b: string, c: string)
    requires LexLe(a, b) && LexLe(b, c)
    ensures LexLe(a, c)
  {
    if a != [] && b != [] && c != [] && a[0] == b[0] == c[0] {
      LexLeTransitive(a[1..], b[1..], c[1..]);
    }
  }

  lemma {:induction false} LexLeAntisymmetric(a: string, b: string)
    requires LexLe(a, b) && LexLe(b, a)
    ensures a == b
  {
    if a != [] && b != [] {
      LexLeAntisymmetric(a[1..], b[1..]);
      assert a == [a[0]] + a[1..] && b == [b[0]] + b[1..];
    }
  }

  ghost predicate Sorted(s: seq<string>)
  {
    forall i, j :: 0 <= i < j < |s| ==> LexLe(s[i], s[j])
  }

  /** A lower bound of a sorted list may be put in front of it. */
  lemma SortedCons(y: string, s: seq<string>)
    requires Sorted(s)
    requires forall z :: z in multiset(s) ==> LexLe(y, z)
    ensures Sorted([y] + s)
  {
    forall i, j | 0 <= i < j < |[y] + s| ensures LexLe(([y] + s)[i], ([y] + s)[j]) {
      if i == 0 { assert s[j - 1] in multiset(s); }
    }
  }

  /** A lower bound of the first element of a sorted list bounds all of it. */
  lemma SortedLowerBound(x: string, s: seq<string>)
    requires Sorted(s)
    requires s != [] ==> LexLe(x, s[0])
    ensures forall z :: z in multiset(s) ==> LexLe(x, z)
  {
    forall z | z in multiset(s) ensures LexLe(x, z) {
      var j :| 0 <= j < |s| && s[j] == z;
      if 0 < j { LexLeTransitive(x, s[0], s[j]); }
    }
  }

  /** Inserts `x` before the first element it does not sort after. */
  function Insert(x: string, s: seq<string>): (r: seq<string>)
    requires Sorted(s)
    ensures Sorted(r)
    ensures multiset(r) == multiset(s) + multiset{x}
  {
    if s == [] || LexLe(x, s[0]) then
      SortedLowerBound(x, s);
      SortedCons(x, s);
      [x] + s
    else
      var y, tail := s[0], s[1..];
      LexLeTotal(x, y);
      assert s == [y] + tail;
      var rest := Insert(x, tail);
      LexLeReflexive(y);
      SortedLowerBound(y, s);
      assert multiset(s) == multiset{y} + multiset(tail);
      assert forall z :: z in multiset(rest) ==> LexLe(y, z) by {
        forall z | z in multiset(rest) ensures LexLe(y, z) {
          if z != x { assert z in multiset(s); }
        }
      }
      SortedCons(y, rest);
      [y] + rest
  }

  /** The sorted copy `slice(0).sort()` makes of an entity list: ordered,
      and a permutation of the input (nothing added, nothing dropped,
      duplicates kept). */
  function SortIds(ids: seq<string>): (s: seq<string>)
    ensures Sorted(s)
    ensures multiset(s) == multiset(ids)
  {
    if ids == [] then []
    else
      assert ids == [ids[0]] + ids[1..];
      Insert(ids[0], SortIds(ids[1..]))
  }

  lemma SortedTail(a: seq<string>)
    requires Sorted(a) && a != []
    ensures Sorted(a[1..])
  {
    forall i, k | 0 <= i < k < |a| - 1 ensures LexLe(a[1..][i], a[1..][k]) {
      assert LexLe(a[i + 1], a[k + 1]);
    }
  }

  /** Two sorted lists with the same elements start with the same one. */
  lemma SortedHeads(a: seq<string>, b: seq<string>)
    requires Sorted(a) && Sorted(b) && a != [] && b != []
    requires multiset(a) == multiset(b)
    ensures a[0] == b[0]
  {
    assert a[0] in multiset(b) && b[0] in multiset(a);
    var j :| 0 <= j < |b| && b[j] == a[0];
    var i :| 0 <= i < |a| && a[i] == b[0];
    LexLeReflexive(a[0]);
    LexLeReflexive(b[0]);
    assert LexLe(a[0], b[0]) by { if i > 0 { assert LexLe(a[0], a[i]); } }
    assert LexLe(b[0], a[0]) by { if j > 0 { assert LexLe(b[0], b[j]); } }
    LexLeAntisymmetric(a[0], b[0]);
  }

  /** Removing the same first element from two lists with the same elements
      leaves lists with the same elements. */
  lemma TailsAgree(a: seq<string>, b: seq<string>)
    requires a != [] && b != [] && a[0] == b[0]
    requires multiset(a) == multiset(b)
    ensures multiset(a[1..]) == multiset(b[1..])
  {
    assert a == [a[0]] + a[1..] && b == [b[0]] + b[1..];
    forall z ensures multiset(a[1..])[z] == multiset(b[1..])[z] {
      assert multiset(a)[z] == multiset(b)[z];
    }
  }

  /** A sorted list is determined by its elements: sorting forgets the
      order of its input. */
  lemma {:induction false} SortedUnique(a: seq<string>, b: seq<string>)
    requires Sorted(a) && Sorted(b)
    requires multiset(a) == multiset(b)
    ensures a == b
  {
    assert |a| == |b| by {
      assert |multiset(b)| == |multiset(a)|;
    }
    if a != [] {
      SortedHeads(a, b);
      TailsAgree(a, b);
      SortedTail(a);
      SortedTail(b);
      SortedUnique(a[1..], b[1..]);
      assert a == [a[0]] + a[1..] && b == [b[0]] + b[1..];
    }
  }

  /** The number a string of decimal digits denotes, most significant
      digit first. */
  function DigitsValue(s: string): nat
  {
    if s == [] then 0
    else
      var d := s[|s| - 1] as int - '0' as int;
      DigitsValue(s[..|s| - 1]) * 10 + (if 0 <= d <= 9 then d else 0)
  }

  /** Decimal digits of `n`, as JavaScript writes an array index: the
      digits denote `n`, with no leading zero. */
  function Decimal(n: nat): (s: string)
    ensures |s| >= 1
    ensures forall i :: 0 <= i < |s| ==> '0' <= s[i] <= '9'
    ensures DigitsValue(s) == n
    ensures s[0] != '0' || n == 0
  {
    var digit := ['0' + (n % 10) as char];
    if n < 10 then digit else Decimal(n / 10) + digit
  }
}
