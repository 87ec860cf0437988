/**
 * `Array.prototype.sort`, which has been stable since ECMAScript 2019, as a
 * stable insertion sort: with a total preorder its result is sorted, a
 * permutation of its input, and keeps the input order among elements that tie.
 * Also the default ordering of `sort()` without a comparator: strings
 * compared by UTF-16 code units.
 */
module Sorting {

  // ---------------------------------------------------------------------------
  // Orders

  ghost predicate Total<T(!new)>(leq: (T, T) -> bool) {
    forall a, b :: leq(a, b) || leq(b, a)
  }

  ghost predicate Transitive<T(!new)>(leq: (T, T) -> bool) {
    forall a, b, c :: leq(a, b) && leq(b, c) ==> leq(a, c)
  }

  /** Each element is ordered before its successor. */
  predicate Adjacent<T>(s: seq<T>, leq: (T, T) -> bool) {
    forall i :: 0 < i < |s| ==> leq(s[i - 1], s[i])
  }

  /** Each element is ordered before every later one. */
  predicate Sorted<T>(s: seq<T>, leq: (T, T) -> bool) {
    forall i, j :: 0 <= i < j < |s| ==> leq(s[i], s[j])
  }

  // ---------------------------------------------------------------------------
  // Stable insertion sort

  /** Puts `x` before the first element it is ordered before. */
  function Insert<T>(x: T, s: seq<T>, leq: (T, T) -> bool): (r: seq<T>)
    ensures multiset(r) == multiset(s) + multiset{x}
    ensures |r| == |s| + 1
  {
    if s == [] then [x]
    else if leq(x, s[0]) then [x] + s
    else
      var r := [s[0]] + Insert(x, s[1..], leq);
      assert s == [s[0]] + s[1..];
      r
  }

  /** Sorts by inserting each element, from the last to the first, into the
      sorted rest: an element lands before every later element it is ordered
      before, so ties keep their input order. */
  function SortBy<T>(s: seq<T>, leq: (T, T) -> bool): (r: seq<T>)
    ensures |r| == |s|
  {
    if s == [] then [] else Insert(s[0], SortBy(s[1..], leq), leq)
  }

  lemma {:induction false} InsertAdjacent<T(!new)>(x: T, s: seq<T>, leq: (T, T) -> bool)
    requires Total(leq) && Adjacent(s, leq)
    ensures Adjacent(Insert(x, s, leq), leq)
    ensures s != [] ==> var r := Insert(x, s, leq); r[0] == x || r[0] == s[0]
  {
    if s != [] && !leq(x, s[0]) {
      var tail := s[1..];
      assert Adjacent(tail, leq) by {
        forall i | 0 < i < |tail| ensures leq(tail[i - 1], tail[i]) {
          assert tail[i - 1] == s[i] && tail[i] == s[i + 1];
        }
      }
      InsertAdjacent(x, tail, leq);
      var ins := Insert(x, tail, leq);
      var r := [s[0]] + ins;
      assert leq(s[0], x);
      forall i | 0 < i < |r| ensures leq(r[i - 1], r[i]) {
        if i == 1 {
          if tail != [] {
            assert ins[0] == x || ins[0] == s[1];
          }
        } else {
          assert r[i - 1] == ins[i - 2] && r[i] == ins[i - 1];
        }
      }
    }
  }

  /** With a total order, the sort leaves each element ordered before its successor. */
  lemma {:induction false} SortByAdjacent<T(!new)>(s: seq<T>, leq: (T, T) -> bool)
    requires Total(leq)
    ensures Adjacent(SortBy(s, leq), leq)
  {
    if s != [] {
      SortByAdjacent(s[1..], leq);
      InsertAdjacent(s[0], SortBy(s[1..], leq), leq);
    }
  }

  lemma {:induction false} AdjacentSorted<T(!new)>(s: seq<T>, leq: (T, T) -> bool)
    requires Transitive(leq) && Adjacent(s, leq)
    ensures Sorted(s, leq)
  {
    if |s| > 1 {
      var tail := s[1..];
      assert Adjacent(tail, leq) by {
        forall i | 0 < i < |tail| ensures leq(tail[i - 1], tail[i]) {
          assert tail[i - 1] == s[i] && tail[i] == s[i + 1];
        }
      }
      AdjacentSorted(tail, leq);
      forall i, j | 0 <= i < j < |s| ensures leq(s[i], s[j]) {
        if i == 0 {
          if j > 1 {
            assert leq(s[1], s[j]) by { assert tail[0] == s[1] && tail[j - 1] == s[j]; }
          }
        } else {
          assert tail[i - 1] == s[i] && tail[j - 1] == s[j];
        }
      }
    }
  }

  /** With a total preorder, the sort orders every element before every later one. */
  lemma SortBySorted<T(!new)>(s: seq<T>, leq: (T, T) -> bool)
    requires Total(leq) && Transitive(leq)
    ensures Sorted(SortBy(s, leq), leq)
  {
    SortByAdjacent(s, leq);
    AdjacentSorted(SortBy(s, leq), leq);
  }

  /** The sort rearranges its input: nothing is lost, added or duplicated. */
  lemma {:induction false} SortByPermutes<T>(s: seq<T>, leq: (T, T) -> bool)
    ensures multiset(SortBy(s, leq)) == multiset(s)
  {
    if s != [] {
      SortByPermutes(s[1..], leq);
      assert s == [s[0]] + s[1..];
    }
  }

  /** `x` and `a` are ordered both ways: neither sorts strictly before the other. */
  predicate Tie<T>(x: T, a: T, leq: (T, T) -> bool) {
    leq(x, a) && leq(a, x)
  }

  /** `[x]` when `x` ties with `a`, otherwise nothing. */
  function Tied<T>(x: T, a: T, leq: (T, T) -> bool): seq<T> {
    if Tie(x, a, leq) then [x] else []
  }

  /** The elements of `s` that tie with `a`, in order. */
  function Ties<T>(s: seq<T>, a: T, leq: (T, T) -> bool): seq<T> {
    if s == [] then [] else Tied(s[0], a, leq) + Ties(s[1..], a, leq)
  }

  lemma TiesCons<T>(y: T, t: seq<T>, a: T, leq: (T, T) -> bool)
    ensures Ties([y] + t, a, leq) == Tied(y, a, leq) + Ties(t, a, leq)
  {
    assert ([y] + t)[1..] == t;
  }

  /** Moving `x` past a `y` it does not tie with together with `a` keeps the
      ties in the same order. */
  lemma TiesPast<T>(x: T, y: T, t: seq<T>, u: seq<T>, a: T, leq: (T, T) -> bool)
    requires Tie(x, a, leq) ==> !Tie(y, a, leq)
    requires Ties(t, a, leq) == Tied(x, a, leq) + Ties(u, a, leq)
    ensures Ties([y] + t, a, leq) == Tied(x, a, leq) + Ties([y] + u, a, leq)
  {
    TiesCons(y, t, a, leq);
    TiesCons(y, u, a, leq);
    var hx, hy, rest := Tied(x, a, leq), Tied(y, a, leq), Ties(u, a, leq);
    if Tie(x, a, leq) {
      assert hy == [];
    } else {
      assert hx == [];
    }
    assert hy + (hx + rest) == hx + (hy + rest);
  }

  /** Inserting `x`, which is ordered before everything it ties with, puts it
      in front of the elements of `s` that tie with it. */
  lemma {:induction false} InsertTies<T(!new)>(x: T, s: seq<T>, a: T, leq: (T, T) -> bool)
    requires Tie(x, a, leq) ==> forall y :: Tie(y, a, leq) ==> leq(x, y)
    ensures Ties(Insert(x, s, leq), a, leq) == Tied(x, a, leq) + Ties(s, a, leq)
  {
    if s == [] || leq(x, s[0]) {
      assert Insert(x, s, leq) == [x] + s;
      TiesCons(x, s, a, leq);
    } else {
      InsertTies(x, s[1..], a, leq);
      assert Insert(x, s, leq) == [s[0]] + Insert(x, s[1..], leq);
      assert s == [s[0]] + s[1..];
      TiesPast(x, s[0], Insert(x, s[1..], leq), s[1..], a, leq);
    }
  }

  /** Under a transitive order, whatever ties with `a` is ordered before
      whatever else ties with it. */
  lemma TiesOrdered<T(!new)>(x: T, a: T, leq: (T, T) -> bool)
    requires Transitive(leq)
    ensures Tie(x, a, leq) ==> forall y :: Tie(y, a, leq) ==> leq(x, y)
  {
  }

  /** The sort is stable: the elements that tie with any `a` keep their input
      order. */
  lemma {:induction false} SortByStable<T(!new)>(s: seq<T>, a: T, leq: (T, T) -> bool)
    requires Transitive(leq)
    ensures Ties(SortBy(s, leq), a, leq) == Ties(s, a, leq)
  {
    if s != [] {
      SortByStable(s[1..], a, leq);
      TiesOrdered(s[0], a, leq);
      InsertTies(s[0], SortBy(s[1..], leq), a, leq);
    }
  }

  // ---------------------------------------------------------------------------
  // UTF-16 code-unit order

  /** The UTF-16 encoding of a string: a supplementary character becomes a
      surrogate pair. */
  function Utf16(s: string): (units: seq<int>)
    ensures |units| >= |s|
    ensures forall i :: 0 <= i < |units| ==> 0 <= units[i] < 0x1_0000
  {
    if s == [] then []
    else
      var c := s[0] as int;
      (if c < 0x1_0000 then [c]
       else [0xD800 + (c - 0x1_0000) / 0x400, 0xDC00 + (c - 0x1_0000) % 0x400])
      + Utf16(s[1..])
  }

  /** Lexicographic order on code-unit sequences, a proper prefix first. */
  predicate LexLess(a: seq<int>, b: seq<int>) {
    if a == [] then b != []
    else b != [] && (a[0] < b[0] || (a[0] == b[0] && LexLess(a[1..], b[1..])))
  }

  lemma {:induction false} LexLessIrreflexive(a: seq<int>)
    ensures !LexLess(a, a)
  {
    if a != [] {
      LexLessIrreflexive(a[1..]);
    }
  }

  lemma {:induction false} LexLessTrichotomy(a: seq<int>, b: seq<int>)
    ensures a == b || LexLess(a, b) || LexLess(b, a)
    ensures !(LexLess(a, b) && LexLess(b, a))
  {
    if a != [] && b != [] {
      LexLessTrichotomy(a[1..], b[1..]);
      if a[0] == b[0] && a[1..] == b[1..] {
        assert a == [a[0]] + a[1..] && b == [b[0]] + b[1..];
      }
    }
  }

  lemma {:induction false} LexLessTransitive(a: seq<int>, b: seq<int>, c: seq<int>)
    requires LexLess(a, b) && LexLess(b, c)
    ensures LexLess(a, c)
  {
    if a != [] && a[0] == b[0] && b[0] == c[0] {
      LexLessTransitive(a[1..], b[1..], c[1..]);
    }
  }

  /** `sort()`'s comparison: `a` stays before `b` unless `b` is smaller in
      UTF-16 code units. */
  function CodeUnitOrder(a: string, b: string): bool {
    !LexLess(Utf16(b), Utf16(a))
  }

  /** The default order is a total preorder, so the default sort is well defined. */
  lemma CodeUnitOrderTotalPreorder()
    ensures Total(CodeUnitOrder) && Transitive(CodeUnitOrder)
  {
    forall a: string, b: string ensures CodeUnitOrder(a, b) || CodeUnitOrder(b, a) {
      LexLessTrichotomy(Utf16(a), Utf16(b));
    }
    forall a: string, b: string, c: string | CodeUnitOrder(a, b) && CodeUnitOrder(b, c)
      ensures CodeUnitOrder(a, c)
    {
      var ua, ub, uc := Utf16(a), Utf16(b), Utf16(c);
      LexLessTrichotomy(ua, ub);
      LexLessTrichotomy(ub, uc);
      LexLessTrichotomy(ua, uc);
      if LexLess(ua, ub) && LexLess(ub, uc) {
        LexLessTransitive(ua, ub, uc);
      }
    }
  }

  /** Code-unit order is not code-point order: a character above the
      surrogate range sorts after a supplementary character. */
  lemma CodeUnitOrderNotCodePoint()
    ensures '\U{FF5E}' < '\U{1F600}'
    ensures !CodeUnitOrder("\U{FF5E}", "\U{1F600}")
  {
    assert Utf16("\U{1F600}") == [0xD83D, 0xDE00];
    assert Utf16("\U{FF5E}") == [0xFF5E];
  }
}
