/** A stable sort by a three-way comparator: the shape of JavaScript's
    `Array.prototype.sort(cmp)` (stable by section 23.1.3.30 of ECMA-262) and of Rust's
    `slice::sort_by` (stable by its documentation). A stable sort by a consistent
    comparator has one possible result, the one the insertion sort here builds. */
module Sorting {
  import opened Text

  /** The comparator's sign flips when its arguments are swapped. */
  ghost predicate Antisymmetric<T(!new)>(cmp: (T, T) -> int) {
    forall a, b :: cmp(a, b) == -cmp(b, a)
  }

  /** Puts x after every element of the sorted list that does not compare greater. */
  function Insert<T>(cmp: (T, T) -> int, x: T, sorted: seq<T>): (r: seq<T>)
    ensures |r| == |sorted| + 1
    decreases |sorted|
  {
    if |sorted| == 0 then [x]
    else if cmp(sorted[0], x) > 0 then [x] + sorted
    else [sorted[0]] + Insert(cmp, x, sorted[1..])
  }

  /** A stable insertion sort: each element goes after the earlier ones that do not
      compare greater. */
  function SortWith<T>(cmp: (T, T) -> int, s: seq<T>): (r: seq<T>)
    ensures |r| == |s|
    decreases |s|
  {
    if |s| == 0 then []
    else Insert(cmp, s[|s| - 1], SortWith(cmp, s[..|s| - 1]))
  }

  predicate Ordered<T>(cmp: (T, T) -> int, s: seq<T>) {
    forall i :: 0 <= i < |s| - 1 ==> cmp(s[i], s[i + 1]) <= 0
  }

  lemma {:induction false} InsertPermutes<T>(cmp: (T, T) -> int, x: T, sorted: seq<T>)
    ensures multiset(Insert(cmp, x, sorted)) == multiset(sorted) + multiset{x}
    decreases |sorted|
  {
    if |sorted| > 0 && cmp(sorted[0], x) <= 0 {
      InsertPermutes(cmp, x, sorted[1..]);
      assert sorted == [sorted[0]] + sorted[1..];
    }
  }

  lemma {:induction false} OrderedTail<T>(cmp: (T, T) -> int, s: seq<T>)
    requires Ordered(cmp, s) && |s| > 0
    ensures Ordered(cmp, s[1..])
  {
    var tail := s[1..];
    forall i | 0 <= i < |tail| - 1 ensures cmp(tail[i], tail[i + 1]) <= 0 {
      assert tail[i] == s[i + 1] && tail[i + 1] == s[i + 2];
    }
  }

  lemma {:induction false} OrderedCons<T>(cmp: (T, T) -> int, y: T, s: seq<T>)
    requires Ordered(cmp, s)
    requires |s| > 0 ==> cmp(y, s[0]) <= 0
    ensures Ordered(cmp, [y] + s)
  {
    var r := [y] + s;
    forall i | 0 <= i < |r| - 1 ensures cmp(r[i], r[i + 1]) <= 0 {
      if i > 0 {
        assert r[i] == s[i - 1] && r[i + 1] == s[i];
      }
    }
  }

  lemma {:induction false} InsertOrdered<T(!new)>(cmp: (T, T) -> int, x: T, sorted: seq<T>)
    requires Antisymmetric(cmp) && Ordered(cmp, sorted)
    ensures Ordered(cmp, Insert(cmp, x, sorted))
    ensures Insert(cmp, x, sorted)[0] == x || (|sorted| > 0 && Insert(cmp, x, sorted)[0] == sorted[0])
    decreases |sorted|
  {
    if |sorted| > 0 {
      if cmp(sorted[0], x) > 0 {
        assert cmp(x, sorted[0]) < 0;
        OrderedCons(cmp, x, sorted);
      } else {
        var tail := sorted[1..];
        OrderedTail(cmp, sorted);
        InsertOrdered(cmp, x, tail);
        OrderedCons(cmp, sorted[0], Insert(cmp, x, tail));
      }
    }
  }

  lemma {:induction false} SortWithFacts<T(!new)>(cmp: (T, T) -> int, s: seq<T>)
    requires Antisymmetric(cmp)
    ensures multiset(SortWith(cmp, s)) == multiset(s)
    ensures Ordered(cmp, SortWith(cmp, s))
    decreases |s|
  {
    if |s| > 0 {
      var init := s[..|s| - 1];
      SortWithFacts(cmp, init);
      InsertPermutes(cmp, s[|s| - 1], SortWith(cmp, init));
      InsertOrdered(cmp, s[|s| - 1], SortWith(cmp, init));
      assert s == init + [s[|s| - 1]];
    }
  }

  lemma {:induction false} SortWithEqual<T(!new)>(cmp: (T, T) -> int, s: seq<T>)
    requires forall a, b :: cmp(a, b) == 0
    ensures SortWith(cmp, s) == s
    decreases |s|
  {
    if |s| > 0 {
      var init := s[..|s| - 1];
      SortWithEqual(cmp, init);
      InsertEqualAppends(cmp, s[|s| - 1], init);
      assert s == init + [s[|s| - 1]];
    }
  }

  lemma {:induction false} InsertEqualAppends<T(!new)>(cmp: (T, T) -> int, x: T, sorted: seq<T>)
    requires forall a, b :: cmp(a, b) == 0
    ensures Insert(cmp, x, sorted) == sorted + [x]
    decreases |sorted|
  {
    if |sorted| > 0 {
      InsertEqualAppends(cmp, x, sorted[1..]);
      assert sorted == [sorted[0]] + sorted[1..];
    }
  }

  /** `a.cmp(&b)` on strings, as -1, 0 or 1. */
  function CompareStrings(a: string, b: string): int {
    if LexLess(a, b) then -1 else if LexLess(b, a) then 1 else 0
  }

  lemma {:induction false} CompareStringsAntisymmetric()
    ensures Antisymmetric(CompareStrings)
  {
    forall a, b ensures CompareStrings(a, b) == -CompareStrings(b, a) {
      LexLessAsymmetric(a, b);
    }
  }
}
