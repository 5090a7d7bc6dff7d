/** The ranking shared by the user and the livestream statistics: a list of
    entries sorted ascending under a strict total order, and a rank read off
    the sorted list by walking it backwards from the best entry. */
module Ranking {

  ghost predicate StrictTotalOrder<T(!new)>(less: (T, T) -> bool) {
    && (forall a :: !less(a, a))
    && (forall a, b, c :: less(a, b) && less(b, c) ==> less(a, c))
    && (forall a, b :: a != b ==> less(a, b) || less(b, a))
  }

  /** Ascending: no later entry is smaller than an earlier one. */
  ghost predicate Sorted<T>(less: (T, T) -> bool, s: seq<T>) {
    forall i, j :: 0 <= i < j < |s| ==> !less(s[j], s[i])
  }

  function Insert<T>(less: (T, T) -> bool, x: T, s: seq<T>): (r: seq<T>)
    ensures multiset(r) == multiset(s) + multiset{x}
  {
    if s == [] then [x]
    else if less(s[0], x) then
      assert s == [s[0]] + s[1..];
      [s[0]] + Insert(less, x, s[1..])
    else [x] + s
  }

  /** The library sort of the source, stated by what it delivers: a sorted
      permutation of its input (see SortByIsSorted). */
  function SortBy<T>(less: (T, T) -> bool, s: seq<T>): (r: seq<T>)
    ensures multiset(r) == multiset(s)
  {
    if s == [] then []
    else
      assert s == [s[0]] + s[1..];
      Insert(less, s[0], SortBy(less, s[1..]))
  }

  /** Putting in front of a sorted list an entry that no entry is below keeps
      it sorted. */
  lemma ConsSorted<T>(less: (T, T) -> bool, h: T, t: seq<T>)
    requires Sorted(less, t)
    requires forall k :: 0 <= k < |t| ==> !less(t[k], h)
    ensures Sorted(less, [h] + t)
  {
    var r := [h] + t;
    forall i, j | 0 <= i < j < |r| ensures !less(r[j], r[i]) {
      assert r[j] == t[j - 1];
      if i > 0 {
        assert r[i] == t[i - 1];
      }
    }
  }

  /** Inserting an entry not below h into a list with no entry below h gives
      a list with no entry below h. */
  lemma InsertNotBelow<T>(less: (T, T) -> bool, x: T, s: seq<T>, h: T)
    requires forall k :: 0 <= k < |s| ==> !less(s[k], h)
    requires !less(x, h)
    ensures forall k :: 0 <= k < |Insert(less, x, s)| ==> !less(Insert(less, x, s)[k], h)
  {
    var r := Insert(less, x, s);
    forall k | 0 <= k < |r| ensures !less(r[k], h) {
      assert r[k] in multiset(r);
      if r[k] != x {
        assert r[k] in multiset(s);
        var j :| 0 <= j < |s| && s[j] == r[k];
      }
    }
  }

  lemma {:induction false} InsertSorted<T(!new)>(less: (T, T) -> bool, x: T, s: seq<T>)
    requires StrictTotalOrder(less)
    requires Sorted(less, s)
    ensures Sorted(less, Insert(less, x, s))
  {
    if s == [] {
    } else if less(s[0], x) {
      var h, rest := s[0], s[1..];
      assert s == [h] + rest;
      forall i, j | 0 <= i < j < |rest| ensures !less(rest[j], rest[i]) {
        assert rest[i] == s[i + 1] && rest[j] == s[j + 1];
      }
      InsertSorted(less, x, rest);
      forall k | 0 <= k < |rest| ensures !less(rest[k], h) {
        assert rest[k] == s[k + 1];
      }
      assert !less(x, h);
      InsertNotBelow(less, x, rest, h);
      ConsSorted(less, h, Insert(less, x, rest));
    } else {
      forall k | 0 <= k < |s| ensures !less(s[k], x) {
        if k > 0 {
          assert !less(s[k], s[0]);
        }
        assert x == s[0] || less(x, s[0]);
      }
      ConsSorted(less, x, s);
    }
  }

  lemma {:induction false} SortByIsSorted<T(!new)>(less: (T, T) -> bool, s: seq<T>)
    requires StrictTotalOrder(less)
    ensures Sorted(less, SortBy(less, s))
  {
    if s != [] {
      SortByIsSorted(less, s[1..]);
      InsertSorted(less, s[0], SortBy(less, s[1..]));
    }
  }

  /** Index of the last entry the predicate picks out, or -1. */
  function LastIndex<T>(s: seq<T>, isTarget: T -> bool): (p: int)
    ensures -1 <= p < |s|
    ensures p >= 0 ==> isTarget(s[p])
    ensures forall j :: p < j < |s| ==> !isTarget(s[j])
  {
    if s == [] then -1
    else if isTarget(s[|s| - 1]) then |s| - 1
    else LastIndex(s[..|s| - 1], isTarget)
  }

  /** The rank loop of the statistics handlers: start at 1, walk from the
      last (best) entry towards the first, stop at the target, count the
      entries passed. */
  method ComputeRank<T>(ranking: seq<T>, isTarget: T -> bool) returns (rank: int)
    ensures rank == |ranking| - LastIndex(ranking, isTarget)
  {
    rank := 1;
    var i := |ranking| - 1;
    while i >= 0
      invariant -1 <= i < |ranking|
      invariant rank == |ranking| - i
      invariant forall j :: i < j < |ranking| ==> !isTarget(ranking[j])
    {
      if isTarget(ranking[i]) {
        break;
      }
      rank := rank + 1;
      i := i - 1;
    }
  }

  /** Number of entries strictly greater than x. */
  function CountGreater<T>(less: (T, T) -> bool, s: seq<T>, x: T): (n: nat)
    ensures n <= |s|
  {
    if s == [] then 0
    else CountGreater(less, s[..|s| - 1], x) + (if less(x, s[|s| - 1]) then 1 else 0)
  }

  lemma {:induction false} CountGreaterAppend<T>(less: (T, T) -> bool, a: seq<T>, b: seq<T>, x: T)
    ensures CountGreater(less, a + b, x) == CountGreater(less, a, x) + CountGreater(less, b, x)
  {
    if b == [] {
      assert a + b == a;
    } else {
      assert (a + b)[..|a + b| - 1] == a + b[..|b| - 1];
      CountGreaterAppend(less, a, b[..|b| - 1], x);
    }
  }

  lemma {:induction false} CountGreaterNone<T>(less: (T, T) -> bool, s: seq<T>, x: T)
    requires forall i :: 0 <= i < |s| ==> !less(x, s[i])
    ensures CountGreater(less, s, x) == 0
  {
    if s != [] {
      CountGreaterNone(less, s[..|s| - 1], x);
    }
  }

  lemma {:induction false} CountGreaterAll<T>(less: (T, T) -> bool, s: seq<T>, x: T)
    requires forall i :: 0 <= i < |s| ==> less(x, s[i])
    ensures CountGreater(less, s, x) == |s|
  {
    if s != [] {
      CountGreaterAll(less, s[..|s| - 1], x);
    }
  }

  lemma SplitAt<T>(t: seq<T>, k: int)
    requires 0 <= k < |t|
    ensures t == (t[..k] + [t[k]]) + t[k + 1..]
    ensures (t[..k] + [t[k]])[..k] == t[..k]
  {
  }

  lemma CountGreaterRemove<T>(less: (T, T) -> bool, t: seq<T>, k: int, x: T)
    requires 0 <= k < |t|
    ensures CountGreater(less, t, x) == CountGreater(less, t[..k] + t[k + 1..], x) + (if less(x, t[k]) then 1 else 0)
  {
    SplitAt(t, k);
    CountGreaterAppend(less, t[..k] + [t[k]], t[k + 1..], x);
    CountGreaterAppend(less, t[..k], t[k + 1..], x);
  }

  lemma MultisetRemove<T>(t: seq<T>, k: int)
    requires 0 <= k < |t|
    ensures multiset(t[..k] + t[k + 1..]) == multiset(t) - multiset{t[k]}
  {
    SplitAt(t, k);
  }

  /** The count of greater entries does not depend on the order of the list,
      so it is the same before and after the sort. */
  lemma {:induction false} CountGreaterPermutation<T>(less: (T, T) -> bool, s: seq<T>, t: seq<T>, x: T)
    requires multiset(s) == multiset(t)
    ensures CountGreater(less, s, x) == CountGreater(less, t, x)
    decreases |s|
  {
    if s == [] {
      assert |t| == |multiset(t)| == 0;
    } else {
      var last := s[|s| - 1];
      var s' := s[..|s| - 1];
      assert s == s' + [last];
      assert multiset(s') == multiset(s) - multiset{last};
      assert last in multiset(t);
      var k :| 0 <= k < |t| && t[k] == last;
      MultisetRemove(t, k);
      CountGreaterPermutation(less, s', t[..k] + t[k + 1..], x);
      CountGreaterRemove(less, t, k, x);
    }
  }

  /** In a sorted list whose entry at p is not repeated after p, exactly
      the entries after p are greater than it. */
  lemma {:induction false} CountGreaterInSorted<T(!new)>(less: (T, T) -> bool, s: seq<T>, p: int)
    requires StrictTotalOrder(less)
    requires Sorted(less, s)
    requires 0 <= p < |s|
    requires forall j :: p < j < |s| ==> s[j] != s[p]
    ensures CountGreater(less, s, s[p]) == |s| - 1 - p
  {
    var x := s[p];
    var init := s[..|s| - 1];
    if p == |s| - 1 {
      forall j | 0 <= j < |init| ensures !less(x, init[j]) {
        assert init[j] == s[j];
      }
      CountGreaterNone(less, init, x);
      assert !less(x, x);
    } else {
      var y := s[|s| - 1];
      assert !less(y, x);
      assert y != x;
      assert less(x, y);
      assert init[p] == x;
      forall i, j | 0 <= i < j < |init| ensures !less(init[j], init[i]) {
        assert init[i] == s[i] && init[j] == s[j];
      }
      forall j | p < j < |init| ensures init[j] != init[p] {
        assert init[j] == s[j];
      }
      CountGreaterInSorted(less, init, p);
    }
  }

  /** In a sorted ranking the position-based rank is one plus the number of
      entries strictly greater than the target. */
  lemma RankCountsGreater<T(!new)>(less: (T, T) -> bool, s: seq<T>, isTarget: T -> bool)
    requires StrictTotalOrder(less)
    requires Sorted(less, s)
    requires LastIndex(s, isTarget) >= 0
    ensures |s| - LastIndex(s, isTarget) == 1 + CountGreater(less, s, s[LastIndex(s, isTarget)])
  {
    var p := LastIndex(s, isTarget);
    forall j | p < j < |s| ensures s[j] != s[p] {
      assert !isTarget(s[j]);
    }
    CountGreaterInSorted(less, s, p);
  }

  lemma SortByLength<T>(less: (T, T) -> bool, s: seq<T>)
    ensures |SortBy(less, s)| == |s|
  {
    assert |multiset(SortBy(less, s))| == |multiset(s)|;
  }

  /** A target present before the sort is found by the rank loop after it. */
  lemma TargetSurvivesSort<T>(less: (T, T) -> bool, s: seq<T>, isTarget: T -> bool, k: int)
    requires 0 <= k < |s| && isTarget(s[k])
    ensures 0 <= LastIndex(SortBy(less, s), isTarget)
  {
    var sorted := SortBy(less, s);
    assert s[k] in multiset(sorted);
    var m :| 0 <= m < |sorted| && sorted[m] == s[k];
    assert isTarget(sorted[m]);
  }

  /** A target absent before the sort is absent after it, so the rank loop
      runs off the front. */
  lemma AbsentTargetRank<T>(less: (T, T) -> bool, s: seq<T>, isTarget: T -> bool)
    requires forall i :: 0 <= i < |s| ==> !isTarget(s[i])
    ensures LastIndex(SortBy(less, s), isTarget) == -1
    ensures RankAfterSort(less, s, isTarget) == |s| + 1
  {
    SortByLength(less, s);
    var sorted := SortBy(less, s);
    forall j | 0 <= j < |sorted| ensures !isTarget(sorted[j]) {
      assert sorted[j] in multiset(s);
    }
  }

  /** The rank read off the sorted ranking for a target with a single entry
      value x is one plus the number of entries of the unsorted ranking that
      are strictly greater than x: the sort algorithm does not matter. */
  lemma SortedRank<T(!new)>(less: (T, T) -> bool, s: seq<T>, isTarget: T -> bool, x: T)
    requires StrictTotalOrder(less)
    requires x in s && isTarget(x)
    requires forall i :: 0 <= i < |s| && isTarget(s[i]) ==> s[i] == x
    ensures |s| - LastIndex(SortBy(less, s), isTarget) == 1 + CountGreater(less, s, x)
    ensures RankAfterSort(less, s, isTarget) == 1 + CountGreater(less, s, x)
  {
    var sorted := SortBy(less, s);
    var k :| 0 <= k < |s| && s[k] == x;
    TargetSurvivesSort(less, s, isTarget, k);
    SortByLength(less, s);
    var p := LastIndex(sorted, isTarget);
    assert sorted[p] in multiset(s);
    var m :| 0 <= m < |s| && s[m] == sorted[p];
    assert sorted[p] == x;
    SortByIsSorted(less, s);
    RankCountsGreater(less, sorted, isTarget);
    CountGreaterPermutation(less, sorted, s, x);
  }

  /** The rank the loop computes on the sorted ranking. */
  ghost function RankAfterSort<T>(less: (T, T) -> bool, s: seq<T>, isTarget: T -> bool): int {
    |SortBy(less, s)| - LastIndex(SortBy(less, s), isTarget)
  }

  /** A target present in the ranking gets a rank between 1 and |s|. */
  lemma PresentTargetRank<T>(less: (T, T) -> bool, s: seq<T>, isTarget: T -> bool, k: int)
    requires 0 <= k < |s| && isTarget(s[k])
    ensures 1 <= RankAfterSort(less, s, isTarget) <= |s|
  {
    SortByLength(less, s);
    TargetSurvivesSort(less, s, isTarget, k);
  }

  /** An entry present in the list has at most |s| - 1 entries above it. */
  lemma {:induction false} CountGreaterOfMember<T(!new)>(less: (T, T) -> bool, s: seq<T>, x: T)
    requires StrictTotalOrder(less)
    requires x in s
    ensures CountGreater(less, s, x) < |s|
  {
    if s[|s| - 1] != x {
      assert s == s[..|s| - 1] + [s[|s| - 1]];
      CountGreaterOfMember(less, s[..|s| - 1], x);
    }
  }

  /** A strictly greater entry never has more entries above it, and has
      strictly fewer when it is itself in the list: it ranks better. */
  lemma {:induction false} GreaterRanksBetter<T(!new)>(less: (T, T) -> bool, s: seq<T>, a: T, b: T)
    requires StrictTotalOrder(less)
    requires less(a, b)
    ensures CountGreater(less, s, b) <= CountGreater(less, s, a)
    ensures b in s ==> CountGreater(less, s, b) < CountGreater(less, s, a)
  {
    if s != [] {
      var last := s[|s| - 1];
      assert s == s[..|s| - 1] + [last];
      GreaterRanksBetter(less, s[..|s| - 1], a, b);
    }
  }
}
