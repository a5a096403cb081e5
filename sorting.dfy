/** Python's `sorted` on a list of numbers, and order statistics stated
    independently of sorting: the k-th smallest of a sample is a value with
    fewer than k sample elements strictly below it and at least k at or below
    it. */
module Sorting {

  predicate IsSorted(s: seq<real>) {
    forall i, j :: 0 <= i <= j < |s| ==> s[i] <= s[j]
  }

  /** `x` placed into the sorted `s` before the first element not below it. */
  function Insert(x: real, s: seq<real>): (r: seq<real>)
    requires IsSorted(s)
    ensures IsSorted(r)
    ensures multiset(r) == multiset(s) + multiset{x}
  {
    if s == [] || x <= s[0] then
      [x] + s
    else
      var rest := Insert(x, s[1..]);
      InsertedAtLeastHead(x, s, rest);
      assert s == [s[0]] + s[1..];
      [s[0]] + rest
  }

  /** What is inserted after the head of a sorted list is not below it. */
  lemma InsertedAtLeastHead(x: real, s: seq<real>, rest: seq<real>)
    requires IsSorted(s) && |s| > 0 && s[0] < x
    requires IsSorted(rest) && multiset(rest) == multiset(s[1..]) + multiset{x}
    ensures IsSorted([s[0]] + rest)
  {
    forall j | 0 <= j < |rest| ensures s[0] <= rest[j] {
      assert rest[j] in multiset(rest);
      if rest[j] != x {
        assert rest[j] in s[1..];
      }
    }
  }

  /** Python's `sorted(values)`: the values in ascending order. */
  function Sort(s: seq<real>): (r: seq<real>)
    ensures IsSorted(r)
    ensures multiset(r) == multiset(s)
  {
    if s == [] then []
    else
      assert s == [s[0]] + s[1..];
      Insert(s[0], Sort(s[1..]))
  }

  lemma SortedHeadIsLeast(s: seq<real>, x: real)
    requires IsSorted(s) && x in s
    ensures s[0] <= x
  {
    var j :| 0 <= j < |s| && s[j] == x;
  }

  /** Removing the element at `j` removes one occurrence of it. */
  lemma MultisetRemoveAt(s: seq<real>, j: nat)
    requires j < |s|
    ensures multiset(s[..j] + s[j + 1..]) == multiset(s) - multiset{s[j]}
  {
    assert s == s[..j] + [s[j]] + s[j + 1..];
  }

  lemma SortedTail(s: seq<real>)
    requires IsSorted(s) && |s| > 0
    ensures IsSorted(s[1..])
  {
  }

  lemma MultisetTail(s: seq<real>)
    requires |s| > 0
    ensures multiset(s[1..]) == multiset(s) - multiset{s[0]}
  {
    assert s == [s[0]] + s[1..];
  }

  /** Two sorted arrangements of one non-empty multiset start with the same
      element, and what follows it holds the same multiset. */
  lemma SortedSameHead(a: seq<real>, b: seq<real>)
    requires IsSorted(a) && IsSorted(b) && multiset(a) == multiset(b) && |a| > 0
    ensures |b| > 0 && a[0] == b[0]
    ensures multiset(a[1..]) == multiset(b[1..])
  {
    assert |a| == |multiset(a)| == |multiset(b)| == |b|;
    assert a[0] in multiset(b) && b[0] in multiset(a);
    SortedHeadIsLeast(b, a[0]);
    SortedHeadIsLeast(a, b[0]);
    assert a[0] == b[0];
    MultisetTail(a);
    MultisetTail(b);
  }

  /** A sorted sequence is determined by its elements: two sorted
      arrangements of one multiset are the same sequence. */
  lemma {:induction false} SortedUnique(a: seq<real>, b: seq<real>)
    requires IsSorted(a) && IsSorted(b) && multiset(a) == multiset(b)
    ensures a == b
  {
    if a == [] {
      assert |b| == |multiset(b)| == |multiset(a)| == 0;
    } else {
      SortedSameHead(a, b);
      SortedTail(a);
      SortedTail(b);
      SortedUnique(a[1..], b[1..]);
      assert a == [a[0]] + a[1..];
      assert b == [b[0]] + b[1..];
    }
  }

  /** Sorting depends only on the multiset of values. */
  lemma SortPermutationInvariant(a: seq<real>, b: seq<real>)
    requires multiset(a) == multiset(b)
    ensures Sort(a) == Sort(b)
  {
    SortedUnique(Sort(a), Sort(b));
  }

  /** Number of elements of `s` below `x` (strictly, or also equal when
      `orEqual`). */
  function CountBelow(s: seq<real>, x: real, orEqual: bool): (c: nat)
    ensures c <= |s|
  {
    if s == [] then 0
    else (if s[0] < x || (orEqual && s[0] == x) then 1 else 0) + CountBelow(s[1..], x, orEqual)
  }

  lemma {:induction false} CountBelowAppend(a: seq<real>, b: seq<real>, x: real, orEqual: bool)
    ensures CountBelow(a + b, x, orEqual) == CountBelow(a, x, orEqual) + CountBelow(b, x, orEqual)
  {
    if a == [] {
      assert a + b == b;
    } else {
      assert (a + b)[1..] == a[1..] + b;
      CountBelowAppend(a[1..], b, x, orEqual);
    }
  }

  /** Removing the element at `j` removes its contribution to the count. */
  lemma CountBelowRemoveAt(s: seq<real>, j: nat, x: real, orEqual: bool)
    requires j < |s|
    ensures CountBelow(s, x, orEqual)
      == CountBelow([s[j]], x, orEqual) + CountBelow(s[..j] + s[j + 1..], x, orEqual)
  {
    assert s == s[..j] + ([s[j]] + s[j + 1..]);
    CountBelowAppend(s[..j], [s[j]] + s[j + 1..], x, orEqual);
    CountBelowAppend([s[j]], s[j + 1..], x, orEqual);
    CountBelowAppend(s[..j], s[j + 1..], x, orEqual);
  }

  /** Counting depends only on the multiset of values. */
  lemma {:induction false} CountBelowPermutation(a: seq<real>, b: seq<real>, x: real, orEqual: bool)
    requires multiset(a) == multiset(b)
    ensures CountBelow(a, x, orEqual) == CountBelow(b, x, orEqual)
    decreases |a|
  {
    assert |a| == |multiset(a)| == |multiset(b)| == |b|;
    if a != [] {
      assert a[0] in multiset(b);
      var j :| 0 <= j < |b| && b[j] == a[0];
      var rest := b[..j] + b[j + 1..];
      MultisetTail(a);
      MultisetRemoveAt(b, j);
      assert multiset(a[1..]) == multiset(rest);
      CountBelowPermutation(a[1..], rest, x, orEqual);
      CountBelowRemoveAt(b, j, x, orEqual);
      assert CountBelow(a, x, orEqual) == CountBelow([a[0]], x, orEqual) + CountBelow(a[1..], x, orEqual);
    }
  }

  lemma {:induction false} CountBelowAll(s: seq<real>, x: real)
    requires forall j :: 0 <= j < |s| ==> s[j] <= x
    ensures CountBelow(s, x, true) == |s|
  {
    if s != [] {
      CountBelowAll(s[1..], x);
    }
  }

  lemma {:induction false} CountBelowNone(s: seq<real>, x: real)
    requires forall j :: 0 <= j < |s| ==> x <= s[j]
    ensures CountBelow(s, x, false) == 0
  {
    if s != [] {
      CountBelowNone(s[1..], x);
    }
  }

  /** `x` is the `k`-th smallest of `values` (counting from 1). */
  predicate IsOrderStatistic(values: seq<real>, k: int, x: real) {
    CountBelow(values, x, false) < k <= CountBelow(values, x, true)
  }

  /** Element `i` of a sorted sequence is its `(i + 1)`-th smallest. */
  lemma SortedAtIsOrderStatistic(s: seq<real>, i: nat)
    requires IsSorted(s) && i < |s|
    ensures IsOrderStatistic(s, i + 1, s[i])
  {
    assert s == s[..i + 1] + s[i + 1..];
    CountBelowAppend(s[..i + 1], s[i + 1..], s[i], true);
    CountBelowAll(s[..i + 1], s[i]);
    assert s == s[..i] + s[i..];
    CountBelowAppend(s[..i], s[i..], s[i], false);
    CountBelowNone(s[i..], s[i]);
  }

  /** Element `k - 1` of `Sort(values)` is the `k`-th smallest of `values`,
      and it is one of the values. */
  lemma SortedIsOrderStatistic(values: seq<real>, k: int)
    requires 1 <= k <= |values|
    ensures |Sort(values)| == |values|
    ensures Sort(values)[k - 1] in values
    ensures IsOrderStatistic(values, k, Sort(values)[k - 1])
  {
    var s := Sort(values);
    assert |s| == |multiset(s)| == |multiset(values)| == |values|;
    assert s[k - 1] in multiset(values);
    SortedAtIsOrderStatistic(s, k - 1);
    CountBelowPermutation(s, values, s[k - 1], false);
    CountBelowPermutation(s, values, s[k - 1], true);
  }
}
