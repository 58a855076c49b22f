/** The lodash 3 helpers the core calls: _.filter, _.contains, _.pluck,
    _.uniq and _.sortedIndex. */
module Lodash {
  import opened JsValues

  /** `r` can be obtained from `s` by deleting elements (order kept). */
  predicate IsSubsequence<T(==)>(r: seq<T>, s: seq<T>)
    decreases |s|
  {
    r == [] ||
    (s != [] && ((r[0] == s[0] && IsSubsequence(r[1..], s[1..])) || IsSubsequence(r, s[1..])))
  }

  /** `_.filter(s, keep)`: the elements satisfying `keep`, in their order. */
  function Filter<T(==,!new)>(s: seq<T>, keep: T -> bool): (r: seq<T>)
    ensures forall i :: 0 <= i < |r| ==> keep(r[i])
    ensures IsSubsequence(r, s)
  {
    if s == [] then []
    else
      assert s == [s[0]] + s[1..];
      var rest := Filter(s[1..], keep);
      if keep(s[0]) then [s[0]] + rest else rest
  }

  /** `_.filter` keeps every occurrence of a kept value and none of a dropped one. */
  lemma {:induction false} FilterCount<T(!new)>(s: seq<T>, keep: T -> bool, x: T)
    ensures multiset(Filter(s, keep))[x] == if keep(x) then multiset(s)[x] else 0
  {
    if s != [] {
      assert s == [s[0]] + s[1..];
      FilterCount(s[1..], keep, x);
    }
  }

  /** An element is in `_.filter(s, keep)` exactly when it is in `s` and kept. */
  lemma FilterMembers<T(!new)>(s: seq<T>, keep: T -> bool)
    ensures forall x :: x in Filter(s, keep) <==> x in s && keep(x)
  {
    forall x ensures x in Filter(s, keep) <==> x in s && keep(x) {
      FilterCount(s, keep, x);
    }
  }

  /** `_.filter` depends only on what the predicate answers for the elements. */
  lemma {:induction false} FilterSameTest<T(!new)>(s: seq<T>, keep1: T -> bool, keep2: T -> bool)
    requires forall x :: x in s ==> keep1(x) == keep2(x)
    ensures Filter(s, keep1) == Filter(s, keep2)
  {
    if s != [] {
      FilterSameTest(s[1..], keep1, keep2);
    }
  }

  /** Filtering one more element at the end, as a loop that pushes does. */
  lemma {:induction false} FilterAppend<T(!new)>(s: seq<T>, x: T, keep: T -> bool)
    ensures Filter(s + [x], keep) == Filter(s, keep) + (if keep(x) then [x] else [])
  {
    if s == [] {
      assert [x][1..] == [];
    } else {
      var head := if keep(s[0]) then [s[0]] else [];
      assert (s + [x])[0] == s[0];
      assert (s + [x])[1..] == s[1..] + [x];
      assert Filter(s + [x], keep) == head + Filter(s[1..] + [x], keep);
      FilterAppend(s[1..], x, keep);
      assert Filter(s, keep) == head + Filter(s[1..], keep);
    }
  }

  /** `_.contains(values, x)` (SameValueZero equality). */
  predicate Contains(values: seq<Value>, x: Value) {
    x in values
  }

  /** `_.pluck(data, field)`: each record's `field` value, `undefined` where absent. */
  function Pluck(data: seq<Record>, field: string): (r: seq<Value>)
    ensures |r| == |data|
    ensures forall i :: 0 <= i < |data| ==> r[i] == Get(data[i], field)
  {
    seq(|data|, i requires 0 <= i < |data| => Get(data[i], field))
  }

  /** `_.uniq(s)`: the values of `s` without repeats. */
  function Uniq<T(==,!new)>(s: seq<T>): (r: seq<T>)
    ensures forall x :: x in r <==> x in s
    ensures Distinct(r)
  {
    if s == [] then []
    else
      var last := s[|s| - 1];
      assert s == s[..|s| - 1] + [last];
      var kept := Uniq(s[..|s| - 1]);
      if last in kept then kept else kept + [last]
  }

  // ---- _.sortedIndex on numbers ----

  predicate Ascending(s: seq<int>) {
    forall i, j :: 0 <= i < j < |s| ==> s[i] <= s[j]
  }

  /** How many elements of `s` are below `value`: in an ascending sequence,
      the lowest index at which `value` keeps it ascending. */
  function LowerBound(s: seq<int>, value: int): (n: nat)
    ensures n <= |s|
  {
    if s == [] then 0
    else (if s[0] < value then 1 else 0) + LowerBound(s[1..], value)
  }

  lemma {:induction false} LowerBoundAt(s: seq<int>, value: int, k: nat)
    requires k <= |s|
    requires forall i :: 0 <= i < k ==> s[i] < value
    requires forall i :: k <= i < |s| ==> value <= s[i]
    ensures LowerBound(s, value) == k
  {
    if s != [] {
      if k == 0 {
        LowerBoundAt(s[1..], value, 0);
      } else {
        LowerBoundAt(s[1..], value, k - 1);
      }
    }
  }

  /** `_.sortedIndex(array, value)`: lodash's binary search. On an ascending
      array it finds the lowest index at which `value` can be inserted,
      that is, in front of every element equal to it. */
  method SortedIndex(list: seq<int>, value: int) returns (low: nat)
    ensures low <= |list|
    ensures Ascending(list) ==> low == LowerBound(list, value)
    ensures Ascending(list) ==>
      (forall k :: 0 <= k < low ==> list[k] < value) &&
      (forall k :: low <= k < |list| ==> value <= list[k])
  {
    low := 0;
    var high := |list|;
    while low < high
      invariant low <= high <= |list|
      invariant Ascending(list) ==> forall k :: 0 <= k < low ==> list[k] < value
      invariant Ascending(list) ==> forall k :: high <= k < |list| ==> value <= list[k]
    {
      var mid := (low + high) / 2;
      if list[mid] < value {
        low := mid + 1;
      } else {
        high := mid;
      }
    }
    if Ascending(list) {
      LowerBoundAt(list, value, low);
    }
  }
}
