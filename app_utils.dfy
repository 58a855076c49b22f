/** The collection and string helpers of app/static/js/utils/Utils.js. */
module AppUtils {
  import opened JsValues
  import opened Builtins
  import opened Lodash

  /** Some record's `field` value is `v`. */
  predicate FieldValue(data: seq<Record>, field: string, v: Value) {
    exists i :: 0 <= i < |data| && Get(data[i], field) == v
  }

  /** `uniqueData(data, field)`, i.e. `_.uniq(_.pluck(data, field)).sort()`:
      each field value exactly once, in default sort order. */
  function UniqueData(data: seq<Record>, field: string): (r: seq<Value>)
    ensures Sorted(r) && Distinct(r)
    ensures forall v :: v in r <==> FieldValue(data, field, v)
  {
    var plucked := Pluck(data, field);
    var unique := Uniq(plucked);
    SortSorted(unique);
    SortDistinct(unique);
    assert forall v :: v in plucked <==> FieldValue(data, field, v) by {
      forall v | FieldValue(data, field, v) ensures v in plucked {
        var i :| 0 <= i < |data| && Get(data[i], field) == v;
        assert plucked[i] == v;
      }
    }
    var r := Sort(unique);
    forall v ensures v in r <==> v in unique {
      assert v in r <==> v in multiset(r);
      assert v in unique <==> v in multiset(unique);
    }
    r
  }

  /** UniqueData does not depend on the order of the records. */
  lemma UniqueDataOrderIrrelevant(data: seq<Record>, other: seq<Record>, field: string)
    requires multiset(data) == multiset(other)
    ensures UniqueData(data, field) == UniqueData(other, field)
  {
    var a := UniqueData(data, field);
    var b := UniqueData(other, field);
    forall v ensures FieldValue(data, field, v) <==> FieldValue(other, field, v) {
      if FieldValue(data, field, v) {
        var i :| 0 <= i < |data| && Get(data[i], field) == v;
        assert data[i] in multiset(other);
      }
      if FieldValue(other, field, v) {
        var i :| 0 <= i < |other| && Get(other[i], field) == v;
        assert other[i] in multiset(data);
      }
    }
    SameSortedSet(a, b);
  }

  /** Two sorted repeat-free sequences with the same elements are equal. */
  lemma SameSortedSet(a: seq<Value>, b: seq<Value>)
    requires Sorted(a) && Distinct(a) && Sorted(b) && Distinct(b)
    requires forall v :: v in a <==> v in b
    ensures a == b
  {
    forall v ensures multiset(a)[v] == multiset(b)[v] {
      DistinctAtMostOnce(a, v);
      DistinctAtMostOnce(b, v);
      assert v in a <==> v in multiset(a);
      assert v in b <==> v in multiset(b);
    }
    assert multiset(a) == multiset(b);
    SortedUnique(a, b);
  }

  /** The test that `findByValues` filters with; `invert` stands for
      `invert === true`, so every other value of the argument is `false`. */
  function Selects(property: string, values: seq<Value>, invert: bool): Record -> bool {
    item => Contains(values, Get(item, property)) != invert
  }

  /** `findByValues(collection, property, values, invert)`. */
  function FindByValues(collection: seq<Record>, property: string, values: seq<Value>, invert: bool): (r: seq<Record>)
    ensures forall item :: item in r <==>
      item in collection && (Get(item, property) in values <==> !invert)
    ensures IsSubsequence(r, collection)
  {
    var keep := Selects(property, values, invert);
    FilterMembers(collection, keep);
    Filter(collection, keep)
  }

  /** The plain and the inverted query split the collection: every record
      lands in exactly one of them, as often as it occurs. */
  lemma FindByValuesPartition(collection: seq<Record>, property: string, values: seq<Value>)
    ensures multiset(FindByValues(collection, property, values, false)) +
            multiset(FindByValues(collection, property, values, true)) == multiset(collection)
    ensures |FindByValues(collection, property, values, false)| +
            |FindByValues(collection, property, values, true)| == |collection|
  {
    var keep := Selects(property, values, false);
    var drop := Selects(property, values, true);
    var a := FindByValues(collection, property, values, false);
    var b := FindByValues(collection, property, values, true);
    forall x ensures multiset(a)[x] + multiset(b)[x] == multiset(collection)[x] {
      FilterCount(collection, keep, x);
      FilterCount(collection, drop, x);
    }
    assert multiset(a) + multiset(b) == multiset(collection);
    assert |multiset(a) + multiset(b)| == |multiset(collection)|;
  }

  /** `sortedPush(array, value)`: `array.splice(_.sortedIndex(array, value), 0, value)`.
      The array after the call is returned. On an ascending array the value
      goes in front of the elements equal to it and the array stays ascending. */
  method SortedPush(list: seq<int>, value: int) returns (result: seq<int>)
    ensures |result| == |list| + 1
    ensures multiset(result) == multiset(list) + multiset{value}
    ensures Ascending(list) ==>
      var at := LowerBound(list, value);
      result == list[..at] + [value] + list[at..] && Ascending(result)
  {
    var index := SortedIndex(list, value);
    result := list[..index] + [value] + list[index..];
    assert list == list[..index] + list[index..];
    if Ascending(list) {
      SpliceAscending(list, index, value);
    }
  }

  /** Inserting at the boundary between the elements below `value` and the
      rest keeps an ascending sequence ascending. */
  lemma SpliceAscending(list: seq<int>, at: nat, value: int)
    requires Ascending(list) && at <= |list|
    requires forall k :: 0 <= k < at ==> list[k] < value
    requires forall k :: at <= k < |list| ==> value <= list[k]
    ensures Ascending(list[..at] + [value] + list[at..])
  {
    var r := list[..at] + [value] + list[at..];
    assert forall k :: 0 <= k < at ==> r[k] == list[k];
    assert r[at] == value;
    assert forall k :: at < k < |r| ==> r[k] == list[k - 1];
  }

  /** `makeSelector(element)`: an id selector, `'#'` added unless present. */
  function MakeSelector(element: string): (r: string)
    ensures |r| > 0 && r[0] == '#'
    ensures element != [] && element[0] == '#' ==> r == element
    ensures !(element != [] && element[0] == '#') ==> r[1..] == element
  {
    if element != [] && element[0] == '#' then element else "#" + element
  }

  lemma MakeSelectorIdempotent(element: string)
    ensures MakeSelector(MakeSelector(element)) == MakeSelector(element)
  {
  }

  /** Two ids without a leading `'#'` give the same selector only if they are equal. */
  lemma MakeSelectorInjective(a: string, b: string)
    requires !(a != [] && a[0] == '#') && !(b != [] && b[0] == '#')
    requires MakeSelector(a) == MakeSelector(b)
    ensures a == b
  {
    assert a == MakeSelector(a)[1..];
  }

  /** `translateString(left, top, px)`, with `left` and `top` already
      converted to text; `px` is the truthiness of the argument. */
  function TranslateString(left: string, top: string, px: bool): (r: string)
    ensures var unit := if px then "px" else "";
      r == "translate(" + left + unit + ", " + top + unit + ")"
  {
    var unit := if px then "px" else "";
    var out := ["translate(", left, unit, ", ", top, unit, ")"];
    JoinCons(unit, [")"], "");
    JoinCons(top, [unit, ")"], "");
    JoinCons(", ", [top, unit, ")"], "");
    JoinCons(unit, [", ", top, unit, ")"], "");
    JoinCons(left, [unit, ", ", top, unit, ")"], "");
    JoinCons("translate(", [left, unit, ", ", top, unit, ")"], "");
    Join(out, "")
  }

  /** The offsets can be read back from the string: for numbers, whose text
      has no comma, different offsets give different strings. */
  lemma TranslateStringInjective(l1: string, t1: string, l2: string, t2: string, px: bool)
    requires ',' !in l1 && ',' !in l2
    requires TranslateString(l1, t1, px) == TranslateString(l2, t2, px)
    ensures l1 == l2 && t1 == t2
  {
    var unit := if px then "px" else "";
    var head1 := "translate(" + l1 + unit;
    var head2 := "translate(" + l2 + unit;
    var tail1 := " " + t1 + unit + ")";
    var tail2 := " " + t2 + unit + ")";
    assert TranslateString(l1, t1, px) == head1 + [','] + tail1;
    assert TranslateString(l2, t2, px) == head2 + [','] + tail2;
    assert ',' !in head1 && ',' !in head2;
    UpToFirstSeparator(head1, tail1, head2, tail2, ',');
    assert l1 == head1[10..|head1| - |unit|] && l2 == head2[10..|head2| - |unit|];
    assert t1 == tail1[1..|tail1| - |unit| - 1] && t2 == tail2[1..|tail2| - |unit| - 1];
  }
}
