/** The helpers of the earlier dashboard (public/js/Utils.js): the same
    `uniqueData`, and `findByValues` without the `invert` argument. */
module PublicUtils {
  import opened JsValues
  import opened Lodash
  import AppUtils

  /** `uniqueData(data, field)`: the same expression as the current dashboard's. */
  function UniqueData(data: seq<Record>, field: string): (r: seq<Value>)
    ensures Sorted(r) && Distinct(r)
    ensures forall v :: v in r <==> AppUtils.FieldValue(data, field, v)
  {
    AppUtils.UniqueData(data, field)
  }

  /** `findByValues(collection, property, values)`: the records whose
      `property` value is one of `values`, in collection order. */
  function FindByValues(collection: seq<Record>, property: string, values: seq<Value>): (r: seq<Record>)
    ensures forall item :: item in r <==> item in collection && Get(item, property) in values
    ensures IsSubsequence(r, collection)
    ensures |r| <= |collection|
  {
    var keep := (item: Record) => Contains(values, Get(item, property));
    FilterMembers(collection, keep);
    SubsequenceLength(Filter(collection, keep), collection);
    Filter(collection, keep)
  }

  /** A subsequence is no longer than the sequence it is taken from. */
  lemma {:induction false} SubsequenceLength<T>(r: seq<T>, s: seq<T>)
    requires IsSubsequence(r, s)
    ensures |r| <= |s|
    decreases |s|
  {
    if r != [] {
      if r[0] == s[0] && IsSubsequence(r[1..], s[1..]) {
        SubsequenceLength(r[1..], s[1..]);
      } else {
        SubsequenceLength(r, s[1..]);
      }
    }
  }

  /** The query is the current dashboard's without inversion. */
  lemma FindByValuesIsNotInverted(collection: seq<Record>, property: string, values: seq<Value>)
    ensures FindByValues(collection, property, values) ==
            AppUtils.FindByValues(collection, property, values, false)
  {
    var keep := (item: Record) => Contains(values, Get(item, property));
    FilterSameTest(collection, keep, AppUtils.Selects(property, values, false));
  }
}
