/** The gene filter of the earlier dashboard (public/js/Filter.js): genes move
    between the list offered for filtering (`genes`, kept in default sort
    order) and the list being filtered on (`selectedGenes`), and the filter
    button shows "filtering" while any criterion narrows the data. The option
    the user picked and the checkboxes ticked are read from the page in the
    source; here they are parameters. */
module GeneFilter {
  import opened JsValues
  import opened Builtins
  import AppUtils

  /** The module-level `uniqueData(data, field)` of Filter.js, the same
      expression as the utility of that name. */
  function UniqueData(data: seq<Record>, field: string): (r: seq<Value>)
    ensures Sorted(r) && Distinct(r)
    ensures forall v :: v in r <==> AppUtils.FieldValue(data, field, v)
  {
    AppUtils.UniqueData(data, field)
  }

  /** The two gene lists of a SampleFilter. */
  datatype GeneLists = GeneLists(genes: seq<Value>, selectedGenes: seq<Value>)

  /** `genes` is sorted and no gene is in either list twice or in both. */
  predicate ListsValid(l: GeneLists) {
    Sorted(l.genes) && Distinct(l.genes + l.selectedGenes)
  }

  /** Every gene the filter knows about, wherever it currently is. */
  function Pool(l: GeneLists): multiset<Value> {
    multiset(l.genes) + multiset(l.selectedGenes)
  }

  /** The lists after construction. */
  function InitialLists(data: seq<Record>): (l: GeneLists)
    ensures ListsValid(l) && l.selectedGenes == []
    ensures forall v :: v in l.genes <==> AppUtils.FieldValue(data, "gene_name", v)
  {
    var genes := UniqueData(data, "gene_name");
    assert genes + [] == genes;
    GeneLists(genes, [])
  }

  /** `s.splice(i, 1)`: the element at `i` goes, the others keep their order. */
  function Without(s: seq<Value>, i: nat): (r: seq<Value>)
    requires i < |s|
    ensures multiset(r) == multiset(s) - multiset{s[i]}
    ensures |r| == |s| - 1
    ensures forall k :: 0 <= k < i ==> r[k] == s[k]
    ensures forall k :: i <= k < |r| ==> r[k] == s[k + 1]
  {
    assert s == s[..i] + [s[i]] + s[i + 1..];
    s[..i] + s[i + 1..]
  }

  /** `addToFilter` with `value` the selected option: a truthy value found in
      `genes` leaves `genes` and goes to the end of `selectedGenes`. */
  function Added(l: GeneLists, value: Value): (r: GeneLists)
    requires ListsValid(l)
    ensures ListsValid(r) && Pool(r) == Pool(l)
    ensures value in l.genes && Truthy(value) ==>
      value !in r.genes && multiset(r.genes) == multiset(l.genes) - multiset{value} &&
      r.selectedGenes == l.selectedGenes + [value]
    ensures !(value in l.genes && Truthy(value)) ==> r == l
  {
    var index := IndexOf(l.genes, value);
    if index != -1 && Truthy(value) then
      var r := GeneLists(Without(l.genes, index), l.selectedGenes + [value]);
      SortedWithout(l.genes, index);
      assert multiset(r.genes + r.selectedGenes) == multiset(l.genes + l.selectedGenes);
      DistinctPermutation(l.genes + l.selectedGenes, r.genes + r.selectedGenes);
      DistinctAtMostOnce(l.genes + l.selectedGenes, value);
      r
    else
      l
  }

  /** `removeFromFilter` with `value` the selected option: a truthy value found
      in `selectedGenes` leaves it and `genes` becomes the sorted permutation
      of `genes` plus `value`. */
  function Removed(l: GeneLists, value: Value): (r: GeneLists)
    requires ListsValid(l)
    ensures ListsValid(r) && Pool(r) == Pool(l)
    ensures value in l.selectedGenes && Truthy(value) ==>
      value !in r.selectedGenes && value in r.genes &&
      multiset(r.genes) == multiset(l.genes) + multiset{value} &&
      multiset(r.selectedGenes) == multiset(l.selectedGenes) - multiset{value} &&
      r.selectedGenes == Without(l.selectedGenes, IndexOf(l.selectedGenes, value))
    ensures !(value in l.selectedGenes && Truthy(value)) ==> r == l
  {
    var index := IndexOf(l.selectedGenes, value);
    if index != -1 && Truthy(value) then
      var genes := Sort(l.genes + [value]);
      var r := GeneLists(genes, Without(l.selectedGenes, index));
      SortSorted(l.genes + [value]);
      assert multiset(r.genes + r.selectedGenes) == multiset(l.genes + l.selectedGenes);
      DistinctPermutation(l.genes + l.selectedGenes, r.genes + r.selectedGenes);
      DistinctAtMostOnce(l.genes + l.selectedGenes, value);
      assert value in multiset(r.genes);
      r
    else
      l
  }

  /** `resetGeneFilter`: every selected gene goes back, and `genes` is sorted. */
  function ResetLists(l: GeneLists): (r: GeneLists)
    requires ListsValid(l)
    ensures ListsValid(r) && Pool(r) == Pool(l)
    ensures r.selectedGenes == [] && Sorted(r.genes)
    ensures multiset(r.genes) == Pool(l)
  {
    var genes := Sort(l.genes + l.selectedGenes);
    SortSorted(l.genes + l.selectedGenes);
    SortDistinct(l.genes + l.selectedGenes);
    assert genes + [] == genes;
    GeneLists(genes, [])
  }

  /** Removing a gene just added gives the lists back exactly. */
  lemma RemoveUndoesAdd(l: GeneLists, value: Value)
    requires ListsValid(l) && value in l.genes && Truthy(value)
    ensures Removed(Added(l, value), value) == l
  {
    var a := Added(l, value);
    DistinctAtMostOnce(l.genes + l.selectedGenes, value);
    assert value !in l.selectedGenes;
    assert IndexOf(a.selectedGenes, value) == |l.selectedGenes|;
    assert Without(a.selectedGenes, |l.selectedGenes|) == l.selectedGenes;
    var r := Removed(a, value);
    assert multiset(r.genes) == multiset(l.genes);
    SortedUnique(r.genes, l.genes);
  }

  /** A reset gives the same lists whatever was selected before, in whatever order. */
  lemma ResetDependsOnPoolOnly(l: GeneLists, m: GeneLists)
    requires ListsValid(l) && ListsValid(m) && Pool(l) == Pool(m)
    ensures ResetLists(l) == ResetLists(m)
  {
    SortedUnique(ResetLists(l).genes, ResetLists(m).genes);
  }

  /** Reset after a series of moves restores the constructed lists. */
  lemma ResetRestoresInitial(data: seq<Record>, l: GeneLists)
    requires ListsValid(l) && Pool(l) == Pool(InitialLists(data))
    ensures ResetLists(l) == InitialLists(data)
  {
    var init := InitialLists(data);
    assert multiset(init.genes) == Pool(init);
    SortedUnique(ResetLists(l).genes, init.genes);
  }

  lemma SortedWithout(s: seq<Value>, i: nat)
    requires Sorted(s) && i < |s|
    ensures Sorted(s[..i] + s[i + 1..])
  {
    var r := s[..i] + s[i + 1..];
    forall a, b | 0 <= a < b < |r| ensures Le(r[a], r[b]) {
      var a' := if a < i then a else a + 1;
      var b' := if b < i then b else b + 1;
      assert r[a] == s[a'] && r[b] == s[b'];
    }
  }

  // ---- the filter-active predicate of applyFilter ----

  /** How many row, column and plate checkboxes are ticked on the form. */
  datatype Checked = Checked(rows: nat, columns: nat, plates: nat)

  /** `applyFilter`: the button gets the "filtering" class when fewer rows,
      columns or plates are ticked than there are, or a gene is selected;
      otherwise it loses it. */
  function FilterActive(checked: Checked, uniqueRow: nat, uniqueCol: nat, uniquePlate: nat,
                        selectedGenes: seq<Value>): (filtering: bool)
    ensures !filtering <==>
      checked.rows >= uniqueRow && checked.columns >= uniqueCol &&
      checked.plates >= uniquePlate && selectedGenes == []
  {
    var rowActive := checked.rows < uniqueRow;
    var colActive := checked.columns < uniqueCol;
    var plateActive := checked.plates < uniquePlate;
    var geneActive := |selectedGenes| > 0;
    geneActive || plateActive || rowActive || colActive
  }

  /** After a gene is added the filter is active, whatever the checkboxes say. */
  lemma AddActivates(checked: Checked, uniqueRow: nat, uniqueCol: nat, uniquePlate: nat,
                     l: GeneLists, value: Value)
    requires ListsValid(l) && value in l.genes && Truthy(value)
    ensures FilterActive(checked, uniqueRow, uniqueCol, uniquePlate, Added(l, value).selectedGenes)
  {
  }

  /** After a reset only the checkboxes decide. */
  lemma ResetLeavesCheckboxes(checked: Checked, uniqueRow: nat, uniqueCol: nat, uniquePlate: nat,
                              l: GeneLists)
    requires ListsValid(l)
    ensures FilterActive(checked, uniqueRow, uniqueCol, uniquePlate, ResetLists(l).selectedGenes) <==>
      checked.rows < uniqueRow || checked.columns < uniqueCol || checked.plates < uniquePlate
  {
  }

  // ---- the SampleFilter object ----

  class SampleFilter {
    var data: seq<Record>
    var uniqueCol: seq<Value>
    var uniqueRow: seq<Value>
    var uniquePlate: seq<Value>
    var genes: seq<Value>
    var selectedGenes: seq<Value>

    function Lists(): GeneLists
      reads this
    {
      GeneLists(genes, selectedGenes)
    }

    ghost predicate Invariant()
      reads this
    {
      ListsValid(Lists())
    }

    constructor (sampleData: seq<Record>)
      ensures Invariant() && Lists() == InitialLists(sampleData)
      ensures data == sampleData
      ensures uniqueCol == UniqueData(sampleData, "column")
      ensures uniqueRow == UniqueData(sampleData, "row")
      ensures uniquePlate == UniqueData(sampleData, "plate")
    {
      data := sampleData;
      uniqueCol := UniqueData(sampleData, "column");
      uniqueRow := UniqueData(sampleData, "row");
      uniquePlate := UniqueData(sampleData, "plate");
      genes := UniqueData(sampleData, "gene_name");
      selectedGenes := [];
    }

    /** `applyFilter`, answering whether the button shows "filtering". */
    method ApplyFilter(checked: Checked) returns (filtering: bool)
      ensures filtering == FilterActive(checked, |uniqueRow|, |uniqueCol|, |uniquePlate|, selectedGenes)
    {
      var rowActive := checked.rows < |uniqueRow|;
      var colActive := checked.columns < |uniqueCol|;
      var plateActive := checked.plates < |uniquePlate|;
      var geneActive := |selectedGenes| > 0;
      if geneActive || plateActive || rowActive || colActive {
        filtering := true;
      }
      if !geneActive && !plateActive && !rowActive && !colActive {
        filtering := false;
      }
    }

    method AddToFilter(value: Value, checked: Checked) returns (filtering: bool)
      requires Invariant()
      modifies this
      ensures Lists() == Added(old(Lists()), value)
      ensures Invariant()
      ensures data == old(data) && uniqueCol == old(uniqueCol) && uniqueRow == old(uniqueRow) && uniquePlate == old(uniquePlate)
      ensures filtering == FilterActive(checked, |uniqueRow|, |uniqueCol|, |uniquePlate|, selectedGenes)
    {
      var index := IndexOf(genes, value);
      if index != -1 && Truthy(value) {
        genes := genes[..index] + genes[index + 1..];
        selectedGenes := selectedGenes + [value];
      }
      filtering := ApplyFilter(checked);
    }

    method RemoveFromFilter(value: Value, checked: Checked) returns (filtering: bool)
      requires Invariant()
      modifies this
      ensures Lists() == Removed(old(Lists()), value)
      ensures Invariant()
      ensures data == old(data) && uniqueCol == old(uniqueCol) && uniqueRow == old(uniqueRow) && uniquePlate == old(uniquePlate)
      ensures filtering == FilterActive(checked, |uniqueRow|, |uniqueCol|, |uniquePlate|, selectedGenes)
    {
      var index := IndexOf(selectedGenes, value);
      if index != -1 && Truthy(value) {
        selectedGenes := selectedGenes[..index] + selectedGenes[index + 1..];
        genes := genes + [value];
        genes := Sort(genes);
      }
      filtering := ApplyFilter(checked);
    }

    method ResetGeneFilter(checked: Checked) returns (filtering: bool)
      requires Invariant()
      modifies this
      ensures Lists() == ResetLists(old(Lists()))
      ensures Invariant()
      ensures data == old(data) && uniqueCol == old(uniqueCol) && uniqueRow == old(uniqueRow) && uniquePlate == old(uniquePlate)
      ensures filtering == FilterActive(checked, |uniqueRow|, |uniqueCol|, |uniquePlate|, selectedGenes)
    {
      genes := genes + selectedGenes;
      genes := Sort(genes);
      selectedGenes := [];
      filtering := ApplyFilter(checked);
    }
  }
}
