/** How app/static/js/PointsDrawer.js paints the scatter plot: `draw` sorts
    the indices to draw into groups by their status flags, then paints
    filtered-out points, the other points, the neighbours and finally the
    active point, so later groups lie on top. The canvas is modelled as the
    list of dots painted so far, each with the context style it was painted
    with; coordinates, scales and the arc geometry are not modelled. */
module PointsDrawer {
  import opened JsValues
  import Byteflag
  import opened Lodash

  /** Status bits of a sample. Distinct single bits; the enumeration file
      defining them is not part of this model. */
  const ACTIVE: bv32 := 0x01
  const NEIGHBOUR: bv32 := 0x02
  const FILTERED_OUT: bv32 := 0x04
  const SELECTED: bv32 := 0x08

  /** The queue a drawn index goes to in the loop of `draw`. */
  datatype Group = Active | Neighbour | NotFilteredOut | FilteredOut

  /** The if / else-if chain of the loop: ACTIVE wins over NEIGHBOUR, which
      wins over the FILTERED_OUT test. */
  function Classify(status: bv32): Group {
    if Byteflag.Check(status, ACTIVE) then Active
    else if Byteflag.Check(status, NEIGHBOUR) then Neighbour
    else if !Byteflag.Check(status, FILTERED_OUT) then NotFilteredOut
    else FilteredOut
  }

  /** Marking a sample SELECTED, or unmarking it, never changes where it is drawn. */
  lemma SelectedDoesNotMove(status: bv32)
    ensures Classify(Byteflag.Add(status, SELECTED)) == Classify(status)
    ensures Classify(Byteflag.Remove(status, SELECTED)) == Classify(status)
  {
    Byteflag.AddKeepsOtherBits(status, SELECTED, ACTIVE);
    Byteflag.AddKeepsOtherBits(status, SELECTED, NEIGHBOUR);
    Byteflag.AddKeepsOtherBits(status, SELECTED, FILTERED_OUT);
    Byteflag.RemoveKeepsOtherBits(status, SELECTED, ACTIVE);
    Byteflag.RemoveKeepsOtherBits(status, SELECTED, NEIGHBOUR);
    Byteflag.RemoveKeepsOtherBits(status, SELECTED, FILTERED_OUT);
  }

  /** A neighbour that becomes active is drawn as the active point, and
      filtering out an active or neighbouring point does not demote it. */
  lemma Precedence(status: bv32)
    ensures Classify(Byteflag.Add(status, ACTIVE)) == Active
    ensures Classify(status) != FilteredOut ==>
      Classify(Byteflag.Add(status, FILTERED_OUT)) == Classify(status) ||
      Classify(status) == NotFilteredOut
  {
    Byteflag.CheckAdd(status, ACTIVE);
    Byteflag.AddKeepsOtherBits(status, FILTERED_OUT, ACTIVE);
    Byteflag.AddKeepsOtherBits(status, FILTERED_OUT, NEIGHBOUR);
  }

  /** Every index to draw names a sample (`groups` has one entry per sample). */
  predicate InRange(drawIndex: seq<nat>, groups: seq<Group>) {
    forall k :: 0 <= k < |drawIndex| ==> drawIndex[k] < |groups|
  }

  /** The group of every sample, by its status. */
  function Groups(statuses: seq<bv32>): (groups: seq<Group>)
    ensures |groups| == |statuses|
    ensures forall i :: 0 <= i < |statuses| ==> groups[i] == Classify(statuses[i])
  {
    seq(|statuses|, i requires 0 <= i < |statuses| => Classify(statuses[i]))
  }

  /** `drawIndex`: the supplied indices when there are any (every array is
      truthy), otherwise the cached range of all indices. */
  function DrawIndex(indices: Option<seq<nat>>, dataRange: seq<nat>): seq<nat> {
    if indices.Some? then indices.value else dataRange
  }

  /** Whether sample `i` belongs to group `g`. */
  function InGroup(groups: seq<Group>, g: Group): nat -> bool {
    (i: nat) => i < |groups| && groups[i] == g
  }

  /** The indices the loop pushes onto the queue of `g`, in loop order. */
  function Members(drawIndex: seq<nat>, groups: seq<Group>, g: Group): (m: seq<nat>)
    ensures forall k :: 0 <= k < |m| ==> m[k] < |groups| && groups[m[k]] == g
  {
    Filter(drawIndex, InGroup(groups, g))
  }

  /** An index is queued for `g` exactly when it is to be drawn and its sample is in `g`. */
  lemma MembersIn(drawIndex: seq<nat>, groups: seq<Group>, g: Group)
    ensures forall i :: i in Members(drawIndex, groups, g) <==> i in drawIndex && i < |groups| && groups[i] == g
  {
    FilterMembers(drawIndex, InGroup(groups, g));
  }

  /** How often `x` is queued, per group: as often as it is to be drawn in
      its own group, never in another. */
  lemma MembersCount(drawIndex: seq<nat>, groups: seq<Group>, g: Group, x: nat)
    ensures multiset(Members(drawIndex, groups, g))[x] ==
      if x < |groups| && groups[x] == g then multiset(drawIndex)[x] else 0
  {
    FilterCount(drawIndex, InGroup(groups, g), x);
  }

  /** The four queues split the indices to draw: each occurrence goes to
      exactly one of them. */
  lemma GroupsPartition(drawIndex: seq<nat>, groups: seq<Group>)
    requires InRange(drawIndex, groups)
    ensures multiset(Members(drawIndex, groups, Active)) +
            multiset(Members(drawIndex, groups, Neighbour)) +
            multiset(Members(drawIndex, groups, NotFilteredOut)) +
            multiset(Members(drawIndex, groups, FilteredOut)) == multiset(drawIndex)
  {
    var a := multiset(Members(drawIndex, groups, Active));
    var n := multiset(Members(drawIndex, groups, Neighbour));
    var p := multiset(Members(drawIndex, groups, NotFilteredOut));
    var f := multiset(Members(drawIndex, groups, FilteredOut));
    forall x: nat ensures a[x] + n[x] + p[x] + f[x] == multiset(drawIndex)[x] {
      MembersCount(drawIndex, groups, Active, x);
      MembersCount(drawIndex, groups, Neighbour, x);
      MembersCount(drawIndex, groups, NotFilteredOut, x);
      MembersCount(drawIndex, groups, FilteredOut, x);
    }
    assert a + n + p + f == multiset(drawIndex);
  }

  /** The loop step: the next index goes to the end of its group's queue. */
  lemma MembersAppend(drawIndex: seq<nat>, i: nat, groups: seq<Group>, g: Group)
    ensures Members(drawIndex + [i], groups, g) ==
      Members(drawIndex, groups, g) + (if i < |groups| && groups[i] == g then [i] else [])
  {
    FilterAppend(drawIndex, i, InGroup(groups, g));
  }

  /** A group none of whose samples is to be drawn has an empty queue. */
  lemma NoMembers(drawIndex: seq<nat>, groups: seq<Group>, g: Group)
    requires forall k :: 0 <= k < |drawIndex| && drawIndex[k] < |groups| ==> groups[drawIndex[k]] != g
    ensures Members(drawIndex, groups, g) == []
  {
    MembersIn(drawIndex, groups, g);
  }

  /** The `active` variable after the loop: the last index flagged ACTIVE,
      None while it is still undefined. */
  function LastActive(drawIndex: seq<nat>, groups: seq<Group>): (a: Option<nat>)
    ensures a.Some? ==> a.value in drawIndex && a.value < |groups| && groups[a.value] == Active
  {
    var m := Members(drawIndex, groups, Active);
    MembersIn(drawIndex, groups, Active);
    if m == [] then None else Some(m[|m| - 1])
  }

  /** `active` stays undefined exactly when no index to draw is ACTIVE. */
  lemma LastActiveNone(drawIndex: seq<nat>, groups: seq<Group>)
    ensures LastActive(drawIndex, groups).None? <==>
      forall i :: i in drawIndex && i < |groups| ==> groups[i] != Active
  {
    MembersIn(drawIndex, groups, Active);
  }

  /** One iteration of the loop of `draw`: the index goes to the end of
      the queue of its group, and becomes `active` when it is ACTIVE. */
  lemma LoopStep(drawIndex: seq<nat>, x: nat, groups: seq<Group>)
    requires x < |groups|
    ensures var s := drawIndex + [x];
      (LastActive(s, groups) == if groups[x] == Active then Some(x) else LastActive(drawIndex, groups)) &&
      Members(s, groups, Neighbour) == Members(drawIndex, groups, Neighbour) + (if groups[x] == Neighbour then [x] else []) &&
      Members(s, groups, NotFilteredOut) == Members(drawIndex, groups, NotFilteredOut) + (if groups[x] == NotFilteredOut then [x] else []) &&
      Members(s, groups, FilteredOut) == Members(drawIndex, groups, FilteredOut) + (if groups[x] == FilteredOut then [x] else [])
  {
    MembersAppend(drawIndex, x, groups, Active);
    MembersAppend(drawIndex, x, groups, Neighbour);
    MembersAppend(drawIndex, x, groups, NotFilteredOut);
    MembersAppend(drawIndex, x, groups, FilteredOut);
  }

  // ---- the canvas ----

  /** The radius a point is painted with (values from the plot configuration). */
  datatype Radius = InactiveRadius | ActiveRadius

  /** One painted point: its index and the context style at the time. */
  datatype Dot = Dot(index: nat, fill: string, stroke: string, alpha: real, radius: Radius)

  /** `_drawPoints(data, indices, r)` with the context as it is: one dot per
      index, in the order of `indices`. */
  function Paint(indices: seq<nat>, fill: string, stroke: string, alpha: real, radius: Radius): (dots: seq<Dot>)
    ensures |dots| == |indices|
    ensures forall k :: 0 <= k < |indices| ==> dots[k] == Dot(indices[k], fill, stroke, alpha, radius)
  {
    seq(|indices|, k requires 0 <= k < |indices| => Dot(indices[k], fill, stroke, alpha, radius))
  }

  /** The painting layer of a dot: which block of `draw` produced it. */
  function Layer(d: Dot): nat {
    if d.fill == "red" then 3
    else if d.fill == "yellow" then 2
    else if d.alpha == 1.0 then 1
    else 0
  }

  /** What `draw` leaves on the canvas: the filtered-out points faded, the
      other points, the neighbours in yellow, then the active point in red
      when `active` is truthy, which an index of 0 is not. */
  function Scene(groups: seq<Group>, drawIndex: seq<nat>): seq<Dot>
    requires InRange(drawIndex, groups)
  {
    var active := LastActive(drawIndex, groups);
    Paint(Members(drawIndex, groups, FilteredOut), "steelblue", "white", 0.1, InactiveRadius) +
    Paint(Members(drawIndex, groups, NotFilteredOut), "steelblue", "white", 1.0, InactiveRadius) +
    Paint(Members(drawIndex, groups, Neighbour), "yellow", "white", 1.0, InactiveRadius) +
    (if active.Some? && active.value != 0 then [Dot(active.value, "red", "white", 1.0, ActiveRadius)] else [])
  }

  /** Layers never decrease along `s`. */
  predicate Layered(s: seq<Dot>) {
    forall i, j :: 0 <= i < j < |s| ==> Layer(s[i]) <= Layer(s[j])
  }

  /** Every dot of `s` is on layer `n`. */
  predicate OnLayer(s: seq<Dot>, n: nat) {
    forall k :: 0 <= k < |s| ==> Layer(s[k]) == n
  }

  lemma PaintOnLayer(indices: seq<nat>, fill: string, stroke: string, alpha: real, radius: Radius)
    ensures OnLayer(Paint(indices, fill, stroke, alpha, radius), Layer(Dot(0, fill, stroke, alpha, radius)))
  {
  }

  lemma LayeredAppend(x: seq<Dot>, y: seq<Dot>, n: nat)
    requires Layered(x) && OnLayer(y, n)
    requires forall k :: 0 <= k < |x| ==> Layer(x[k]) <= n
    ensures Layered(x + y)
    ensures forall k :: 0 <= k < |x + y| ==> Layer((x + y)[k]) <= n
  {
  }

  /** Later groups are painted over earlier ones: layers never decrease. */
  lemma SceneLayered(groups: seq<Group>, drawIndex: seq<nat>)
    requires InRange(drawIndex, groups)
    ensures Layered(Scene(groups, drawIndex))
  {
    var a := Paint(Members(drawIndex, groups, FilteredOut), "steelblue", "white", 0.1, InactiveRadius);
    var b := Paint(Members(drawIndex, groups, NotFilteredOut), "steelblue", "white", 1.0, InactiveRadius);
    var c := Paint(Members(drawIndex, groups, Neighbour), "yellow", "white", 1.0, InactiveRadius);
    var active := LastActive(drawIndex, groups);
    var d := if active.Some? && active.value != 0 then [Dot(active.value, "red", "white", 1.0, ActiveRadius)] else [];
    assert Scene(groups, drawIndex) == a + b + c + d;
    PaintOnLayer(Members(drawIndex, groups, FilteredOut), "steelblue", "white", 0.1, InactiveRadius);
    PaintOnLayer(Members(drawIndex, groups, NotFilteredOut), "steelblue", "white", 1.0, InactiveRadius);
    PaintOnLayer(Members(drawIndex, groups, Neighbour), "yellow", "white", 1.0, InactiveRadius);
    assert Layer(Dot(0, "steelblue", "white", 0.1, InactiveRadius)) == 0;
    assert Layer(Dot(0, "steelblue", "white", 1.0, InactiveRadius)) == 1;
    assert Layer(Dot(0, "yellow", "white", 1.0, InactiveRadius)) == 2;
    assert OnLayer(d, 3);
    LayeredAppend([], a, 0);
    assert [] + a == a;
    LayeredAppend(a, b, 1);
    LayeredAppend(a + b, c, 2);
    LayeredAppend(a + b + c, d, 3);
  }

  function Indices(dots: seq<Dot>): (r: seq<nat>)
    ensures |r| == |dots| && forall k :: 0 <= k < |dots| ==> r[k] == dots[k].index
  {
    seq(|dots|, k requires 0 <= k < |dots| => dots[k].index)
  }

  lemma IndicesAppend(x: seq<Dot>, y: seq<Dot>)
    ensures Indices(x + y) == Indices(x) + Indices(y)
  {
  }

  lemma IndicesPaint(indices: seq<nat>, fill: string, stroke: string, alpha: real, radius: Radius)
    ensures Indices(Paint(indices, fill, stroke, alpha, radius)) == indices
  {
  }

  /** Every index that is not flagged ACTIVE is painted exactly as often as
      it is to be drawn; of the ACTIVE ones only the last is painted, and
      only when it is not 0. */
  lemma SceneCoverage(groups: seq<Group>, drawIndex: seq<nat>)
    requires InRange(drawIndex, groups)
    ensures var active := LastActive(drawIndex, groups);
      multiset(Indices(Scene(groups, drawIndex))) ==
        multiset(drawIndex) - multiset(Members(drawIndex, groups, Active)) +
        (if active.Some? && active.value != 0 then multiset{active.value} else multiset{})
  {
    var act := Members(drawIndex, groups, Active);
    var fo := Members(drawIndex, groups, FilteredOut);
    var nf := Members(drawIndex, groups, NotFilteredOut);
    var nb := Members(drawIndex, groups, Neighbour);
    var active := LastActive(drawIndex, groups);
    var top: seq<nat> := if active.Some? && active.value != 0 then [active.value] else [];
    SceneIndices(groups, drawIndex);
    assert multiset(fo + nf + nb + top) == multiset(fo) + multiset(nf) + multiset(nb) + multiset(top);
    GroupsPartition(drawIndex, groups);
    MultisetCancel(multiset(act), multiset(nb) + multiset(nf) + multiset(fo), multiset(drawIndex));
  }

  lemma MultisetCancel<T>(a: multiset<T>, b: multiset<T>, c: multiset<T>)
    requires a + b == c
    ensures c - a == b
  {
  }

  /** The indices painted, in painting order. */
  lemma SceneIndices(groups: seq<Group>, drawIndex: seq<nat>)
    requires InRange(drawIndex, groups)
    ensures var active := LastActive(drawIndex, groups);
      Indices(Scene(groups, drawIndex)) ==
        Members(drawIndex, groups, FilteredOut) + Members(drawIndex, groups, NotFilteredOut) +
        Members(drawIndex, groups, Neighbour) +
        (if active.Some? && active.value != 0 then [active.value] else [])
  {
    var fo := Members(drawIndex, groups, FilteredOut);
    var nf := Members(drawIndex, groups, NotFilteredOut);
    var nb := Members(drawIndex, groups, Neighbour);
    var a := Paint(fo, "steelblue", "white", 0.1, InactiveRadius);
    var b := Paint(nf, "steelblue", "white", 1.0, InactiveRadius);
    var c := Paint(nb, "yellow", "white", 1.0, InactiveRadius);
    var active := LastActive(drawIndex, groups);
    var d := if active.Some? && active.value != 0 then [Dot(active.value, "red", "white", 1.0, ActiveRadius)] else [];
    assert Scene(groups, drawIndex) == a + b + c + d;
    IndicesAppend(a + b + c, d);
    IndicesAppend(a + b, c);
    IndicesAppend(a, b);
    IndicesPaint(fo, "steelblue", "white", 0.1, InactiveRadius);
    IndicesPaint(nf, "steelblue", "white", 1.0, InactiveRadius);
    IndicesPaint(nb, "yellow", "white", 1.0, InactiveRadius);
  }

  /** The active point, when painted, is the last dot: it is on top. */
  lemma ActiveOnTop(groups: seq<Group>, drawIndex: seq<nat>)
    requires InRange(drawIndex, groups)
    requires LastActive(drawIndex, groups).Some? && LastActive(drawIndex, groups).value != 0
    ensures var s := Scene(groups, drawIndex);
      s != [] && s[|s| - 1] == Dot(LastActive(drawIndex, groups).value, "red", "white", 1.0, ActiveRadius)
  {
  }

  /** With two ACTIVE points only the later one is painted. */
  lemma LaterActiveWins(groups: seq<Group>, i: nat, j: nat)
    requires i < |groups| && j < |groups| && i != j && j != 0
    requires groups[i] == Active && groups[j] == Active
    ensures Scene(groups, [i, j]) == [Dot(j, "red", "white", 1.0, ActiveRadius)]
  {
    MembersAppend([i], j, groups, Active);
    MembersAppend([], i, groups, Active);
    assert [] + [i] == [i] && [i] + [j] == [i, j];
    NoMembers([i, j], groups, FilteredOut);
    NoMembers([i, j], groups, NotFilteredOut);
    NoMembers([i, j], groups, Neighbour);
    var none: seq<nat> := [];
    assert Paint(none, "steelblue", "white", 0.1, InactiveRadius) == [];
    assert Paint(none, "steelblue", "white", 1.0, InactiveRadius) == [];
    assert Paint(none, "yellow", "white", 1.0, InactiveRadius) == [];
  }

  // ---- the active point at index 0 ----

  /** The sample at index 0, when it is the active one, is never painted:
      `if(active)` treats the index 0 as false. */
  lemma ActiveZeroNotPainted(groups: seq<Group>)
    requires |groups| > 0 && groups[0] == Active
    ensures Scene(groups, [0]) == []
  {
    MembersAppend([], 0, groups, Active);
    NoMembers([0], groups, FilteredOut);
    NoMembers([0], groups, NotFilteredOut);
    NoMembers([0], groups, Neighbour);
    var none: seq<nat> := [];
    assert Paint(none, "steelblue", "white", 0.1, InactiveRadius) == [];
    assert Paint(none, "steelblue", "white", 1.0, InactiveRadius) == [];
    assert Paint(none, "yellow", "white", 1.0, InactiveRadius) == [];
  }

  /** `draw` as evidently intended: the active point is painted whenever
      there is one (`active !== undefined`). */
  function CorrectedScene(groups: seq<Group>, drawIndex: seq<nat>): seq<Dot>
    requires InRange(drawIndex, groups)
  {
    var active := LastActive(drawIndex, groups);
    Paint(Members(drawIndex, groups, FilteredOut), "steelblue", "white", 0.1, InactiveRadius) +
    Paint(Members(drawIndex, groups, NotFilteredOut), "steelblue", "white", 1.0, InactiveRadius) +
    Paint(Members(drawIndex, groups, Neighbour), "yellow", "white", 1.0, InactiveRadius) +
    (if active.Some? then [Dot(active.value, "red", "white", 1.0, ActiveRadius)] else [])
  }

  /** In the corrected scene an ACTIVE point among those drawn is always on
      top, whatever its index; otherwise it paints what `draw` paints. */
  lemma CorrectedActiveOnTop(groups: seq<Group>, drawIndex: seq<nat>, k: nat)
    requires InRange(drawIndex, groups)
    requires k < |drawIndex| && groups[drawIndex[k]] == Active
    ensures var s := CorrectedScene(groups, drawIndex);
      s != [] && s[|s| - 1].fill == "red" && groups[s[|s| - 1].index] == Active
  {
    assert drawIndex[k] in drawIndex;
    LastActiveNone(drawIndex, groups);
  }

  lemma CorrectedAgrees(groups: seq<Group>, drawIndex: seq<nat>)
    requires InRange(drawIndex, groups)
    requires LastActive(drawIndex, groups) != Some(0)
    ensures CorrectedScene(groups, drawIndex) == Scene(groups, drawIndex)
  {
  }

  /** Scene, block by block. */
  lemma SceneParts(groups: seq<Group>, drawIndex: seq<nat>)
    requires InRange(drawIndex, groups)
    ensures var active := LastActive(drawIndex, groups);
      Scene(groups, drawIndex) ==
        Paint(Members(drawIndex, groups, FilteredOut), "steelblue", "white", 0.1, InactiveRadius) +
        Paint(Members(drawIndex, groups, NotFilteredOut), "steelblue", "white", 1.0, InactiveRadius) +
        Paint(Members(drawIndex, groups, Neighbour), "yellow", "white", 1.0, InactiveRadius) +
        (if active.Some? && active.value != 0 then [Dot(active.value, "red", "white", 1.0, ActiveRadius)] else [])
  {
  }

  // ---- the PointsDrawer object ----

  class PointsDrawer {
    /** The style fields of the canvas context, and what it shows. */
    var fillStyle: string
    var strokeStyle: string
    var strokeWidth: int
    var globalAlpha: real
    var drawn: seq<Dot>

    /** A fresh 2D context: black, opaque, blank. */
    constructor ()
      ensures drawn == [] && fillStyle == "#000000" && strokeStyle == "#000000" && globalAlpha == 1.0
    {
      fillStyle := "#000000";
      strokeStyle := "#000000";
      strokeWidth := 1;
      globalAlpha := 1.0;
      drawn := [];
    }

    /** `_drawPoints(data, indices, r)`. */
    method DrawPoints(indices: seq<nat>, r: Radius)
      modifies this
      ensures drawn == old(drawn) + Paint(indices, fillStyle, strokeStyle, globalAlpha, r)
      ensures fillStyle == old(fillStyle) && strokeStyle == old(strokeStyle)
      ensures strokeWidth == old(strokeWidth) && globalAlpha == old(globalAlpha)
    {
      var i := 0;
      while i < |indices|
        invariant 0 <= i <= |indices|
        invariant drawn == old(drawn) + Paint(indices[..i], fillStyle, strokeStyle, globalAlpha, r)
        invariant fillStyle == old(fillStyle) && strokeStyle == old(strokeStyle)
        invariant strokeWidth == old(strokeWidth) && globalAlpha == old(globalAlpha)
      {
        var ii := indices[i];
        drawn := drawn + [Dot(ii, fillStyle, strokeStyle, globalAlpha, r)];
        assert Paint(indices[..i + 1], fillStyle, strokeStyle, globalAlpha, r) ==
          Paint(indices[..i], fillStyle, strokeStyle, globalAlpha, r) + [Dot(ii, fillStyle, strokeStyle, globalAlpha, r)];
        i := i + 1;
      }
      assert indices[..i] == indices;
    }

    /** The loop of `draw`: every index to draw is queued by its status, and
        `active` keeps the last ACTIVE one. */
    static method GroupIndices(statuses: seq<bv32>, drawIndex: seq<nat>)
      returns (active: Option<nat>, neighbours: seq<nat>, notFilteredOut: seq<nat>, filteredOut: seq<nat>)
      requires InRange(drawIndex, Groups(statuses))
      ensures active == LastActive(drawIndex, Groups(statuses))
      ensures neighbours == Members(drawIndex, Groups(statuses), Neighbour)
      ensures notFilteredOut == Members(drawIndex, Groups(statuses), NotFilteredOut)
      ensures filteredOut == Members(drawIndex, Groups(statuses), FilteredOut)
    {
      active := None;
      neighbours := [];
      notFilteredOut := [];
      filteredOut := [];
      ghost var groups := Groups(statuses);
      var i := 0;
      while i < |drawIndex|
        invariant 0 <= i <= |drawIndex|
        invariant active == LastActive(drawIndex[..i], groups)
        invariant neighbours == Members(drawIndex[..i], groups, Neighbour)
        invariant notFilteredOut == Members(drawIndex[..i], groups, NotFilteredOut)
        invariant filteredOut == Members(drawIndex[..i], groups, FilteredOut)
      {
        var ii := drawIndex[i];
        assert drawIndex[..i + 1] == drawIndex[..i] + [ii];
        LoopStep(drawIndex[..i], ii, groups);
        var status := statuses[ii];
        assert groups[ii] == Classify(status);
        if Byteflag.Check(status, ACTIVE) {
          active := Some(ii);
        } else if Byteflag.Check(status, NEIGHBOUR) {
          neighbours := neighbours + [ii];
        } else if !Byteflag.Check(status, FILTERED_OUT) {
          notFilteredOut := notFilteredOut + [ii];
        } else {
          filteredOut := filteredOut + [ii];
        }
        i := i + 1;
      }
      assert drawIndex[..i] == drawIndex;
    }

    /** `draw(data, indices)`, with `statuses[i]` the status of sample i. */
    method Draw(statuses: seq<bv32>, dataRange: seq<nat>, indices: Option<seq<nat>>)
      requires InRange(DrawIndex(indices, dataRange), Groups(statuses))
      modifies this
      ensures drawn == Scene(Groups(statuses), DrawIndex(indices, dataRange))
    {
      drawn := [];
      var drawIndex := if indices.Some? then indices.value else dataRange;
      var active, neighbours, notFilteredOut, filteredOut := GroupIndices(statuses, drawIndex);
      PaintQueues(active, neighbours, notFilteredOut, filteredOut);
      SceneParts(Groups(statuses), drawIndex);
    }

    /** The second half of `draw`: the queues in order, then the active point.
        The queues are arrays, so the tests on them always pass. */
    method PaintQueues(active: Option<nat>, neighbours: seq<nat>, notFilteredOut: seq<nat>, filteredOut: seq<nat>)
      requires drawn == []
      modifies this
      ensures drawn ==
        Paint(filteredOut, "steelblue", "white", 0.1, InactiveRadius) +
        Paint(notFilteredOut, "steelblue", "white", 1.0, InactiveRadius) +
        Paint(neighbours, "yellow", "white", 1.0, InactiveRadius) +
        (if active.Some? && active.value != 0 then [Dot(active.value, "red", "white", 1.0, ActiveRadius)] else [])
    {
      fillStyle := "steelblue";
      strokeStyle := "white";
      strokeWidth := 1;
      globalAlpha := 0.1;
      DrawPoints(filteredOut, InactiveRadius);
      ghost var a := Paint(filteredOut, "steelblue", "white", 0.1, InactiveRadius);
      assert drawn == [] + a;

      fillStyle := "steelblue";
      strokeStyle := "white";
      globalAlpha := 1.0;
      DrawPoints(notFilteredOut, InactiveRadius);
      ghost var b := Paint(notFilteredOut, "steelblue", "white", 1.0, InactiveRadius);
      assert drawn == [] + a + b;

      fillStyle := "yellow";
      DrawPoints(neighbours, InactiveRadius);

      if active.Some? && active.value != 0 {
        fillStyle := "red";
        drawn := drawn + [Dot(active.value, fillStyle, strokeStyle, globalAlpha, ActiveRadius)];
      }
    }
  }
}
