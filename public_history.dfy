/** The sample history of the earlier dashboard (public/js/History.js). It has
    no `lastSample`; `add` pre-increments `iterator` (here `iter`, as `iterator` is a Dafny keyword), so the first id goes
    to index 1 of a JavaScript array and index 0 stays a hole; `forward` is
    bounded by the array's length, not by the `length` field `add` sets. */
module PublicHistory {
  import opened JsValues

  type SampleId = string

  /** An array slot: None is a hole, which reads as `undefined`. */
  type Slot = Option<SampleId>

  /** What `back` and `forward` return: `null` when they do not move,
      `undefined` (Absent) when they land on a hole,
      otherwise the slot they land on. */
  datatype Answer = Null | Absent | Sample(id: SampleId)

  function Read(slot: Slot): (a: Answer)
    ensures a.Absent? <==> slot.None?
    ensures slot.Some? ==> a == Sample(slot.value)
  {
    match slot
    case None => Absent
    case Some(id) => Sample(id)
  }

  /** `array[i] = v` in JavaScript: past the end, the gap is filled with holes. */
  function Store(a: seq<Slot>, i: nat, v: Slot): (r: seq<Slot>)
    ensures |r| == if i < |a| then |a| else i + 1
    ensures r[i] == v
    ensures forall k :: 0 <= k < |a| && k != i ==> r[k] == a[k]
    ensures forall k :: |a| <= k < i ==> r[k] == None
  {
    if i < |a| then a[i := v]
    else a + seq(i - |a|, _ => None) + [v]
  }

  datatype State = State(sampleHistory: seq<Slot>, iter: int, length: int)

  /** Either nothing was ever added, or slot 0 is the only hole and the
      iter is inside the array. */
  predicate Valid(s: State) {
    (s.sampleHistory == [] && s.iter == 0 && s.length == 0) ||
    (0 <= s.iter < |s.sampleHistory| && 0 <= s.length < |s.sampleHistory| &&
     s.sampleHistory[0] == None &&
     forall k :: 1 <= k < |s.sampleHistory| ==> s.sampleHistory[k].Some?)
  }

  /** The constructor, and `reset()`. */
  function Initial(): (s: State)
    ensures Valid(s) && s.sampleHistory == []
  {
    State([], 0, 0)
  }

  /** `add(sampleId)`: the id goes one slot past the iterator; what lies
      beyond it is kept. */
  function AddStep(s: State, id: SampleId): (r: State)
    requires Valid(s)
    ensures Valid(r)
    ensures r.iter == s.iter + 1 && r.length == r.iter
    ensures r.sampleHistory[r.iter] == Some(id)
    ensures s.sampleHistory != [] ==> r.sampleHistory[..r.iter] == s.sampleHistory[..r.iter]
    ensures s.sampleHistory != [] && r.iter < |s.sampleHistory| ==>
      r.sampleHistory[r.iter + 1..] == s.sampleHistory[r.iter + 1..]
    ensures s.sampleHistory != [] && r.iter == |s.sampleHistory| ==>
      r.sampleHistory == s.sampleHistory + [Some(id)]
    ensures s.sampleHistory == [] ==> r.sampleHistory == [None, Some(id)]
  {
    var it := s.iter + 1;
    var history :=
      if it == |s.sampleHistory| then s.sampleHistory + [Some(id)]
      else Store(s.sampleHistory, it, Some(id));
    assert s.sampleHistory == [] ==> history == [None, Some(id)];
    State(history, it, it)
  }

  /** `back()`. */
  function BackStep(s: State): (r: (State, Answer))
    requires Valid(s)
    ensures Valid(r.0)
    ensures r.0.sampleHistory == s.sampleHistory && r.0.length == s.length
    ensures s.iter > 0 ==> r.0.iter == s.iter - 1 && r.1 == Read(s.sampleHistory[s.iter - 1])
    ensures s.iter <= 0 ==> r == (s, Null)
    ensures r.1 == Absent <==> s.iter == 1
  {
    if s.iter > 0 then
      var it := s.iter - 1;
      (s.(iter := it), Read(s.sampleHistory[it]))
    else
      (s, Null)
  }

  /** `forward()`. */
  function ForwardStep(s: State): (r: (State, Answer))
    requires Valid(s)
    ensures Valid(r.0)
    ensures r.0.sampleHistory == s.sampleHistory && r.0.length == s.length
    ensures s.iter < |s.sampleHistory| - 1 ==>
      r.0.iter == s.iter + 1 && r.1 == Sample(s.sampleHistory[s.iter + 1].value)
    ensures s.iter >= |s.sampleHistory| - 1 ==> r == (s, Null)
  {
    if s.iter < |s.sampleHistory| - 1 then
      var it := s.iter + 1;
      (s.(iter := it), Read(s.sampleHistory[it]))
    else
      (s, Null)
  }

  /** `back` then `forward` restores the state. */
  lemma BackThenForward(s: State)
    requires Valid(s) && s.iter > 0
    ensures ForwardStep(BackStep(s).0).0 == s
  {
  }

  /** `forward` then `back` restores the state. */
  lemma ForwardThenBack(s: State)
    requires Valid(s) && s.iter < |s.sampleHistory| - 1
    ensures BackStep(ForwardStep(s).0) == (s, Read(s.sampleHistory[s.iter]))
  {
  }

  // ---- how this history departs from a browser's ----

  /** `back` from the oldest entry answers `undefined`, the hole at index 0,
      instead of `null`. */
  lemma BackReadsHole(a: SampleId)
    ensures
      var s1 := AddStep(Initial(), a);
      BackStep(s1).1 == Absent && BackStep(BackStep(s1).0).1 == Null
  {
  }

  /** After an add that is not at the end, `forward` still reaches the entry
      that used to follow it, beyond the `length` the add has just set. */
  lemma ForwardPassesLength(s: State, id: SampleId)
    requires Valid(s) && s.sampleHistory != [] && s.iter + 2 < |s.sampleHistory|
    ensures
      var r := AddStep(s, id);
      ForwardStep(r).1 == Sample(s.sampleHistory[s.iter + 2].value) &&
      ForwardStep(r).0.iter > r.length
  {
  }

  /** Adds a, b, c, steps back twice, adds d: `forward` then answers c,
      which a browser-style history would have dropped. */
  lemma StaleForward(a: SampleId, b: SampleId, c: SampleId, d: SampleId)
    ensures
      var s3 := AddStep(AddStep(AddStep(Initial(), a), b), c);
      var s4 := AddStep(BackStep(BackStep(s3).0).0, d);
      s4.length == 2 && ForwardStep(s4).1 == Sample(c)
  {
    var s3 := AddStep(AddStep(AddStep(Initial(), a), b), c);
    assert s3.sampleHistory == [None, Some(a), Some(b), Some(c)];
    ForwardPassesLength(BackStep(BackStep(s3).0).0, d);
  }

  /** Adding the same id twice in a row stores it twice: `back` answers it. */
  lemma RepeatedAddStored(a: SampleId)
    ensures
      var s2 := AddStep(AddStep(Initial(), a), a);
      BackStep(s2).1 == Sample(a) && s2.length == 2
  {
  }

  // ---- the History object ----

  class History {
    var sampleHistory: seq<Slot>
    var iter: int
    var length: int

    function Fields(): State
      reads this
    {
      State(sampleHistory, iter, length)
    }

    ghost predicate Invariant()
      reads this
    {
      Valid(Fields())
    }

    constructor ()
      ensures Invariant() && Fields() == Initial()
    {
      sampleHistory := [];
      iter := 0;
      length := 0;
    }

    method Add(sampleId: SampleId)
      requires Invariant()
      modifies this
      ensures Invariant() && Fields() == AddStep(old(Fields()), sampleId)
    {
      iter := iter + 1;
      if iter == |sampleHistory| {
        sampleHistory := sampleHistory + [Some(sampleId)];
      } else {
        sampleHistory := Store(sampleHistory, iter, Some(sampleId));
      }
      length := iter;
    }

    method Back() returns (answer: Answer)
      requires Invariant()
      modifies this
      ensures Invariant() && (Fields(), answer) == BackStep(old(Fields()))
    {
      if iter > 0 {
        iter := iter - 1;
        answer := Read(sampleHistory[iter]);
      } else {
        answer := Null;
      }
    }

    method Forward() returns (answer: Answer)
      requires Invariant()
      modifies this
      ensures Invariant() && (Fields(), answer) == ForwardStep(old(Fields()))
    {
      if iter < |sampleHistory| - 1 {
        iter := iter + 1;
        answer := Read(sampleHistory[iter]);
      } else {
        answer := Null;
      }
    }

    method Reset()
      modifies this
      ensures Invariant() && Fields() == Initial()
    {
      sampleHistory := [];
      iter := 0;
      length := 0;
    }
  }
}
