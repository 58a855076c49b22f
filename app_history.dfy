/** The sample navigation history of the current dashboard
    (app/static/js/History.js): a browser-style back/forward list with a
    cursor `current`, a bound `length` on how far `forward` may go, and
    suppression of an `add` repeating the most recently added id. */
module AppHistory {
  import opened JsValues

  type SampleId = string

  /** The four fields of a History object. `lastSample` is None while it is
      still `null`. */
  datatype State = State(sampleHistory: seq<SampleId>, current: int, lastSample: Option<SampleId>, length: int)

  /** What every operation keeps: the cursor is -1 exactly when nothing is
      reachable, and otherwise points into the reachable prefix. */
  predicate Valid(s: State) {
    -1 <= s.current < s.length <= |s.sampleHistory| &&
    (s.current == -1 <==> s.length == 0)
  }

  /** The reachable entries: `back` and `forward` never leave this prefix. */
  function Entries(s: State): seq<SampleId>
    requires Valid(s)
  {
    s.sampleHistory[..s.length]
  }

  /** The `History` constructor. */
  function Initial(): (s: State)
    ensures Valid(s) && Entries(s) == [] && s.current == -1 && s.lastSample == None
  {
    State([], -1, None, 0)
  }

  /** `add(sampleId)`. */
  function AddStep(s: State, id: SampleId): (r: State)
    requires Valid(s)
    ensures Valid(r)
    ensures s.lastSample == Some(id) ==> r == s
    ensures s.lastSample != Some(id) ==>
      r.current == s.current + 1 && r.length == r.current + 1 &&
      r.lastSample == Some(id) &&
      Entries(r) == Entries(s)[..s.current + 1] + [id]
  {
    if s.lastSample != Some(id) then
      var history :=
        if s.current == |s.sampleHistory| - 1 then s.sampleHistory + [id]
        else s.sampleHistory[s.current + 1 := id];
      State(history, s.current + 1, Some(id), s.current + 2)
    else
      s
  }

  /** `back()`: the new state and the returned id (None for `null`). */
  function BackStep(s: State): (r: (State, Option<SampleId>))
    requires Valid(s)
    ensures Valid(r.0)
    ensures r.0.sampleHistory == s.sampleHistory && r.0.length == s.length && r.0.lastSample == s.lastSample
    ensures s.current > 0 ==> r.0.current == s.current - 1 && r.1 == Some(Entries(s)[s.current - 1])
    ensures s.current <= 0 ==> r == (s, None)
  {
    if s.current > 0 && s.length > 0 then
      var c := s.current - 1;
      (s.(current := c), Some(s.sampleHistory[c]))
    else
      (s, None)
  }

  /** `forward()`: the new state and the returned id (None for `null`). */
  function ForwardStep(s: State): (r: (State, Option<SampleId>))
    requires Valid(s)
    ensures Valid(r.0)
    ensures r.0.sampleHistory == s.sampleHistory && r.0.length == s.length && r.0.lastSample == s.lastSample
    ensures -1 < s.current < s.length - 1 ==> r.0.current == s.current + 1 && r.1 == Some(Entries(s)[s.current + 1])
    ensures !(-1 < s.current < s.length - 1) ==> r == (s, None)
  {
    if s.current > -1 && s.current < s.length - 1 then
      var c := s.current + 1;
      (s.(current := c), Some(s.sampleHistory[c]))
    else
      (s, None)
  }

  /** `reset()`: `lastSample` is left as it was. */
  function ResetStep(s: State): (r: State)
    ensures Valid(r) && Entries(r) == [] && r.current == -1
    ensures r.lastSample == s.lastSample
  {
    State([], -1, s.lastSample, 0)
  }

  // ---- properties of the navigation ----

  /** `back` then `forward` returns to the same state, handing back the id
      that was current. */
  lemma BackThenForward(s: State)
    requires Valid(s) && s.current > 0
    ensures ForwardStep(BackStep(s).0) == (s, Some(Entries(s)[s.current]))
  {
  }

  /** `forward` then `back` returns to the same state. */
  lemma ForwardThenBack(s: State)
    requires Valid(s) && -1 < s.current < s.length - 1
    ensures BackStep(ForwardStep(s).0) == (s, Some(Entries(s)[s.current]))
  {
  }

  /** After an add that is not suppressed there is nothing ahead: the
      entries after the old cursor are gone. */
  lemma AddPrunesForward(s: State, id: SampleId)
    requires Valid(s) && s.lastSample != Some(id)
    ensures ForwardStep(AddStep(s, id)) == (AddStep(s, id), None)
  {
  }

  /** Going back from a fresh add lands on the entry that was current. */
  lemma AddThenBack(s: State, id: SampleId)
    requires Valid(s) && s.lastSample != Some(id) && s.current >= 0
    ensures BackStep(AddStep(s, id)).1 == Some(Entries(s)[s.current])
  {
  }

  /** An empty history answers `null` both ways. */
  lemma EmptyAnswersNull(s: State)
    requires Valid(s) && s.length == 0
    ensures BackStep(s) == (s, None) && ForwardStep(s) == (s, None)
  {
  }

  /** At the oldest entry `back` answers `null` and changes nothing, however often. */
  lemma BackAtStartIsStable(s: State)
    requires Valid(s) && s.current == 0
    ensures BackStep(s) == (s, None) && BackStep(BackStep(s).0) == (s, None)
  {
  }

  /** After a reset, adding the id added last is still suppressed. */
  lemma ResetKeepsLastSample(s: State, id: SampleId)
    requires Valid(s) && s.lastSample == Some(id)
    ensures AddStep(ResetStep(s), id) == ResetStep(s)
    ensures Entries(AddStep(ResetStep(s), id)) == []
  {
  }

  /** Adding the same id twice in a row gives one entry. */
  lemma RepeatedAddSuppressed(s: State, id: SampleId)
    requires Valid(s)
    ensures AddStep(AddStep(s, id), id) == AddStep(s, id)
  {
  }

  /** Adds a, b, c, steps back once, adds d: then back, back, forward,
      forward yield b, a, b, d; c is no longer reachable. */
  lemma BranchTruncation(a: SampleId, b: SampleId, c: SampleId, d: SampleId)
    requires a != b && b != c && d != c
    ensures
      var s3 := AddStep(AddStep(AddStep(Initial(), a), b), c);
      var s4 := AddStep(BackStep(s3).0, d);
      var (s5, r1) := BackStep(s4);
      var (s6, r2) := BackStep(s5);
      var (s7, r3) := ForwardStep(s6);
      var (s8, r4) := ForwardStep(s7);
      [r1, r2, r3, r4] == [Some(b), Some(a), Some(b), Some(d)] &&
      Entries(s8) == [a, b, d] && ForwardStep(s8).1 == None
  {
  }

  /** The recorded navigation scenarios: a repeated add leaves nothing to go
      back or forward to; after a, b going back twice answers a, then null;
      after a, b, c going back twice answers b, a and going forward twice
      then answers b, c; after a, b going back and forward twice answers
      a, b, then null. */
  lemma RecordedScenarios(a: SampleId, b: SampleId, c: SampleId)
    requires a != b && b != c
    ensures var s := AddStep(AddStep(Initial(), a), a);
      BackStep(s).1 == None && ForwardStep(BackStep(s).0).1 == None
    ensures var s := AddStep(AddStep(Initial(), a), b);
      BackStep(s).1 == Some(a) && BackStep(BackStep(s).0).1 == None
    ensures var s := BackStep(BackStep(AddStep(AddStep(AddStep(Initial(), a), b), c)).0);
      s.1 == Some(a) && ForwardStep(s.0).1 == Some(b) && ForwardStep(ForwardStep(s.0).0).1 == Some(c)
    ensures var s := BackStep(AddStep(AddStep(Initial(), a), b));
      s.1 == Some(a) && ForwardStep(s.0).1 == Some(b) && ForwardStep(ForwardStep(s.0).0).1 == None
  {
  }

  // ---- the History object ----

  class History {
    var sampleHistory: seq<SampleId>
    var current: int
    var lastSample: Option<SampleId>
    var length: int

    function Fields(): State
      reads this
    {
      State(sampleHistory, current, lastSample, length)
    }

    ghost predicate Invariant()
      reads this
    {
      Valid(Fields())
    }

    constructor ()
      ensures Invariant() && Fields() == Initial()
    {
      sampleHistory := [];
      current := -1;
      lastSample := None;
      length := 0;
    }

    method Add(sampleId: SampleId)
      requires Invariant()
      modifies this
      ensures Invariant() && Fields() == AddStep(old(Fields()), sampleId)
    {
      if lastSample != Some(sampleId) {
        if current == |sampleHistory| - 1 {
          current := current + 1;
          sampleHistory := sampleHistory + [sampleId];
        } else {
          current := current + 1;
          sampleHistory := sampleHistory[current := sampleId];
        }
        lastSample := Some(sampleId);
        length := current + 1;
      }
    }

    method Back() returns (id: Option<SampleId>)
      requires Invariant()
      modifies this
      ensures Invariant() && (Fields(), id) == BackStep(old(Fields()))
    {
      if current > 0 && length > 0 {
        current := current - 1;
        id := Some(sampleHistory[current]);
      } else {
        id := None;
      }
    }

    method Forward() returns (id: Option<SampleId>)
      requires Invariant()
      modifies this
      ensures Invariant() && (Fields(), id) == ForwardStep(old(Fields()))
    {
      if current > -1 && current < length - 1 {
        current := current + 1;
        id := Some(sampleHistory[current]);
      } else {
        id := None;
      }
    }

    method Reset()
      modifies this
      ensures Invariant() && Fields() == ResetStep(old(Fields()))
    {
      sampleHistory := [];
      current := -1;
      length := 0;
    }
  }
}
