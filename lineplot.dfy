/** The cursor state of public/js/Lineplot.js. It differs from
    FeatureVectorLineplot only in the key handler, which first tests that
    `activeFeature` is truthy; as the cursor starts at 1 and no handler
    takes it below 1, that test always passes. */
module Lineplot {
  import opened JsValues
  import opened FeatureCursor

  /** `keypressUpdate`: the arrow keys, behind the truthiness test on the
      cursor (a number is falsy when it is 0). */
  function GuardedKeyStep(active: int, key: int, length: Option<nat>): (r: (int, Event))
    ensures active == 0 ==> r == (active, Quiet)
    ensures active != 0 ==> r == KeyStep(active, key, length)
  {
    if active != 0 then KeyStep(active, key, length) else (active, Quiet)
  }

  /** What reaches a Lineplot: a key press, a click on a feature, or a
      vector of `length` features loaded by `drawLineplot`. */
  datatype Input = Key(code: int) | Click(feature: int) | Load(length: nat)

  /** The cursor and the loaded length after a run of inputs. */
  function Run(active: int, length: Option<nat>, inputs: seq<Input>): (int, Option<nat>)
    decreases |inputs|
  {
    if inputs == [] then (active, length)
    else
      match inputs[0]
      case Key(code) => Run(GuardedKeyStep(active, code, length).0, length, inputs[1..])
      case Click(f) => Run(ClickStep(active, f, length).0, length, inputs[1..])
      case Load(n) => Run(active, Some(n), inputs[1..])
  }

  /** No run of inputs takes the cursor below 1, loaded vectors included. */
  lemma {:induction false} RunStaysPositive(active: int, length: Option<nat>, inputs: seq<Input>)
    requires active >= 1
    ensures Run(active, length, inputs).0 >= 1
    decreases |inputs|
  {
    if inputs != [] {
      match inputs[0]
      case Key(code) => RunStaysPositive(GuardedKeyStep(active, code, length).0, length, inputs[1..]);
      case Click(f) => RunStaysPositive(ClickStep(active, f, length).0, length, inputs[1..]);
      case Load(n) => RunStaysPositive(active, Some(n), inputs[1..]);
    }
  }

  /** The truthiness test never skips a key: from a fresh plot, whatever
      happened before, `keypressUpdate` acts as FeatureVectorLineplot's
      `_onKeydownUpdate` does. */
  lemma GuardNeverSkips(inputs: seq<Input>, key: int)
    ensures var (active, length) := Run(INITIAL_FEATURE, None, inputs);
      GuardedKeyStep(active, key, length) == KeyStep(active, key, length)
  {
    RunStaysPositive(INITIAL_FEATURE, None, inputs);
  }

  class Lineplot {
    var activeFeature: int
    var featureVector: Option<seq<real>>

    function Length(): Option<nat>
      reads this
    {
      if featureVector.Some? then Some(|featureVector.value|) else None
    }

    constructor ()
      ensures activeFeature == INITIAL_FEATURE && featureVector == None
    {
      activeFeature := INITIAL_FEATURE;
      featureVector := None;
    }

    /** `drawLineplot(sampleData)`: the new vector replaces the old one and
        the cursor stays where it was. */
    method DrawLineplot(vector: seq<real>)
      modifies this
      ensures featureVector == Some(vector) && activeFeature == old(activeFeature)
    {
      featureVector := Some(vector);
    }

    /** `onClickUpdate`, with the rounded clicked feature as input. */
    method OnClickUpdate(clickedFeature: int) returns (event: Event)
      modifies this
      ensures (activeFeature, event) == ClickStep(old(activeFeature), clickedFeature, old(Length()))
      ensures featureVector == old(featureVector)
    {
      if featureVector.None? {
        event := Thrown;
      } else if clickedFeature <= |featureVector.value| && clickedFeature > 1 {
        activeFeature := clickedFeature;
        event := Broadcast(activeFeature);
      } else {
        event := Quiet;
      }
    }

    /** `keypressUpdate(keyCode)`. */
    method KeypressUpdate(keyCode: int) returns (event: Event)
      modifies this
      ensures (activeFeature, event) == GuardedKeyStep(old(activeFeature), keyCode, old(Length()))
      ensures featureVector == old(featureVector)
    {
      event := Quiet;
      if activeFeature != 0 {
        if keyCode == RIGHT_ARROW && featureVector.None? {
          event := Thrown;
        } else if keyCode == RIGHT_ARROW && activeFeature < |featureVector.value| {
          activeFeature := activeFeature + 1;
          event := Broadcast(activeFeature);
        } else if keyCode == LEFT_ARROW && activeFeature > 1 {
          activeFeature := activeFeature - 1;
          event := Broadcast(activeFeature);
        }
      }
    }
  }
}
