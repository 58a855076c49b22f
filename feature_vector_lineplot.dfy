/** The cursor state of public/js/FeatureVectorLineplot.js: `activeFeature`
    and the loaded `featureVector`. Scales, axes, the drawn line and the
    AJAX request that delivers the vector are not modelled. */
module FeatureVectorLineplot {
  import opened JsValues
  import opened FeatureCursor

  class FeatureVectorLineplot {
    /** The position of the vertical line, from 1; not an index into the vector. */
    var activeFeature: int
    /** None until `drawLineplot` has received a vector. */
    var featureVector: Option<seq<real>>

    /** The vector's length as the handlers read it. */
    function Length(): Option<nat>
      reads this
    {
      if featureVector.Some? then Some(|featureVector.value|) else None
    }

    constructor ()
      ensures activeFeature == INITIAL_FEATURE && featureVector == None
    {
      activeFeature := INITIAL_FEATURE;
      featureVector := None;
    }

    /** The success callback of `drawLineplot`: the new vector replaces the
        old one and the cursor stays where it was. */
    method DrawLineplot(vector: seq<real>)
      modifies this
      ensures featureVector == Some(vector) && activeFeature == old(activeFeature)
    {
      featureVector := Some(vector);
    }

    /** `_handleFeatureChange`: broadcasts the current feature. */
    method HandleFeatureChange() returns (event: Event)
      ensures event == Broadcast(activeFeature)
    {
      event := Broadcast(activeFeature);
    }

    /** `_onClickUpdate`, with the rounded clicked feature as input. */
    method OnClickUpdate(clickedFeature: int) returns (event: Event)
      modifies this
      ensures (activeFeature, event) == ClickStep(old(activeFeature), clickedFeature, old(Length()))
      ensures featureVector == old(featureVector)
    {
      if featureVector.None? {
        event := Thrown;
      } else if clickedFeature <= |featureVector.value| && clickedFeature > 1 {
        activeFeature := clickedFeature;
        event := HandleFeatureChange();
      } else {
        event := Quiet;
      }
    }

    /** `_onKeydownUpdate(keyCode)`. */
    method OnKeydownUpdate(keyCode: int) returns (event: Event)
      modifies this
      ensures (activeFeature, event) == KeyStep(old(activeFeature), keyCode, old(Length()))
      ensures featureVector == old(featureVector)
    {
      if keyCode == RIGHT_ARROW && featureVector.None? {
        event := Thrown;
      } else if keyCode == RIGHT_ARROW && activeFeature < |featureVector.value| {
        activeFeature := activeFeature + 1;
        event := HandleFeatureChange();
      } else if keyCode == LEFT_ARROW && activeFeature > 1 {
        activeFeature := activeFeature - 1;
        event := HandleFeatureChange();
      } else {
        event := Quiet;
      }
    }
  }
}
