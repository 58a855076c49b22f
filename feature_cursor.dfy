/** The active-feature cursor shared by the two line plots
    (public/js/Lineplot.js and public/js/FeatureVectorLineplot.js). Features
    are numbered from 1 to the length of the feature vector; the cursor is
    moved one step by the arrow keys or set by a click on the plot. The
    clicked position arrives already rounded to a whole feature number. */
module FeatureCursor {
  import opened JsValues

  const LEFT_ARROW: int := 37
  const RIGHT_ARROW: int := 39

  /** Both constructors start the cursor at the first feature. */
  const INITIAL_FEATURE: int := 1

  /** What a handler does besides moving the cursor: nothing, broadcast the
      `updateLineplot` event with the new feature, or throw the TypeError of
      reading `featureVector.length` before any vector was loaded. */
  datatype Event = Quiet | Broadcast(feature: int) | Thrown

  /** The cursor names a feature of a vector of `length` features. */
  predicate InRange(active: int, length: nat) {
    1 <= active <= length
  }

  /** The arrow-key handler: RIGHT moves on while the cursor is below the
      length, LEFT moves back while it is above 1, anything else is ignored.
      `length` is None while no feature vector has been loaded. */
  function KeyStep(active: int, key: int, length: Option<nat>): (r: (int, Event))
    ensures r.1 == Thrown <==> key == RIGHT_ARROW && length.None?
    ensures r.1.Broadcast? <==> r.0 != active
    ensures r.1.Broadcast? ==> r.1.feature == r.0
    ensures -1 <= r.0 - active <= 1
    ensures length.Some? && InRange(active, length.value) ==> InRange(r.0, length.value)
    ensures key == RIGHT_ARROW && length.Some? ==>
      r.0 == (if active < length.value then active + 1 else active)
    ensures key == LEFT_ARROW ==> r.0 == (if active > 1 then active - 1 else active)
    ensures key != RIGHT_ARROW && key != LEFT_ARROW ==> r == (active, Quiet)
  {
    if key == RIGHT_ARROW && length.None? then (active, Thrown)
    else if key == RIGHT_ARROW && active < length.value then (active + 1, Broadcast(active + 1))
    else if key == LEFT_ARROW && active > 1 then (active - 1, Broadcast(active - 1))
    else (active, Quiet)
  }

  /** The click handler, as written: the clicked feature is taken only when
      it is above 1 and at most the length. */
  function ClickStep(active: int, clicked: int, length: Option<nat>): (r: (int, Event))
    ensures r.1 == Thrown <==> length.None?
    ensures r.1.Broadcast? <==> length.Some? && 1 < clicked <= length.value
    ensures r.1.Broadcast? ==> r.0 == clicked && r.1.feature == clicked
    ensures !r.1.Broadcast? ==> r.0 == active
    ensures length.Some? && InRange(active, length.value) ==> InRange(r.0, length.value)
  {
    if length.None? then (active, Thrown)
    else if clicked <= length.value && clicked > 1 then (clicked, Broadcast(clicked))
    else (active, Quiet)
  }

  /** A run of key presses against a loaded vector of `length` features. */
  function Presses(active: int, keys: seq<int>, length: nat): int
    decreases |keys|
  {
    if keys == [] then active
    else Presses(KeyStep(active, keys[0], Some(length)).0, keys[1..], length)
  }

  /** `n` presses of the same key. */
  function Repeat(key: int, n: nat): (keys: seq<int>)
    ensures |keys| == n && forall k :: 0 <= k < n ==> keys[k] == key
  {
    seq(n, _ => key)
  }

  // ---- properties of the key handler ----

  /** RIGHT then LEFT comes back, unless RIGHT was at the last feature. */
  lemma RightThenLeft(active: int, length: nat)
    requires InRange(active, length) && active < length
    ensures KeyStep(KeyStep(active, RIGHT_ARROW, Some(length)).0, LEFT_ARROW, Some(length)) ==
      (active, Broadcast(active))
  {
  }

  /** LEFT then RIGHT comes back, unless LEFT was at the first feature. */
  lemma LeftThenRight(active: int, length: nat)
    requires InRange(active, length) && active > 1
    ensures KeyStep(KeyStep(active, LEFT_ARROW, Some(length)).0, RIGHT_ARROW, Some(length)) ==
      (active, Broadcast(active))
  {
  }

  /** At either end the key pointing outwards changes nothing. */
  lemma StopsAtEnds(length: nat)
    requires length >= 1
    ensures KeyStep(length, RIGHT_ARROW, Some(length)) == (length, Quiet)
    ensures KeyStep(1, LEFT_ARROW, Some(length)) == (1, Quiet)
  {
  }

  /** Any run of key presses keeps the cursor on a feature. */
  lemma {:induction false} PressesKeepRange(active: int, keys: seq<int>, length: nat)
    requires InRange(active, length)
    ensures InRange(Presses(active, keys, length), length)
    decreases |keys|
  {
    if keys != [] {
      PressesKeepRange(KeyStep(active, keys[0], Some(length)).0, keys[1..], length);
    }
  }

  /** Each press moves the cursor by at most one feature. */
  lemma {:induction false} PressesMoveAtMostOnePerKey(active: int, keys: seq<int>, length: nat)
    ensures -|keys| <= Presses(active, keys, length) - active <= |keys|
    decreases |keys|
  {
    if keys != [] {
      PressesMoveAtMostOnePerKey(KeyStep(active, keys[0], Some(length)).0, keys[1..], length);
    }
  }

  /** From any feature, `n` presses of RIGHT reach the n-th feature after
      it, stopping at the last. */
  lemma {:induction false} RightPresses(active: int, n: nat, length: nat)
    requires InRange(active, length)
    ensures Presses(active, Repeat(RIGHT_ARROW, n), length) ==
      if active + n <= length then active + n else length
    decreases n
  {
    if n > 0 {
      var keys := Repeat(RIGHT_ARROW, n);
      assert keys[1..] == Repeat(RIGHT_ARROW, n - 1);
      RightPresses(KeyStep(active, RIGHT_ARROW, Some(length)).0, n - 1, length);
    }
  }

  /** From any feature, `n` presses of LEFT go back n features, stopping at 1. */
  lemma {:induction false} LeftPresses(active: int, n: nat, length: nat)
    requires InRange(active, length)
    ensures Presses(active, Repeat(LEFT_ARROW, n), length) ==
      if active - n >= 1 then active - n else 1
    decreases n
  {
    if n > 0 {
      var keys := Repeat(LEFT_ARROW, n);
      assert keys[1..] == Repeat(LEFT_ARROW, n - 1);
      LeftPresses(KeyStep(active, LEFT_ARROW, Some(length)).0, n - 1, length);
    }
  }

  /** The keys alone reach every feature from the initial one. */
  lemma KeysReachEveryFeature(feature: int, length: nat)
    requires InRange(feature, length)
    ensures Presses(INITIAL_FEATURE, Repeat(RIGHT_ARROW, feature - 1), length) == feature
  {
    RightPresses(INITIAL_FEATURE, feature - 1, length);
  }

  // ---- loading another vector ----

  /** Loading a vector does not move the cursor, so after a shorter vector it
      can lie past the last feature: RIGHT then does nothing, LEFT steps back
      one feature at a time, and a click on a feature from 2 on brings it back. */
  lemma CursorOutlivesVector(active: int, length: nat, clicked: int)
    requires 1 <= length < active
    ensures KeyStep(active, RIGHT_ARROW, Some(length)) == (active, Quiet)
    ensures KeyStep(active, LEFT_ARROW, Some(length)).0 == active - 1
    ensures 1 < clicked <= length ==> InRange(ClickStep(active, clicked, Some(length)).0, length)
  {
  }

  // ---- the click handler and feature 1 ----

  /** No click selects the first feature: from any other feature a click
      never lands on 1, while one LEFT press from feature 2 does. */
  lemma ClickNeverSelectsFirst(active: int, clicked: int, length: nat)
    requires InRange(active, length) && active != 1
    ensures ClickStep(active, clicked, Some(length)).0 != 1
    ensures active == 2 ==> KeyStep(active, LEFT_ARROW, Some(length)).0 == 1
  {
  }

  /** The click handler with the bound evidently intended: any feature from
      1 to the length can be clicked, as the keys can reach it. */
  function CorrectedClickStep(active: int, clicked: int, length: Option<nat>): (r: (int, Event))
    ensures r.1 == Thrown <==> length.None?
    ensures r.1.Broadcast? <==> length.Some? && InRange(clicked, length.value)
    ensures r.1.Broadcast? ==> r.0 == clicked && r.1.feature == clicked
    ensures !r.1.Broadcast? ==> r.0 == active
  {
    if length.None? then (active, Thrown)
    else if clicked <= length.value && clicked >= 1 then (clicked, Broadcast(clicked))
    else (active, Quiet)
  }

  /** The corrected handler selects exactly the features the keys can reach,
      and differs from the one as written only on a click on feature 1. */
  lemma CorrectedClickSelectsAnyFeature(active: int, clicked: int, length: nat)
    requires InRange(active, length)
    ensures InRange(clicked, length) ==>
      CorrectedClickStep(active, clicked, Some(length)).0 == clicked &&
      Presses(INITIAL_FEATURE, Repeat(RIGHT_ARROW, clicked - 1), length) == clicked
    ensures clicked != 1 ==> CorrectedClickStep(active, clicked, Some(length)) == ClickStep(active, clicked, Some(length))
  {
    if InRange(clicked, length) {
      KeysReachEveryFeature(clicked, length);
    }
  }
}
