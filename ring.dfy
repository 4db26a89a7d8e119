/**
 * `animate_ring`: the per-frame step of a ring channel. It takes the
 * previous state (or none yet) and the two readings it is handed, and
 * returns the next state: frozen at the boundary readings 0 and 100, turned
 * 7 degrees while the reading holds, rebuilt when the reading changes.
 */
module RingAnimator {
  import opened Wrappers
  import opened Quota
  import opened Circle

  /** Degrees the ring turns per frame. */
  const Rotation: int := 7

  /** LEDs per ring when a state is first built. */
  const RingElements: nat := 3

  /** The readings compared against the literals 0 and 100 (not 0.0 and 1.0). */
  predicate IsBoundary(v: real)
    ensures IsBoundary(v) ==> 0.0 <= v <= 100.0 && v != 1.0
  {
    v == 0.0 || v == 100.0
  }

  /** The shape of every state `animate_ring` produces. */
  predicate WellFormed(s: RingState) {
    && |s.fullCircle| == Slots && Bright(s.fullCircle)
    && ValidElements(|s.tangent|) && Bright(s.tangent)
  }

  /**
   * What `animate_ring` needs of its inputs not to raise: a state whose
   * tangent can be resampled when it rotates, and, when the reading
   * changes, a state at all (the tangent length is read before the `None`
   * check) whose tangent length divides the circle when it is regenerated.
   */
  predicate CanAnimate(current: Option<RingState>, oldVal: real, newVal: real)
    ensures oldVal != newVal && current.None? ==> !CanAnimate(current, oldVal, newVal)
    ensures oldVal == newVal && (IsBoundary(newVal) || current.None?) ==> CanAnimate(current, oldVal, newVal)
  {
    if oldVal == newVal then
      IsBoundary(newVal) || current.None? || Samplable(current.value.fullCircle, |current.value.tangent|)
    else
      current.Some? && (IsBoundary(newVal) || ValidElements(|current.value.tangent|))
  }

  lemma {:induction false} RotateLightingWellFormed(s: RingState, degrees: int)
    requires WellFormed(s)
    ensures Samplable(s.fullCircle, |s.tangent|)
    ensures WellFormed(RotateLighting(s, degrees))
  {
    SamplableFull(s.fullCircle, |s.tangent|);
    var r := RotateLighting(s, degrees);
    forall i | 0 <= i < |r.fullCircle|
      ensures 0 <= r.fullCircle[i] <= MaxBrightness
    {
      assert r.fullCircle[i] in multiset(s.fullCircle);
    }
  }

  /**
   * `animate_ring(current_led_state, old_val, new_val)`. The result is
   * `None` exactly when there was no state and a held boundary reading
   * leaves it as it is.
   */
  function AnimateRing(current: Option<RingState>, oldVal: real, newVal: real): (r: Option<RingState>)
    requires CanAnimate(current, oldVal, newVal)
    ensures r.None? <==> current.None? && oldVal == newVal && IsBoundary(newVal)
  {
    if oldVal == newVal then
      if newVal == 0.0 || newVal == 100.0 then current
      else if current.None? then Some(LightingCircle(RingElements, newVal, 0))
      else Some(RotateLighting(current.value, Rotation))
    else
      var elements := |current.value.tangent|;
      if newVal == 0.0 then
        Some(RingState(Filled(Slots, 0), Filled(elements, 0), 0))
      else if newVal == 100.0 then
        Some(RingState(Filled(Slots, MaxBrightness), Filled(elements, MaxBrightness), 0))
      else
        var heading := if current.None? then 0 else current.value.heading;
        Some(LightingCircle(elements, newVal, heading + Rotation))
  }

  /** Every state `animate_ring` returns, from a well-formed state or none, is well formed again. */
  lemma AnimateRingWellFormed(current: Option<RingState>, oldVal: real, newVal: real)
    requires CanAnimate(current, oldVal, newVal)
    requires current.Some? ==> WellFormed(current.value)
    ensures AnimateRing(current, oldVal, newVal).Some? ==> WellFormed(AnimateRing(current, oldVal, newVal).value)
  {
    if oldVal == newVal && !IsBoundary(newVal) && current.Some? {
      RotateLightingWellFormed(current.value, Rotation);
    }
  }

  /** The very first frame, with no state and both readings still 0, produces no state either. */
  lemma FirstFrameHasNoState()
    ensures AnimateRing(None, 0.0, 0.0) == None
  {
  }

  /** A held boundary reading freezes the display: the state comes back unchanged. */
  lemma HeldBoundaryFreezes(current: Option<RingState>, v: real)
    requires IsBoundary(v)
    ensures CanAnimate(current, v, v)
    ensures AnimateRing(current, v, v) == current
  {
  }

  /** A held mid-range reading with no state yet builds three LEDs' worth at heading 0. */
  lemma HeldReadingStarts(v: real)
    requires !IsBoundary(v)
    ensures AnimateRing(None, v, v) == Some(LightingCircle(RingElements, v, 0))
    ensures |AnimateRing(None, v, v).value.tangent| == 3
    ensures AnimateRing(None, v, v).value.heading == 0
  {
  }

  /**
   * A held mid-range reading turns the ring 7 degrees: the same brightness
   * values in new places, the heading advanced by 7 modulo 360, as many
   * LEDs as before, and each LED showing the slot 7 degrees behind its own.
   */
  lemma HeldReadingRotates(s: RingState, v: real, i: int)
    requires !IsBoundary(v) && WellFormed(s) && 0 <= i < |s.tangent|
    ensures CanAnimate(Some(s), v, v)
    ensures var r := AnimateRing(Some(s), v, v).value;
      && r.fullCircle == RotateArray(s.fullCircle, Rotation)
      && multiset(r.fullCircle) == multiset(s.fullCircle)
      && r.heading == (s.heading + Rotation) % Slots
      && |r.tangent| == |s.tangent|
      && r.tangent[i] == s.fullCircle[(i * (Slots / |s.tangent|) - Rotation) % Slots]
  {
    SamplableFull(s.fullCircle, |s.tangent|);
    TangentOfRotated(s.fullCircle, |s.tangent|, Rotation, i);
  }

  /**
   * While the reading holds, the heading keeps account of the rotation: a
   * field that is some ring turned by the current heading becomes that ring
   * turned by the next heading.
   */
  lemma HeldReadingTracksHeading(s: RingState, base: seq<int>, v: real)
    requires !IsBoundary(v) && WellFormed(s) && |base| == Slots
    requires 0 <= s.heading < Slots && s.fullCircle == RotateArray(base, s.heading)
    ensures CanAnimate(Some(s), v, v)
    ensures var r := AnimateRing(Some(s), v, v).value;
      r.fullCircle == RotateArray(base, r.heading) && 0 <= r.heading < Slots
  {
    SamplableFull(s.fullCircle, |s.tangent|);
    RotateLightingTracksHeading(s, base, Rotation);
  }

  /**
   * A reading that changes to 0 or to 100 replaces the ring with all-off or
   * all-on slots, keeps the previous number of LEDs and resets the heading.
   */
  lemma ChangedToBoundary(s: RingState, oldVal: real, newVal: real)
    requires oldVal != newVal && IsBoundary(newVal)
    ensures CanAnimate(Some(s), oldVal, newVal)
    ensures var r := AnimateRing(Some(s), oldVal, newVal).value;
      var level := if newVal == 0.0 then 0 else MaxBrightness;
      && |r.fullCircle| == Slots && |r.tangent| == |s.tangent| && r.heading == 0
      && (forall i :: 0 <= i < Slots ==> r.fullCircle[i] == level)
      && (forall i :: 0 <= i < |r.tangent| ==> r.tangent[i] == level)
  {
  }

  /**
   * Any other changed reading rebuilds the ring at the previous number of
   * LEDs, 7 degrees past the previous heading. The heading is not reduced
   * modulo 360, and past 360 `rotate_array` stops turning the field.
   */
  lemma ChangedReadingRegenerates(s: RingState, oldVal: real, newVal: real)
    requires oldVal != newVal && !IsBoundary(newVal) && ValidElements(|s.tangent|)
    ensures CanAnimate(Some(s), oldVal, newVal)
    ensures var r := AnimateRing(Some(s), oldVal, newVal).value;
      && r == LightingCircle(|s.tangent|, newVal, s.heading + Rotation)
      && r.heading == s.heading + Rotation
      && (Slots < s.heading + Rotation ==> r.fullCircle == FilledCircle(CircleAmount(newVal)))
  {
    if Slots < s.heading + Rotation {
      LightingCircleFarHeading(|s.tangent|, newVal, s.heading + Rotation);
    }
  }
}
