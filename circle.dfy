/**
 * The 360-slot virtual ring behind each group of three ring LEDs: circular
 * shifting (`rotate_array`), sampling at evenly spaced slots
 * (`full_to_tangent`), filling (`generate_lighting_circle`) and advancing
 * the heading (`rotate_lighting`).
 */
module Circle {
  import opened Quota

  const Slots: int := 360

  /** `{full_circle_bar, led_tangent_bar, heading}`. */
  datatype RingState = RingState(fullCircle: seq<int>, tangent: seq<int>, heading: int)

  // ---------------------------------------------------------------------
  // rotate_array

  /** Python's normalisation of a slice bound `s` on a list of length `n`. */
  function SliceBound(s: int, n: nat): (r: nat)
    ensures r <= n
    ensures 0 <= s + n && s < n ==> r == s % n
    ensures s + n < 0 ==> r == 0
    ensures n <= s ==> r == n
  {
    if s < 0 then (if s + n < 0 then 0 else s + n) else if s > n then n else s
  }

  /** `array[-amount:] + array[:-amount]`: a circular shift with no reduction of `amount`. */
  function RotateArray<T>(a: seq<T>, amount: int): (r: seq<T>)
    ensures |r| == |a|
  {
    var cut := SliceBound(-amount, |a|);
    a[cut..] + a[..cut]
  }

  /** The shift moves values around and neither adds nor drops any. */
  lemma RotateArrayPermutes<T>(a: seq<T>, amount: int)
    ensures multiset(RotateArray(a, amount)) == multiset(a)
  {
    var cut := SliceBound(-amount, |a|);
    assert a == a[..cut] + a[cut..];
  }

  /** Within one turn either way, slot `i` of the result is the slot `amount` places behind it. */
  lemma {:induction false} RotateArrayAt<T>(a: seq<T>, amount: int, i: int)
    requires -|a| <= amount <= |a| && 0 <= i < |a|
    ensures RotateArray(a, amount)[i] == a[(i - amount) % |a|]
  {
    var n := |a|;
    ModNear(i - amount, n);
    var cut := SliceBound(-amount, n);
    if amount > 0 {
      assert cut == n - amount;
    } else {
      assert cut == -amount;
    }
  }

  /** `x % n` for `x` within two turns of [0, n): the Euclidean remainder by a few subtractions. */
  lemma ModNear(x: int, n: int)
    requires 0 < n && -2 * n <= x < 3 * n
    ensures x % n == if x < -n then x + 2 * n else if x < 0 then x + n else if x < n then x
                     else if x < 2 * n then x - n else x - 2 * n
  {
    if x < -n {
      ModUnique(x, n, -2, x + 2 * n);
    } else if x < 0 {
      ModUnique(x, n, -1, x + n);
    } else if x < n {
      ModUnique(x, n, 0, x);
    } else if x < 2 * n {
      ModUnique(x, n, 1, x - n);
    } else {
      ModUnique(x, n, 2, x - 2 * n);
    }
  }

  /** The Euclidean remainder is the only `r` in [0, n) with `x == n * q + r`. */
  lemma ModUnique(x: int, n: int, q: int, r: int)
    requires 0 < n && x == n * q + r && 0 <= r < n
    ensures x % n == r
  {
    var q0 := x / n;
    assert x == n * q0 + x % n;
    if q0 < q {
      assert (q0 + 1) * n == q0 * n + n;
      MulMono(q0 + 1, q, n);
    } else if q < q0 {
      assert (q + 1) * n == q * n + n;
      MulMono(q + 1, q0, n);
    }
  }

  lemma MulMono(a: int, b: int, c: int)
    requires a <= b && 0 <= c
    ensures a * c <= b * c
  {
  }

  /** More than one full turn either way leaves the list as it is. */
  lemma {:induction false} RotateArrayFar<T>(a: seq<T>, amount: int)
    requires amount < -|a| || |a| < amount
    ensures RotateArray(a, amount) == a
  {
    var cut := SliceBound(-amount, |a|);
    assert cut == 0 || cut == |a|;
    assert a[..0] == [] && a[|a|..] == [];
  }

  /** Rotating by `d` and then by `-d` restores the list, for every integer `d`. */
  lemma {:induction false} RotateArrayRoundTrip<T>(a: seq<T>, d: int)
    ensures RotateArray(RotateArray(a, d), -d) == a
  {
    var n := |a|;
    if d < -n || n < d {
      RotateArrayFar(a, d);
      RotateArrayFar(a, -d);
    } else if d == 0 {
      assert RotateArray(a, 0) == a;
    } else {
      var cut := SliceBound(-d, n);
      var back := SliceBound(d, n);
      assert back == n - cut;
      var r := a[cut..] + a[..cut];
      assert r[back..] == a[..cut];
      assert r[..back] == a[cut..];
    }
  }

  /** Two rotations within one turn each are one rotation by their sum modulo the length. */
  lemma {:induction false} RotateArrayCompose<T>(a: seq<T>, x: int, y: int)
    requires 0 < |a| && -|a| <= x <= |a| && -|a| <= y <= |a|
    ensures RotateArray(RotateArray(a, x), y) == RotateArray(a, (x + y) % |a|)
  {
    forall i | 0 <= i < |a|
      ensures RotateArray(RotateArray(a, x), y)[i] == RotateArray(a, (x + y) % |a|)[i]
    {
      RotateArrayComposeAt(a, x, y, i);
    }
  }

  lemma {:induction false} RotateArrayComposeAt<T>(a: seq<T>, x: int, y: int, i: int)
    requires 0 < |a| && -|a| <= x <= |a| && -|a| <= y <= |a| && 0 <= i < |a|
    ensures RotateArray(RotateArray(a, x), y)[i] == RotateArray(a, (x + y) % |a|)[i]
  {
    var n := |a|;
    var b := RotateArray(a, x);
    var j := (i - y) % n;
    var s := (x + y) % n;
    ModShiftSum(n, x, y, i);
    RotateArrayAt(b, y, i);
    assert RotateArray(b, y)[i] == b[j];
    RotateArrayAt(a, x, j);
    assert b[j] == a[(j - x) % n];
    RotateArrayAt(a, s, i);
  }

  /** Stepping back `y` and then `x` places round the ring is stepping back `(x + y) mod n` places. */
  lemma ModShiftSum(n: int, x: int, y: int, i: int)
    requires 0 < n && -n <= x <= n && -n <= y <= n && 0 <= i < n
    ensures 0 <= (x + y) % n < n
    ensures ((i - y) % n - x) % n == (i - (x + y) % n) % n
  {
    ModNear(x + y, n);
    ModNear(i - y, n);
    ModNear((i - y) % n - x, n);
    ModNear(i - (x + y) % n, n);
  }

  /** A ring whose slots are all equal looks the same at every rotation. */
  lemma {:induction false} RotateArrayUniform(a: seq<int>, amount: int, v: int)
    requires forall i :: 0 <= i < |a| ==> a[i] == v
    ensures RotateArray(a, amount) == a
  {
    var r := RotateArray(a, amount);
    var cut := SliceBound(-amount, |a|);
    assert forall i :: 0 <= i < |r| ==> r[i] == (if i < |a| - cut then a[cut + i] else a[i - (|a| - cut)]);
  }

  // ---------------------------------------------------------------------
  // full_to_tangent

  /** Element counts whose spacing `360 / elements` is a whole number of slots. */
  predicate ValidElements(elements: nat) {
    elements == 0 || Slots % elements == 0
  }

  /** `full_to_tangent(field, elements)` reads only slots that exist. */
  predicate Samplable(field: seq<int>, elements: nat) {
    elements == 0 || (Slots % elements == 0 && Slots - Slots / elements < |field|)
  }

  lemma SampleIndicesBound(elements: nat)
    requires 0 < elements ==> Slots % elements == 0
    ensures forall i :: 0 <= i < elements ==> 0 <= i * (Slots / elements) <= Slots - Slots / elements
  {
    forall i | 0 <= i < elements
      ensures 0 <= i * (Slots / elements) <= Slots - Slots / elements
    {
      SampleIndexBound(elements, i);
    }
  }

  lemma SampleIndexBound(elements: nat, i: nat)
    requires 0 < elements && Slots % elements == 0 && i < elements
    ensures 0 <= i * (Slots / elements) <= Slots - Slots / elements
  {
    var step := Slots / elements;
    assert elements * step == Slots;
    assert i * step <= (elements - 1) * step by {
      MulMono(i, elements - 1, step);
    }
  }

  /** The values at the evenly spaced slots `0, 360 / elements, 2 * 360 / elements, ...`. */
  function Tangent(field: seq<int>, elements: nat): (r: seq<int>)
    requires Samplable(field, elements)
    ensures |r| == elements
    ensures Bright(field) ==> Bright(r)
    ensures 0 < elements ==> r[0] == field[0]
  {
    SampleIndicesBound(elements);
    seq(elements, i requires 0 <= i < elements =>
      SampleIndexBound(elements, i); field[i * (Slots / elements)])
  }

  /** Every full 360-slot field can be sampled at any whole-degree spacing. */
  lemma SamplableFull(field: seq<int>, elements: nat)
    requires |field| == Slots && ValidElements(elements)
    ensures Samplable(field, elements)
  {
  }

  /**
   * `full_to_tangent(full_circle_bar, elements)`: fill a list of `elements`
   * zeros, entry `i` from slot `i * (360 / elements)`.
   */
  method FullToTangent(field: seq<int>, elements: nat) returns (r: seq<int>)
    requires Samplable(field, elements)
    ensures r == Tangent(field, elements)
  {
    var bar := new int[elements](_ => 0);
    for i := 0 to elements
      invariant forall j :: 0 <= j < i ==> bar[j] == Tangent(field, elements)[j]
    {
      SampleIndexBound(elements, i);
      bar[i] := field[i * (Slots / elements)];
    }
    r := bar[..];
  }

  /** Three LEDs sit at slots 0, 120 and 240. */
  lemma TangentOfThree(field: seq<int>)
    requires |field| == Slots
    ensures Samplable(field, 3)
    ensures Tangent(field, 3) == [field[0], field[120], field[240]]
  {
    var t := Tangent(field, 3);
    assert t[0] == field[0] && t[1] == field[120] && t[2] == field[240];
  }

  /** Sampling a rotated field reads the original field `amount` slots behind each sample point. */
  lemma TangentOfRotated(field: seq<int>, elements: nat, amount: int, i: int)
    requires |field| == Slots && ValidElements(elements) && 0 <= i < elements
    requires -Slots <= amount <= Slots
    ensures Samplable(RotateArray(field, amount), elements)
    ensures Tangent(RotateArray(field, amount), elements)[i] == field[(i * (Slots / elements) - amount) % Slots]
  {
    SampleIndexBound(elements, i);
    RotateArrayAt(field, amount, i * (Slots / elements));
  }

  // ---------------------------------------------------------------------
  // generate_lighting_circle

  /**
   * What the fill loop of `generate_lighting_circle` leaves in the 360
   * slots. The loop walks the list backwards by VALUE, not by index: while
   * the slot it reads still holds 0 it writes to slot 0, so steps 0..358
   * each overwrite slot 0; the last step reads slot 0 back and writes to the
   * slot named by the value step 358 left there.
   */
  function FilledCircle(amount: int): (r: seq<int>)
    ensures |r| == Slots && Bright(r)
  {
    ShareBounds(amount, 358);
    ShareBounds(amount, 359);
    var w := Share(amount, 358);
    Filled(Slots, 0)[0 := w][w := Share(amount, 359)]
  }

  /** At most two slots are ever lit: slot 0 and the slot named by slot 0's value. */
  lemma FilledCircleAtMostTwoLit(amount: int, i: int)
    requires 0 <= i < Slots && FilledCircle(amount)[i] != 0
    ensures i == 0 || i == Share(amount, 358)
  {
  }

  /** Any amount up to 358 full slots' worth, and so any fraction below 358/360, leaves the ring dark. */
  lemma FilledCircleDark(amount: int)
    requires amount <= 358 * MaxBrightness
    ensures FilledCircle(amount) == Filled(Slots, 0)
  {
    if amount < 0 {
      ShareNegative(amount, 358);
      ShareNegative(amount, 359);
    } else {
      ShareClosed(amount, 358);
      ShareClosed(amount, 359);
    }
  }

  /** A full ring's worth (fraction 1.0 or more) lights slots 0 and 255 only. */
  lemma FilledCircleFull(amount: int, i: int)
    requires Slots * MaxBrightness <= amount && 0 <= i < Slots
    ensures FilledCircle(amount)[i] == if i == 0 || i == MaxBrightness then MaxBrightness else 0
  {
    ShareClosed(amount, 358);
    ShareClosed(amount, 359);
  }

  /**
   * The fill loop of `generate_lighting_circle`, as written: step `k` reads
   * slot `359 - k`, then writes the next share to the slot named by the
   * value it read.
   */
  method FillCircle(amount0: int) returns (full: seq<int>)
    ensures full == FilledCircle(amount0)
  {
    var bar := new int[Slots](_ => 0);
    var amount := amount0;
    var step := 0;
    while step < Slots
      invariant 0 <= step <= Slots
      invariant amount == Remaining(amount0, step)
      invariant step < Slots ==> forall j :: 1 <= j < Slots ==> bar[j] == 0
      invariant step < Slots ==> bar[0] == if step == 0 then 0 else Share(amount0, step - 1)
      invariant step == Slots ==> bar[..] == FilledCircle(amount0)
    {
      var degree := bar[Slots - 1 - step];
      if step == Slots - 1 {
        ShareBounds(amount0, 358);
      }
      ghost var before := bar[..];
      bar[degree] := if amount > MaxBrightness then MaxBrightness else amount;
      amount := if amount < MaxBrightness then 0 else amount - MaxBrightness;
      if step == Slots - 1 {
        assert before == Filled(Slots, 0)[0 := Share(amount0, 358)];
        assert bar[..] == before[degree := Share(amount0, 359)];
      }
      step := step + 1;
    }
    full := bar[..];
  }

  /** The ring for one fill amount, turned to `heading` unless the heading is a whole number of turns. */
  function Oriented(full: seq<int>, heading: int): (r: seq<int>)
    ensures |r| == |full| && multiset(r) == multiset(full)
    ensures heading % Slots == 0 ==> r == full
  {
    RotateArrayPermutes(full, heading);
    if heading % Slots != 0 then RotateArray(full, heading) else full
  }

  /** `int(360 * 255 * percentage)`. */
  function CircleAmount(percentage: real): (r: int)
    ensures 0.0 <= percentage ==> 0 <= r
    ensures percentage <= 1.0 ==> r <= Slots * MaxBrightness
    ensures 1.0 <= percentage ==> Slots * MaxBrightness <= r
  {
    Truncate((Slots * MaxBrightness) as real * percentage)
  }

  /**
   * The state `generate_lighting_circle(elements, percentage, heading)`
   * returns: a 360-slot field in [0, 255], `elements` samples of it, and the
   * heading echoed as given (not reduced modulo 360).
   */
  function LightingCircle(elements: nat, percentage: real, heading: int): (s: RingState)
    requires ValidElements(elements)
    ensures |s.fullCircle| == Slots && Bright(s.fullCircle)
    ensures |s.tangent| == elements && Bright(s.tangent)
    ensures s.heading == heading
  {
    var filled := FilledCircle(CircleAmount(percentage));
    var full := Oriented(filled, heading);
    assert Bright(full) by {
      forall i | 0 <= i < |full| ensures 0 <= full[i] <= MaxBrightness {
        assert full[i] in multiset(filled);
      }
    }
    SamplableFull(full, elements);
    RingState(full, Tangent(full, elements), heading)
  }

  /** `generate_lighting_circle(elements, percentage, heading)`. */
  method GenerateLightingCircle(elements: nat, percentage: real, heading: int) returns (s: RingState)
    requires ValidElements(elements)
    ensures s == LightingCircle(elements, percentage, heading)
  {
    var full := FillCircle(CircleAmount(percentage));
    var rotated := if heading % Slots != 0 then RotateArray(full, heading) else full;
    SamplableFull(rotated, elements);
    var tangent := FullToTangent(rotated, elements);
    s := RingState(rotated, tangent, heading);
  }

  /** A zero reading gives a dark ring and dark LEDs at any heading. */
  lemma LightingCircleZero(elements: nat, heading: int)
    requires ValidElements(elements)
    ensures LightingCircle(elements, 0.0, heading).fullCircle == Filled(Slots, 0)
    ensures LightingCircle(elements, 0.0, heading).tangent == Filled(elements, 0)
  {
    assert CircleAmount(0.0) == 0;
    FilledCircleDark(0);
    var full := Oriented(Filled(Slots, 0), heading);
    assert full == Filled(Slots, 0) by {
      if heading % Slots != 0 {
        RotateArrayUniform(Filled(Slots, 0), heading, 0);
      }
    }
    SamplableFull(full, elements);
    var t := Tangent(full, elements);
    forall i | 0 <= i < elements ensures t[i] == 0 {
      SampleIndexBound(elements, i);
    }
  }

  /**
   * A reading of 1.0 or more (a percentage such as 57.0 included) lights only
   * slots 0 and 255 of the unrotated ring, so three LEDs show 255, 0, 0.
   */
  lemma LightingCircleHigh(percentage: real, i: int)
    requires 1.0 <= percentage && 0 <= i < Slots
    ensures LightingCircle(3, percentage, 0).fullCircle[i] == if i == 0 || i == MaxBrightness then MaxBrightness else 0
    ensures LightingCircle(3, percentage, 0).tangent == [MaxBrightness, 0, 0]
  {
    var amount := CircleAmount(percentage);
    assert (Slots * MaxBrightness) as real <= (Slots * MaxBrightness) as real * percentage;
    FilledCircleFull(amount, i);
    var full := FilledCircle(amount);
    TangentOfThree(full);
    FilledCircleFull(amount, 0);
    FilledCircleFull(amount, 120);
    FilledCircleFull(amount, 240);
  }

  /**
   * The same full reading at heading 7 leaves all three LEDs dark: the two
   * lit slots move to 7 and 262, away from the sample points 0, 120 and 240.
   */
  lemma LightingCircleHighTurned(percentage: real)
    requires 1.0 <= percentage
    ensures LightingCircle(3, percentage, 7).tangent == [0, 0, 0]
  {
    var amount := CircleAmount(percentage);
    var filled := FilledCircle(amount);
    var full := RotateArray(filled, 7);
    TangentOfThree(full);
    RotateArrayAt(filled, 7, 0);
    RotateArrayAt(filled, 7, 120);
    RotateArrayAt(filled, 7, 240);
    FilledCircleFull(amount, 353);
    FilledCircleFull(amount, 113);
    FilledCircleFull(amount, 233);
  }

  /**
   * A heading past a full turn makes `rotate_array` a no-op: the field is
   * the unrotated fill though the state records the heading.
   */
  lemma LightingCircleFarHeading(elements: nat, percentage: real, heading: int)
    requires ValidElements(elements) && (heading < -Slots || Slots < heading)
    ensures LightingCircle(elements, percentage, heading).fullCircle == FilledCircle(CircleAmount(percentage))
    ensures LightingCircle(elements, percentage, heading).heading == heading
  {
    RotateArrayFar(FilledCircle(CircleAmount(percentage)), heading);
  }

  // ---------------------------------------------------------------------
  // rotate_lighting

  /**
   * `rotate_lighting(state, degrees)`: shift the field, resample it at the
   * same number of LEDs, and advance the heading modulo 360.
   */
  function RotateLighting(s: RingState, degrees: int): (r: RingState)
    requires Samplable(s.fullCircle, |s.tangent|)
    ensures multiset(r.fullCircle) == multiset(s.fullCircle)
    ensures |r.tangent| == |s.tangent|
    ensures r.heading == (s.heading + degrees) % Slots && 0 <= r.heading < Slots
  {
    var full := RotateArray(s.fullCircle, degrees);
    RotateArrayPermutes(s.fullCircle, degrees);
    RingState(full, Tangent(full, |s.tangent|), (s.heading + degrees) % Slots)
  }

  /**
   * The heading keeps track of the rotation: a field that is some ring
   * turned by the state's heading is, after `rotate_lighting`, that ring
   * turned by the new heading.
   */
  lemma RotateLightingTracksHeading(s: RingState, base: seq<int>, degrees: int)
    requires |base| == Slots && 0 <= s.heading < Slots && -Slots <= degrees <= Slots
    requires s.fullCircle == RotateArray(base, s.heading)
    requires Samplable(s.fullCircle, |s.tangent|)
    ensures RotateLighting(s, degrees).fullCircle == RotateArray(base, RotateLighting(s, degrees).heading)
  {
    RotateArrayCompose(base, s.heading, degrees);
  }
}
