/**
 * The LED-writing side of the monitor: the fixed pin tables, the bar graph
 * `led_bar` and the two ring channels `animate_cpu` and
 * `animate_ssh_sessions`, all writing through the emulator's `_set`.
 */
module GlowMonitor {
  import opened Wrappers
  import opened Quota
  import opened Circle
  import opened RingAnimator
  import opened PiGlowEmulator

  /** The red, orange, yellow and green LED of each leg, one leg per row. */
  const LegsRoyg: seq<seq<int>> := [[6, 7, 8, 5], [17, 16, 15, 13], [0, 1, 2, 3]]

  /** The blue ring, driven by the CPU channel. */
  const RingBlue: seq<int> := [4, 11, 14]

  /** The white ring, driven by the SSH-sessions channel. */
  const RingWhite: seq<int> := [9, 10, 12]

  datatype BarError = InvalidPercentage

  /** The three legs and the two rings between them use each of the 18 LEDs exactly once. */
  lemma PinTablesPartitionLeds()
    ensures var all := LegsRoyg[0] + LegsRoyg[1] + LegsRoyg[2] + RingBlue + RingWhite;
      && |all| == LedCount
      && (forall i :: 0 <= i < |all| ==> 0 <= all[i] < LedCount)
      && (forall i, j :: 0 <= i < j < |all| ==> all[i] != all[j])
  {
    var legs := LegsRoyg[0] + LegsRoyg[1] + LegsRoyg[2];
    assert legs == [6, 7, 8, 5, 17, 16, 15, 13, 0, 1, 2, 3];
    var all := legs + RingBlue + RingWhite;
    assert all == [6, 7, 8, 5, 17, 16, 15, 13, 0, 1, 2, 3, 4, 11, 14, 9, 10, 12];
    // Where each LED sits in `all`: one position per LED makes the entries distinct.
    var position := [8, 9, 10, 11, 12, 3, 0, 1, 2, 15, 16, 13, 17, 7, 14, 6, 5, 4];
    assert forall i :: 0 <= i < |all| ==> 0 <= all[i] < LedCount && position[all[i]] == i;
  }

  function Reversed(s: seq<int>): (r: seq<int>)
    ensures |r| == |s|
    ensures forall k :: 0 <= k < |s| ==> r[k] == s[|s| - 1 - k]
  {
    seq(|s|, k requires 0 <= k < |s| => s[|s| - 1 - k])
  }

  /** `int(len(leg) * 255 * percentage)`: the units `led_bar` hands out. */
  function BarAmount(n: nat, percentage: real): (r: int)
    ensures 0.0 <= percentage <= 1.0 ==> 0 <= r <= n * MaxBrightness
    ensures percentage == 1.0 ==> r == n * MaxBrightness
  {
    var m := (n * MaxBrightness) as real;
    assert 0.0 <= percentage <= 1.0 ==> 0.0 <= m * percentage <= m by {
      if 0.0 <= percentage <= 1.0 {
        assert m * (1.0 - percentage) >= 0.0;
      }
    }
    Truncate(m * percentage)
  }

  /**
   * The write loop of `led_bar`: the LEDs of `leg`, last one first, each get
   * at most 255 of the `amount` units still left.
   */
  method FillLeg(glow: PiGlow, leg: seq<int>, amount: int)
    requires glow.Valid()
    modifies glow, glow.buffer
    ensures glow.Valid() && glow.buffer == old(glow.buffer) && glow.live == old(glow.live)
    ensures glow.buffer.items == PutAll(old(glow.buffer.items), Reversed(leg), Shares(amount, |leg|))
  {
    var numLeds := |leg|;
    var left := amount;
    ghost var pins, shares := Reversed(leg), Shares(amount, numLeds);
    var i := 0;
    while i < numLeds
      invariant 0 <= i <= numLeds
      invariant glow.Valid() && glow.buffer == old(glow.buffer) && glow.live == old(glow.live)
      invariant left == Remaining(amount, i)
      invariant glow.buffer.items == PutAll(old(glow.buffer.items), pins[..i], shares[..i])
    {
      var ledIndex := leg[numLeds - 1 - i];
      var level := if left > MaxBrightness then MaxBrightness else left;
      ShareStep(amount, i, left);
      assert ledIndex == pins[i] && level == shares[i];
      PutAllSnoc(old(glow.buffer.items), pins, shares, i);
      var _ := glow.SetCompat(Pin(ledIndex), One(level));
      left := if left < MaxBrightness then 0 else left - MaxBrightness;
      i := i + 1;
    }
    assert pins[..i] == pins && shares[..i] == shares;
  }

  /**
   * `led_bar(leg, percentage)`. A percentage outside [0.0, 1.0] raises
   * `ValueError` before any LED is written. Otherwise the LEDs of `leg` are
   * written once each, last one first, with the greedy shares of
   * `int(len(leg) * 255 * percentage)` units.
   */
  method LedBar(glow: PiGlow, leg: seq<int>, percentage: real) returns (r: Outcome<BarError>)
    requires glow.Valid()
    modifies glow, glow.buffer
    ensures glow.Valid() && glow.buffer == old(glow.buffer) && glow.live == old(glow.live)
    ensures r.Fail? <==> percentage > 1.0 || percentage < 0.0
    ensures r.Fail? ==> glow.buffer.items == old(glow.buffer.items)
    ensures r.Pass? ==>
      glow.buffer.items == PutAll(old(glow.buffer.items), Reversed(leg), Shares(BarAmount(|leg|, percentage), |leg|))
  {
    if percentage > 1.0 || percentage < 0.0 {
      return Fail(InvalidPercentage);
    }
    var numLeds := |leg|;
    var amount := BarAmount(numLeds, percentage);
    FillLeg(glow, leg, amount);
    r := Pass;
  }

  /**
   * The values `led_bar` writes for an accepted percentage: each in
   * [0, 255], never brighter than the one written before, at most one of
   * them strictly between 0 and 255, and adding up to exactly
   * `int(len(leg) * 255 * percentage)`.
   */
  lemma BarShares(n: nat, percentage: real)
    requires 0.0 <= percentage <= 1.0
    ensures var s := Shares(BarAmount(n, percentage), n);
      && Sum(s) == BarAmount(n, percentage)
      && (forall k :: 0 <= k < n ==> 0 <= s[k] <= MaxBrightness)
      && (forall i, j :: 0 <= i <= j < n ==> s[j] <= s[i])
      && (forall i, j :: 0 <= i < n && 0 <= j < n && 0 < s[i] < MaxBrightness && 0 < s[j] < MaxBrightness ==> i == j)
  {
    var amount := BarAmount(n, percentage);
    SharesSum(amount, n);
    forall k | 0 <= k < n ensures 0 <= Share(amount, k) <= MaxBrightness {
      ShareBounds(amount, k);
    }
    forall i, j | 0 <= i <= j < n ensures Share(amount, j) <= Share(amount, i) {
      SharesNonIncreasing(amount, i, j);
    }
    forall i, j | 0 <= i < n && 0 <= j < n && 0 < Share(amount, i) < MaxBrightness && 0 < Share(amount, j) < MaxBrightness
      ensures i == j
    {
      SharesOnePartial(amount, i, j);
    }
  }

  /**
   * On a leg of LEDs that are distinct modulo 18, `led_bar` leaves LED
   * `leg[k]` at the share of the `(len(leg) - 1 - k)`-th write, and every
   * LED outside the leg as it was.
   */
  lemma {:induction false} BarLightsLeg(buffer: seq<int>, leg: seq<int>, amount: int, j: int)
    requires |buffer| == LedCount && 0 <= j < LedCount
    requires forall a, b :: 0 <= a < b < |leg| ==> leg[a] % LedCount != leg[b] % LedCount
    ensures var after := PutAll(buffer, Reversed(leg), Shares(amount, |leg|));
      && (forall k :: 0 <= k < |leg| ==> after[leg[k] % LedCount] == Share(amount, |leg| - 1 - k) % Levels)
      && ((forall k :: 0 <= k < |leg| ==> leg[k] % LedCount != j) ==> after[j] == buffer[j])
  {
    var n := |leg|;
    var pins := Reversed(leg);
    forall k | 0 <= k < n
      ensures PutAll(buffer, pins, Shares(amount, n))[leg[k] % LedCount] == Share(amount, n - 1 - k) % Levels
    {
      assert pins[n - 1 - k] == leg[k];
      PutAllLastWins(buffer, pins, Shares(amount, n), n - 1 - k);
    }
    if forall k :: 0 <= k < n ==> leg[k] % LedCount != j {
      forall m | 0 <= m < n ensures pins[m] % LedCount != j {
        assert pins[m] == leg[n - 1 - m];
      }
      PutAllUntouched(buffer, pins, Shares(amount, n), j);
    }
  }

  /**
   * The loop shared by `animate_cpu` and `animate_ssh_sessions`: write
   * `values[index]` to `pins[index]` through `_set`, in order.
   */
  method WriteRing(glow: PiGlow, pins: seq<int>, values: seq<int>)
    requires glow.Valid() && |pins| <= |values|
    modifies glow, glow.buffer
    ensures glow.Valid() && glow.buffer == old(glow.buffer) && glow.live == old(glow.live)
    ensures glow.buffer.items == PutAll(old(glow.buffer.items), pins, values[..|pins|])
  {
    for index := 0 to |pins|
      invariant glow.Valid() && glow.buffer == old(glow.buffer) && glow.live == old(glow.live)
      invariant glow.buffer.items == PutAll(old(glow.buffer.items), pins[..index], values[..index])
    {
      PutAllSnoc(old(glow.buffer.items), pins, values, index);
      var _ := glow.SetCompat(Pin(pins[index]), One(values[index]));
    }
    assert pins[..|pins|] == pins;
  }

  /** Whether a channel step may write its ring: `animate_ring` must return a state with three LEDs. */
  predicate CanShowRing(current: Option<RingState>, oldVal: real, newVal: real)
    ensures current.None? && oldVal == newVal && IsBoundary(newVal) ==> !CanShowRing(current, oldVal, newVal)
    ensures current.None? && oldVal != newVal ==> !CanShowRing(current, oldVal, newVal)
  {
    CanAnimate(current, oldVal, newVal)
    && AnimateRing(current, oldVal, newVal).Some?
    && |AnimateRing(current, oldVal, newVal).value.tangent| >= 3
  }

  /** `animate_cpu`: step the CPU ring and write its three LEDs to the blue ring. */
  method AnimateCpu(glow: PiGlow, current: Option<RingState>, oldVal: real, newVal: real)
    returns (next: Option<RingState>)
    requires glow.Valid() && CanShowRing(current, oldVal, newVal)
    modifies glow, glow.buffer
    ensures next == AnimateRing(current, oldVal, newVal)
    ensures glow.Valid() && glow.buffer == old(glow.buffer) && glow.live == old(glow.live)
    ensures glow.buffer.items == PutAll(old(glow.buffer.items), RingBlue, next.value.tangent[..3])
  {
    next := AnimateRing(current, oldVal, newVal);
    WriteRing(glow, RingBlue, next.value.tangent);
  }

  /** `animate_ssh_sessions`: step the SSH-sessions ring and write its three LEDs to the white ring. */
  method AnimateSshSessions(glow: PiGlow, current: Option<RingState>, oldVal: real, newVal: real)
    returns (next: Option<RingState>)
    requires glow.Valid() && CanShowRing(current, oldVal, newVal)
    modifies glow, glow.buffer
    ensures next == AnimateRing(current, oldVal, newVal)
    ensures glow.Valid() && glow.buffer == old(glow.buffer) && glow.live == old(glow.live)
    ensures glow.buffer.items == PutAll(old(glow.buffer.items), RingWhite, next.value.tangent[..3])
  {
    next := AnimateRing(current, oldVal, newVal);
    WriteRing(glow, RingWhite, next.value.tangent);
  }

  /**
   * A ring write on the blue pins sets exactly those three LEDs to the
   * three sampled values and leaves the other fifteen alone.
   */
  lemma RingWriteLightsPins(buffer: seq<int>, pins: seq<int>, tangent: seq<int>, j: int)
    requires |buffer| == LedCount && Bright(tangent) && |tangent| >= 3 && 0 <= j < LedCount
    requires pins == RingBlue || pins == RingWhite
    ensures var after := PutAll(buffer, pins, tangent[..3]);
      && (forall k :: 0 <= k < 3 ==> after[pins[k]] == tangent[k])
      && (j !in pins ==> after[j] == buffer[j])
  {
    var values := tangent[..3];
    RingPinsDistinct(pins);
    forall k | 0 <= k < 3 ensures PutAll(buffer, pins, values)[pins[k]] == tangent[k] {
      PutAllLastWins(buffer, pins, values, k);
    }
    if j !in pins {
      PutAllUntouched(buffer, pins, values, j);
    }
  }

  /** Each ring names three distinct LEDs, each already an index in [0, 18). */
  lemma RingPinsDistinct(pins: seq<int>)
    requires pins == RingBlue || pins == RingWhite
    ensures |pins| == 3
    ensures forall k :: 0 <= k < 3 ==> 0 <= pins[k] < LedCount && pins[k] % LedCount == pins[k]
    ensures pins[0] != pins[1] && pins[0] != pins[2] && pins[1] != pins[2]
  {
  }
}
