/**
 * The brightness quota step that both `led_bar` and `generate_lighting_circle`
 * run over their slots: a slot gets at most 255 units from what is left,
 * and what is left shrinks by 255 (or drops to 0 once less than 255 remains).
 */
module Quota {

  const MaxBrightness: int := 255

  /** `[v] * n`: a list of `n` copies of `v`. */
  function Filled(n: nat, v: int): (r: seq<int>)
    ensures |r| == n
  {
    seq(n, _ => v)
  }

  /** Every value is a brightness an LED can show, 0 to 255. */
  predicate Bright(s: seq<int>) {
    forall i :: 0 <= i < |s| ==> 0 <= s[i] <= MaxBrightness
  }

  /** Python's `int(x)` on a float: truncation toward zero. */
  function Truncate(x: real): (r: int)
    ensures 0.0 <= x ==> 0 <= r && r as real <= x < r as real + 1.0
    ensures x < 0.0 ==> r <= 0 && r as real - 1.0 < x <= r as real
  {
    if x < 0.0 then -((-x).Floor) else x.Floor
  }

  /** The value written to one slot from the units still to hand out. */
  function Give(amount: int): (r: int)
    ensures r <= MaxBrightness && r <= amount
    ensures r == amount || r == MaxBrightness
  {
    if amount > MaxBrightness then MaxBrightness else amount
  }

  /** The units still to hand out after one slot has been served. */
  function Carry(amount: int): (r: int)
    ensures 0 <= r && Give(amount) + r == amount
  {
    if amount < MaxBrightness then 0 else amount - MaxBrightness
  }

  /** The units still to hand out when step `k` begins. */
  function Remaining(amount: int, k: nat): int {
    if k == 0 then amount else Carry(Remaining(amount, k - 1))
  }

  /** The value handed to the slot served at step `k`. */
  function Share(amount: int, k: nat): int {
    Give(Remaining(amount, k))
  }

  /** The values handed to `n` slots, in the order they are served. */
  function Shares(amount: int, n: nat): (r: seq<int>)
    ensures |r| == n
    ensures forall k :: 0 <= k < n ==> r[k] == Share(amount, k)
  {
    seq(n, k requires 0 <= k < n => Share(amount, k))
  }

  /** `x` clamped into [0, 255]. */
  function Clamp(x: int): int {
    if x < 0 then 0 else if x > MaxBrightness then MaxBrightness else x
  }

  function Sum(s: seq<int>): int {
    if |s| == 0 then 0 else Sum(s[..|s| - 1]) + s[|s| - 1]
  }

  /** One step of the loop: with `left` units still to hand out, the slot gets `Give(left)` and `Carry(left)` remains. */
  lemma ShareStep(amount: int, k: nat, left: int)
    requires left == Remaining(amount, k)
    ensures Share(amount, k) == (if left > MaxBrightness then MaxBrightness else left)
    ensures Remaining(amount, k + 1) == (if left < MaxBrightness then 0 else left - MaxBrightness)
  {
  }

  /** After the first step, what is left is the initial amount less 255 per step, never below 0. */
  lemma {:induction false} RemainingClosed(amount: int, k: nat)
    requires 1 <= k
    ensures Remaining(amount, k) == if amount - MaxBrightness * k < 0 then 0 else amount - MaxBrightness * k
  {
    if k > 1 {
      RemainingClosed(amount, k - 1);
    }
  }

  /** A non-negative amount fills slot `k` with exactly what is above `255 * k`, capped at 255. */
  lemma ShareClosed(amount: int, k: nat)
    requires 0 <= amount
    ensures Share(amount, k) == Clamp(amount - MaxBrightness * k)
  {
    if k > 0 {
      RemainingClosed(amount, k);
    }
  }

  /** Every slot but the first gets a brightness in [0, 255]; the first one too unless the amount is negative. */
  lemma ShareBounds(amount: int, k: nat)
    requires 0 <= amount || 1 <= k
    ensures 0 <= Share(amount, k) <= MaxBrightness
  {
    if k > 0 {
      RemainingClosed(amount, k);
    }
  }

  /** A negative amount lands whole on the first slot and nothing reaches the others. */
  lemma ShareNegative(amount: int, k: nat)
    requires amount < 0
    ensures Share(amount, k) == if k == 0 then amount else 0
  {
    if k > 0 {
      RemainingClosed(amount, k);
    }
  }

  /** Slots are served greedily: a later slot never gets more than an earlier one. */
  lemma SharesNonIncreasing(amount: int, i: nat, j: nat)
    requires 0 <= amount && i <= j
    ensures Share(amount, j) <= Share(amount, i)
  {
    ShareClosed(amount, i);
    ShareClosed(amount, j);
  }

  /** At most one slot is partly lit: two slots strictly between 0 and 255 are the same slot. */
  lemma SharesOnePartial(amount: int, i: nat, j: nat)
    requires 0 <= amount
    requires 0 < Share(amount, i) < MaxBrightness
    requires 0 < Share(amount, j) < MaxBrightness
    ensures i == j
  {
    ShareClosed(amount, i);
    ShareClosed(amount, j);
  }

  /** More units never dim any slot. */
  lemma ShareMonotonic(a: int, b: int, k: nat)
    requires a <= b
    ensures Share(a, k) <= Share(b, k)
  {
    if k > 0 {
      RemainingClosed(a, k);
      RemainingClosed(b, k);
    }
  }

  /** The values handed out add up to the amount, capped at what `n` slots can hold. */
  lemma {:induction false} SharesSum(amount: int, n: nat)
    requires 0 <= amount
    ensures Sum(Shares(amount, n)) == if amount < MaxBrightness * n then amount else MaxBrightness * n
  {
    if n > 0 {
      assert Shares(amount, n)[..n - 1] == Shares(amount, n - 1);
      SharesSum(amount, n - 1);
      ShareClosed(amount, n - 1);
    }
  }
}
