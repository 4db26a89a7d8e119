/**
 * The PiGlow emulator's LED store: an 18-slot write buffer `_buffer_values`
 * that `set` updates in place, and the list `_live_values` that `show`
 * publishes. Both are module-level Python lists; here they are fields of a
 * `PiGlow` object that refer to `LedList` objects, so that the aliasing
 * `show` creates (both names refer to one list) is visible.
 */
module PiGlowEmulator {
  import opened Wrappers
  import opened Quota

  const LedCount: int := 18
  const Levels: int := 256

  /** A Python list of brightness values, mutable and shareable. */
  class LedList {
    var items: seq<int>

    constructor (items: seq<int>)
      ensures this.items == items
    {
      this.items := items;
    }

    /** The loop `for x in range(len(values)): list[pins[x] % 18] = values[x] % 256`. */
    method WritePairs(pins: seq<int>, values: seq<int>)
      requires |items| == LedCount && |values| <= |pins|
      modifies this
      ensures items == PutAll(old(items), pins[..|values|], values)
    {
      var x := 0;
      while x < |values|
        invariant 0 <= x <= |values|
        invariant items == PutAll(old(items), pins[..x], values[..x])
      {
        PutAllSnoc(old(items), pins, values, x);
        items := items[pins[x] % LedCount := values[x] % Levels];
        x := x + 1;
      }
      assert values[..x] == values;
    }

    /** The loop `for led_index in pins: list[led_index % 18] = value % 256`. */
    method WriteAll(pins: seq<int>, value: int)
      requires |items| == LedCount
      modifies this
      ensures items == PutAll(old(items), pins, Filled(|pins|, value))
    {
      var i := 0;
      while i < |pins|
        invariant 0 <= i <= |pins|
        invariant items == PutAll(old(items), pins[..i], Filled(|pins|, value)[..i])
      {
        PutAllSnoc(old(items), pins, Filled(|pins|, value), i);
        items := items[pins[i] % LedCount := value % Levels];
        i := i + 1;
      }
      assert pins[..i] == pins && Filled(|pins|, value)[..i] == Filled(|pins|, value);
    }
  }

  /** The first argument of `set`: a list of LED indices, one index, or anything else. */
  datatype Leds = Pins(pins: seq<int>) | Pin(pin: int) | Other

  /** The second argument of `set`: a list of brightness values or one value. */
  datatype Brightness = Many(values: seq<int>) | One(value: int)

  datatype Error = InvalidLeds

  /** `map(lambda v: v % 256, values)`. */
  function Wrapped(values: seq<int>): (r: seq<int>)
    ensures |r| == |values| && Bright(r)
  {
    seq(|values|, k requires 0 <= k < |values| => values[k] % Levels)
  }

  /** The indices `start, start + 1, ...`, `n` of them. */
  function Run(start: int, n: nat): (r: seq<int>)
    ensures |r| == n
  {
    seq(n, k => start + k)
  }

  /** One write `buffer[pin % 18] = value % 256`. */
  function Put(buffer: seq<int>, pin: int, value: int): (r: seq<int>)
    requires |buffer| == LedCount
    ensures |r| == LedCount && r[pin % LedCount] == value % Levels
    ensures forall j :: 0 <= j < LedCount && j != pin % LedCount ==> r[j] == buffer[j]
    ensures Bright(buffer) ==> Bright(r)
  {
    buffer[pin % LedCount := value % Levels]
  }

  /** The writes `pins[k] <- values[k]` performed one after the other, in order of `k`. */
  function PutAll(buffer: seq<int>, pins: seq<int>, values: seq<int>): (r: seq<int>)
    requires |buffer| == LedCount && |pins| == |values|
    ensures |r| == LedCount
    ensures Bright(buffer) ==> Bright(r)
    decreases |pins|
  {
    if |pins| == 0 then buffer
    else Put(PutAll(buffer, pins[..|pins| - 1], values[..|values| - 1]), pins[|pins| - 1], values[|values| - 1])
  }

  /** Writing the first `i + 1` pairs is writing the first `i` and then pair `i`. */
  lemma PutAllSnoc(buffer: seq<int>, pins: seq<int>, values: seq<int>, i: int)
    requires |buffer| == LedCount && 0 <= i < |pins| && i < |values|
    ensures PutAll(buffer, pins[..i + 1], values[..i + 1])
         == Put(PutAll(buffer, pins[..i], values[..i]), pins[i], values[i])
    ensures PutAll(buffer, [pins[i]], [values[i]]) == Put(buffer, pins[i], values[i])
  {
    assert pins[..i + 1][..i] == pins[..i];
    assert values[..i + 1][..i] == values[..i];
    assert [pins[i]][..0] == [];
  }

  /** The LED indices `set(leds, value)` writes to, in order. */
  function WrittenPins(leds: Leds, value: Brightness): seq<int>
    requires leds.Pins? && value.Many? ==> |value.values| <= |leds.pins|
  {
    match leds
    case Pins(pins) => if value.Many? then pins[..|value.values|] else pins
    case Pin(pin) => if value.Many? then Run(pin % LedCount, |value.values|) else [pin]
    case Other => []
  }

  /** The brightness values `set(leds, value)` writes, in the same order as `WrittenPins`. */
  function WrittenValues(leds: Leds, value: Brightness): (r: seq<int>)
    requires leds.Pins? && value.Many? ==> |value.values| <= |leds.pins|
    ensures |r| == |WrittenPins(leds, value)|
  {
    match leds
    case Pins(pins) => if value.Many? then value.values else Filled(|pins|, value.value)
    case Pin(_) => if value.Many? then value.values else [value.value]
    case Other => []
  }

  /** Whether `set(leds, value)` takes the wrap path that grows the list past 18 and rebinds the buffer. */
  predicate Overflows(leds: Leds, value: Brightness) {
    leds.Pin? && value.Many? && leds.pin % LedCount + |value.values| > LedCount
  }

  /** A slot no write aims at keeps its value. */
  lemma {:induction false} PutAllUntouched(buffer: seq<int>, pins: seq<int>, values: seq<int>, j: int)
    requires |buffer| == LedCount && |pins| == |values|
    requires 0 <= j < LedCount
    requires forall m :: 0 <= m < |pins| ==> pins[m] % LedCount != j
    ensures PutAll(buffer, pins, values)[j] == buffer[j]
  {
    if |pins| > 0 {
      PutAllUntouched(buffer, pins[..|pins| - 1], values[..|values| - 1], j);
    }
  }

  /** The last write aimed at a slot decides its value: later duplicates win. */
  lemma {:induction false} PutAllLastWins(buffer: seq<int>, pins: seq<int>, values: seq<int>, k: int)
    requires |buffer| == LedCount && |pins| == |values|
    requires 0 <= k < |pins|
    requires forall m :: k < m < |pins| ==> pins[m] % LedCount != pins[k] % LedCount
    ensures PutAll(buffer, pins, values)[pins[k] % LedCount] == values[k] % Levels
  {
    if k < |pins| - 1 {
      PutAllLastWins(buffer, pins[..|pins| - 1], values[..|values| - 1], k);
    }
  }

  /** Writing one run of pins after another is writing their concatenation. */
  lemma {:induction false} PutAllAppend(buffer: seq<int>, p1: seq<int>, v1: seq<int>, p2: seq<int>, v2: seq<int>)
    requires |buffer| == LedCount && |p1| == |v1| && |p2| == |v2|
    ensures PutAll(buffer, p1 + p2, v1 + v2) == PutAll(PutAll(buffer, p1, v1), p2, v2)
    decreases |p2|
  {
    if |p2| == 0 {
      assert p1 + p2 == p1 && v1 + v2 == v1;
    } else {
      assert (p1 + p2)[..|p1 + p2| - 1] == p1 + p2[..|p2| - 1];
      assert (v1 + v2)[..|v1 + v2| - 1] == v1 + v2[..|v2| - 1];
      PutAllAppend(buffer, p1, v1, p2[..|p2| - 1], v2[..|v2| - 1]);
    }
  }

  /** Only an index modulo 18 and a value modulo 256 matter to a write. */
  lemma {:induction false} PutAllCongruent(buffer: seq<int>, p1: seq<int>, v1: seq<int>, p2: seq<int>, v2: seq<int>)
    requires |buffer| == LedCount && |p1| == |v1| == |p2| == |v2|
    requires forall k :: 0 <= k < |p1| ==> p1[k] % LedCount == p2[k] % LedCount && v1[k] % Levels == v2[k] % Levels
    ensures PutAll(buffer, p1, v1) == PutAll(buffer, p2, v2)
  {
    if |p1| > 0 {
      PutAllCongruent(buffer, p1[..|p1| - 1], v1[..|v1| - 1], p2[..|p2| - 1], v2[..|v2| - 1]);
    }
  }

  /** Writing a run of consecutive slots that fits in the buffer is a slice assignment. */
  lemma {:induction false} PutAllRun(buffer: seq<int>, start: int, values: seq<int>)
    requires |buffer| == LedCount
    requires 0 <= start && start + |values| <= LedCount
    ensures PutAll(buffer, Run(start, |values|), values) == buffer[..start] + Wrapped(values) + buffer[start + |values|..]
  {
    var n := |values|;
    if n == 0 {
      assert buffer[..start] + Wrapped(values) + buffer[start..] == buffer;
    } else {
      var pins := Run(start, n);
      assert pins[..n - 1] == Run(start, n - 1) && pins[n - 1] == start + n - 1;
      var prefix := PutAll(buffer, Run(start, n - 1), values[..n - 1]);
      assert PutAll(buffer, pins, values) == Put(prefix, start + n - 1, values[n - 1]);
      PutAllRun(buffer, start, values[..n - 1]);
      assert prefix == buffer[..start] + Wrapped(values[..n - 1]) + buffer[start + n - 1..];
      RunStep(buffer, start, values);
    }
  }

  /** One more write at the end of a run extends the slice assignment by one slot. */
  lemma RunStep(buffer: seq<int>, start: int, values: seq<int>)
    requires |buffer| == LedCount
    requires 0 <= start && 0 < |values| && start + |values| <= LedCount
    ensures var n := |values|;
      Put(buffer[..start] + Wrapped(values[..n - 1]) + buffer[start + n - 1..], start + n - 1, values[n - 1])
      == buffer[..start] + Wrapped(values) + buffer[start + n..]
  {
    var n := |values|;
    var before := buffer[..start] + Wrapped(values[..n - 1]) + buffer[start + n - 1..];
    var after := buffer[..start] + Wrapped(values) + buffer[start + n..];
    var put := Put(before, start + n - 1, values[n - 1]);
    forall j | 0 <= j < LedCount ensures put[j] == after[j] {
      if j < start {
        assert put[j] == buffer[j] == after[j];
      } else if j < start + n - 1 {
        assert before[j] == Wrapped(values[..n - 1])[j - start];
      } else if j > start + n - 1 {
        assert put[j] == buffer[j] == after[j];
      }
    }
  }

  /** Setting a list of pins to one value lights exactly the pins named, each with `value % 256`. */
  lemma {:induction false} PutAllOneValue(buffer: seq<int>, pins: seq<int>, value: int, j: int)
    requires |buffer| == LedCount && 0 <= j < LedCount
    ensures PutAll(buffer, pins, Filled(|pins|, value))[j]
         == if exists m :: 0 <= m < |pins| && pins[m] % LedCount == j then value % Levels else buffer[j]
  {
    if |pins| > 0 {
      var n := |pins|;
      assert Filled(n, value)[..n - 1] == Filled(n - 1, value);
      PutAllOneValue(buffer, pins[..n - 1], value, j);
      if pins[n - 1] % LedCount != j {
        if exists m :: 0 <= m < n && pins[m] % LedCount == j {
          var m :| 0 <= m < n && pins[m] % LedCount == j;
          assert pins[..n - 1][m] == pins[m];
        }
      }
    }
  }

  /**
   * The emulator's two module-level lists. `buffer` always holds exactly 18
   * values; `live` is whatever list `show` last published, which is the
   * buffer itself until a wrapping `set` rebinds the buffer, and which that
   * wrapping `set` may have grown past 18 entries on its way.
   */
  class PiGlow {
    var buffer: LedList
    var live: LedList

    ghost predicate Valid()
      reads this, buffer, live
    {
      && |buffer.items| == LedCount && Bright(buffer.items)
      && |live.items| >= LedCount && Bright(live.items)
    }

    /** Module initialisation: two distinct lists of 18 zeros. */
    constructor ()
      ensures Valid()
      ensures buffer.items == Filled(LedCount, 0) && live.items == Filled(LedCount, 0)
      ensures buffer != live && fresh(buffer) && fresh(live)
    {
      live := new LedList(Filled(LedCount, 0));
      buffer := new LedList(Filled(LedCount, 0));
    }

    /**
     * `set(leds, value)`: write brightness values modulo 256 to LED indices
     * modulo 18. A list of indices with a list of values pairs them up
     * (the values list may be shorter); a list of indices with one value
     * sets them all; one index with a list writes consecutive slots,
     * wrapping past slot 17 to slot 0; one index with one value sets that
     * slot; anything else raises `ValueError` and changes nothing.
     */
    method Set(leds: Leds, value: Brightness) returns (r: Outcome<Error>)
      requires Valid()
      requires leds.Pins? && value.Many? ==> |value.values| <= |leds.pins|
      modifies this, buffer
      ensures Valid()
      ensures r.Fail? <==> leds.Other?
      ensures buffer.items == PutAll(old(buffer.items), WrittenPins(leds, value), WrittenValues(leds, value))
      ensures live == old(live)
      ensures !Overflows(leds, value) ==> buffer == old(buffer)
      ensures Overflows(leds, value) ==>
        fresh(buffer) &&
        old(buffer).items == old(buffer.items)[..leds.pin % LedCount] + Wrapped(value.values)
      ensures old(live) != old(buffer) ==> live.items == old(live.items)
    {
      if leds.Pins? {
        if value.Many? {
          buffer.WritePairs(leds.pins, value.values);
        } else {
          buffer.WriteAll(leds.pins, value.value);
        }
        r := Pass;
      } else if leds.Pin? {
        var start := leds.pin % LedCount;
        if value.Many? {
          SetRun(start, value.values);
        } else {
          buffer.items := buffer.items[start := value.value % Levels];
        }
        r := Pass;
      } else {
        r := Fail(InvalidLeds);
      }
    }

    /**
     * The one-index, list-of-values branch of `set`: the slice assignment
     * from `start`; when that grew the list past 18 entries, the buffer is
     * rebound to a copy of its first 18 and the overflow is written by
     * `set(0, overflow)`.
     */
    method SetRun(start: int, values: seq<int>)
      requires Valid() && 0 <= start < LedCount
      modifies this, buffer
      ensures Valid() && live == old(live)
      ensures buffer.items == PutAll(old(buffer.items), Run(start, |values|), values)
      ensures start + |values| <= LedCount ==> buffer == old(buffer)
      ensures start + |values| > LedCount ==>
        fresh(buffer) && old(buffer).items == old(buffer.items)[..start] + Wrapped(values)
      ensures old(live) != old(buffer) ==> live.items == old(live.items)
      decreases |values|
    {
      var mapped := Wrapped(values);
      var end := if start + |mapped| < LedCount then start + |mapped| else LedCount;
      buffer.items := buffer.items[..start] + mapped + buffer.items[end..];
      if |buffer.items| > LedCount {
        assert buffer.items == old(buffer.items)[..start] + Wrapped(values);
        SetWrapStep(old(buffer.items), start, values);
        GrownInRange(old(buffer.items), start, values);
        var wrap := buffer.items[LedCount..];
        buffer := new LedList(buffer.items[..LedCount]);
        SetRun(0, wrap);
      } else {
        PutAllRun(old(buffer.items), start, values);
        assert buffer.items == old(buffer.items)[..start] + mapped + old(buffer.items)[start + |mapped|..];
      }
    }

    /** `_set`, kept for compatibility with the hardware library: the same as `set`. */
    method SetCompat(leds: Leds, value: Brightness) returns (r: Outcome<Error>)
      requires Valid()
      requires leds.Pins? && value.Many? ==> |value.values| <= |leds.pins|
      modifies this, buffer
      ensures Valid()
      ensures r.Fail? <==> leds.Other?
      ensures buffer.items == PutAll(old(buffer.items), WrittenPins(leds, value), WrittenValues(leds, value))
      ensures live == old(live)
      ensures !Overflows(leds, value) ==> buffer == old(buffer)
      ensures Overflows(leds, value) ==>
        fresh(buffer) &&
        old(buffer).items == old(buffer.items)[..leds.pin % LedCount] + Wrapped(value.values)
      ensures old(live) != old(buffer) ==> live.items == old(live.items)
    {
      r := Set(leds, value);
    }

    /** `show`: publish the buffer by making `live` refer to the very same list. */
    method Show()
      requires Valid()
      modifies this
      ensures Valid()
      ensures live == buffer && buffer == old(buffer) && buffer.items == old(buffer.items)
    {
      live := buffer;
    }
  }

  /**
   * What the aliasing made by `show` looks like to a caller: after one
   * `show`, an in-place `set` is live at once without another `show`; a
   * wrapping `set` then grows the published list to 19 entries and leaves
   * it behind, so slot 0 of the live list misses the wrapped write.
   */
  method ShowThenSet() returns (glow: PiGlow)
    ensures glow.Valid()
    ensures glow.live != glow.buffer
    ensures glow.buffer.items[17] == 1 && glow.buffer.items[0] == 2 && glow.buffer.items[3] == 44
    ensures |glow.live.items| == 19
    ensures glow.live.items[17] == 1 && glow.live.items[18] == 2 && glow.live.items[0] == 0 && glow.live.items[3] == 44
  {
    glow := new PiGlow();
    glow.Show();
    var _ := glow.Set(Pin(3), One(300));
    assert glow.live.items[3] == 44;
    ghost var before := glow.buffer.items;
    var _ := glow.Set(Pin(17), Many([1, 2]));
    PutAllUntouched(before, Run(17, 2), [1, 2], 3);
  }

  /**
   * The wrap path of `set(start, values)`: after the slice assignment has
   * grown the list, its first 18 entries followed by writing the overflow
   * from slot 0 give the same buffer as writing every value in turn to
   * `(start + k) % 18`.
   */
  lemma {:induction false} SetWrapStep(buffer: seq<int>, start: int, values: seq<int>)
    requires |buffer| == LedCount
    requires 0 <= start < LedCount && start + |values| > LedCount
    ensures var grown := buffer[..start] + Wrapped(values);
      && |grown| > LedCount
      && PutAll(grown[..LedCount], Run(0, |grown| - LedCount), grown[LedCount..])
         == PutAll(buffer, Run(start, |values|), values)
  {
    var grown := buffer[..start] + Wrapped(values);
    var cut := LedCount - start;
    var n := |values|;
    var head, tail := values[..cut], values[cut..];
    var front := PutAll(buffer, Run(start, cut), head);
    assert |grown| - LedCount == n - cut;
    calc {
      PutAll(buffer, Run(start, n), values);
      { RunSplit(start, cut, n - cut); assert values == head + tail; }
      PutAll(buffer, Run(start, cut) + Run(LedCount, n - cut), head + tail);
      { PutAllAppend(buffer, Run(start, cut), head, Run(LedCount, n - cut), tail); }
      PutAll(front, Run(LedCount, n - cut), tail);
      { WrapFront(buffer, start, values); }
      PutAll(grown[..LedCount], Run(LedCount, n - cut), tail);
      { WrapTail(grown[..LedCount], tail); }
      PutAll(grown[..LedCount], Run(0, n - cut), Wrapped(tail));
      { GrownTail(buffer, start, values); }
      PutAll(grown[..LedCount], Run(0, |grown| - LedCount), grown[LedCount..]);
    }
  }

  /** What the slice assignment pushed past slot 17 is the wrapped overflow of the values. */
  lemma GrownTail(buffer: seq<int>, start: int, values: seq<int>)
    requires |buffer| == LedCount && 0 <= start < LedCount && start + |values| > LedCount
    ensures (buffer[..start] + Wrapped(values))[LedCount..] == Wrapped(values[LedCount - start..])
  {
    var grown := buffer[..start] + Wrapped(values);
    WrappedSplit(values, LedCount - start);
    assert grown[LedCount..] == Wrapped(values)[LedCount - start..];
  }

  /** The first 18 entries of the grown list are the slots written before the wrap. */
  lemma {:induction false} WrapFront(buffer: seq<int>, start: int, values: seq<int>)
    requires |buffer| == LedCount
    requires 0 <= start < LedCount && start + |values| > LedCount
    ensures PutAll(buffer, Run(start, LedCount - start), values[..LedCount - start])
         == (buffer[..start] + Wrapped(values))[..LedCount]
  {
    var cut := LedCount - start;
    PutAllRun(buffer, start, values[..cut]);
    WrappedSplit(values, cut);
    assert buffer[start + cut..] == [];
  }

  /** The overflow lands on slots 18, 19, ... which are slots 0, 1, ... */
  lemma {:induction false} WrapTail(buffer: seq<int>, tail: seq<int>)
    requires |buffer| == LedCount
    ensures PutAll(buffer, Run(LedCount, |tail|), tail) == PutAll(buffer, Run(0, |tail|), Wrapped(tail))
  {
    PutAllCongruent(buffer, Run(LedCount, |tail|), tail, Run(0, |tail|), Wrapped(tail));
  }

  lemma RunSplit(start: int, a: nat, b: nat)
    ensures Run(start, a + b) == Run(start, a) + Run(start + a, b)
  {
  }

  lemma WrappedSplit(values: seq<int>, cut: nat)
    requires cut <= |values|
    ensures Wrapped(values)[..cut] == Wrapped(values[..cut])
    ensures Wrapped(values)[cut..] == Wrapped(values[cut..])
  {
  }

  lemma {:induction false} GrownInRange(buffer: seq<int>, start: int, values: seq<int>)
    requires |buffer| == LedCount && Bright(buffer) && 0 <= start < LedCount
    ensures Bright(buffer[..start] + Wrapped(values))
    ensures |buffer[..start] + Wrapped(values)| >= LedCount ==> Bright((buffer[..start] + Wrapped(values))[..LedCount])
  {
    var grown := buffer[..start] + Wrapped(values);
    forall i | 0 <= i < |grown| ensures 0 <= grown[i] < Levels {
      if i >= start { assert grown[i] == Wrapped(values)[i - start]; }
    }
  }
}
