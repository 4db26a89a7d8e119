# glow-monitor in Dafny

A model of the LED logic of glow-monitor, a Raspberry Pi monitor that shows
telemetry on the 18 LEDs of a PiGlow board. The PiGlow has three "legs" of
four LEDs (red, orange, yellow, green), used as bar graphs, and two
three-LED "rings" (blue, white). The model covers three parts:

- **Bar fill** (`led_bar`). A fraction in [0, 1] becomes
  `int(len(leg) * 255 * fraction)` brightness units. These are handed out
  255 at a time over the leg, last LED first.
- **Ring animation** (`rotate_array`, `full_to_tangent`,
  `generate_lighting_circle`, `rotate_lighting`, `animate_ring`,
  `animate_cpu`, `animate_ssh_sessions`). Each ring is backed by a virtual
  360-slot field. The field is sampled at evenly spaced slots to drive the
  three physical LEDs. Each frame freezes the field, turns it 7 degrees or
  rebuilds it, depending on the two readings the frame is given.
- **The LED sink** (the emulator's `set`, `_set`, `show`). `set` writes to
  an 18-slot buffer list in place. Indices wrap modulo 18 and values
  modulo 256. `show` publishes the buffer by binding `_live_values` to the
  same list.

Files and modules:

| file | module | models |
|---|---|---|
| `wrappers.dfy` | `Wrappers` | `None`/object and raise/return outcomes |
| `quota.dfy` | `Quota` | the greedy 255-unit step shared by `led_bar` and `generate_lighting_circle` |
| `circle.dfy` | `Circle` | `rotate_array`, `full_to_tangent`, `generate_lighting_circle`, `rotate_lighting` |
| `ring.dfy` | `RingAnimator` | `animate_ring` |
| `emulator.dfy` | `PiGlowEmulator` | `_buffer_values`, `_live_values`, `set`, `_set`, `show` |
| `monitor.dfy` | `GlowMonitor` | pin tables, `led_bar`, `animate_cpu`, `animate_ssh_sessions` |

The code works by changing state step by step, and the model keeps that
form:

- The emulator is a class. Its methods `modify` the lists.
- The fill loop, the sampling loop and the pin-writing loops are `while`
  or `for` loops with invariants. Each is proved equal to a specification
  function.
- The pure parts (`rotate_array`, `rotate_lighting`, `animate_ring`) are
  functions.

Both emulator lists are modelled as objects of a small class
(`LedList`, which holds a `seq<int>`). An array cannot model them, because
the wrap path of `set(int, list)` first GROWS the list in place by slice
assignment. It then rebinds `_buffer_values` to a fresh 18-entry copy.
After a `show`, the live list is that grown list of more than 18 entries.
`PiGlowEmulator.ShowThenSet` shows the effect.

Readings are `real`. Python's `int()` on a float is truncation toward zero
(`Quota.Truncate`).

## Behaviour as written

Where the code and its intended design differ, the model follows the code:

- **The fill loop of `generate_lighting_circle` iterates values, not
  indices** (glow-monitor.py:87-88). `for degree in reversed(full_circle_bar)`
  walks the list it is mutating and uses each value read as the index to
  write. Every write but the last lands on slot 0. The last write lands on
  the slot named by the value written at step 358. The model runs this loop
  literally (`Circle.FillCircle`) and proves a closed form for it
  (`Circle.FilledCircle`):
  - at most two slots are ever lit;
  - every fraction up to 358/360 gives a dark ring;
  - a fraction of 1.0 or more lights only slots 0 and 255, so at heading 0
    (the first generated frame) three LEDs show 255, 0, 0
    (`Circle.LightingCircleHigh`); at heading 7 the lit slots move to 7 and
    262 and all three LEDs are dark (`Circle.LightingCircleHighTurned`).
- **Boundary readings are the literals 0 and 100** (glow-monitor.py:120,
  132, 140), as written. The readings themselves are fractions or
  percentages, depending on the sensor.
- **`animate_ring` reads the previous tangent length before its `None`
  check** (glow-monitor.py:131). A changed reading therefore requires a
  previous state (`RingAnimator.CanAnimate`).
- **The first frame produces no state.** Both readings start at 0, so
  `animate_ring(None, 0, 0)` returns `None`
  (`RingAnimator.FirstFrameHasNoState`). `animate_cpu` then indexes it.
  `GlowMonitor.AnimateCpu` requires a state with three LEDs
  (`GlowMonitor.CanShowRing`), which that first frame does not meet.
- **The heading is not reduced on a changed reading.**
  `generate_lighting_circle` echoes `heading + 7` unreduced. Once the
  heading passes 360, `rotate_array` returns the field unturned
  (`RingAnimator.ChangedReadingRegenerates`).
- **`rotate_array` does not reduce its amount.** Beyond one full turn
  either way, Python's slice clamping returns the list unchanged
  (`Circle.RotateArrayFar`).
- **Two separate quota loops.** `led_bar` and `generate_lighting_circle`
  each contain their own copy of the give/carry step. The model shares the
  step (`Quota.Give`, `Quota.Carry`). The amount is truncated (`int()`),
  not rounded.

## Model

| member | source | states |
|---|---|---|
| `Quota.Truncate` | glow-monitor.py:71 | Python's `int()` on a float: for `x >= 0`, `r <= x < r + 1`; for `x < 0`, `r - 1 < x <= r` (truncation toward zero, never rounding) |
| `Quota.Give` | glow-monitor.py:73 | the value written to one LED is at most 255 and at most the units left, and is either all of them or 255 |
| `Quota.Carry` | glow-monitor.py:74 | the units left after one LED are never negative, and together with the value written they make up exactly the units before |
| `Quota.RemainingClosed` | glow-monitor.py:71-74 | after the first LED, the units left are the amount less 255 per LED served, never below 0 |
| `Quota.ShareClosed` | glow-monitor.py:72-74 | with a non-negative amount, LED `k` gets exactly the units above `255*k`, capped at 255 |
| `Quota.ShareBounds` | glow-monitor.py:73 | every written value is in [0, 255], except the first one when the amount is negative |
| `Quota.ShareNegative` | glow-monitor.py:86-89 | a negative amount is written whole to the first slot, and 0 to every later slot |
| `Quota.SharesNonIncreasing` | glow-monitor.py:72-74 | a later write is never brighter than an earlier one |
| `Quota.SharesOnePartial` | glow-monitor.py:72-74 | at most one written value is strictly between 0 and 255 |
| `Quota.ShareMonotonic` | glow-monitor.py:71-74 | more units never dim any slot |
| `Quota.SharesSum` | glow-monitor.py:68-74 | the written values add up to the amount, capped at `255 * n` |
| `Circle.SliceBound` | glow-monitor.py:48 | Python's slice bound: an index within one length either way is taken modulo the length; a lower one clamps to 0 and a higher one to the length |
| `Circle.RotateArray` | glow-monitor.py:47-48 | `array[-amount:] + array[:-amount]` keeps the length; what each slot holds is stated by `RotateArrayAt` and `RotateArrayFar` |
| `Circle.RotateArrayPermutes` | glow-monitor.py:47-48 | the shift keeps the multiset of values: nothing is added or dropped |
| `Circle.RotateArrayAt` | glow-monitor.py:47-48 | for \|amount\| <= n, slot `i` of the result is slot `(i - amount) mod n` of the input |
| `Circle.RotateArrayFar` | glow-monitor.py:47-48 | for \|amount\| > n, the list comes back unchanged |
| `Circle.RotateArrayRoundTrip` | glow-monitor.py:47-48 | rotating by `d` then by `-d` restores the list, for every integer `d` |
| `Circle.RotateArrayCompose` | glow-monitor.py:47-48 | two rotations within one turn each equal one rotation by their sum mod n |
| `Circle.RotateArrayUniform` | glow-monitor.py:47-48 | a ring of equal slots is unchanged by any rotation |
| `Circle.Tangent` | glow-monitor.py:50-58 | one value per LED; samples of a field in [0, 255] are in [0, 255], and the first LED reads slot 0 |
| `Circle.FullToTangent` | glow-monitor.py:50-58 | the sampling loop returns exactly `Tangent(field, elements)`: `elements` values, value `i` from slot `i * (360 / elements)` |
| `Circle.TangentOfThree` | glow-monitor.py:51-53 | three LEDs read slots 0, 120 and 240 |
| `Circle.TangentOfRotated` | glow-monitor.py:107-111 | after a rotation, LED `i` shows the original slot `amount` places behind its sample point |
| `Circle.FilledCircle` | glow-monitor.py:82-89 | the closed form of the fill: 360 slots, every one in [0, 255] for any amount, negative amounts included |
| `Circle.FillCircle` | glow-monitor.py:82-89 | the literal fill loop leaves `FilledCircle(amount)`: slot 0 holds share 358, then the slot named by that value holds share 359 |
| `Circle.FilledCircleAtMostTwoLit` | glow-monitor.py:87-89 | a lit slot is slot 0 or the slot named by share 358 |
| `Circle.FilledCircleDark` | glow-monitor.py:86-89 | any amount up to `358 * 255` (fraction 0 included) leaves every slot at 0 |
| `Circle.FilledCircleFull` | glow-monitor.py:86-89 | an amount of `360 * 255` or more lights only slots 0 and 255, at 255 |
| `Circle.Oriented` | glow-monitor.py:91-94 | the fill turned to the heading keeps its length and its multiset of values, and is the fill itself when `heading % 360 == 0` |
| `Circle.CircleAmount` | glow-monitor.py:84-86 | `int(360 * 255 * percentage)` is non-negative for a non-negative reading, at most `360 * 255` for a reading up to 1.0, and at least `360 * 255` from 1.0 up |
| `Circle.LightingCircle` | glow-monitor.py:76-100 | the generated state has 360 slots in [0, 255], `elements` tangent values in [0, 255], and the heading echoed unreduced |
| `Circle.GenerateLightingCircle` | glow-monitor.py:76-100 | fill, rotate unless `heading % 360 == 0`, then sample: equal to `LightingCircle` |
| `Circle.LightingCircleZero` | glow-monitor.py:82-100 | a zero fraction gives an all-zero field and all-zero LEDs at any heading |
| `Circle.LightingCircleHigh` | glow-monitor.py:84-98 | a reading of 1.0 or more at heading 0 lights slots 0 and 255 only; three LEDs show 255, 0, 0 |
| `Circle.LightingCircleHighTurned` | glow-monitor.py:91-98 | the same reading of 1.0 or more at heading 7 gives three dark LEDs |
| `Circle.LightingCircleFarHeading` | glow-monitor.py:91-99 | a heading beyond one full turn leaves the field unrotated though the heading is kept |
| `Circle.RotateLighting` | glow-monitor.py:103-113 | the field keeps its multiset of values, the LED count is kept, and the heading becomes `(h + degrees) mod 360` |
| `Circle.RotateLightingTracksHeading` | glow-monitor.py:107-112 | if the field is a base ring turned by the heading, it stays the base ring turned by the new heading |
| `RingAnimator.IsBoundary` | glow-monitor.py:120 | the readings compared against are the ends of the percentage scale, 0 and 100; a fraction of 1.0 is not one |
| `RingAnimator.CanAnimate` | glow-monitor.py:119-131 | a changed reading with no state cannot be animated (line 131 indexes `None`); a held reading with no state, or a held boundary reading, always can |
| `RingAnimator.AnimateRing` | glow-monitor.py:116-150 | the result is `None` exactly when there is no state and a held boundary reading |
| `RingAnimator.AnimateRingWellFormed` | glow-monitor.py:116-150 | from a well-formed state or none, every state returned has 360 slots in [0, 255] and a tangent length dividing 360 |
| `RingAnimator.FirstFrameHasNoState` | glow-monitor.py:119-122 | with no state and both readings 0, the frame returns `None` |
| `RingAnimator.HeldBoundaryFreezes` | glow-monitor.py:119-122 | a held 0 or 100 returns the state unchanged |
| `RingAnimator.HeldReadingStarts` | glow-monitor.py:124-126 | a held mid-range reading with no state generates 3 LEDs at heading 0 |
| `RingAnimator.HeldReadingRotates` | glow-monitor.py:127-129 | a held mid-range reading rotates the field by 7, keeps its values and LED count, sets the heading to `(h + 7) mod 360`; LED `i` shows the slot 7 behind its point |
| `RingAnimator.HeldReadingTracksHeading` | glow-monitor.py:127-129 | while the reading holds, the field stays the base ring turned by the recorded heading |
| `RingAnimator.ChangedToBoundary` | glow-monitor.py:130-147 | a change to 0 or 100 gives an all-0 or all-255 field and LEDs, keeps the previous LED count, and sets the heading to 0 |
| `RingAnimator.ChangedReadingRegenerates` | glow-monitor.py:148-150 | any other change regenerates at the previous LED count and heading `h + 7`, unreduced; past 360 the field is left unrotated |
| `PiGlowEmulator.PiGlow.constructor` | piglow_emulator.py:18-19 | the two lists start as distinct lists of 18 zeros |
| `PiGlowEmulator.PiGlow.Set` | piglow_emulator.py:172-194 | the buffer becomes the old buffer with the form's writes applied in order; `ValueError` exactly for other `leds` types, with nothing changed; 18 slots in [0, 255] are kept; in place unless the run wraps, and then the old list has grown and the buffer is a fresh list |
| `PiGlowEmulator.PiGlow.SetRun` | piglow_emulator.py:185-190 | one index with a list: the buffer ends as value `k` written to `(start + k) % 18` in order; in place when the run fits, otherwise the old list has grown by the overflow and the buffer is a fresh list |
| `PiGlowEmulator.LedList.WritePairs` | piglow_emulator.py:177-178 | the pairing loop leaves the list as the writes `pins[x] <- values[x]` applied in order |
| `PiGlowEmulator.LedList.WriteAll` | piglow_emulator.py:180-181 | the one-value loop leaves the list as `value % 256` written to every index in turn |
| `PiGlowEmulator.PiGlow.SetCompat` | piglow_emulator.py:169-170 | `_set` has exactly the contract of `set` |
| `PiGlowEmulator.PiGlow.Show` | piglow_emulator.py:196-202 | the live list becomes the very buffer list, whose contents are unchanged |
| `PiGlowEmulator.ShowThenSet` | piglow_emulator.py:184-202 | after `show`, an in-place write is live at once; a wrapping write leaves the live list at 19 entries, missing the wrapped write to slot 0 |
| `PiGlowEmulator.Wrapped` | piglow_emulator.py:186 | `map(lambda v: v % 256, values)` keeps the length and every value is in [0, 255] |
| `PiGlowEmulator.Put` | piglow_emulator.py:192 | one write `buffer[pin % 18] = value % 256`: that slot takes the wrapped value, the other 17 keep theirs, and an in-range buffer stays in range |
| `PiGlowEmulator.PutAll` | piglow_emulator.py:177-181 | the writes applied one after the other keep 18 slots, and keep an in-range buffer in range |
| `PiGlowEmulator.PutAllUntouched` | piglow_emulator.py:176-192 | a slot that no index names modulo 18 keeps its value |
| `PiGlowEmulator.PutAllLastWins` | piglow_emulator.py:176-178 | a slot ends with `value % 256` from the last write aimed at it: later duplicates win |
| `PiGlowEmulator.PutAllOneValue` | piglow_emulator.py:179-181 | a list of indices with one value sets exactly the named slots to `value % 256` |
| `PiGlowEmulator.PutAllRun` | piglow_emulator.py:185-186 | a run of writes that fits in the buffer equals the slice assignment |
| `PiGlowEmulator.SetWrapStep` | piglow_emulator.py:185-190 | the grow-trim-recurse wrap path equals writing value `k` to `(start + k) % 18` for every `k`, in order |
| `GlowMonitor.PinTablesPartitionLeds` | glow-monitor.py:9-20 | the three legs and two rings name each of the 18 LEDs exactly once |
| `GlowMonitor.Reversed` | glow-monitor.py:72 | `reversed(leg)`: same length, entry `k` is `leg[len(leg) - 1 - k]` |
| `GlowMonitor.BarAmount` | glow-monitor.py:68-71 | an accepted fraction asks for between 0 and `255 * len(leg)` units, and a fraction of 1.0 for exactly `255 * len(leg)` |
| `GlowMonitor.FillLeg` | glow-monitor.py:72-74 | the write loop leaves the buffer as the greedy shares written to `reversed(leg)` in order, in place |
| `GlowMonitor.LedBar` | glow-monitor.py:60-74 | `ValueError` exactly for a fraction outside [0, 1], with no LED written; otherwise the LEDs of `reversed(leg)` get the greedy shares in order |
| `GlowMonitor.BarShares` | glow-monitor.py:68-74 | the written values are in [0, 255], non-increasing, at most one strictly between 0 and 255, and they sum to `int(len(leg)*255*p)` |
| `GlowMonitor.BarLightsLeg` | glow-monitor.py:72-74 | on distinct LEDs, LED `leg[k]` ends with the share of write `len(leg)-1-k`; the other LEDs are unchanged |
| `GlowMonitor.CanShowRing` | glow-monitor.py:152-156 | a first frame (no state, held boundary reading) and a changed reading with no state can never write the ring: `animate_cpu` would index `None` |
| `GlowMonitor.WriteRing` | glow-monitor.py:155-156 | the pin loop writes `values[i]` to `pins[i]` in order, in place |
| `GlowMonitor.AnimateCpu` | glow-monitor.py:152-158 | returns `animate_ring`'s state and writes its three LED values to the blue ring |
| `GlowMonitor.AnimateSshSessions` | glow-monitor.py:160-166 | returns `animate_ring`'s state and writes its three LED values to the white ring |
| `GlowMonitor.RingWriteLightsPins` | glow-monitor.py:163-164 | a ring write sets exactly its three pins to the sampled values and leaves the other LEDs alone |

## Left out

- Sensor readers (`cpu_usage`, `ram_usage`, `temp`, `network_usage_percent`, `ssh_sessions`): operating-system and shell I/O. A reading is a parameter of the model. (`ssh_sessions` also calls `subprocess`, which is never imported.)
- `sensor_worker`, `piglow_worker`, `main`: infinite loops, threads, sleeps and Ctrl+C handling. Note that `piglow_worker` passes the current reading as `old_val` and the previous one as `new_val`. The model takes both as parameters, so the swap does not change anything it states.
- The `piglow` hardware library: foreign calls. The LED sink is the emulator's buffer.
- Emulator rendering (`init`, `_draw`, `virtual_piglow_worker`, `handle_exit`, `_calculate_led_positions`, `_map_colors`): pygame UI and floating-point geometry.
- Circle.FullToTangent: Python 3 indexes with the float `i * (360 / elements)`, which raises `TypeError`. The model uses integer division, as the docstring intends, and requires `elements` to divide 360.
- Float arithmetic: readings are exact reals. `int(max_value * percentage)` is an exact product truncated toward zero, without IEEE rounding.
- PiGlowEmulator.PiGlow.Set: only integer indices and integer values are modelled. A float value (`value % 256` on a float) is not. `isinstance` checks on other types fall into the `ValueError` branch.
- PiGlowEmulator.PiGlow.Set: `set(list, list)` with fewer indices than values raises `IndexError` after some writes. The model requires enough indices instead.
- GlowMonitor.AnimateCpu and GlowMonitor.AnimateSshSessions: a `None` state or fewer than three tangent values raises in Python. The model requires a state with three values.
