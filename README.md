# HC-SR04 driver for Mongoose OS, modelled in Dafny

This project models the driver for the HC-SR04 ultrasonic range finder.

- **Handle creation.** `mgos_hcsr04_create` configures the trigger pin as an output driven low and the echo pin as a pulled-up input. It then allocates a handle that records both pins.
- **Echo measurement.** `mgos_hcsr04_get_echo` fires a 10 µs trigger pulse. It then busy-waits for the echo line to rise and to fall, each wait counting down from 1,000,000. It returns the microseconds between the two clock readings, or -1 when a wait runs out.
- **Single distance.** `mgos_hcsr04_get_distance_ex` turns the echo width into millimetres: half the width times the speed of sound at the given temperature. It rejects -1, widths above 4003 µs and negative products. `mgos_hcsr04_get_distance` does the same at 19.307 °C.
- **Averaged distance.** `mgos_hcsr04_get_distance_avg` takes several default-temperature readings a few milliseconds apart. It averages the ones that succeeded. When no positive delay is given it waits `DEFAULT_AVG_ATTEMPTS_DELAY` (5 ms, include/mgos_hcsr04.h:32), which is `DefaultAvgAttemptsDelay` here.

Two modules:

- `Mgos` (`mgos.dfy`) stands in for the Mongoose OS services the driver calls.
  - A `Board` answers GPIO reads and clock queries from a fixed `Trace`. `signal(pin, k)` is the level seen by the board's k-th read, and `clock(k)` is the value of its k-th clock query.
  - It answers pin setups and the heap allocation from fixed oracles.
  - It records every setup, write and sleep, in order, in `log`.
- `Hcsr04` (`hcsr04.dfy`) holds the driver.
  - `Sensor` is the handle.
  - The methods follow the C functions' statements. `get_echo` is split into `Trigger`, which sends the trigger pulse, and `TimeEcho`, which makes one or two `BusyWait` calls (the second only when the first did not spend its counter) and reads the clock. The loop of `get_distance_avg` is `Accumulate`, and its body is `Attempt`.
  - `Create` states its result outright in terms of the board's setup and allocation oracles. Every other method is proved against a pure function: `TriggerPulse`, `Wait`, `Echo`, `Distance`, `Attempts` together with `Sum`, `Successes` and `Mean`, and `AttemptsLog`.
  - The lemmas state what the driver promises about those functions.

A failed echo is -1, as in C; a failed distance (C's `NAN`) is `None`. Distances are `real` numbers.

Points where the model follows the C code, not the driver's documented intent:

- **Timeouts.** A timeout is a count of busy-wait rounds, not elapsed microseconds. Each round reads the pin before it tests the counter, so a wait does one read more than it decrements. A rise seen on the 1,000,001st read still counts as a timeout.
- **No stale-pulse wait.** There is no wait for a stale high echo to clear. The first clock query comes after the rise, not before the trigger.
- **Range bound.** The bound is on the echo width (more than 4003 µs is rejected). That is about 686 mm at 19.307 °C, not about 4000 mm of distance.
- **Zero distance.** A width of 0 or 1 µs gives 0 mm, and 0 mm is accepted.
- **Default temperature.** It is 19.307 °C.
- **No averaged variant with temperature.** The averaged reading has no temperature argument, and there is no averaged `_ex` function.

As written, `mgos_hcsr04.c` does not compile at three places, so the model follows the evident intent at each:

- **Line 82.** A misplaced parenthesis moves the counter test into the argument of the pin read. The model waits while the echo pin reads 1 and the counter is positive.
- **Lines 78 and 86.** `pulse_start` is declared inside the `if` but used after it. The model declares it before the `if`.
- **Line 90.** `mgos_hcsr04_get_distance_ex` is called before any declaration of it: the header include/mgos_hcsr04.h does not declare it, and its definition only follows at line 93. The model's `GetDistance` calls `GetDistanceEx` at 19.307 °C, as intended.

## Model

| member | source | states |
|---|---|---|
| Hcsr04.Create | src/mgos_hcsr04.c:41-52 | the handle is null exactly when the trigger-output setup, the echo-input setup or the allocation fails; otherwise it is new and records exactly the given trigger and echo pins; the trigger pin is set up as a low output first and the echo pin, as a pulled-up input, only when that succeeded |
| Hcsr04.TriggerPulse | src/mgos_hcsr04.c:63-69 | the trigger pulse has five events, starts and ends with the trigger pin written low, and contains no millisecond sleep |
| Hcsr04.Trigger | src/mgos_hcsr04.c:62-69 | the trigger pin is written low, 5 µs pass, it is written high, 10 µs pass, it is written low again, and nothing else is logged |
| Hcsr04.Wait | src/mgos_hcsr04.c:72-84 | a busy-wait decrements its counter at most as often as the counter's start value, so it always ends |
| Hcsr04.WaitStops | src/mgos_hcsr04.c:72-84 | every read a wait decrements after shows the other level, and unless the counter ran out the read it stops at shows the level awaited |
| Hcsr04.WaitIsFirst | src/mgos_hcsr04.c:72-84 | those two facts determine the number of decrements: the wait stops at the first read showing the level, or when the counter is spent |
| Hcsr04.BusyWait | src/mgos_hcsr04.c:72-84 | the loop leaves 1,000,000 minus the decrements `Wait` counts on the counter and performs exactly one read more than it decrements |
| Hcsr04.Echo | src/mgos_hcsr04.c:71-86 | a measurement uses at most 2,000,002 reads and at most two clock queries, and one that succeeds queries the clock twice |
| Hcsr04.EchoByWaits | src/mgos_hcsr04.c:73-86 | the result, reads and clock queries of a measurement in terms of its two waits: -1 when either wait spends its counter, the clock difference otherwise |
| Hcsr04.TimeEcho | src/mgos_hcsr04.c:71-86 | the two waits and the clock readings return `Echo`'s result and use up exactly its reads and clock queries |
| Hcsr04.GetEcho | src/mgos_hcsr04.c:59-87 | a null handle gives -1 and changes nothing, with no pin write; otherwise the trigger pulse is logged and the result, reads and clock queries are those of `Echo` |
| Hcsr04.EchoFailsIff | src/mgos_hcsr04.c:73-86 | a measurement fails exactly when a wait spends its counter; when the first wait does, the second never runs and the clock is not queried; with a clock that never runs backwards, a success is non-negative |
| Hcsr04.EchoNoRise | src/mgos_hcsr04.c:72-76 | an echo line that stays low for the first wait's first 1,000,000 reads gives -1 after 1,000,001 reads and no clock query, whatever the last read shows: a rise seen on the read that finds the counter spent is a timeout |
| Hcsr04.EchoPulse | src/mgos_hcsr04.c:72-86 | an echo line that is low for `lead` reads, high for `width` reads and then low gives the difference of the two clock queries after `lead + width + 1` reads |
| Hcsr04.EchoStuckHigh | src/mgos_hcsr04.c:77-86 | an echo line that rises in time and stays high for the second wait's first 1,000,000 reads gives -1 after one clock query, whatever the second wait's last read shows |
| Hcsr04.Half | src/mgos_hcsr04.c:99 | `duration / 2` on a `long` rounds toward zero, for negative widths too |
| Hcsr04.Distance | src/mgos_hcsr04.c:93-101 | an accepted distance is never negative, and the echo failure value and widths above 4003 µs are always rejected |
| Hcsr04.Convert | src/mgos_hcsr04.c:99-101 | for any speed of sound, an accepted distance is never negative, and the echo failure value and widths above 4003 µs are rejected |
| Hcsr04.Checked | src/mgos_hcsr04.c:101 | a distance is kept if and only if it is not negative, and a kept one is unchanged |
| Hcsr04.CheckedProduct | src/mgos_hcsr04.c:99-101 | at a positive speed, a halved width is kept exactly when it is not negative |
| Hcsr04.ConvertRejectsNegative | src/mgos_hcsr04.c:99-101 | at a positive speed, widths of -2 µs or less are rejected |
| Hcsr04.ConvertKeepsInRange | src/mgos_hcsr04.c:95-101 | at a positive speed, a width from 0 to 4003 µs gives the halved width times the speed |
| Hcsr04.SoundSpeed | src/mgos_hcsr04.c:98 | the speed of sound, (331.3 + 0.606 T) m/s in mm/µs, is positive at any temperature above absolute zero |
| Hcsr04.NegativeEchoRejected | src/mgos_hcsr04.c:99-101 | above absolute zero, widths of -2 µs or less give a negative product and are rejected |
| Hcsr04.InRangeEchoAccepted | src/mgos_hcsr04.c:95-101 | above absolute zero, a width from 0 to 4003 µs is kept and gives the halved width (`Half`) times `0.3313 + 0.000606 * temperature` mm |
| Hcsr04.DistanceRejectionIff | src/mgos_hcsr04.c:94-101 | above absolute zero, a width is rejected if and only if it is negative or above 4003 µs, and an accepted one is half the width times the speed of sound |
| Hcsr04.DistanceZeroEcho | src/mgos_hcsr04.c:99-101 | widths of 0 and 1 µs give 0 mm, which is not rejected |
| Hcsr04.DistanceMonotoneInEcho | src/mgos_hcsr04.c:99 | among accepted widths, a longer echo never gives a shorter distance |
| Hcsr04.DistanceMonotoneInTemperature | src/mgos_hcsr04.c:98-99 | for the same accepted width, warmer air never gives a shorter distance |
| Hcsr04.DistanceWorkedExample | src/mgos_hcsr04.c:89-101 | at the default 19.307 °C a 2000 µs echo is 343.000042 mm |
| Hcsr04.DefaultRangeLimit | src/mgos_hcsr04.c:96-99 | at the default temperature no accepted reading exceeds 2001 µs of one-way travel, about 686 mm |
| Hcsr04.GetDistanceEx | src/mgos_hcsr04.c:93-102 | a null handle fails without effect; otherwise the reading is `Distance` of `Echo`'s result at the given temperature, with the trigger pulse logged |
| Hcsr04.GetDistance | src/mgos_hcsr04.c:89-91 | the same as `GetDistanceEx` at 19.307 °C |
| Hcsr04.Attempts | src/mgos_hcsr04.c:111-118 | `n` successive measurements give `n` readings, each starting where the previous left off, and none of them is negative |
| Hcsr04.AttemptsSnoc | src/mgos_hcsr04.c:111-118 | one more attempt appends its reading after the earlier ones and starts at the read and clock query where they stopped |
| Hcsr04.Sum | src/mgos_hcsr04.c:108-117 | the running total of the successful readings, accumulated in order; it is 0 when no reading succeeded |
| Hcsr04.Successes | src/mgos_hcsr04.c:107-117 | the number of successful readings, never more than the number of readings |
| Hcsr04.Mean | src/mgos_hcsr04.c:120 | a successful average comes with at least one successful reading, and the average times their number is their total |
| Hcsr04.SuccessesZeroIff | src/mgos_hcsr04.c:114-117 | the success count is zero exactly when every reading failed |
| Hcsr04.MeanFailsIffNoSuccess | src/mgos_hcsr04.c:120 | the average fails if and only if no reading succeeded, so it never divides by zero |
| Hcsr04.SumAtLeast | src/mgos_hcsr04.c:114-117 | a lower bound of the successful readings, times their count, bounds the total from below |
| Hcsr04.SumAtMost | src/mgos_hcsr04.c:114-117 | an upper bound of the successful readings, times their count, bounds the total from above |
| Hcsr04.MeanAtLeast | src/mgos_hcsr04.c:120 | the average is at least any lower bound of the successful readings |
| Hcsr04.MeanAtMost | src/mgos_hcsr04.c:120 | the average is at most any upper bound of the successful readings |
| Hcsr04.MeanIgnoresFailures | src/mgos_hcsr04.c:114-117 | a failed reading is skipped, not counted as 0: appending it leaves the average unchanged |
| Hcsr04.MeanOfOne | src/mgos_hcsr04.c:120 | the average of one reading is that reading, failure included |
| Hcsr04.AverageOfOneAttempt | src/mgos_hcsr04.c:111-120 | averaging one attempt gives the same as one default-temperature reading |
| Hcsr04.AverageNonNegative | src/mgos_hcsr04.c:111-120 | an average that succeeds is never negative |
| Hcsr04.NeverRisesAllFail | src/mgos_hcsr04.c:111-117 | when the echo line never rises, every attempt fails |
| Hcsr04.AverageNeverRises | src/mgos_hcsr04.c:111-120 | when the echo line never rises, the average fails |
| Hcsr04.AttemptsLog | src/mgos_hcsr04.c:110-113 | what `n` attempts log: a trigger pulse each, with a sleep in front of every attempt but the first; the log has 6n - 1 events |
| Hcsr04.Gap | src/mgos_hcsr04.c:112 | the sleep in front of attempt `i`: none before the first, one of the given length before every later one |
| Hcsr04.AttemptsLogSleeps | src/mgos_hcsr04.c:110-113 | `n` attempts sleep max(n - 1, 0) times; the log begins and, after the last attempt, ends with the trigger pin written low; every sleep has the given length and is followed at once by the first write of a trigger pulse, so no sleep comes after the last attempt |
| Hcsr04.Attempt | src/mgos_hcsr04.c:112-113 | attempt `i` sleeps first only when `i > 0`, then reads one default-temperature distance |
| Hcsr04.Accumulate | src/mgos_hcsr04.c:111-118 | the loop leaves the sum of the successful readings of `Attempts` and their count, uses up exactly their reads and clock queries, and logs `AttemptsLog` |
| Hcsr04.GetDistanceAvg | src/mgos_hcsr04.c:104-121 | a null handle gives failure and changes nothing; otherwise a non-positive delay becomes 5 ms, a non-positive count means no attempts, and the result is the mean of the successful readings of the attempts, or failure when none succeeded |

## Left out

- GPIO, sleeps and the microsecond clock are not real hardware. A `Board` replays a fixed trace and oracles and logs what the driver does. No time passes, so sleep lengths are logged, not waited.
- IEEE-754 `float` arithmetic and NaN are not modelled. Distances and averages are exact `real` numbers, and failure is `None`.
- The 64-bit clock and the `long` echo width are unbounded integers. Wrap-around of `mgos_time_micros` is not modelled.
- The commented-out `hcsr04_pulse_in` and `hcsr04_uptime` (src/mgos_hcsr04.c:9-39) are left out, because they are not compiled.
- `mgos_hcsr04_close` is left out because it only frees the handle. `mgos_hcsr04_init` is left out because it only returns true.
- The mJS bindings in mjs_fs/ are not part of this model.
- Concurrency and the real-time accuracy of the busy-waits are left out. The model is sequential and has no notion of elapsed time.
- Hcsr04.Wait: its own contract states only the bound on the decrements. Which reads it stops at is stated by `WaitStops` and `WaitIsFirst`.
