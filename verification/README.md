# RPi.pwm-fanspeed: speed curve, RPM measurement and stall escalation in Dafny

This project models the logic inside the Raspberry Pi fan-speed controller
scripts and proves properties of it. Everything around that logic is left
out: the pigpio hardware calls, MQTT and the reporting glue. Four pieces
are modelled:

- **The temperature-to-duty-cycle curve.** There are two revisions.
  `raspi_fanspeed.py` has `set_args` normalisation and `temp_to_speed` with
  a curve exponent `lin`. `RPi.fanspeed.py` has a linear-only curve, a
  floor kept as a fraction clamped into 0..1, and an on-exit speed. Both
  write a hardware duty of `int(level * 10000)`.
- **RPM measurement and stall escalation** (`raspi_fanspeed.py`).
  `measure_rpm` turns an edge count over a sleep into RPM: 0 for at most 10
  edges, otherwise `count / duration / 2 * 60`. `set_pwm` writes the duty,
  takes one 2.5 s reading, and retries up to five 1 s readings while a
  positive level reads 0 rpm. If the last reading is still 0 at a positive
  level, it records 100%. Only the recorded speed changes: the hardware
  duty written stays `int(level * 10000)`. `--set` clamps the requested
  level into 0..100.
- **The tachometer period estimator `TicksDiff`** (`mesaure_rpm.py`). It is
  modelled as an immutable record. `time.monotonic()` becomes an explicit
  `now` argument. An edge at or after the 1-second deadline clears the
  state. An in-window edge computes a doubled tick delta. A zero delta is
  ignored. The exponential average has weight `0.25 * 1e6 / delta`. The
  first smoothed period appears only on the third edge, counting the one
  that resets (the second in-window edge).
- **The `cmd_errors` counter** of `update_log` (`RPi.fanspeed.py`). This is
  modelled twice: as written, and as evidently intended (see Findings).

Python exceptions that the modelled code can raise are modelled as
`Result.Raise`, not excluded by preconditions. These are
`ZeroDivisionError` for an empty temperature band, a zero period, or
`mul + 1 == 0`, and `AttributeError` at RPi.fanspeed.py:82 (and, once that line is corrected, at line 86). Python floats are Dafny
`real`. `int()` on a float is `Common.Trunc`, which rounds toward zero.

Two behaviours of the scripts are easy to miss:

- `set_ticks` first yields a period on the third edge, counting the one
  that resets (the second in-window edge): the first in-window edge only
  records the delta and returns (mesaure_rpm.py:50-52).
- A level below `min_fan` can still be written. With `max < min` the older
  revision's curve falls below the floor and below zero
  (RPi.fanspeed.py:50-55), and `--set` clamps into 0..100, not into
  `min_fan`..100 (raspi_fanspeed.py:477).

Files: `common.dfy` (shared types, `Trunc`, `Duty`, `Pow`),
`speed_curve.dfy`, `legacy_curve.dfy`, `stall_guard.dfy`, `tachometer.dfy`,
`command_log.dfy`.

## Model

| member | source | states |
|---|---|---|
| Common.Duty | raspi_fanspeed.py:430 | `int(level*10000)` lies in 0..1,000,000 for a level in 0..100, is the floor of `level*10000` for non-negative levels, and is at most 0 for negative ones |
| Common.Trunc | raspi_fanspeed.py:430 | Python `int()` on a float rounds toward zero: for x ≥ 0 the result is the floor of x, for x < 0 it is the ceiling of x, in [x, x+1) and at most 0 |
| Common.Pow | raspi_fanspeed.py:84 | `pow(x, n)` for natural n: 1 for n == 0, including `pow(0, 0)`, and 0 for a zero base with n ≥ 1 |
| SpeedCurve.SetArgs | raspi_fanspeed.py:36-44 | after normalisation: min_fan is clamped into [0,100], min ≥ 0, max ≥ min, and lin is unchanged; the on-exit speed is 0 for -1; otherwise it is raised to min_fan when below it, lowered to 100 when above it, and kept when already in [min_fan,100] |
| SpeedCurve.SetArgsStable | raspi_fanspeed.py:38-41 | normalising twice changes no band or floor field; the on-exit speed also stays the same unless the first pass turned -1 into 0 |
| SpeedCurve.SetArgsAllowsEmptyBand | raspi_fanspeed.py:36-44 | `--min 50 --max 40` normalises to max == min, and `temp_to_speed(50)` then raises ZeroDivisionError |
| SpeedCurve.TempToSpeed | raspi_fanspeed.py:79-86 | exactly 0 below min; raises ZeroDivisionError exactly when temp ≥ min and max == min; never above 100 |
| SpeedCurve.SpeedAtLeastFloor | raspi_fanspeed.py:82-86 | with min_fan in [0,100] and max > min, every temperature ≥ min gives a speed in [min_fan,100] |
| SpeedCurve.Lift | raspi_fanspeed.py:85-86 | the lifted level never exceeds 100; position 0 gives the floor (capped at 100) and position 100 gives exactly 100 |
| SpeedCurve.SpeedAtThreshold | raspi_fanspeed.py:82-85 | with lin ≥ 1, the speed at exactly min is min_fan |
| SpeedCurve.FullSpeedAtMax | raspi_fanspeed.py:83-86 | with lin == 1, every temperature ≥ max gives exactly 100 |
| SpeedCurve.SpeedMonotone | raspi_fanspeed.py:79-86 | for any natural lin, the speed never decreases as temperature rises, including across the jump from 0 to min_fan at min |
| SpeedCurve.DefaultCurveLandmarks | raspi_fanspeed.py:155-158 | with the defaults 45/70/40 and lin 1: 44.9°C→0, 45→40, 57.5→70, 70→100, 80→100 |
| SpeedCurve.LoopDutyInRange | raspi_fanspeed.py:552-557 | after set_args with a non-empty band, the duty the main loop writes never raises and lies in 0..1,000,000 |
| SpeedCurve.LoopDuty | raspi_fanspeed.py:552-557 | the main loop's duty is 0 below min, raises exactly when temp ≥ min and the band is empty, and never exceeds 1,000,000 |
| LegacyCurve.MinFanFraction | RPi.fanspeed.py:37 | the floor fraction lies in [0,1]; it equals min_fan/100 inside 0..100 and is clamped outside |
| LegacyCurve.TempToSpeed | RPi.fanspeed.py:50-55 | 0 below min; raises exactly when temp ≥ min and max == min; never above 100 |
| LegacyCurve.SameAsLinearCurve | RPi.fanspeed.py:50-55 | for every temperature, the result (error included) equals the newer revision's `temp_to_speed` with lin == 1 and min_fan clamped into [0,100] |
| LegacyCurve.CurveShape | RPi.fanspeed.py:53-55 | with max > min: the speed at min is min_fan*100, every temperature ≥ max gives 100, and the speed never decreases |
| LegacyCurve.InvertedBandGoesNegative | RPi.fanspeed.py:50-55 | this revision does not reject max < min; with band 45..40 and floor 40, 60°C gives -140 |
| LegacyCurve.ExitValue | RPi.fanspeed.py:104 | -1 maps to 0; otherwise the result is 100 when the request or the raw min_fan is at least 100, and else exactly the larger of the request and the raw min_fan |
| LegacyCurve.ExitValueMatchesSetArgs | RPi.fanspeed.py:104 | with min_fan in 0..100 the result equals the newer revision's on-exit normalisation |
| LegacyCurve.LoopDutyInRange | RPi.fanspeed.py:129-133 | with max > min, the duty the loop writes never raises and lies in 0..1,000,000 |
| LegacyCurve.LoopDuty | RPi.fanspeed.py:129-133 | the loop's duty is 0 below min, raises exactly when temp ≥ min and max == min, and never exceeds 1,000,000 |
| LegacyCurve.TableStep | RPi.fanspeed.py:109-110 | the verbose table's step raises ZeroDivisionError exactly when the band is empty and starts at or below 90 |
| LegacyCurve.TableStepPositive | RPi.fanspeed.py:109-112 | with max > min the step is at least 1, so `while i<90` ends |
| LegacyCurve.InvertedBandTableNeverEnds | RPi.fanspeed.py:106-115 | with `--min 45 --max 40 --min-fan 40` the speeds at 90 and 30 °C are -500 and 0 and the step is -7, so `i` only decreases and `while i<90` never ends |
| StallGuard.Frequency | raspi_fanspeed.py:418-423 | 0 for at most 10 edges; otherwise frequency × duration × 2 recovers the edge count |
| StallGuard.RpmFromCount | raspi_fanspeed.py:418-423 | rpm is 0 exactly when the count is ≤ 10; otherwise rpm × duration = 30 × count; it is never negative and equals frequency × 60 |
| StallGuard.RpmMonotone | raspi_fanspeed.py:418-423 | for the same duration, more edges never give a lower rpm |
| StallGuard.SetPwm | raspi_fanspeed.py:429-441 | the duty written is `int(level*10000)`; without measuring, the speed is level and the previous rpm is kept; with measuring, 1 to 6 readings are taken, each retry follows a 0-rpm reading at level > 0, retries end early only when the fan turns or level ≤ 0, and the speed is 100 exactly when level > 0 and the last rpm is 0 (or level is 100), otherwise level |
| StallGuard.SetCommand | raspi_fanspeed.py:476-481 | `--set` takes effect exactly when the value is present and nonzero; the level is then clamped into [0,100] and is unchanged inside that range |
| StallGuard.SetCommandDutyInRange | raspi_fanspeed.py:477-481 | the duty `--set` writes lies in 0..1,000,000 |
| Tachometer.SetTicks | mesaure_rpm.py:27-61 | after every call that does not raise, the deadline is now + 1 and ticks is the new tick; it raises ZeroDivisionError exactly on an in-window doubled delta of -250,000 while an average exists |
| Tachometer.Init | mesaure_rpm.py:9-16 | `__init__` leaves no ticks, no diff, no average and a count of 0 |
| Tachometer.IsTimeout | mesaure_rpm.py:18-19 | a timeout means the clock has reached the deadline; the initial deadline 0 has passed at every clock reading ≥ 0 |
| Tachometer.Clear | mesaure_rpm.py:21-25 | `clear` forgets diff, average, ticks and count and keeps the deadline |
| Tachometer.GetPeriod | mesaure_rpm.py:75-78 | the period is exactly the smoothed average, None when there is none |
| Tachometer.RaisedState | mesaure_rpm.py:27-61 | when `set_ticks` raises, it has already stored the new deadline and tick, a doubled delta of -250,000 and count + 1, and left the average as it was |
| Tachometer.Smooth | mesaure_rpm.py:59-61 | the average update raises exactly when the doubled delta is -250,000 |
| Tachometer.GetHz | mesaure_rpm.py:80-84 | None exactly when there is no average; raises exactly on a zero period; otherwise hz × period = 1,000,000 |
| Tachometer.GetRpm | mesaure_rpm.py:86-90 | rpm is None exactly when there is no average; otherwise it is hz × 60 |
| Tachometer.StaleEdgeForgets | mesaure_rpm.py:18-33 | an edge at or after the deadline clears diff, average and count and keeps only the new tick; get_period, get_hz and get_rpm are then None |
| Tachometer.FirstEdgeResets | mesaure_rpm.py:9-33 | with the initial deadline 0, the first edge at any clock reading ≥ 0 takes the reset branch |
| Tachometer.ZeroDeltaKeeps | mesaure_rpm.py:36-48 | an in-window repeat of the last tick leaves diff, average and count unchanged |
| Tachometer.SecondEdge | mesaure_rpm.py:43-52 | the second edge, counting the one that resets (the first in-window edge), sets diff = 2(t2-t1) and leaves no average |
| Tachometer.ThirdEdge | mesaure_rpm.py:43-58 | the third edge, counting the one that resets (the second in-window edge), sets average = diff = 2(t3-t2) and count = 1 |
| Tachometer.SmoothBetween | mesaure_rpm.py:59-61 | a positive doubled delta never raises and gives a value between the old average and the delta |
| Tachometer.LaterEdgeAverages | mesaure_rpm.py:59-61 | each later in-window edge with a positive delta adds 1 to count and moves the average to a point between the old average and the new doubled delta |
| Tachometer.SmoothOfEqualParts | mesaure_rpm.py:60-61 | averaging a period with an equal delta leaves the period unchanged |
| Tachometer.SetTicksKeepsInv | mesaure_rpm.py:27-61 | every non-raising call preserves the invariant: count == 0 iff there is no average; an average implies diff and ticks; a diff is nonzero and implies ticks |
| Tachometer.ReachableInv | mesaure_rpm.py:9-61 | every state reached from `__init__` satisfies that invariant |
| Tachometer.OrderedRunIsSafe | mesaure_rpm.py:27-90 | with non-decreasing ticks no edge raises, diff and average stay positive, and get_hz and get_rpm never raise |
| Tachometer.SteadyEdgesKeepPeriod | mesaure_rpm.py:54-61 | once the average equals a steady doubled delta 2h, further in-window edges h apart keep it at exactly 2h and add one to count each |
| Tachometer.SteadyEdgesFrequency | mesaure_rpm.py:75-90 | after such steady edges, get_hz is 1e6/(2h) and get_rpm is 60 times that |
| Tachometer.HalfSecondEdges | mesaure_rpm.py:27-90 | for edges 500,000 ticks and half a second apart, hz is still None after two edges; after three, the period is 1,000,000, hz is 1 and rpm is 60 |
| CommandLog.RunAsWrittenCounts | RPi.fanspeed.py:63-84 | as written, cmd_errors equals the current run of nonzero exit codes, until the first run longer than ten, which raises AttributeError |
| CommandLog.RecordExitAsWritten | RPi.fanspeed.py:77-84 | a zero exit code resets the counter to 0; a failure adds 1; it raises AttributeError exactly on a failure with the counter already at 10 |
| CommandLog.RunAsWritten | RPi.fanspeed.py:63-84 | a counter that survives never exceeds 10 or the number of runs; a raise needs more than ten runs |
| CommandLog.EleventhFailureRaises | RPi.fanspeed.py:69-82 | as written, ten failures in a row give cmd_errors = 10 and the eleventh raises AttributeError |
| CommandLog.RunDisablesAfterElevenFailures | RPi.fanspeed.py:77-84 | as intended, the command stays enabled exactly until the first run of more than ten failures; until then the counter is the current run length |
| CommandLog.RecordExit | RPi.fanspeed.py:77-84 | as intended: success resets the counter and keeps the command; failure adds 1; the command stays set exactly while it was set and the counter is at most 10 |
| CommandLog.Run | RPi.fanspeed.py:63-84 | as intended: while the command is set the counter is at most 10; once cleared the counter stays at 11 |
| CommandLog.RecordExitLine86 | RPi.fanspeed.py:65-86 | with line 82 corrected and `--log` unset: an iteration raises AttributeError exactly when the command has already been cleared |
| CommandLog.RunLine86RaisesAfterDisable | RPi.fanspeed.py:65-86 | with line 82 corrected, the run agrees with the intended one until the iteration after the command is cleared, which raises AttributeError |
| CommandLog.TwelfthIterationRaises | RPi.fanspeed.py:65-86 | with line 82 corrected, eleven failures clear the command and the twelfth iteration raises AttributeError |

## Findings

| source | as written | input that shows it | evidently intended | confidence | as-written member | corrected member |
|---|---|---|---|---|---|---|
| RPi.fanspeed.py:82 | `args.cmd = None` assigns on `args`, which line 69 rebound to the list from `shlex.split`, so it raises AttributeError; the exception is not caught in the main loop (line 134) and ends the script | eleven consecutive nonzero exit codes from the reporting command | clear `args.cmd` on the argument namespace after more than ten failures in a row, so the command is no longer run | not executed; high (a Python list has no `cmd` attribute) | CommandLog.EleventhFailureRaises | CommandLog.RunDisablesAfterElevenFailures |
| RPi.fanspeed.py:86 | once `args.cmd` is cleared, the next `update_log` takes the else branch and evaluates `args.log.lower()` with `--log` at its default `None` (line 32), which raises AttributeError uncaught at line 134; the code as written hides this behind the line-82 defect | line 82 corrected, then twelve consecutive nonzero exit codes | skip the log branch when `--log` is unset, so that clearing the command keeps controlling the fan | not executed; high (`None` has no `lower`) | CommandLog.TwelfthIterationRaises | CommandLog.RunDisablesAfterElevenFailures |

## Left out

- pigpio (`hardware_PWM`, `callback`, `set_mode`, `set_pull_up_down`), `time.sleep` and reading `/sys/class/thermal`: these are hardware and I/O. Temperatures, tachometer ticks, clock readings and edge counts are parameters.
- The asynchronous GPIO callback context is concurrency. `set_ticks` is modelled as sequential calls.
- The MQTT client, connect/disconnect callbacks, Home Assistant discovery payloads, client-id hashing, MAC address globbing and the `client_publish` throttle are network and library glue.
- argparse, pid files, signal handlers and syslog are process plumbing. The raspi SIGINT handler (line 461) passes its arguments to `set_pwm` shifted by one position. This is not modelled.
- JSON and table printing are string formatting. The speed-table loops (RPi.fanspeed.py:106-120, raspi_fanspeed.py:488-500) call the curve and are not modelled. Two failures they inherit from it are recorded instead. In the older script, an inverted band makes the table step negative, so `while i<90` never ends: `LegacyCurve.InvertedBandTableNeverEnds` gives a step of -7 for `--min 45 --max 40 --min-fan 40`. In the newer script, an empty band, which `set_args` allows (`SpeedCurve.SetArgsAllowsEmptyBand`), makes the table's direct `temp_to_speed` call raise an uncaught ZeroDivisionError.
- shlex command building and the command's execution are left out. Exit codes are parameters.
- With `--log` set, both `update_log` functions only compare the name against null-device names and `-` and write a file, which is file I/O; the command branch modelled here runs only with `--log` unset. The null-log regex at raspi_fanspeed.py:392, which can never match, belongs to the same file-writing branch.
- SpeedCurve.TempToSpeed: only natural-number `lin` is modelled. Python's `pow` with a fractional exponent has no counterpart over Dafny reals.
- Tachometer.OrderedRunIsSafe: pigpio's 32-bit tick wrap-around is not modelled. Ticks are unbounded integers, and the safety lemma assumes they never decrease.
- Float rounding: every computation is over exact reals, not IEEE doubles.
- Tachometer.SetTicks: on the raising path it returns only the error. The fields `set_ticks` has already written before the division at mesaure_rpm.py:61 are given separately by `Tachometer.RaisedState`. Runs (`Tachometer.Run`) stop at the first raise, so later edges after such a partial update, which pigpio's callback thread would still deliver, are not modelled.
- Tachometer.SetTicks: `set_ticks` reads `time.monotonic()` twice (mesaure_rpm.py:28 via line 19, and line 29). The model uses one `now` for both, so the stored deadline can be slightly earlier than the script's.
