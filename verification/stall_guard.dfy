/** RPM measurement and stall escalation of `raspi_fanspeed.py`:
    `measure_rpm` turns the number of falling tachometer edges counted over a
    sleep into an RPM figure, and `set_pwm` writes the duty, re-measures a
    few times while a nonzero level reads 0 rpm, and records 100% when the
    fan still reads 0. The edge counts come from outside, one per
    measurement, in the order the measurements are taken. */
module StallGuard {
  import opened Common

  /** Edge counts up to this many read as a stopped fan. */
  const MinEdgeCount: nat := 10
  /** Falling edges per revolution of the fan's tachometer. */
  const EdgesPerRevolution: real := 2.0
  /** The first measurement of `set_pwm` (the default of `measure_rpm`). */
  const SettleDuration: real := 2.5
  /** Each re-measurement while a stall is suspected. */
  const RetryDuration: real := 1.0
  /** Re-measurements allowed before a stall is declared. */
  const StallRetries: nat := 5
  /** The level recorded once a stall is declared. */
  const FullSpeed: real := 100.0

  /** The frequency in revolutions per second computed by `measure_rpm`
      (0 when too few edges were seen). */
  function Frequency(counter: nat, duration: real): (f: real)
    requires duration > 0.0
    ensures counter <= MinEdgeCount ==> f == 0.0
    ensures counter > MinEdgeCount ==> f * duration * EdgesPerRevolution == counter as real
  {
    if counter > MinEdgeCount then counter as real / duration / EdgesPerRevolution else 0.0
  }

  /** The RPM that `measure_rpm` stores: 0 for at most 10 edges, otherwise
      the edge rate halved and scaled to a minute. */
  function RpmFromCount(counter: nat, duration: real): (rpm: real)
    requires duration > 0.0
    ensures rpm >= 0.0
    ensures rpm == 0.0 <==> counter <= MinEdgeCount
    ensures counter > MinEdgeCount ==> rpm * duration == counter as real * 30.0
    ensures rpm == Frequency(counter, duration) * 60.0
  {
    if counter > MinEdgeCount then counter as real / duration / EdgesPerRevolution * 60.0 else 0.0
  }

  /** More edges over the same measurement never read as fewer RPM. */
  lemma RpmMonotone(c1: nat, c2: nat, duration: real)
    requires duration > 0.0
    requires c1 <= c2
    ensures RpmFromCount(c1, duration) <= RpmFromCount(c2, duration)
  {
    if c1 > MinEdgeCount {
      DivMonotone(c1 as real, c2 as real, duration);
      DivMonotone(c1 as real / duration, c2 as real / duration, EdgesPerRevolution);
    }
  }

  /** The length of the `i`-th measurement taken by `set_pwm`. */
  function MeasureDuration(i: nat): (d: real)
    ensures d > 0.0
  {
    if i == 0 then SettleDuration else RetryDuration
  }

  /** What one call of `set_pwm` leaves behind: the hardware duty written, the
      speed recorded, the last RPM reading and how many measurements it took. */
  datatype PwmOutcome = PwmOutcome(duty: int, speed: real, rpm: real, measurements: nat)

  /** `set_pwm(pin, level, measure)`: write `int(level * 10000)`, record
      `level`, and when measuring, take one 2.5 s reading followed by up to
      five 1 s readings while `level > 0` and the reading is 0 rpm; a final
      0 rpm at a nonzero level records 100%. Without measuring, the previous
      RPM reading stays. `counts[i]` is the edge count of the `i`-th reading. */
  method SetPwm(level: real, measure: bool, previousRpm: real, counts: seq<nat>) returns (o: PwmOutcome)
    requires |counts| >= 1 + StallRetries
    ensures o.duty == Duty(level)
    ensures !measure ==> o.speed == level && o.rpm == previousRpm && o.measurements == 0
    ensures measure ==> 1 <= o.measurements <= 1 + StallRetries
    ensures measure ==> o.rpm == RpmFromCount(counts[o.measurements - 1], MeasureDuration(o.measurements - 1))
    // a reading is repeated only after a stalled reading at a nonzero level
    ensures measure ==> forall i :: 0 <= i < o.measurements - 1 ==> counts[i] <= MinEdgeCount
    ensures measure && o.measurements > 1 ==> level > 0.0
    // it stops early only when the fan turns or no rotation is expected
    ensures measure && o.measurements < 1 + StallRetries ==> level <= 0.0 || o.rpm > 0.0
    ensures measure ==> (o.speed == FullSpeed <==> (level > 0.0 && o.rpm == 0.0) || level == FullSpeed)
    ensures measure && !(level > 0.0 && o.rpm == 0.0) ==> o.speed == level
  {
    var duty := Duty(level);
    if !measure {
      return PwmOutcome(duty, level, previousRpm, 0);
    }
    var rpm := RpmFromCount(counts[0], SettleDuration);
    var n: nat := 0;
    while level > 0.0 && rpm == 0.0 && n < StallRetries
      invariant n <= StallRetries
      invariant rpm == RpmFromCount(counts[n], MeasureDuration(n))
      invariant forall i :: 0 <= i < n ==> counts[i] <= MinEdgeCount
      invariant n > 0 ==> level > 0.0
    {
      rpm := RpmFromCount(counts[n + 1], RetryDuration);
      n := n + 1;
    }
    var speed := if level > 0.0 && rpm == 0.0 then FullSpeed else level;
    o := PwmOutcome(duty, speed, rpm, n + 1);
  }

  /** `--set LEVEL` (line 476): a truthy level is clamped into 0..100 and
      written directly; `None` and `0.0` are falsy and fall through to the
      normal control loop. */
  function SetCommand(requested: Option<real>): (r: Option<real>)
    ensures r.Some? <==> requested.Some? && requested.value != 0.0
    ensures r.Some? ==> 0.0 <= r.value <= 100.0
    ensures r.Some? && 0.0 <= requested.value <= 100.0 ==> r.value == requested.value
    ensures r.Some? && requested.value > 100.0 ==> r.value == 100.0
    ensures r.Some? && requested.value < 0.0 ==> r.value == 0.0
  {
    match requested
    case None => None
    case Some(v) => if v != 0.0 then Some(Max(0.0, Min(100.0, v))) else None
  }

  /** The duty written by `--set` always lies in 0..1,000,000. */
  lemma SetCommandDutyInRange(requested: Option<real>)
    requires SetCommand(requested).Some?
    ensures 0 <= Duty(SetCommand(requested).value) <= 1000000
  {
  }
}
