/** The temperature-to-duty-cycle curve of `raspi_fanspeed.py`
    (`RPiFanSpeedControl.set_args` and `temp_to_speed`), with the curve
    exponent `lin` restricted to natural numbers. */
module SpeedCurve {
  import opened Common

  /** The command-line values the curve reads: temperatures in degrees
      Celsius, `minFan` and `onexitSpeed` as duty-cycle percentages. */
  datatype FanArgs = FanArgs(
    minTemp: real,
    maxTemp: real,
    minFan: real,
    lin: nat,
    onexitSpeed: real)

  /** What `set_args` guarantees about the arguments it stores. */
  predicate Normalised(a: FanArgs)
  {
    && 0.0 <= a.minFan <= 100.0
    && 0.0 <= a.minTemp
    && a.minTemp <= a.maxTemp
  }

  /** `-E -1` asks for the fan to be switched off on exit. */
  const DisableOnExit: real := -1.0

  /** `set_args`: clamp the minimum fan speed into 0..100, the minimum
      temperature to at least 0, the maximum to at least the minimum, and the
      on-exit speed into minFan..100 unless it is the -1 "off" marker. */
  function SetArgs(a: FanArgs): (r: FanArgs)
    ensures Normalised(r)
    ensures r.lin == a.lin
    ensures 0.0 <= a.minFan <= 100.0 ==> r.minFan == a.minFan
    ensures a.minFan < 0.0 ==> r.minFan == 0.0
    ensures a.minFan > 100.0 ==> r.minFan == 100.0
    ensures a.minTemp >= 0.0 ==> r.minTemp == a.minTemp
    ensures a.minTemp < 0.0 ==> r.minTemp == 0.0
    ensures r.maxTemp == a.maxTemp || (r.maxTemp == r.minTemp && a.maxTemp < r.minTemp)
    ensures a.onexitSpeed == DisableOnExit ==> r.onexitSpeed == 0.0
    ensures a.onexitSpeed != DisableOnExit ==> r.minFan <= r.onexitSpeed <= 100.0
    ensures (a.onexitSpeed != DisableOnExit && r.minFan <= a.onexitSpeed <= 100.0)
      ==> r.onexitSpeed == a.onexitSpeed
    ensures (a.onexitSpeed != DisableOnExit && a.onexitSpeed < r.minFan) ==> r.onexitSpeed == r.minFan
    ensures (a.onexitSpeed != DisableOnExit && a.onexitSpeed > 100.0) ==> r.onexitSpeed == 100.0
  {
    var minFan := Min(100.0, Max(0.0, a.minFan));
    var minTemp := Max(0.0, a.minTemp);
    var maxTemp := Max(minTemp, a.maxTemp);
    // `x != -1 and min(...) or 0`: a falsy 0.0 from `min` also yields 0
    var onexit := if a.onexitSpeed != DisableOnExit then Min(100.0, Max(a.onexitSpeed, minFan)) else 0.0;
    FanArgs(minTemp, maxTemp, minFan, a.lin, onexit)
  }

  /** Normalising twice changes nothing but the on-exit speed, and that one
      only when the first pass turned the -1 marker into 0. */
  lemma SetArgsStable(a: FanArgs)
    ensures var r := SetArgs(a); var rr := SetArgs(r);
      && rr.minTemp == r.minTemp && rr.maxTemp == r.maxTemp
      && rr.minFan == r.minFan && rr.lin == r.lin
      && (a.onexitSpeed != DisableOnExit ==> rr.onexitSpeed == r.onexitSpeed)
  {
  }

  /** `set_args` lets `max == min` through (for instance `--min 50 --max 40`),
      after which `temp_to_speed` divides by zero at and above `min`. */
  lemma SetArgsAllowsEmptyBand()
    ensures var r := SetArgs(FanArgs(50.0, 40.0, 40.0, 1, 75.0));
      r.maxTemp == r.minTemp && TempToSpeed(r, 50.0) == Raise(ZeroDivisionError)
  {
  }

  /** The speed curve: 0 below `minTemp`; from there `(temp - min)^lin / (max - min)`
      scaled to percent, lifted into the band minFan..100 and capped at 100. */
  function TempToSpeed(a: FanArgs, temp: real): (r: Result<real>)
    ensures temp < a.minTemp ==> r == Ok(0.0)
    ensures r.Raise? <==> temp >= a.minTemp && a.maxTemp == a.minTemp
    ensures r.Raise? ==> r.error == ZeroDivisionError
    ensures r.Ok? ==> r.value <= 100.0
  {
    if temp < a.minTemp then Ok(0.0)
    else if a.maxTemp - a.minTemp == 0.0 then Raise(ZeroDivisionError)
    else Ok(Lift(a.minFan, Pow(temp - a.minTemp, a.lin) / (a.maxTemp - a.minTemp) * 100.0))
  }

  /** Line 85-86: a percentage of the band lifted into minFan..100 and capped. */
  function Lift(minFan: real, norm: real): (r: real)
    ensures r <= 100.0
    ensures norm == 0.0 ==> r == Min(100.0, minFan)
    ensures norm == 100.0 ==> r == 100.0
  {
    Min(100.0, norm * (1.0 - minFan / 100.0) + minFan)
  }

  /** With a floor of at most 100, lifting preserves order, and a
      non-negative position lands at or above the floor. */
  lemma LiftMonotone(minFan: real, n1: real, n2: real)
    requires minFan <= 100.0
    requires n1 <= n2
    ensures Lift(minFan, n1) <= Lift(minFan, n2)
    ensures n1 >= 0.0 && minFan <= 100.0 ==> Lift(minFan, n1) >= minFan
  {
    var k := 1.0 - minFan / 100.0;
    assert k >= 0.0;
    var x1 := n1 * k + minFan;
    var x2 := n2 * k + minFan;
    assert x1 <= x2 by {
      assert n1 * k <= n2 * k;
    }
    assert Lift(minFan, n1) == Min(100.0, x1);
    assert Lift(minFan, n2) == Min(100.0, x2);
    if n1 >= 0.0 {
      assert x1 >= minFan by {
        assert n1 * k >= 0.0;
      }
    }
  }

  /** Arguments the curve can be evaluated on everywhere: a floor speed in
      0..100 and a non-empty band. */
  predicate Usable(a: FanArgs)
  {
    0.0 <= a.minFan <= 100.0 && a.minTemp < a.maxTemp
  }

  /** Above the threshold the fan never runs below its floor speed. */
  lemma {:induction false} SpeedAtLeastFloor(a: FanArgs, temp: real)
    requires Usable(a)
    requires temp >= a.minTemp
    ensures TempToSpeed(a, temp).Ok?
    ensures a.minFan <= TempToSpeed(a, temp).value <= 100.0
  {
    PowNonNegative(temp - a.minTemp, a.lin);
    var q := Pow(temp - a.minTemp, a.lin) / (a.maxTemp - a.minTemp);
    DivNonNegative(Pow(temp - a.minTemp, a.lin), a.maxTemp - a.minTemp);
    assert q >= 0.0;
    var norm := q * 100.0;
    assert norm >= 0.0;
    LiftMonotone(a.minFan, norm, norm);
  }

  /** At exactly the threshold the curve starts at the floor speed (for a
      curve exponent of at least 1; `pow(0, 0) == 1` lifts a zero exponent). */
  lemma SpeedAtThreshold(a: FanArgs)
    requires Usable(a)
    requires a.lin >= 1
    ensures TempToSpeed(a, a.minTemp) == Ok(a.minFan)
  {
    PowZeroBase(a.lin);
    var norm := Pow(a.minTemp - a.minTemp, a.lin) / (a.maxTemp - a.minTemp) * 100.0;
    assert norm == 0.0;
    assert Lift(a.minFan, 0.0) == a.minFan;
  }

  /** With a linear curve, every temperature at or above `maxTemp` gives 100%. */
  lemma FullSpeedAtMax(a: FanArgs, temp: real)
    requires Usable(a)
    requires a.lin == 1
    requires temp >= a.maxTemp
    ensures TempToSpeed(a, temp) == Ok(100.0)
  {
    PowOne(temp - a.minTemp);
    var norm := (temp - a.minTemp) / (a.maxTemp - a.minTemp) * 100.0;
    assert norm >= 100.0 by {
      assert (temp - a.minTemp) / (a.maxTemp - a.minTemp) >= 1.0;
    }
    LiftMonotone(a.minFan, 100.0, norm);
    assert Lift(a.minFan, 100.0) == 100.0;
  }

  /** The curve never decreases as the temperature rises, including across the
      jump from 0 to the floor speed at `minTemp`. */
  lemma {:induction false} SpeedMonotone(a: FanArgs, t1: real, t2: real)
    requires Usable(a)
    requires t1 <= t2
    ensures TempToSpeed(a, t1).Ok? && TempToSpeed(a, t2).Ok?
    ensures TempToSpeed(a, t1).value <= TempToSpeed(a, t2).value
  {
    if t2 < a.minTemp {
    } else if t1 < a.minTemp {
      SpeedAtLeastFloor(a, t2);
    } else {
      var d := a.maxTemp - a.minTemp;
      PowMonotone(t1 - a.minTemp, t2 - a.minTemp, a.lin);
      var p1 := Pow(t1 - a.minTemp, a.lin);
      var p2 := Pow(t2 - a.minTemp, a.lin);
      DivMonotone(p1, p2, d);
      LiftMonotone(a.minFan, p1 / d * 100.0, p2 / d * 100.0);
    }
  }

  /** The default band (`--min 45 --max 70 --min-fan 40`, linear) evaluated at
      its landmarks: off just below 45, the 40% floor at 45, 70% half-way,
      100% at and beyond 70. */
  lemma DefaultCurveLandmarks()
    ensures var a := SetArgs(FanArgs(45.0, 70.0, 40.0, 1, 75.0));
      && TempToSpeed(a, 44.9) == Ok(0.0)
      && TempToSpeed(a, 45.0) == Ok(40.0)
      && TempToSpeed(a, 57.5) == Ok(70.0)
      && TempToSpeed(a, 70.0) == Ok(100.0)
      && TempToSpeed(a, 80.0) == Ok(100.0)
  {
    var a := SetArgs(FanArgs(45.0, 70.0, 40.0, 1, 75.0));
    assert a == FanArgs(45.0, 70.0, 40.0, 1, 75.0);
    PowOne(0.0);
    PowOne(12.5);
    PowOne(25.0);
    PowOne(35.0);
    assert TempToSpeed(a, 45.0) == Ok(Lift(40.0, 0.0 / 25.0 * 100.0));
    assert TempToSpeed(a, 57.5) == Ok(Lift(40.0, 12.5 / 25.0 * 100.0));
    assert TempToSpeed(a, 70.0) == Ok(Lift(40.0, 25.0 / 25.0 * 100.0));
    assert TempToSpeed(a, 80.0) == Ok(Lift(40.0, 35.0 / 25.0 * 100.0));
  }

  /** The duty handed to `hardware_PWM` by the main loop (lines 554-557 feed
      `temp_to_speed` into `set_pwm`, which writes `int(level * 10000)`).
      The loop catches the exception (lines 559-562), so `Raise` here means
      that this iteration writes nothing; with `-v` it is re-raised. */
  function LoopDuty(a: FanArgs, temp: real): (r: Result<int>)
    ensures temp < a.minTemp ==> r == Ok(0)
    ensures r.Raise? <==> temp >= a.minTemp && a.maxTemp == a.minTemp
    ensures r.Ok? ==> r.value <= 1000000
  {
    match TempToSpeed(a, temp)
    case Ok(speed) => Ok(Duty(speed))
    case Raise(e) => Raise(e)
  }

  /** After `set_args` with a non-empty band, every temperature yields a
      hardware duty in 0..1,000,000. */
  lemma LoopDutyInRange(raw: FanArgs, temp: real)
    requires SetArgs(raw).minTemp < SetArgs(raw).maxTemp
    ensures LoopDuty(SetArgs(raw), temp).Ok?
    ensures 0 <= LoopDuty(SetArgs(raw), temp).value <= 1000000
  {
    var a := SetArgs(raw);
    if temp >= a.minTemp {
      SpeedAtLeastFloor(a, temp);
    }
  }
}
