/** The older, linear-only speed curve of `RPi.fanspeed.py`: integer
    temperature bounds and floor speed, the floor kept as a fraction clamped
    into 0..1, the curve itself, the on-exit speed and the duty written on
    each loop iteration. */
module LegacyCurve {
  import opened Common
  import SpeedCurve

  /** The command-line values the curve reads (`--min`, `--max`, `--min-fan`
      are `int`, `--exit-value` is a float). */
  datatype LegacyArgs = LegacyArgs(
    minTemp: int,
    maxTemp: int,
    minFan: int,
    exitValue: real)

  /** Line 37: the floor speed as a fraction, clamped into 0..1. */
  function MinFanFraction(minFan: int): (f: real)
    ensures 0.0 <= f <= 1.0
    ensures 0 <= minFan <= 100 ==> f == minFan as real / 100.0
    ensures minFan < 0 ==> f == 0.0
    ensures minFan > 100 ==> f == 1.0
  {
    Min(1.0, Max(0.0, minFan as real / 100.0))
  }

  /** The linear curve: 0 below `min`, otherwise the position of `temp` in
      the band min..max lifted into floor..1 and capped at 1, as a percent. */
  function TempToSpeed(a: LegacyArgs, temp: real): (r: Result<real>)
    ensures temp < a.minTemp as real ==> r == Ok(0.0)
    ensures r.Raise? <==> temp >= a.minTemp as real && a.maxTemp == a.minTemp
    ensures r.Raise? ==> r.error == ZeroDivisionError
    ensures r.Ok? ==> r.value <= 100.0
  {
    if temp < a.minTemp as real then Ok(0.0)
    else if a.maxTemp - a.minTemp == 0 then Raise(ZeroDivisionError)
    else
      var f := MinFanFraction(a.minFan);
      var speed := (temp - a.minTemp as real) / (a.maxTemp as real - a.minTemp as real);
      Ok(Min(1.0, speed * (1.0 - f) + f) * 100.0)
  }

  /** The arguments of the newer curve that match these: same band, the floor
      clamped as line 37 clamps it, exponent 1. */
  function AsFanArgs(a: LegacyArgs): (b: SpeedCurve.FanArgs)
    ensures b.lin == 1
    ensures 0.0 <= b.minFan <= 100.0
    ensures b.minFan == MinFanFraction(a.minFan) * 100.0
  {
    SpeedCurve.FanArgs(a.minTemp as real, a.maxTemp as real,
                       Min(100.0, Max(0.0, a.minFan as real)), 1, a.exitValue)
  }

  /** The older curve's lift of a band position `q` with floor fraction `f`,
      in percent, is the newer curve's lift of `q` in percent. */
  lemma LiftInPercent(f: real, q: real)
    ensures SpeedCurve.Lift(f * 100.0, q * 100.0) == Min(1.0, q * (1.0 - f) + f) * 100.0
  {
    var lifted := q * (1.0 - f) + f;
    assert f * 100.0 / 100.0 == f;
    assert q * 100.0 * (1.0 - f) + f * 100.0 == lifted * 100.0;
    assert Min(1.0, lifted) * 100.0 == Min(100.0, lifted * 100.0);
  }

  /** Where `temp` lies in the band min..max, as a fraction. */
  function BandPosition(a: LegacyArgs, temp: real): real
    requires a.maxTemp != a.minTemp
  {
    (temp - a.minTemp as real) / (a.maxTemp as real - a.minTemp as real)
  }

  /** Inside a non-empty band, the older curve is the lift of the band
      position with the clamped floor fraction. */
  lemma LegacyInBand(a: LegacyArgs, temp: real)
    requires temp >= a.minTemp as real && a.maxTemp != a.minTemp
    ensures TempToSpeed(a, temp).Ok?
    ensures TempToSpeed(a, temp).value
      == Min(1.0, BandPosition(a, temp) * (1.0 - MinFanFraction(a.minFan)) + MinFanFraction(a.minFan)) * 100.0
  {
    assert a.maxTemp - a.minTemp != 0;
  }

  /** Inside a non-empty band, the newer curve on the matching arguments is the
      newer lift of the same band position. */
  lemma NewerInBand(a: LegacyArgs, temp: real)
    requires temp >= a.minTemp as real && a.maxTemp != a.minTemp
    ensures SpeedCurve.TempToSpeed(AsFanArgs(a), temp)
      == Ok(SpeedCurve.Lift(MinFanFraction(a.minFan) * 100.0, BandPosition(a, temp) * 100.0))
  {
    var b := AsFanArgs(a);
    var x := temp - a.minTemp as real;
    PowOne(x);
    assert Pow(temp - b.minTemp, b.lin) == x;
    assert b.maxTemp - b.minTemp == a.maxTemp as real - a.minTemp as real;
  }

  /** Both revisions compute the same speed for every temperature, error
      included, once the floor is clamped into 0..100 and `lin == 1`. */
  lemma SameAsLinearCurve(a: LegacyArgs, temp: real)
    ensures TempToSpeed(a, temp) == SpeedCurve.TempToSpeed(AsFanArgs(a), temp)
  {
    if temp >= a.minTemp as real && a.maxTemp != a.minTemp {
      LegacyInBand(a, temp);
      NewerInBand(a, temp);
      LiftInPercent(MinFanFraction(a.minFan), BandPosition(a, temp));
    }
  }

  /** Usable arguments: a non-empty band, bottom first. */
  predicate Usable(a: LegacyArgs)
  {
    a.minTemp < a.maxTemp
  }

  /** With a non-empty band the curve starts at the clamped floor, reaches
      100% at `max` and never decreases. */
  lemma CurveShape(a: LegacyArgs, t1: real, t2: real)
    requires Usable(a)
    requires t1 <= t2
    ensures TempToSpeed(a, a.minTemp as real) == Ok(MinFanFraction(a.minFan) * 100.0)
    ensures t1 >= a.maxTemp as real ==> TempToSpeed(a, t1) == Ok(100.0)
    ensures TempToSpeed(a, t1).Ok? && TempToSpeed(a, t2).Ok?
    ensures TempToSpeed(a, t1).value <= TempToSpeed(a, t2).value
  {
    var b := AsFanArgs(a);
    assert SpeedCurve.Usable(b);
    SameAsLinearCurve(a, a.minTemp as real);
    SameAsLinearCurve(a, t1);
    SameAsLinearCurve(a, t2);
    SpeedCurve.SpeedAtThreshold(b);
    if t1 >= a.maxTemp as real {
      SpeedCurve.FullSpeedAtMax(b, t1);
    }
    SpeedCurve.SpeedMonotone(b, t1, t2);
  }

  /** A band written upside down (`--max` below `--min`) is not rejected in
      this revision: just above `min` the speed falls below the floor and,
      further up, below zero. */
  lemma InvertedBandGoesNegative()
    ensures TempToSpeed(LegacyArgs(45, 40, 40, 75.0), 60.0) == Ok(-140.0)
  {
    var a := LegacyArgs(45, 40, 40, 75.0);
    assert MinFanFraction(40) == 0.4;
    assert (60.0 - a.minTemp as real) / (a.maxTemp as real - a.minTemp as real) == -3.0;
    assert TempToSpeed(a, 60.0).value == Min(1.0, -3.0 * (1.0 - 0.4) + 0.4) * 100.0;
  }

  /** Line 104: the exit speed is 0 for the -1 "off" marker, otherwise the
      larger of the request and the raw (unclamped) `--min-fan`, capped at 100. */
  function ExitValue(exitValue: real, minFan: int): (r: real)
    ensures exitValue == -1.0 ==> r == 0.0
    ensures r <= 100.0
    ensures exitValue != -1.0 && (exitValue >= 100.0 || minFan >= 100) ==> r == 100.0
    ensures exitValue != -1.0 && exitValue < 100.0 && minFan < 100 ==>
      r == (if exitValue >= minFan as real then exitValue else minFan as real)
  {
    if exitValue != -1.0 then Min(100.0, Max(exitValue, minFan as real)) else 0.0
  }

  /** With a floor in 0..100 the on-exit normalisation agrees with the newer
      revision's `set_args`. */
  lemma ExitValueMatchesSetArgs(exitValue: real, minFan: int, minTemp: real, maxTemp: real)
    requires 0 <= minFan <= 100
    ensures ExitValue(exitValue, minFan)
      == SpeedCurve.SetArgs(SpeedCurve.FanArgs(minTemp, maxTemp, minFan as real, 1, exitValue)).onexitSpeed
  {
  }

  /** Line 132: the hardware duty for the temperature just read. The loop at
      lines 126-140 has no `try`, so `Raise` here ends the script. */
  function LoopDuty(a: LegacyArgs, temp: real): (r: Result<int>)
    ensures temp < a.minTemp as real ==> r == Ok(0)
    ensures r.Raise? <==> temp >= a.minTemp as real && a.minTemp == a.maxTemp
    ensures r.Ok? ==> r.value <= 1000000
  {
    match TempToSpeed(a, temp)
    case Ok(speed) => Ok(Duty(speed))
    case Raise(e) => Raise(e)
  }

  /** With a non-empty band every temperature yields a duty in 0..1,000,000. */
  lemma LoopDutyInRange(a: LegacyArgs, temp: real)
    requires Usable(a)
    ensures LoopDuty(a, temp).Ok?
    ensures 0 <= LoopDuty(a, temp).value <= 1000000
  {
    if temp >= a.minTemp as real {
      SameAsLinearCurve(a, temp);
      SpeedCurve.SpeedAtLeastFloor(AsFanArgs(a), temp);
    }
  }

  /** Lines 109-110: the step of the verbose speed table,
      `int((temp_to_speed(90) - temp_to_speed(30)) / 60.0) + 1`. */
  function TableStep(a: LegacyArgs): (r: Result<int>)
    ensures r.Raise? <==> a.maxTemp == a.minTemp && a.minTemp <= 90
    ensures r.Raise? ==> r.error == ZeroDivisionError
  {
    match TempToSpeed(a, 90.0)
    case Raise(e) => Raise(e)
    case Ok(hot) =>
      match TempToSpeed(a, 30.0)
      case Raise(e) => Raise(e)
      case Ok(cold) => Ok(Trunc((hot - cold) / 60.0) + 1)
  }

  /** With a non-empty band the table step is at least 1, so the loop
      `while i<90` (line 112) ends. */
  lemma TableStepPositive(a: LegacyArgs)
    requires Usable(a)
    ensures TableStep(a).Ok? && TableStep(a).value >= 1
  {
    CurveShape(a, 30.0, 90.0);
    var hot := TempToSpeed(a, 90.0).value;
    var cold := TempToSpeed(a, 30.0).value;
    DivNonNegative(hot - cold, 60.0);
  }

  /** An inverted band makes the table step negative: `i` starts at 30 and
      only decreases, so the verbose table loop never ends. */
  lemma InvertedBandTableNeverEnds()
    ensures var a := LegacyArgs(45, 40, 40, 75.0);
      && TempToSpeed(a, 90.0) == Ok(-500.0)
      && TempToSpeed(a, 30.0) == Ok(0.0)
      && TableStep(a) == Ok(-7)
  {
    var a := LegacyArgs(45, 40, 40, 75.0);
    assert MinFanFraction(40) == 0.4;
    assert (90.0 - a.minTemp as real) / (a.maxTemp as real - a.minTemp as real) == -9.0;
    assert TempToSpeed(a, 90.0).value == Min(1.0, -9.0 * (1.0 - 0.4) + 0.4) * 100.0;
    assert (-500.0 - 0.0) / 60.0 == -25.0 / 3.0;
    assert Trunc(-25.0 / 3.0) == -8;
  }
}
