/** Shared vocabulary of the fan-speed controller model: optional values, the
    Python exceptions the modelled code can raise, real min/max, Python's
    float-to-int truncation, the pigpio duty-cycle conversion and natural
    powers of reals. */
module Common {

  /** Python's `None`-or-value. */
  datatype Option<+T> = None | Some(value: T)

  /** The exceptions the modelled Python code can raise. */
  datatype PyError =
    | ZeroDivisionError   // a float or int division by zero
    | AttributeError      // an attribute assigned on, or read from, the wrong kind of object

  /** The outcome of a Python call: a value, or an exception that propagates. */
  datatype Result<+T> = Ok(value: T) | Raise(error: PyError)

  /** Python's `min` of two floats. */
  function Min(a: real, b: real): (m: real)
    ensures m <= a && m <= b
    ensures m == a || m == b
  {
    if b < a then b else a
  }

  /** Python's `max` of two floats. */
  function Max(a: real, b: real): (m: real)
    ensures m >= a && m >= b
    ensures m == a || m == b
  {
    if b > a then b else a
  }

  /** Python's `int(x)` on a float: rounds toward zero. */
  function Trunc(x: real): (i: int)
    ensures x >= 0.0 ==> 0 <= i && i as real <= x < i as real + 1.0
    ensures x < 0.0 ==> i <= 0 && i as real - 1.0 < x <= i as real
  {
    if x >= 0.0 then x.Floor else -((-x).Floor)
  }

  /** Scale from a duty-cycle percentage to pigpio's hardware duty units. */
  const DutyScale: real := 10000.0

  /** The hardware duty of `hardware_PWM`, written `int(level * 10000)` in both
      script revisions: 0..1,000,000 for a percentage in 0..100. */
  function Duty(level: real): (d: int)
    ensures 0.0 <= level <= 100.0 ==> 0 <= d <= 1000000
    ensures level >= 0.0 ==> d as real <= level * DutyScale < d as real + 1.0
    ensures level < 0.0 ==> d <= 0
  {
    Trunc(level * DutyScale)
  }

  /** `pow(x, n)` for a natural exponent `n` (Python gives `pow(0.0, 0) == 1.0`). */
  function Pow(x: real, n: nat): (p: real)
    ensures n == 0 ==> p == 1.0
    ensures x == 0.0 && n >= 1 ==> p == 0.0
  {
    if n == 0 then 1.0 else x * Pow(x, n - 1)
  }

  lemma {:induction false} PowNonNegative(x: real, n: nat)
    requires x >= 0.0
    ensures Pow(x, n) >= 0.0
  {
    if n > 0 {
      PowNonNegative(x, n - 1);
    }
  }

  /** Natural powers are non-decreasing on the non-negative reals. */
  lemma {:induction false} PowMonotone(x: real, y: real, n: nat)
    requires 0.0 <= x <= y
    ensures Pow(x, n) <= Pow(y, n)
  {
    if n > 0 {
      PowMonotone(x, y, n - 1);
      PowNonNegative(x, n - 1);
      var px := Pow(x, n - 1);
      var py := Pow(y, n - 1);
      assert Pow(x, n) == x * px;
      assert Pow(y, n) == y * py;
      MulMonotone(x, y, px, py);
    }
  }

  /** Products of non-negative factors grow with each factor. */
  lemma MulMonotone(a: real, b: real, c: real, d: real)
    requires 0.0 <= a <= b && 0.0 <= c <= d
    ensures a * c <= b * d
  {
    assert a * c <= b * c;
    assert b * c <= b * d;
  }

  /** Dividing a non-negative number by a positive one stays non-negative. */
  lemma DivNonNegative(x: real, d: real)
    requires x >= 0.0 && d > 0.0
    ensures x / d >= 0.0
  {
  }

  /** Dividing by a positive number preserves order. */
  lemma DivMonotone(a: real, b: real, d: real)
    requires a <= b && d > 0.0
    ensures a / d <= b / d
  {
    assert b / d - a / d == (b - a) / d;
    DivNonNegative(b - a, d);
  }

  /** Multiplying and then dividing by the same nonzero number cancels. */
  lemma DivCancel(a: real, b: real)
    requires b != 0.0
    ensures (a * b) / b == a
  {
  }

  lemma PowZeroBase(n: nat)
    requires n >= 1
    ensures Pow(0.0, n) == 0.0
  {
  }

  lemma PowOne(x: real)
    ensures Pow(x, 1) == x
  {
  }
}
