/**
 * The shortfall schedule of the simulation: how long a shortfall lasts for a given
 * magnitude, which years are shortfall years, and the productivity of a year.
 */
module Shortfall {

  /** Python's int() on a float: truncation toward zero. */
  function Trunc(x: real): (r: int)
    ensures x >= 0.0 ==> r as real <= x < r as real + 1.0
    ensures x < 0.0 ==> r as real - 1.0 < x <= r as real
  {
    if x >= 0.0 then x.Floor else -((-x).Floor)
  }

  /** Python's `a % b`: the remainder takes the sign of the divisor. */
  function PyMod(a: int, b: int): (r: int)
    requires b != 0
    ensures b > 0 ==> 0 <= r < b
    ensures b < 0 ==> b < r <= 0
    ensures (a - r) % b == 0
  {
    var q, m := a / b, a % b;
    assert a - m == q * b;
    ModOfMultiple(q, b);
    if b > 0 then m
    else if m == 0 then 0
    else
      assert a - (m + b) == (q - 1) * b;
      ModOfMultiple(q - 1, b);
      m + b
  }

  /** Number of consecutive shortfall years: max(1, int(1 + magnitude * 2.5)). */
  function ShortfallDuration(magnitude: real): (d: int)
    ensures d >= 1
    ensures 0.0 <= magnitude <= 1.0 ==> d <= 3
  {
    var t := Trunc(1.0 + magnitude * 2.5);
    if 1 >= t then 1 else t
  }

  /** A year is a shortfall year when its remainder modulo the frequency lies in
      1..duration; the multiples of the frequency themselves are never shortfall years. */
  predicate IsShortfallYear(year: int, frequency: int, magnitude: real)
    requires frequency != 0
  {
    var sinceStart := PyMod(year, frequency);
    sinceStart > 0 && sinceStart <= ShortfallDuration(magnitude)
  }

  /** The uniform productivity of a year. */
  function YearProductivity(base: real, magnitude: real, shortfall: bool): real
  {
    base * (if shortfall then 1.0 - magnitude else 1.0)
  }

  /** A mild shortfall lasts one year, a moderate one two and a severe one three. */
  lemma DurationByMagnitude(magnitude: real)
    requires 0.0 <= magnitude <= 1.0
    ensures magnitude < 0.4 ==> ShortfallDuration(magnitude) == 1
    ensures 0.4 <= magnitude < 0.8 ==> ShortfallDuration(magnitude) == 2
    ensures 0.8 <= magnitude ==> ShortfallDuration(magnitude) == 3
  {
    var x := 1.0 + magnitude * 2.5;
    var t := Trunc(x);
    if magnitude < 0.4 {
      assert x < 2.0;
    } else if magnitude < 0.8 {
      assert 2.0 <= x < 3.0;
    } else {
      assert 3.0 <= x <= 3.5;
    }
  }

  /** A non-zero multiple of b is at least |b| away from zero. */
  lemma MultipleBound(x: int, b: int)
    requires b != 0
    ensures x >= 1 && b > 0 ==> x * b >= b
    ensures x <= -1 && b > 0 ==> x * b <= -b
    ensures x >= 1 && b < 0 ==> x * b <= b
    ensures x <= -1 && b < 0 ==> x * b >= -b
  {
    if x >= 1 { assert x * b - b == (x - 1) * b; }
    if x <= -1 { assert x * b + b == (x + 1) * b; }
  }

  /** Euclidean remainder of an exact multiple. */
  lemma ModOfMultiple(q: int, b: int)
    requires b != 0
    ensures (q * b) % b == 0
  {
    var a := q * b;
    var q', r' := a / b, a % b;
    assert a == q' * b + r';
    assert (q - q') * b == r';
    MultipleBound(q - q', b);
  }

  /** The remainder of a multiple of the frequency. */
  lemma MultipleMod(k: int, frequency: int)
    requires frequency != 0
    ensures PyMod(k * frequency, frequency) == 0
  {
    ModOfMultiple(k, frequency);
  }

  /** The years at exact multiples of the frequency are never shortfall years. */
  lemma MultiplesAreNeverShortfall(k: int, frequency: int, magnitude: real)
    requires frequency != 0
    ensures !IsShortfallYear(k * frequency, frequency, magnitude)
  {
    MultipleMod(k, frequency);
  }

  /** With a negative frequency the remainder is never positive, so no year is a shortfall year. */
  lemma NegativeFrequencyNeverShortfall(year: int, frequency: int, magnitude: real)
    requires frequency < 0
    ensures !IsShortfallYear(year, frequency, magnitude)
  {
  }

  /** The schedule repeats with the frequency. */
  lemma {:induction false} ShortfallIsPeriodic(year: int, frequency: int, magnitude: real)
    requires frequency > 0
    ensures IsShortfallYear(year + frequency, frequency, magnitude) == IsShortfallYear(year, frequency, magnitude)
  {
    var a := PyMod(year, frequency);
    var b := PyMod(year + frequency, frequency);
    ModShift(year, frequency);
  }

  lemma ModShift(year: int, frequency: int)
    requires frequency > 0
    ensures (year + frequency) % frequency == year % frequency
  {
    var q := year / frequency;
    var r := year % frequency;
    assert year == q * frequency + r;
    assert year + frequency == (q + 1) * frequency + r;
    ModUnique(year + frequency, q + 1, r, frequency);
  }

  /** Euclidean division is determined by quotient and remainder. */
  lemma ModUnique(a: int, q: int, r: int, frequency: int)
    requires frequency > 0 && 0 <= r < frequency && a == q * frequency + r
    ensures a % frequency == r && a / frequency == q
  {
    var q' := a / frequency;
    var r' := a % frequency;
    assert a == q' * frequency + r';
    assert (q - q') * frequency == r' - r;
    MultipleBound(q - q', frequency);
  }

  /** Frequency 6 and magnitude 0.6 give a two-year shortfall in years 1, 2, 7, 8, ... */
  lemma FrequencySixMagnitudePointSix()
    ensures ShortfallDuration(0.6) == 2
    ensures IsShortfallYear(1, 6, 0.6) && IsShortfallYear(2, 6, 0.6)
    ensures !IsShortfallYear(3, 6, 0.6) && !IsShortfallYear(4, 6, 0.6)
    ensures !IsShortfallYear(5, 6, 0.6) && !IsShortfallYear(6, 6, 0.6)
    ensures IsShortfallYear(7, 6, 0.6) && IsShortfallYear(8, 6, 0.6) && !IsShortfallYear(9, 6, 0.6)
  {
    DurationByMagnitude(0.6);
  }

  /** With magnitude 0 a shortfall year still exists but costs no productivity. */
  lemma ZeroMagnitudeHasNoEffect(base: real, shortfall: bool)
    ensures ShortfallDuration(0.0) == 1
    ensures YearProductivity(base, 0.0, shortfall) == base
  {
    DurationByMagnitude(0.0);
  }

  /** Productivity is never raised by a shortfall and never driven below zero by one. */
  lemma ShortfallProductivityBounds(base: real, magnitude: real)
    requires base >= 0.0 && 0.0 <= magnitude <= 1.0
    ensures 0.0 <= YearProductivity(base, magnitude, true) <= YearProductivity(base, magnitude, false) == base
  {
  }
}
