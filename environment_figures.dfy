/**
 * The productivity series of the environmental figures: shortfall windows start at
 * indices 0, freq, 2 * freq, ... and last the magnitude's duration. Also how those
 * windows line up with the shortfall years the simulation records in its history.
 */
module EnvironmentFigures {
  import opened Shortfall

  /** Index i lies in a shortfall window that starts at some multiple k * freq. */
  ghost predicate InWindow(i: int, freq: int, duration: int)
  {
    exists k :: 0 <= k <= i && k * freq <= i < k * freq + duration
  }

  /** Index i lies in one of the first `starts` windows, at 0, freq, ..., (starts - 1) * freq. */
  ghost predicate Marked(i: int, freq: int, duration: int, starts: nat)
  {
    starts > 0 && (Marked(i, freq, duration, starts - 1) || (starts - 1) * freq <= i < (starts - 1) * freq + duration)
  }

  /** Being in one of the first windows is being in a window with a start below the bound. */
  lemma {:induction false} MarkedHasWindow(i: int, freq: int, duration: int, starts: nat)
    ensures Marked(i, freq, duration, starts) <==> exists k :: 0 <= k < starts && k * freq <= i < k * freq + duration
  {
    if starts > 0 {
      MarkedHasWindow(i, freq, duration, starts - 1);
      var k := starts - 1;
      if k * freq <= i < k * freq + duration {
        assert Marked(i, freq, duration, starts);
      }
    }
  }

  /** Once the windows have been started past index i, the index is marked exactly
      when it lies in some window. */
  lemma MarkedIsInWindow(i: int, freq: int, duration: int, starts: nat)
    requires freq >= 1 && 0 <= i < starts * freq
    ensures Marked(i, freq, duration, starts) <==> InWindow(i, freq, duration)
  {
    MarkedHasWindow(i, freq, duration, starts);
    if Marked(i, freq, duration, starts) {
      var k :| 0 <= k < starts && k * freq <= i < k * freq + duration;
      StartBelowIndex(k, freq);
    }
    if InWindow(i, freq, duration) {
      var k :| 0 <= k <= i && k * freq <= i < k * freq + duration;
      if k >= starts {
        LaterStart(starts, k, freq);
      }
    }
  }

  /** A window's start k * freq is at least its number k. */
  lemma StartBelowIndex(k: int, freq: int)
    requires k >= 0 && freq >= 1
    ensures k <= k * freq
  {
    if k > 0 {
      MultipleBound(freq, k);
    }
  }

  /** Later windows start later. */
  lemma LaterStart(s: int, k: int, freq: int)
    requires s <= k && freq >= 1
    ensures s * freq <= k * freq
  {
    if s < k {
      MultipleBound(k - s, freq);
      assert (k - s) * freq == k * freq - s * freq;
    }
  }

  /** The productivity series of `years` entries: every entry is base, except those
      in a shortfall window, which are base * (1 - mag). The second result is the
      magnitude's shortfall duration. With a frequency below one the loop never ends,
      so a non-empty series needs freq >= 1. */
  method ProductivityWithDuration(years: nat, freq: int, mag: real, base: real)
    returns (productivity: array<real>, duration: int)
    requires freq >= 1 || years == 0
    ensures fresh(productivity) && productivity.Length == years
    ensures duration == ShortfallDuration(mag)
    ensures forall i :: 0 <= i < years ==>
      productivity[i] == if InWindow(i, freq, duration) then base * (1.0 - mag) else base
  {
    productivity := new real[years](_ => base);
    duration := ShortfallDuration(mag);
    var year := 0;
    ghost var starts: nat := 0;
    while year < years
      invariant 0 <= year == starts * freq
      invariant year > 0 ==> year >= years || freq >= 1
      invariant forall i :: 0 <= i < years ==>
        productivity[i] == if Marked(i, freq, duration, starts) then base * (1.0 - mag) else base
      decreases years - year
    {
      for d := 0 to duration
        invariant forall i :: 0 <= i < years ==>
          productivity[i] == if Marked(i, freq, duration, starts) || year <= i < year + d then base * (1.0 - mag) else base
      {
        if year + d < years {
          productivity[year + d] := base * (1.0 - mag);
        }
      }
      year := year + freq;
      starts := starts + 1;
    }
    forall i | 0 <= i < years
      ensures Marked(i, freq, duration, starts) <==> InWindow(i, freq, duration)
    {
      MarkedIsInWindow(i, freq, duration, starts);
    }
  }

  /** When the windows do not overlap, index i is in a window exactly when its
      remainder modulo the frequency is below the duration. */
  lemma WindowIffRemainder(i: int, freq: int, duration: int)
    requires freq >= 1 && 0 <= i && duration <= freq
    ensures InWindow(i, freq, duration) <==> i % freq < duration
  {
    var q, r := i / freq, i % freq;
    assert i == q * freq + r;
    StartBelowIndex(q, freq);
    if r < duration {
      assert q * freq <= i < q * freq + duration;
    }
    if InWindow(i, freq, duration) {
      var k :| 0 <= k <= i && k * freq <= i < k * freq + duration;
      ModUnique(i, k, i - k * freq, freq);
    }
  }

  /** Index 0 always starts a window, so the series always begins reduced. */
  lemma FirstIndexReduced(freq: int, duration: int)
    requires duration >= 1
    ensures InWindow(0, freq, duration)
  {
    assert 0 * freq <= 0 < 0 * freq + duration;
  }

  /** The simulation's history index j records year j + 1 (the year is advanced
      before the history is appended). When the shortfall is shorter than the
      frequency, year j + 1 is a shortfall year of the simulation exactly when index
      j lies in a window of the figures' series. */
  lemma HistoryIndexMatchesSeries(j: nat, freq: int, mag: real)
    requires freq >= 1 && ShortfallDuration(mag) < freq
    ensures IsShortfallYear(j + 1, freq, mag) <==> InWindow(j, freq, ShortfallDuration(mag))
  {
    NextRemainderInWindow(j, freq, ShortfallDuration(mag));
  }

  /** The remainder of j + 1 lies in 1 .. duration exactly when j lies in a window,
      for windows shorter than the frequency. */
  lemma NextRemainderInWindow(j: nat, freq: int, duration: int)
    requires 1 <= duration < freq
    ensures 0 < PyMod(j + 1, freq) <= duration <==> InWindow(j, freq, duration)
  {
    WindowIffRemainder(j, freq, duration);
    var q, r := j / freq, j % freq;
    assert j + 1 == q * freq + (r + 1);
    if r + 1 < freq {
      ModUnique(j + 1, q, r + 1, freq);
    } else {
      assert j + 1 == (q + 1) * freq;
      ModUnique(j + 1, q + 1, 0, freq);
    }
  }

  /** Read at the raw year instead, the two disagree at 0: the simulation never has a
      shortfall at a multiple of the frequency, while the series starts with one. */
  lemma RawYearZeroDisagrees(freq: int, mag: real)
    requires freq >= 1
    ensures !IsShortfallYear(0, freq, mag) && InWindow(0, freq, ShortfallDuration(mag))
  {
    MultiplesAreNeverShortfall(0, freq, mag);
    FirstIndexReduced(freq, ShortfallDuration(mag));
  }

  /** The figures' two magnitudes: 0.80 gives a three-year and 0.20 a one-year shortfall. */
  lemma FigureDurations()
    ensures ShortfallDuration(0.80) == 3 && ShortfallDuration(0.20) == 1
  {
    DurationByMagnitude(0.80);
    DurationByMagnitude(0.20);
  }
}
