/**
 * Facts about real arithmetic that the solver does not find on its own.
 */
module RealFacts {

  /** Multiplying by a non-negative factor preserves order. */
  lemma ScaleMonotone(x: real, y: real, k: real)
    requires x <= y && k >= 0.0
    ensures x * k <= y * k
  {
    assert y * k - x * k == (y - x) * k;
  }

  /** Dividing by a positive divisor preserves order. */
  lemma DivideMonotone(x: real, y: real, d: real)
    requires x <= y && d > 0.0
    ensures x / d <= y / d
  {
    var k := 1.0 / d;
    assert k * d == 1.0;
    ScaleStrict(k, 0.0, d);
    assert x / d == x * k && y / d == y * k;
    ScaleMonotone(x, y, k);
  }

  /** Multiplying by a positive factor preserves strict order. */
  lemma ScaleStrict(x: real, y: real, k: real)
    ensures x < y && k > 0.0 ==> x * k < y * k
  {
    assert y * k - x * k == (y - x) * k;
  }

  /** 1/(1+x) falls as x grows. */
  lemma ReciprocalAntitone(x: real, y: real)
    requires 0.0 <= x <= y
    ensures 1.0 / (1.0 + y) <= 1.0 / (1.0 + x)
  {
    var u, v := 1.0 / (1.0 + x), 1.0 / (1.0 + y);
    assert u * (1.0 + x) == 1.0 && v * (1.0 + y) == 1.0;
    ScaleMonotone(1.0 + x, 1.0 + y, v);
    assert v * (1.0 + x) <= u * (1.0 + x);
    ScaleStrict(u, v, 1.0 + x);
  }

  /** Scaling a non-negative amount by a factor between 0 and 1 keeps it between 0
      and the amount. */
  lemma ScaleWithin(x: real, f: real)
    requires x >= 0.0 && 0.0 <= f <= 1.0
    ensures 0.0 <= x * f <= x
  {
    ScaleMonotone(0.0, f, x);
    ScaleMonotone(f, 1.0, x);
  }

  /** A quotient times its divisor is the dividend, and a non-negative dividend over a
      positive divisor is non-negative. */
  lemma DivideCancels(q: real, x: real, d: real)
    requires d > 0.0 && q == x / d
    ensures q * d == x
    ensures x >= 0.0 ==> q >= 0.0
  {
  }

  /** Comparing a quotient with t is comparing the dividend with t times the divisor. */
  lemma CompareRatio(x: real, d: real, t: real)
    requires d > 0.0
    ensures x / d < t <==> x < t * d
    ensures x / d > t <==> x > t * d
  {
    var q := x / d;
    assert q * d == x;
    ScaleStrict(q, t, d);
    ScaleStrict(t, q, d);
  }

  /** q added up n times, as a loop that subtracts q n times accumulates it. */
  function Times(n: nat, q: real): real
  {
    if n == 0 then 0.0 else Times(n - 1, q) + q
  }

  lemma {:induction false} TimesIsProduct(n: nat, q: real)
    ensures Times(n, q) == n as real * q
  {
    if n > 0 {
      TimesIsProduct(n - 1, q);
      assert (n - 1) as real * q + q == n as real * q;
    }
  }

  /** n equal parts of an amount, each scaled, add up to the amount scaled. */
  lemma EqualParts(amount: real, n: nat, k: real)
    requires n > 0
    ensures Times(n, amount / n as real * k) == amount * k
  {
    TimesIsProduct(n, amount / n as real * k);
    var part := amount / n as real;
    assert part * n as real == amount;
    assert n as real * (part * k) == (part * n as real) * k;
  }
}
