/** The few facts of nonlinear real arithmetic the statistics rest on. */
module Reals {

  lemma ProductPositive(a: real, b: real)
    requires a > 0.0 && b > 0.0
    ensures a * b > 0.0
  {
  }

  lemma ProductNonnegative(a: real, b: real)
    requires a >= 0.0 && b >= 0.0
    ensures a * b >= 0.0
  {
  }

  lemma SquareNonnegative(x: real)
    ensures x * x >= 0.0
    ensures x != 0.0 ==> x * x > 0.0
  {
    if x > 0.0 {
      ProductPositive(x, x);
    } else if x < 0.0 {
      ProductPositive(-x, -x);
      assert (-x) * (-x) == x * x;
    }
  }

  lemma ScaledSign(k: real, x: real)
    requires k > 0.0 && k * x >= 0.0
    ensures x >= 0.0
  {
    assert x < 0.0 ==> k * x < 0.0;
  }

  lemma Divides(a: real, n: real)
    requires n > 0.0
    ensures (a / n) * n == a
    ensures a >= 0.0 ==> a / n >= 0.0
  {
  }

  /** Squares of nonnegative numbers are ordered like the numbers. */
  lemma SquareOrder(a: real, b: real)
    requires a >= 0.0 && b >= 0.0
    ensures a < b <==> a * a < b * b
  {
    assert b * b - a * a == (b - a) * (b + a);
    if a < b { ProductPositive(b - a, b + a); }
    if a > b {
      ProductPositive(a - b, b + a);
      assert (a - b) * (b + a) == -((b - a) * (b + a));
    }
  }

  /** From s * s <= k * q to the same with one more term on each side. */
  lemma AddOneSquare(a: real, s: real, q: real, k: real)
    requires k > 0.0 && s * s <= k * q
    ensures (s + a) * (s + a) <= (k + 1.0) * (q + a * a)
  {
    CompleteSquare(a, s, q, k);
    ScaledSign(k, q + k * (a * a) - 2.0 * (s * a));
    assert (s + a) * (s + a) == s * s + 2.0 * (s * a) + a * a;
    assert (k + 1.0) * (q + a * a) == k * q + k * (a * a) + q + a * a;
  }

  lemma CompleteSquare(a: real, s: real, q: real, k: real)
    requires s * s <= k * q
    ensures k * (q + k * (a * a) - 2.0 * (s * a)) >= 0.0
  {
    var t := k * a;
    SquareNonnegative(s - t);
    assert (s - t) * (s - t) == s * s + t * t - 2.0 * (s * t);
    assert k * (k * (a * a)) == t * t;
    assert k * (s * a) == s * t;
    assert k * (q + k * (a * a) - 2.0 * (s * a)) == k * q + k * (k * (a * a)) - 2.0 * (k * (s * a));
  }
}
