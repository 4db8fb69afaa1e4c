/** Bollinger Bands (src/analysts/quantitative/indicators/bollinger.go).

    The square root is a parameter: sd stands for what math.Sqrt returns on the
    variance, and is only known to be nonnegative with sd * sd equal to it. */
module Bollinger {
  import opened Models
  import opened Reals
  import opened Stats

  datatype Bands = Bands(upper: real, middle: real, lower: real)

  function BandsOf(window: seq<real>, multiplier: real, sd: real): Bands {
    Bands(Mean(window) + multiplier * sd, Mean(window), Mean(window) - multiplier * sd)
  }

  function Window(prices: seq<real>, period: nat): seq<real>
    requires period <= |prices|
  {
    prices[|prices| - period..]
  }

  predicate Outside(b: Bands, x: real) { x > b.upper || x < b.lower }

  /** How many prices lie strictly outside the bands. */
  function OutsideCount(xs: seq<real>, b: Bands): nat {
    if xs == [] then 0 else OutsideCount(xs[..|xs| - 1], b) + (if Outside(b, xs[|xs| - 1]) then 1 else 0)
  }

  lemma BandsInOrder(window: seq<real>, multiplier: real, sd: real)
    requires multiplier >= 0.0 && sd >= 0.0
    ensures var b := BandsOf(window, multiplier, sd); b.lower <= b.middle <= b.upper
  {
    ProductNonnegative(multiplier, sd);
  }

  /** Chebyshev for the bands: of the n prices of a window, those strictly outside the
      bands number at most n / k^2. */
  lemma Chebyshev(window: seq<real>, k: real, sd: real)
    requires |window| >= 2 && k > 0.0 && IsSqrt(sd, Variance(window))
    ensures (OutsideCount(window, BandsOf(window, k, sd)) as real) * (k * k) <= |window| as real
  {
    ChebyshevFor(window, BandsOf(window, k, sd), k, sd, Variance(window));
  }

  lemma ChebyshevFor(xs: seq<real>, b: Bands, k: real, sd: real, v: real)
    requires IsSqrt(sd, v) && k > 0.0 && |xs| > 0 && v == Spread(xs, b.middle) / (|xs| as real)
    requires b == Bands(b.middle + k * sd, b.middle, b.middle - k * sd)
    ensures (OutsideCount(xs, b) as real) * (k * k) <= |xs| as real
  {
    MassFitsFor(xs, b, k, sd, v);
    CountWithin(xs, b, k * k, |xs| as real);
  }

  lemma CountWithin(xs: seq<real>, b: Bands, kk: real, n: real)
    requires Mass(xs, b, kk) <= n
    ensures (OutsideCount(xs, b) as real) * kk <= n
  {
    MassIsCount(xs, b, kk);
  }

  lemma MassFitsFor(xs: seq<real>, b: Bands, k: real, sd: real, v: real)
    requires IsSqrt(sd, v) && k > 0.0 && |xs| > 0 && v == Spread(xs, b.middle) / (|xs| as real)
    requires b == Bands(b.middle + k * sd, b.middle, b.middle - k * sd)
    ensures Mass(xs, b, k * k) <= |xs| as real
  {
    ThresholdSquare(k, sd, v);
    MassFits(xs, b, k * k, k * sd, v);
  }

  lemma MassFits(xs: seq<real>, b: Bands, kk: real, t: real, v: real)
    requires IsSqrt(t, kk * v) && |xs| > 0 && v == Spread(xs, b.middle) / (|xs| as real)
    requires b == Bands(b.middle + t, b.middle, b.middle - t)
    ensures Mass(xs, b, kk) <= |xs| as real
  {
    SpreadNonnegative(xs, b.middle);
    Divides(Spread(xs, b.middle), |xs| as real);
    MassWithin(xs, b, kk, t, v);
  }

  lemma MassWithin(xs: seq<real>, b: Bands, kk: real, t: real, v: real)
    requires IsSqrt(t, kk * v) && v >= 0.0 && v * (|xs| as real) == Spread(xs, b.middle)
    requires b == Bands(b.middle + t, b.middle, b.middle - t)
    ensures Mass(xs, b, kk) <= |xs| as real
  {
    OutsideMass(xs, b, t, kk * v);
    MassScales(xs, b, kk, v);
    Unscale(Mass(xs, b, kk), |xs| as real, v, Spread(xs, b.middle));
  }

  lemma Unscale(mass: real, n: real, v: real, s: real)
    requires v >= 0.0 && n >= 0.0 && mass * v <= s && v * n == s && (mass == 0.0 || s > 0.0)
    ensures mass <= n
  {
    if mass != 0.0 {
      assert v == 0.0 ==> v * n == 0.0;
      assert v * (n - mass) == v * n - mass * v;
      ScaledSign(v, n - mass);
    }
  }

  lemma ThresholdSquare(k: real, sd: real, v: real)
    requires k >= 0.0 && IsSqrt(sd, v)
    ensures k * sd >= 0.0 && IsSqrt(k * sd, (k * k) * v)
  {
    ProductNonnegative(k, sd);
    assert (k * sd) * (k * sd) == (k * k) * (sd * sd);
  }

  lemma {:induction false} MassScales(xs: seq<real>, b: Bands, kk: real, v: real)
    ensures Mass(xs, b, kk * v) == Mass(xs, b, kk) * v
    ensures OutsideCount(xs, b) == 0 ==> Mass(xs, b, kk) == 0.0
  {
    if xs != [] {
      MassScales(xs[..|xs| - 1], b, kk, v);
      var m := Mass(xs[..|xs| - 1], b, kk);
      assert (m + kk) * v == m * v + kk * v;
    }
  }

  /** The squared half-width, once for each price outside. */
  function Mass(xs: seq<real>, b: Bands, tt: real): real {
    if xs == [] then 0.0 else Mass(xs[..|xs| - 1], b, tt) + (if Outside(b, xs[|xs| - 1]) then tt else 0.0)
  }

  lemma {:induction false} MassIsCount(xs: seq<real>, b: Bands, tt: real)
    ensures Mass(xs, b, tt) == (OutsideCount(xs, b) as real) * tt
  {
    if xs != [] {
      MassIsCount(xs[..|xs| - 1], b, tt);
      OneMore(OutsideCount(xs[..|xs| - 1], b), tt);
    }
  }

  lemma OneMore(n: nat, tt: real)
    ensures ((n + 1) as real) * tt == (n as real) * tt + tt
  {
    assert (n + 1) as real == n as real + 1.0;
  }

  function SquareFrom(c: real): real -> real { (x: real) => (x - c) * (x - c) }

  function SumBy(xs: seq<real>, f: real -> real): real {
    if xs == [] then 0.0 else SumBy(xs[..|xs| - 1], f) + f(xs[|xs| - 1])
  }

  lemma {:induction false} SpreadIsSumBy(xs: seq<real>, c: real)
    ensures Spread(xs, c) == SumBy(xs, SquareFrom(c))
  {
    if xs != [] {
      SpreadIsSumBy(xs[..|xs| - 1], c);
      assert SquareFrom(c)(xs[|xs| - 1]) == (xs[|xs| - 1] - c) * (xs[|xs| - 1] - c);
    }
  }

  /** A price outside contributes more than the squared half-width, any other nothing negative. */
  lemma {:induction false} OutsideSum(xs: seq<real>, b: Bands, tt: real, square: real -> real)
    requires tt >= 0.0 && (forall x :: square(x) >= 0.0) && forall x :: Outside(b, x) ==> square(x) > tt
    ensures 0.0 <= Mass(xs, b, tt) <= SumBy(xs, square)
    ensures OutsideCount(xs, b) > 0 ==> SumBy(xs, square) > 0.0
  {
    if xs != [] {
      OutsideSum(xs[..|xs| - 1], b, tt, square);
      var x := xs[|xs| - 1];
      assert square(x) >= 0.0;
    }
  }

  lemma OutsideMass(xs: seq<real>, b: Bands, t: real, tt: real)
    requires IsSqrt(t, tt) && b.upper == b.middle + t && b.lower == b.middle - t
    ensures Mass(xs, b, tt) <= Spread(xs, b.middle)
    ensures OutsideCount(xs, b) > 0 ==> Spread(xs, b.middle) > 0.0
  {
    var square := SquareFrom(b.middle);
    forall x ensures square(x) >= 0.0 { OneTerm(b, x, t, tt); }
    forall x | Outside(b, x) ensures square(x) > tt { OneTerm(b, x, t, tt); }
    SquareNonnegative(t);
    OutsideSum(xs, b, tt, square);
    SpreadIsSumBy(xs, b.middle);
  }

  lemma OneTerm(b: Bands, x: real, t: real, tt: real)
    requires IsSqrt(t, tt) && b.upper == b.middle + t && b.lower == b.middle - t
    ensures (x - b.middle) * (x - b.middle) >= 0.0
    ensures Outside(b, x) ==> (x - b.middle) * (x - b.middle) > tt
  {
    SquareNonnegative(x - b.middle);
    if Outside(b, x) { Beyond(x - b.middle, t, tt); }
  }

  lemma Beyond(d: real, t: real, tt: real)
    requires IsSqrt(t, tt) && (d > t || d < -t)
    ensures d * d > tt
  {
    assert (-d) * (-d) == d * d;
    SquareOrder(t, if d > t then d else -d);
  }

  /** Samuelson against the bands: once the multiplier reaches sqrt(n - 1), the newest
      price of a window of n cannot lie outside its own bands. */
  lemma NewestInsideWideBands(window: seq<real>, k: real, sd: real)
    requires |window| >= 2 && IsSqrt(sd, Variance(window))
    requires k >= 0.0 && k * k >= (|window| - 1) as real
    ensures var b := BandsOf(window, k, sd); b.lower <= window[|window| - 1] <= b.upper
  {
    var d := window[|window| - 1] - Mean(window);
    NewestIsWithinSamuelson(window);
    VarianceTimesCount(window);
    WideEnough(d, k, sd, (|window| - 1) as real, Variance(window));
  }

  lemma WideEnough(d: real, k: real, sd: real, m: real, v: real)
    requires SquareWithin(d, m, v) && IsSqrt(sd, v) && k >= 0.0 && k * k >= m
    ensures -(k * sd) <= d <= k * sd
  {
    var t := k * sd;
    assert t >= 0.0;
    assert (k * k - m) * v >= 0.0;
    assert (k * k - m) * v == (k * k) * v - m * v;
    assert t * t == (k * k) * v;
    assert d * d <= t * t;
    assert (-d) * (-d) == d * d;
    if d > t { SquareOrder(t, d); }
    if -d > t { SquareOrder(t, -d); }
  }

  // ----- the entry points -----

  method BollingerBands(prices: seq<real>, period: int, multiplier: real, sd: real) returns (bands: Option<Bands>)
    requires 2 <= period <= |prices| ==> IsSqrt(sd, Variance(Window(prices, period)))
    ensures bands.Some? <==> 2 <= period <= |prices|
    ensures bands.Some? ==> bands.value == BandsOf(Window(prices, period), multiplier, sd)
  {
    if period < 2 || |prices| < period { return None; }
    var window := prices[|prices| - period..];
    var sum := SumOf(window);
    var middle := sum / (period as real);
    return Some(Bands(middle + multiplier * sd, middle, middle - multiplier * sd));
  }

  /** One entry per window; its middle line is the sliding average SMA computes. */
  method BollingerBandsSeries(prices: seq<real>, period: int, multiplier: real, sds: seq<real>)
    returns (series: seq<Bands>)
    requires 2 <= period <= |prices| ==>
               |sds| == |prices| - period + 1 &&
               forall i :: 0 <= i < |sds| ==> IsSqrt(sds[i], Variance(prices[i..i + period]))
    ensures period < 2 || |prices| < period ==> series == []
    ensures 2 <= period <= |prices| ==>
              |series| == |prices| - period + 1 &&
              forall i :: 0 <= i < |series| ==> series[i] == BandsOf(prices[i..i + period], multiplier, sds[i])
  {
    if period < 2 || |prices| < period { return []; }
    series := [];
    for i := 0 to |prices| - period + 1
      invariant |series| == i
      invariant forall k :: 0 <= k < i ==> series[k] == BandsOf(prices[k..k + period], multiplier, sds[k])
    {
      var window := prices[i..i + period];
      var sum := SumOf(window);
      var middle := sum / (period as real);
      series := series + [Bands(middle + multiplier * sds[i], middle, middle - multiplier * sds[i])];
    }
  }
}
