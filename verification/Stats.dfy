/** Statistical primitives (src/pkg/math/math.go) over exact reals. */
module Stats {
  import opened Reals

  function Sum(vals: seq<real>): real {
    if vals == [] then 0.0 else Sum(vals[..|vals| - 1]) + vals[|vals| - 1]
  }

  function Mean(vals: seq<real>): real {
    if |vals| == 0 then 0.0 else Sum(vals) / (|vals| as real)
  }

  /** The sum of squared distances from c. */
  function Spread(vals: seq<real>, c: real): real {
    if vals == [] then 0.0
    else Spread(vals[..|vals| - 1], c) + (vals[|vals| - 1] - c) * (vals[|vals| - 1] - c)
  }

  /** The population variance; zero for fewer than two values. */
  function Variance(vals: seq<real>): real {
    if |vals| < 2 then 0.0 else Spread(vals, Mean(vals)) / (|vals| as real)
  }

  /** s is what math.Sqrt returns for v, without rounding. */
  predicate IsSqrt(s: real, v: real) { s >= 0.0 && s * s == v }

  lemma {:induction false} SumConcat(a: seq<real>, b: seq<real>)
    ensures Sum(a + b) == Sum(a) + Sum(b)
    decreases |b|
  {
    if b == [] {
      assert a + b == a;
    } else {
      SumConcat(a, b[..|b| - 1]);
      assert (a + b)[..|a + b| - 1] == a + b[..|b| - 1];
    }
  }

  lemma {:induction false} SpreadNonnegative(vals: seq<real>, c: real)
    ensures Spread(vals, c) >= 0.0
  {
    if vals != [] {
      SpreadNonnegative(vals[..|vals| - 1], c);
      SquareNonnegative(vals[|vals| - 1] - c);
    }
  }

  lemma MeanTimesCount(vals: seq<real>)
    ensures Mean(vals) * (|vals| as real) == Sum(vals)
  {
  }

  predicate SquareWithin(d: real, k: real, s: real) { d * d <= k * s }

  /** The sum of the distances from c. */
  function Deviation(vals: seq<real>, c: real): real {
    if vals == [] then 0.0 else Deviation(vals[..|vals| - 1], c) + (vals[|vals| - 1] - c)
  }

  lemma {:induction false} DeviationIsSum(vals: seq<real>, c: real)
    ensures Deviation(vals, c) == Sum(vals) - (|vals| as real) * c
  {
    if vals != [] {
      DeviationIsSum(vals[..|vals| - 1], c);
      var k := (|vals| - 1) as real;
      assert |vals| as real == k + 1.0;
      assert (k + 1.0) * c == k * c + c;
    }
  }

  /** Cauchy-Schwarz: the square of the summed distances is at most their number times
      the sum of their squares. */
  lemma {:induction false} SquareOfDeviation(vals: seq<real>, c: real)
    ensures SquareWithin(Deviation(vals, c), |vals| as real, Spread(vals, c))
  {
    if |vals| == 1 {
      assert Deviation(vals[..0], c) == 0.0 && Spread(vals[..0], c) == 0.0;
    } else if |vals| > 1 {
      var front := vals[..|vals| - 1];
      SquareOfDeviation(front, c);
      SquareStep(Deviation(front, c), vals[|vals| - 1] - c, |front| as real, Spread(front, c), |vals| as real);
    }
  }

  lemma SquareStep(d: real, a: real, k: real, q: real, n: real)
    requires k > 0.0 && SquareWithin(d, k, q) && n == k + 1.0
    ensures SquareWithin(d + a, n, q + a * a)
  {
    AddOneSquare(a, d, q, k);
  }

  /** Samuelson's inequality for the newest value of a window: it lies within
      sqrt(n - 1) standard deviations of the mean. */
  lemma NewestIsWithinSamuelson(vals: seq<real>)
    requires |vals| >= 2
    ensures SquareWithin(vals[|vals| - 1] - Mean(vals), (|vals| - 1) as real, Variance(vals))
  {
    var front, m, k := vals[..|vals| - 1], Mean(vals), (|vals| - 1) as real;
    var d := vals[|vals| - 1] - m;
    NewestAgainstTheRest(vals);
    VarianceTimesCount(vals);
    SamuelsonAlgebra(k, |vals| as real, d, Spread(front, m), Variance(vals));
  }

  lemma VarianceTimesCount(vals: seq<real>)
    requires |vals| >= 2
    ensures Variance(vals) * (|vals| as real) == Spread(vals, Mean(vals))
    ensures Variance(vals) >= 0.0
  {
    SpreadNonnegative(vals, Mean(vals));
    Divides(Spread(vals, Mean(vals)), |vals| as real);
  }

  /** The other values balance the newest one, so Cauchy-Schwarz bounds it by their spread. */
  lemma NewestAgainstTheRest(vals: seq<real>)
    requires vals != []
    ensures var m := Mean(vals);
            var d := vals[|vals| - 1] - m;
            SquareWithin(d, (|vals| - 1) as real, Spread(vals[..|vals| - 1], m))
  {
    var front, m := vals[..|vals| - 1], Mean(vals);
    SquareOfDeviation(front, m);
    MeanTimesCount(vals);
    DeviationIsSum(vals, m);
    Opposite(Deviation(front, m), vals[|vals| - 1] - m, |front| as real, Spread(front, m));
  }

  lemma Opposite(e: real, d: real, k: real, q: real)
    requires e + d == 0.0 && SquareWithin(e, k, q)
    ensures SquareWithin(d, k, q)
  {
    assert e * e == d * d;
  }

  lemma SamuelsonAlgebra(k: real, n: real, d: real, q: real, v: real)
    requires k >= 0.0 && n == k + 1.0 && v * n == q + d * d && SquareWithin(d, k, q)
    ensures SquareWithin(d, k, v)
  {
    var dd := d * d;
    var gap := k * v - dd;
    assert n * gap == k * (v * n) - n * dd;
    assert k * (q + dd) == k * q + k * dd;
    assert n * dd == k * dd + dd;
    ScaledSign(n, gap);
  }

  // ----- the loops -----

  method SumOf(vals: seq<real>) returns (s: real)
    ensures s == Sum(vals)
  {
    s := 0.0;
    for i := 0 to |vals|
      invariant s == Sum(vals[..i])
    {
      assert vals[..i + 1][..i] == vals[..i];
      s := s + vals[i];
    }
    assert vals[..|vals|] == vals;
  }

  method VarianceOf(vals: seq<real>) returns (v: real)
    ensures v == Variance(vals)
  {
    if |vals| < 2 { return 0.0; }
    var total := SumOf(vals);
    var m := total / (|vals| as real);
    var sumSq := 0.0;
    for i := 0 to |vals|
      invariant sumSq == Spread(vals[..i], m)
    {
      assert vals[..i + 1][..i] == vals[..i];
      var d := vals[i] - m;
      sumSq := sumSq + d * d;
    }
    assert vals[..|vals|] == vals;
    return sumSq / (|vals| as real);
  }

  /** The sliding sum: every entry is the mean of its own window, although only the
      first window is summed from scratch. */
  method SMA(vals: seq<real>, window: int) returns (result: seq<real>)
    ensures window < 1 || |vals| < window ==> result == []
    ensures 1 <= window <= |vals| ==>
              |result| == |vals| - window + 1 &&
              forall i :: 0 <= i < |result| ==> result[i] == Mean(vals[i..i + window])
  {
    if window < 1 || |vals| < window { return []; }
    var sum := 0.0;
    for i := 0 to window
      invariant sum == Sum(vals[..i])
    {
      assert vals[..i + 1][..i] == vals[..i];
      sum := sum + vals[i];
    }
    assert vals[0..window] == vals[..window];
    result := [sum / (window as real)];
    for i := window to |vals|
      invariant sum == Sum(vals[i - window..i])
      invariant |result| == i - window + 1 && AveragesOf(result, vals, window)
    {
      SlideWindow(vals, i - window, i);
      sum := sum + (vals[i] - vals[i - window]);
      NextAverage(result, vals, window, sum);
      result := result + [sum / (window as real)];
    }
  }

  /** Each average is that of its own window. */
  ghost predicate AveragesOf(averages: seq<real>, vals: seq<real>, window: nat)
    requires |averages| + window <= |vals| + 1
  {
    forall k :: 0 <= k < |averages| ==> averages[k] == Mean(vals[k..k + window])
  }

  lemma NextAverage(averages: seq<real>, vals: seq<real>, window: nat, sum: real)
    requires window >= 1 && |averages| + window <= |vals| && AveragesOf(averages, vals, window)
    requires sum == Sum(vals[|averages|..|averages| + window])
    ensures AveragesOf(averages + [sum / (window as real)], vals, window)
  {
  }

  lemma SlideWindow(vals: seq<real>, lo: nat, hi: nat)
    requires lo < hi < |vals|
    ensures Sum(vals[lo + 1..hi + 1]) == Sum(vals[lo..hi]) + vals[hi] - vals[lo]
  {
    assert vals[lo..hi] == [vals[lo]] + vals[lo + 1..hi];
    SumConcat([vals[lo]], vals[lo + 1..hi]);
    assert Sum([vals[lo]]) == vals[lo] by { assert [vals[lo]][..0] == []; }
    assert vals[lo + 1..hi + 1][..hi - lo - 1] == vals[lo + 1..hi];
  }
}
