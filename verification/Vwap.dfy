/** Volume-weighted prices and the volume breakout test
    (src/analysts/quantitative/indicators/vwap.go and volume.go). */
module Vwap {
  import opened Reals
  import opened Stats
  import opened Candles

  /** The sum of price times volume. */
  function PriceVolume(prices: seq<real>, volumes: seq<int>): real
    requires |prices| == |volumes|
  {
    if prices == [] then 0.0
    else
      var last := |prices| - 1;
      PriceVolume(prices[..last], volumes[..last]) + prices[last] * (volumes[last] as real)
  }

  function Volume(volumes: seq<int>): real {
    if volumes == [] then 0.0 else Volume(volumes[..|volumes| - 1]) + (volumes[|volumes| - 1] as real)
  }

  datatype Result = Result(vwap: real, totalVolume: real, priceVolume: real, valid: bool)

  const INVALID := Result(0.0, 0.0, 0.0, false)

  function VwapOf(prices: seq<real>, volumes: seq<int>): Result {
    if |prices| == 0 || |prices| != |volumes| || Volume(volumes) == 0.0 then INVALID
    else Result(PriceVolume(prices, volumes) / Volume(volumes), Volume(volumes), PriceVolume(prices, volumes), true)
  }

  function Closes(cs: seq<Candle>): seq<real> { seq(|cs|, i requires 0 <= i < |cs| => cs[i].close) }

  function CandleVolumes(cs: seq<Candle>): seq<int> { seq(|cs|, i requires 0 <= i < |cs| => cs[i].volume) }

  function Products(prices: seq<real>, volumes: seq<int>): seq<real>
    requires |prices| == |volumes|
  {
    seq(|prices|, i requires 0 <= i < |prices| => prices[i] * (volumes[i] as real))
  }

  /** The VWAP times the summed volumes is the sum of price times volume, trade by trade. */
  lemma VwapWeighsEachTrade(prices: seq<real>, volumes: seq<int>)
    ensures var r := VwapOf(prices, volumes);
            && (r.valid <==> |prices| == |volumes| > 0 && Sum(AsReals(volumes)) != 0.0)
            && (r.valid ==> r.vwap * Sum(AsReals(volumes)) == Sum(Products(prices, volumes)))
  {
    VolumeIsSum(volumes);
    if |prices| == |volumes| { PriceVolumeIsSum(prices, volumes); }
  }

  lemma {:induction false} VolumeIsSum(volumes: seq<int>)
    ensures Volume(volumes) == Sum(AsReals(volumes))
  {
    if volumes != [] {
      VolumeIsSum(volumes[..|volumes| - 1]);
      assert AsReals(volumes)[..|volumes| - 1] == AsReals(volumes[..|volumes| - 1]);
    }
  }

  lemma {:induction false} PriceVolumeIsSum(prices: seq<real>, volumes: seq<int>)
    requires |prices| == |volumes|
    ensures PriceVolume(prices, volumes) == Sum(Products(prices, volumes))
  {
    if prices != [] {
      var last := |prices| - 1;
      PriceVolumeIsSum(prices[..last], volumes[..last]);
      var all, front := Products(prices, volumes), Products(prices[..last], volumes[..last]);
      assert forall i :: 0 <= i < last ==> all[i] == prices[i] * (volumes[i] as real) == front[i];
      assert all[..last] == front;
    }
  }

  /** For nonnegative volumes a valid VWAP lies between any bounds on the prices. */
  lemma VwapIsAnAverage(prices: seq<real>, volumes: seq<int>, lo: real, hi: real)
    requires VwapOf(prices, volumes).valid
    requires forall i :: 0 <= i < |volumes| ==> volumes[i] >= 0
    requires forall i :: 0 <= i < |prices| ==> lo <= prices[i] <= hi
    ensures lo <= VwapOf(prices, volumes).vwap <= hi
  {
    Weighted(prices, volumes, lo, hi);
    var v, pv := Volume(volumes), PriceVolume(prices, volumes);
    AverageBounds(pv, v, lo, hi);
  }

  lemma AverageBounds(pv: real, v: real, lo: real, hi: real)
    requires v > 0.0 && lo * v <= pv <= hi * v
    ensures lo <= pv / v <= hi
  {
    var q := pv / v;
    assert q * v == pv;
    assert v * (q - lo) == q * v - lo * v;
    assert v * (hi - q) == hi * v - q * v;
    ScaledSign(v, q - lo);
    ScaledSign(v, hi - q);
  }

  lemma {:induction false} Weighted(prices: seq<real>, volumes: seq<int>, lo: real, hi: real)
    requires |prices| == |volumes|
    requires forall i :: 0 <= i < |volumes| ==> volumes[i] >= 0
    requires forall i :: 0 <= i < |prices| ==> lo <= prices[i] <= hi
    ensures lo * Volume(volumes) <= PriceVolume(prices, volumes) <= hi * Volume(volumes)
    ensures Volume(volumes) >= 0.0
  {
    if prices != [] {
      var last := |prices| - 1;
      Weighted(prices[..last], volumes[..last], lo, hi);
      var v, p, total := volumes[last] as real, prices[last], Volume(volumes[..last]);
      ProductNonnegative(p - lo, v);
      ProductNonnegative(hi - p, v);
      assert (p - lo) * v == p * v - lo * v && (hi - p) * v == hi * v - p * v;
      assert lo * (total + v) == lo * total + lo * v && hi * (total + v) == hi * total + hi * v;
    }
  }

  method VWAP(prices: seq<real>, volumes: seq<int>) returns (r: Result)
    ensures r == VwapOf(prices, volumes)
  {
    if |prices| == 0 || |volumes| == 0 || |prices| != |volumes| { return INVALID; }
    var pvSum, volSum := 0.0, 0.0;
    for i := 0 to |prices|
      invariant pvSum == PriceVolume(prices[..i], volumes[..i]) && volSum == Volume(volumes[..i])
    {
      assert prices[..i + 1][..i] == prices[..i] && volumes[..i + 1][..i] == volumes[..i];
      var v := volumes[i] as real;
      pvSum := pvSum + prices[i] * v;
      volSum := volSum + v;
    }
    assert prices[..|prices|] == prices && volumes[..|volumes|] == volumes;
    if volSum == 0.0 { return INVALID; }
    return Result(pvSum / volSum, volSum, pvSum, true);
  }

  method VWAPFromCandles(cs: seq<Candle>) returns (r: Result)
    ensures r == VwapOf(Closes(cs), CandleVolumes(cs))
  {
    if |cs| == 0 { return INVALID; }
    var prices, volumes := [], [];
    for i := 0 to |cs|
      invariant |prices| == |volumes| == i
      invariant forall k :: 0 <= k < i ==> prices[k] == cs[k].close && volumes[k] == cs[k].volume
    {
      prices, volumes := prices + [cs[i].close], volumes + [cs[i].volume];
    }
    assert prices == Closes(cs) && volumes == CandleVolumes(cs);
    r := VWAP(prices, volumes);
  }

  /** The incremental form. */
  class CumulativeVWAP {
    var pvSum: real
    var vSum: real
    ghost var prices: seq<real>
    ghost var volumes: seq<int>

    /** The two sums are those of everything added so far. */
    ghost predicate Valid() reads this {
      |prices| == |volumes| && pvSum == PriceVolume(prices, volumes) && vSum == Volume(volumes)
    }

    constructor ()
      ensures Valid() && prices == [] && volumes == []
    {
      pvSum, vSum := 0.0, 0.0;
      prices, volumes := [], [];
    }

    /** After any number of additions the running value is the batch VWAP of them all,
        and zero exactly where the batch form is not valid. */
    method Add(price: real, volume: int) returns (value: real)
      requires Valid()
      modifies this
      ensures Valid() && prices == old(prices) + [price] && volumes == old(volumes) + [volume]
      ensures value == VwapOf(prices, volumes).vwap
    {
      assert (prices + [price])[..|prices|] == prices && (volumes + [volume])[..|volumes|] == volumes;
      var v := volume as real;
      pvSum := pvSum + price * v;
      vSum := vSum + v;
      prices, volumes := prices + [price], volumes + [volume];
      if vSum == 0.0 { return 0.0; }
      return pvSum / vSum;
    }

    method Value() returns (value: real)
      requires Valid()
      ensures value == VwapOf(prices, volumes).vwap
    {
      if vSum == 0.0 { return 0.0; }
      return pvSum / vSum;
    }
  }

  // ----- volume breakout -----

  datatype VolumeResult = VolumeResult(isBreakout: bool, current: int, sma: real, ratio: real)

  function AsReals(volumes: seq<int>): seq<real> {
    seq(|volumes|, i requires 0 <= i < |volumes| => volumes[i] as real)
  }

  /** The volumes the newest one is compared with: up to `window` of those before it. */
  function Baseline(volumes: seq<int>, window: nat): seq<real>
    requires |volumes| >= 1
  {
    var last := |volumes| - 1;
    AsReals(volumes[(if last > window then last - window else 0)..last])
  }

  function VolumeBreakoutOf(volumes: seq<int>, window: int, threshold: real): VolumeResult {
    if |volumes| < 2 || window < 1 || threshold <= 0.0 then VolumeResult(false, 0, 0.0, 0.0)
    else
      var current, sma := volumes[|volumes| - 1], Mean(Baseline(volumes, window));
      if sma == 0.0 then VolumeResult(false, current, 0.0, 0.0)
      else VolumeResult(current as real / sma >= threshold, current, sma, current as real / sma)
  }

  /** The documented baseline is every volume but the newest; the code uses it exactly when
      the history is no longer than the window. */
  lemma BaselineIsWholeHistoryExactlyWhen(volumes: seq<int>, window: nat)
    requires |volumes| >= 1
    ensures Baseline(volumes, window) == AsReals(volumes[..|volumes| - 1]) <==> |volumes| - 1 <= window
  {
    assert |Baseline(volumes, window)| == if |volumes| - 1 <= window then |volumes| - 1 else window;
    assert volumes[0..|volumes| - 1] == volumes[..|volumes| - 1];
  }

  /** A history shorter than the window is documented as no breakout, but is tested. */
  lemma ShortHistoryCanBreakOut(window: int)
    requires window > 1
    ensures VolumeBreakoutOf([1, 3], window, 2.0).isBreakout
  {
    var volumes := [1, 3];
    assert volumes[0..1] == [1] && AsReals([1]) == [1.0];
    assert [1.0][..0] == [];
    assert Mean(Baseline(volumes, window)) == 1.0;
  }

  /** The baseline holds the volumes just before the newest one, at most `window` of them. */
  lemma BaselineIsTheLastFew(volumes: seq<int>, window: nat)
    requires |volumes| >= 1
    ensures var b, n := Baseline(volumes, window), |volumes|;
            && |b| == (if n - 1 < window then n - 1 else window)
            && forall j :: 0 <= j < |b| ==> b[j] == volumes[n - 1 - |b| + j] as real
  {
  }

  /** The newest volume is a breakout exactly when it reaches the threshold times the mean of
      the baseline; a zero mean or arguments out of range never are. */
  lemma BreakoutComparesWithBaseline(volumes: seq<int>, window: int, threshold: real)
    ensures var r := VolumeBreakoutOf(volumes, window, threshold);
            && (|volumes| < 2 || window < 1 || threshold <= 0.0 ==> !r.isBreakout)
            && (|volumes| >= 2 && window >= 1 && threshold > 0.0 ==>
                  Compared(r, volumes[|volumes| - 1], Mean(Baseline(volumes, window)), threshold))
  {
    if |volumes| >= 2 && window >= 1 && threshold > 0.0 {
      RatioCompared(volumes[|volumes| - 1], Mean(Baseline(volumes, window)), threshold);
    }
  }

  predicate Compared(r: VolumeResult, current: int, mean: real, threshold: real) {
    && r.current == current && r.sma == mean
    && (mean == 0.0 ==> !r.isBreakout && r.ratio == 0.0)
    && (mean != 0.0 ==> r.ratio * mean == current as real)
    && (mean > 0.0 ==> (r.isBreakout <==> current as real >= threshold * mean))
    && (mean < 0.0 ==> (r.isBreakout <==> current as real <= threshold * mean))
  }

  lemma RatioCompared(current: int, mean: real, threshold: real)
    requires threshold > 0.0
    ensures mean != 0.0 ==>
              Compared(VolumeResult(current as real / mean >= threshold, current, mean, current as real / mean),
                       current, mean, threshold)
  {
    if mean != 0.0 {
      var ratio := current as real / mean;
      assert ratio * mean == current as real;
      OrderedTimes(ratio, threshold, mean);
    }
  }

  lemma OrderedTimes(a: real, b: real, k: real)
    ensures k > 0.0 ==> (a >= b <==> a * k >= b * k)
    ensures k < 0.0 ==> (a >= b <==> a * k <= b * k)
  {
    assert (a - b) * k == a * k - b * k && (b - a) * k == b * k - a * k;
    if k > 0.0 {
      if a >= b { ProductNonnegative(a - b, k); } else { ProductPositive(b - a, k); }
    }
    if k < 0.0 {
      assert (a - b) * -k == -((a - b) * k) && (b - a) * -k == -((b - a) * k);
      if a >= b { ProductNonnegative(a - b, -k); } else { ProductPositive(b - a, -k); }
    }
  }

  method VolumeBreakout(volumes: seq<int>, window: int, threshold: real) returns (r: VolumeResult)
    ensures r == VolumeBreakoutOf(volumes, window, threshold)
  {
    if |volumes| < 2 || window < 1 || threshold <= 0.0 { return VolumeResult(false, 0, 0.0, 0.0); }
    var current := volumes[|volumes| - 1];
    var lookback := |volumes| - 1;
    if lookback > window { lookback := window; }
    var baseline := [];
    for i := 0 to lookback
      invariant |baseline| == i
      invariant forall k :: 0 <= k < i ==> baseline[k] == volumes[|volumes| - 1 - lookback + k] as real
    {
      baseline := baseline + [volumes[|volumes| - 1 - lookback + i] as real];
    }
    assert baseline == Baseline(volumes, window);
    var sum := SumOf(baseline);
    var sma := sum / (|baseline| as real);
    if sma == 0.0 { return VolumeResult(false, current, 0.0, 0.0); }
    return VolumeResult(current as real / sma >= threshold, current, sma, current as real / sma);
  }
}
