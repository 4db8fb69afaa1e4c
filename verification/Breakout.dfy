/** The breakout rule (src/analysts/quantitative/breakout.go, evaluate), and the one
    configuration parameter that decides whether it can ever signal. */
module Breakout {
  import opened Models
  import opened Reals
  import opened Stats
  import opened TickStore
  import opened Candles
  import opened Bollinger
  import opened Vwap

  datatype Config = Config(period: int, multiplier: real, volumeWindow: int, threshold: real, candleDuration: int)

  const DEFAULT_CONFIG := Config(20, 2.0, 10, 2.0, 60_000_000_000)

  function Recent<T>(s: seq<T>, n: int): seq<T> {
    if n <= 0 then [] else Last(s, n)
  }

  /** sd is what the square root returned on the variance of the price window. */
  ghost predicate RootOfWindow(ts: seq<Tick>, cfg: Config, sd: real) {
    var prices := Recent(Prices(ts), cfg.period);
    2 <= cfg.period <= |prices| ==> IsSqrt(sd, Variance(Window(prices, cfg.period)))
  }

  /** evaluate as a function of the stored ticks. */
  function Signal(symbol: string, ts: seq<Tick>, cfg: Config, sd: real): Option<TradeIntent>
    requires ts != [] ==> cfg.candleDuration != 0
  {
    if ts == [] then None
    else
      var cs := CandlesOf(ts, cfg.candleDuration);
      var vwap := VwapOf(Closes(cs), CandleVolumes(cs));
      var prices, volumes := Recent(Prices(ts), cfg.period), Recent(Volumes(ts), cfg.volumeWindow + 1);
      if |cs| < 2 || !vwap.valid || !(2 <= cfg.period <= |prices|) || |volumes| < cfg.volumeWindow + 1 then None
      else
        Decide(symbol, cs[|cs| - 1].close, vwap.vwap,
               BandsOf(Window(prices, cfg.period), cfg.multiplier, sd),
               VolumeBreakoutOf(volumes, cfg.volumeWindow, cfg.threshold))
  }

  function Decide(symbol: string, close: real, vwap: real, bands: Bands, volume: VolumeResult): Option<TradeIntent> {
    if close > vwap && volume.isBreakout && close > bands.upper
    then Some(TradeIntent(symbol, Long, close, vwap, volume.ratio, SCOUT_REASON))
    else if close < vwap && volume.isBreakout && close < bands.lower
    then Some(TradeIntent(symbol, Short, close, vwap, volume.ratio, SCOUT_REASON))
    else None
  }

  method Evaluate(symbol: string, store: TickStore, cfg: Config, sd: real) returns (intent: Option<TradeIntent>)
    requires store.Valid() && (store.history != [] ==> cfg.candleDuration != 0)
    requires RootOfWindow(Last(store.history, store.size), cfg, sd)
    ensures intent == Signal(symbol, Last(store.history, store.size), cfg, sd)
  {
    ghost var ts := Last(store.history, store.size);
    var cs := CandlesFromStore(store, cfg.candleDuration);
    if |cs| < 2 { return None; }
    var last := cs[|cs| - 1];
    var vwap := VWAPFromCandles(cs);
    if !vwap.valid { return None; }
    var prices := store.RecentPrices(cfg.period);
    if |prices| < cfg.period { return None; }
    var bands := BollingerBands(prices, cfg.period, cfg.multiplier, sd);
    if bands.None? { return None; }
    var volumes := store.RecentVolumes(cfg.volumeWindow + 1);
    if |volumes| < cfg.volumeWindow + 1 { return None; }
    var volume := VolumeBreakout(volumes, cfg.volumeWindow, cfg.threshold);
    SignalDecides(symbol, ts, cfg, sd);
    intent := Conclude(symbol, last.close, vwap.vwap, bands.value, volume);
  }

  /** The branches that end evaluate. */
  method Conclude(symbol: string, close: real, vwap: real, bands: Bands, volume: VolumeResult)
    returns (intent: Option<TradeIntent>)
    ensures intent == Decide(symbol, close, vwap, bands, volume)
  {
    var up, down := close > vwap, close < vwap;
    if up && volume.isBreakout && close > bands.upper {
      return Some(TradeIntent(symbol, Long, close, vwap, volume.ratio, SCOUT_REASON));
    }
    if down && volume.isBreakout && close < bands.lower {
      return Some(TradeIntent(symbol, Short, close, vwap, volume.ratio, SCOUT_REASON));
    }
    return None;
  }

  /** Past the guards, the rule is the decision. */
  lemma SignalDecides(symbol: string, ts: seq<Tick>, cfg: Config, sd: real)
    requires ts != [] && cfg.candleDuration != 0
    requires var cs := CandlesOf(ts, cfg.candleDuration); |cs| >= 2 && VwapOf(Closes(cs), CandleVolumes(cs)).valid
    requires 2 <= cfg.period <= |Recent(Prices(ts), cfg.period)|
    requires |Recent(Volumes(ts), cfg.volumeWindow + 1)| >= cfg.volumeWindow + 1
    ensures var cs := CandlesOf(ts, cfg.candleDuration);
            Signal(symbol, ts, cfg, sd) ==
              Decide(symbol, cs[|cs| - 1].close, VwapOf(Closes(cs), CandleVolumes(cs)).vwap,
                     BandsOf(Window(Recent(Prices(ts), cfg.period), cfg.period), cfg.multiplier, sd),
                     VolumeBreakoutOf(Recent(Volumes(ts), cfg.volumeWindow + 1), cfg.volumeWindow, cfg.threshold))
  {
  }

  /** Samuelson's verdict on the rule: the close it tests is the newest price of the
      very window the bands are computed from, so once the multiplier reaches
      sqrt(period - 1) no history whatsoever produces an intent. */
  lemma WideBandsNeverSignal(symbol: string, ts: seq<Tick>, cfg: Config, sd: real)
    requires ts != [] ==> cfg.candleDuration != 0
    requires RootOfWindow(ts, cfg, sd)
    requires cfg.multiplier >= 0.0 && cfg.multiplier * cfg.multiplier >= (cfg.period - 1) as real
    ensures Signal(symbol, ts, cfg, sd) == None
  {
    var prices := Recent(Prices(ts), cfg.period);
    if ts != [] && 2 <= cfg.period <= |prices| {
      LastCloseIsNewestPrice(ts, cfg.candleDuration);
      var cs := CandlesOf(ts, cfg.candleDuration);
      var close, bands := cs[|cs| - 1].close, BandsOf(Window(prices, cfg.period), cfg.multiplier, sd);
      assert bands.lower <= close <= bands.upper by {
        assert Window(prices, cfg.period) == prices && prices[|prices| - 1] == ts[|ts| - 1].price;
        NewestInsideWideBands(prices, cfg.multiplier, sd);
      }
      InsideBandsDecidesNothing(symbol, ts, cfg, sd, close, bands);
    }
  }

  lemma InsideBandsDecidesNothing(symbol: string, ts: seq<Tick>, cfg: Config, sd: real, close: real, bands: Bands)
    requires ts != [] && cfg.candleDuration != 0
    requires var prices := Recent(Prices(ts), cfg.period);
             2 <= cfg.period <= |prices| && bands == BandsOf(Window(prices, cfg.period), cfg.multiplier, sd)
    requires var cs := CandlesOf(ts, cfg.candleDuration); cs != [] && close == cs[|cs| - 1].close
    requires bands.lower <= close <= bands.upper
    ensures Signal(symbol, ts, cfg, sd) == None
  {
  }

  // ----- what an intent says -----

  /** The guards of evaluate: two candles, a valid VWAP, a full window of prices and of volumes. */
  predicate Ready(ts: seq<Tick>, cfg: Config)
    requires ts != [] ==> cfg.candleDuration != 0
  {
    && ts != [] && |CandlesOf(ts, cfg.candleDuration)| >= 2
    && VwapOfTicks(ts, cfg).valid
    && 2 <= cfg.period <= |ts| && cfg.volumeWindow < |ts|
  }

  function VwapOfTicks(ts: seq<Tick>, cfg: Config): Vwap.Result
    requires cfg.candleDuration != 0
  {
    var cs := CandlesOf(ts, cfg.candleDuration);
    VwapOf(Closes(cs), CandleVolumes(cs))
  }

  function VolumeTest(ts: seq<Tick>, cfg: Config): VolumeResult {
    VolumeBreakoutOf(Recent(Volumes(ts), cfg.volumeWindow + 1), cfg.volumeWindow, cfg.threshold)
  }

  /** LONG exactly when the price lies above the VWAP and the upper band, SHORT exactly when
      below the VWAP and the lower band, each with a volume breakout; and an intent carries
      the symbol, the price, the VWAP and the ratio. */
  predicate Says(t: Option<TradeIntent>, ready: bool, symbol: string, price: real, vwap: real,
                 upper: real, lower: real, volume: VolumeResult)
  {
    && (t.Some? && t.value.side == Long <==> ready && volume.isBreakout && price > vwap && price > upper)
    && (t.Some? && t.value.side == Short <==> ready && volume.isBreakout && price < vwap && price < lower)
    && (t.Some? ==>
          && t.value.ticker == symbol && t.value.currentPrice == price && t.value.vwap == vwap
          && t.value.volumeRatio == volume.ratio
          && t.value.signalReason == "VWAP_breakout_plus_volume_plus_BB")
  }

  /** The rule over ticks: the price is the newest one, and the bands are those of the last
      `period` prices. */
  lemma IntentExactlyWhen(symbol: string, ts: seq<Tick>, cfg: Config, sd: real)
    requires ts != [] && cfg.candleDuration != 0
    ensures var window := Recent(Prices(ts), cfg.period);
            Says(Signal(symbol, ts, cfg, sd), Ready(ts, cfg), symbol, ts[|ts| - 1].price, VwapOfTicks(ts, cfg).vwap,
                 Mean(window) + cfg.multiplier * sd, Mean(window) - cfg.multiplier * sd, VolumeTest(ts, cfg))
  {
    if Ready(ts, cfg) { ReadySays(symbol, ts, cfg, sd); } else { UnreadySays(symbol, ts, cfg, sd); }
  }

  lemma ReadySays(symbol: string, ts: seq<Tick>, cfg: Config, sd: real)
    requires ts != [] && cfg.candleDuration != 0 && Ready(ts, cfg)
    ensures var window := Recent(Prices(ts), cfg.period);
            Says(Signal(symbol, ts, cfg, sd), true, symbol, ts[|ts| - 1].price, VwapOfTicks(ts, cfg).vwap,
                 Mean(window) + cfg.multiplier * sd, Mean(window) - cfg.multiplier * sd, VolumeTest(ts, cfg))
  {
    ReadyDecides(symbol, ts, cfg, sd);
    DecidedSays(symbol, ts, cfg, sd, ts[|ts| - 1].price, VwapOfTicks(ts, cfg).vwap,
                Recent(Prices(ts), cfg.period), VolumeTest(ts, cfg));
  }

  lemma DecidedSays(symbol: string, ts: seq<Tick>, cfg: Config, sd: real, price: real, vwap: real, window: seq<real>,
                    volume: VolumeResult)
    requires ts != [] ==> cfg.candleDuration != 0
    requires Signal(symbol, ts, cfg, sd) == Decide(symbol, price, vwap, BandsOf(window, cfg.multiplier, sd), volume)
    ensures Says(Signal(symbol, ts, cfg, sd), true, symbol, price, vwap,
                 Mean(window) + cfg.multiplier * sd, Mean(window) - cfg.multiplier * sd, volume)
  {
    DecisionSays(symbol, price, vwap, window, cfg.multiplier, sd, volume);
  }

  lemma UnreadySays(symbol: string, ts: seq<Tick>, cfg: Config, sd: real)
    requires ts != [] && cfg.candleDuration != 0 && !Ready(ts, cfg)
    ensures var window := Recent(Prices(ts), cfg.period);
            Says(Signal(symbol, ts, cfg, sd), false, symbol, ts[|ts| - 1].price, VwapOfTicks(ts, cfg).vwap,
                 Mean(window) + cfg.multiplier * sd, Mean(window) - cfg.multiplier * sd, VolumeTest(ts, cfg))
  {
    UnreadySaysNothing(symbol, ts, cfg, sd);
  }

  lemma DecisionSays(symbol: string, price: real, vwap: real, window: seq<real>, k: real, sd: real,
                     volume: VolumeResult)
    ensures Says(Decide(symbol, price, vwap, BandsOf(window, k, sd), volume), true, symbol, price, vwap,
                 Mean(window) + k * sd, Mean(window) - k * sd, volume)
  {
  }

  lemma UnreadySaysNothing(symbol: string, ts: seq<Tick>, cfg: Config, sd: real)
    requires (ts != [] ==> cfg.candleDuration != 0) && !Ready(ts, cfg)
    ensures Signal(symbol, ts, cfg, sd) == None
  {
    var prices, volumes := Recent(Prices(ts), cfg.period), Recent(Volumes(ts), cfg.volumeWindow + 1);
    assert 2 <= cfg.period <= |prices| ==> cfg.period <= |ts|;
    assert |volumes| >= cfg.volumeWindow + 1 && ts != [] ==> cfg.volumeWindow < |ts|;
  }

  lemma ReadyDecides(symbol: string, ts: seq<Tick>, cfg: Config, sd: real)
    requires ts != [] && cfg.candleDuration != 0 && Ready(ts, cfg)
    ensures Signal(symbol, ts, cfg, sd) ==
              Decide(symbol, ts[|ts| - 1].price, VwapOfTicks(ts, cfg).vwap,
                     BandsOf(Recent(Prices(ts), cfg.period), cfg.multiplier, sd), VolumeTest(ts, cfg))
  {
    LastCloseIsNewestPrice(ts, cfg.candleDuration);
    var prices := Recent(Prices(ts), cfg.period);
    assert |prices| == cfg.period && Window(prices, cfg.period) == prices;
    assert |Recent(Volumes(ts), cfg.volumeWindow + 1)| >= cfg.volumeWindow + 1;
    SignalDecides(symbol, ts, cfg, sd);
  }

  /** The VWAP of the candles lies between any bounds on the prices of the ticks, so a LONG
      intent is never at the lowest price and a SHORT one never at the highest. */
  lemma VwapWithinPrices(ts: seq<Tick>, cfg: Config, lo: real, hi: real)
    requires ts != [] && cfg.candleDuration != 0 && VwapOfTicks(ts, cfg).valid
    requires forall i :: 0 <= i < |ts| ==> lo <= ts[i].price <= hi && ts[i].volume >= 0
    ensures lo <= VwapOfTicks(ts, cfg).vwap <= hi
  {
    var cs := CandlesOf(ts, cfg.candleDuration);
    CandlesWithin(ts, cfg.candleDuration, lo, hi);
    VwapIsAnAverage(Closes(cs), CandleVolumes(cs), lo, hi);
  }

  lemma CandlesWithin(ts: seq<Tick>, dur: int, lo: real, hi: real)
    requires dur != 0
    requires forall i :: 0 <= i < |ts| ==> lo <= ts[i].price <= hi && ts[i].volume >= 0
    ensures forall r :: 0 <= r < |CandlesOf(ts, dur)| ==>
              lo <= CandlesOf(ts, dur)[r].close <= hi && CandlesOf(ts, dur)[r].volume >= 0
  {
    var runs := Runs(ts, BucketBy(dur));
    RunsAreMaximal(ts, BucketBy(dur));
    RunsWithin(runs, lo, hi);
  }

  ghost predicate TicksWithin(ts: seq<Tick>, lo: real, hi: real) {
    forall i :: 0 <= i < |ts| ==> lo <= ts[i].price <= hi && ts[i].volume >= 0
  }

  lemma {:induction false} RunsWithin(runs: seq<seq<Tick>>, lo: real, hi: real)
    requires (forall r :: 0 <= r < |runs| ==> runs[r] != []) && TicksWithin(Flatten(runs), lo, hi)
    ensures forall r :: 0 <= r < |runs| ==> lo <= CandleOf(runs[r]).close <= hi && CandleOf(runs[r]).volume >= 0
  {
    if runs != [] {
      var last := |runs| - 1;
      var before, run := Flatten(runs[..last]), runs[last];
      assert Flatten(runs) == before + run;
      assert forall i :: 0 <= i < |before| ==> Flatten(runs)[i] == before[i];
      assert forall i :: 0 <= i < |run| ==> Flatten(runs)[|before| + i] == run[i];
      RunsWithin(runs[..last], lo, hi);
      CandleSummarisesRun(run);
      NonnegativeVolume(run);
    }
  }

  lemma {:induction false} NonnegativeVolume(ts: seq<Tick>)
    requires forall i :: 0 <= i < |ts| ==> ts[i].volume >= 0
    ensures TotalVolume(ts) >= 0
  {
    if ts != [] { NonnegativeVolume(ts[..|ts| - 1]); }
  }

  // ----- the bound is sharp, in both directions -----

  function Base(up: bool): real { if up then 1.0 else 2.0 }

  function Top(up: bool): real { if up then 2.0 else 1.0 }

  /** Quiet ticks in one bucket, then one jump, up or down, in the next with enough volume. */
  function Quiet(n: nat, price: real): seq<Tick> { seq(n, _ => Tick(price, 1, 0)) }

  function Jump(cfg: Config, up: bool): Tick {
    Tick(Top(up), (if cfg.threshold > 1.0 then cfg.threshold.Floor + 1 else 1), cfg.candleDuration)
  }

  function SpikeLength(cfg: Config): int {
    if cfg.period - 1 > cfg.volumeWindow then cfg.period - 1 else cfg.volumeWindow
  }

  function Spike(cfg: Config, up: bool): seq<Tick>
    requires cfg.period >= 2
  {
    Quiet(SpikeLength(cfg), Base(up)) + [Jump(cfg, up)]
  }

  predicate Usable(cfg: Config) {
    cfg.period >= 2 && cfg.multiplier >= 0.0 && cfg.volumeWindow >= 1 && cfg.threshold > 0.0 && cfg.candleDuration > 0
  }

  /** A usable configuration signals on the spike exactly when its multiplier is below
      sqrt(period - 1), LONG at 2 on the upward one and SHORT at 1 on the downward one; with
      WideBandsNeverSignal, it can signal at all exactly then. */
  lemma SpikeSignalsExactlyWhen(symbol: string, cfg: Config, sd: real, up: bool)
    requires Usable(cfg) && RootOfWindow(Spike(cfg, up), cfg, sd)
    ensures Signal(symbol, Spike(cfg, up), cfg, sd).Some? <==>
            cfg.multiplier * cfg.multiplier < (cfg.period - 1) as real
    ensures Signal(symbol, Spike(cfg, up), cfg, sd).Some? ==>
              var intent := Signal(symbol, Spike(cfg, up), cfg, sd).value;
              && intent.ticker == symbol && intent.side == (if up then Long else Short)
              && intent.currentPrice == (if up then 2.0 else 1.0)
  {
    if cfg.multiplier * cfg.multiplier >= (cfg.period - 1) as real {
      WideBandsNeverSignal(symbol, Spike(cfg, up), cfg, sd);
    } else {
      SpikeSignals(symbol, cfg, sd, up);
    }
  }

  lemma SpikeSignals(symbol: string, cfg: Config, sd: real, up: bool)
    requires Usable(cfg) && RootOfWindow(Spike(cfg, up), cfg, sd)
    requires cfg.multiplier * cfg.multiplier < (cfg.period - 1) as real
    ensures var t := Signal(symbol, Spike(cfg, up), cfg, sd);
            && t.Some? && t.value.ticker == symbol && t.value.side == (if up then Long else Short)
            && t.value.currentPrice == Top(up)
  {
    var ts := Spike(cfg, up);
    SpikeVwap(cfg, up);
    SpikeVolume(cfg, up);
    SpikeBands(cfg, sd, up);
    assert |Recent(Prices(ts), cfg.period)| == cfg.period;
    assert |Recent(Volumes(ts), cfg.volumeWindow + 1)| == cfg.volumeWindow + 1;
    SignalDecides(symbol, ts, cfg, sd);
  }

  lemma SpikeCandles(cfg: Config, up: bool)
    requires Usable(cfg)
    ensures var cs, n := CandlesOf(Spike(cfg, up), cfg.candleDuration), SpikeLength(cfg);
            && |cs| == 2 && cs[0].close == Base(up) && cs[0].volume == n
            && cs[1].close == Top(up) && cs[1].volume == Jump(cfg, up).volume
  {
    var n := SpikeLength(cfg);
    OwnBucket(cfg.candleDuration);
    TwoCandles(Quiet(n, Base(up)), Jump(cfg, up), cfg.candleDuration);
    CandleSummarisesRun(Quiet(n, Base(up)));
    QuietVolume(n, Base(up));
  }

  /** A run in one bucket and a tick in another make two candles. */
  lemma TwoCandles(run: seq<Tick>, t: Tick, dur: int)
    requires dur != 0 && run != [] && BucketBy(dur)(run[0]) != BucketBy(dur)(t)
    requires forall i :: 0 <= i < |run| ==> BucketBy(dur)(run[i]) == BucketBy(dur)(run[0])
    ensures CandlesOf(run + [t], dur) == [CandleOf(run), First(t)]
  {
    TwoRuns(run, t, BucketBy(dur));
    AggregateTwo(run, t);
    RunsAreMaximal(run + [t], BucketBy(dur));
  }

  lemma AggregateTwo(run: seq<Tick>, t: Tick)
    requires run != []
    ensures Aggregate([run, [t]]) == [CandleOf(run), First(t)]
  {
  }

  lemma TwoRuns(run: seq<Tick>, t: Tick, key: Tick -> int)
    requires run != [] && key(run[0]) != key(t) && forall i :: 0 <= i < |run| ==> key(run[i]) == key(run[0])
    ensures Runs(run + [t], key) == [run, [t]]
  {
    OneRun(run, key);
    RunsSnoc(run, t, key);
    NewRun(run, t, key);
  }

  lemma NewRun(run: seq<Tick>, t: Tick, key: Tick -> int)
    requires run != [] && key(run[0]) != key(t)
    ensures Extend([run], t, key) == [run, [t]]
  {
    assert [run] + [[t]] == [run, [t]];
  }

  lemma OneRun(run: seq<Tick>, key: Tick -> int)
    requires run != [] && forall i :: 0 <= i < |run| ==> key(run[i]) == key(run[0])
    ensures Runs(run, key) == [run]
  {
    assert [run][..0] == [];
    assert Flatten([run]) == [] + run == run;
    MaximalRunsAreUnique([run], run, key);
  }

  lemma OwnBucket(dur: int)
    requires dur > 0
    ensures Candles.Quotient(0, dur) == 0 && Candles.Quotient(dur, dur) == 1
  {
  }

  lemma {:induction false} QuietVolume(n: nat, price: real)
    ensures TotalVolume(Quiet(n, price)) == n
  {
    if n > 0 {
      QuietVolume(n - 1, price);
      assert Quiet(n, price)[..n - 1] == Quiet(n - 1, price);
    }
  }

  lemma SpikeVwap(cfg: Config, up: bool)
    requires Usable(cfg)
    ensures var cs := CandlesOf(Spike(cfg, up), cfg.candleDuration);
            var vwap := VwapOf(Closes(cs), CandleVolumes(cs));
            && |cs| == 2 && cs[1].close == Top(up) && vwap.valid
            && if up then vwap.vwap < 2.0 else vwap.vwap > 1.0
  {
    SpikeCandles(cfg, up);
    var cs := CandlesOf(Spike(cfg, up), cfg.candleDuration);
    var ps, vs := Closes(cs), CandleVolumes(cs);
    assert ps == [Base(up), Top(up)] && vs == [SpikeLength(cfg), Jump(cfg, up).volume];
    TwoVolumes(Base(up), Top(up), vs[0], vs[1]);
  }

  lemma TwoVolumes(p: real, q: real, a: int, b: int)
    requires a >= 1 && b >= 1
    ensures var r := VwapOf([p, q], [a, b]);
            r.valid && (p < q ==> r.vwap < q) && (p > q ==> r.vwap > q)
  {
    var ps, vs := [p, q], [a, b];
    assert ps[..1] == [p] && vs[..1] == [a];
    assert [p][..0] == [] && [a][..0] == [];
    assert PriceVolume([p], [a]) == p * (a as real) && Volume([a]) == a as real;
    assert PriceVolume(ps, vs) == p * (a as real) + q * (b as real);
    assert Volume(vs) == (a as real) + (b as real);
    ShortOfTheLast(p, q, a as real, b as real);
  }

  /** An average that weighs something before the last price stays short of it. */
  lemma ShortOfTheLast(p: real, q: real, a: real, b: real)
    requires a >= 1.0 && b >= 1.0
    ensures var avg := (p * a + q * b) / (a + b); (p < q ==> avg < q) && (p > q ==> avg > q)
  {
    var avg := (p * a + q * b) / (a + b);
    assert avg * (a + b) == p * a + q * b;
    assert (avg - q) * (a + b) == (p - q) * a;
    if p < q { ProductPositive(q - p, a); Negative(avg - q, a + b); }
    if p > q { ProductPositive(p - q, a); Negative(q - avg, a + b); }
  }

  lemma Negative(x: real, k: real)
    requires k > 0.0 && x * k < 0.0
    ensures x < 0.0
  {
    if x >= 0.0 { ProductNonnegative(x, k); }
  }

  lemma SpikeVolume(cfg: Config, up: bool)
    requires Usable(cfg)
    ensures var volumes := Recent(Volumes(Spike(cfg, up)), cfg.volumeWindow + 1);
            VolumeBreakoutOf(volumes, cfg.volumeWindow, cfg.threshold).isBreakout
  {
    var w, n := cfg.volumeWindow, SpikeLength(cfg);
    var volumes := Recent(Volumes(Spike(cfg, up)), w + 1);
    assert volumes == Volumes(Quiet(w, Base(up))) + [Jump(cfg, up).volume];
    assert Baseline(volumes, w) == Constant(1.0, w);
    MeanOfOnes(w);
    assert (volumes[w] as real) / 1.0 >= cfg.threshold;
  }

  lemma MeanOfOnes(n: nat)
    requires n >= 1
    ensures Mean(Constant(1.0, n)) == 1.0
  {
    ConstantSum(1.0, n);
  }

  function Constant(x: real, n: nat): seq<real> { seq(n, _ => x) }

  lemma {:induction false} ConstantSum(x: real, n: nat)
    ensures Sum(Constant(x, n)) == (n as real) * x
  {
    if n > 0 {
      ConstantSum(x, n - 1);
      assert Constant(x, n)[..n - 1] == Constant(x, n - 1);
    }
  }

  lemma {:induction false} ConstantSpread(x: real, c: real, n: nat)
    ensures Spread(Constant(x, n), c) == (n as real) * ((x - c) * (x - c))
  {
    if n > 0 {
      ConstantSpread(x, c, n - 1);
      assert Constant(x, n)[..n - 1] == Constant(x, n - 1);
      var k, s := (n - 1) as real, (x - c) * (x - c);
      assert (k + 1.0) * s == k * s + s;
    }
  }

  /** n - 1 equal prices and one a unit away: the mean lies 1/n off them and the variance is
      (n - 1)/n^2, whichever way the jump goes. */
  lemma SpikeBands(cfg: Config, sd: real, up: bool)
    requires Usable(cfg) && RootOfWindow(Spike(cfg, up), cfg, sd)
    requires cfg.multiplier * cfg.multiplier < (cfg.period - 1) as real
    ensures var prices := Recent(Prices(Spike(cfg, up)), cfg.period);
            && |prices| == cfg.period
            && var b := BandsOf(Window(prices, cfg.period), cfg.multiplier, sd);
               if up then 2.0 > b.upper else 1.0 < b.lower
  {
    SpikeWindow(cfg, up);
    SpikeWindowBands(Constant(Base(up), cfg.period - 1) + [Top(up)], cfg.period, cfg.multiplier, sd, up);
  }

  lemma SpikeWindow(cfg: Config, up: bool)
    requires Usable(cfg)
    ensures var prices := Recent(Prices(Spike(cfg, up)), cfg.period);
            && |prices| == cfg.period
            && Window(prices, cfg.period) == Constant(Base(up), cfg.period - 1) + [Top(up)]
  {
  }

  lemma SpikeWindowBands(window: seq<real>, n: nat, k: real, sd: real, up: bool)
    requires n >= 2 && window == Constant(Base(up), n - 1) + [Top(up)]
    requires IsSqrt(sd, Variance(window)) && k >= 0.0 && k * k < (n - 1) as real
    ensures var b := BandsOf(window, k, sd); if up then 2.0 > b.upper else 1.0 < b.lower
  {
    SpikeMoments(window, Base(up), Top(up), n);
    if up {
      JumpClearsBand(n as real, k, sd, Mean(window), Variance(window));
    } else {
      DropClearsBand(n as real, k, sd, Mean(window), Variance(window));
    }
  }

  lemma SpikeMoments(window: seq<real>, base: real, top: real, n: nat)
    requires n >= 2 && window == Constant(base, n - 1) + [top]
    ensures Mean(window) * (n as real) == ((n - 1) as real) * base + top
    ensures var m := Mean(window);
            Variance(window) * (n as real) == ((n - 1) as real) * ((base - m) * (base - m)) + (top - m) * (top - m)
  {
    assert window[..n - 1] == Constant(base, n - 1);
    ConstantSum(base, n - 1);
    MeanTimesCount(window);
    ConstantSpread(base, Mean(window), n - 1);
    VarianceTimesCount(window);
  }

  /** The downward spike is the upward one reflected about 3/2. */
  lemma DropClearsBand(n: real, k: real, sd: real, m: real, v: real)
    requires n >= 2.0 && k >= 0.0 && k * k < n - 1.0 && IsSqrt(sd, v)
    requires m * n == (n - 1.0) * 2.0 + 1.0
    requires v * n == (n - 1.0) * ((2.0 - m) * (2.0 - m)) + (1.0 - m) * (1.0 - m)
    ensures 1.0 < m - k * sd
  {
    var r := 3.0 - m;
    assert r * n == n + 1.0;
    assert (1.0 - r) * (1.0 - r) == (2.0 - m) * (2.0 - m) && (2.0 - r) * (2.0 - r) == (1.0 - m) * (1.0 - m);
    JumpClearsBand(n, k, sd, r, v);
  }

  lemma JumpClearsBand(n: real, k: real, sd: real, m: real, v: real)
    requires n >= 2.0 && k >= 0.0 && k * k < n - 1.0 && IsSqrt(sd, v)
    requires m * n == n + 1.0 && v * n == (n - 1.0) * ((1.0 - m) * (1.0 - m)) + (2.0 - m) * (2.0 - m)
    ensures 2.0 > m + k * sd
  {
    // With e = m - 1 = 1/n the variance is (n - 1) * e^2 and the jump stands (n - 1) * e above the mean.
    var e := m - 1.0;
    assert e * n == 1.0;
    Unit(e, n);
    var d := (n - 1.0) * e;
    assert 2.0 - m == d;
    SpikeVariance(n, e, d, v);
    ThresholdSquare(k, sd, v);
    ProductPositive(e, e);
    BandBelow(n, k, e * e, d * d, v);
    SquareOrder(k * sd, d);
  }

  lemma Unit(e: real, n: real)
    requires n >= 2.0 && e * n == 1.0
    ensures e > 0.0 && (n - 1.0) * e == 1.0 - e && (n - 1.0) * e > 0.0
  {
    assert e <= 0.0 ==> e * n <= 0.0;
    ProductPositive(n - 1.0, e);
  }

  lemma SpikeVariance(n: real, e: real, d: real, v: real)
    requires n >= 2.0 && e * n == 1.0 && d == (n - 1.0) * e
    requires v * n == (n - 1.0) * ((1.0 - (e + 1.0)) * (1.0 - (e + 1.0))) + d * d
    ensures v == (n - 1.0) * (e * e) && d * d == (n - 1.0) * v
  {
    var w := (n - 1.0) * (e * e);
    assert (1.0 - (e + 1.0)) * (1.0 - (e + 1.0)) == e * e;
    assert d * d == (n - 1.0) * w;
    assert v * n == w + (n - 1.0) * w == n * w;
    assert n * (v - w) == 0.0;
    ScaledSign(n, v - w);
    ScaledSign(n, w - v);
  }

  lemma BandBelow(n: real, k: real, ee: real, dd: real, v: real)
    requires k * k < n - 1.0 && ee > 0.0 && n >= 2.0 && v == (n - 1.0) * ee && dd == (n - 1.0) * v
    ensures (k * k) * v < dd
  {
    ProductPositive(n - 1.0, ee);
    ProductPositive((n - 1.0) - k * k, v);
    assert ((n - 1.0) - k * k) * v == (n - 1.0) * v - (k * k) * v;
  }

  /** The default configuration (20 periods, 2 deviations) lies below the bound. */
  lemma DefaultConfigCanSignal(symbol: string, sd: real, up: bool)
    requires RootOfWindow(Spike(DEFAULT_CONFIG, up), DEFAULT_CONFIG, sd)
    ensures DEFAULT_CONFIG == Config(20, 2.0, 10, 2.0, 60_000_000_000)
    ensures Signal(symbol, Spike(DEFAULT_CONFIG, up), DEFAULT_CONFIG, sd).Some?
  {
    SpikeSignalsExactlyWhen(symbol, DEFAULT_CONFIG, sd, up);
  }
}
