/** OHLCV aggregation (src/analysts/quantitative/tickstore.go, Candles). */
module Candles {
  import opened Reals
  import opened TickStore

  datatype Candle = Candle(open: real, high: real, low: real, close: real, volume: int)

  /** Go's integer division, which truncates toward zero. */
  function Quotient(a: int, b: int): int
    requires b != 0
  {
    if a >= 0 then (if b > 0 then a / b else -(a / -b))
    else if b > 0 then -(-a / b) else -a / -b
  }

  /** The bucket number of a tick. */
  function BucketBy(dur: int): Tick -> int
    requires dur != 0
  {
    (t: Tick) => Quotient(t.nanos, dur)
  }

  /** One more tick either extends the last run or starts a new one. */
  function Extend(runs: seq<seq<Tick>>, t: Tick, key: Tick -> int): seq<seq<Tick>>
  {
    if runs != [] && runs[|runs| - 1] != [] && key(runs[|runs| - 1][0]) == key(t)
    then runs[|runs| - 1 := runs[|runs| - 1] + [t]]
    else runs + [[t]]
  }

  function Runs(ts: seq<Tick>, key: Tick -> int): seq<seq<Tick>>
  {
    if ts == [] then [] else Extend(Runs(ts[..|ts| - 1], key), ts[|ts| - 1], key)
  }

  function Flatten(runs: seq<seq<Tick>>): seq<Tick> {
    if runs == [] then [] else Flatten(runs[..|runs| - 1]) + runs[|runs| - 1]
  }

  /** The runs, end to end, are the ticks; each lies in one bucket; neighbours do not
      share a bucket, so no run could be longer. */
  ghost predicate MaximalRuns(runs: seq<seq<Tick>>, ts: seq<Tick>, key: Tick -> int)
  {
    Flatten(runs) == ts && Separate(runs, key)
  }

  ghost predicate Separate(runs: seq<seq<Tick>>, key: Tick -> int)
  {
    && (forall r :: 0 <= r < |runs| ==> runs[r] != [])
    && (forall r, i :: 0 <= r < |runs| && 0 <= i < |runs[r]| ==> key(runs[r][i]) == key(runs[r][0]))
    && (forall r :: 0 < r < |runs| ==> key(runs[r - 1][0]) != key(runs[r][0]))
  }

  lemma {:induction false} RunsAreMaximal(ts: seq<Tick>, key: Tick -> int)
    ensures MaximalRuns(Runs(ts, key), ts, key)
  {
    if ts != [] {
      var front, t := ts[..|ts| - 1], ts[|ts| - 1];
      RunsAreMaximal(front, key);
      ExtendIsMaximal(Runs(front, key), front, t, key);
      assert front + [t] == ts;
    }
  }

  lemma ExtendIsMaximal(runs: seq<seq<Tick>>, ts: seq<Tick>, t: Tick, key: Tick -> int)
    requires MaximalRuns(runs, ts, key)
    ensures MaximalRuns(Extend(runs, t, key), ts + [t], key)
  {
    FlattenExtend(runs, t, key);
    var last := |runs| - 1;
    if runs != [] && key(runs[last][0]) == key(t) {
      LongerLastRun(runs, t, key);
    } else {
      NewLastRun(runs, t, key);
    }
  }

  lemma LongerLastRun(runs: seq<seq<Tick>>, t: Tick, key: Tick -> int)
    requires runs != [] && Separate(runs, key) && key(runs[|runs| - 1][0]) == key(t)
    ensures Separate(runs[|runs| - 1 := runs[|runs| - 1] + [t]], key)
  {
    var last := |runs| - 1;
    var next := runs[last := runs[last] + [t]];
    assert forall r :: 0 <= r < last ==> next[r] == runs[r];
    assert next[last][0] == runs[last][0];
    assert forall i :: 0 <= i < |runs[last]| ==> next[last][i] == runs[last][i];
  }

  lemma NewLastRun(runs: seq<seq<Tick>>, t: Tick, key: Tick -> int)
    requires Separate(runs, key) && (runs != [] ==> key(runs[|runs| - 1][0]) != key(t))
    ensures Separate(runs + [[t]], key)
  {
  }

  lemma FlattenExtend(runs: seq<seq<Tick>>, t: Tick, key: Tick -> int)
    ensures Flatten(Extend(runs, t, key)) == Flatten(runs) + [t]
  {
    var next, last := Extend(runs, t, key), |runs| - 1;
    if |next| == |runs| {
      assert next[..last] == runs[..last];
      assert Flatten(next) == Flatten(runs[..last]) + (runs[last] + [t]);
    } else {
      assert next[..|runs|] == runs;
    }
  }

  /** The runs without their newest tick. */
  function Peeled(runs: seq<seq<Tick>>): seq<seq<Tick>>
    requires runs != []
  {
    var last := |runs| - 1;
    if |runs[last]| <= 1 then runs[..last] else runs[last := runs[last][..|runs[last]| - 1]]
  }

  lemma PeeledFlatten(runs: seq<seq<Tick>>, key: Tick -> int)
    requires runs != [] && Separate(runs, key)
    ensures var ts, run := Flatten(runs), runs[|runs| - 1];
            ts != [] && ts[|ts| - 1] == run[|run| - 1] && Flatten(Peeled(runs)) == ts[..|ts| - 1]
  {
    var last := |runs| - 1;
    if |runs[last]| > 1 { assert Peeled(runs)[..last] == runs[..last]; }
  }

  lemma PeeledSeparate(runs: seq<seq<Tick>>, key: Tick -> int)
    requires runs != [] && Separate(runs, key)
    ensures var run := runs[|runs| - 1];
            Separate(Peeled(runs), key) && Extend(Peeled(runs), run[|run| - 1], key) == runs
  {
    var last, run, peeled := |runs| - 1, runs[|runs| - 1], Peeled(runs);
    assert forall r :: 0 <= r < last ==> peeled[r] == runs[r];
    if |run| == 1 {
      assert runs == runs[..last] + [run] && run == [run[0]];
    } else {
      assert peeled[last] + [run[|run| - 1]] == run && peeled[last][0] == run[0];
      assert runs == peeled[last := run];
    }
  }

  /** There is only one way to cut a history into maximal runs. */
  lemma {:induction false} MaximalRunsAreUnique(runs: seq<seq<Tick>>, ts: seq<Tick>, key: Tick -> int)
    requires MaximalRuns(runs, ts, key)
    ensures runs == Runs(ts, key)
    decreases |ts|
  {
    if runs != [] {
      PeeledFlatten(runs, key);
      PeeledSeparate(runs, key);
      MaximalRunsAreUnique(Peeled(runs), ts[..|ts| - 1], key);
    }
  }

  function Absorb(c: Candle, t: Tick): Candle {
    Candle(c.open, if t.price > c.high then t.price else c.high, if t.price < c.low then t.price else c.low,
           t.price, c.volume + t.volume)
  }

  function First(t: Tick): Candle { Candle(t.price, t.price, t.price, t.price, t.volume) }

  function CandleOf(run: seq<Tick>): Candle
    requires run != []
  {
    if |run| == 1 then First(run[0]) else Absorb(CandleOf(run[..|run| - 1]), run[|run| - 1])
  }

  function TotalVolume(ts: seq<Tick>): int {
    if ts == [] then 0 else TotalVolume(ts[..|ts| - 1]) + ts[|ts| - 1].volume
  }

  /** Open and Close are the ends of the run, High and Low its attained extremes, and
      Volume its sum. */
  lemma {:induction false} CandleSummarisesRun(run: seq<Tick>)
    requires run != []
    ensures var c := CandleOf(run);
            && c.open == run[0].price && c.close == run[|run| - 1].price
            && (forall i :: 0 <= i < |run| ==> c.low <= run[i].price <= c.high)
            && (exists i :: 0 <= i < |run| && run[i].price == c.high)
            && (exists i :: 0 <= i < |run| && run[i].price == c.low)
            && c.volume == TotalVolume(run)
  {
    if |run| == 1 {
      assert TotalVolume(run[..0]) == 0;
    } else {
      var front, t := run[..|run| - 1], run[|run| - 1];
      CandleSummarisesRun(front);
      var before, c := CandleOf(front), CandleOf(run);
      var hi :| 0 <= hi < |front| && front[hi].price == before.high;
      var lo :| 0 <= lo < |front| && front[lo].price == before.low;
      assert run[hi].price == before.high && run[lo].price == before.low;
      assert run[|run| - 1].price == t.price;
    }
  }

  function Aggregate(runs: seq<seq<Tick>>): seq<Candle>
    requires forall r :: 0 <= r < |runs| ==> runs[r] != []
  {
    seq(|runs|, r requires 0 <= r < |runs| => CandleOf(runs[r]))
  }

  function CandlesOf(ts: seq<Tick>, dur: int): seq<Candle>
    requires dur != 0
  {
    RunsAreMaximal(ts, BucketBy(dur));
    Aggregate(Runs(ts, BucketBy(dur)))
  }

  function CandleVolume(cs: seq<Candle>): int {
    if cs == [] then 0 else CandleVolume(cs[..|cs| - 1]) + cs[|cs| - 1].volume
  }

  /** Aggregation conserves volume. */
  lemma {:induction false} VolumeIsConserved(ts: seq<Tick>, dur: int)
    requires dur != 0
    ensures CandleVolume(CandlesOf(ts, dur)) == TotalVolume(ts)
  {
    RunsAreMaximal(ts, BucketBy(dur));
    AggregateVolume(Runs(ts, BucketBy(dur)));
  }

  lemma {:induction false} AggregateVolume(runs: seq<seq<Tick>>)
    requires forall r :: 0 <= r < |runs| ==> runs[r] != []
    ensures CandleVolume(Aggregate(runs)) == TotalVolume(Flatten(runs))
  {
    if runs != [] {
      var last := |runs| - 1;
      AggregateVolume(runs[..last]);
      assert Aggregate(runs)[..last] == Aggregate(runs[..last]);
      CandleSummarisesRun(runs[last]);
      TotalVolumeConcat(Flatten(runs[..last]), runs[last]);
    }
  }

  lemma {:induction false} TotalVolumeConcat(a: seq<Tick>, b: seq<Tick>)
    ensures TotalVolume(a + b) == TotalVolume(a) + TotalVolume(b)
    decreases |b|
  {
    if b == [] {
      assert a + b == a;
    } else {
      TotalVolumeConcat(a, b[..|b| - 1]);
      assert (a + b)[..|a + b| - 1] == a + b[..|b| - 1];
    }
  }

  /** The documented floor is what the code computes exactly from the epoch on and on
      bucket boundaries. */
  lemma QuotientIsFloorExactlyWhen(a: int, dur: int)
    requires dur > 0
    ensures Quotient(a, dur) == (a as real / dur as real).Floor <==> a >= 0 || a % dur == 0
  {
    var q, r := a / dur, a % dur;
    assert a == q * dur + r;
    FloorOfQuotient(a, dur, q, r);
    if a < 0 { NegatedQuotient(a, dur, q, r); }
  }

  lemma FloorOfQuotient(a: int, dur: int, q: int, r: int)
    requires dur > 0 && a == q * dur + r && 0 <= r < dur
    ensures (a as real / dur as real).Floor == q
  {
    var x := a as real / dur as real;
    assert x * (dur as real) == a as real;
    assert a as real == (q as real) * (dur as real) + r as real;
    Within(x, q as real, r as real, dur as real);
    assert q as real <= x < (q + 1) as real;
  }

  lemma Within(x: real, q: real, r: real, d: real)
    requires d > 0.0 && x * d == q * d + r && 0.0 <= r < d
    ensures q <= x < q + 1.0
  {
    var e := x - q;
    assert e * d == r;
    assert (-e) * d == -(e * d) && (e - 1.0) * d == e * d - d;
    if e < 0.0 { ProductPositive(-e, d); }
    if e >= 1.0 { ProductNonnegative(e - 1.0, d); }
  }

  /** The truncated quotient of a negative number lies above the floor off the boundaries. */
  lemma NegatedQuotient(a: int, dur: int, q: int, r: int)
    requires dur > 0 && a < 0 && a == q * dur + r && 0 <= r < dur
    ensures -(-a / dur) == if r == 0 then q else q + 1
  {
    var p := -a / dur;
    assert -a == p * dur + -a % dur;
    SameQuotient(-a, dur, p, -a % dur, if r == 0 then -q else -q - 1, if r == 0 then 0 else dur - r);
  }

  lemma SameQuotient(a: int, dur: int, p: int, r: int, p': int, r': int)
    requires dur > 0 && 0 <= r < dur && 0 <= r' < dur && a == p * dur + r && a == p' * dur + r'
    ensures p == p'
  {
    assert (p - p') * dur == r' - r;
    assert p - p' >= 1 ==> (p - p') * dur >= dur;
    assert p - p' <= -1 ==> (p - p') * dur <= -dur;
  }

  lemma QuotientMonotone(a: int, b: int, dur: int)
    requires dur > 0 && a <= b
    ensures Quotient(a, dur) <= Quotient(b, dur)
  {
    if 0 <= a {
      QuotientOrder(a, b, dur);
    } else if b < 0 {
      QuotientOrder(-b, -a, dur);
    } else {
      QuotientNonnegative(-a, dur);
      QuotientNonnegative(b, dur);
    }
  }

  lemma QuotientNonnegative(a: nat, dur: int)
    requires dur > 0
    ensures a / dur >= 0
  {
  }

  lemma QuotientOrder(a: nat, b: nat, dur: int)
    requires dur > 0 && a <= b
    ensures a / dur <= b / dur
  {
    QuotientBounds(a, dur);
    QuotientBounds(b, dur);
    Ordered(a / dur, b / dur, a, b, dur);
  }

  lemma QuotientBounds(a: nat, dur: int)
    requires dur > 0
    ensures (a / dur) * dur <= a < (a / dur + 1) * dur
  {
    assert a == (a / dur) * dur + a % dur;
    assert (a / dur + 1) * dur == (a / dur) * dur + dur;
  }

  lemma Ordered(x: int, y: int, a: int, b: int, dur: int)
    requires dur > 0 && x * dur <= a <= b < (y + 1) * dur
    ensures x <= y
  {
    var gap := x - (y + 1);
    assert gap * dur == x * dur - (y + 1) * dur;
    assert gap >= 0 ==> gap * dur >= 0;
  }

  /** With a positive duration and timestamps that never go back, a bucket gives one
      candle: bucket numbers strictly increase along the runs.  Truncation is monotone
      on either side of the epoch, so this needs no assumption on the sign. */
  lemma OneCandlePerBucket(ts: seq<Tick>, dur: int)
    requires dur > 0 && forall i, j :: 0 <= i < j < |ts| ==> ts[i].nanos <= ts[j].nanos
    ensures var key := BucketBy(dur);
            var runs := Runs(ts, key);
            && MaximalRuns(runs, ts, key)
            && (forall q, r :: 0 <= q < r < |runs| ==> key(runs[q][0]) < key(runs[r][0]))
  {
    var key := BucketBy(dur);
    forall i, j | 0 <= i < j < |ts| ensures key(ts[i]) <= key(ts[j]) {
      QuotientMonotone(ts[i].nanos, ts[j].nanos, dur);
    }
    MonotoneKeysGiveIncreasingRuns(ts, key);
  }

  ghost predicate Increasing(runs: seq<seq<Tick>>, key: Tick -> int) {
    && (forall r :: 0 <= r < |runs| ==> runs[r] != [])
    && (forall q, r :: 0 <= q < r < |runs| ==> key(runs[q][0]) < key(runs[r][0]))
  }

  ghost predicate Monotone(ts: seq<Tick>, key: Tick -> int) {
    forall i, j :: 0 <= i < j < |ts| ==> key(ts[i]) <= key(ts[j])
  }

  lemma MonotoneFront(front: seq<Tick>, t: Tick, key: Tick -> int)
    requires Monotone(front + [t], key)
    ensures Monotone(front, key) && (front != [] ==> key(front[|front| - 1]) <= key(t))
  {
    var ts := front + [t];
    assert forall i :: 0 <= i < |front| ==> ts[i] == front[i];
    assert ts[|front|] == t;
    assert front != [] ==> key(ts[|front| - 1]) <= key(ts[|front|]);
  }

  lemma {:induction false} MonotoneKeysGiveIncreasingRuns(ts: seq<Tick>, key: Tick -> int)
    requires Monotone(ts, key)
    ensures MaximalRuns(Runs(ts, key), ts, key) && Increasing(Runs(ts, key), key)
  {
    RunsAreMaximal(ts, key);
    if ts != [] {
      var front, t := ts[..|ts| - 1], ts[|ts| - 1];
      assert ts == front + [t];
      MonotoneFront(front, t, key);
      MonotoneKeysGiveIncreasingRuns(front, key);
      NextRunIncreases(Runs(front, key), front, t, key);
    }
  }

  lemma NextRunIncreases(runs: seq<seq<Tick>>, ts: seq<Tick>, t: Tick, key: Tick -> int)
    requires MaximalRuns(runs, ts, key) && Increasing(runs, key) && (ts != [] ==> key(ts[|ts| - 1]) <= key(t))
    ensures Increasing(Extend(runs, t, key), key)
  {
    if runs != [] {
      LastRunHoldsNewest(runs, ts, key);
      IncreasingExtends(runs, t, key);
    }
  }

  lemma LastRunHoldsNewest(runs: seq<seq<Tick>>, ts: seq<Tick>, key: Tick -> int)
    requires runs != [] && MaximalRuns(runs, ts, key)
    ensures ts != [] && key(runs[|runs| - 1][0]) == key(ts[|ts| - 1])
  {
    var last := runs[|runs| - 1];
    assert ts == Flatten(runs[..|runs| - 1]) + last;
    assert ts[|ts| - 1] == last[|last| - 1];
  }

  lemma IncreasingExtends(runs: seq<seq<Tick>>, t: Tick, key: Tick -> int)
    requires runs != [] && Increasing(runs, key) && key(runs[|runs| - 1][0]) <= key(t)
    ensures Increasing(Extend(runs, t, key), key)
  {
    var next := Extend(runs, t, key);
    assert forall r :: 0 <= r < |runs| ==> next[r] != [] && next[r][0] == runs[r][0];
  }

  /** The candles with the last one's volume moved by delta. */
  function WithLastVolume(cs: seq<Candle>, delta: int): seq<Candle>
    requires cs != []
  {
    var last := |cs| - 1;
    cs[last := cs[last].(volume := cs[last].volume + delta)]
  }

  /** Overwriting the newest volume changes the last candle's Volume by new - old and
      nothing else. */
  lemma VolumeUpdateTouchesLastCandleOnly(ts: seq<Tick>, volume: int, dur: int)
    requires dur != 0 && ts != []
    ensures var was, now := CandlesOf(ts, dur), CandlesOf(WithLatestVolume(ts, volume), dur);
            was != [] && now == WithLastVolume(was, volume - ts[|ts| - 1].volume)
  {
    var front, t := ts[..|ts| - 1], ts[|ts| - 1];
    var t', ts' := t.(volume := volume), WithLatestVolume(ts, volume);
    assert ts == front + [t] && ts' == front + [t'];
    CandlesOfSnoc(front, t, dur);
    CandlesOfSnoc(front, t', dur);
    LastTickVolume(Runs(front, BucketBy(dur)), t, t', BucketBy(dur));
  }

  lemma RunsSnoc(front: seq<Tick>, t: Tick, key: Tick -> int)
    ensures Runs(front + [t], key) == Extend(Runs(front, key), t, key)
  {
    assert (front + [t])[..|front|] == front;
  }

  lemma CandlesOfSnoc(front: seq<Tick>, t: Tick, dur: int)
    requires dur != 0
    ensures var runs := Extend(Runs(front, BucketBy(dur)), t, BucketBy(dur));
            (forall r :: 0 <= r < |runs| ==> runs[r] != []) && CandlesOf(front + [t], dur) == Aggregate(runs)
  {
    RunsAreMaximal(front + [t], BucketBy(dur));
    RunsSnoc(front, t, BucketBy(dur));
  }

  lemma LastTickVolume(base: seq<seq<Tick>>, t: Tick, t': Tick, key: Tick -> int)
    requires t' == t.(volume := t'.volume) && key(t) == key(t')
    requires forall r :: 0 <= r < |Extend(base, t, key)| ==> Extend(base, t, key)[r] != []
    requires forall r :: 0 <= r < |Extend(base, t', key)| ==> Extend(base, t', key)[r] != []
    ensures var was, now := Aggregate(Extend(base, t, key)), Aggregate(Extend(base, t', key));
            was != [] && now == WithLastVolume(was, t'.volume - t.volume)
  {
    var runs, runs' := Extend(base, t, key), Extend(base, t', key);
    var last := |runs| - 1;
    assert |runs'| == |runs| && forall r :: 0 <= r < last ==> runs'[r] == runs[r];
    assert runs[last][..|runs[last]| - 1] == runs'[last][..|runs'[last]| - 1];
    var was, now := Aggregate(runs), Aggregate(runs');
    assert now[last] == was[last].(volume := was[last].volume + t'.volume - t.volume);
  }

  /** The last candle closes at the newest price. */
  lemma LastCloseIsNewestPrice(ts: seq<Tick>, dur: int)
    requires dur != 0 && ts != []
    ensures var cs := CandlesOf(ts, dur); cs != [] && cs[|cs| - 1].close == ts[|ts| - 1].price
  {
    RunsAreMaximal(ts, BucketBy(dur));
    var runs := Runs(ts, BucketBy(dur));
    LastRunEndsAtNewest(runs, ts, BucketBy(dur));
    assert CandlesOf(ts, dur)[|runs| - 1] == CandleOf(runs[|runs| - 1]);
  }

  lemma LastRunEndsAtNewest(runs: seq<seq<Tick>>, ts: seq<Tick>, key: Tick -> int)
    requires ts != [] && MaximalRuns(runs, ts, key)
    ensures runs != [] && CandleOf(runs[|runs| - 1]).close == ts[|ts| - 1].price
  {
    var last := runs[|runs| - 1];
    assert ts == Flatten(runs[..|runs| - 1]) + last;
    CandleSummarisesRun(last);
  }

  datatype Acc = Acc(candle: Candle, id: int)

  /** The bucket records stand for the runs. */
  ghost predicate Records(buckets: seq<Acc>, runs: seq<seq<Tick>>, key: Tick -> int) {
    && |buckets| == |runs|
    && (forall r :: 0 <= r < |runs| ==> runs[r] != [] && buckets[r] == Acc(CandleOf(runs[r]), key(runs[r][0])))
  }

  /** One turn of the loop: a new record, or the newest one absorbing the tick. */
  lemma RecordsExtend(buckets: seq<Acc>, runs: seq<seq<Tick>>, t: Tick, id: int, key: Tick -> int)
    requires Records(buckets, runs, key) && id == key(t)
    ensures Records(Recorded(buckets, t, id), Extend(runs, t, key), key)
  {
    var last := |runs| - 1;
    if |runs| > 0 && buckets[last].id == id {
      assert (runs[last] + [t])[..|runs[last]|] == runs[last];
    }
  }

  function Recorded(buckets: seq<Acc>, t: Tick, id: int): seq<Acc> {
    var last := |buckets| - 1;
    if |buckets| == 0 || buckets[last].id != id then buckets + [Acc(First(t), id)]
    else buckets[last := buckets[last].(candle := Absorb(buckets[last].candle, t))]
  }

  lemma RecordsAreCandles(buckets: seq<Acc>, result: seq<Candle>, ts: seq<Tick>, dur: int)
    requires dur != 0 && Records(buckets, Runs(ts, BucketBy(dur)), BucketBy(dur))
    requires |result| == |buckets| && forall r :: 0 <= r < |buckets| ==> result[r] == buckets[r].candle
    ensures result == CandlesOf(ts, dur)
  {
  }

  /** The records after the first i ticks. */
  ghost predicate RecordsUpTo(buckets: seq<Acc>, ts: seq<Tick>, i: nat, key: Tick -> int)
    requires i <= |ts|
  {
    Records(buckets, Runs(ts[..i], key), key)
  }

  lemma RecordsStep(buckets: seq<Acc>, ts: seq<Tick>, i: nat, key: Tick -> int)
    requires i < |ts| && RecordsUpTo(buckets, ts, i, key)
    ensures RecordsUpTo(Recorded(buckets, ts[i], key(ts[i])), ts, i + 1, key)
  {
    assert ts[..i + 1][..i] == ts[..i];
    RecordsExtend(buckets, Runs(ts[..i], key), ts[i], key(ts[i]), key);
  }

  method Emit(buckets: seq<Acc>) returns (result: seq<Candle>)
    ensures |result| == |buckets| && forall r :: 0 <= r < |buckets| ==> result[r] == buckets[r].candle
  {
    result := [];
    for i := 0 to |buckets|
      invariant |result| == i && forall r :: 0 <= r < i ==> result[r] == buckets[r].candle
    {
      result := result + [buckets[i].candle];
    }
  }

  /** The aggregation loop over a store. */
  method CandlesFromStore(store: TickStore, dur: int) returns (result: seq<Candle>)
    requires store.Valid() && (store.history != [] ==> dur != 0)
    ensures store.history == [] ==> result == []
    ensures store.history != [] ==> result == CandlesOf(Last(store.history, store.size), dur)
  {
    var count := store.Count();
    if count == 0 { return []; }
    ghost var view, key := Last(store.history, store.size), BucketBy(dur);
    var buckets: seq<Acc> := [];
    for i := 0 to count
      invariant RecordsUpTo(buckets, view, i, key)
    {
      RecordsStep(buckets, view, i, key);
      var t := store.At(i);
      var bid := Quotient(t.nanos, dur);
      if |buckets| == 0 || buckets[|buckets| - 1].id != bid {
        buckets := buckets + [Acc(First(t), bid)];
      } else {
        var last := |buckets| - 1;
        buckets := buckets[last := buckets[last].(candle := Absorb(buckets[last].candle, t))];
      }
    }
    assert view[..count] == view;
    result := Emit(buckets);
    RecordsAreCandles(buckets, result, view, dur);
  }
}
