/** The performance summary (src/pkg/database/report.go, ComputeSummary). */
module Report {
  import opened Models
  import opened Counting
  import opened Stats
  import opened StableSort

  datatype Summary = Summary(
    closedTrades: nat, totalPnL: real, wins: nat, losses: nat,
    winRate: real, avgWin: real, avgLoss: real, maxDrawdown: real,
    byTicker: map<string, real>, byDay: map<string, real>, byExitReason: map<string, real>)

  /** The zero time, which an open row's ClosedAt holds. */
  const ZERO_TIME := -62_135_596_800_000_000_000

  function CloseTime(): Position -> int {
    (p: Position) => if p.status.Closed? then p.status.closedAt.nanos else ZERO_TIME
  }

  // ----- what each field means -----

  /** The closed rows, in order. */
  function ClosedOnly(ps: seq<Position>): seq<Position> {
    if ps == [] then [] else ClosedOnly(ps[..|ps| - 1]) + (if ps[|ps| - 1].status.Closed? then [ps[|ps| - 1]] else [])
  }

  /** A total over the rows, each contributing f of itself. */
  function Total(ps: seq<Position>, f: Position -> real): real {
    if ps == [] then 0.0 else Total(ps[..|ps| - 1], f) + f(ps[|ps| - 1])
  }

  function PnL(p: Position): real { if p.status.Closed? then p.status.pnl else 0.0 }

  function Realised(): Position -> real { (p: Position) => PnL(p) }
  function Gain(): Position -> real { (p: Position) => if PnL(p) > 0.0 then PnL(p) else 0.0 }
  function Loss(): Position -> real { (p: Position) => if PnL(p) < 0.0 then PnL(p) else 0.0 }
  function IsClosed(): Position -> bool { (p: Position) => p.status.Closed? }
  function IsWin(): Position -> bool { (p: Position) => PnL(p) > 0.0 }
  function IsLoss(): Position -> bool { (p: Position) => PnL(p) < 0.0 }

  type Label = Position -> string

  function TickerLabel(): Label { (p: Position) => p.ticker }
  function DayLabel(): Label { (p: Position) => if p.status.Closed? then p.status.closedAt.day else "" }
  function ReasonLabel(): Label { (p: Position) => if p.status.Closed? then p.status.reason else "" }

  function Under(tag: Label, l: string): Position -> real {
    (p: Position) => if tag(p) == l then PnL(p) else 0.0
  }

  function Bump(m: map<string, real>, l: string, x: real): map<string, real> {
    m[l := (if l in m then m[l] else 0.0) + x]
  }

  function GroupBy(ps: seq<Position>, tag: Label): map<string, real> {
    if ps == [] then map[]
    else
      var before, p := GroupBy(ps[..|ps| - 1], tag), ps[|ps| - 1];
      if p.status.Closed? then Bump(before, tag(p), PnL(p)) else before
  }

  function PnLs(ps: seq<Position>): seq<real> {
    seq(|ps|, i requires 0 <= i < |ps| => PnL(ps[i]))
  }

  function Ratio(a: real, n: nat): real { if n > 0 then a / (n as real) else 0.0 }

  function MaxDrawdown(ordered: seq<Position>): real { Curve(PnLs(ClosedOnly(ordered))).drawdown }

  function Summarise(ordered: seq<Position>): Summary {
    var wins, losses := Count(ordered, IsWin()), Count(ordered, IsLoss());
    Summary(Count(ordered, IsClosed()), Total(ordered, Realised()), wins, losses,
            Ratio(wins as real, wins + losses),
            Ratio(Total(ordered, Gain()), wins), Ratio(Total(ordered, Loss()), losses),
            MaxDrawdown(ordered),
            GroupBy(ordered, TickerLabel()), GroupBy(ordered, DayLabel()), GroupBy(ordered, ReasonLabel()))
  }

  // ----- drawdown -----

  datatype EquityCurve = EquityCurve(equity: real, peak: real, drawdown: real)

  function Max(a: real, b: real): real { if a > b then a else b }

  /** The single pass with a running peak. */
  function Advance(c: EquityCurve, pnl: real): EquityCurve {
    var equity := c.equity + pnl;
    var peak := Max(equity, c.peak);
    EquityCurve(equity, peak, Max(peak - equity, c.drawdown))
  }

  function Curve(pnls: seq<real>): EquityCurve {
    if pnls == [] then EquityCurve(0.0, 0.0, 0.0) else Advance(Curve(pnls[..|pnls| - 1]), pnls[|pnls| - 1])
  }

  /** Equity after the first i trades; zero before the first. */
  function Equity(pnls: seq<real>, i: nat): real
    requires i <= |pnls|
  {
    Sum(pnls[..i])
  }

  ghost predicate IsPeak(pnls: seq<real>, peak: real) {
    && (forall i :: 0 <= i <= |pnls| ==> Equity(pnls, i) <= peak)
    && (exists i :: 0 <= i <= |pnls| && Equity(pnls, i) == peak)
  }

  function Fall(pnls: seq<real>, i: nat, j: nat): real
    requires i <= j <= |pnls|
  {
    Equity(pnls, i) - Equity(pnls, j)
  }

  /** The quadratic definition: no fall from a point to a later one is larger, and one is as large. */
  ghost predicate IsLargestFall(pnls: seq<real>, d: real) {
    && (forall i, j :: 0 <= i <= j <= |pnls| ==> Fall(pnls, i, j) <= d)
    && (exists i, j :: 0 <= i <= j <= |pnls| && Fall(pnls, i, j) == d)
  }

  lemma EquityOfFront(pnls: seq<real>)
    requires pnls != []
    ensures forall i :: 0 <= i < |pnls| ==> Equity(pnls, i) == Equity(pnls[..|pnls| - 1], i)
    ensures Equity(pnls, |pnls|) == Equity(pnls[..|pnls| - 1], |pnls| - 1) + pnls[|pnls| - 1]
  {
    var front := pnls[..|pnls| - 1];
    forall i | 0 <= i < |pnls| ensures Equity(pnls, i) == Equity(front, i) { assert pnls[..i] == front[..i]; }
    assert pnls[..|pnls|] == pnls && front[..|front|] == front;
  }

  lemma {:induction false} PeakIsHighestEquity(pnls: seq<real>)
    ensures Curve(pnls).equity == Equity(pnls, |pnls|) && IsPeak(pnls, Curve(pnls).peak)
  {
    if pnls == [] {
      assert Equity(pnls, 0) == 0.0;
    } else {
      var front, c := pnls[..|pnls| - 1], Curve(pnls);
      PeakIsHighestEquity(front);
      EquityOfFront(pnls);
      var top :| 0 <= top <= |front| && Equity(front, top) == Curve(front).peak;
      assert Equity(pnls, if c.equity > Curve(front).peak then |pnls| else top) == c.peak;
    }
  }

  /** The running-peak pass computes the quadratic definition: the largest fall of
      equity from any point to any later one. */
  lemma {:induction false} DrawdownIsLargestFall(pnls: seq<real>)
    ensures IsLargestFall(pnls, Curve(pnls).drawdown)
  {
    PeakIsHighestEquity(pnls);
    if pnls == [] {
      assert Fall(pnls, 0, 0) == 0.0;
    } else {
      var front, n, c := pnls[..|pnls| - 1], |pnls|, Curve(pnls);
      DrawdownIsLargestFall(front);
      EquityOfFront(pnls);
      forall i, j | 0 <= i <= j <= n ensures Fall(pnls, i, j) <= c.drawdown {
        if j < n { assert Fall(pnls, i, j) == Fall(front, i, j); }
      }
      AttainedFall(pnls);
    }
  }

  lemma AttainedFall(pnls: seq<real>)
    requires pnls != [] && IsPeak(pnls, Curve(pnls).peak)
    requires Curve(pnls).equity == Equity(pnls, |pnls|)
    requires IsLargestFall(pnls[..|pnls| - 1], Curve(pnls[..|pnls| - 1]).drawdown)
    ensures exists i, j :: 0 <= i <= j <= |pnls| && Fall(pnls, i, j) == Curve(pnls).drawdown
  {
    var front, n, c := pnls[..|pnls| - 1], |pnls|, Curve(pnls);
    EquityOfFront(pnls);
    if c.drawdown == Curve(front).drawdown {
      var i, j :| 0 <= i <= j <= |front| && Fall(front, i, j) == c.drawdown;
      assert Fall(pnls, i, j) == c.drawdown;
    } else {
      var top :| 0 <= top <= n && Equity(pnls, top) == c.peak;
      assert Fall(pnls, top, n) == c.drawdown;
    }
  }

  function LossOf(x: real): real { if x < 0.0 then -x else 0.0 }

  function LossMagnitude(pnls: seq<real>): real {
    if pnls == [] then 0.0 else LossMagnitude(pnls[..|pnls| - 1]) + LossOf(pnls[|pnls| - 1])
  }

  /** The drawdown is zero exactly when no trade lost, and never exceeds the sum of the
      loss magnitudes. */
  lemma {:induction false} DrawdownAndLosses(pnls: seq<real>)
    ensures var c := Curve(pnls);
            && 0.0 <= c.peak - c.equity <= c.drawdown <= LossMagnitude(pnls)
            && (c.drawdown == 0.0 <==> forall i :: 0 <= i < |pnls| ==> pnls[i] >= 0.0)
  {
    if pnls != [] {
      var front := pnls[..|pnls| - 1];
      DrawdownAndLosses(front);
      assert pnls == front + [pnls[|pnls| - 1]];
      assert forall i :: 0 <= i < |front| ==> front[i] == pnls[i];
    }
  }

  // ----- conservation -----

  lemma {:induction false} GroupsConserve(ps: seq<Position>, tag: Label)
    ensures SumMap(GroupBy(ps, tag)) == Total(ps, Realised())
  {
    if ps != [] {
      GroupsConserve(ps[..|ps| - 1], tag);
      var p := ps[|ps| - 1];
      if p.status.Closed? { SumMapAdd(GroupBy(ps[..|ps| - 1], tag), tag(p), PnL(p)); }
    }
  }

  lemma {:induction false} GainsAndLosses(ps: seq<Position>)
    ensures Total(ps, Realised()) == Total(ps, Gain()) + Total(ps, Loss())
    ensures Count(ps, IsWin()) == 0 ==> Total(ps, Gain()) == 0.0
    ensures Count(ps, IsLoss()) == 0 ==> Total(ps, Loss()) == 0.0
  {
    if ps != [] { GainsAndLosses(ps[..|ps| - 1]); }
  }

  /** Every breakdown adds up to the total. */
  lemma BreakdownsConserve(ordered: seq<Position>)
    ensures var s := Summarise(ordered);
            SumMap(s.byTicker) == SumMap(s.byDay) == SumMap(s.byExitReason) == s.totalPnL
  {
    GroupsConserve(ordered, TickerLabel());
    GroupsConserve(ordered, DayLabel());
    GroupsConserve(ordered, ReasonLabel());
  }

  /** So do the averages times their counts. */
  lemma AveragesConserve(ordered: seq<Position>)
    ensures Averaged(Summarise(ordered))
  {
    GainsAndLosses(ordered);
    WithAverages(Summarise(ordered), Total(ordered, Gain()), Total(ordered, Loss()));
  }

  predicate Averaged(s: Summary) {
    s.avgWin * (s.wins as real) + s.avgLoss * (s.losses as real) == s.totalPnL
  }

  lemma WithAverages(s: Summary, gain: real, loss: real)
    requires s.avgWin == Ratio(gain, s.wins) && s.avgLoss == Ratio(loss, s.losses) && s.totalPnL == gain + loss
    requires (s.wins == 0 ==> gain == 0.0) && (s.losses == 0 ==> loss == 0.0)
    ensures Averaged(s)
    ensures s.avgLoss * (s.losses as real) == loss
  {
    RatioTimes(gain, s.wins);
    RatioTimes(loss, s.losses);
  }

  lemma RatioTimes(a: real, n: nat)
    requires n == 0 ==> a == 0.0
    ensures Ratio(a, n) * (n as real) == a
  {
  }

  predicate DrawdownFits(s: Summary) {
    && (s.maxDrawdown == 0.0 <==> s.losses == 0)
    && 0.0 <= s.maxDrawdown <= -(s.avgLoss * (s.losses as real))
  }

  /** MaxDrawdown in terms of the summary's own fields: it is zero exactly without
      losses and never exceeds their total. */
  lemma DrawdownIsZeroExactlyWithoutLosses(ordered: seq<Position>)
    ensures DrawdownFits(Summarise(ordered))
  {
    DrawdownAndLosses(PnLs(ClosedOnly(ordered)));
    LossesOfClosed(ordered);
    GainsAndLosses(ordered);
    WithAverages(Summarise(ordered), Total(ordered, Gain()), Total(ordered, Loss()));
  }

  lemma {:induction false} LossesOfClosed(ps: seq<Position>)
    ensures var pnls := PnLs(ClosedOnly(ps));
            && LossMagnitude(pnls) == -Total(ps, Loss())
            && (Count(ps, IsLoss()) == 0 <==> forall i :: 0 <= i < |pnls| ==> pnls[i] >= 0.0)
  {
    if ps != [] {
      var front, p := ps[..|ps| - 1], ps[|ps| - 1];
      LossesOfClosed(front);
      var was, now := PnLs(ClosedOnly(front)), PnLs(ClosedOnly(ps));
      if p.status.Closed? {
        assert now == was + [PnL(p)];
        assert now[..|now| - 1] == was;
        assert now[|now| - 1] == PnL(p);
        assert forall i :: 0 <= i < |was| ==> now[i] == was[i];
      } else {
        assert now == was;
      }
    }
  }

  // ----- order independence -----

  lemma {:induction false} TotalPermutes(a: seq<Position>, b: seq<Position>, f: Position -> real)
    requires multiset(a) == multiset(b)
    ensures Total(a, f) == Total(b, f)
    decreases |a|
  {
    if a == [] {
      assert |multiset(b)| == 0;
    } else {
      var x, front := a[|a| - 1], a[..|a| - 1];
      assert a == front + [x];
      assert x in multiset(b);
      var i :| 0 <= i < |b| && b[i] == x;
      assert b == b[..i] + [x] + b[i + 1..];
      var rest := b[..i] + b[i + 1..];
      SameWithoutOne(front, b[..i], b[i + 1..], x);
      TotalPermutes(front, rest, f);
      TotalAround(b[..i], x, b[i + 1..], f);
    }
  }

  lemma SameWithoutOne(front: seq<Position>, before: seq<Position>, after: seq<Position>, x: Position)
    requires multiset(front + [x]) == multiset(before + [x] + after)
    ensures multiset(front) == multiset(before + after)
  {
    assert multiset(front) == multiset(front + [x]) - multiset{x};
    assert multiset(before + after) == multiset(before + [x] + after) - multiset{x};
  }

  lemma TotalAround(before: seq<Position>, x: Position, after: seq<Position>, f: Position -> real)
    ensures Total(before + [x] + after, f) == Total(before + after, f) + f(x)
  {
    TotalConcat(before + [x], after, f);
    TotalConcat(before, [x], f);
    TotalConcat(before, after, f);
    assert [x][..0] == [];
  }

  lemma {:induction false} TotalConcat(a: seq<Position>, b: seq<Position>, f: Position -> real)
    ensures Total(a + b, f) == Total(a, f) + Total(b, f)
    decreases |b|
  {
    if b == [] {
      assert a + b == a;
    } else {
      TotalConcat(a, b[..|b| - 1], f);
      assert (a + b)[..|a + b| - 1] == a + b[..|b| - 1];
    }
  }

  function Indicator(f: Position -> bool): Position -> real { (p: Position) => if f(p) then 1.0 else 0.0 }

  lemma {:induction false} CountAsTotal(ps: seq<Position>, f: Position -> bool)
    ensures Count(ps, f) as real == Total(ps, Indicator(f))
  {
    if ps != [] { CountAsTotal(ps[..|ps| - 1], f); }
  }

  lemma CountPermutes(a: seq<Position>, b: seq<Position>, f: Position -> bool)
    requires multiset(a) == multiset(b)
    ensures Count(a, f) == Count(b, f)
  {
    CountAsTotal(a, f);
    CountAsTotal(b, f);
    TotalPermutes(a, b, Indicator(f));
  }

  /** A breakdown has an entry for each label of a closed row, holding that label's total. */
  lemma {:induction false} GroupByIsTotals(ps: seq<Position>, tag: Label)
    ensures forall l :: l in GroupBy(ps, tag) <==> exists p :: p in ps && p.status.Closed? && tag(p) == l
    ensures forall l :: l in GroupBy(ps, tag) ==> GroupBy(ps, tag)[l] == Total(ps, Under(tag, l))
  {
    if ps != [] {
      var front, p := ps[..|ps| - 1], ps[|ps| - 1];
      GroupByIsTotals(front, tag);
      assert ps == front + [p];
      forall l | l in GroupBy(ps, tag) ensures GroupBy(ps, tag)[l] == Total(ps, Under(tag, l)) {
        if l !in GroupBy(front, tag) { NothingUnder(front, tag, l); }
      }
    }
  }

  lemma {:induction false} NothingUnder(ps: seq<Position>, tag: Label, l: string)
    requires forall p :: p in ps && p.status.Closed? ==> tag(p) != l
    ensures Total(ps, Under(tag, l)) == 0.0
  {
    if ps != [] {
      assert ps[|ps| - 1] in ps;
      NothingUnder(ps[..|ps| - 1], tag, l);
    }
  }

  lemma GroupsPermute(a: seq<Position>, b: seq<Position>, tag: Label)
    requires multiset(a) == multiset(b)
    ensures GroupBy(a, tag) == GroupBy(b, tag)
  {
    GroupByIsTotals(a, tag);
    GroupByIsTotals(b, tag);
    assert forall p :: p in a <==> p in multiset(a);
    assert forall p :: p in b <==> p in multiset(b);
    forall l | l in GroupBy(a, tag) ensures Total(a, Under(tag, l)) == Total(b, Under(tag, l)) {
      TotalPermutes(a, b, Under(tag, l));
    }
  }

  /** All fields but MaxDrawdown are the same for every order of the input. */
  lemma SummaryIgnoresOrder(a: seq<Position>, b: seq<Position>)
    requires multiset(a) == multiset(b)
    ensures Summarise(a).(maxDrawdown := 0.0) == Summarise(b).(maxDrawdown := 0.0)
  {
    CountPermutes(a, b, IsClosed());
    CountPermutes(a, b, IsWin());
    CountPermutes(a, b, IsLoss());
    TotalPermutes(a, b, Realised());
    TotalPermutes(a, b, Gain());
    TotalPermutes(a, b, Loss());
    GroupsPermute(a, b, TickerLabel());
    GroupsPermute(a, b, DayLabel());
    GroupsPermute(a, b, ReasonLabel());
  }

  ghost predicate DistinctCloseTimes(ps: seq<Position>) {
    forall p, q :: p in ps && q in ps && p.status.Closed? && q.status.Closed? && p != q ==>
      CloseTime()(p) != CloseTime()(q)
  }

  lemma {:induction false} ClosedOnlyMembers(ps: seq<Position>)
    ensures forall p :: p in ClosedOnly(ps) <==> p in ps && p.status.Closed?
  {
    if ps != [] {
      ClosedOnlyMembers(ps[..|ps| - 1]);
      assert ps == ps[..|ps| - 1] + [ps[|ps| - 1]];
    }
  }

  lemma {:induction false} ClosedOnlySorted(ps: seq<Position>)
    requires Sorted(ps, CloseTime())
    ensures Sorted(ClosedOnly(ps), CloseTime())
  {
    if ps != [] {
      var front, p := ps[..|ps| - 1], ps[|ps| - 1];
      ClosedOnlySorted(front);
      ClosedOnlyMembers(front);
      var closed := ClosedOnly(front);
      forall i | 0 <= i < |closed| ensures CloseTime()(closed[i]) <= CloseTime()(p) {
        assert closed[i] in front;
      }
    }
  }

  /** How often a row occurs; enough to know a sequence whose keys tell rows apart. */
  function Same(q: Position): Position -> bool { (p: Position) => p == q }

  lemma {:induction false} ClosedOnlyCount(ps: seq<Position>, q: Position)
    requires q.status.Closed?
    ensures Count(ClosedOnly(ps), Same(q)) == Count(ps, Same(q))
  {
    if ps != [] {
      var front, p := ps[..|ps| - 1], ps[|ps| - 1];
      ClosedOnlyCount(front, q);
      CountSnoc(ClosedOnly(front), p, Same(q));
      assert ClosedOnly(front) + [] == ClosedOnly(front);
    }
  }

  lemma {:induction false} OfKeyCount(s: seq<Position>, k: int, q: Position)
    requires CloseTime()(q) == k
    ensures Count(OfKey(s, CloseTime(), k), Same(q)) == Count(s, Same(q))
  {
    if s != [] {
      var front, p := s[..|s| - 1], s[|s| - 1];
      OfKeyCount(front, k, q);
      var of := OfKey(front, CloseTime(), k);
      CountSnoc(of, p, Same(q));
      assert OfKey(s, CloseTime(), k) == if CloseTime()(p) == k then of + [p] else of;
    }
  }

  /** A sequence of copies of one row is known by its length. */
  lemma CopiesAreEqual(a: seq<Position>, b: seq<Position>, q: Position)
    requires (forall p :: p in a ==> p == q) && (forall p :: p in b ==> p == q)
    requires Count(a, Same(q)) == Count(b, Same(q))
    ensures a == b
  {
    CountAll(a, Same(q));
    CountAll(b, Same(q));
    forall i | 0 <= i < |a| ensures a[i] == q { assert a[i] in a; }
    forall i | 0 <= i < |b| ensures b[i] == q { assert b[i] in b; }
  }

  /** When distinct closed rows have distinct close times, every order of the input is
      replayed in the same order, so the whole summary, MaxDrawdown included, is the same. */
  lemma SummaryIsDeterminedByTimes(a: seq<Position>, b: seq<Position>)
    requires multiset(a) == multiset(b) && DistinctCloseTimes(a)
    ensures ClosedOnly(Sort(a, CloseTime())) == ClosedOnly(Sort(b, CloseTime()))
    ensures Summarise(Sort(a, CloseTime())) == Summarise(Sort(b, CloseTime()))
  {
    var key, sa, sb := CloseTime(), Sort(a, CloseTime()), Sort(b, CloseTime());
    SortIsStable(a, key);
    SortIsStable(b, key);
    ClosedOnlySorted(sa);
    ClosedOnlySorted(sb);
    assert forall p :: p in sa <==> p in multiset(sa);
    assert forall p :: p in sb <==> p in multiset(sb);
    assert forall p :: p in a <==> p in multiset(a);
    forall k ensures OfKey(ClosedOnly(sa), key, k) == OfKey(ClosedOnly(sb), key, k) {
      SameAtTime(a, sa, sb, k);
    }
    StableOrderIsUnique(ClosedOnly(sa), ClosedOnly(sb), key);
    SummaryIgnoresOrder(sa, sb);
  }

  lemma SameAtTime(a: seq<Position>, sa: seq<Position>, sb: seq<Position>, k: int)
    requires DistinctCloseTimes(a) && multiset(sa) == multiset(sb)
    requires (forall p :: p in sa <==> p in a) && (forall p :: p in sb <==> p in a)
    ensures OfKey(ClosedOnly(sa), CloseTime(), k) == OfKey(ClosedOnly(sb), CloseTime(), k)
  {
    var key := CloseTime();
    var x, y := OfKey(ClosedOnly(sa), key, k), OfKey(ClosedOnly(sb), key, k);
    OfKeyMembers(ClosedOnly(sa), key, k);
    OfKeyMembers(ClosedOnly(sb), key, k);
    ClosedOnlyMembers(sa);
    ClosedOnlyMembers(sb);
    assert forall p :: p in x <==> p in y;
    assert |y| > 0 ==> y[0] in x;
    if |x| > 0 {
      var q := x[0];
      assert q in x;
      ClosedOnlyCount(sa, q);
      ClosedOnlyCount(sb, q);
      OfKeyCount(ClosedOnly(sa), k, q);
      OfKeyCount(ClosedOnly(sb), k, q);
      CountPermutes(sa, sb, Same(q));
      CopiesAreEqual(x, y, q);
    }
  }

  /** No win and loss among the closed rows share a close time. */
  ghost predicate TiesDoNotMix(ps: seq<Position>) {
    forall p, q :: p in ps && q in ps && p.status.Closed? && q.status.Closed? && CloseTime()(p) == CloseTime()(q) ==>
      Compatible(PnL(p), PnL(q))
  }

  predicate Compatible(x: real, y: real) { !(x > 0.0 > y) && !(y > 0.0 > x) }

  lemma AdvanceCommutes(c: EquityCurve, x: real, y: real)
    requires 0.0 <= c.peak - c.equity <= c.drawdown && Compatible(x, y)
    ensures Advance(Advance(c, x), y) == Advance(Advance(c, y), x)
  {
  }

  lemma CurveSnoc(pnls: seq<real>, x: real)
    ensures Curve(pnls + [x]) == Advance(Curve(pnls), x)
  {
    assert (pnls + [x])[..|pnls|] == pnls;
  }

  /** A trade moved past later ones it does not mix with leaves the curve's end as it was. */
  lemma {:induction false} MovedLast(a: seq<real>, x: real, b: seq<real>)
    requires forall y :: y in b ==> Compatible(x, y)
    ensures Curve(a + [x] + b) == Curve(a + b + [x])
    decreases |b|
  {
    if b == [] {
      assert a + [x] + b == a + b + [x];
    } else {
      var front, y := b[..|b| - 1], b[|b| - 1];
      MovedLast(a, x, front);
      assert a + [x] + b == (a + [x] + front) + [y] && a + b + [x] == ((a + front) + [y]) + [x];
      CurveSnoc(a + [x] + front, y);
      CurveSnoc(a + front, x);
      CurveSnoc(a + front, y);
      CurveSnoc((a + front) + [y], x);
      DrawdownAndLosses(a + front);
      AdvanceCommutes(Curve(a + front), x, y);
    }
  }

  lemma PnLsAround(a: seq<Position>, x: Position, b: seq<Position>)
    ensures PnLs(a + [x] + b) == PnLs(a) + [PnL(x)] + PnLs(b)
    ensures PnLs(a + b) == PnLs(a) + PnLs(b)
  {
  }

  /** Two orders of the same closed rows, both by close time. */
  ghost predicate Orders(a: seq<Position>, b: seq<Position>) {
    && Sorted(a, CloseTime()) && Sorted(b, CloseTime()) && multiset(a) == multiset(b)
    && TiesDoNotMix(a) && forall p :: p in a ==> p.status.Closed?
  }

  /** They replay to the same curve. */
  lemma {:induction false} SameCurve(a: seq<Position>, b: seq<Position>)
    requires Orders(a, b)
    ensures Curve(PnLs(a)) == Curve(PnLs(b))
    decreases |a|
  {
    if a == [] {
      assert |multiset(b)| == 0;
    } else {
      var front, x, before, after := Peel(a, b);
      SameCurve(front, before + after);
      CurvePastTied(before, x, after);
      CurvePastTied(front, x, []);
      assert front + [x] + [] == a && front + [] == front;
    }
  }

  lemma Peel(a: seq<Position>, b: seq<Position>)
    returns (front: seq<Position>, x: Position, before: seq<Position>, after: seq<Position>)
    requires a != [] && Orders(a, b)
    ensures a == front + [x] && b == before + [x] + after && Orders(front, before + after)
    ensures forall y :: y in PnLs(after) ==> Compatible(PnL(x), y)
  {
    front, x := a[..|a| - 1], a[|a| - 1];
    assert a == front + [x] && x in multiset(b);
    before, after := Around(b, x);
    PeeledOrders(front, x, before, after);
  }

  lemma Around(b: seq<Position>, x: Position) returns (before: seq<Position>, after: seq<Position>)
    requires x in b
    ensures b == before + [x] + after
  {
    var i: nat :| i < |b| && b[i] == x;
    before, after := b[..i], b[i + 1..];
  }

  lemma PeeledOrders(front: seq<Position>, x: Position, before: seq<Position>, after: seq<Position>)
    requires Orders(front + [x], before + [x] + after)
    ensures Orders(front, before + after)
    ensures forall y :: y in PnLs(after) ==> Compatible(PnL(x), y)
  {
    LaterOnesAreTied(front, x, before, after);
    SameWithoutOne(front, before, after, x);
    SortedWithoutOne(before, x, after);
    FrontKeeps(front, x);
  }

  lemma CurvePastTied(before: seq<Position>, x: Position, after: seq<Position>)
    requires forall y :: y in PnLs(after) ==> Compatible(PnL(x), y)
    ensures Curve(PnLs(before + [x] + after)) == Advance(Curve(PnLs(before + after)), PnL(x))
  {
    PnLsAround(before, x, after);
    MovedLast(PnLs(before), PnL(x), PnLs(after));
    CurveSnoc(PnLs(before) + PnLs(after), PnL(x));
  }

  lemma FrontKeeps(front: seq<Position>, x: Position)
    requires Sorted(front + [x], CloseTime()) && TiesDoNotMix(front + [x])
    requires forall p :: p in front + [x] ==> p.status.Closed?
    ensures Sorted(front, CloseTime()) && TiesDoNotMix(front) && forall p :: p in front ==> p.status.Closed?
  {
    assert forall i :: 0 <= i < |front| ==> (front + [x])[i] == front[i];
    assert forall p :: p in front ==> p in front + [x];
  }

  lemma SortedWithoutOne(before: seq<Position>, x: Position, after: seq<Position>)
    requires Sorted(before + [x] + after, CloseTime())
    ensures Sorted(before + after, CloseTime())
  {
    var all, rest := before + [x] + after, before + after;
    assert forall i :: 0 <= i < |rest| ==> rest[i] == all[if i < |before| then i else i + 1];
  }

  lemma LaterOnesAreTied(front: seq<Position>, x: Position, before: seq<Position>, after: seq<Position>)
    requires Orders(front + [x], before + [x] + after)
    ensures forall y :: y in PnLs(after) ==> Compatible(PnL(x), y)
  {
    var a, b, n := front + [x], before + [x] + after, |before|;
    forall j | 0 <= j < |after| ensures Compatible(PnL(x), PnL(after[j])) {
      assert b[n] == x && b[n + 1 + j] == after[j];
      assert after[j] in multiset(b) && after[j] in multiset(a);
      var k :| 0 <= k < |a| && a[k] == after[j];
      assert CloseTime()(a[k]) <= CloseTime()(a[|a| - 1]) && a[|a| - 1] == x;
      assert x in a && after[j] in a;
    }
  }

  lemma {:induction false} ClosedOnlyMultiset(ps: seq<Position>, q: Position)
    ensures multiset(ClosedOnly(ps))[q] == if q.status.Closed? then multiset(ps)[q] else 0
  {
    if ps != [] {
      ClosedOnlyMultiset(ps[..|ps| - 1], q);
      assert ps == ps[..|ps| - 1] + [ps[|ps| - 1]];
    }
  }

  /** Ties among wins only, or among losses only, do not matter either: the whole summary
      is the same for every order of the input as long as no win and loss tie. */
  lemma SummaryIsDeterminedUnlessTiesMix(a: seq<Position>, b: seq<Position>)
    requires multiset(a) == multiset(b) && TiesDoNotMix(a)
    ensures Summarise(Sort(a, CloseTime())) == Summarise(Sort(b, CloseTime()))
  {
    var sa, sb := Sort(a, CloseTime()), Sort(b, CloseTime());
    SortIsStable(a, CloseTime());
    SortIsStable(b, CloseTime());
    ClosedOnlySorted(sa);
    ClosedOnlySorted(sb);
    SummaryIgnoresOrder(sa, sb);
    ClosedOnlyMembers(sa);
    assert forall p :: p in sa ==> p in multiset(sa);
    assert forall p :: p in multiset(a) ==> p in a;
    assert multiset(ClosedOnly(sa)) == multiset(ClosedOnly(sb)) by {
      forall q ensures multiset(ClosedOnly(sa))[q] == multiset(ClosedOnly(sb))[q] {
        ClosedOnlyMultiset(sa, q);
        ClosedOnlyMultiset(sb, q);
      }
    }
    SameCurve(ClosedOnly(sa), ClosedOnly(sb));
  }

  predicate ClosedAtOnce(p: Position, q: Position) {
    p.status.Closed? && q.status.Closed? && p.status.closedAt == q.status.closedAt
  }

  lemma ThreeAtOnce(p: Position, q: Position, r: Position)
    requires ClosedAtOnce(p, q) && ClosedAtOnce(q, r)
    ensures Sort([p, q, r], CloseTime()) == [p, q, r]
    ensures PnLs(ClosedOnly([p, q, r])) == [PnL(p), PnL(q), PnL(r)]
  {
    var three := [p, q, r];
    assert three[..2] == [p, q] && [p, q][..1] == [p] && [p][..0] == [];
    assert Sort([p], CloseTime()) == [p] && ClosedOnly([p]) == [p];
    assert Sort([p, q], CloseTime()) == [p, q] && ClosedOnly([p, q]) == [p, q];
  }

  lemma CurveOfThree(x: real, y: real, z: real)
    ensures Curve([x, y, z]) == Advance(Advance(Advance(EquityCurve(0.0, 0.0, 0.0), x), y), z)
  {
    assert [x, y, z][..2] == [x, y] && [x, y][..1] == [x] && [x][..0] == [];
    assert Curve([x]) == Advance(Curve([]), x);
    assert Curve([x, y]) == Advance(Curve([x]), y);
  }

  /** The drawdown reported for an input. */
  ghost predicate Reports(ps: seq<Position>, drawdown: real) {
    MaxDrawdown(Sort(ps, CloseTime())) == drawdown
  }

  lemma DrawdownOfThree(p: Position, q: Position, r: Position, pnls: seq<real>)
    requires ClosedAtOnce(p, q) && ClosedAtOnce(q, r) && pnls == [PnL(p), PnL(q), PnL(r)]
    ensures Reports([p, q, r], Curve(pnls).drawdown)
  {
    ThreeAtOnce(p, q, r);
  }

  lemma LossesAroundWin(x: real)
    requires x > 0.0
    ensures Curve([-x, x, -x]).drawdown == x && Curve([-x, -x, x]).drawdown == 2.0 * x
  {
    CurveOfThree(-x, x, -x);
    CurveOfThree(-x, -x, x);
  }

  lemma SwappedPair(p: Position, q: Position, r: Position)
    ensures multiset([p, q, r]) == multiset([p, r, q])
  {
  }

  /** Where close times tie the drawdown depends on the order of the input, because the
      stable sort leaves ties as they came: a win between two equal losses halves it. */
  lemma TiesChangeDrawdown(lost: Position, won: Position, lostToo: Position, x: real)
    requires ClosedAtOnce(lost, won) && ClosedAtOnce(won, lostToo)
    requires x > 0.0 && PnL(lost) == -x && PnL(lostToo) == -x && PnL(won) == x
    ensures multiset([lost, won, lostToo]) == multiset([lost, lostToo, won])
    ensures Reports([lost, won, lostToo], x) && Reports([lost, lostToo, won], 2.0 * x)
  {
    SwappedPair(lost, won, lostToo);
    LossesAroundWin(x);
    DrawdownOfThree(lost, won, lostToo, [-x, x, -x]);
    DrawdownOfThree(lost, lostToo, won, [-x, -x, x]);
  }

  // ----- what each entry stands for -----

  function EarnedIn(ticker: string): Position -> real {
    (p: Position) => if p.status.Closed? && p.ticker == ticker then p.status.pnl else 0.0
  }

  function EarnedOn(day: string): Position -> real {
    (p: Position) => if p.status.Closed? && p.status.closedAt.day == day then p.status.pnl else 0.0
  }

  function EarnedBy(reason: string): Position -> real {
    (p: Position) => if p.status.Closed? && p.status.reason == reason then p.status.pnl else 0.0
  }

  lemma {:induction false} TotalAgrees(ps: seq<Position>, f: Position -> real, g: Position -> real)
    requires forall p :: f(p) == g(p)
    ensures Total(ps, f) == Total(ps, g)
  {
    if ps != [] { TotalAgrees(ps[..|ps| - 1], f, g); }
  }

  lemma {:induction false} CountAgrees(ps: seq<Position>, f: Position -> bool, g: Position -> bool)
    requires forall p :: f(p) == g(p)
    ensures Count(ps, f) == Count(ps, g)
  {
    if ps != [] { CountAgrees(ps[..|ps| - 1], f, g); }
  }

  ghost predicate TickerEntries(m: map<string, real>, ps: seq<Position>) {
    && (forall l :: l in m <==> exists p :: p in ps && p.status.Closed? && p.ticker == l)
    && (forall l :: l in m ==> m[l] == Total(ps, EarnedIn(l)))
  }

  ghost predicate DayEntries(m: map<string, real>, ps: seq<Position>) {
    && (forall l :: l in m <==> exists p :: p in ps && p.status.Closed? && p.status.closedAt.day == l)
    && (forall l :: l in m ==> m[l] == Total(ps, EarnedOn(l)))
  }

  ghost predicate ReasonEntries(m: map<string, real>, ps: seq<Position>) {
    && (forall l :: l in m <==> exists p :: p in ps && p.status.Closed? && p.status.reason == l)
    && (forall l :: l in m ==> m[l] == Total(ps, EarnedBy(l)))
  }

  /** Each breakdown has an entry for exactly the tickers, close days and exit reasons of the
      closed rows, and it holds what those rows earned. */
  lemma EntriesAreTheirRows(ordered: seq<Position>)
    ensures TickerEntries(Summarise(ordered).byTicker, ordered)
    ensures DayEntries(Summarise(ordered).byDay, ordered)
    ensures ReasonEntries(Summarise(ordered).byExitReason, ordered)
  {
    ByTickerIsExact(ordered);
    ByDayIsExact(ordered);
    ByReasonIsExact(ordered);
  }

  lemma UnderTicker(l: string, p: Position)
    ensures Under(TickerLabel(), l)(p) == EarnedIn(l)(p)
  {
    var tag := TickerLabel();
    assert tag(p) == p.ticker;
    assert Under(tag, l)(p) == if tag(p) == l then PnL(p) else 0.0;
  }

  lemma ByTickerIsExact(ps: seq<Position>)
    ensures TickerEntries(GroupBy(ps, TickerLabel()), ps)
  {
    GroupByIsTotals(ps, TickerLabel());
    forall l ensures Total(ps, Under(TickerLabel(), l)) == Total(ps, EarnedIn(l)) {
      forall p ensures Under(TickerLabel(), l)(p) == EarnedIn(l)(p) { UnderTicker(l, p); }
      TotalAgrees(ps, Under(TickerLabel(), l), EarnedIn(l));
    }
  }

  lemma UnderDay(l: string, p: Position)
    ensures Under(DayLabel(), l)(p) == EarnedOn(l)(p)
  {
    var tag := DayLabel();
    assert tag(p) == if p.status.Closed? then p.status.closedAt.day else "";
    assert Under(tag, l)(p) == if tag(p) == l then PnL(p) else 0.0;
  }

  lemma ByDayIsExact(ps: seq<Position>)
    ensures DayEntries(GroupBy(ps, DayLabel()), ps)
  {
    GroupByIsTotals(ps, DayLabel());
    forall l ensures Total(ps, Under(DayLabel(), l)) == Total(ps, EarnedOn(l)) {
      forall p ensures Under(DayLabel(), l)(p) == EarnedOn(l)(p) { UnderDay(l, p); }
      TotalAgrees(ps, Under(DayLabel(), l), EarnedOn(l));
    }
  }

  lemma UnderReason(l: string, p: Position)
    ensures Under(ReasonLabel(), l)(p) == EarnedBy(l)(p)
  {
    var tag := ReasonLabel();
    assert tag(p) == if p.status.Closed? then p.status.reason else "";
    assert Under(tag, l)(p) == if tag(p) == l then PnL(p) else 0.0;
  }

  lemma ByReasonIsExact(ps: seq<Position>)
    ensures ReasonEntries(GroupBy(ps, ReasonLabel()), ps)
  {
    GroupByIsTotals(ps, ReasonLabel());
    forall l ensures Total(ps, Under(ReasonLabel(), l)) == Total(ps, EarnedBy(l)) {
      forall p ensures Under(ReasonLabel(), l)(p) == EarnedBy(l)(p) { UnderReason(l, p); }
      TotalAgrees(ps, Under(ReasonLabel(), l), EarnedBy(l));
    }
  }

  function Won(): Position -> bool { (p: Position) => p.status.Closed? && p.status.pnl > 0.0 }
  function Lost(): Position -> bool { (p: Position) => p.status.Closed? && p.status.pnl < 0.0 }

  /** The counts are those of closed rows, of winners and of losers; break-even rows are in
      neither; and the win rate is the winners' share of the two. */
  lemma CountsAndWinRate(ordered: seq<Position>)
    ensures var s := Summarise(ordered);
            && s.closedTrades == |ClosedOnly(ordered)|
            && s.wins == Count(ordered, Won()) && s.losses == Count(ordered, Lost())
            && WinRateIsShare(s)
  {
    CountAgrees(ordered, IsWin(), Won());
    CountAgrees(ordered, IsLoss(), Lost());
    ClosedOnlyLength(ordered);
    RateFromCounts(Summarise(ordered));
  }

  lemma RateFromCounts(s: Summary)
    requires s.winRate == Ratio(s.wins as real, s.wins + s.losses)
    ensures WinRateIsShare(s)
  {
    RatioTimes(s.wins as real, s.wins + s.losses);
  }

  predicate WinRateIsShare(s: Summary) {
    && s.winRate * ((s.wins + s.losses) as real) == s.wins as real
    && (s.wins + s.losses == 0 ==> s.winRate == 0.0)
  }

  lemma {:induction false} ClosedOnlyLength(ps: seq<Position>)
    ensures |ClosedOnly(ps)| == Count(ps, IsClosed())
  {
    if ps != [] { ClosedOnlyLength(ps[..|ps| - 1]); }
  }

  // ----- the loop -----

  /** The loop's accumulators. */
  datatype Tally = Tally(
    closed: nat, wins: nat, losses: nat, total: real, winSum: real, lossSum: real, curve: EquityCurve,
    byTicker: map<string, real>, byDay: map<string, real>, byReason: map<string, real>)

  function TallyOf(ps: seq<Position>): Tally {
    Tally(Count(ps, IsClosed()), Count(ps, IsWin()), Count(ps, IsLoss()),
          Total(ps, Realised()), Total(ps, Gain()), Total(ps, Loss()), Curve(PnLs(ClosedOnly(ps))),
          GroupBy(ps, TickerLabel()), GroupBy(ps, DayLabel()), GroupBy(ps, ReasonLabel()))
  }

  /** One closed row's effect on them. */
  function Absorb(t: Tally, pos: Position): Tally
    requires pos.status.Closed?
  {
    var pnl := pos.status.pnl;
    Tally(t.closed + 1, t.wins + (if pnl > 0.0 then 1 else 0), t.losses + (if pnl < 0.0 then 1 else 0),
          t.total + pnl, t.winSum + (if pnl > 0.0 then pnl else 0.0), t.lossSum + (if pnl < 0.0 then pnl else 0.0),
          Advance(t.curve, pnl),
          Bump(t.byTicker, pos.ticker, pnl), Bump(t.byDay, pos.status.closedAt.day, pnl),
          Bump(t.byReason, pos.status.reason, pnl))
  }

  lemma TallySnoc(ps: seq<Position>, pos: Position)
    ensures TallyOf(ps + [pos]) == if pos.status.Closed? then Absorb(TallyOf(ps), pos) else TallyOf(ps)
  {
    assert (ps + [pos])[..|ps|] == ps;
    var was, now := PnLs(ClosedOnly(ps)), PnLs(ClosedOnly(ps + [pos]));
    if pos.status.Closed? {
      assert now == was + [pos.status.pnl];
      assert now[..|now| - 1] == was;
    } else {
      assert now == was;
    }
  }

  function Finish(t: Tally): Summary {
    Summary(t.closed, t.total, t.wins, t.losses,
            Ratio(t.wins as real, t.wins + t.losses), Ratio(t.winSum, t.wins), Ratio(t.lossSum, t.losses),
            t.curve.drawdown, t.byTicker, t.byDay, t.byReason)
  }

  lemma FinishIsSummarise(ps: seq<Position>)
    ensures Finish(TallyOf(ps)) == Summarise(ps)
  {
  }

  method TallyUp(ordered: seq<Position>) returns (t: Tally)
    ensures t == TallyOf(ordered)
  {
    var closed, wins, losses: nat := 0, 0, 0;
    var total, winSum, lossSum, equity, peak, drawdown := 0.0, 0.0, 0.0, 0.0, 0.0, 0.0;
    var byTicker: map<string, real>, byDay: map<string, real>, byReason: map<string, real> := map[], map[], map[];
    ghost var so := TallyOf([]);
    for i := 0 to |ordered|
      invariant so == TallyOf(ordered[..i])
      invariant so == Tally(closed, wins, losses, total, winSum, lossSum, EquityCurve(equity, peak, drawdown),
                            byTicker, byDay, byReason)
    {
      var pos := ordered[i];
      TallySnoc(ordered[..i], pos);
      assert ordered[..i + 1] == ordered[..i] + [pos];
      if !pos.status.Closed? { continue; }
      so := Absorb(so, pos);
      var pnl := pos.status.pnl;
      closed, total := closed + 1, total + pnl;
      byTicker := Bump(byTicker, pos.ticker, pnl);
      byDay := Bump(byDay, pos.status.closedAt.day, pnl);
      byReason := Bump(byReason, pos.status.reason, pnl);
      if pnl > 0.0 {
        wins, winSum := wins + 1, winSum + pnl;
      } else if pnl < 0.0 {
        losses, lossSum := losses + 1, lossSum + pnl;
      }
      equity := equity + pnl;
      if equity > peak { peak := equity; }
      var dd := peak - equity;
      if dd > drawdown { drawdown := dd; }
    }
    assert ordered[..|ordered|] == ordered;
    t := Tally(closed, wins, losses, total, winSum, lossSum, EquityCurve(equity, peak, drawdown),
               byTicker, byDay, byReason);
  }

  method ComputeSummary(positions: seq<Position>) returns (s: Summary)
    ensures s == Summarise(Sort(positions, CloseTime()))
    ensures IsLargestFall(PnLs(ClosedOnly(Sort(positions, CloseTime()))), s.maxDrawdown)
  {
    var ordered := Sort(positions, CloseTime());
    var t := TallyUp(ordered);
    FinishIsSummarise(ordered);
    DrawdownIsLargestFall(PnLs(ClosedOnly(ordered)));
    var winRate, avgWin, avgLoss := 0.0, 0.0, 0.0;
    if t.wins + t.losses > 0 { winRate := (t.wins as real) / ((t.wins + t.losses) as real); }
    if t.wins > 0 { avgWin := t.winSum / (t.wins as real); }
    if t.losses > 0 { avgLoss := t.lossSum / (t.losses as real); }
    s := Summary(t.closed, t.total, t.wins, t.losses, winRate, avgWin, avgLoss, t.curve.drawdown,
                 t.byTicker, t.byDay, t.byReason);
  }
}
