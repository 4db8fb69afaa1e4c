/** The exposure tracker and the three position gates
    (src/analysts/riskmanager/exposure.go and bias.go). */
module Exposure {
  import opened Models
  import opened Counting
  import opened Reals

  datatype Counters = Counters(total: int, longs: int, shorts: int, sectors: map<string, int>)

  datatype Limits = Limits(maxSector: int, maxTotal: int, maxBias: real)

  const DEFAULT_LIMITS := Limits(1, 4, 3.0)

  const ZERO := Counters(0, 0, 0, map[])

  datatype Gate = Admit | SectorLimit | TotalLimit

  function EntryGate(c: Counters, lim: Limits, sector: string): Gate {
    if sector in c.sectors && c.sectors[sector] >= lim.maxSector then SectorLimit
    else if c.total >= lim.maxTotal then TotalLimit
    else Admit
  }

  /** CheckBias: true when the entry keeps both ratios within the ceiling. */
  predicate BiasAdmits(longs: int, shorts: int, side: Side, maxRatio: real) {
    var l := longs + (if side.Short? then 0 else 1);
    var s := shorts + (if side.Short? then 1 else 0);
    l > 0 && s > 0 ==> l as real <= maxRatio * (s as real) && s as real <= maxRatio * (l as real)
  }

  /** The larger side is at most the ratio times the smaller, once both sides are held. */
  lemma BiasGateComparesSides(longs: int, shorts: int, side: Side, maxRatio: real)
    ensures var l, s := if side.Long? then longs + 1 else longs, if side.Short? then shorts + 1 else shorts;
            BiasAdmits(longs, shorts, side, maxRatio) <==>
              l <= 0 || s <= 0 || (if l < s then s else l) as real <= maxRatio * ((if l < s then l else s) as real)
  {
    var l, s := if side.Long? then longs + 1 else longs, if side.Short? then shorts + 1 else shorts;
    if l > 0 && s > 0 {
      SmallerSideFits((if l < s then l else s) as real, (if l < s then s else l) as real, maxRatio);
    }
  }

  lemma SmallerSideFits(small: real, large: real, ratio: real)
    requires 0.0 < small <= large
    ensures large <= ratio * small ==> small <= ratio * large
  {
    if ratio >= 0.0 {
      assert ratio * large - ratio * small == ratio * (large - small);
      ProductNonnegative(ratio, large - small);
    } else {
      ProductPositive(-ratio, small);
      assert (-ratio) * small == -(ratio * small);
    }
  }

  function At(sectors: map<string, int>, sector: string): int {
    if sector in sectors then sectors[sector] else 0
  }

  function Registered(c: Counters, side: Side, sector: string): Counters {
    Counters(c.total + 1,
             c.longs + (if side.Short? then 0 else 1),
             c.shorts + (if side.Short? then 1 else 0),
             c.sectors[sector := At(c.sectors, sector) + 1])
  }

  function Floored(n: int): int { if n - 1 < 0 then n else n - 1 }

  function ReleasedIn(sectors: map<string, int>, sector: string): map<string, int> {
    if sector !in sectors then sectors
    else if sectors[sector] - 1 <= 0 then sectors - {sector}
    else sectors[sector := sectors[sector] - 1]
  }

  function Released(c: Counters, side: Side, sector: string): Counters {
    Counters(Floored(c.total),
             if side.Short? then c.longs else Floored(c.longs),
             if side.Short? then Floored(c.shorts) else c.shorts,
             ReleasedIn(c.sectors, sector))
  }

  function Recounted(open: seq<Position>): Counters {
    if open == [] then ZERO
    else Registered(Recounted(open[..|open| - 1]), open[|open| - 1].side, open[|open| - 1].sector)
  }

  /** The abstract book the counters stand for. */
  datatype Holding = Holding(side: Side, sector: string)

  type Book = seq<Holding>

  function OnSide(side: Side): Holding -> bool { (h: Holding) => h.side == side }

  function InSector(sector: string): Holding -> bool { (h: Holding) => h.sector == sector }

  ghost predicate Tracks(c: Counters, book: Book) {
    && c.total == |book|
    && c.longs == Count(book, OnSide(Long))
    && c.shorts == Count(book, OnSide(Short))
    && (forall s :: At(c.sectors, s) == Count(book, InSector(s)))
    && (forall s :: s in c.sectors ==> c.sectors[s] > 0)
  }

  ghost function SectorSum(sectors: map<string, int>): real {
    SumMap(map s | s in sectors :: sectors[s] as real)
  }

  lemma RegisterTracks(c: Counters, book: Book, side: Side, sector: string)
    requires Tracks(c, book)
    ensures Tracks(Registered(c, side, sector), book + [Holding(side, sector)])
  {
    var h := Holding(side, sector);
    assert (book + [h])[..|book|] == book;
  }

  lemma ReleaseTracks(c: Counters, book: Book, i: nat)
    requires Tracks(c, book) && i < |book|
    ensures Tracks(Released(c, book[i].side, book[i].sector), book[..i] + book[i + 1..])
  {
    var after := Released(c, book[i].side, book[i].sector);
    var rest := book[..i] + book[i + 1..];
    CountRemove(book, i, OnSide(Long));
    CountRemove(book, i, OnSide(Short));
    forall s ensures At(after.sectors, s) == Count(rest, InSector(s)) {
      CountRemove(book, i, InSector(s));
    }
  }

  /** The entry gate, asked of counters that track a book: it admits exactly when the book
      has room, and either nothing of the sector is held or less than the sector ceiling. */
  lemma EntryGateAdmitsExactlyWhen(c: Counters, book: Book, lim: Limits, sector: string)
    requires Tracks(c, book)
    ensures var held := Count(book, InSector(sector));
            && (EntryGate(c, lim, sector).Admit? <==> |book| < lim.maxTotal && (held == 0 || held < lim.maxSector))
            && (EntryGate(c, lim, sector).SectorLimit? <==> held > 0 && held >= lim.maxSector)
  {
    assert At(c.sectors, sector) == Count(book, InSector(sector));
  }

  function BookOf(open: seq<Position>): Book {
    if open == [] then []
    else BookOf(open[..|open| - 1]) + [Holding(open[|open| - 1].side, open[|open| - 1].sector)]
  }

  lemma {:induction false} RecountTracks(open: seq<Position>)
    ensures Tracks(Recounted(open), BookOf(open))
  {
    if open != [] {
      RecountTracks(open[..|open| - 1]);
      RegisterTracks(Recounted(open[..|open| - 1]), BookOf(open[..|open| - 1]),
                     open[|open| - 1].side, open[|open| - 1].sector);
    }
  }

  /** Counters that track a book agree with one another. */
  lemma {:induction false} TrackedCountersAgree(c: Counters, book: Book)
    requires Tracks(c, book)
    ensures c.total == c.longs + c.shorts
    ensures SectorSum(c.sectors) == c.total as real
    decreases |book|
  {
    if book == [] {
      forall s ensures s !in c.sectors { assert At(c.sectors, s) == 0; }
      assert c.sectors == map[];
      assert (map s | s in c.sectors :: c.sectors[s] as real) == map[];
    } else {
      var last := |book| - 1;
      var h := book[last];
      var before := Released(c, h.side, h.sector);
      ReleaseTracks(c, book, last);
      assert book[..last] + book[last + 1..] == book[..last];
      TrackedCountersAgree(before, book[..last]);
      assert At(c.sectors, h.sector) == Count(book, InSector(h.sector)) > 0;
      var now := map s | s in c.sectors :: c.sectors[s] as real;
      var was := map s | s in before.sectors :: before.sectors[s] as real;
      SumMapAdd(was, h.sector, 1.0);
      assert now == was[h.sector := (if h.sector in was then was[h.sector] else 0.0) + 1.0];
    }
  }

  // ----- the gates over whole runs -----

  datatype Event =
    | Enter(side: Side, sector: string)
    | Exit(index: nat)
    | Refresh(open: seq<Position>)

  function Max(a: int, b: int): int { if a < b then b else a }

  /** What the entry gate can promise: an absent sector is admitted whatever the sector
      ceiling, so the ceiling it enforces is never below one. */
  ghost predicate WithinLimits(book: Book, lim: Limits) {
    && |book| <= Max(0, lim.maxTotal)
    && forall s :: Count(book, InSector(s)) <= Max(1, lim.maxSector)
  }

  /** An Exit releases a held position; a Refresh lists a portfolio within the limits. */
  ghost predicate Legal(book: Book, lim: Limits, e: Event) {
    match e
    case Enter(_, _) => true
    case Exit(i) => i < |book|
    case Refresh(open) => WithinLimits(BookOf(open), lim)
  }

  datatype Ledger = Ledger(c: Counters, book: Book)

  function Step(l: Ledger, lim: Limits, e: Event): Ledger {
    match e
    case Enter(side, sector) =>
      if EntryGate(l.c, lim, sector).Admit? && BiasAdmits(l.c.longs, l.c.shorts, side, lim.maxBias)
      then Ledger(Registered(l.c, side, sector), l.book + [Holding(side, sector)])
      else l
    case Exit(i) =>
      if i < |l.book| then Ledger(Released(l.c, l.book[i].side, l.book[i].sector), l.book[..i] + l.book[i + 1..])
      else l
    case Refresh(open) => Ledger(Recounted(open), BookOf(open))
  }

  function Run(events: seq<Event>, lim: Limits): Ledger {
    if events == [] then Ledger(ZERO, [])
    else Step(Run(events[..|events| - 1], lim), lim, events[|events| - 1])
  }

  ghost predicate LegalRun(events: seq<Event>, lim: Limits) {
    events != [] ==>
      && LegalRun(events[..|events| - 1], lim)
      && Legal(Run(events[..|events| - 1], lim).book, lim, events[|events| - 1])
  }

  /** Over every run of gated entries, matched releases and in-limit refreshes the
      counters agree and both ceilings hold. */
  lemma {:induction false} GatesBoundEveryRun(events: seq<Event>, lim: Limits)
    requires LegalRun(events, lim)
    ensures var l := Run(events, lim);
            && Tracks(l.c, l.book) && WithinLimits(l.book, lim)
            && l.c.total == l.c.longs + l.c.shorts && SectorSum(l.c.sectors) == l.c.total as real
  {
    var l := Run(events, lim);
    if events != [] {
      var e := events[|events| - 1];
      var l0 := Run(events[..|events| - 1], lim);
      GatesBoundEveryRun(events[..|events| - 1], lim);
      match e {
        case Enter(side, sector) =>
          if l != l0 {
            RegisterTracks(l0.c, l0.book, side, sector);
            forall s ensures Count(l.book, InSector(s)) <= Max(1, lim.maxSector) {
              assert l.book[..|l0.book|] == l0.book;
              assert At(l0.c.sectors, s) == Count(l0.book, InSector(s));
            }
          }
        case Exit(i) =>
          ReleaseTracks(l0.c, l0.book, i);
          forall s ensures Count(l.book, InSector(s)) <= Max(1, lim.maxSector) {
            CountRemove(l0.book, i, InSector(s));
          }
        case Refresh(open) =>
          RecountTracks(open);
      }
    }
    TrackedCountersAgree(l.c, l.book);
  }

  /** The sector ceiling is kept over all runs exactly when it is at least one, or is
      zero on a platform that admits nothing: EntryGate looks up the sector's counter
      first, and a sector without one passes whatever the ceiling. */
  lemma SectorCeilingIsKeptExactlyWhen(lim: Limits)
    ensures (forall events, s :: LegalRun(events, lim) ==> At(Run(events, lim).c.sectors, s) <= lim.maxSector)
            <==> lim.maxSector >= 1 || (lim.maxSector == 0 && lim.maxTotal <= 0)
  {
    var kept := lim.maxSector >= 1 || (lim.maxSector == 0 && lim.maxTotal <= 0);
    forall events, s | kept && LegalRun(events, lim)
      ensures At(Run(events, lim).c.sectors, s) <= lim.maxSector
    {
      GatesBoundEveryRun(events, lim);
      CountAtMost(Run(events, lim).book, InSector(s));
    }
    var first := Enter(Long, "Energy");
    RunSnoc([], lim, first);
    assert [] + [first] == [first];
    assert At(Run([], lim).c.sectors, "Energy") == 0;
    if !kept && lim.maxTotal > 0 {
      assert BiasAdmits(0, 0, Long, lim.maxBias);
      assert At(Run([first], lim).c.sectors, "Energy") == 1;
    }
  }

  /** An entry that the first two gates admit and the third turns away. */
  ghost predicate BiasBinds(events: seq<Event>, lim: Limits, side: Side, sector: string) {
    var c := Run(events, lim).c;
    LegalRun(events, lim) && EntryGate(c, lim, sector).Admit? && !BiasAdmits(c.longs, c.shorts, side, lim.maxBias)
  }

  /** The bias gate ever decides anything exactly when the concurrency ceiling exceeds
      the ratio ceiling by more than one (and leaves room for two positions). */
  lemma BiasGateIsRedundantExactlyWhen(lim: Limits)
    ensures (forall events, side, sector :: !BiasBinds(events, lim, side, sector))
            <==> lim.maxTotal <= 1 || lim.maxTotal as real <= lim.maxBias + 1.0
  {
    if lim.maxTotal <= 1 || lim.maxTotal as real <= lim.maxBias + 1.0 {
      forall events, side, sector ensures !BiasBinds(events, lim, side, sector) {
        BiasNeverBinds(events, lim, side, sector);
      }
    } else {
      var n := lim.maxTotal - 1;
      LongsOnly(lim, n);
      assert !BiasAdmits(n, 0, Short, lim.maxBias);
      assert EntryGate(LongCounters(n), lim, Name(n)).Admit?;
      assert BiasBinds(LongRun(n), lim, Short, Name(n));
    }
  }

  /** The default ceilings (4 positions, 3:1) make the bias gate redundant. */
  lemma DefaultBiasGateIsRedundant(events: seq<Event>, side: Side, sector: string)
    ensures DEFAULT_LIMITS == Limits(1, 4, 3.0) && !BiasBinds(events, DEFAULT_LIMITS, side, sector)
  {
    BiasGateIsRedundantExactlyWhen(DEFAULT_LIMITS);
  }

  lemma BiasNeverBinds(events: seq<Event>, lim: Limits, side: Side, sector: string)
    requires lim.maxTotal <= 1 || lim.maxTotal as real <= lim.maxBias + 1.0
    ensures !BiasBinds(events, lim, side, sector)
  {
    var c := Run(events, lim).c;
    if LegalRun(events, lim) && c.total < lim.maxTotal {
      GatesBoundEveryRun(events, lim);
      SmallTotalsAreBalanced(c.longs, c.shorts, side, lim);
    }
  }

  lemma SmallTotalsAreBalanced(longs: int, shorts: int, side: Side, lim: Limits)
    requires longs >= 0 && shorts >= 0 && longs + shorts < lim.maxTotal
    requires lim.maxTotal <= 1 || lim.maxTotal as real <= lim.maxBias + 1.0
    ensures BiasAdmits(longs, shorts, side, lim.maxBias)
  {
    var l := longs + (if side.Short? then 0 else 1);
    var s := shorts + (if side.Short? then 1 else 0);
    if l > 0 && s > 0 {
      RatioHolds(l, s, lim.maxBias);
      RatioHolds(s, l, lim.maxBias);
    }
  }

  lemma RatioHolds(a: int, b: int, ratio: real)
    requires a >= 1 && b >= 1 && (a + b) as real <= ratio + 1.0
    ensures a as real <= ratio * (b as real)
  {
    var more := (b - 1) as real;
    assert a as real <= ratio;
    assert ratio * more >= 0.0;
    assert b as real == more + 1.0;
    assert ratio * (more + 1.0) == ratio * more + ratio;
  }

  function Name(n: nat): string { seq(n, _ => 's') }

  function LongRun(n: nat): seq<Event> {
    if n == 0 then [] else LongRun(n - 1) + [Enter(Long, Name(n - 1))]
  }

  function LongCounters(n: nat): (c: Counters)
    ensures c.total == c.longs == n && c.shorts == 0
    ensures forall s :: s in c.sectors ==> |s| < n
  {
    if n == 0 then ZERO else Registered(LongCounters(n - 1), Long, Name(n - 1))
  }

  lemma {:induction false} LongsOnly(lim: Limits, n: nat)
    requires n <= lim.maxTotal
    ensures LegalRun(LongRun(n), lim) && Run(LongRun(n), lim).c == LongCounters(n)
  {
    if n > 0 {
      LongsOnly(lim, n - 1);
      LongIsAdmitted(Run(LongRun(n - 1), lim), lim, n);
      RunSnoc(LongRun(n - 1), lim, Enter(Long, Name(n - 1)));
    }
  }

  lemma LongIsAdmitted(l: Ledger, lim: Limits, n: nat)
    requires 0 < n <= lim.maxTotal && l.c == LongCounters(n - 1)
    ensures Step(l, lim, Enter(Long, Name(n - 1))).c == LongCounters(n)
  {
    assert BiasAdmits(n - 1, 0, Long, lim.maxBias);
  }

  lemma RunSnoc(events: seq<Event>, lim: Limits, e: Event)
    requires LegalRun(events, lim) && Legal(Run(events, lim).book, lim, e)
    ensures LegalRun(events + [e], lim) && Run(events + [e], lim) == Step(Run(events, lim), lim, e)
  {
    assert (events + [e])[..|events|] == events;
  }

  // ----- the tracker itself -----

  class Exposure {
    var total: int
    var longs: int
    var shorts: int
    var sectorCount: map<string, int>
    const limits: Limits

    ghost function State(): Counters reads this { Counters(total, longs, shorts, sectorCount) }

    constructor (limits: Limits)
      ensures State() == ZERO && this.limits == limits
    {
      this.limits := limits;
      total, longs, shorts := 0, 0, 0;
      sectorCount := map[];
    }

    method Register(side: Side, sector: string)
      modifies this
      ensures State() == Registered(old(State()), side, sector)
    {
      total := total + 1;
      if side.Short? { shorts := shorts + 1; } else { longs := longs + 1; }
      if sector !in sectorCount { sectorCount := sectorCount[sector := 0]; }
      sectorCount := sectorCount[sector := sectorCount[sector] + 1];
    }

    method Release(side: Side, sector: string)
      modifies this
      ensures State() == Released(old(State()), side, sector)
    {
      if sector in sectorCount {
        sectorCount := sectorCount[sector := sectorCount[sector] - 1];
        if sectorCount[sector] <= 0 { sectorCount := sectorCount - {sector}; }
      }
      assert sectorCount == ReleasedIn(old(sectorCount), sector);
      total := total - 1;
      if total < 0 { total := total + 1; }
      if side.Short? {
        shorts := shorts - 1;
        if shorts < 0 { shorts := shorts + 1; }
      } else {
        longs := longs - 1;
        if longs < 0 { longs := longs + 1; }
      }
    }

    method RefreshFromDB(open: seq<Position>)
      modifies this
      ensures State() == Recounted(open) && Tracks(State(), BookOf(open))
    {
      total, longs, shorts := 0, 0, 0;
      sectorCount := map[];
      for i := 0 to |open|
        invariant State() == Recounted(open[..i])
      {
        assert open[..i + 1][..i] == open[..i];
        Register(open[i].side, open[i].sector);
      }
      assert open[..|open|] == open;
      RecountTracks(open);
    }
  }

  /** Release never takes a counter below zero, matched or not. */
  lemma ReleaseKeepsCountersNonnegative(c: Counters, side: Side, sector: string)
    requires c.total >= 0 && c.longs >= 0 && c.shorts >= 0 && forall s :: s in c.sectors ==> c.sectors[s] > 0
    ensures var r := Released(c, side, sector);
            r.total >= 0 && r.longs >= 0 && r.shorts >= 0 && forall s :: s in r.sectors ==> r.sectors[s] > 0
  {
  }
}
