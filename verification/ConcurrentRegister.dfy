/** Concurrent Register calls, one atomic operation at a time
    (src/analysts/riskmanager/exposure.go, Register).

    A call performs four atomic operations: total.Add, the side counter's Add,
    sectorCount.LoadOrStore, and the Add on the counter found there.  A schedule is
    any sequence of caller indices; naming a finished caller is a no-op. */
module ConcurrentRegister {
  import opened Models
  import opened Counting
  import opened Exposure

  /** done counts the operations the call has performed. */
  datatype Caller = Caller(side: Side, sector: string, done: nat)

  datatype Shared = Shared(c: Counters, callers: seq<Caller>)

  function Operate(c: Counters, k: Caller): Counters {
    match k.done
    case 0 => c.(total := c.total + 1)
    case 1 => if k.side.Short? then c.(shorts := c.shorts + 1) else c.(longs := c.longs + 1)
    case 2 => if k.sector in c.sectors then c else c.(sectors := c.sectors[k.sector := 0])
    case 3 => c.(sectors := c.sectors[k.sector := At(c.sectors, k.sector) + 1])
    case _ => c
  }

  function Advance(s: Shared, i: nat): Shared {
    if i < |s.callers| && s.callers[i].done < 4 then
      Shared(Operate(s.c, s.callers[i]), s.callers[i := s.callers[i].(done := s.callers[i].done + 1)])
    else s
  }

  function RunSchedule(s: Shared, schedule: seq<nat>): Shared {
    if schedule == [] then s
    else Advance(RunSchedule(s, schedule[..|schedule| - 1]), schedule[|schedule| - 1])
  }

  function Past(step: nat): Caller -> bool { (k: Caller) => k.done >= step }

  function PastOn(step: nat, side: Side): Caller -> bool { (k: Caller) => k.done >= step && k.side == side }

  function PastIn(step: nat, sector: string): Caller -> bool { (k: Caller) => k.done >= step && k.sector == sector }

  /** Each counter is its value at the start plus the calls already past the operation
      that raises it; a sector has an entry once some call has stored one. */
  ghost predicate CountsCalls(base: Counters, s: Shared) {
    && s.c.total == base.total + Count(s.callers, Past(1))
    && s.c.longs == base.longs + Count(s.callers, PastOn(2, Long))
    && s.c.shorts == base.shorts + Count(s.callers, PastOn(2, Short))
    && (forall t :: t in s.c.sectors <==> t in base.sectors || Count(s.callers, PastIn(3, t)) > 0)
    && (forall t :: At(s.c.sectors, t) == At(base.sectors, t) + Count(s.callers, PastIn(4, t)))
  }

  ghost predicate Fresh(callers: seq<Caller>) {
    forall i :: 0 <= i < |callers| ==> callers[i].done == 0
  }

  lemma AdvanceCounts(base: Counters, s: Shared, i: nat)
    requires CountsCalls(base, s)
    ensures CountsCalls(base, Advance(s, i))
  {
    if i < |s.callers| && s.callers[i].done < 4 {
      AdvanceCountsSides(base, s, i);
      forall t
        ensures At(Advance(s, i).c.sectors, t) == At(base.sectors, t) + Count(Advance(s, i).callers, PastIn(4, t))
        ensures t in Advance(s, i).c.sectors <==> t in base.sectors || Count(Advance(s, i).callers, PastIn(3, t)) > 0
      {
        AdvanceCountsSector(base, s, i, t);
      }
    }
  }

  lemma AdvanceCountsSides(base: Counters, s: Shared, i: nat)
    requires CountsCalls(base, s) && i < |s.callers| && s.callers[i].done < 4
    ensures var after := Advance(s, i);
            && after.c.total == base.total + Count(after.callers, Past(1))
            && after.c.longs == base.longs + Count(after.callers, PastOn(2, Long))
            && after.c.shorts == base.shorts + Count(after.callers, PastOn(2, Short))
  {
    var moved := s.callers[i].(done := s.callers[i].done + 1);
    CountUpdate(s.callers, i, moved, Past(1));
    CountUpdate(s.callers, i, moved, PastOn(2, Long));
    CountUpdate(s.callers, i, moved, PastOn(2, Short));
  }

  lemma AdvanceCountsSector(base: Counters, s: Shared, i: nat, t: string)
    requires CountsCalls(base, s) && i < |s.callers| && s.callers[i].done < 4
    ensures var after := Advance(s, i);
            && At(after.c.sectors, t) == At(base.sectors, t) + Count(after.callers, PastIn(4, t))
            && (t in after.c.sectors <==> t in base.sectors || Count(after.callers, PastIn(3, t)) > 0)
  {
    var k := s.callers[i];
    var moved := k.(done := k.done + 1);
    CountUpdate(s.callers, i, moved, PastIn(3, t));
    CountUpdate(s.callers, i, moved, PastIn(4, t));
    if k.done == 3 && k.sector == t {
      CountAtMost(s.callers, PastIn(3, t));
      assert k in s.callers && PastIn(3, t)(k);
    }
  }

  /** In every interleaving, at every moment. */
  lemma {:induction false} EveryInterleavingCountsCalls(base: Counters, callers: seq<Caller>, schedule: seq<nat>)
    requires Fresh(callers)
    ensures CountsCalls(base, RunSchedule(Shared(base, callers), schedule))
  {
    if schedule == [] {
      CountAtMost(callers, Past(1));
      CountAtMost(callers, PastOn(2, Long));
      CountAtMost(callers, PastOn(2, Short));
      forall t ensures Count(callers, PastIn(3, t)) == 0 && Count(callers, PastIn(4, t)) == 0 {
        CountAtMost(callers, PastIn(3, t));
        CountAtMost(callers, PastIn(4, t));
      }
    } else {
      EveryInterleavingCountsCalls(base, callers, schedule[..|schedule| - 1]);
      AdvanceCounts(base, RunSchedule(Shared(base, callers), schedule[..|schedule| - 1]), schedule[|schedule| - 1]);
    }
  }

  /** The same calls made one after the other. */
  function RegisterAll(base: Counters, callers: seq<Caller>): Counters {
    if callers == [] then base
    else
      var last := callers[|callers| - 1];
      Registered(RegisterAll(base, callers[..|callers| - 1]), last.side, last.sector)
  }

  /** Once every call has returned, the counters are those of the same calls made
      sequentially, so with counters that tracked a book before they track the book
      extended by the callers. */
  lemma QuiescenceIsSequential(base: Counters, callers: seq<Caller>, schedule: seq<nat>)
    requires Fresh(callers)
    requires forall k :: k in RunSchedule(Shared(base, callers), schedule).callers ==> k.done >= 4
    ensures RunSchedule(Shared(base, callers), schedule).c == RegisterAll(base, callers)
  {
    var end := RunSchedule(Shared(base, callers), schedule);
    EveryInterleavingCountsCalls(base, callers, schedule);
    RunKeepsCallers(Shared(base, callers), schedule);
    SequentialCounts(base, end.callers);
    SameRegistrations(base, callers, end.callers);
    var seqc := RegisterAll(base, end.callers);
    forall t ensures At(end.c.sectors, t) == At(seqc.sectors, t) && (t in end.c.sectors <==> t in seqc.sectors) {}
    assert forall t :: t in end.c.sectors ==> At(end.c.sectors, t) == At(seqc.sectors, t);
    assert end.c.sectors == seqc.sectors;
  }

  lemma {:induction false} RunKeepsCallers(s: Shared, schedule: seq<nat>)
    ensures var end := RunSchedule(s, schedule).callers;
            && |end| == |s.callers|
            && forall i :: 0 <= i < |end| ==>
                 end[i].side == s.callers[i].side && end[i].sector == s.callers[i].sector
  {
    if schedule != [] { RunKeepsCallers(s, schedule[..|schedule| - 1]); }
  }

  lemma {:induction false} SameRegistrations(base: Counters, a: seq<Caller>, b: seq<Caller>)
    requires |a| == |b| && forall i :: 0 <= i < |a| ==> a[i].side == b[i].side && a[i].sector == b[i].sector
    ensures RegisterAll(base, a) == RegisterAll(base, b)
  {
    if a != [] { SameRegistrations(base, a[..|a| - 1], b[..|b| - 1]); }
  }

  lemma {:induction false} SequentialCounts(base: Counters, callers: seq<Caller>)
    requires forall k :: k in callers ==> k.done >= 4
    ensures CountsCalls(base, Shared(RegisterAll(base, callers), callers))
  {
    if callers != [] {
      var last := callers[|callers| - 1];
      assert last in callers;
      SequentialCounts(base, callers[..|callers| - 1]);
    }
  }

  /** At quiescence the totals agree with the number of calls. */
  lemma QuiescentTotals(callers: seq<Caller>, schedule: seq<nat>)
    requires Fresh(callers)
    requires forall k :: k in RunSchedule(Shared(ZERO, callers), schedule).callers ==> k.done >= 4
    ensures var c := RunSchedule(Shared(ZERO, callers), schedule).c;
            && c.total == |callers|
            && c.longs + c.shorts == |callers|
            && SectorSum(c.sectors) == |callers| as real
  {
    QuiescenceIsSequential(ZERO, callers, schedule);
    RegisterAllTracks(callers);
    TrackedCountersAgree(RegisterAll(ZERO, callers), CallersBook(callers));
  }

  function CallersBook(callers: seq<Caller>): Book {
    seq(|callers|, i requires 0 <= i < |callers| => Holding(callers[i].side, callers[i].sector))
  }

  lemma {:induction false} RegisterAllTracks(callers: seq<Caller>)
    ensures Tracks(RegisterAll(ZERO, callers), CallersBook(callers))
  {
    if callers != [] {
      var front, last := callers[..|callers| - 1], callers[|callers| - 1];
      RegisterAllTracks(front);
      RegisterTracks(RegisterAll(ZERO, front), CallersBook(front), last.side, last.sector);
      assert CallersBook(callers) == CallersBook(front) + [Holding(last.side, last.sector)];
    }
  }
}
