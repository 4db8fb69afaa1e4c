/** What holds in every run of the lifecycle, and two things that do not. */
module LifecycleTheorems {
  import opened Models
  import opened PositionTable
  import opened Risk
  import opened PaperTrader
  import opened Lifecycle

  /** The world after the first k actions. */
  ghost function Moment(capital: real, run: seq<Action>, k: nat): World
    requires k <= |run|
  {
    Run(Init(capital), run[..k])
  }

  lemma NextMoment(capital: real, run: seq<Action>, k: nat)
    requires k < |run|
    ensures Moment(capital, run, k + 1) == Apply(Moment(capital, run, k), run[k])
  {
    assert run[..k + 1][..k] == run[..k];
  }

  ghost predicate OwnsId(w: World, i: nat, id: int) {
    i < |w.closers| && Owns(w.closers[i]) && w.closers[i].target.pos.id == id
  }

  /** A position is marked in flight exactly while one close owns it, in every
      interleaving of ticks, refreshes, failing publishes and other closers. */
  lemma MarksHaveOneOwner(capital: real, run: seq<Action>)
    ensures var w := Run(Init(capital), run);
            && (forall id :: id in w.monitor.inFlight <==> exists i :: OwnsId(w, i, id))
            && (forall i, j, id :: OwnsId(w, i, id) && OwnsId(w, j, id) ==> i == j)
  {
    ReachableInv(capital, run);
    var w := Run(Init(capital), run);
    forall id | id in w.monitor.inFlight ensures exists i :: OwnsId(w, i, id) {
      var i :| 0 <= i < |w.closers| && Owns(w.closers[i]) && w.closers[i].target.pos.id == id;
      assert OwnsId(w, i, id);
    }
  }

  /** Of the closes of one position started in one generation of the cache, at most one
      is ever published successfully. */
  lemma OnePublishedClosePerGeneration(capital: real, run: seq<Action>)
    ensures var cs := Run(Init(capital), run).closers;
            forall i, j :: 0 <= i < j < |cs| && Published(cs[i]) && Published(cs[j]) && SameId(cs[i], cs[j]) ==>
              cs[i].generation != cs[j].generation
  {
    ReachableInv(capital, run);
  }

  lemma StepGrows(w: World, a: Action)
    ensures Grew(w.rows, w.stream, Apply(w, a).rows, Apply(w, a).stream)
  {
    if Enabled(w, a) {
      match a
      case MarkExit(c, net, stamp) =>
        var k := w.closers[c];
        MarkedEvolves(w.rows, k.target.pos.id, k.price, k.target.reason, stamp);
      case MarkSweep(net, stamp) =>
        MarkedEvolves(w.rows, w.sweep.listing[w.sweep.next].id, w.sweep.price.value, REASON_SQUARE_OFF, stamp);
      case _ =>
    }
  }

  lemma {:induction false} MomentsGrow(capital: real, run: seq<Action>, i: nat, j: nat)
    requires i <= j <= |run|
    ensures Grew(Moment(capital, run, i).rows, Moment(capital, run, i).stream,
                 Moment(capital, run, j).rows, Moment(capital, run, j).stream)
    decreases j - i
  {
    if i < j {
      MomentsGrow(capital, run, i, j - 1);
      MomentGrows(capital, run, j - 1);
      EvolvesTransitive(Moment(capital, run, i).rows, Moment(capital, run, j - 1).rows, Moment(capital, run, j).rows);
    }
  }

  lemma MomentGrows(capital: real, run: seq<Action>, k: nat)
    requires k < |run|
    ensures Grew(Moment(capital, run, k).rows, Moment(capital, run, k).stream,
                 Moment(capital, run, k + 1).rows, Moment(capital, run, k + 1).stream)
  {
    NextMoment(capital, run, k);
    StepGrows(Moment(capital, run, k), run[k]);
  }

  lemma EvolvesTransitive(a: Table, b: Table, c: Table)
    requires Evolves(a, b) && Evolves(b, c)
    ensures Evolves(a, c)
  {
    forall id | id in a
      ensures id in c && SameEntry(a[id], c[id]) && (a[id].status.Closed? ==> c[id] == a[id])
    {
      assert id in b && SameEntry(a[id], b[id]) && SameEntry(b[id], c[id]);
    }
  }

  /** Action i is the one that closes the row. */
  ghost predicate ClosesAt(capital: real, run: seq<Action>, i: nat, id: int) {
    i < |run| && IsOpen(Moment(capital, run, i).rows, id) && !IsOpen(Moment(capital, run, i + 1).rows, id)
  }

  /** A row goes from OPEN to CLOSED at most once in a run; its exit price, reason, time
      and profit never change afterwards; the profit is that of the exit price; and
      before it closed, an order for the opposite side and the full quantity that names
      it was already on the stream. */
  lemma RowsCloseOnceAndForGood(capital: real, run: seq<Action>, i: nat, id: int)
    requires ClosesAt(capital, run, i, id)
    ensures forall j: nat :: ClosesAt(capital, run, j, id) ==> j == i
    ensures id in Moment(capital, run, i + 1).rows
    ensures forall k: nat :: i < k <= |run| ==>
              && id in Moment(capital, run, k).rows
              && Moment(capital, run, k).rows[id] == Moment(capital, run, i + 1).rows[id]
    ensures var row := Moment(capital, run, i + 1).rows[id];
            && row.status.Closed?
            && ClosedAt(row, row.status.exitPrice, row.status.reason, row.status.closedAt)
            && CloseOrdered(Moment(capital, run, i).stream, row, row.status.exitPrice)
  {
    ClosedNext(capital, run, i, id);
    forall k: nat | i < k <= |run|
      ensures id in Moment(capital, run, k).rows
      ensures Moment(capital, run, k).rows[id] == Moment(capital, run, i + 1).rows[id]
    {
      MomentsGrow(capital, run, i + 1, k);
    }
    forall j: nat | ClosesAt(capital, run, j, id) ensures j == i {
      if j < i { ClosesOnlyOnce(capital, run, j, i, id); }
      if i < j { ClosesOnlyOnce(capital, run, i, j, id); }
    }
    ClosedInOrder(capital, run, i, id);
  }

  lemma ClosedNext(capital: real, run: seq<Action>, i: nat, id: int)
    requires ClosesAt(capital, run, i, id)
    ensures id in Moment(capital, run, i + 1).rows && Moment(capital, run, i + 1).rows[id].status.Closed?
  {
    MomentGrows(capital, run, i);
  }

  lemma ClosesOnlyOnce(capital: real, run: seq<Action>, i: nat, j: nat, id: int)
    requires ClosesAt(capital, run, i, id) && i < j
    ensures !ClosesAt(capital, run, j, id)
  {
    ClosedNext(capital, run, i, id);
    if j < |run| { MomentsGrow(capital, run, i + 1, j); }
  }

  lemma ClosedInOrder(capital: real, run: seq<Action>, i: nat, id: int)
    requires ClosesAt(capital, run, i, id)
    requires id in Moment(capital, run, i + 1).rows && Moment(capital, run, i + 1).rows[id].status.Closed?
    ensures var row := Moment(capital, run, i + 1).rows[id];
            && ClosedAt(row, row.status.exitPrice, row.status.reason, row.status.closedAt)
            && CloseOrdered(Moment(capital, run, i).stream, row, row.status.exitPrice)
  {
    ReachableRow(capital, run[..i + 1], id);
    NextMoment(capital, run, i);
    ClosingStepKeepsStream(Moment(capital, run, i), run[i], id);
  }

  lemma ClosingStepKeepsStream(w: World, a: Action, id: int)
    requires IsOpen(w.rows, id) && !IsOpen(Apply(w, a).rows, id)
    ensures Apply(w, a).stream == w.stream
  {
  }

  /** The stake of a row is its quantity times its unit risk: the two-percent budget
      rounded down to whole shares.  A stop-loss exit loses at least the stake, a
      take-profit exit gains at least twice the stake. */
  predicate HonoursRiskRule(row: Position, capital: real) {
    var stake := (row.quantity as real) * UnitRisk(row);
    && 0.0 < stake <= 0.02 * capital < stake + UnitRisk(row)
    && (row.status.Closed? && row.status.reason == REASON_STOP_LOSS ==> row.status.pnl <= -stake)
    && (row.status.Closed? && row.status.reason == REASON_TAKE_PROFIT ==> row.status.pnl >= 2.0 * stake)
  }

  /** Every row of every run honours the risk rule its intent was sized by. */
  lemma ExitsHonourTheRiskRule(capital: real, run: seq<Action>, id: int)
    requires id in Run(Init(capital), run).rows
    ensures HonoursRiskRule(Run(Init(capital), run).rows[id], capital)
  {
    ReachableRow(capital, run, id);
    var w := Run(Init(capital), run);
    RowHonoursTheRiskRule(w.rows[id], w.stream, capital);
  }

  lemma ReachableRow(capital: real, run: seq<Action>, id: int)
    requires id in Run(Init(capital), run).rows
    ensures var w := Run(Init(capital), run);
            OpenedBy(w.stream, w.rows[id], capital) && ClosedProperly(w.stream, w.rows[id])
  {
    ReachableInv(capital, run);
  }

  lemma RowHonoursTheRiskRule(row: Position, stream: seq<TradeExecution>, capital: real)
    requires OpenedBy(stream, row, capital) && ClosedProperly(stream, row)
    ensures HonoursRiskRule(row, capital)
  {
    BracketedFromStream(row, stream, capital);
    var q, r := row.quantity as real, UnitRisk(row);
    assert (row.quantity + 1) as real == q + 1.0;
    assert (q + 1.0) * r == q * r + r;
    BoundariesAreProfitBounds(row, if row.status.Closed? then row.status.exitPrice else row.entryPrice);
  }

  lemma BracketedFromStream(row: Position, stream: seq<TradeExecution>, capital: real)
    requires OpenedBy(stream, row, capital)
    ensures Bracketed(row) && WithinBudget(row, capital)
  {
    var k :| 0 <= k < |stream| && Opened(row, stream[k], capital);
    BracketTransfers(PosFromExec(stream[k]), row, capital);
  }

  lemma BracketTransfers(pos: Position, row: Position, capital: real)
    requires Bracketed(pos) && WithinBudget(pos, capital) && SameEntry(row, pos.(id := row.id))
    ensures Bracketed(row) && WithinBudget(row, capital)
  {
    assert row == pos.(id := row.id, status := row.status);
    assert UnitRisk(row) == UnitRisk(pos) && row.quantity == pos.quantity;
  }

  /** Under any redelivery and any failure of lookup and inserts: one row per
      execution_ref, every row made from an opening message of the stream, and at most
      one opening log entry per row.  Exit and square-off orders never make a row. */
  lemma ExecutionIsIdempotent(capital: real, run: seq<Action>)
    ensures var w := Run(Init(capital), run);
            && UniqueRefs(w.rows)
            && (forall id :: id in w.rows ==> OpenedBy(w.stream, w.rows[id], capital))
            && (forall i :: 0 <= i < |w.log| && !IsClosing(w.log[i]) ==> w.log[i].positionId in w.rows)
            && (forall i, j :: 0 <= i < j < |w.log| && !IsClosing(w.log[i]) && !IsClosing(w.log[j]) ==>
                  w.log[i].positionId != w.log[j].positionId)
  {
    ReachableInv(capital, run);
  }

  ghost predicate Unlogged(w: World, id: int) {
    && id in w.rows
    && (forall i :: 0 <= i < |w.log| && !IsClosing(w.log[i]) ==> w.log[i].positionId != id)
    && (forall d :: 0 <= d < |w.deliveries| ==> w.deliveries[d].at != AtLog(id))
  }

  /** A row whose log insert failed stays without an opening log entry, whatever is
      redelivered: the duplicate check ends the retry before it reaches the log. */
  lemma {:induction false} MissingLogEntryIsNeverRepaired(w: World, run: seq<Action>, id: int)
    requires Inv(w) && Unlogged(w, id)
    ensures Inv(Run(w, run)) && Unlogged(Run(w, run), id)
  {
    if run != [] {
      var front := run[..|run| - 1];
      MissingLogEntryIsNeverRepaired(w, front, id);
      StepKeepsInv(Run(w, front), run[|run| - 1]);
      StepKeepsUnlogged(Run(w, front), run[|run| - 1], id);
    }
  }

  lemma StepKeepsUnlogged(w: World, a: Action, id: int)
    requires DeliveryInv(w.deliveries, w.rows, w.stream) && Unlogged(w, id)
    ensures Unlogged(Apply(w, a), id)
  {
    StepGrows(w, a);
    if Enabled(w, a) && a.WriteLog? {
      var del := w.deliveries[a.d];
      assert IsClosing(del.order) == del.at.AtCloseLog?;
      var entry := if del.at.AtLog? then del.order.(positionId := del.at.id) else del.order;
      assert !IsClosing(entry) ==> entry.positionId != id;
      SentLeavesUnlogged(w.log, entry, a.net, id);
    }
  }

  lemma SentLeavesUnlogged(log: seq<TradeExecution>, entry: TradeExecution, net: Outcome, id: int)
    requires forall i :: 0 <= i < |log| && !IsClosing(log[i]) ==> log[i].positionId != id
    requires !IsClosing(entry) ==> entry.positionId != id
    ensures var log' := Sent(log, entry, net);
            forall i :: 0 <= i < |log'| && !IsClosing(log'[i]) ==> log'[i].positionId != id
  {
  }

  /** From then on no pass starts before another day. */
  lemma {:induction false} SweptDayStaysDone(w: World, run: seq<Action>, day: int)
    requires w.sqDone == Some(day) && w.sweep.Idle?
    requires forall a :: a in run && a.BeginSweep? ==> a.now.day == day
    ensures Run(w, run).sqDone == Some(day) && Run(w, run).sweep.Idle?
  {
    if run != [] {
      SweptDayStaysDone(w, run[..|run| - 1], day);
      assert run[|run| - 1] in run;
    }
  }
}
