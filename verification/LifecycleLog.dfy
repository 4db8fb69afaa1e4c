/** When a row gets its opening log entry: a condition on the present state that is met
    exactly when some continuation writes one, and a run that loses it for good. */
module LifecycleLog {
  import opened Models
  import opened PaperTrader
  import opened Lifecycle
  import opened LifecycleTheorems
  import opened StaleRefresh

  ghost predicate Logged(log: seq<TradeExecution>, id: int) {
    exists i :: 0 <= i < |log| && !IsClosing(log[i]) && log[i].positionId == id
  }

  /** The continuation leaves the row with its opening log entry. */
  ghost predicate LogsOpening(w: World, more: seq<Action>, id: int) {
    Logged(Run(w, more).log, id)
  }

  /** The handler that holds the row's key writes the entry. */
  lemma PendingEntryIsWritten(w: World, d: nat, id: int)
    requires Inv(w) && DeliveryIs(w, d, AtLog(id))
    ensures LogsOpening(w, [WriteLog(d, Done)], id)
  {
    var a := WriteLog(d, Done);
    assert [a][..0] == [];
    var log := Apply(w, a).log;
    assert Run(w, [a]) == Apply(w, a);
    assert log[|log| - 1] == w.deliveries[d].order.(positionId := id);
  }

  /** From any state of any run, a row of the table has, or can still get, its opening log
      entry exactly when it is there already or the handler that inserted the row is still
      about to write it: no redelivery brings it back. */
  lemma LogEntryArrivesExactlyWhen(capital: real, before: seq<Action>, id: int)
    requires id in Run(Init(capital), before).rows
    ensures var w := Run(Init(capital), before);
            (exists more :: LogsOpening(w, more, id)) <==> !Unlogged(w, id)
  {
    var w := Run(Init(capital), before);
    ReachableInv(capital, before);
    if Unlogged(w, id) {
      forall more ensures !LogsOpening(w, more, id) {
        MissingLogEntryIsNeverRepaired(w, more, id);
      }
    } else {
      var more := EntryOrHandler(w, id);
      assert LogsOpening(w, more, id);
    }
  }

  lemma EntryOrHandler(w: World, id: int) returns (more: seq<Action>)
    requires Inv(w) && id in w.rows && !Unlogged(w, id)
    ensures LogsOpening(w, more, id)
  {
    if Logged(w.log, id) {
      more := [];
    } else {
      var d: nat :| d < |w.deliveries| && w.deliveries[d].at == AtLog(id);
      PendingEntryIsWritten(w, d, id);
      more := [WriteLog(d, Done)];
    }
  }

  /** A run that opens a position and loses its log entry: promoted, delivered, inserted,
      and the log insert fails. */
  lemma RowWithoutLogEntry() returns (run: seq<Action>)
    ensures Unlogged(Run(Init(CAPITAL), run), 1)
  {
    var m := PromotedOrder();
    var run0 := RowOpened(m);
    var a := WriteLog(0, Lost);
    RunSnoc(Init(CAPITAL), run0, a);
    run := run0 + [a];
    var w := Apply(Run(Init(CAPITAL), run0), a);
    assert w.log == [] && w.deliveries == [Delivery(m, Handled)];
  }
}
