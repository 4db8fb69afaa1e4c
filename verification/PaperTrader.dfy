/** The simulation backend and the message handler that drives it
    (src/analysts/trader/papertrader.go and agent.go). */
module PaperTrader {
  import opened Models
  import opened PositionTable
  import opened Risk

  const EXIT_PREFIX := "exit-"
  const SQUARE_OFF_PREFIX := "sqoff-"

  /** isClosing: by signal reason, or by the prefix of the reference. */
  predicate IsClosing(order: TradeExecution) {
    || order.signalReason == REASON_STOP_LOSS
    || order.signalReason == REASON_TAKE_PROFIT
    || order.signalReason == REASON_SQUARE_OFF
    || EXIT_PREFIX <= order.executionRef
    || SQUARE_OFF_PREFIX <= order.executionRef
  }

  /** A message that closes the position at this price: the other side, the full quantity,
      its ticker, sector and key, and no boundaries of its own. */
  predicate ClosingOrder(m: TradeExecution, pos: Position, price: real) {
    && IsClosing(m) && m.executionRef != ""
    && m.positionId == pos.id && m.ticker == pos.ticker && m.side != pos.side
    && m.quantity == pos.quantity && m.price == price && m.sector == pos.sector
    && m.stopLoss == 0.0 && m.takeProfit == 0.0
  }

  /** A promoted intent is taken for a close exactly when its signal reason is one of
      the exit reasons: its risk- reference never matches a closing prefix.  Breakout
      intents of the scout are therefore always opened. */
  lemma PromotedIsClosingExactlyWhen(intent: TradeIntent, capital: real, sector: string, nanos: nat)
    requires BuildExecution(intent, capital, sector, nanos).Some?
    ensures IsClosing(BuildExecution(intent, capital, sector, nanos).value) <==>
              intent.signalReason in {REASON_STOP_LOSS, REASON_TAKE_PROFIT, REASON_SQUARE_OFF}
    ensures intent.signalReason == SCOUT_REASON ==> !IsClosing(BuildExecution(intent, capital, sector, nanos).value)
  {
    var ref := BuildExecution(intent, capital, sector, nanos).value.executionRef;
    assert ref[0] == 'r' && EXIT_PREFIX[0] == 'e' && SQUARE_OFF_PREFIX[0] == 's';
    assert |SCOUT_REASON| == 33 && |REASON_STOP_LOSS| == 9 && |REASON_TAKE_PROFIT| == 11 && |REASON_SQUARE_OFF| == 10;
  }

  /** A valid opening order whose reference no row has yet. */
  ghost predicate Opens(order: TradeExecution, rows: Table) {
    !IsClosing(order) && !HasRef(rows, order.executionRef) && ValidPosition(PosFromExec(order))
  }

  /** One that does not make a valid row. */
  ghost predicate Malformed(order: TradeExecution, rows: Table) {
    !IsClosing(order) && !HasRef(rows, order.executionRef) && !ValidPosition(PosFromExec(order))
  }

  datatype Fill = Filled | Duplicate | Failed

  class PaperTrader {
    const store: PositionStore
    var log: seq<TradeExecution>

    constructor (store: PositionStore)
      ensures this.store == store && log == []
    {
      this.store := store;
      log := [];
    }

    /** Execute, with the fate of its three database calls as parameters: whether the
        duplicate lookup worked, and what became of the two inserts. */
    method Execute(order: TradeExecution, lookupWorks: bool, insert: Outcome, logging: Outcome) returns (fill: Fill)
      requires store.Valid()
      modifies store, this`log
      ensures store.Valid() && Evolves(old(store.rows), store.rows)
      // A closing execution is only logged.
      ensures IsClosing(order) ==>
                && store.rows == old(store.rows)
                && log == old(log) + (if logging.Lost? then [] else [order])
                && fill == if logging.Done? then Filled else Failed
      // A reference already on a row is never inserted again and never logged again.
      ensures !IsClosing(order) && HasRef(old(store.rows), order.executionRef) ==>
                && store.rows == old(store.rows) && log == old(log)
                && fill == if lookupWorks then Duplicate else Failed
      // Otherwise a full success adds one row and one log entry that names it.
      ensures !IsClosing(order) && fill.Filled? ==>
                exists id :: id !in old(store.rows)
                  && store.rows == Inserted(old(store.rows), id, PosFromExec(order))
                  && log == old(log) + [order.(positionId := id)]
      ensures Opens(order, old(store.rows)) ==>
                (fill.Filled? <==> insert.Done? && logging.Done?) && !fill.Duplicate?
      // What a failure leaves behind: nothing before the insert took effect, the row alone
      // when only its acknowledgement or its log entry was lost, and both when only the
      // acknowledgement of the entry was.
      ensures Malformed(order, old(store.rows)) ==> fill.Failed? && store.rows == old(store.rows) && log == old(log)
      ensures Opens(order, old(store.rows)) && insert.Lost? ==> store.rows == old(store.rows)
      ensures Opens(order, old(store.rows)) && !insert.Lost? ==>
                exists id :: id !in old(store.rows)
                  && store.rows == Inserted(old(store.rows), id, PosFromExec(order))
                  && log == old(log) + (if insert.Done? && !logging.Lost? then [order.(positionId := id)] else [])
      ensures Opens(order, old(store.rows)) && !insert.Done? ==> log == old(log)
    {
      if IsClosing(order) {
        if !logging.Lost? { log := log + [order]; }
        return if logging.Done? then Filled else Failed;
      }
      if lookupWorks && HasRef(store.rows, order.executionRef) { return Duplicate; }
      var pos := PosFromExec(order);
      if !ValidPosition(pos) { return Failed; }
      var id := store.Insert(pos, insert);
      if id.None? { return Failed; }
      var linked := order.(positionId := id.value);
      if !logging.Lost? { log := log + [linked]; }
      return if logging.Done? then Filled else Failed;
    }

    /** handleExecution: an invalid payload is acknowledged and dropped, anything else
        is acknowledged only when the backend returned without an error. */
    method HandleExecution(order: TradeExecution, lookupWorks: bool, insert: Outcome, logging: Outcome)
        returns (ack: bool)
      requires store.Valid()
      modifies store, this`log
      ensures store.Valid() && Evolves(old(store.rows), store.rows)
      ensures !ValidExecution(order) ==> ack && store.rows == old(store.rows) && log == old(log)
      ensures ValidExecution(order) && ack && !IsClosing(order) ==> HasRef(store.rows, order.executionRef)
      // A close is acknowledged when its log entry was; a first delivery when row and entry were.
      ensures ValidExecution(order) && IsClosing(order) ==>
                && ack == logging.Done? && store.rows == old(store.rows)
                && log == old(log) + (if logging.Lost? then [] else [order])
      ensures ValidExecution(order) && !IsClosing(order) && !HasRef(old(store.rows), order.executionRef) ==>
                ack == (ValidPosition(PosFromExec(order)) && insert.Done? && logging.Done?)
      ensures ValidExecution(order) && !IsClosing(order) && HasRef(old(store.rows), order.executionRef) ==>
                ack == lookupWorks && store.rows == old(store.rows) && log == old(log)
    {
      if !ValidExecution(order) { return true; }
      var fill := Execute(order, lookupWorks, insert, logging);
      if !IsClosing(order) && fill.Filled? {
        ghost var id :| id !in old(store.rows) && store.rows == Inserted(old(store.rows), id, PosFromExec(order))
                  && log == old(log) + [order.(positionId := id)];
        assert store.rows[id].executionRef == order.executionRef;
      }
      return !fill.Failed?;
    }
  }
}
