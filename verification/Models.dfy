/** The message and row types every agent shares (src/pkg/models). */
module Models {

  datatype Option<+T> = None | Some(value: T)

  datatype Side = Long | Short

  function Opposite(side: Side): Side {
    if side.Long? then Short else Long
  }

  /** Exit reasons as they are stored on a position row. */
  const REASON_STOP_LOSS := "stop_loss"
  const REASON_TAKE_PROFIT := "take_profit"
  const REASON_SQUARE_OFF := "square_off"

  /** A point in time together with the calendar label its location gives it. */
  datatype Stamp = Stamp(nanos: int, day: string)

  /** The status column and the four exit columns, which are NULL while a row is OPEN. */
  datatype Status =
    | Open
    | Closed(exitPrice: real, pnl: real, reason: string, closedAt: Stamp)

  datatype Position = Position(
    id: int, ticker: string, side: Side, quantity: int,
    entryPrice: real, stopLoss: real, takeProfit: real,
    sector: string, status: Status, executionRef: string)

  datatype TradeExecution = TradeExecution(
    ticker: string, side: Side, quantity: int, price: real,
    stopLoss: real, takeProfit: real, sector: string,
    signalReason: string, executionRef: string, positionId: int)

  datatype TradeIntent = TradeIntent(
    ticker: string, side: Side, currentPrice: real, vwap: real, volumeRatio: real, signalReason: string)

  predicate ValidIntent(t: TradeIntent) {
    t.ticker != "" && t.currentPrice > 0.0 && t.signalReason != ""
  }

  predicate ValidExecution(t: TradeExecution) {
    t.ticker != "" && t.quantity > 0 && t.price > 0.0 && t.executionRef != ""
  }

  predicate ValidPosition(p: Position) {
    && p.ticker != "" && p.quantity > 0 && p.entryPrice > 0.0 && p.stopLoss > 0.0
    && p.takeProfit > 0.0 && p.sector != "" && p.executionRef != ""
  }

  /** The reason the scout stamps on every breakout intent. */
  const SCOUT_REASON := "VWAP_breakout_plus_volume_plus_BB"

  /** What a remote call that can fail did: it worked, it failed before taking
      effect, or it took effect and only its acknowledgement was lost. */
  datatype Outcome = Done | Lost | DoneButReportedLost

  function Decimal(n: int): string
    decreases if n < 0 then 1 - n else n
  {
    if n < 0 then "-" + Decimal(-n)
    else if n < 10 then ["0123456789"[n]]
    else Decimal(n / 10) + ["0123456789"[n % 10]]
  }
}
