/** Sizing, stop and target derivation, and the boundary test that later closes the
    position (src/analysts/riskmanager/allocator.go and executor.go, and the pure
    parts of src/analysts/trader/exitmonitor.go and papertrader.go). */
module Risk {
  import opened Models
  import opened PositionTable

  const RISK_PERCENT := 0.02
  const STOP_PERCENT := 0.05
  const REWARD_RISK_RATIO := 2.0

  /** Go's conversion of a float64 to an integer, which drops the fraction. */
  function Truncate(x: real): int {
    if x >= 0.0 then x.Floor else -((-x).Floor)
  }

  function Abs(x: real): real { if x < 0.0 then -x else x }

  function QuantityPct(capital: real, entry: real, stop: real, percent: real): int {
    if capital <= 0.0 || entry <= 0.0 || stop <= 0.0 then 0
    else if Abs(entry - stop) <= 0.0 then 0
    else Truncate(capital * percent / Abs(entry - stop))
  }

  function StopLossFor(side: Side, price: real): real {
    if side.Short? then price * (1.0 + STOP_PERCENT) else price * (1.0 - STOP_PERCENT)
  }

  function TakeProfitFor(side: Side, entry: real, stop: real): real {
    var risk := if side.Short? then stop - entry else entry - stop;
    if risk <= 0.0 then 0.0
    else if side.Short? then entry - REWARD_RISK_RATIO * risk
    else entry + REWARD_RISK_RATIO * risk
  }

  /** buildExecution; None is ErrInsufficientCapital. */
  function BuildExecution(intent: TradeIntent, capital: real, sector: string, nanos: nat): Option<TradeExecution> {
    var stop := StopLossFor(intent.side, intent.currentPrice);
    var quantity := QuantityPct(capital, intent.currentPrice, stop, RISK_PERCENT);
    if quantity <= 0 then None
    else Some(TradeExecution(
                intent.ticker, intent.side, quantity, intent.currentPrice, stop,
                TakeProfitFor(intent.side, intent.currentPrice, stop), sector,
                intent.signalReason, "risk-" + intent.ticker + "-" + Decimal(nanos), 0))
  }

  /** posFromExec, with its defaults for an empty sector and zero boundaries. */
  function PosFromExec(order: TradeExecution): Position {
    Position(
      0, order.ticker, order.side, order.quantity, order.price,
      if order.stopLoss == 0.0 then order.price * 0.95 else order.stopLoss,
      if order.takeProfit == 0.0 then order.price * 1.05 else order.takeProfit,
      if order.sector == "" then "GENERAL" else order.sector,
      Open, order.executionRef)
  }

  /** crossed: the exit reason a price triggers, if any. */
  function Crossed(pos: Position, price: real): Option<string> {
    match pos.side
    case Long =>
      if pos.stopLoss > 0.0 && price <= pos.stopLoss then Some(REASON_STOP_LOSS)
      else if pos.takeProfit > 0.0 && price >= pos.takeProfit then Some(REASON_TAKE_PROFIT)
      else None
    case Short =>
      if pos.stopLoss > 0.0 && price >= pos.stopLoss then Some(REASON_STOP_LOSS)
      else if pos.takeProfit > 0.0 && price <= pos.takeProfit then Some(REASON_TAKE_PROFIT)
      else None
  }

  /** The distance between entry and stop, per share. */
  function UnitRisk(pos: Position): real { Abs(pos.entryPrice - pos.stopLoss) }

  /** Both boundaries lie on the proper side of the entry, the target twice as far away as the stop. */
  predicate Bracketed(pos: Position) {
    && 0.0 < pos.stopLoss && 0.0 < pos.takeProfit && pos.quantity > 0
    && if pos.side.Long? then
         pos.stopLoss < pos.entryPrice && pos.takeProfit - pos.entryPrice == 2.0 * (pos.entryPrice - pos.stopLoss)
       else
         pos.entryPrice < pos.stopLoss && pos.entryPrice - pos.takeProfit == 2.0 * (pos.stopLoss - pos.entryPrice)
  }

  /** The two-percent rule with its rounding: one more share would break the budget. */
  predicate WithinBudget(pos: Position, capital: real) {
    && (pos.quantity as real) * UnitRisk(pos) <= 0.02 * capital
    && 0.02 * capital < ((pos.quantity + 1) as real) * UnitRisk(pos)
  }

  /** The row an intent becomes: its own ticker, side and price, and its ticker's sector. */
  predicate CarriesIntent(pos: Position, intent: TradeIntent, sector: string) {
    && pos.ticker == intent.ticker && pos.side == intent.side && pos.entryPrice == intent.currentPrice
    && pos.sector == (if sector == "" then "GENERAL" else sector)
    && pos.status == Open
  }

  lemma DivisionFloor(budget: real, risk: real)
    requires risk > 0.0
    ensures ((budget / risk).Floor as real) * risk <= budget < (((budget / risk).Floor + 1) as real) * risk
  {
    var x := budget / risk;
    assert x * risk == budget;
    var q := x.Floor;
    assert (q as real) <= x < (q + 1) as real;
    ScaleKeepsOrder(q as real, x, risk);
    var next := (q + 1) as real;
    ScaleKeepsOrder(x, next, risk);
    assert budget < next * risk;
  }

  lemma ScaleKeepsOrder(a: real, b: real, k: real)
    requires k > 0.0
    ensures a <= b <==> a * k <= b * k
    ensures a < b <==> a * k < b * k
    ensures a == b <==> a * k == b * k
  {
    assert (b - a) * k == b * k - a * k;
    if a < b { assert (b - a) * k > 0.0; }
    if b < a { assert (a - b) * k > 0.0; }
  }

  /** The allocator returns the largest share count whose loss at the stop fits the budget. */
  lemma SizingIsTight(capital: real, entry: real, stop: real, percent: real)
    requires capital > 0.0 && entry > 0.0 && stop > 0.0 && entry != stop && percent >= 0.0
    ensures var q := QuantityPct(capital, entry, stop, percent);
            q >= 0 && (q as real) * Abs(entry - stop) <= capital * percent < ((q + 1) as real) * Abs(entry - stop)
  {
    assert capital * percent >= 0.0;
    assert capital * percent / Abs(entry - stop) >= 0.0;
    DivisionFloor(capital * percent, Abs(entry - stop));
  }

  /** From intent to position row: a promoted intent keeps its stop and target, which
      bracket the entry 1:2, within budget; and promotion is refused exactly when one
      share's risk exceeds two percent of the capital. */
  lemma PromotedIsBracketed(intent: TradeIntent, capital: real, sector: string, nanos: nat)
    requires ValidIntent(intent)
    ensures var built := BuildExecution(intent, capital, sector, nanos);
            && (built.None? <==> 0.02 * capital < 0.05 * intent.currentPrice)
            && (built.Some? ==>
                  var pos := PosFromExec(built.value);
                  && ValidExecution(built.value) && ValidPosition(pos)
                  && pos.stopLoss == built.value.stopLoss && pos.takeProfit == built.value.takeProfit
                  && CarriesIntent(pos, intent, sector)
                  && UnitRisk(pos) == 0.05 * intent.currentPrice
                  && Bracketed(pos) && WithinBudget(pos, capital))
  {
    var price := intent.currentPrice;
    var stop := StopLossFor(intent.side, price);
    StopIsProper(intent.side, price);
    if capital > 0.0 {
      SizingIsTight(capital, price, stop, RISK_PERCENT);
      OneShareFits(QuantityPct(capital, price, stop, RISK_PERCENT), STOP_PERCENT * price, RISK_PERCENT * capital);
    }
  }

  /** The derived boundaries: five percent away, on the proper side, and twice that. */
  lemma StopIsProper(side: Side, price: real)
    requires price > 0.0
    ensures var stop := StopLossFor(side, price);
            var target := TakeProfitFor(side, price, stop);
            && stop > 0.0 && target > 0.0 && Abs(price - stop) == STOP_PERCENT * price > 0.0
            && if side.Long? then stop < price && target - price == 2.0 * (price - stop)
               else price < stop && price - target == 2.0 * (stop - price)
  {
  }

  lemma OneShareFits(shares: int, risk: real, budget: real)
    requires risk > 0.0 && (shares as real) * risk <= budget < ((shares + 1) as real) * risk
    ensures shares < 1 <==> budget < risk
  {
    if shares < 1 {
      ScaleKeepsOrder((shares + 1) as real, 1.0, risk);
    } else {
      ScaleKeepsOrder(1.0, shares as real, risk);
    }
  }

  /** For a bracketed position the boundary test on prices is exactly a test on the
      realised profit: a stop-loss exit is one that loses at least quantity times the
      unit risk (and loses exactly that at the stop), a take-profit exit one that gains
      at least twice as much; so the entry price itself triggers nothing. */
  lemma BoundariesAreProfitBounds(pos: Position, price: real)
    requires Bracketed(pos)
    ensures var r := (pos.quantity as real) * UnitRisk(pos);
            && r > 0.0
            && (Crossed(pos, price) == Some(REASON_STOP_LOSS) <==> Pnl(pos, price) <= -r)
            && (Crossed(pos, price) == Some(REASON_TAKE_PROFIT) <==> Pnl(pos, price) >= 2.0 * r)
            && (Pnl(pos, price) == -r <==> price == pos.stopLoss)
            && Crossed(pos, pos.entryPrice) == None
  {
    var q := pos.quantity as real;
    var sign := if pos.side.Long? then 1.0 else -1.0;
    var gain := (price - pos.entryPrice) * sign;
    var risk := UnitRisk(pos);
    assert Pnl(pos, price) == gain * q;
    ScaleKeepsOrder(0.0, risk, q);
    ScaleKeepsOrder(gain, -risk, q);
    ScaleKeepsOrder(2.0 * risk, gain, q);
    assert (-risk) * q == -(q * risk);
    assert (2.0 * risk) * q == 2.0 * (q * risk);
  }

  /** A row carries its order field by field; an empty sector and boundaries of zero are
      filled in, the latter five percent off the price whatever the side. */
  lemma RowCarriesOrder(order: TradeExecution)
    ensures var pos := PosFromExec(order);
            && pos.ticker == order.ticker && pos.side == order.side && pos.quantity == order.quantity
            && pos.entryPrice == order.price && pos.executionRef == order.executionRef && pos.status.Open?
            && (order.stopLoss != 0.0 ==> pos.stopLoss == order.stopLoss)
            && (order.takeProfit != 0.0 ==> pos.takeProfit == order.takeProfit)
            && (order.stopLoss == 0.0 ==> 100.0 * (order.price - pos.stopLoss) == 5.0 * order.price)
            && (order.takeProfit == 0.0 ==> 100.0 * (pos.takeProfit - order.price) == 5.0 * order.price)
            && (order.sector != "" ==> pos.sector == order.sector) && (order.sector == "" ==> pos.sector == "GENERAL")
  {
  }

  /** The defaults of posFromExec put the stop below and the target above the entry for
      either side.  The row an execution creates is closed by its own entry price exactly
      under this condition, which a SHORT execution that leaves a boundary empty always
      meets. */
  lemma EntryPriceFires(order: TradeExecution)
    requires ValidExecution(order)
    ensures Crossed(PosFromExec(order), order.price).Some? <==>
              if order.side.Long? then
                order.stopLoss >= order.price || 0.0 < order.takeProfit <= order.price
              else
                0.0 <= order.stopLoss <= order.price || order.takeProfit == 0.0 || order.takeProfit >= order.price
  {
  }

  /** A concrete SHORT execution without a stop: it is stopped out at its own price. */
  lemma ShortDefaultStopFiresAtEntry()
    ensures var order := TradeExecution("TCS", Short, 5, 4000.0, 0.0, 3800.0, "IT", SCOUT_REASON, "risk-TCS-1", 0);
            ValidExecution(order) && ValidPosition(PosFromExec(order)) &&
            Crossed(PosFromExec(order), 4000.0) == Some(REASON_STOP_LOSS)
  {
  }
}
