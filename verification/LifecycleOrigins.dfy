/** Where the rows and prices of a run come from: every row from a promotion, every exit
    price from a quote; and a promotion of a ticker and instant not promoted before can
    always still become a row. */
module LifecycleOrigins {
  import opened Models
  import opened MarketTime
  import opened PositionTable
  import opened Risk
  import opened ExitMonitor
  import opened PaperTrader
  import opened SquareOff
  import opened References
  import opened Lifecycle
  import opened LifecycleTheorems
  import opened LifecycleCloses

  // ----- exit prices -----

  /** A tick of this ticker at this price arrived while exits were enabled. */
  ghost predicate Ticked(run: seq<Action>, ticker: string, price: real) {
    exists a :: a in run && a.PriceTick? && a.ticker == ticker && a.price == price && ExitsEnabled(a.now)
  }

  /** A pass was due and read this price for the position: its latest quote, or its entry
      price without one. */
  ghost predicate ReadBySweep(run: seq<Action>, p: Position, price: real) {
    && (exists b :: b in run && b.BeginSweep? && SquareOffDue(b.now))
    && (exists a :: a in run && a.PublishSweep? && price == if a.latest > 0.0 then a.latest else p.entryPrice)
  }

  /** The exit of a CLOSED row: at a quote, by the agent its reason names. */
  ghost predicate ExitExplained(run: seq<Action>, row: Position) {
    row.status.Closed? ==>
      if row.status.reason == "square_off" then ReadBySweep(run, row, row.status.exitPrice)
      else Ticked(run, row.ticker, row.status.exitPrice)
  }

  ghost predicate ClosersTicked(run: seq<Action>, cs: seq<Closer>) {
    forall i :: 0 <= i < |cs| ==> Ticked(run, cs[i].target.pos.ticker, cs[i].price)
  }

  ghost predicate SweepRead(run: seq<Action>, s: Sweep) {
    s.Sweeping? ==>
      && (exists b :: b in run && b.BeginSweep? && SquareOffDue(b.now))
      && (s.price.Some? && s.next < |s.listing| ==> ReadBySweep(run, s.listing[s.next], s.price.value))
  }

  ghost predicate ExitsExplained(run: seq<Action>, w: World) {
    && ClosersTicked(run, w.closers)
    && SweepRead(run, w.sweep)
    && forall id :: id in w.rows ==> ExitExplained(run, w.rows[id])
  }

  lemma RunIncludes(run: seq<Action>, a: Action)
    ensures forall b :: b in run ==> b in run + [a]
    ensures a in run + [a]
  {
  }

  lemma ExplainedLonger(run: seq<Action>, a: Action, w: World)
    requires ExitsExplained(run, w)
    ensures ExitsExplained(run + [a], w)
  {
    RunIncludes(run, a);
    forall i | 0 <= i < |w.closers| ensures Ticked(run + [a], w.closers[i].target.pos.ticker, w.closers[i].price) {
      assert Ticked(run, w.closers[i].target.pos.ticker, w.closers[i].price);
    }
    forall id | id in w.rows ensures ExitExplained(run + [a], w.rows[id]) {
      assert ExitExplained(run, w.rows[id]);
    }
  }

  lemma StepExplains(run: seq<Action>, w: World, a: Action)
    requires Inv(w) && ExitsExplained(run, w) && a in run
    ensures ExitsExplained(run, Apply(w, a))
  {
    ClosersStep(run, w, a);
    SweepStep(run, w, a);
    ExitsStep(run, w, a);
  }

  lemma ClosersStep(run: seq<Action>, w: World, a: Action)
    requires CacheInv(w.monitor.cache, w.refreshers, w.rows) && ClosersTicked(run, w.closers) && a in run
    ensures ClosersTicked(run, Apply(w, a).closers)
  {
    if Enabled(w, a) {
      match a
      case PriceTick(ticker, price, now) =>
        TickExplains(run, w.monitor, w.refreshers, w.rows, w.closers, ticker, price, now, w.generation);
      case PublishExit(c, _, net) => MovedStillTicked(run, w.closers, c, if net.Done? then AtMark else AtRelease);
      case MarkExit(c, _, _) => MovedStillTicked(run, w.closers, c, AtDrop);
      case DropExit(c) => MovedStillTicked(run, w.closers, c, Finished);
      case ReleaseExit(c) => MovedStillTicked(run, w.closers, c, GaveUp);
      case _ =>
    }
  }

  lemma SweepStep(run: seq<Action>, w: World, a: Action)
    requires SweepRead(run, w.sweep) && a in run
    ensures SweepRead(run, Apply(w, a).sweep)
  {
  }

  lemma ExitsStep(run: seq<Action>, w: World, a: Action)
    requires Inv(w) && ExitsExplained(run, w)
    ensures forall id :: id in Apply(w, a).rows ==> ExitExplained(run, Apply(w, a).rows[id])
  {
    if Enabled(w, a) {
      match a
      case MarkExit(c, _, stamp) => ExitMarkExplains(run, w, c, stamp);
      case MarkSweep(_, stamp) => SweepMarkExplains(run, w, stamp);
      case _ =>
    }
  }

  lemma TickExplains(run: seq<Action>, m: Monitor, rs: seq<Refresher>, rows: Table, cs: seq<Closer>,
                     ticker: string, price: real, now: Instant, generation: nat)
    requires CacheInv(m.cache, rs, rows) && ClosersTicked(run, cs)
    requires PriceTick(ticker, price, now) in run && ExitsEnabled(now)
    ensures ClosersTicked(run, cs + Started(Fire(m, ticker, price).0, price, generation))
  {
    var targets := Fire(m, ticker, price).0;
    ScanIsExact(CacheAt(m.cache, ticker), m.inFlight, price);
    forall k | 0 <= k < |targets| ensures targets[k].pos.ticker == ticker {
      assert targets[k].pos in CacheAt(m.cache, ticker) && ticker in m.cache;
    }
    assert Ticked(run, ticker, price);
  }

  lemma MovedStillTicked(run: seq<Action>, cs: seq<Closer>, c: nat, at: CloserAt)
    requires ClosersTicked(run, cs) && c < |cs|
    ensures ClosersTicked(run, cs[c := cs[c].(at := at)])
  {
    var cs' := cs[c := cs[c].(at := at)];
    assert forall i :: 0 <= i < |cs| ==> cs'[i].target == cs[i].target && cs'[i].price == cs[i].price;
  }

  lemma ExitMarkExplains(run: seq<Action>, w: World, c: nat, stamp: Stamp)
    requires Inv(w) && ExitsExplained(run, w) && CloserIs(w, c, AtMark)
    ensures var k := w.closers[c];
            var rows := Marked(w.rows, k.target.pos.id, k.price, k.target.reason, stamp);
            forall id :: id in rows ==> ExitExplained(run, rows[id])
  {
    var k := w.closers[c];
    assert Known(w.rows, k.target.pos) && Ticked(run, k.target.pos.ticker, k.price);
    assert k.target.reason == REASON_STOP_LOSS || k.target.reason == REASON_TAKE_PROFIT;
    assert |REASON_STOP_LOSS| == 9 && |REASON_TAKE_PROFIT| == 11 && |"square_off"| == 10;
  }

  lemma SweepMarkExplains(run: seq<Action>, w: World, stamp: Stamp)
    requires Inv(w) && ExitsExplained(run, w)
    requires w.sweep.Sweeping? && w.sweep.next < |w.sweep.listing| && w.sweep.price.Some?
    ensures var pos := w.sweep.listing[w.sweep.next];
            var rows := Marked(w.rows, pos.id, w.sweep.price.value, REASON_SQUARE_OFF, stamp);
            forall id :: id in rows ==> ExitExplained(run, rows[id])
  {
    var pos := w.sweep.listing[w.sweep.next];
    assert Known(w.rows, pos) && ReadBySweep(run, pos, w.sweep.price.value);
  }

  lemma {:induction false} EveryExitIsExplained(capital: real, run: seq<Action>)
    ensures ExitsExplained(run, Run(Init(capital), run))
  {
    if run != [] {
      var front, a := run[..|run| - 1], run[|run| - 1];
      EveryExitIsExplained(capital, front);
      ReachableInv(capital, front);
      ExplainedLonger(front, a, Run(Init(capital), front));
      assert run == front + [a];
      StepExplains(run, Run(Init(capital), front), a);
    }
  }

  /** In every run a row closed for its stop or target was closed at the price of a tick of
      its ticker that came while exits were enabled, and a row squared off at the price a
      due pass read for it. */
  lemma ExitPricesWereQuoted(capital: real, run: seq<Action>, id: int)
    requires id in Run(Init(capital), run).rows
    ensures ExitExplained(run, Run(Init(capital), run).rows[id])
  {
    EveryExitIsExplained(capital, run);
  }

  // ----- rows -----

  predicate Builds(a: Action, capital: real, m: TradeExecution) {
    a.Promote? && ValidIntent(a.intent) && BuildExecution(a.intent, capital, a.sector, a.nanos) == Some(m)
  }

  /** A promotion in the run built this message. */
  ghost predicate Promoted(run: seq<Action>, capital: real, m: TradeExecution) {
    exists a :: a in run && Builds(a, capital, m)
  }

  /** A promotion in the run became this row. */
  ghost predicate FromPromotion(run: seq<Action>, capital: real, row: Position) {
    exists m :: Promoted(run, capital, m) && SameEntry(row, PosFromExec(m).(id := row.id))
  }

  ghost predicate RowsPromoted(run: seq<Action>, w: World) {
    && (forall m :: m in w.stream && !IsClosing(m) ==> Promoted(run, w.capital, m))
    && (forall id :: id in w.rows ==> FromPromotion(run, w.capital, w.rows[id]))
  }

  lemma PromotedLonger(run: seq<Action>, a: Action, w: World)
    requires RowsPromoted(run, w)
    ensures RowsPromoted(run + [a], w)
  {
    RunIncludes(run, a);
    forall m | m in w.stream && !IsClosing(m) ensures Promoted(run + [a], w.capital, m) {
      assert Promoted(run, w.capital, m);
    }
    forall id | id in w.rows ensures FromPromotion(run + [a], w.capital, w.rows[id]) {
      var m :| Promoted(run, w.capital, m) && SameEntry(w.rows[id], PosFromExec(m).(id := w.rows[id].id));
      assert Promoted(run + [a], w.capital, m);
    }
  }

  lemma StreamStep(run: seq<Action>, w: World, a: Action)
    requires RowsPromoted(run, w) && a in run
    ensures forall m :: m in Apply(w, a).stream && !IsClosing(m) ==> Promoted(run, w.capital, m)
  {
    if Enabled(w, a) {
      match a
      case PublishExit(c, nanos, _) =>
        var k := w.closers[c];
        ExitOrderCloses(k.target.pos, k.target.reason, k.price, nanos);
      case PublishSweep(latest, nanos, _) =>
        var pos := w.sweep.listing[w.sweep.next];
        SquareOffOrderCloses(pos, SquareOff.ExitPrice(pos, latest), nanos);
      case _ =>
    }
  }

  lemma InsertedIsPromoted(run: seq<Action>, w: World, d: nat, id: int)
    requires Inv(w) && RowsPromoted(run, w) && DeliveryIs(w, d, AtInsert)
    ensures FromPromotion(run, w.capital, PosFromExec(w.deliveries[d].order).(id := id))
  {
    assert w.deliveries[d].order in w.stream && Promoted(run, w.capital, w.deliveries[d].order);
  }

  lemma EvolvedIsPromoted(run: seq<Action>, capital: real, row: Position, row': Position)
    requires FromPromotion(run, capital, row) && SameEntry(row, row')
    ensures FromPromotion(run, capital, row')
  {
    var m :| Promoted(run, capital, m) && SameEntry(row, PosFromExec(m).(id := row.id));
    assert row'.id == row.id && SameEntry(row', PosFromExec(m).(id := row'.id));
  }

  lemma RowsStep(run: seq<Action>, w: World, a: Action)
    requires Inv(w) && RowsPromoted(run, w)
    ensures forall id :: id in Apply(w, a).rows ==> FromPromotion(run, w.capital, Apply(w, a).rows[id])
  {
    StepGrows(w, a);
    forall id | id in Apply(w, a).rows ensures FromPromotion(run, w.capital, Apply(w, a).rows[id]) {
      if id in w.rows {
        EvolvedIsPromoted(run, w.capital, w.rows[id], Apply(w, a).rows[id]);
      } else {
        NewRowWasInserted(w, a, id);
        InsertedIsPromoted(run, w, a.d, id);
      }
    }
  }

  lemma NewRowWasInserted(w: World, a: Action, id: int)
    requires id in Apply(w, a).rows && id !in w.rows
    ensures a.InsertRow? && DeliveryIs(w, a.d, AtInsert)
    ensures Apply(w, a).rows[id] == PosFromExec(w.deliveries[a.d].order).(id := id)
  {
  }

  lemma {:induction false} EveryRowIsPromoted(capital: real, run: seq<Action>)
    ensures RowsPromoted(run, Run(Init(capital), run)) && Run(Init(capital), run).capital == capital
  {
    ReachableInv(capital, run);
    if run != [] {
      var front, a := run[..|run| - 1], run[|run| - 1];
      EveryRowIsPromoted(capital, front);
      ReachableInv(capital, front);
      PromotedLonger(front, a, Run(Init(capital), front));
      assert run == front + [a];
      StreamStep(run, Run(Init(capital), front), a);
      RowsStep(run, Run(Init(capital), front), a);
    }
  }

  // ----- a promotion can open exactly when its ticker and instant are new -----

  /** The promotion became this row. */
  predicate RowOf(row: Position, a: Action, capital: real) {
    && a.Promote? && BuildExecution(a.intent, capital, a.sector, a.nanos).Some?
    && SameEntry(row, PosFromExec(BuildExecution(a.intent, capital, a.sector, a.nanos).value).(id := row.id))
  }

  lemma PromotedRowHasAction(run: seq<Action>, capital: real, row: Position) returns (a: Action)
    requires FromPromotion(run, capital, row)
    ensures a in run && RowOf(row, a, capital)
  {
    var m :| Promoted(run, capital, m) && SameEntry(row, PosFromExec(m).(id := row.id));
    a :| a in run && Builds(a, capital, m);
  }

  lemma SameReference(row: Position, a: Action, capital: real, intent: TradeIntent, sector: string, nanos: nat)
    requires RowOf(row, a, capital) && BuildExecution(intent, capital, sector, nanos).Some?
    ensures row.executionRef == BuildExecution(intent, capital, sector, nanos).value.executionRef <==>
            a.intent.ticker == intent.ticker && a.nanos == nanos
  {
    ReferencesAgreeExactlyWhen(a.intent, intent, capital, a.sector, sector, a.nanos, nanos);
  }

  /** In every run a promoted opening order still opens exactly when no row of the table came
      from a promotion of the same ticker and instant: another side, price or sector does not
      make it new, and nothing else makes it old. */
  lemma PromotionOpensExactlyWhen(capital: real, run: seq<Action>, intent: TradeIntent, sector: string, nanos: nat)
    requires ValidIntent(intent) && BuildExecution(intent, capital, sector, nanos).Some?
    requires intent.signalReason !in {"stop_loss", "take_profit", "square_off"}
    ensures var rows := Run(Init(capital), run).rows;
            Opens(BuildExecution(intent, capital, sector, nanos).value, rows) <==>
            forall id, a :: id in rows && a in run && RowOf(rows[id], a, capital) ==>
              a.intent.ticker != intent.ticker || a.nanos != nanos
  {
    var rows, m := Run(Init(capital), run).rows, BuildExecution(intent, capital, sector, nanos).value;
    PromotedIsClosingExactlyWhen(intent, capital, sector, nanos);
    PromotedIsBracketed(intent, capital, sector, nanos);
    EveryRowIsPromoted(capital, run);
    forall id, a | id in rows && a in run && RowOf(rows[id], a, capital)
      ensures rows[id].executionRef == m.executionRef <==> a.intent.ticker == intent.ticker && a.nanos == nanos
    {
      SameReference(rows[id], a, capital, intent, sector, nanos);
    }
    if HasRef(rows, m.executionRef) {
      var id :| id in rows && rows[id].executionRef == m.executionRef;
      var a := PromotedRowHasAction(run, capital, rows[id]);
      assert RowOf(rows[id], a, capital);
    }
  }

  /** Deliver, look up, insert and log the newest message of the stream. */
  lemma DeliveryOpens(w: World, m: TradeExecution, id: int) returns (more: seq<Action>)
    requires w.stream != [] && w.stream[|w.stream| - 1] == m && ValidExecution(m) && Opens(m, w.rows)
    requires 1 <= id && id !in w.rows
    ensures var w' := Run(w, more);
            w'.rows == Inserted(w.rows, id, PosFromExec(m)) && w'.log == w.log + [m.(positionId := id)]
  {
    var d := |w.deliveries|;
    var a1, a2, a3, a4 := Deliver(|w.stream| - 1), Lookup(d, true), InsertRow(d, id, Done), WriteLog(d, Done);
    var w2 := Apply(Apply(w, a1), a2);
    DeliveredAndLookedUp(w, m);
    InsertedAndLogged(w2, m, d, id);
    more := [a1, a2, a3, a4];
    FourActions(w, a1, a2, a3, a4);
  }

  lemma FourActions(w: World, a: Action, b: Action, c: Action, d: Action)
    ensures Run(w, [a, b, c, d]) == Apply(Apply(Apply(Apply(w, a), b), c), d)
  {
    RunOne(w, a);
    RunConcat(w, [a], [b]);
    RunOne(Apply(w, a), b);
    assert [a] + [b] == [a, b];
    RunConcat(w, [a, b], [c]);
    RunOne(Run(w, [a, b]), c);
    assert [a, b] + [c] == [a, b, c];
    RunConcat(w, [a, b, c], [d]);
    RunOne(Run(w, [a, b, c]), d);
    assert [a, b, c] + [d] == [a, b, c, d];
  }

  lemma DeliveredAndLookedUp(w: World, m: TradeExecution)
    requires w.stream != [] && w.stream[|w.stream| - 1] == m && ValidExecution(m) && Opens(m, w.rows)
    ensures Apply(Apply(w, Deliver(|w.stream| - 1)), Lookup(|w.deliveries|, true)) ==
              w.(deliveries := w.deliveries + [Delivery(m, AtInsert)])
  {
    var d, v := |w.deliveries|, Apply(w, Deliver(|w.stream| - 1));
    assert v == w.(deliveries := w.deliveries + [Delivery(m, AtLookup)]);
    assert v.deliveries[d := Delivery(m, AtInsert)] == w.deliveries + [Delivery(m, AtInsert)];
  }

  lemma InsertedAndLogged(w: World, m: TradeExecution, d: nat, id: int)
    requires d < |w.deliveries| && w.deliveries[d] == Delivery(m, AtInsert) && 1 <= id && id !in w.rows
    requires !HasRef(w.rows, m.executionRef)
    ensures var w' := Apply(Apply(w, InsertRow(d, id, Done)), WriteLog(d, Done));
            w'.rows == Inserted(w.rows, id, PosFromExec(m)) && w'.log == w.log + [m.(positionId := id)]
  {
    var v := Apply(w, InsertRow(d, id, Done));
    assert v.deliveries[d] == Delivery(m, AtLog(id)) && v.log == w.log;
  }

  /** A key the table has not used. */
  lemma UnusedKey(rows: Table) returns (id: int)
    ensures 1 <= id && id !in rows
  {
    if rows.Keys == {} {
      id := 1;
    } else {
      var top := Greatest(rows.Keys);
      id := if top >= 1 then top + 1 else 1;
    }
  }

  /** From every state of every run: an intent of a ticker and instant that no promotion has
      used, promoted now, can still become a row that carries it, with its log entry. */
  lemma FreshPromotionBecomesARow(capital: real, run: seq<Action>, intent: TradeIntent, sector: string, nanos: nat)
    returns (more: seq<Action>, id: int)
    requires ValidIntent(intent) && BuildExecution(intent, capital, sector, nanos).Some?
    requires intent.signalReason !in {"stop_loss", "take_profit", "square_off"}
    requires forall a :: a in run && a.Promote? ==> a.intent.ticker != intent.ticker || a.nanos != nanos
    ensures var w, w' := Run(Init(capital), run), Run(Init(capital), run + more);
            && id !in w.rows && w'.rows.Keys == w.rows.Keys + {id}
            && CarriesIntent(w'.rows[id], intent, sector)
            && |w'.log| == |w.log| + 1 && w'.log[|w.log|].positionId == id
  {
    var w, m := Run(Init(capital), run), BuildExecution(intent, capital, sector, nanos).value;
    var a := Promote(intent, sector, nanos, Done);
    EveryRowIsPromoted(capital, run);
    PromotionOpensExactlyWhen(capital, run, intent, sector, nanos);
    PromotedIsBracketed(intent, capital, sector, nanos);
    id := UnusedKey(w.rows);
    var v := Apply(w, a);
    assert v == w.(stream := w.stream + [m]);
    var rest := DeliveryOpens(v, m, id);
    more := [a] + rest;
    RunConcat(w, [a], rest);
    RunOne(w, a);
    RunConcat(Init(capital), run, more);
  }
}
