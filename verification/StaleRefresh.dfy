/** A run in which one position is closed twice on the stream: a Refresh that read the
    table before the close swaps its stale listing in after the close has dropped the
    position and its mark, and the next price fires again for a row already CLOSED. */
module StaleRefresh {
  import opened Models
  import opened MarketTime
  import opened PositionTable
  import opened Risk
  import opened ExitMonitor
  import opened PaperTrader
  import opened Lifecycle

  const CAPITAL := 1_000_000.0
  const INTENT := TradeIntent("TCS", Long, 100.0, 99.0, 3.0, SCOUT_REASON)
  const NOON := Instant(0, 1, At(12, 0))
  const STAMP := Stamp(0, "2026-08-24")

  lemma RunSnoc(w: World, run: seq<Action>, a: Action)
    ensures Run(w, run + [a]) == Apply(Run(w, run), a)
  {
    assert (run + [a])[..|run|] == run;
  }

  /** The row the promoted intent becomes. */
  function Row(m: TradeExecution): Position { PosFromExec(m).(id := 1) }

  ghost predicate IsPromoted(m: TradeExecution) {
    && BuildExecution(INTENT, CAPITAL, "IT", 1) == Some(m)
    && ValidExecution(m) && !IsClosing(m) && ValidPosition(PosFromExec(m))
    && Bracketed(PosFromExec(m)) && m.side == Long && m.ticker == "TCS" && m.price == 100.0 && m.stopLoss == 95.0
  }

  lemma PromotedOrder() returns (m: TradeExecution)
    ensures IsPromoted(m)
  {
    PromotedIsBracketed(INTENT, CAPITAL, "IT", 1);
    PromotedIsClosingExactlyWhen(INTENT, CAPITAL, "IT", 1);
    m := BuildExecution(INTENT, CAPITAL, "IT", 1).value;
  }

  ghost function Stage(m: TradeExecution, rows: Table, monitor: Monitor, generation: nat,
                       stream: seq<TradeExecution>, rs: seq<Refresher>, cs: seq<Closer>): World {
    World(CAPITAL, rows, [], stream, [Delivery(m, AtLog(1))], monitor, generation, rs, cs, Idle, None)
  }

  /** Promoted, delivered, looked up and inserted. */
  lemma RowOpened(m: TradeExecution) returns (run: seq<Action>)
    requires IsPromoted(m)
    ensures Run(Init(CAPITAL), run) == Stage(m, map[1 := Row(m)], Monitor(map[], {}), 0, [m], [], [])
  {
    var w0 := Init(CAPITAL);
    var a1, a2, a3, a4 := Promote(INTENT, "IT", 1, Done), Deliver(0), Lookup(0, true), InsertRow(0, 1, Done);
    var w1 := w0.(stream := [m]);
    assert w1 == Apply(w0, a1);
    DeliverFirst(w1, m);
    var w3 := w1.(deliveries := [Delivery(m, AtInsert)]);
    InsertFirst(w3, m);
    run := [a1, a2, a3, a4];
    assert [] + [a1] == [a1] && [a1] + [a2] == [a1, a2];
    assert [a1, a2] + [a3] == [a1, a2, a3] && [a1, a2, a3] + [a4] == run;
    RunSnoc(w0, [], a1);
    RunSnoc(w0, [a1], a2);
    RunSnoc(w0, [a1, a2], a3);
    RunSnoc(w0, [a1, a2, a3], a4);
  }

  lemma DeliverFirst(w: World, m: TradeExecution)
    requires IsPromoted(m) && w.stream == [m] && w.deliveries == [] && w.rows == map[]
    ensures Apply(Apply(w, Deliver(0)), Lookup(0, true)) == w.(deliveries := [Delivery(m, AtInsert)])
  {
    assert Apply(w, Deliver(0)) == w.(deliveries := [Delivery(m, AtLookup)]);
  }

  lemma InsertFirst(w: World, m: TradeExecution)
    requires IsPromoted(m) && w.deliveries == [Delivery(m, AtInsert)] && w.rows == map[]
    ensures Apply(w, InsertRow(0, 1, Done)) == w.(deliveries := [Delivery(m, AtLog(1))], rows := map[1 := Row(m)])
  {
    assert !HasRef(w.rows, m.executionRef);
    assert Inserted(map[], 1, PosFromExec(m)) == map[1 := Row(m)];
  }

  /** Then read and cached. */
  lemma OpenAndCached(m: TradeExecution) returns (run: seq<Action>)
    requires IsPromoted(m)
    ensures Run(Init(CAPITAL), run) ==
              Stage(m, map[1 := Row(m)], Monitor(map["TCS" := [Row(m)]], {}), 1, [m], [Refresher([Row(m)], true)], [])
  {
    run := RowOpened(m);
    var w0 := Run(Init(CAPITAL), run);
    var a1, a2 := ReadOpen([Row(m)]), Swap(0);
    var w1 := w0.(refreshers := [Refresher([Row(m)], false)]);
    assert w1 == Apply(w0, a1);
    GroupedSingle(Row(m));
    var w2 := w1.(refreshers := [Refresher([Row(m)], true)], generation := 1,
                  monitor := Monitor(map["TCS" := [Row(m)]], {}));
    assert w2 == Apply(w1, a2);
    RunSnoc(Init(CAPITAL), run, a1);
    RunSnoc(Init(CAPITAL), run + [a1], a2);
    run := run + [a1] + [a2];
  }

  lemma GroupedSingle(p: Position)
    ensures Grouped([p]) == map[p.ticker := [p]]
  {
    assert [p][..0] == [] && Grouped([]) == map[];
    assert CacheAt(Grouped([]), p.ticker) + [p] == [p];
  }

  lemma ScanSingle(p: Position, price: real)
    requires Crossed(p, price).Some?
    ensures Scan([p], {}, price) == ([Target(p, Crossed(p, price).value)], {p.id})
  {
    var marks: set<int> := {};
    assert [p][1..] == [] && marks + {p.id} == {p.id};
    assert Scan([p][1..], {p.id}, price) == ([], {p.id});
    assert [Target(p, Crossed(p, price).value)] + [] == [Target(p, Crossed(p, price).value)];
  }

  /** A price below the stop of an unmarked cached position starts one close. */
  lemma TickFires(w: World, p: Position)
    requires w.monitor == Monitor(map["TCS" := [p]], {}) && Crossed(p, 90.0) == Some(REASON_STOP_LOSS)
    ensures Apply(w, PriceTick("TCS", 90.0, NOON)) ==
              w.(monitor := Monitor(map["TCS" := [p]], {p.id}),
                 closers := w.closers + [Closer(Target(p, REASON_STOP_LOSS), 90.0, w.generation, AtPublish)])
  {
    ScanSingle(p, 90.0);
    assert CacheAt(w.monitor.cache, "TCS") == [p];
    var t := Target(p, REASON_STOP_LOSS);
    assert Started([t], 90.0, w.generation) == [Closer(t, 90.0, w.generation, AtPublish)];
    assert ExitsEnabled(NOON);
  }

  lemma PublishWorks(w: World, c: nat, nanos: nat)
    requires CloserIs(w, c, AtPublish)
    ensures var k := w.closers[c];
            Apply(w, PublishExit(c, nanos, Done)) ==
              w.(stream := w.stream + [ExitOrder(k.target.pos, k.target.reason, k.price, nanos)],
                 closers := w.closers[c := k.(at := AtMark)])
  {
  }

  /** A listing is read, then the close marks its row and drops the position. */
  lemma ReadMarkDrop(w: World, p: Position)
    requires p.id == 1 && p.ticker == "TCS" && p.status.Open? && w.rows == map[1 := p]
    requires w.monitor == Monitor(map["TCS" := [p]], {1})
    requires w.closers == [Closer(Target(p, REASON_STOP_LOSS), 90.0, 1, AtMark)]
    ensures Apply(Apply(Apply(w, ReadOpen([p])), MarkExit(0, Done, STAMP)), DropExit(0)) ==
              w.(refreshers := w.refreshers + [Refresher([p], false)],
                 rows := map[1 := p.(status := Closed(90.0, Pnl(p, 90.0), REASON_STOP_LOSS, STAMP))],
                 monitor := Monitor(map["TCS" := []], {}),
                 closers := [Closer(Target(p, REASON_STOP_LOSS), 90.0, 1, Finished)])
  {
    ReadWorks(w, p);
    MarkWorks(Apply(w, ReadOpen([p])), p);
    DropWorks(Apply(Apply(w, ReadOpen([p])), MarkExit(0, Done, STAMP)), p);
  }

  lemma ReadWorks(w: World, p: Position)
    requires p.id == 1 && p.status.Open? && w.rows == map[1 := p]
    ensures Apply(w, ReadOpen([p])) == w.(refreshers := w.refreshers + [Refresher([p], false)])
  {
    assert IsListing(w.rows, [p]);
  }

  lemma MarkWorks(w: World, p: Position)
    requires p.id == 1 && p.status.Open? && w.rows == map[1 := p]
    requires w.closers == [Closer(Target(p, REASON_STOP_LOSS), 90.0, 1, AtMark)]
    ensures Apply(w, MarkExit(0, Done, STAMP)) ==
              w.(rows := map[1 := p.(status := Closed(90.0, Pnl(p, 90.0), REASON_STOP_LOSS, STAMP))],
                 closers := [Closer(Target(p, REASON_STOP_LOSS), 90.0, 1, AtDrop)])
  {
  }

  lemma DropWorks(w: World, p: Position)
    requires p.id == 1 && p.ticker == "TCS" && w.monitor == Monitor(map["TCS" := [p]], {1})
    requires w.closers == [Closer(Target(p, REASON_STOP_LOSS), 90.0, 1, AtDrop)]
    ensures Apply(w, DropExit(0)) ==
              w.(monitor := Monitor(map["TCS" := []], {}),
                 closers := [Closer(Target(p, REASON_STOP_LOSS), 90.0, 1, Finished)])
  {
    assert [p][..0] == [] && WithoutId([p], 1) == [];
    assert Drop(w.monitor, 1, "TCS") == Monitor(map["TCS" := []], {});
  }

  lemma StaleSwap(w: World, p: Position)
    requires p.ticker == "TCS" && |w.refreshers| == 2 && w.refreshers[1] == Refresher([p], false)
    requires w.monitor.inFlight == {}
    ensures Apply(w, Swap(1)) ==
              w.(monitor := Monitor(map["TCS" := [p]], {}), generation := w.generation + 1,
                 refreshers := w.refreshers[1 := Refresher([p], true)])
  {
    GroupedSingle(p);
  }

  lemma RunFour(w: World, run: seq<Action>, a: Action, b: Action, c: Action, d: Action) returns (longer: seq<Action>)
    ensures Run(w, longer) == Apply(Apply(Apply(Apply(Run(w, run), a), b), c), d)
  {
    longer := RunTwo(w, run, a, b);
    longer := RunTwo(w, longer, c, d);
  }

  lemma RunTwo(w: World, run: seq<Action>, a: Action, b: Action) returns (longer: seq<Action>)
    ensures longer == run + [a, b] && Run(w, longer) == Apply(Apply(Run(w, run), a), b)
  {
    RunSnoc(w, run, a);
    RunSnoc(w, run + [a], b);
    OneByOne(run, a, b);
    longer := run + [a, b];
  }

  lemma OneByOne<T>(s: seq<T>, a: T, b: T)
    ensures s + [a, b] == s + [a] + [b]
  {
  }

  /** One close of position 1 has been published and started; its row is CLOSED. */
  ghost predicate ClosedByOneOrder(w: World) {
    && |w.closers| == 1 && Published(w.closers[0]) && w.closers[0].target.pos.id == 1
    && 1 in w.rows && w.rows[1].status.Closed?
    && |w.stream| == 2 && ClosesPosition(w.stream[1], w.rows[1])
  }

  /** What the two closes leave behind. */
  ghost predicate TwoOrdersForOne(w: World) {
    && |w.closers| == 2 && Published(w.closers[0]) && Published(w.closers[1])
    && w.closers[0].target.pos.id == w.closers[1].target.pos.id == 1
    && w.closers[1].generation == w.closers[0].generation + 1
    && 1 in w.rows && |w.stream| == 3
    && ClosesPosition(w.stream[1], w.rows[1]) && ClosesPosition(w.stream[2], w.rows[1])
  }

  /** One position, two successfully published closing orders: the second close is started
      by the first of the last two actions, when the row was already CLOSED. */
  lemma OnePositionTwoClosingOrders() returns (before: seq<Action>, last: seq<Action>)
    ensures |last| == 2 && last[0].PriceTick? && last[1].PublishExit?
    ensures ClosedByOneOrder(Run(Init(CAPITAL), before))
    ensures TwoOrdersForOne(Run(Init(CAPITAL), before + last))
  {
    var m := PromotedOrder();
    var run := OpenAndCached(m);
    var p, w0 := Row(m), Run(Init(CAPITAL), run);
    var tick := PriceTick("TCS", 90.0, NOON);
    FirstClose(m, w0);
    run := RunFour(Init(CAPITAL), run, tick, PublishExit(0, 1, Done), ReadOpen([p]), MarkExit(0, Done, STAMP));
    SecondClose(m, Apply(Run(Init(CAPITAL), run), DropExit(0)));
    before := RunTwo(Init(CAPITAL), run, DropExit(0), Swap(1));
    var all := RunTwo(Init(CAPITAL), before, tick, PublishExit(1, 2, Done));
    last := [tick, PublishExit(1, 2, Done)];
  }

  ghost predicate Cached(m: TradeExecution, w: World) {
    w == Stage(m, map[1 := Row(m)], Monitor(map["TCS" := [Row(m)]], {}), 1, [m], [Refresher([Row(m)], true)], [])
  }

  /** After the first close; the second refresher still holds the position. */
  ghost predicate ClosedOnce(m: TradeExecution, w: World) {
    var p := Row(m);
    w == Stage(m, map[1 := p.(status := Closed(90.0, Pnl(p, 90.0), REASON_STOP_LOSS, STAMP))],
               Monitor(map["TCS" := []], {}), 1, [m, ExitOrder(p, REASON_STOP_LOSS, 90.0, 1)],
               [Refresher([p], true), Refresher([p], false)], [Closer(Target(p, REASON_STOP_LOSS), 90.0, 1, Finished)])
  }

  lemma FirstClose(m: TradeExecution, w: World)
    requires IsPromoted(m) && Cached(m, w)
    ensures ClosedOnce(m, Apply(Apply(Apply(Apply(Apply(w, PriceTick("TCS", 90.0, NOON)), PublishExit(0, 1, Done)),
                                            ReadOpen([Row(m)])), MarkExit(0, Done, STAMP)), DropExit(0)))
  {
    var p := Row(m);
    TickFires(w, p);
    var w1 := Apply(w, PriceTick("TCS", 90.0, NOON));
    PublishWorks(w1, 0, 1);
    ReadMarkDrop(Apply(w1, PublishExit(0, 1, Done)), p);
  }

  lemma SecondClose(m: TradeExecution, w: World)
    requires IsPromoted(m) && ClosedOnce(m, w)
    ensures ClosedByOneOrder(Apply(w, Swap(1)))
    ensures TwoOrdersForOne(Apply(Apply(Apply(w, Swap(1)), PriceTick("TCS", 90.0, NOON)), PublishExit(1, 2, Done)))
  {
    var p := Row(m);
    StaleSwap(w, p);
    var w1 := Apply(w, Swap(1));
    TickFires(w1, p);
    var w2 := Apply(w1, PriceTick("TCS", 90.0, NOON));
    PublishWorks(w2, 1, 2);
    assert w.stream[1].executionRef[..5] == EXIT_PREFIX;
    assert ExitOrder(p, REASON_STOP_LOSS, 90.0, 2).executionRef[..5] == EXIT_PREFIX;
  }
}
