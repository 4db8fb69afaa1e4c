/** The life of a position as an interleaving of atomic steps.

    Four agents share a table, a log and a message stream: the risk manager promotes
    intents and sweeps the book from 15:15, the trader gateway handles deliveries, and
    the exit monitor refreshes its cache, fires on prices and closes.  Every remote
    call may fail, or take effect and be reported as failed; every message may be
    delivered any number of times, at any time.  A run is any sequence of actions; an
    action that is not enabled does nothing. */
module Lifecycle {
  import opened Models
  import opened MarketTime
  import opened PositionTable
  import opened Risk
  import opened ExitMonitor
  import opened PaperTrader
  import opened SquareOff

  /** One call of handleExecution, between its database calls. */
  datatype DeliveryAt = AtLookup | AtInsert | AtLog(id: int) | AtCloseLog | Handled
  datatype Delivery = Delivery(order: TradeExecution, at: DeliveryAt)

  /** One call of the monitor's close.  It owns its position until it has dropped it
      from the cache or released its mark; published is whether Publish returned nil. */
  datatype CloserAt = AtPublish | AtMark | AtDrop | AtRelease | Finished | GaveUp
  datatype Closer = Closer(target: Target, price: real, generation: nat, at: CloserAt)

  predicate Owns(c: Closer) { c.at != Finished && c.at != GaveUp }

  predicate Published(c: Closer) { c.at == AtMark || c.at == AtDrop || c.at == Finished }

  predicate SameId(a: Closer, b: Closer) { a.target.pos.id == b.target.pos.id }

  predicate MayPublish(c: Closer) { c.at == AtPublish || Published(c) }

  /** One call of Refresh that has read its listing. */
  datatype Refresher = Refresher(listing: seq<Position>, swapped: bool)

  /** The square-off pass in progress, at listing[next]. */
  datatype Sweep =
    | Idle
    | Sweeping(day: int, listing: seq<Position>, next: nat, price: Option<real>, clean: bool)

  datatype World = World(
    capital: real,
    rows: Table, log: seq<TradeExecution>, stream: seq<TradeExecution>,
    deliveries: seq<Delivery>,
    monitor: Monitor, generation: nat, refreshers: seq<Refresher>, closers: seq<Closer>,
    sweep: Sweep, sqDone: Option<int>)

  datatype Action =
    | Promote(intent: TradeIntent, sector: string, nanos: nat, net: Outcome)
    | Deliver(message: nat)
    | Lookup(d: nat, works: bool)
    | InsertRow(d: nat, id: int, net: Outcome)
    | WriteLog(d: nat, net: Outcome)
    | ReadOpen(listing: seq<Position>)
    | Swap(r: nat)
    | PriceTick(ticker: string, price: real, now: Instant)
    | PublishExit(c: nat, nanos: nat, net: Outcome)
    | MarkExit(c: nat, net: Outcome, stamp: Stamp)
    | DropExit(c: nat)
    | ReleaseExit(c: nat)
    | BeginSweep(now: Instant, listing: seq<Position>)
    | PublishSweep(latest: real, nanos: nat, net: Outcome)
    | MarkSweep(net: Outcome, stamp: Stamp)
    | EndSweep

  function Init(capital: real): World {
    World(capital, map[], [], [], [], Monitor(map[], {}), 0, [], [], Idle, None)
  }

  function Started(targets: seq<Target>, price: real, generation: nat): seq<Closer> {
    seq(|targets|, i requires 0 <= i < |targets| => Closer(targets[i], price, generation, AtPublish))
  }

  predicate CloserIs(w: World, c: nat, at: CloserAt) {
    c < |w.closers| && w.closers[c].at == at
  }

  predicate DeliveryIs(w: World, d: nat, at: DeliveryAt) {
    d < |w.deliveries| && w.deliveries[d].at == at
  }

  ghost predicate Enabled(w: World, a: Action) {
    match a
    case Promote(intent, sector, nanos, net) =>
      ValidIntent(intent) && BuildExecution(intent, w.capital, sector, nanos).Some?
    case Deliver(m) => m < |w.stream|
    case Lookup(d, works) => DeliveryIs(w, d, AtLookup)
    case InsertRow(d, id, net) => DeliveryIs(w, d, AtInsert) && 1 <= id && id !in w.rows
    case WriteLog(d, net) => d < |w.deliveries| && (w.deliveries[d].at.AtLog? || w.deliveries[d].at.AtCloseLog?)
    case ReadOpen(listing) => IsListing(w.rows, listing)
    case Swap(r) => r < |w.refreshers| && !w.refreshers[r].swapped
    case PriceTick(ticker, price, now) => price > 0.0 && ExitsEnabled(now)
    case PublishExit(c, nanos, net) => CloserIs(w, c, AtPublish)
    case MarkExit(c, net, stamp) => CloserIs(w, c, AtMark)
    case DropExit(c) => CloserIs(w, c, AtDrop)
    case ReleaseExit(c) => CloserIs(w, c, AtRelease)
    case BeginSweep(now, listing) =>
      w.sweep.Idle? && SquareOffDue(now) && w.sqDone != Some(now.day) && IsListing(w.rows, listing)
    case PublishSweep(latest, nanos, net) =>
      w.sweep.Sweeping? && w.sweep.next < |w.sweep.listing| && w.sweep.price.None?
    case MarkSweep(net, stamp) =>
      w.sweep.Sweeping? && w.sweep.next < |w.sweep.listing| && w.sweep.price.Some?
    case EndSweep => w.sweep.Sweeping? && w.sweep.next == |w.sweep.listing|
  }

  function Arrival(order: TradeExecution): DeliveryAt {
    if !ValidExecution(order) then Handled else if IsClosing(order) then AtCloseLog else AtLookup
  }

  function AfterLookup(rows: Table, order: TradeExecution, works: bool): DeliveryAt {
    if works && HasRef(rows, order.executionRef) then Handled
    else if !ValidPosition(PosFromExec(order)) then Handled
    else AtInsert
  }

  function Sent(stream: seq<TradeExecution>, order: TradeExecution, net: Outcome): seq<TradeExecution> {
    if net.Lost? then stream else stream + [order]
  }

  ghost function Apply(w: World, a: Action): World {
    if !Enabled(w, a) then w else
    match a
    case Promote(intent, sector, nanos, net) =>
      w.(stream := Sent(w.stream, BuildExecution(intent, w.capital, sector, nanos).value, net))
    case Deliver(m) =>
      w.(deliveries := w.deliveries + [Delivery(w.stream[m], Arrival(w.stream[m]))])
    case Lookup(d, works) =>
      w.(deliveries := w.deliveries[d := w.deliveries[d].(at := AfterLookup(w.rows, w.deliveries[d].order, works))])
    case InsertRow(d, id, net) =>
      var order := w.deliveries[d].order;
      if net.Lost? || HasRef(w.rows, order.executionRef) then
        w.(deliveries := w.deliveries[d := Delivery(order, Handled)])
      else
        w.(rows := Inserted(w.rows, id, PosFromExec(order)),
           deliveries := w.deliveries[d := Delivery(order, if net.Done? then AtLog(id) else Handled)])
    case WriteLog(d, net) =>
      var del := w.deliveries[d];
      var entry := if del.at.AtLog? then del.order.(positionId := del.at.id) else del.order;
      w.(log := Sent(w.log, entry, net), deliveries := w.deliveries[d := Delivery(del.order, Handled)])
    case ReadOpen(listing) =>
      w.(refreshers := w.refreshers + [Refresher(listing, false)])
    case Swap(r) =>
      w.(monitor := Monitor(Grouped(w.refreshers[r].listing), w.monitor.inFlight), generation := w.generation + 1,
         refreshers := w.refreshers[r := w.refreshers[r].(swapped := true)])
    case PriceTick(ticker, price, now) =>
      var (targets, monitor) := Fire(w.monitor, ticker, price);
      w.(monitor := monitor, closers := w.closers + Started(targets, price, w.generation))
    case PublishExit(c, nanos, net) =>
      var k := w.closers[c];
      w.(stream := Sent(w.stream, ExitOrder(k.target.pos, k.target.reason, k.price, nanos), net),
         closers := w.closers[c := k.(at := if net.Done? then AtMark else AtRelease)])
    case MarkExit(c, net, stamp) =>
      var k := w.closers[c];
      w.(rows := if net.Lost? then w.rows else Marked(w.rows, k.target.pos.id, k.price, k.target.reason, stamp),
         closers := w.closers[c := k.(at := AtDrop)])
    case DropExit(c) =>
      var k := w.closers[c];
      w.(monitor := Drop(w.monitor, k.target.pos.id, k.target.pos.ticker),
         closers := w.closers[c := k.(at := Finished)])
    case ReleaseExit(c) =>
      var k := w.closers[c];
      w.(monitor := Release(w.monitor, k.target.pos.id), closers := w.closers[c := k.(at := GaveUp)])
    case BeginSweep(now, listing) =>
      w.(sweep := Sweeping(now.day, listing, 0, None, true))
    case PublishSweep(latest, nanos, net) =>
      var pos := w.sweep.listing[w.sweep.next];
      var price := ExitPrice(pos, latest);
      w.(stream := Sent(w.stream, SquareOffOrder(pos, price, nanos), net),
         sweep := if net.Done? then w.sweep.(price := Some(price))
                  else w.sweep.(next := w.sweep.next + 1, clean := false))
    case MarkSweep(net, stamp) =>
      var pos := w.sweep.listing[w.sweep.next];
      w.(rows := if net.Lost? then w.rows else Marked(w.rows, pos.id, w.sweep.price.value, REASON_SQUARE_OFF, stamp),
         sweep := w.sweep.(next := w.sweep.next + 1, price := None,
                           clean := w.sweep.clean && net.Done? && IsOpen(w.rows, pos.id)))
    case EndSweep =>
      if w.sweep.clean then w.(sweep := Idle, sqDone := Some(w.sweep.day))
      else w.(sweep := Idle)
  }

  ghost function Run(w: World, run: seq<Action>): World {
    if run == [] then w else Apply(Run(w, run[..|run| - 1]), run[|run| - 1])
  }

  // ----- invariants -----

  predicate Known(rows: Table, p: Position) {
    p.id in rows && SameEntry(rows[p.id], p)
  }

  /** A valid message that closes the position at some price. */
  predicate ClosesPosition(m: TradeExecution, p: Position) {
    ValidExecution(m) && ClosingOrder(m, p, m.price)
  }

  /** One at this price is on the stream. */
  ghost predicate CloseOrdered(stream: seq<TradeExecution>, p: Position, price: real) {
    exists k :: 0 <= k < |stream| && ClosesPosition(stream[k], p) && stream[k].price == price
  }

  predicate OpensWithin(m: TradeExecution, capital: real) {
    && !IsClosing(m) && ValidExecution(m)
    && ValidPosition(PosFromExec(m)) && Bracketed(PosFromExec(m)) && WithinBudget(PosFromExec(m), capital)
  }

  predicate Opened(row: Position, m: TradeExecution, capital: real) {
    OpensWithin(m, capital) && SameEntry(row, PosFromExec(m).(id := row.id))
  }

  ghost predicate OpenedBy(stream: seq<TradeExecution>, row: Position, capital: real) {
    exists k :: 0 <= k < |stream| && Opened(row, stream[k], capital)
  }

  /** A promoted intent whose reason is an exit reason: taken for a close, it names no row. */
  predicate Stray(m: TradeExecution) {
    IsClosing(m) && m.positionId == 0
  }

  ghost predicate Explained(m: TradeExecution, rows: Table, capital: real) {
    OpensWithin(m, capital) || Stray(m) || (m.positionId in rows && ClosesPosition(m, rows[m.positionId]))
  }

  ghost predicate StreamInv(stream: seq<TradeExecution>, rows: Table, capital: real) {
    forall k :: 0 <= k < |stream| ==> Explained(stream[k], rows, capital)
  }

  /** A CLOSED row carries the profit of its exit price, an exit reason the price
      justifies, and a closing order that is already on the stream. */
  ghost predicate ClosedProperly(stream: seq<TradeExecution>, row: Position) {
    row.status.Closed? ==>
      && ClosedAt(row, row.status.exitPrice, row.status.reason, row.status.closedAt)
      && (row.status.reason == REASON_SQUARE_OFF || Crossed(row, row.status.exitPrice) == Some(row.status.reason))
      && CloseOrdered(stream, row, row.status.exitPrice)
  }

  ghost predicate TableInv(rows: Table, stream: seq<TradeExecution>, capital: real) {
    && Keyed(rows) && UniqueRefs(rows)
    && (forall id :: id in rows ==> OpenedBy(stream, rows[id], capital))
    && (forall id :: id in rows ==> ClosedProperly(stream, rows[id]))
  }

  ghost predicate DeliveryInv(ds: seq<Delivery>, rows: Table, stream: seq<TradeExecution>) {
    && (forall i :: 0 <= i < |ds| ==> ds[i].order in stream)
    && (forall i :: 0 <= i < |ds| && (ds[i].at.AtLookup? || ds[i].at.AtInsert? || ds[i].at.AtLog?) ==>
          !IsClosing(ds[i].order))
    && (forall i :: 0 <= i < |ds| && ds[i].at.AtCloseLog? ==> IsClosing(ds[i].order))
    && (forall i :: 0 <= i < |ds| && ds[i].at.AtLog? ==> ds[i].at.id in rows)
    && (forall i, j :: 0 <= i < j < |ds| && ds[i].at.AtLog? && ds[j].at.AtLog? ==> ds[i].at.id != ds[j].at.id)
  }

  ghost predicate LogInv(log: seq<TradeExecution>, ds: seq<Delivery>, rows: Table) {
    && (forall i :: 0 <= i < |log| && !IsClosing(log[i]) ==> log[i].positionId in rows)
    && (forall i, j :: 0 <= i < j < |log| && !IsClosing(log[i]) && !IsClosing(log[j]) ==>
          log[i].positionId != log[j].positionId)
    && (forall i, j :: 0 <= i < |log| && 0 <= j < |ds| && !IsClosing(log[i]) && ds[j].at.AtLog? ==>
          log[i].positionId != ds[j].at.id)
  }

  ghost predicate OwnershipInv(inFlight: set<int>, cs: seq<Closer>) {
    && (forall i :: 0 <= i < |cs| && Owns(cs[i]) ==> cs[i].target.pos.id in inFlight)
    && (forall id :: id in inFlight ==> exists i :: 0 <= i < |cs| && Owns(cs[i]) && cs[i].target.pos.id == id)
    && (forall i, j :: 0 <= i < j < |cs| && Owns(cs[i]) && Owns(cs[j]) ==> cs[i].target.pos.id != cs[j].target.pos.id)
  }

  ghost predicate Cached(cache: Cache, id: int) {
    exists t, p :: t in cache && p in cache[t] && p.id == id
  }

  ghost predicate GenerationInv(cache: Cache, generation: nat, cs: seq<Closer>) {
    && (forall i :: 0 <= i < |cs| ==> cs[i].generation <= generation)
    && (forall i, j :: 0 <= i < j < |cs| && MayPublish(cs[i]) && MayPublish(cs[j]) && SameId(cs[i], cs[j]) ==>
          cs[i].generation != cs[j].generation)
    && (forall i :: 0 <= i < |cs| && cs[i].at == Finished && cs[i].generation == generation ==>
          !Cached(cache, cs[i].target.pos.id))
  }

  ghost predicate CloserInv(cs: seq<Closer>, rows: Table, stream: seq<TradeExecution>) {
    forall i :: 0 <= i < |cs| ==>
      && Known(rows, cs[i].target.pos)
      && cs[i].price > 0.0 && Crossed(cs[i].target.pos, cs[i].price) == Some(cs[i].target.reason)
      && (Published(cs[i]) ==> CloseOrdered(stream, cs[i].target.pos, cs[i].price))
  }

  ghost predicate CacheInv(cache: Cache, refreshers: seq<Refresher>, rows: Table) {
    && (forall t, p :: t in cache && p in cache[t] ==> Known(rows, p) && p.ticker == t)
    && (forall r, i :: 0 <= r < |refreshers| && 0 <= i < |refreshers[r].listing| ==>
          Known(rows, refreshers[r].listing[i]))
  }

  ghost predicate SweepInv(s: Sweep, rows: Table, stream: seq<TradeExecution>) {
    s.Sweeping? ==>
      && s.next <= |s.listing|
      && (s.price.Some? ==> s.next < |s.listing| && CloseOrdered(stream, s.listing[s.next], s.price.value))
      && (forall i :: 0 <= i < |s.listing| ==> Known(rows, s.listing[i]))
  }

  ghost predicate Inv(w: World) {
    && StreamInv(w.stream, w.rows, w.capital)
    && TableInv(w.rows, w.stream, w.capital)
    && DeliveryInv(w.deliveries, w.rows, w.stream)
    && LogInv(w.log, w.deliveries, w.rows)
    && OwnershipInv(w.monitor.inFlight, w.closers)
    && GenerationInv(w.monitor.cache, w.generation, w.closers)
    && CloserInv(w.closers, w.rows, w.stream)
    && CacheInv(w.monitor.cache, w.refreshers, w.rows)
    && SweepInv(w.sweep, w.rows, w.stream)
  }

  // ----- growth: rows evolve, the stream only gets longer -----

  ghost predicate Grew(rows: Table, stream: seq<TradeExecution>, rows': Table, stream': seq<TradeExecution>) {
    Evolves(rows, rows') && stream <= stream'
  }

  lemma CloseOrderedGrows(stream: seq<TradeExecution>, stream': seq<TradeExecution>, p: Position, price: real)
    requires stream <= stream' && CloseOrdered(stream, p, price)
    ensures CloseOrdered(stream', p, price)
  {
    var k :| 0 <= k < |stream| && ClosesPosition(stream[k], p) && stream[k].price == price;
    assert stream'[k] == stream[k];
  }

  lemma CloseOrderedTransfers(stream: seq<TradeExecution>, p: Position, q: Position, price: real)
    requires CloseOrdered(stream, p, price) && SameEntry(p, q)
    ensures CloseOrdered(stream, q, price)
  {
    var k :| 0 <= k < |stream| && ClosesPosition(stream[k], p) && stream[k].price == price;
    assert ClosesPosition(stream[k], q);
  }

  lemma OpenedByGrows(stream: seq<TradeExecution>, stream': seq<TradeExecution>,
                      row: Position, row': Position, capital: real)
    requires stream <= stream' && OpenedBy(stream, row, capital) && SameEntry(row, row')
    ensures OpenedBy(stream', row', capital)
  {
    var k :| 0 <= k < |stream| && Opened(row, stream[k], capital);
    assert stream'[k] == stream[k] && row'.id == row.id && Opened(row', stream'[k], capital);
  }

  lemma StreamGrows(stream: seq<TradeExecution>, rows: Table, rows': Table, capital: real)
    requires StreamInv(stream, rows, capital) && Evolves(rows, rows')
    ensures StreamInv(stream, rows', capital)
  {
    forall k | 0 <= k < |stream| && stream[k].positionId in rows
      ensures ClosesPosition(stream[k], rows[stream[k].positionId]) ==>
                ClosesPosition(stream[k], rows'[stream[k].positionId])
    {
      assert SameEntry(rows[stream[k].positionId], rows'[stream[k].positionId]);
    }
  }

  lemma StreamSent(stream: seq<TradeExecution>, rows: Table, capital: real, m: TradeExecution, net: Outcome)
    requires StreamInv(stream, rows, capital)
    requires Explained(m, rows, capital)
    ensures StreamInv(Sent(stream, m, net), rows, capital) && stream <= Sent(stream, m, net)
  {
  }

  lemma TableGrowsStream(rows: Table, stream: seq<TradeExecution>, stream': seq<TradeExecution>, capital: real)
    requires TableInv(rows, stream, capital) && stream <= stream'
    ensures TableInv(rows, stream', capital)
  {
    forall id | id in rows ensures OpenedBy(stream', rows[id], capital) && ClosedProperly(stream', rows[id]) {
      OpenedByGrows(stream, stream', rows[id], rows[id], capital);
      if rows[id].status.Closed? { CloseOrderedGrows(stream, stream', rows[id], rows[id].status.exitPrice); }
    }
  }

  lemma CloserGrows(cs: seq<Closer>, rows: Table, stream: seq<TradeExecution>,
                    rows': Table, stream': seq<TradeExecution>)
    requires CloserInv(cs, rows, stream) && Grew(rows, stream, rows', stream')
    ensures CloserInv(cs, rows', stream')
  {
    forall i | 0 <= i < |cs|
      ensures Known(rows', cs[i].target.pos)
      ensures Published(cs[i]) ==> CloseOrdered(stream', cs[i].target.pos, cs[i].price)
    {
      KnownGrows(rows, rows', cs[i].target.pos);
      if Published(cs[i]) { CloseOrderedGrows(stream, stream', cs[i].target.pos, cs[i].price); }
    }
  }

  lemma KnownGrows(rows: Table, rows': Table, p: Position)
    requires Known(rows, p) && Evolves(rows, rows')
    ensures Known(rows', p)
    ensures rows[p.id].status.Closed? ==> rows'[p.id].status.Closed?
  {
    assert SameEntry(rows[p.id], rows'[p.id]);
  }

  lemma CacheGrows(cache: Cache, rs: seq<Refresher>, rows: Table, rows': Table)
    requires CacheInv(cache, rs, rows) && Evolves(rows, rows')
    ensures CacheInv(cache, rs, rows')
  {
    forall t, p | t in cache && p in cache[t] ensures Known(rows', p) {
      KnownGrows(rows, rows', p);
    }
    forall r, i | 0 <= r < |rs| && 0 <= i < |rs[r].listing| ensures Known(rows', rs[r].listing[i]) {
      KnownGrows(rows, rows', rs[r].listing[i]);
    }
  }

  lemma SweepGrows(s: Sweep, rows: Table, stream: seq<TradeExecution>, rows': Table, stream': seq<TradeExecution>)
    requires SweepInv(s, rows, stream) && Grew(rows, stream, rows', stream')
    ensures SweepInv(s, rows', stream')
  {
    if s.Sweeping? {
      forall i | 0 <= i < |s.listing| ensures Known(rows', s.listing[i]) {
        KnownGrows(rows, rows', s.listing[i]);
      }
      if s.price.Some? { CloseOrderedGrows(stream, stream', s.listing[s.next], s.price.value); }
    }
  }

  lemma DeliveryGrows(ds: seq<Delivery>, log: seq<TradeExecution>, rows: Table, stream: seq<TradeExecution>,
                      rows': Table, stream': seq<TradeExecution>)
    requires DeliveryInv(ds, rows, stream) && LogInv(log, ds, rows) && Grew(rows, stream, rows', stream')
    ensures DeliveryInv(ds, rows', stream') && LogInv(log, ds, rows')
  {
    assert forall m :: m in stream ==> m in stream';
    assert forall id :: id in rows ==> id in rows';
  }

  /** A step that only lets the table and the stream grow keeps everything but the two
      invariants about the table and the stream themselves. */
  lemma GrowthKeepsTheRest(w: World, rows': Table, stream': seq<TradeExecution>)
    requires Inv(w) && Grew(w.rows, w.stream, rows', stream')
    ensures DeliveryInv(w.deliveries, rows', stream') && LogInv(w.log, w.deliveries, rows')
    ensures CloserInv(w.closers, rows', stream')
    ensures CacheInv(w.monitor.cache, w.refreshers, rows')
    ensures SweepInv(w.sweep, rows', stream')
  {
    DeliveryGrows(w.deliveries, w.log, w.rows, w.stream, rows', stream');
    CloserGrows(w.closers, w.rows, w.stream, rows', stream');
    CacheGrows(w.monitor.cache, w.refreshers, w.rows, rows');
    SweepGrows(w.sweep, w.rows, w.stream, rows', stream');
  }

  lemma MarkedRow(row: Position, stream: seq<TradeExecution>, capital: real, price: real, reason: string, stamp: Stamp)
    requires OpenedBy(stream, row, capital) && CloseOrdered(stream, row, price)
    requires reason == REASON_SQUARE_OFF || Crossed(row, price) == Some(reason)
    ensures var row' := row.(status := Closed(price, Pnl(row, price), reason, stamp));
            OpenedBy(stream, row', capital) && ClosedProperly(stream, row')
  {
    var row' := row.(status := Closed(price, Pnl(row, price), reason, stamp));
    OpenedByGrows(stream, stream, row, row', capital);
    CloseOrderedTransfers(stream, row, row', price);
    PnlIsTheMove(row, price);
  }

  lemma CrossedTransfers(p: Position, q: Position, price: real)
    requires SameEntry(p, q)
    ensures Crossed(p, price) == Crossed(q, price)
  {
  }

  /** Closing a row by an order that is on the stream, at a price that justifies the reason. */
  lemma MarkKeepsTable(rows: Table, stream: seq<TradeExecution>, capital: real, pos: Position,
                       price: real, reason: string, stamp: Stamp)
    requires TableInv(rows, stream, capital) && StreamInv(stream, rows, capital)
    requires Known(rows, pos) && CloseOrdered(stream, pos, price)
    requires reason == REASON_SQUARE_OFF || Crossed(pos, price) == Some(reason)
    ensures var rows' := Marked(rows, pos.id, price, reason, stamp);
            TableInv(rows', stream, capital) && StreamInv(stream, rows', capital) && Evolves(rows, rows')
  {
    var rows' := Marked(rows, pos.id, price, reason, stamp);
    MarkedEvolves(rows, pos.id, price, reason, stamp);
    StreamGrows(stream, rows, rows', capital);
    CloseOrderedTransfers(stream, pos, rows[pos.id], price);
    CrossedTransfers(pos, rows[pos.id], price);
    MarkedRow(rows[pos.id], stream, capital, price, reason, stamp);
    forall id | id in rows' ensures OpenedBy(stream, rows'[id], capital) && ClosedProperly(stream, rows'[id]) {
      assert id != pos.id ==> rows'[id] == rows[id];
    }
  }

  // ----- ownership of marks -----

  lemma FireKeepsOwnership(m: Monitor, cs: seq<Closer>, ticker: string, price: real, generation: nat)
    requires OwnershipInv(m.inFlight, cs)
    ensures var (targets, m') := Fire(m, ticker, price);
            OwnershipInv(m'.inFlight, cs + Started(targets, price, generation))
  {
    var (targets, m') := Fire(m, ticker, price);
    ScanIsExact(CacheAt(m.cache, ticker), m.inFlight, price);
    var cs' := cs + Started(targets, price, generation);
    assert forall i :: 0 <= i < |cs| ==> cs'[i] == cs[i];
    assert forall k :: 0 <= k < |targets| ==> cs'[|cs| + k] == Closer(targets[k], price, generation, AtPublish);
    forall id | id in m'.inFlight ensures exists i :: 0 <= i < |cs'| && Owns(cs'[i]) && cs'[i].target.pos.id == id {
      if id in m.inFlight {
        var i :| 0 <= i < |cs| && Owns(cs[i]) && cs[i].target.pos.id == id;
        assert cs'[i] == cs[i];
      } else {
        var k :| 0 <= k < |targets| && targets[k].pos.id == id;
        assert cs'[|cs| + k].target == targets[k];
      }
    }
    forall i, j | 0 <= i < j < |cs'| && Owns(cs'[i]) && Owns(cs'[j])
      ensures cs'[i].target.pos.id != cs'[j].target.pos.id
    {
      if j >= |cs| {
        assert cs'[j].target == targets[j - |cs|];
        if i >= |cs| { assert cs'[i].target == targets[i - |cs|]; }
      }
    }
  }

  lemma MoveKeepsOwnership(inFlight: set<int>, cs: seq<Closer>, c: nat, at: CloserAt)
    requires OwnershipInv(inFlight, cs) && c < |cs| && Owns(cs[c]) && at != Finished && at != GaveUp
    ensures OwnershipInv(inFlight, cs[c := cs[c].(at := at)])
  {
    var cs' := cs[c := cs[c].(at := at)];
    assert forall i :: 0 <= i < |cs| ==> cs'[i].target == cs[i].target && Owns(cs'[i]) == Owns(cs[i]);
  }

  lemma EndKeepsOwnership(inFlight: set<int>, cs: seq<Closer>, c: nat, at: CloserAt)
    requires OwnershipInv(inFlight, cs) && c < |cs| && Owns(cs[c]) && (at == Finished || at == GaveUp)
    ensures OwnershipInv(inFlight - {cs[c].target.pos.id}, cs[c := cs[c].(at := at)])
  {
    var cs' := cs[c := cs[c].(at := at)];
    assert forall i :: 0 <= i < |cs| && i != c ==> cs'[i] == cs[i];
    var inFlight' := inFlight - {cs[c].target.pos.id};
    forall id | id in inFlight' ensures exists i :: 0 <= i < |cs'| && Owns(cs'[i]) && cs'[i].target.pos.id == id {
      var i :| 0 <= i < |cs| && Owns(cs[i]) && cs[i].target.pos.id == id;
      assert cs'[i] == cs[i];
    }
  }

  // ----- generations of the cache -----

  lemma FireKeepsGenerations(m: Monitor, cs: seq<Closer>, ticker: string, price: real, generation: nat)
    requires OwnershipInv(m.inFlight, cs) && GenerationInv(m.cache, generation, cs)
    ensures GenerationInv(m.cache, generation, cs + Started(Fire(m, ticker, price).0, price, generation))
  {
    var targets := Fire(m, ticker, price).0;
    var list := CacheAt(m.cache, ticker);
    ScanIsExact(list, m.inFlight, price);
    var cs' := cs + Started(targets, price, generation);
    assert forall i :: 0 <= i < |cs| ==> cs'[i] == cs[i];
    assert forall k :: 0 <= k < |targets| ==> cs'[|cs| + k] == Closer(targets[k], price, generation, AtPublish);
    forall i, j | 0 <= i < j < |cs'| && MayPublish(cs'[i]) && MayPublish(cs'[j]) && SameId(cs'[i], cs'[j])
      ensures cs'[i].generation != cs'[j].generation
    {
      if j >= |cs| {
        var pos := targets[j - |cs|].pos;
        assert cs'[j].target.pos == pos && pos in list && ticker in m.cache;
        assert Cached(m.cache, pos.id);
        assert i < |cs|;
      }
    }
    forall i | 0 <= i < |cs'| && cs'[i].at == Finished && cs'[i].generation == generation
      ensures !Cached(m.cache, cs'[i].target.pos.id)
    {
      assert i < |cs|;
    }
  }

  lemma MoveKeepsGenerations(cache: Cache, generation: nat, cs: seq<Closer>, c: nat, at: CloserAt)
    requires GenerationInv(cache, generation, cs) && c < |cs|
    requires at != Finished && (MayPublish(cs[c].(at := at)) ==> MayPublish(cs[c]))
    ensures GenerationInv(cache, generation, cs[c := cs[c].(at := at)])
  {
    var cs' := cs[c := cs[c].(at := at)];
    assert forall i :: 0 <= i < |cs| ==> cs'[i].target == cs[i].target && cs'[i].generation == cs[i].generation;
    assert forall i :: 0 <= i < |cs| && MayPublish(cs'[i]) ==> MayPublish(cs[i]);
  }

  lemma DropKeepsGenerations(m: Monitor, rs: seq<Refresher>, rows: Table, generation: nat, cs: seq<Closer>, c: nat)
    requires GenerationInv(m.cache, generation, cs) && CacheInv(m.cache, rs, rows)
    requires c < |cs| && cs[c].at == AtDrop && Known(rows, cs[c].target.pos)
    ensures var pos := cs[c].target.pos;
            GenerationInv(Drop(m, pos.id, pos.ticker).cache, generation, cs[c := cs[c].(at := Finished)])
  {
    var pos := cs[c].target.pos;
    var cs' := cs[c := cs[c].(at := Finished)];
    var cache' := Drop(m, pos.id, pos.ticker).cache;
    DropUncaches(m, rs, rows, pos);
    assert forall i :: 0 <= i < |cs| ==> cs'[i].target == cs[i].target && cs'[i].generation == cs[i].generation;
    assert forall i :: 0 <= i < |cs| && MayPublish(cs'[i]) ==> MayPublish(cs[i]);
    forall i | 0 <= i < |cs'| && cs'[i].at == Finished && cs'[i].generation == generation
      ensures !Cached(cache', cs'[i].target.pos.id)
    {
      if i != c { assert !Cached(m.cache, cs[i].target.pos.id); }
    }
  }

  lemma DropUncaches(m: Monitor, rs: seq<Refresher>, rows: Table, pos: Position)
    requires CacheInv(m.cache, rs, rows) && Known(rows, pos)
    ensures var m' := Drop(m, pos.id, pos.ticker);
            && !Cached(m'.cache, pos.id)
            && (forall id :: id != pos.id ==> (Cached(m'.cache, id) <==> Cached(m.cache, id)))
            && CacheInv(m'.cache, rs, rows)
  {
    var m' := Drop(m, pos.id, pos.ticker);
    WithoutIdMembers(CacheAt(m.cache, pos.ticker), pos.id);
    forall t, p | t in m'.cache && p in m'.cache[t] ensures t in m.cache && p in m.cache[t] && p.id != pos.id {
      assert t != pos.ticker ==> p in m.cache[t] && p.ticker == t;
      assert p.id == pos.id ==> p.ticker == pos.ticker;
    }
  }

  lemma SwapKeepsGenerations(cache: Cache, cache': Cache, generation: nat, cs: seq<Closer>)
    requires GenerationInv(cache, generation, cs)
    ensures GenerationInv(cache', generation + 1, cs)
  {
  }

  // ----- every action keeps the invariant -----

  lemma PromoteKeeps(w: World, a: Action)
    requires Inv(w) && a.Promote? && Enabled(w, a)
    ensures Inv(Apply(w, a))
  {
    var m := BuildExecution(a.intent, w.capital, a.sector, a.nanos).value;
    PromotedIsBracketed(a.intent, w.capital, a.sector, a.nanos);
    PromotedIsClosingExactlyWhen(a.intent, w.capital, a.sector, a.nanos);
    SendingKeeps(w, m, a.net);
  }

  /** Sending a message that opens within budget, names no row, or closes one. */
  lemma SendingKeeps(w: World, m: TradeExecution, net: Outcome)
    requires Inv(w)
    requires Explained(m, w.rows, w.capital)
    ensures Inv(w.(stream := Sent(w.stream, m, net)))
  {
    StreamSent(w.stream, w.rows, w.capital, m, net);
    TableGrowsStream(w.rows, w.stream, Sent(w.stream, m, net), w.capital);
    GrowthKeepsTheRest(w, w.rows, Sent(w.stream, m, net));
  }

  lemma DeliverKeeps(w: World, a: Action)
    requires Inv(w) && a.Deliver? && Enabled(w, a)
    ensures Inv(Apply(w, a))
  {
    var ds' := Apply(w, a).deliveries;
    AddedDelivery(w.deliveries, w.log, w.rows, w.stream, ds'[|w.deliveries|]);
  }

  lemma AddedDelivery(ds: seq<Delivery>, log: seq<TradeExecution>, rows: Table, stream: seq<TradeExecution>,
                      d: Delivery)
    requires DeliveryInv(ds, rows, stream) && LogInv(log, ds, rows) && d.order in stream
    requires d.at == Handled || (d.at == AtCloseLog && IsClosing(d.order)) || (d.at == AtLookup && !IsClosing(d.order))
    ensures DeliveryInv(ds + [d], rows, stream) && LogInv(log, ds + [d], rows)
  {
    assert forall i :: 0 <= i < |ds| ==> (ds + [d])[i] == ds[i];
  }

  lemma LookupKeeps(w: World, a: Action)
    requires Inv(w) && a.Lookup? && Enabled(w, a)
    ensures Inv(Apply(w, a))
  {
    var ds, ds' := w.deliveries, Apply(w, a).deliveries;
    assert forall i :: 0 <= i < |ds| && i != a.d ==> ds'[i] == ds[i];
    assert DeliveryInv(ds', w.rows, w.stream) && LogInv(w.log, ds', w.rows);
  }

  lemma InsertKeeps(w: World, a: Action)
    requires Inv(w) && a.InsertRow? && Enabled(w, a)
    ensures Inv(Apply(w, a))
  {
    var d, order, w' := a.d, w.deliveries[a.d].order, Apply(w, a);
    if a.net.Lost? || HasRef(w.rows, order.executionRef) {
      HandledKeeps(w, d);
    } else {
      InsertedTable(w.rows, w.stream, w.capital, order, a.id);
      GrowthKeepsTheRest(w, w'.rows, w.stream);
      StreamGrows(w.stream, w.rows, w'.rows, w.capital);
      InsertedDelivery(w.deliveries, w.log, w.rows, w.stream, d, a.id, w'.rows, w'.deliveries);
    }
  }

  lemma HandledKeeps(w: World, d: nat)
    requires Inv(w) && d < |w.deliveries|
    ensures Inv(w.(deliveries := w.deliveries[d := Delivery(w.deliveries[d].order, Handled)]))
  {
    var ds := w.deliveries[d := Delivery(w.deliveries[d].order, Handled)];
    assert forall i :: 0 <= i < |w.deliveries| && i != d ==> ds[i] == w.deliveries[i];
    assert DeliveryInv(ds, w.rows, w.stream) && LogInv(w.log, ds, w.rows);
  }

  lemma InsertedTable(rows: Table, stream: seq<TradeExecution>, capital: real, order: TradeExecution, id: int)
    requires TableInv(rows, stream, capital) && StreamInv(stream, rows, capital)
    requires order in stream && !IsClosing(order) && id !in rows && !HasRef(rows, order.executionRef)
    ensures var rows' := Inserted(rows, id, PosFromExec(order));
            TableInv(rows', stream, capital) && Evolves(rows, rows')
  {
    var rows' := Inserted(rows, id, PosFromExec(order));
    var k :| 0 <= k < |stream| && stream[k] == order;
    assert OpensWithin(stream[k], capital);
    assert Opened(rows'[id], stream[k], capital);
    assert OpenedBy(stream, rows'[id], capital);
    forall j | j in rows' ensures OpenedBy(stream, rows'[j], capital) && ClosedProperly(stream, rows'[j]) {}
  }

  lemma InsertedDelivery(ds: seq<Delivery>, log: seq<TradeExecution>, rows: Table, stream: seq<TradeExecution>,
                         d: nat, id: int, rows': Table, ds': seq<Delivery>)
    requires DeliveryInv(ds, rows, stream) && LogInv(log, ds, rows)
    requires d < |ds| && ds[d].at == AtInsert && id !in rows && rows'.Keys == rows.Keys + {id}
    requires ds' == ds[d := Delivery(ds[d].order, AtLog(id))] || ds' == ds[d := Delivery(ds[d].order, Handled)]
    ensures DeliveryInv(ds', rows', stream) && LogInv(log, ds', rows')
  {
    assert forall i :: 0 <= i < |ds| && i != d ==> ds'[i] == ds[i];
    assert forall k :: k in rows ==> k in rows' && k != id;
    assert id in rows';
    assert forall i :: 0 <= i < |ds| && ds[i].at.AtLog? ==> ds[i].at.id != id;
    assert forall i :: 0 <= i < |log| && !IsClosing(log[i]) ==> log[i].positionId != id;
  }

  lemma LogKeeps(w: World, a: Action)
    requires Inv(w) && a.WriteLog? && Enabled(w, a)
    ensures Inv(Apply(w, a))
  {
    var w' := Apply(w, a);
    WrittenLog(w.deliveries, w.log, w.rows, w.stream, a.d, a.net, w'.log, w'.deliveries);
  }

  lemma WrittenLog(ds: seq<Delivery>, log: seq<TradeExecution>, rows: Table, stream: seq<TradeExecution>,
                   d: nat, net: Outcome, log': seq<TradeExecution>, ds': seq<Delivery>)
    requires DeliveryInv(ds, rows, stream) && LogInv(log, ds, rows)
    requires d < |ds| && (ds[d].at.AtLog? || ds[d].at.AtCloseLog?)
    requires ds' == ds[d := Delivery(ds[d].order, Handled)]
    requires log' == Sent(log, if ds[d].at.AtLog? then ds[d].order.(positionId := ds[d].at.id) else ds[d].order, net)
    ensures DeliveryInv(ds', rows, stream) && LogInv(log', ds', rows)
  {
    var entry := if ds[d].at.AtLog? then ds[d].order.(positionId := ds[d].at.id) else ds[d].order;
    assert IsClosing(entry) == ds[d].at.AtCloseLog?;
    assert forall i :: 0 <= i < |ds| && i != d ==> ds'[i] == ds[i];
    assert forall i :: 0 <= i < |log| ==> log'[i] == log[i];
    assert forall i :: |log| <= i < |log'| ==> log'[i] == entry;
  }

  lemma ReadKeeps(w: World, a: Action)
    requires Inv(w) && a.ReadOpen? && Enabled(w, a)
    ensures Inv(Apply(w, a))
  {
    var rs := Apply(w, a).refreshers;
    assert forall i :: 0 <= i < |a.listing| ==> Known(w.rows, a.listing[i]);
    assert forall r :: 0 <= r < |w.refreshers| ==> rs[r] == w.refreshers[r];
    assert CacheInv(w.monitor.cache, rs, w.rows);
  }

  lemma GroupedKnown(listing: seq<Position>, rows: Table)
    requires forall i :: 0 <= i < |listing| ==> Known(rows, listing[i])
    ensures forall t, p :: t in Grouped(listing) && p in Grouped(listing)[t] ==> Known(rows, p) && p.ticker == t
  {
    GroupedIsByTicker(listing);
    forall t, p | t in Grouped(listing) && p in Grouped(listing)[t] ensures Known(rows, p) && p.ticker == t {
      OfTickerMembers(listing, t);
      assert p in CacheAt(Grouped(listing), t);
    }
  }

  lemma SwapKeepsCache(cache: Cache, rs: seq<Refresher>, rows: Table, r: nat)
    requires CacheInv(cache, rs, rows) && r < |rs|
    ensures CacheInv(Grouped(rs[r].listing), rs[r := rs[r].(swapped := true)], rows)
  {
    GroupedKnown(rs[r].listing, rows);
    var rs' := rs[r := rs[r].(swapped := true)];
    assert forall i :: 0 <= i < |rs| ==> rs'[i].listing == rs[i].listing;
  }

  lemma SwapKeeps(w: World, a: Action)
    requires Inv(w) && a.Swap? && Enabled(w, a)
    ensures Inv(Apply(w, a))
  {
    var w', listing := Apply(w, a), w.refreshers[a.r].listing;
    SwapKeepsCache(w.monitor.cache, w.refreshers, w.rows, a.r);
    SwapKeepsGenerations(w.monitor.cache, w'.monitor.cache, w.generation, w.closers);
  }

  lemma TickKeeps(w: World, a: Action)
    requires Inv(w) && a.PriceTick? && Enabled(w, a)
    ensures Inv(Apply(w, a))
  {
    var w' := Apply(w, a);
    FireKeepsOwnership(w.monitor, w.closers, a.ticker, a.price, w.generation);
    FireKeepsGenerations(w.monitor, w.closers, a.ticker, a.price, w.generation);
    FiredClosers(w.monitor, w.refreshers, w.closers, a.ticker, a.price, w.generation, w.rows, w.stream);
  }

  lemma FiredClosers(m: Monitor, rs: seq<Refresher>, cs: seq<Closer>, ticker: string, price: real, generation: nat,
                     rows: Table, stream: seq<TradeExecution>)
    requires CloserInv(cs, rows, stream) && CacheInv(m.cache, rs, rows) && price > 0.0
    ensures CloserInv(cs + Started(Fire(m, ticker, price).0, price, generation), rows, stream)
  {
    var list, targets := CacheAt(m.cache, ticker), Fire(m, ticker, price).0;
    ScanIsExact(list, m.inFlight, price);
    forall k | 0 <= k < |targets| ensures Known(rows, targets[k].pos) {
      assert targets[k].pos in list && ticker in m.cache;
    }
  }

  /** An order for a position of the table is a valid message. */
  lemma KnownCanBeOrdered(w: World, p: Position)
    requires Inv(w) && Known(w.rows, p)
    ensures p.ticker != "" && p.quantity > 0 && p.entryPrice > 0.0
  {
    assert OpenedBy(w.stream, w.rows[p.id], w.capital);
    var k :| 0 <= k < |w.stream| && Opened(w.rows[p.id], w.stream[k], w.capital);
    var q := PosFromExec(w.stream[k]);
    assert p.ticker == q.ticker && p.quantity == q.quantity && p.entryPrice == q.entryPrice;
  }

  lemma PublishKeeps(w: World, a: Action)
    requires Inv(w) && a.PublishExit? && Enabled(w, a)
    ensures Inv(Apply(w, a))
  {
    var k := w.closers[a.c];
    var m := ExitOrder(k.target.pos, k.target.reason, k.price, a.nanos);
    var at := if a.net.Done? then AtMark else AtRelease;
    KnownCanBeOrdered(w, k.target.pos);
    ExitOrderCloses(k.target.pos, k.target.reason, k.price, a.nanos);
    var v := w.(stream := Sent(w.stream, m, a.net));
    SendingKeeps(w, m, a.net);
    MoveKeepsOwnership(w.monitor.inFlight, w.closers, a.c, at);
    MoveKeepsGenerations(w.monitor.cache, w.generation, w.closers, a.c, at);
    if a.net.Done? {
      assert v.stream[|w.stream|] == m && ClosesPosition(m, k.target.pos);
      assert CloseOrdered(v.stream, k.target.pos, k.price);
    }
    MovedClosers(v.closers, v.rows, v.stream, a.c, at);
  }

  lemma MovedClosers(cs: seq<Closer>, rows: Table, stream: seq<TradeExecution>, c: nat, at: CloserAt)
    requires CloserInv(cs, rows, stream) && c < |cs|
    requires Published(cs[c].(at := at)) ==> CloseOrdered(stream, cs[c].target.pos, cs[c].price)
    ensures CloserInv(cs[c := cs[c].(at := at)], rows, stream)
  {
    var cs' := cs[c := cs[c].(at := at)];
    assert forall i :: 0 <= i < |cs| && i != c ==> cs'[i] == cs[i];
  }

  /** An update by an order on the stream, effective or not. */
  lemma UpdateKeeps(w: World, pos: Position, price: real, reason: string, stamp: Stamp, net: Outcome)
    requires Inv(w) && Known(w.rows, pos) && CloseOrdered(w.stream, pos, price)
    requires reason == REASON_SQUARE_OFF || Crossed(pos, price) == Some(reason)
    ensures Inv(w.(rows := if net.Lost? then w.rows else Marked(w.rows, pos.id, price, reason, stamp)))
  {
    MarkKeepsTable(w.rows, w.stream, w.capital, pos, price, reason, stamp);
    GrowthKeepsTheRest(w, Marked(w.rows, pos.id, price, reason, stamp), w.stream);
  }

  lemma MarkKeeps(w: World, a: Action)
    requires Inv(w) && a.MarkExit? && Enabled(w, a)
    ensures Inv(Apply(w, a))
  {
    var k := w.closers[a.c];
    UpdateKeeps(w, k.target.pos, k.price, k.target.reason, a.stamp, a.net);
    MovedClosers(w.closers, Apply(w, a).rows, w.stream, a.c, AtDrop);
    MoveKeepsOwnership(w.monitor.inFlight, w.closers, a.c, AtDrop);
    MoveKeepsGenerations(w.monitor.cache, w.generation, w.closers, a.c, AtDrop);
  }

  lemma EndKeeps(w: World, a: Action)
    requires Inv(w) && (a.DropExit? || a.ReleaseExit?) && Enabled(w, a)
    ensures Inv(Apply(w, a))
  {
    var k := w.closers[a.c];
    var at := if a.DropExit? then Finished else GaveUp;
    EndKeepsOwnership(w.monitor.inFlight, w.closers, a.c, at);
    MovedClosers(w.closers, w.rows, w.stream, a.c, at);
    if a.DropExit? {
      DropKeepsGenerations(w.monitor, w.refreshers, w.rows, w.generation, w.closers, a.c);
      DropUncaches(w.monitor, w.refreshers, w.rows, k.target.pos);
    } else {
      MoveKeepsGenerations(w.monitor.cache, w.generation, w.closers, a.c, at);
    }
  }

  lemma SweepStepKeeps(w: World, a: Action)
    requires Inv(w) && (a.BeginSweep? || a.EndSweep?) && Enabled(w, a)
    ensures Inv(Apply(w, a))
  {
    if a.BeginSweep? {
      assert forall i :: 0 <= i < |a.listing| ==> Known(w.rows, a.listing[i]);
    }
  }

  lemma SweepPublishKeeps(w: World, a: Action)
    requires Inv(w) && a.PublishSweep? && Enabled(w, a)
    ensures Inv(Apply(w, a))
  {
    var pos := w.sweep.listing[w.sweep.next];
    var m := SquareOffOrder(pos, ExitPrice(pos, a.latest), a.nanos);
    KnownCanBeOrdered(w, pos);
    SquareOffOrderCloses(pos, ExitPrice(pos, a.latest), a.nanos);
    var v := w.(stream := Sent(w.stream, m, a.net));
    SendingKeeps(w, m, a.net);
    if a.net.Done? {
      assert v.stream[|w.stream|] == m && ClosesPosition(m, pos);
      assert CloseOrdered(v.stream, pos, ExitPrice(pos, a.latest));
    }
    assert SweepInv(Apply(w, a).sweep, w.rows, v.stream);
  }

  lemma SweepMarkKeeps(w: World, a: Action)
    requires Inv(w) && a.MarkSweep? && Enabled(w, a)
    ensures Inv(Apply(w, a))
  {
    UpdateKeeps(w, w.sweep.listing[w.sweep.next], w.sweep.price.value, REASON_SQUARE_OFF, a.stamp, a.net);
  }

  lemma StepKeepsInv(w: World, a: Action)
    requires Inv(w)
    ensures Inv(Apply(w, a))
  {
    if Enabled(w, a) {
      match a
      case Promote(_, _, _, _) => PromoteKeeps(w, a);
      case Deliver(_) => DeliverKeeps(w, a);
      case Lookup(_, _) => LookupKeeps(w, a);
      case InsertRow(_, _, _) => InsertKeeps(w, a);
      case WriteLog(_, _) => LogKeeps(w, a);
      case ReadOpen(_) => ReadKeeps(w, a);
      case Swap(_) => SwapKeeps(w, a);
      case PriceTick(_, _, _) => TickKeeps(w, a);
      case PublishExit(_, _, _) => PublishKeeps(w, a);
      case MarkExit(_, _, _) => MarkKeeps(w, a);
      case DropExit(_) => EndKeeps(w, a);
      case ReleaseExit(_) => EndKeeps(w, a);
      case BeginSweep(_, _) => SweepStepKeeps(w, a);
      case PublishSweep(_, _, _) => SweepPublishKeeps(w, a);
      case MarkSweep(_, _) => SweepMarkKeeps(w, a);
      case EndSweep => SweepStepKeeps(w, a);
    }
  }

  lemma StepKeepsCapital(w: World, a: Action)
    ensures Apply(w, a).capital == w.capital
  {
  }

  lemma InitInv(capital: real)
    ensures Inv(Init(capital))
  {
  }

  lemma {:induction false} ReachableInv(capital: real, run: seq<Action>)
    ensures Inv(Run(Init(capital), run)) && Run(Init(capital), run).capital == capital
  {
    if run == [] {
      InitInv(capital);
    } else {
      ReachableInv(capital, run[..|run| - 1]);
      StepKeepsCapital(Run(Init(capital), run[..|run| - 1]), run[|run| - 1]);
      StepKeepsInv(Run(Init(capital), run[..|run| - 1]), run[|run| - 1]);
    }
  }
}
