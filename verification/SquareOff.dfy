/** The 15:15 auto-square-off (src/analysts/riskmanager/squareoff.go). */
module SquareOff {
  import opened Models
  import opened MarketTime
  import opened PositionTable
  import opened PaperTrader
  import Exposure

  /** What the outside world does while one listed row is handled: the price cache
      reading (not positive when no tick has arrived), the fate of the publish and of
      the update, and the two timestamps taken. */
  datatype RowEnv = RowEnv(latest: real, publish: Outcome, mark: Outcome, nanos: nat, at: Stamp)

  /** The closing order of signalSquareOff.  Its signal reason is not one of the three
      exit reasons; only the reference prefix marks it as a close. */
  function SquareOffOrder(pos: Position, price: real, nanos: nat): TradeExecution {
    TradeExecution(pos.ticker, Opposite(pos.side), pos.quantity, price, 0.0, 0.0, pos.sector,
                   "auto_square_off", "sqoff-" + pos.executionRef + "-" + Decimal(nanos), pos.id)
  }

  lemma SquareOffOrderCloses(pos: Position, price: real, nanos: nat)
    ensures var m := SquareOffOrder(pos, price, nanos);
            ClosingOrder(m, pos, price) && m.signalReason == "auto_square_off"
  {
    assert SquareOffOrder(pos, price, nanos).executionRef[..6] == SQUARE_OFF_PREFIX;
  }

  /** Only the prefix of its reference marks it as a close. */
  lemma OnlyThePrefixMarksSquareOff(pos: Position, price: real, nanos: nat, ref: string)
    ensures IsClosing(SquareOffOrder(pos, price, nanos).(executionRef := ref)) <==> "exit-" <= ref || "sqoff-" <= ref
  {
    assert |"auto_square_off"| == 15;
    assert |REASON_STOP_LOSS| == 9 && |REASON_TAKE_PROFIT| == 11 && |REASON_SQUARE_OFF| == 10;
  }

  function ExitPrice(pos: Position, latest: real): real {
    if latest <= 0.0 then pos.entryPrice else latest
  }

  /** The price the log line of liquidate announces: the entry price for a stale quote too. */
  function AnnouncedPrice(pos: Position, latest: real, stale: bool): real {
    if stale then pos.entryPrice else ExitPrice(pos, latest)
  }

  /** A stale quote is used all the same: the announcement is true exactly when the quote
      is fresh, there is none, or it happens to equal the entry price. */
  lemma AnnouncementHoldsExactlyWhen(pos: Position, latest: real, stale: bool)
    ensures ExitPrice(pos, latest) == AnnouncedPrice(pos, latest, stale) <==>
            !stale || latest <= 0.0 || latest == pos.entryPrice
  {
  }

  /** Everything a pass can change. */
  datatype Desk = Desk(rows: Table, stream: seq<TradeExecution>, counters: Exposure.Counters, allClosed: bool)

  function HandleRow(d: Desk, pos: Position, env: RowEnv): Desk {
    var price := ExitPrice(pos, env.latest);
    var sent := if env.publish.Lost? then d.stream else d.stream + [SquareOffOrder(pos, price, env.nanos)];
    if !env.publish.Done? then Desk(d.rows, sent, d.counters, false)
    else
      var rows := if env.mark.Lost? then d.rows else Marked(d.rows, pos.id, price, REASON_SQUARE_OFF, env.at);
      if env.mark.Done? && IsOpen(d.rows, pos.id)
      then Desk(rows, sent, Exposure.Released(d.counters, pos.side, pos.sector), d.allClosed)
      else Desk(rows, sent, d.counters, false)
  }

  function Pass(d: Desk, listing: seq<Position>, env: nat -> RowEnv): Desk {
    if listing == [] then d
    else HandleRow(Pass(d, listing[..|listing| - 1], env), listing[|listing| - 1], env(|listing| - 1))
  }

  predicate Succeeds(env: RowEnv) { env.publish.Done? && env.mark.Done? }

  function ReleasedWhereSucceeded(c: Exposure.Counters, listing: seq<Position>, env: nat -> RowEnv): Exposure.Counters {
    if listing == [] then c
    else
      var last := |listing| - 1;
      var before := ReleasedWhereSucceeded(c, listing[..last], env);
      if Succeeds(env(last)) then Exposure.Released(before, listing[last].side, listing[last].sector) else before
  }

  /** A listed row after its turn. */
  function RowAfter(pos: Position, e: RowEnv): Position {
    var price := ExitPrice(pos, e.latest);
    if e.publish.Done? && !e.mark.Lost?
    then pos.(status := Closed(price, Pnl(pos, price), REASON_SQUARE_OFF, e.at))
    else pos
  }

  ghost predicate OpenListing(rows: Table, listing: seq<Position>) {
    && (forall i, j :: 0 <= i < j < |listing| ==> listing[i].id != listing[j].id)
    && (forall i :: 0 <= i < |listing| ==> IsOpen(rows, listing[i].id) && rows[listing[i].id] == listing[i])
  }

  /** The first n listed rows have had their turn. */
  ghost predicate Handled(rows: Table, listing: seq<Position>, env: nat -> RowEnv, n: nat)
    requires n <= |listing|
  {
    forall i :: 0 <= i < n ==> listing[i].id in rows && rows[listing[i].id] == RowAfter(listing[i], env(i))
  }

  /** Rows that are not among the first n listed are as they were. */
  ghost predicate Untouched(base: Table, rows: Table, listing: seq<Position>, n: nat)
    requires n <= |listing|
  {
    && rows.Keys == base.Keys
    && forall id :: id in rows && (forall i :: 0 <= i < n ==> listing[i].id != id) ==> rows[id] == base[id]
  }

  lemma {:induction false} PassRows(d: Desk, listing: seq<Position>, env: nat -> RowEnv)
    requires OpenListing(d.rows, listing)
    ensures var rows := Pass(d, listing, env).rows;
            Handled(rows, listing, env, |listing|) && Untouched(d.rows, rows, listing, |listing|)
  {
    if listing != [] {
      var last := |listing| - 1;
      var front, pos, e := listing[..last], listing[last], env(last);
      PassRows(d, front, env);
      var mid, rows := Pass(d, front, env).rows, Pass(d, listing, env).rows;
      assert mid[pos.id] == pos;
      OpenRowHandled(Pass(d, front, env), pos, e);
      LastRowHandled(d.rows, mid, listing, env);
    }
  }

  lemma LastRowHandled(base: Table, mid: Table, listing: seq<Position>, env: nat -> RowEnv)
    requires listing != [] && OpenListing(base, listing)
    requires Handled(mid, listing, env, |listing| - 1) && Untouched(base, mid, listing, |listing| - 1)
    ensures var last := |listing| - 1;
            var rows := mid[listing[last].id := RowAfter(listing[last], env(last))];
            Handled(rows, listing, env, |listing|) && Untouched(base, rows, listing, |listing|)
  {
  }

  lemma OpenRowHandled(d: Desk, pos: Position, e: RowEnv)
    requires IsOpen(d.rows, pos.id) && d.rows[pos.id] == pos
    ensures HandleRow(d, pos, e).rows == d.rows[pos.id := RowAfter(pos, e)]
  {
  }

  lemma NextRowIsOpen(d: Desk, listing: seq<Position>, env: nat -> RowEnv)
    requires listing != [] && OpenListing(d.rows, listing)
    ensures OpenListing(d.rows, listing[..|listing| - 1])
    ensures IsOpen(Pass(d, listing[..|listing| - 1], env).rows, listing[|listing| - 1].id)
  {
    PassRows(d, listing[..|listing| - 1], env);
  }

  predicate AllSucceed(n: nat, env: nat -> RowEnv) {
    n == 0 || (AllSucceed(n - 1, env) && Succeeds(env(n - 1)))
  }

  lemma {:induction false} AllSucceedMeans(n: nat, env: nat -> RowEnv)
    ensures AllSucceed(n, env) <==> forall i :: 0 <= i < n ==> Succeeds(env(i))
  {
    if n > 0 { AllSucceedMeans(n - 1, env); }
  }

  lemma {:induction false} PassVerdicts(d: Desk, listing: seq<Position>, env: nat -> RowEnv)
    requires OpenListing(d.rows, listing)
    ensures Pass(d, listing, env).counters == ReleasedWhereSucceeded(d.counters, listing, env)
    ensures Pass(d, listing, env).allClosed == (d.allClosed && AllSucceed(|listing|, env))
  {
    if listing != [] {
      NextRowIsOpen(d, listing, env);
      var last := |listing| - 1;
      PassVerdicts(d, listing[..last], env);
      OpenRowVerdict(Pass(d, listing[..last], env), listing[last], env(last));
    }
  }

  lemma OpenRowVerdict(d: Desk, pos: Position, e: RowEnv)
    requires IsOpen(d.rows, pos.id)
    ensures HandleRow(d, pos, e).allClosed == (d.allClosed && Succeeds(e))
    ensures HandleRow(d, pos, e).counters ==
              if Succeeds(e) then Exposure.Released(d.counters, pos.side, pos.sector) else d.counters
  {
  }

  /** An uninterrupted pass over a listing of the table: exposure is released for
      exactly the rows whose publish and update both succeeded; exactly the rows whose
      publish succeeded and whose update took effect are CLOSED, at the price read for
      them; all other rows are as they were; and allClosed reports that no row failed. */
  lemma PassIsExact(d: Desk, listing: seq<Position>, env: nat -> RowEnv)
    requires IsListing(d.rows, listing)
    ensures var r := Pass(d, listing, env);
            && r.counters == ReleasedWhereSucceeded(d.counters, listing, env)
            && (r.allClosed <==> d.allClosed && forall i :: 0 <= i < |listing| ==> Succeeds(env(i)))
            && r.rows.Keys == d.rows.Keys && Handled(r.rows, listing, env, |listing|)
            && (forall id :: id in r.rows && !IsOpen(d.rows, id) ==> r.rows[id] == d.rows[id])
  {
    assert OpenListing(d.rows, listing);
    PassRows(d, listing, env);
    PassVerdicts(d, listing, env);
    AllSucceedMeans(|listing|, env);
  }

  /** The price read for the i-th listed row: the latest quote, or the entry price without one. */
  function PriceRead(listing: seq<Position>, env: nat -> RowEnv, i: nat): real
    requires i < |listing|
  {
    if env(i).latest > 0.0 then env(i).latest else listing[i].entryPrice
  }

  /** The listed rows, by index, whose order reached the stream. */
  function Reaching(n: nat, env: nat -> RowEnv): (r: seq<nat>)
    ensures forall k :: 0 <= k < |r| ==> r[k] < n
  {
    if n == 0 then [] else Reaching(n - 1, env) + (if env(n - 1).publish.Lost? then [] else [n - 1])
  }

  /** In list order, and all of those whose publish was not lost before it took effect. */
  lemma {:induction false} ReachingIsExact(n: nat, env: nat -> RowEnv)
    ensures var r := Reaching(n, env);
            && (forall j, k :: 0 <= j < k < |r| ==> r[j] < r[k])
            && (forall i: nat :: i in r <==> i < n && !env(i).publish.Lost?)
  {
    if n > 0 { ReachingIsExact(n - 1, env); }
  }

  /** The stream has grown by exactly one order for each of those rows, in list order, each
      closing its row at the price read for it. */
  ghost predicate OrdersSent(before: seq<TradeExecution>, after: seq<TradeExecution>,
                             listing: seq<Position>, env: nat -> RowEnv)
  {
    var r := Reaching(|listing|, env);
    && |after| == |before| + |r| && before <= after
    && forall k :: 0 <= k < |r| ==>
         ClosingOrder(after[|before| + k], listing[r[k]], PriceRead(listing, env, r[k]))
  }

  lemma {:induction false} PassSendsOrders(d: Desk, listing: seq<Position>, env: nat -> RowEnv)
    ensures OrdersSent(d.stream, Pass(d, listing, env).stream, listing, env)
  {
    if listing != [] {
      var last := |listing| - 1;
      var front := listing[..last];
      PassSendsOrders(d, front, env);
      var mid, end := Pass(d, front, env).stream, Pass(d, listing, env).stream;
      var price := PriceRead(listing, env, last);
      SquareOffOrderCloses(listing[last], price, env(last).nanos);
      assert end == if env(last).publish.Lost? then mid
                    else mid + [SquareOffOrder(listing[last], price, env(last).nanos)];
      OneMoreSent(d.stream, mid, end, listing, env);
    }
  }

  lemma OneMoreSent(before: seq<TradeExecution>, mid: seq<TradeExecution>, after: seq<TradeExecution>,
                    listing: seq<Position>, env: nat -> RowEnv)
    requires listing != [] && OrdersSent(before, mid, listing[..|listing| - 1], env)
    requires var last := |listing| - 1;
             if env(last).publish.Lost? then after == mid
             else |after| == |mid| + 1 && mid <= after
                  && ClosingOrder(after[|mid|], listing[last], PriceRead(listing, env, last))
    ensures OrdersSent(before, after, listing, env)
  {
    var last := |listing| - 1;
    var front, r, r' := listing[..last], Reaching(last, env), Reaching(|listing|, env);
    forall k | 0 <= k < |r'|
      ensures ClosingOrder(after[|before| + k], listing[r'[k]], PriceRead(listing, env, r'[k]))
    {
      if k < |r| {
        assert r'[k] == r[k] && front[r[k]] == listing[r[k]];
        assert PriceRead(front, env, r[k]) == PriceRead(listing, env, r[k]);
        assert mid[|before| + k] == after[|before| + k];
      }
    }
  }

  /** The added orders hold one for the position at the price. */
  ghost predicate OrderedSince(before: seq<TradeExecution>, after: seq<TradeExecution>, pos: Position, price: real) {
    exists k :: |before| <= k < |after| && ClosingOrder(after[k], pos, price)
  }

  lemma ReachedIsOrdered(before: seq<TradeExecution>, after: seq<TradeExecution>,
                         listing: seq<Position>, env: nat -> RowEnv, i: nat)
    requires OrdersSent(before, after, listing, env) && i < |listing| && !env(i).publish.Lost?
    ensures OrderedSince(before, after, listing[i], PriceRead(listing, env, i))
  {
    ReachingIsExact(|listing|, env);
    var reach := Reaching(|listing|, env);
    assert i in reach;
    var k :| 0 <= k < |reach| && reach[k] == i;
    assert ClosingOrder(after[|before| + k], listing[reach[k]], PriceRead(listing, env, reach[k]));
  }

  /** A listed row that its turn left CLOSED: at the price read, for the reason square_off,
      with the move as its profit, and only after its publish. */
  lemma ClosedByItsTurn(listing: seq<Position>, env: nat -> RowEnv, i: nat)
    requires i < |listing| && listing[i].status.Open? && RowAfter(listing[i], env(i)).status.Closed?
    ensures env(i).publish.Done? && !env(i).mark.Lost?
    ensures ClosedAt(RowAfter(listing[i], env(i)), PriceRead(listing, env, i), "square_off", env(i).at)
  {
    PnlIsTheMove(listing[i], PriceRead(listing, env, i));
  }

  /** Every row a pass closed has an order among those the pass added, at its exit price. */
  lemma ClosedRowsWereOrdered(d: Desk, listing: seq<Position>, env: nat -> RowEnv, i: nat)
    requires IsListing(d.rows, listing) && i < |listing|
    ensures var r := Pass(d, listing, env);
            var pos := listing[i];
            && pos.id in r.rows
            && (r.rows[pos.id].status.Closed? <==> env(i).publish.Done? && !env(i).mark.Lost?)
            && (r.rows[pos.id].status.Closed? ==>
                  && ClosedAt(r.rows[pos.id], PriceRead(listing, env, i), "square_off", env(i).at)
                  && OrderedSince(d.stream, r.stream, pos, r.rows[pos.id].status.exitPrice))
  {
    PassIsExact(d, listing, env);
    PassSendsOrders(d, listing, env);
    assert Pass(d, listing, env).rows[listing[i].id] == RowAfter(listing[i], env(i));
    if RowAfter(listing[i], env(i)).status.Closed? {
      ClosedByItsTurn(listing, env, i);
      ReachedIsOrdered(d.stream, Pass(d, listing, env).stream, listing, env, i);
    }
  }

  // ----- repeated ticks -----

  datatype Square = Square(desk: Desk, sqDone: Option<int>)

  /** One call of squareOff; listing is what ListOpen returned, None if it failed. */
  function Tick(s: Square, now: Instant, listing: Option<seq<Position>>, env: nat -> RowEnv): Square {
    if !SquareOffDue(now) || s.sqDone == Some(now.day) || listing.None? then s
    else
      var desk := Pass(s.desk.(allClosed := true), listing.value, env);
      Square(desk, if desk.allClosed then Some(now.day) else s.sqDone)
  }

  /** The day is marked done by a tick exactly when that tick was due, listed the
      table and closed every listed row without a failure; then no row is left OPEN. */
  lemma DoneOnlyAfterCleanPass(s: Square, now: Instant, listing: Option<seq<Position>>, env: nat -> RowEnv)
    requires Keyed(s.desk.rows)
    requires listing.Some? ==> IsListing(s.desk.rows, listing.value)
    requires s.sqDone != Some(now.day)
    ensures var r := Tick(s, now, listing, env);
            && (r.sqDone == Some(now.day) <==>
                  SquareOffDue(now) && listing.Some? && forall i :: 0 <= i < |listing.value| ==> Succeeds(env(i)))
            && (r.sqDone == Some(now.day) ==> forall id :: !IsOpen(r.desk.rows, id))
  {
    if SquareOffDue(now) && listing.Some? {
      var l := listing.value;
      var start := s.desk.(allClosed := true);
      PassIsExact(start, l, env);
      var r := Pass(start, l, env);
      if r.allClosed {
        forall id ensures !IsOpen(r.rows, id) {
          if IsOpen(s.desk.rows, id) {
            var i :| 0 <= i < |l| && l[i] == s.desk.rows[id];
            assert l[i].id == id;
          }
        }
      }
    }
  }

  /** Before 15:15, on a day already done, or when the listing failed, nothing happens. */
  lemma QuietTick(s: Square, now: Instant, listing: Option<seq<Position>>, env: nat -> RowEnv)
    requires now.nanos < 54_900_000_000_000 || s.sqDone == Some(now.day) || listing.None?
    ensures Tick(s, now, listing, env) == s
  {
  }

  /** At any other call every listed row is ordered closed and updated, in list order. */
  lemma DueTick(s: Square, now: Instant, listing: seq<Position>, env: nat -> RowEnv)
    requires now.nanos >= 54_900_000_000_000 && s.sqDone != Some(now.day) && IsListing(s.desk.rows, listing)
    ensures var r := Tick(s, now, Some(listing), env).desk;
            && OrdersSent(s.desk.stream, r.stream, listing, env)
            && (forall i: nat :: i < |listing| ==>
                  && listing[i].id in r.rows
                  && (r.rows[listing[i].id].status.Closed? <==> env(i).publish.Done? && !env(i).mark.Lost?))
  {
    var start := s.desk.(allClosed := true);
    PassSendsOrders(start, listing, env);
    forall i: nat | i < |listing|
      ensures listing[i].id in Pass(start, listing, env).rows
      ensures Pass(start, listing, env).rows[listing[i].id].status.Closed? <==>
              env(i).publish.Done? && !env(i).mark.Lost?
    {
      ClosedRowsWereOrdered(start, listing, env, i);
    }
  }

  datatype Call = Call(now: Instant, listing: Option<seq<Position>>, env: nat -> RowEnv)

  function Ticks(s: Square, calls: seq<Call>): Square {
    if calls == [] then s
    else
      var c := calls[|calls| - 1];
      Tick(Ticks(s, calls[..|calls| - 1]), c.now, c.listing, c.env)
  }

  /** Once a day is done, no later call of that day does anything: rows inserted after
      the clean pass are not swept until another day. */
  lemma {:induction false} DoneDayIsFinal(s: Square, day: int, calls: seq<Call>)
    requires s.sqDone == Some(day)
    requires forall c :: c in calls ==> c.now.day == day
    ensures Ticks(s, calls) == s
  {
    if calls != [] { DoneDayIsFinal(s, day, calls[..|calls| - 1]); }
  }

  // ----- the routine itself -----

  class SquareOffRoutine {
    const store: PositionStore
    const exposure: Exposure.Exposure
    var stream: seq<TradeExecution>
    var sqDone: Option<int>
    var allClosed: bool

    constructor (store: PositionStore, exposure: Exposure.Exposure)
      ensures this.store == store && this.exposure == exposure && stream == [] && sqDone == None && !allClosed
    {
      this.store, this.exposure := store, exposure;
      stream, sqDone, allClosed := [], None, false;
    }

    ghost function View(): Desk reads this, store, exposure {
      Desk(store.rows, stream, exposure.State(), allClosed)
    }

    /** liquidate.  allClosed becomes the verdict of this pass. */
    method Liquidate(listFails: bool, env: nat -> RowEnv) returns (listing: Option<seq<Position>>)
      requires store.Valid()
      modifies this`stream, this`allClosed, store`rows, exposure
      ensures store.Valid()
      ensures listing.None? <==> listFails
      ensures listing.None? ==> View() == old(View())
      ensures listing.Some? ==> IsListing(old(store.rows), listing.value)
                                && View() == Pass(old(View()).(allClosed := true), listing.value, env)
                                && OrdersSent(old(stream), stream, listing.value, env)
    {
      if listFails { return None; }
      var open := store.ListOpen();
      listing := Some(open);
      PassSendsOrders(old(View()).(allClosed := true), open, env);
      if |open| == 0 {
        allClosed := true;
        return;
      }
      var all := true;
      for i := 0 to |open|
        invariant store.Valid() && sqDone == old(sqDone)
        invariant View().(allClosed := all) == Pass(old(View()).(allClosed := true), open[..i], env)
      {
        assert open[..i + 1][..i] == open[..i];
        var pos, e := open[i], env(i);
        var exitPrice := e.latest;
        if exitPrice <= 0.0 { exitPrice := pos.entryPrice; }
        if !e.publish.Lost? { stream := stream + [SquareOffOrder(pos, exitPrice, e.nanos)]; }
        if !e.publish.Done? {
          all := false;
          continue;
        }
        var ok := store.MarkClosed(pos.id, exitPrice, REASON_SQUARE_OFF, e.at, e.mark);
        if !ok {
          all := false;
          continue;
        }
        exposure.Release(pos.side, pos.sector);
      }
      assert open[..|open|] == open;
      allClosed := all;
    }

    method SquareOff(now: Instant, listFails: bool, env: nat -> RowEnv)
      requires store.Valid()
      modifies this`stream, this`allClosed, this`sqDone, store`rows, exposure
      ensures store.Valid()
      ensures exists listing: Option<seq<Position>> ::
                && (listing.None? <==> listFails)
                && (listing.Some? ==> IsListing(old(store.rows), listing.value))
                && Square(View(), sqDone) == Tick(old(Square(View(), sqDone)), now, listing, env)
    {
      ghost var now0 := Square(View(), sqDone);
      if !SquareOffDue(now) || sqDone == Some(now.day) {
        ghost var l := store.ListOpen();
        ghost var listing := if listFails then None else Some(l);
        assert Tick(now0, now, listing, env) == now0;
        return;
      }
      var listing := Liquidate(listFails, env);
      if listing.Some? && allClosed {
        sqDone := Some(now.day);
      }
      assert Square(View(), sqDone) == Tick(now0, now, listing, env);
    }
  }
}
