/** When a position can get another closing order from the exit monitor: a condition on
    the present state that is met exactly when some continuation publishes one. */
module LifecycleCloses {
  import opened Models
  import opened MarketTime
  import opened PositionTable
  import opened Risk
  import opened ExitMonitor
  import opened Lifecycle
  import opened LifecycleTheorems

  ghost predicate Holds(listing: seq<Position>, id: int) {
    exists p :: p in listing && p.id == id
  }

  /** A listing that still waits to be swapped in holds the position. */
  ghost predicate Pending(rs: seq<Refresher>, id: int) {
    exists r: nat :: r < |rs| && !rs[r].swapped && Holds(rs[r].listing, id)
  }

  /** A close of the position stands at this point. */
  ghost predicate CloseAt(cs: seq<Closer>, id: int, at: CloserAt) {
    exists c: nat :: c < |cs| && cs[c].at == at && cs[c].target.pos.id == id
  }

  /** Its row is OPEN, a listing still to be swapped in holds it, a close of it is about
      to publish, or it is cached and no close that has published is about to drop it. */
  ghost predicate CanCloseAgain(w: World, id: int) {
    || IsOpen(w.rows, id)
    || Pending(w.refreshers, id)
    || CloseAt(w.closers, id, AtPublish)
    || (Cached(w.monitor.cache, id) && !CloseAt(w.closers, id, AtMark) && !CloseAt(w.closers, id, AtDrop))
  }

  /** A close of the position has been published successfully between two states. */
  ghost predicate PublishedSince(cs: seq<Closer>, cs': seq<Closer>, id: int) {
    exists c: nat :: c < |cs'| && Published(cs'[c]) && cs'[c].target.pos.id == id && (c < |cs| ==> !Published(cs[c]))
  }

  // ----- once it cannot, it never can -----

  /** Closes are only added, and keep their targets. */
  ghost predicate Persist(cs: seq<Closer>, cs': seq<Closer>) {
    |cs| <= |cs'| && forall c :: 0 <= c < |cs| ==> cs'[c].target == cs[c].target
  }

  lemma ClosersPersist(w: World, a: Action)
    ensures Persist(w.closers, Apply(w, a).closers)
  {
  }

  /** No close of the position was added, and none of it moved except towards its end. */
  ghost predicate OnlyWindsDown(cs: seq<Closer>, cs': seq<Closer>, id: int) {
    && Persist(cs, cs')
    && (forall c :: |cs| <= c < |cs'| ==> cs'[c].target.pos.id != id)
    && (forall c :: 0 <= c < |cs| && cs[c].target.pos.id == id ==>
          && (Published(cs'[c]) ==> Published(cs[c]))
          && (cs'[c].at == AtPublish ==> cs[c].at == AtPublish))
  }

  lemma WindingDown(cs: seq<Closer>, cs': seq<Closer>, id: int)
    requires OnlyWindsDown(cs, cs', id) && !CloseAt(cs, id, AtPublish)
    ensures !CloseAt(cs', id, AtPublish) && !PublishedSince(cs, cs', id)
  {
  }

  /** It is uncached, or a close that has published waits to drop it. */
  ghost predicate OutOfReach(cache: Cache, cs: seq<Closer>, id: int) {
    Cached(cache, id) ==> CloseAt(cs, id, AtMark) || CloseAt(cs, id, AtDrop)
  }

  lemma StepWindsDown(w: World, a: Action, id: int)
    requires OwnershipInv(w.monitor.inFlight, w.closers)
    requires !CloseAt(w.closers, id, AtPublish) && OutOfReach(w.monitor.cache, w.closers, id)
    ensures OnlyWindsDown(w.closers, Apply(w, a).closers, id)
  {
    if Enabled(w, a) {
      match a
      case PriceTick(ticker, price, _) => TickSpares(w.monitor, w.closers, ticker, price, w.generation, id);
      case PublishExit(c, _, net) => MoveWindsDown(w.closers, c, if net.Done? then AtMark else AtRelease, id);
      case MarkExit(c, _, _) => MoveWindsDown(w.closers, c, AtDrop, id);
      case DropExit(c) => MoveWindsDown(w.closers, c, Finished, id);
      case ReleaseExit(c) => MoveWindsDown(w.closers, c, GaveUp, id);
      case _ =>
    }
  }

  lemma MoveWindsDown(cs: seq<Closer>, c: nat, at: CloserAt, id: int)
    requires c < |cs| && !CloseAt(cs, id, AtPublish)
    requires cs[c].at != AtPublish ==> at != AtPublish && (Published(cs[c].(at := at)) ==> Published(cs[c]))
    ensures OnlyWindsDown(cs, cs[c := cs[c].(at := at)], id)
  {
    var cs' := cs[c := cs[c].(at := at)];
    assert forall d :: 0 <= d < |cs| && d != c ==> cs'[d] == cs[d];
    assert cs[c].at == AtPublish ==> cs[c].target.pos.id != id;
  }

  /** A price never starts a close of a position that is uncached or marked. */
  lemma TickSpares(m: Monitor, cs: seq<Closer>, ticker: string, price: real, generation: nat, id: int)
    requires OwnershipInv(m.inFlight, cs) && OutOfReach(m.cache, cs, id)
    ensures OnlyWindsDown(cs, cs + Started(Fire(m, ticker, price).0, price, generation), id)
  {
    var list, targets := CacheAt(m.cache, ticker), Fire(m, ticker, price).0;
    ScanIsExact(list, m.inFlight, price);
    forall k | 0 <= k < |targets| ensures targets[k].pos.id != id {
      assert targets[k].pos in list && ticker in m.cache;
      assert targets[k].pos.id == id ==> Cached(m.cache, id);
    }
  }

  lemma StepKeepsPendingOff(w: World, a: Action, id: int)
    requires id in w.rows && !IsOpen(w.rows, id) && !Pending(w.refreshers, id)
    ensures !Pending(Apply(w, a).refreshers, id)
  {
    if Enabled(w, a) && (a.ReadOpen? || a.Swap?) {
      var rs, rs' := w.refreshers, Apply(w, a).refreshers;
      assert forall r :: 0 <= r < |rs| ==> rs'[r].listing == rs[r].listing && (rs[r].swapped ==> rs'[r].swapped);
      assert a.ReadOpen? ==> !Holds(a.listing, id);
    }
  }

  /** While a published close waits to drop the position, or it is uncached, it stays so. */
  lemma StepKeepsCacheOff(w: World, a: Action, id: int)
    requires CacheInv(w.monitor.cache, w.refreshers, w.rows) && CloserInv(w.closers, w.rows, w.stream)
    requires OutOfReach(w.monitor.cache, w.closers, id) && !Pending(w.refreshers, id)
    ensures OutOfReach(Apply(w, a).monitor.cache, Apply(w, a).closers, id)
  {
    if Enabled(w, a) {
      match a
      case Swap(r) => SwapLeavesOut(w.refreshers, r, id);
      case DropExit(c) => DropKeepsOff(w.monitor, w.refreshers, w.rows, w.closers, c, id);
      case PriceTick(_, _, _) => WaitingStays(w.closers, Apply(w, a).closers, id);
      case PublishExit(c, _, net) => MoveKeepsWaiting(w.closers, c, if net.Done? then AtMark else AtRelease, id);
      case MarkExit(c, _, _) => MoveKeepsWaiting(w.closers, c, AtDrop, id);
      case ReleaseExit(c) => MoveKeepsWaiting(w.closers, c, GaveUp, id);
      case _ =>
    }
  }

  lemma MoveKeepsWaiting(cs: seq<Closer>, c: nat, at: CloserAt, id: int)
    requires c < |cs| && cs[c].at != AtDrop && (cs[c].at == AtMark ==> at == AtDrop)
    ensures var cs' := cs[c := cs[c].(at := at)];
            CloseAt(cs, id, AtMark) || CloseAt(cs, id, AtDrop) ==> CloseAt(cs', id, AtMark) || CloseAt(cs', id, AtDrop)
  {
    WaitingStays(cs, cs[c := cs[c].(at := at)], id);
  }

  lemma WaitingStays(cs: seq<Closer>, cs': seq<Closer>, id: int)
    requires Persist(cs, cs')
    requires forall c :: 0 <= c < |cs| && cs[c].at == AtMark ==> cs'[c].at == AtMark || cs'[c].at == AtDrop
    requires forall c :: 0 <= c < |cs| && cs[c].at == AtDrop ==> cs'[c].at == AtDrop
    ensures CloseAt(cs, id, AtMark) || CloseAt(cs, id, AtDrop) ==> CloseAt(cs', id, AtMark) || CloseAt(cs', id, AtDrop)
  {
    if CloseAt(cs, id, AtMark) {
      var c: nat :| c < |cs| && cs[c].at == AtMark && cs[c].target.pos.id == id;
      assert cs'[c].target == cs[c].target;
    } else if CloseAt(cs, id, AtDrop) {
      var c: nat :| c < |cs| && cs[c].at == AtDrop && cs[c].target.pos.id == id;
      assert cs'[c].target == cs[c].target;
    }
  }

  lemma SwapLeavesOut(rs: seq<Refresher>, r: nat, id: int)
    requires r < |rs| && !rs[r].swapped && !Pending(rs, id)
    ensures !Cached(Grouped(rs[r].listing), id)
  {
    var listing := rs[r].listing;
    GroupedIsByTicker(listing);
    forall t, p | t in Grouped(listing) && p in Grouped(listing)[t] ensures p.id != id {
      OfTickerMembers(listing, t);
      assert p in CacheAt(Grouped(listing), t);
      assert p.id == id ==> Holds(listing, id);
    }
  }

  lemma DropKeepsOff(m: Monitor, rs: seq<Refresher>, rows: Table, cs: seq<Closer>, c: nat, id: int)
    requires CacheInv(m.cache, rs, rows) && OutOfReach(m.cache, cs, id)
    requires c < |cs| && cs[c].at == AtDrop && Known(rows, cs[c].target.pos)
    ensures var pos := cs[c].target.pos;
            OutOfReach(Drop(m, pos.id, pos.ticker).cache, cs[c := cs[c].(at := Finished)], id)
  {
    var pos := cs[c].target.pos;
    DropUncaches(m, rs, rows, pos);
    if id != pos.id { OthersStay(cs, c, Finished, id); }
  }

  lemma OthersStay(cs: seq<Closer>, c: nat, at: CloserAt, id: int)
    requires c < |cs| && cs[c].target.pos.id != id
    ensures var cs' := cs[c := cs[c].(at := at)];
            forall at' :: CloseAt(cs, id, at') ==> CloseAt(cs', id, at')
  {
    var cs' := cs[c := cs[c].(at := at)];
    forall at' | CloseAt(cs, id, at') ensures CloseAt(cs', id, at') {
      var d: nat :| d < |cs| && cs[d].at == at' && cs[d].target.pos.id == id;
      assert cs'[d] == cs[d];
    }
  }

  lemma StepRetires(w: World, a: Action, id: int)
    requires Inv(w) && id in w.rows && !CanCloseAgain(w, id)
    ensures id in Apply(w, a).rows && !CanCloseAgain(Apply(w, a), id)
    ensures !PublishedSince(w.closers, Apply(w, a).closers, id)
  {
    StepGrows(w, a);
    StepWindsDown(w, a, id);
    WindingDown(w.closers, Apply(w, a).closers, id);
    StepKeepsPendingOff(w, a, id);
    StepKeepsCacheOff(w, a, id);
  }

  lemma PublishedSinceSplits(a: seq<Closer>, b: seq<Closer>, c: seq<Closer>, id: int)
    requires Persist(b, c) && !PublishedSince(a, b, id) && !PublishedSince(b, c, id)
    ensures !PublishedSince(a, c, id)
  {
  }

  /** Whatever happens next, no further close of the position is published. */
  lemma {:induction false} RetiredForGood(w: World, run: seq<Action>, id: int)
    requires Inv(w) && id in w.rows && !CanCloseAgain(w, id)
    ensures var w' := Run(w, run);
            Inv(w') && id in w'.rows && !CanCloseAgain(w', id) && !PublishedSince(w.closers, w'.closers, id)
  {
    if run != [] {
      var front, a := run[..|run| - 1], run[|run| - 1];
      RetiredForGood(w, front, id);
      var v := Run(w, front);
      StepKeepsInv(v, a);
      StepRetires(v, a, id);
      ClosersPersist(v, a);
      PublishedSinceSplits(w.closers, v.closers, Apply(v, a).closers, id);
    }
  }

  // ----- while it can, some continuation does -----

  const NOON := Instant(0, 1, At(12, 0))

  lemma {:induction false} RunConcat(w: World, a: seq<Action>, b: seq<Action>)
    ensures Run(w, a + b) == Run(Run(w, a), b)
    decreases |b|
  {
    if b == [] {
      assert a + b == a;
    } else {
      var front, last := b[..|b| - 1], b[|b| - 1];
      RunConcat(w, a, front);
      assert (a + b)[..|a + b| - 1] == a + front && (a + b)[|a + b| - 1] == last;
    }
  }

  lemma RunOne(w: World, a: Action)
    ensures Run(w, [a]) == Apply(w, a)
  {
    assert [a][..0] == [];
  }

  /** The stop of a cached position is a price that crosses it. */
  lemma StopCrosses(w: World, t: string, p: Position)
    requires Inv(w) && t in w.monitor.cache && p in w.monitor.cache[t]
    ensures p.stopLoss > 0.0 && Crossed(p, p.stopLoss).Some?
  {
    assert Known(w.rows, p);
    BracketedFromStream(w.rows[p.id], w.stream, w.capital);
  }

  lemma CrossedStarts(m: Monitor, ticker: string, p: Position, price: real) returns (k: nat)
    requires p in CacheAt(m.cache, ticker) && p.id !in m.inFlight && Crossed(p, price).Some?
    ensures var targets := Fire(m, ticker, price).0; k < |targets| && targets[k].pos.id == p.id
  {
    ScanIsExact(CacheAt(m.cache, ticker), m.inFlight, price);
    k :| k < |Fire(m, ticker, price).0| && Fire(m, ticker, price).0[k].pos.id == p.id;
  }

  /** A tick at that price starts a close of the position. */
  lemma TickStartsClose(w: World, id: int) returns (a: Action)
    requires Inv(w) && Cached(w.monitor.cache, id) && id !in w.monitor.inFlight
    ensures CloseAt(Apply(w, a).closers, id, AtPublish)
  {
    var t, p :| t in w.monitor.cache && p in w.monitor.cache[t] && p.id == id;
    StopCrosses(w, t, p);
    a := PriceTick(t, p.stopLoss, NOON);
    var k := CrossedStarts(w.monitor, t, p, p.stopLoss);
    TickAdds(w, t, p.stopLoss, k);
  }

  lemma TickAdds(w: World, ticker: string, price: real, k: nat)
    requires price > 0.0 && k < |Fire(w.monitor, ticker, price).0|
    ensures var id := Fire(w.monitor, ticker, price).0[k].pos.id;
            CloseAt(Apply(w, PriceTick(ticker, price, NOON)).closers, id, AtPublish)
  {
    var targets, cs := Fire(w.monitor, ticker, price).0, Apply(w, PriceTick(ticker, price, NOON)).closers;
    assert ExitsEnabled(NOON);
    assert cs == w.closers + Started(targets, price, w.generation);
    assert cs[|w.closers| + k] == Closer(targets[k], price, w.generation, AtPublish);
  }

  lemma PublishFinishes(w: World, c: nat)
    requires CloserIs(w, c, AtPublish)
    ensures PublishedSince(w.closers, Apply(w, PublishExit(c, 0, Done)).closers, w.closers[c].target.pos.id)
  {
    assert Published(Apply(w, PublishExit(c, 0, Done)).closers[c]);
  }

  lemma PublishedLater(a: seq<Closer>, b: seq<Closer>, c: seq<Closer>, id: int)
    requires |a| <= |b| && (forall i :: 0 <= i < |a| && Published(a[i]) ==> Published(b[i])) && PublishedSince(b, c, id)
    ensures PublishedSince(a, c, id)
  {
  }

  /** Closes that had published still have. */
  lemma StepKeepsPublished(w: World, a: Action)
    ensures |w.closers| <= |Apply(w, a).closers|
    ensures forall i :: 0 <= i < |w.closers| && Published(w.closers[i]) ==> Published(Apply(w, a).closers[i])
  {
  }

  /** One more action before a continuation that publishes. */
  lemma After(w: World, a: Action, rest: seq<Action>, id: int)
    requires PublishedSince(Apply(w, a).closers, Run(Apply(w, a), rest).closers, id)
    ensures PublishedSince(w.closers, Run(w, [a] + rest).closers, id)
  {
    RunOne(w, a);
    RunConcat(w, [a], rest);
    StepKeepsPublished(w, a);
    PublishedLater(w.closers, Apply(w, a).closers, Run(w, [a] + rest).closers, id);
  }

  lemma WaitingPublishes(w: World, id: int) returns (run: seq<Action>)
    requires CloseAt(w.closers, id, AtPublish)
    ensures PublishedSince(w.closers, Run(w, run).closers, id)
  {
    var c: nat :| c < |w.closers| && w.closers[c].at == AtPublish && w.closers[c].target.pos.id == id;
    run := [PublishExit(c, 0, Done)];
    RunOne(w, run[0]);
    PublishFinishes(w, c);
  }

  lemma CachedPublishes(w: World, id: int) returns (run: seq<Action>)
    requires Inv(w) && Cached(w.monitor.cache, id) && id !in w.monitor.inFlight
    ensures PublishedSince(w.closers, Run(w, run).closers, id)
  {
    var a := TickStartsClose(w, id);
    run := WaitingPublishes(Apply(w, a), id);
    After(w, a, run, id);
    run := [a] + run;
  }

  lemma PendingPublishes(w: World, id: int) returns (run: seq<Action>)
    requires Inv(w) && Pending(w.refreshers, id) && id !in w.monitor.inFlight
    ensures PublishedSince(w.closers, Run(w, run).closers, id)
  {
    var r: nat :| r < |w.refreshers| && !w.refreshers[r].swapped && Holds(w.refreshers[r].listing, id);
    var a := Swap(r);
    GroupedCaches(w.refreshers[r].listing, id);
    StepKeepsInv(w, a);
    run := CachedPublishes(Apply(w, a), id);
    After(w, a, run, id);
    run := [a] + run;
  }

  lemma GroupedCaches(listing: seq<Position>, id: int)
    requires Holds(listing, id)
    ensures Cached(Grouped(listing), id)
  {
    var p :| p in listing && p.id == id;
    GroupedIsByTicker(listing);
    OfTickerMembers(listing, p.ticker);
    assert p in CacheAt(Grouped(listing), p.ticker);
  }

  lemma ReadPends(w: World, listing: seq<Position>, id: int)
    requires Keyed(w.rows) && IsListing(w.rows, listing) && IsOpen(w.rows, id)
    ensures Pending(Apply(w, ReadOpen(listing)).refreshers, id)
    ensures Apply(w, ReadOpen(listing)).monitor == w.monitor
  {
    assert w.rows[id] in listing && w.rows[id].id == id;
    assert Apply(w, ReadOpen(listing)).refreshers[|w.refreshers|] == Refresher(listing, false);
  }

  lemma OpenPublishes(w: World, id: int) returns (run: seq<Action>)
    requires Inv(w) && IsOpen(w.rows, id) && id !in w.monitor.inFlight
    ensures PublishedSince(w.closers, Run(w, run).closers, id)
  {
    var listing := ListingOf(w.rows);
    var a := ReadOpen(listing);
    StepKeepsInv(w, a);
    ReadPends(w, listing, id);
    run := PendingPublishes(Apply(w, a), id);
    After(w, a, run, id);
    run := [a] + run;
  }

  lemma {:induction false} ListingOf(rows: Table) returns (listing: seq<Position>)
    requires Keyed(rows)
    ensures IsListing(rows, listing)
    decreases |rows|
  {
    if rows == map[] {
      listing := [];
    } else {
      var top := Greatest(rows.Keys);
      var rest := ListingOf(rows - {top});
      listing := (if IsOpen(rows, top) then [rows[top]] else []) + rest;
      ListingAbove(rows, top, rest);
    }
  }

  lemma ListingAbove(rows: Table, top: int, rest: seq<Position>)
    requires Keyed(rows) && top in rows && (forall id :: id in rows ==> id <= top) && IsListing(rows - {top}, rest)
    ensures IsListing(rows, (if IsOpen(rows, top) then [rows[top]] else []) + rest)
  {
    var listing := (if IsOpen(rows, top) then [rows[top]] else []) + rest;
    forall id | IsOpen(rows, id) ensures rows[id] in listing {
      assert id != top ==> IsOpen(rows - {top}, id);
    }
  }

  lemma {:induction false} Greatest(ids: set<int>) returns (top: int)
    requires ids != {}
    ensures top in ids && forall id :: id in ids ==> id <= top
    decreases |ids|
  {
    assert (forall id :: id !in ids) ==> ids == {};
    var some :| some in ids;
    var rest := ids - {some};
    assert forall id :: id in ids ==> id == some || id in rest;
    if rest == {} {
      top := some;
    } else {
      var above := Greatest(rest);
      top := if above > some then above else some;
    }
  }

  // ----- a close in progress is out of the way first -----

  /** The owning close, if any, when none is about to publish. */
  lemma Finishing(w: World, id: int) returns (c: nat)
    requires Inv(w) && id in w.monitor.inFlight && !CloseAt(w.closers, id, AtPublish)
    ensures c < |w.closers| && w.closers[c].target.pos.id == id
    ensures w.closers[c].at == AtMark || w.closers[c].at == AtDrop || w.closers[c].at == AtRelease
  {
    c :| c < |w.closers| && Owns(w.closers[c]) && w.closers[c].target.pos.id == id;
  }

  /** The next action of that close that leaves the table alone: its update is lost. */
  function Onward(c: nat, at: CloserAt): Action {
    if at == AtMark then MarkExit(c, Lost, Stamp(0, ""))
    else if at == AtDrop then DropExit(c)
    else ReleaseExit(c)
  }

  lemma OnwardLeaves(w: World, c: nat)
    requires CloserIs(w, c, AtMark) || CloserIs(w, c, AtDrop) || CloserIs(w, c, AtRelease)
    ensures var w' := Apply(w, Onward(c, w.closers[c].at));
            && w'.rows == w.rows && w'.refreshers == w.refreshers
            && (w.closers[c].at == AtRelease ==> w'.monitor.cache == w.monitor.cache)
            && (w.closers[c].at == AtMark ==> CloserIs(w', c, AtDrop) && w'.closers[c].target == w.closers[c].target)
            && (w.closers[c].at != AtMark ==> w.closers[c].target.pos.id !in w'.monitor.inFlight)
  {
  }

  ghost predicate OpenOrPending(w: World, id: int) { IsOpen(w.rows, id) || Pending(w.refreshers, id) }

  lemma FreePublishes(w: World, id: int) returns (run: seq<Action>)
    requires Inv(w) && OpenOrPending(w, id) && id !in w.monitor.inFlight
    ensures PublishedSince(w.closers, Run(w, run).closers, id)
  {
    if IsOpen(w.rows, id) {
      run := OpenPublishes(w, id);
    } else {
      run := PendingPublishes(w, id);
    }
  }

  /** Open or pending, with a close about to end: let it end, then start another. */
  lemma EndingPublishes(w: World, c: nat, id: int) returns (run: seq<Action>)
    requires Inv(w) && OpenOrPending(w, id) && (CloserIs(w, c, AtDrop) || CloserIs(w, c, AtRelease))
    requires w.closers[c].target.pos.id == id
    ensures PublishedSince(w.closers, Run(w, run).closers, id)
  {
    var a := Onward(c, w.closers[c].at);
    OnwardLeaves(w, c);
    StepKeepsInv(w, a);
    run := FreePublishes(Apply(w, a), id);
    After(w, a, run, id);
    run := [a] + run;
  }

  lemma MarkingPublishes(w: World, c: nat, id: int) returns (run: seq<Action>)
    requires Inv(w) && OpenOrPending(w, id) && CloserIs(w, c, AtMark) && w.closers[c].target.pos.id == id
    ensures PublishedSince(w.closers, Run(w, run).closers, id)
  {
    var a := Onward(c, AtMark);
    OnwardLeaves(w, c);
    StepKeepsInv(w, a);
    run := EndingPublishes(Apply(w, a), c, id);
    After(w, a, run, id);
    run := [a] + run;
  }

  lemma OpenOrPendingPublishes(w: World, id: int) returns (run: seq<Action>)
    requires Inv(w) && OpenOrPending(w, id)
    ensures PublishedSince(w.closers, Run(w, run).closers, id)
  {
    if CloseAt(w.closers, id, AtPublish) {
      run := WaitingPublishes(w, id);
    } else if id in w.monitor.inFlight {
      var c := Finishing(w, id);
      if w.closers[c].at == AtMark {
        run := MarkingPublishes(w, c, id);
      } else {
        run := EndingPublishes(w, c, id);
      }
    } else {
      run := FreePublishes(w, id);
    }
  }

  lemma ReachablePublishes(w: World, id: int) returns (run: seq<Action>)
    requires Inv(w) && Cached(w.monitor.cache, id)
    requires !CloseAt(w.closers, id, AtMark) && !CloseAt(w.closers, id, AtDrop)
    ensures PublishedSince(w.closers, Run(w, run).closers, id)
  {
    if CloseAt(w.closers, id, AtPublish) {
      run := WaitingPublishes(w, id);
    } else if id in w.monitor.inFlight {
      var c := Finishing(w, id);
      var a := Onward(c, AtRelease);
      OnwardLeaves(w, c);
      StepKeepsInv(w, a);
      run := CachedPublishes(Apply(w, a), id);
      After(w, a, run, id);
      run := [a] + run;
    } else {
      run := CachedPublishes(w, id);
    }
  }

  lemma SomeContinuationPublishes(w: World, id: int) returns (run: seq<Action>)
    requires Inv(w) && CanCloseAgain(w, id)
    ensures PublishedSince(w.closers, Run(w, run).closers, id)
  {
    if OpenOrPending(w, id) {
      run := OpenOrPendingPublishes(w, id);
    } else if CloseAt(w.closers, id, AtPublish) {
      run := WaitingPublishes(w, id);
    } else {
      run := ReachablePublishes(w, id);
    }
  }

  /** The continuation publishes another close of the position. */
  ghost predicate Publishes(w: World, more: seq<Action>, id: int) {
    PublishedSince(w.closers, Run(w, more).closers, id)
  }

  /** From any state of any run, some continuation publishes another exit close of a
      position exactly when the state says so.  In particular a position that no close
      owns is done with exactly when its row is CLOSED, it is not cached, and no listing
      read before it closed still waits to be swapped in: a listing read afterwards
      never brings it back. */
  lemma AnotherCloseExactlyWhen(capital: real, before: seq<Action>, id: int)
    requires id in Run(Init(capital), before).rows
    ensures var w := Run(Init(capital), before);
            (exists more :: Publishes(w, more, id)) <==> CanCloseAgain(w, id)
  {
    var w := Run(Init(capital), before);
    ReachableInv(capital, before);
    if CanCloseAgain(w, id) {
      var more := SomeContinuationPublishes(w, id);
      assert Publishes(w, more, id);
    } else {
      forall more ensures !Publishes(w, more, id) {
        RetiredForGood(w, more, id);
      }
    }
  }
}
