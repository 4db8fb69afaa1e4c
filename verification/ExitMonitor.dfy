/** The intraday exit monitor (src/analysts/trader/exitmonitor.go).

    The locked sections are specified by functions on a Monitor value; the class
    carries the two maps and is proved against those functions.  Lifecycle.dfy
    interleaves the same functions with everything else that runs beside them. */
module ExitMonitor {
  import opened Models
  import opened MarketTime
  import opened PositionTable
  import opened Risk
  import opened PaperTrader

  type Cache = map<string, seq<Position>>

  datatype Monitor = Monitor(cache: Cache, inFlight: set<int>)

  datatype Target = Target(pos: Position, reason: string)

  function CacheAt(cache: Cache, ticker: string): seq<Position> {
    if ticker in cache then cache[ticker] else []
  }

  function OfTicker(ps: seq<Position>, ticker: string): seq<Position> {
    if ps == [] then []
    else OfTicker(ps[..|ps| - 1], ticker) + (if ps[|ps| - 1].ticker == ticker then [ps[|ps| - 1]] else [])
  }

  function WithoutId(ps: seq<Position>, id: int): seq<Position> {
    if ps == [] then []
    else WithoutId(ps[..|ps| - 1], id) + (if ps[|ps| - 1].id != id then [ps[|ps| - 1]] else [])
  }

  /** The map Refresh builds from a listing. */
  function Grouped(listing: seq<Position>): Cache {
    if listing == [] then map[]
    else
      var before, p := Grouped(listing[..|listing| - 1]), listing[|listing| - 1];
      before[p.ticker := CacheAt(before, p.ticker) + [p]]
  }

  /** One entry per ticker that occurs, holding that ticker's positions in list order. */
  ghost predicate GroupsByTicker(cache: Cache, listing: seq<Position>) {
    && (forall t :: CacheAt(cache, t) == OfTicker(listing, t))
    && (forall t :: t in cache ==> cache[t] != [])
  }

  /** The scan under the lock: the positions to close, in list order, together with
      the marks left behind.  A mark set earlier in the scan counts for later entries. */
  function Scan(ps: seq<Position>, marks: set<int>, price: real): (r: (seq<Target>, set<int>)) {
    if ps == [] then ([], marks)
    else if ps[0].id in marks || Crossed(ps[0], price).None? then Scan(ps[1..], marks, price)
    else
      var rest := Scan(ps[1..], marks + {ps[0].id}, price);
      ([Target(ps[0], Crossed(ps[0], price).value)] + rest.0, rest.1)
  }

  function Fire(m: Monitor, ticker: string, price: real): (seq<Target>, Monitor) {
    var scan := Scan(CacheAt(m.cache, ticker), m.inFlight, price);
    (scan.0, m.(inFlight := scan.1))
  }

  function Release(m: Monitor, id: int): Monitor {
    m.(inFlight := m.inFlight - {id})
  }

  function Drop(m: Monitor, id: int, ticker: string): Monitor {
    Monitor(m.cache[ticker := WithoutId(CacheAt(m.cache, ticker), id)], m.inFlight - {id})
  }

  /** The closing order: opposite side, full quantity, tied to the position by its key. */
  function ExitOrder(pos: Position, reason: string, price: real, nanos: nat): TradeExecution {
    TradeExecution(pos.ticker, Opposite(pos.side), pos.quantity, price, 0.0, 0.0, pos.sector,
                   reason, "exit-" + Decimal(pos.id) + "-" + Decimal(nanos), pos.id)
  }

  lemma ExitOrderCloses(pos: Position, reason: string, price: real, nanos: nat)
    ensures var m := ExitOrder(pos, reason, price, nanos);
            ClosingOrder(m, pos, price) && m.signalReason == reason
  {
    assert ExitOrder(pos, reason, price, nanos).executionRef[..5] == EXIT_PREFIX;
  }

  lemma {:induction false} OfTickerMembers(ps: seq<Position>, ticker: string)
    ensures forall p :: p in OfTicker(ps, ticker) <==> p in ps && p.ticker == ticker
  {
    if ps != [] {
      OfTickerMembers(ps[..|ps| - 1], ticker);
      assert ps == ps[..|ps| - 1] + [ps[|ps| - 1]];
    }
  }

  lemma {:induction false} GroupedIsByTicker(listing: seq<Position>)
    ensures GroupsByTicker(Grouped(listing), listing)
  {
    if listing != [] { GroupedIsByTicker(listing[..|listing| - 1]); }
  }

  lemma {:induction false} WithoutIdMembers(ps: seq<Position>, id: int)
    ensures forall p :: p in WithoutId(ps, id) <==> p in ps && p.id != id
    ensures |WithoutId(ps, id)| <= |ps|
  {
    if ps != [] {
      WithoutIdMembers(ps[..|ps| - 1], id);
      assert ps == ps[..|ps| - 1] + [ps[|ps| - 1]];
    }
  }

  /** What one price may start: closes of listed, crossed, unmarked positions, no id
      twice, every one of them marked; and no crossed position is passed over. */
  ghost predicate ScanPost(ps: seq<Position>, marks: set<int>, price: real, targets: seq<Target>, after: set<int>) {
    && (forall k :: 0 <= k < |targets| ==>
          && targets[k].pos in ps && targets[k].pos.id !in marks
          && Crossed(targets[k].pos, price) == Some(targets[k].reason))
    && (forall j, k :: 0 <= j < k < |targets| ==> targets[j].pos.id != targets[k].pos.id)
    && (forall k :: 0 <= k < |targets| ==> targets[k].pos.id in after)
    && (forall id :: id in marks ==> id in after)
    && (forall id :: id in after && id !in marks ==> exists k :: 0 <= k < |targets| && targets[k].pos.id == id)
    && (forall p :: p in ps && Crossed(p, price).Some? ==> p.id in after)
  }

  lemma {:induction false} ScanIsExact(ps: seq<Position>, marks: set<int>, price: real)
    ensures ScanPost(ps, marks, price, Scan(ps, marks, price).0, Scan(ps, marks, price).1)
    decreases |ps|
  {
    if ps != [] {
      var head, tail := ps[0], ps[1..];
      assert ps == [head] + tail;
      if head.id in marks || Crossed(head, price).None? {
        ScanIsExact(tail, marks, price);
      } else {
        var added := marks + {head.id};
        ScanIsExact(tail, added, price);
        var (rest, after) := Scan(tail, added, price);
        ScanStep(head, tail, marks, price, rest, after);
      }
    }
  }

  lemma ScanStep(head: Position, tail: seq<Position>, marks: set<int>, price: real, rest: seq<Target>, after: set<int>)
    requires head.id !in marks && Crossed(head, price).Some?
    requires ScanPost(tail, marks + {head.id}, price, rest, after)
    ensures ScanPost([head] + tail, marks, price, [Target(head, Crossed(head, price).value)] + rest, after)
  {
    var first := Target(head, Crossed(head, price).value);
    var targets := [first] + rest;
    assert targets[0] == first && forall k :: 0 < k < |targets| ==> targets[k] == rest[k - 1];
    assert head.id in after;
    forall id | id in after && id !in marks ensures exists k :: 0 <= k < |targets| && targets[k].pos.id == id {
      if id == head.id {
        assert targets[0].pos.id == id;
      } else {
        var k :| 0 <= k < |rest| && rest[k].pos.id == id;
        assert targets[k + 1].pos.id == id;
      }
    }
  }

  /** The compaction of dropFromCache: kept := list[:0], then append what stays, all
      within one backing array.  The write index never overtakes the read index, so
      nothing unread is lost and the kept prefix is the pure filter. */
  method CompactInPlace(list: array<Position>, id: int) returns (kept: nat)
    modifies list
    ensures kept <= list.Length
    ensures list[..kept] == WithoutId(old(list[..]), id)
    ensures list[kept..] == old(list[..])[kept..]
  {
    kept := 0;
    var i := 0;
    ghost var was := list[..];
    while i < list.Length
      invariant 0 <= kept <= i <= list.Length
      invariant list[..kept] == WithoutId(was[..i], id)
      invariant list[kept..] == was[kept..]
    {
      assert was[..i + 1][..i] == was[..i];
      assert list[kept..][i - kept] == was[kept..][i - kept];
      if list[i].id != id {
        ghost var before := list[..];
        list[kept] := list[i];
        assert list[..kept + 1] == before[..kept] + [was[i]];
        assert list[kept + 1..] == before[kept..][1..];
        kept := kept + 1;
      }
      i := i + 1;
    }
    assert was[..i] == was;
  }

  class ExitMonitor {
    var cache: Cache
    var inFlight: set<int>

    ghost function State(): Monitor reads this { Monitor(cache, inFlight) }

    constructor ()
      ensures State() == Monitor(map[], {})
    {
      cache := map[];
      inFlight := {};
    }

    /** Refresh over a listing already read: build the grouping, then swap it in.
        The in-flight marks are left alone. */
    method Refresh(open: seq<Position>)
      modifies this
      ensures State() == Monitor(Grouped(open), old(inFlight)) && GroupsByTicker(cache, open)
    {
      var next: Cache := map[];
      for i := 0 to |open|
        invariant next == Grouped(open[..i])
      {
        assert open[..i + 1][..i] == open[..i];
        next := next[open[i].ticker := CacheAt(next, open[i].ticker) + [open[i]]];
      }
      assert open[..|open|] == open;
      cache := next;
      GroupedIsByTicker(open);
    }

    /** evaluate up to the unlock. */
    method Evaluate(ticker: string, price: real, now: Instant) returns (targets: seq<Target>)
      modifies this`inFlight
      ensures !ExitsEnabled(now) ==> targets == [] && State() == old(State())
      ensures ExitsEnabled(now) ==>
                var fired := Fire(old(State()), ticker, price);
                targets == fired.0 && State() == fired.1
    {
      targets := [];
      if IsOpeningBuffer(now) || IsClosingCutoff(now) { return; }
      var candidates := CacheAt(cache, ticker);
      assert candidates[0..] == candidates;
      for i := 0 to |candidates|
        invariant var all, rest := Scan(candidates, old(inFlight), price), Scan(candidates[i..], inFlight, price);
                  all.0 == targets + rest.0 && all.1 == rest.1
        invariant cache == old(cache)
      {
        var pos := candidates[i];
        assert candidates[i..][1..] == candidates[i + 1..] && candidates[i..][0] == pos;
        if pos.id !in inFlight {
          var reason := Crossed(pos, price);
          if reason.Some? {
            targets := targets + [Target(pos, reason.value)];
            inFlight := inFlight + {pos.id};
          }
        }
      }
      assert candidates[|candidates|..] == [];
    }

    method ReleaseMark(id: int)
      modifies this`inFlight
      ensures State() == Release(old(State()), id)
    {
      inFlight := inFlight - {id};
    }

    method DropFromCache(id: int, ticker: string)
      modifies this
      ensures State() == Drop(old(State()), id, ticker)
    {
      var list := CacheAt(cache, ticker);
      var backing := new Position[|list|](i requires 0 <= i < |list| => list[i]);
      assert backing[..] == list;
      var kept := CompactInPlace(backing, id);
      cache := cache[ticker := backing[..kept]];
      inFlight := inFlight - {id};
    }

    /** close: publish the order, then mark the row.  The outcomes of the two remote
        calls are parameters; order is the message left on the stream, if any. */
    method Close(target: Target, price: real, nanos: nat, store: PositionStore, at: Stamp,
                 publish: Outcome, mark: Outcome) returns (order: Option<TradeExecution>)
      requires store.Valid()
      modifies this, store`rows
      ensures store.Valid()
      ensures order == if publish.Lost? then None else Some(ExitOrder(target.pos, target.reason, price, nanos))
      ensures order.Some? ==> ClosingOrder(order.value, target.pos, price) && order.value.signalReason == target.reason
      ensures publish.Done? ==>
                && State() == Drop(old(State()), target.pos.id, target.pos.ticker)
                && store.rows == if mark.Lost? then old(store.rows)
                                 else Marked(old(store.rows), target.pos.id, price, target.reason, at)
      ensures !publish.Done? ==> State() == Release(old(State()), target.pos.id) && store.rows == old(store.rows)
    {
      var exec := ExitOrder(target.pos, target.reason, price, nanos);
      ExitOrderCloses(target.pos, target.reason, price, nanos);
      order := if publish.Lost? then None else Some(exec);
      if !publish.Done? {
        ReleaseMark(target.pos.id);
        return;
      }
      var closed := store.MarkClosed(target.pos.id, price, target.reason, at, mark);
      DropFromCache(target.pos.id, target.pos.ticker);
    }
  }

  /** A failed publish leaves the position fireable: the next crossing price over the
      same cache targets it again. */
  lemma ReleasedFiresAgain(m: Monitor, pos: Position, price: real)
    requires pos in CacheAt(m.cache, pos.ticker) && Crossed(pos, price).Some?
    requires forall p :: p in CacheAt(m.cache, pos.ticker) && p.id == pos.id ==> p == pos
    ensures Target(pos, Crossed(pos, price).value) in Fire(Release(m, pos.id), pos.ticker, price).0
  {
    var list := CacheAt(m.cache, pos.ticker);
    var free := Release(m, pos.id);
    ScanIsExact(list, free.inFlight, price);
    var (targets, after) := Scan(list, free.inFlight, price);
    assert pos.id in after && pos.id !in free.inFlight;
    var k :| 0 <= k < |targets| && targets[k].pos.id == pos.id;
    assert targets[k] == Target(pos, Crossed(pos, price).value);
  }

  /** While a position is marked, no price starts a second close of it. */
  lemma MarkedDoesNotFire(m: Monitor, id: int, ticker: string, price: real)
    requires id in m.inFlight
    ensures forall t :: t in Fire(m, ticker, price).0 ==> t.pos.id != id
  {
    ScanIsExact(CacheAt(m.cache, ticker), m.inFlight, price);
  }
}
