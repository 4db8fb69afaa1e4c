/** The positions table (src/pkg/database/positions.go) as a map from primary key to row. */
module PositionTable {
  import opened Models

  type Table = map<int, Position>

  /** The pnl column as MarkClosed computes it in SQL. */
  function Pnl(p: Position, exitPrice: real): real {
    (exitPrice - p.entryPrice) * (p.quantity as real) * (if p.side.Long? then 1.0 else -1.0)
  }

  /** What a row earns at an exit price: the price moved its way, times the quantity. */
  lemma PnlIsTheMove(p: Position, exitPrice: real)
    ensures p.side.Long? ==> Pnl(p, exitPrice) == (exitPrice - p.entryPrice) * (p.quantity as real)
    ensures p.side.Short? ==> Pnl(p, exitPrice) == (p.entryPrice - exitPrice) * (p.quantity as real)
  {
    var move, quantity := exitPrice - p.entryPrice, p.quantity as real;
    assert move * quantity * -1.0 == (-move) * quantity;
  }

  /** A row closed at this price, for this reason, at this time, with the move as its profit. */
  predicate ClosedAt(row: Position, exitPrice: real, reason: string, at: Stamp) {
    && row.status.Closed?
    && row.status.exitPrice == exitPrice && row.status.reason == reason && row.status.closedAt == at
    && row.status.pnl == (if row.side.Long? then exitPrice - row.entryPrice else row.entryPrice - exitPrice)
                         * (row.quantity as real)
  }

  predicate Keyed(rows: Table) {
    forall id :: id in rows ==> rows[id].id == id
  }

  /** Every row is at most one of two rows for an execution_ref (UNIQUE column). */
  predicate UniqueRefs(rows: Table) {
    forall i, j :: i in rows && j in rows && rows[i].executionRef == rows[j].executionRef ==> i == j
  }

  predicate HasRef(rows: Table, ref: string) {
    exists id :: id in rows && rows[id].executionRef == ref
  }

  function Inserted(rows: Table, id: int, pos: Position): Table {
    rows[id := pos.(id := id)]
  }

  predicate IsOpen(rows: Table, id: int) {
    id in rows && rows[id].status.Open?
  }

  function Marked(rows: Table, id: int, price: real, reason: string, at: Stamp): Table {
    if IsOpen(rows, id) then
      rows[id := rows[id].(status := Closed(price, Pnl(rows[id], price), reason, at))]
    else rows
  }

  /** The result of ListOpen: every open row once, newest first. */
  ghost predicate IsListing(rows: Table, l: seq<Position>) {
    && (forall i, j :: 0 <= i < j < |l| ==> l[i].id > l[j].id)
    && (forall i :: 0 <= i < |l| ==> IsOpen(rows, l[i].id) && rows[l[i].id] == l[i])
    && (forall id :: IsOpen(rows, id) ==> rows[id] in l)
  }

  /** What may happen to a table between two moments: rows are only added, the
      columns written at insertion never change, and a CLOSED row is final. */
  ghost predicate Evolves(before: Table, after: Table) {
    forall id :: id in before ==>
      && id in after
      && SameEntry(before[id], after[id])
      && (before[id].status.Closed? ==> after[id] == before[id])
  }

  predicate SameEntry(a: Position, b: Position) {
    a.(status := Open) == b.(status := Open)
  }

  lemma MarkedEvolves(rows: Table, id: int, price: real, reason: string, at: Stamp)
    ensures Evolves(rows, Marked(rows, id, price, reason, at))
    ensures Keyed(rows) ==> Keyed(Marked(rows, id, price, reason, at))
    ensures UniqueRefs(rows) ==> UniqueRefs(Marked(rows, id, price, reason, at))
  {
  }

  /** Two listings of one table are the same sequence: ORDER BY id DESC leaves no choice. */
  lemma ListingIsDetermined(rows: Table, a: seq<Position>, b: seq<Position>)
    requires Keyed(rows) && IsListing(rows, a) && IsListing(rows, b)
    ensures a == b
  {
    forall p ensures p in a <==> p in b {
      ListingMembers(rows, a, p);
      ListingMembers(rows, b, p);
    }
    DescendingIsUnique(a, b);
  }

  lemma ListingMembers(rows: Table, l: seq<Position>, p: Position)
    requires Keyed(rows) && IsListing(rows, l)
    ensures p in l <==> IsOpen(rows, p.id) && rows[p.id] == p
  {
  }

  ghost predicate Descending(l: seq<Position>) {
    forall i, j :: 0 <= i < j < |l| ==> l[i].id > l[j].id
  }

  lemma {:induction false} DescendingIsUnique(a: seq<Position>, b: seq<Position>)
    requires Descending(a) && Descending(b) && forall p :: p in a <==> p in b
    ensures a == b
  {
    assert |a| > 0 ==> a[0] in b;
    assert |b| > 0 ==> b[0] in a;
    if |a| > 0 {
      assert a[0] == b[0];
      forall p ensures p in a[1..] <==> p in b[1..] {
        TailMembers(a, p);
        TailMembers(b, p);
      }
      DescendingIsUnique(a[1..], b[1..]);
      assert a == [a[0]] + a[1..] && b == [b[0]] + b[1..];
    }
  }

  lemma TailMembers(l: seq<Position>, p: Position)
    requires Descending(l) && |l| > 0
    ensures p in l[1..] <==> p in l && p != l[0]
  {
    assert l == [l[0]] + l[1..];
  }

  /** The store: a table, and the primary-key sequence behind BIGSERIAL. */
  class PositionStore {
    var rows: Table
    var nextId: int

    ghost predicate Valid() reads this {
      && Keyed(rows) && UniqueRefs(rows) && 1 <= nextId
      && (forall id :: id in rows ==> 1 <= id < nextId)
    }

    constructor ()
      ensures Valid() && rows == map[]
    {
      rows := map[];
      nextId := 1;
    }

    /** INSERT ... RETURNING id.  A duplicate execution_ref violates UNIQUE; the
        key drawn for a refused row is gone all the same. */
    method Insert(pos: Position, net: Outcome) returns (id: Option<int>)
      requires Valid() && pos.status.Open?
      modifies this
      ensures Valid() && Evolves(old(rows), rows)
      ensures id.Some? <==> net.Done? && !HasRef(old(rows), pos.executionRef)
      ensures net.Lost? || HasRef(old(rows), pos.executionRef) ==> rows == old(rows)
      ensures id.Some? ==> id.value !in old(rows) && rows == Inserted(old(rows), id.value, pos)
      ensures net.DoneButReportedLost? && !HasRef(old(rows), pos.executionRef) ==>
                exists k :: k !in old(rows) && rows == Inserted(old(rows), k, pos)
    {
      var key := nextId;
      nextId := nextId + 1;
      id := None;
      if HasRef(rows, pos.executionRef) || net.Lost? { return; }
      rows := Inserted(rows, key, pos);
      if net.Done? { id := Some(key); }
    }

    /** SELECT ... WHERE status = 'OPEN' ORDER BY id DESC. */
    method ListOpen() returns (open: seq<Position>)
      requires Valid()
      ensures IsListing(rows, open)
    {
      open := [];
      var id := nextId - 1;
      while id >= 1
        invariant forall i, j :: 0 <= i < j < |open| ==> open[i].id > open[j].id
        invariant forall i :: 0 <= i < |open| ==>
                    open[i].id > id && IsOpen(rows, open[i].id) && rows[open[i].id] == open[i]
        invariant forall k :: k > id && IsOpen(rows, k) ==> rows[k] in open
        decreases id
      {
        if id in rows && rows[id].status.Open? { open := open + [rows[id]]; }
        id := id - 1;
      }
    }

    /** The conditional UPDATE: it reports success only when it found the row OPEN. */
    method MarkClosed(id: int, price: real, reason: string, at: Stamp, net: Outcome) returns (ok: bool)
      requires Valid()
      modifies this`rows
      ensures Valid() && Evolves(old(rows), rows)
      ensures ok <==> net.Done? && IsOpen(old(rows), id)
      ensures rows == if net.Lost? then old(rows) else Marked(old(rows), id, price, reason, at)
      ensures forall k :: k in old(rows) && k != id ==> k in rows && rows[k] == old(rows)[k]
      ensures !net.Lost? && IsOpen(old(rows), id) ==> id in rows && ClosedAt(rows[id], price, reason, at)
    {
      MarkedEvolves(rows, id, price, reason, at);
      if id in rows { PnlIsTheMove(rows[id], price); }
      ok := false;
      if net.Lost? { return; }
      if id in rows && rows[id].status.Open? {
        var row := rows[id];
        rows := rows[id := row.(status := Closed(price, Pnl(row, price), reason, at))];
        ok := net.Done?;
      }
    }
  }
}
