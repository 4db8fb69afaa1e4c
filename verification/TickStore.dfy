/** The tick ring buffer (src/analysts/quantitative/tickstore.go).

    The abstract history is everything ever appended, with the newest volume
    overwritten by updates; the buffer holds its last `size` elements. */
module TickStore {

  datatype Tick = Tick(price: real, volume: int, nanos: int)

  function Last<T>(s: seq<T>, n: nat): seq<T> {
    if |s| <= n then s else s[|s| - n..]
  }

  /** The effect of UpdateLatestVolume on a history. */
  function WithLatestVolume(h: seq<Tick>, volume: int): seq<Tick> {
    if h == [] then h else h[|h| - 1 := h[|h| - 1].(volume := volume)]
  }

  function Prices(h: seq<Tick>): seq<real> {
    seq(|h|, i requires 0 <= i < |h| => h[i].price)
  }

  function Volumes(h: seq<Tick>): seq<int> {
    seq(|h|, i requires 0 <= i < |h| => h[i].volume)
  }

  lemma LastOfAppend<T>(h: seq<T>, t: T, n: nat)
    requires n >= 1
    ensures Last(h + [t], n) == Last(Last(h, n) + [t], n)
    ensures |h| >= n ==> Last(h + [t], n) == Last(h, n)[1..] + [t]
    ensures |h| < n ==> Last(h + [t], n) == h + [t]
  {
  }

  lemma LastOfUpdate(h: seq<Tick>, volume: int, n: nat)
    requires n >= 1
    ensures Last(WithLatestVolume(h, volume), n) == WithLatestVolume(Last(h, n), volume)
  {
  }

  lemma LastCommutes(h: seq<Tick>, n: nat)
    ensures Prices(Last(h, n)) == Last(Prices(h), n) && Volumes(Last(h, n)) == Last(Volumes(h), n)
  {
  }

  /** The contents of a ring in insertion order. */
  function Unrolled<T>(ring: seq<T>, write: nat, full: bool): seq<T>
    requires write <= |ring|
  {
    if full then ring[write..] + ring[..write] else ring[..write]
  }

  /** One write, with wrap-around, appends and evicts. */
  lemma RingAppend<T>(ring: seq<T>, write: nat, full: bool, t: T)
    requires write < |ring|
    ensures var wraps := write + 1 == |ring|;
            Unrolled(ring[write := t], if wraps then 0 else write + 1, full || wraps) ==
              Last(Unrolled(ring, write, full) + [t], |ring|)
  {
    var next := ring[write := t];
    assert next[write + 1..] == ring[write + 1..] && next[..write + 1] == ring[..write] + [t];
    if full {
      Rotated(ring, write, t);
    } else if write + 1 == |ring| {
      assert next == ring[..write] + [t];
    }
  }

  /** A full ring loses its oldest element to the newest. */
  lemma Rotated<T>(ring: seq<T>, write: nat, t: T)
    requires write < |ring|
    ensures Last(ring[write..] + ring[..write] + [t], |ring|) == ring[write + 1..] + (ring[..write] + [t])
  {
  }

  /** Reading slot (write + i) mod size of a full ring reads the i-th oldest. */
  lemma RingIndex<T>(ring: seq<T>, write: nat, i: nat)
    requires write < |ring| && i < |ring|
    ensures 0 <= (write + i) % |ring| < |ring|
    ensures ring[(write + i) % |ring|] == Unrolled(ring, write, true)[i]
  {
    Wrapped(write + i, |ring|);
  }

  lemma Wrapped(x: nat, n: nat)
    requires x < 2 * n
    ensures x % n == if x < n then x else x - n
  {
  }

  class TickStore {
    const size: nat
    const buf: array<Tick>
    var write: nat
    var full: bool
    ghost var history: seq<Tick>

    /** The stored ticks in insertion order. */
    ghost function View(): seq<Tick>
      reads this, buf
      requires write <= buf.Length
    {
      Unrolled(buf[..], write, full)
    }

    ghost predicate Valid() reads this, buf {
      && 1 <= size == buf.Length
      && write < size
      && (full ==> |history| >= size)
      && View() == Last(history, size)
    }

    constructor (n: int)
      ensures Valid() && fresh(buf) && history == []
      ensures size == if n < 1 then 1 else n
    {
      var m := if n < 1 then 1 else n;
      size := m;
      buf := new Tick[m](_ => Tick(0.0, 0, 0));
      write, full, history := 0, false, [];
    }

    method Append(t: Tick)
      requires Valid()
      modifies this, buf
      ensures Valid() && history == old(history) + [t]
    {
      LastOfAppend(history, t, size);
      RingAppend(buf[..], write, full, t);
      ghost var before := buf[..];
      buf[write] := t;
      assert buf[..] == before[write := t];
      write := write + 1;
      if write == size {
        write := 0;
        full := true;
      }
      history := history + [t];
    }

    function Count(): (n: nat)
      reads this, buf
      requires Valid()
      ensures n == |Last(history, size)| == (if |history| < size then |history| else size)
    {
      if full then size else write
    }

    /** The i-th stored tick, oldest first, across the wrap. */
    method At(i: nat) returns (t: Tick)
      requires Valid() && i < Count()
      ensures t == Last(history, size)[i]
    {
      if !full { return buf[i]; }
      RingIndex(buf[..], write, i);
      return buf[(write + i) % size];
    }

    method Len() returns (n: nat)
      requires Valid()
      ensures n == if |history| < size then |history| else size
    {
      n := Count();
    }

    method RecentPrices(n: int) returns (result: seq<real>)
      requires Valid()
      ensures n <= 0 ==> result == []
      ensures n > 0 ==> result == Last(Prices(Last(history, size)), n)
    {
      if n <= 0 { return []; }
      var count := Count();
      var m := if n > count then count else n;
      ghost var recent := Last(Last(history, size), n);
      result := [];
      for i := 0 to m
        invariant result == Prices(recent[..i])
      {
        var t := At(count - m + i);
        assert t == recent[i];
        result := result + [t.price];
      }
      assert recent[..m] == recent;
      LastCommutes(Last(history, size), n);
    }

    method RecentVolumes(n: int) returns (result: seq<int>)
      requires Valid()
      ensures n <= 0 ==> result == []
      ensures n > 0 ==> result == Last(Volumes(Last(history, size)), n)
    {
      if n <= 0 { return []; }
      var count := Count();
      var m := if n > count then count else n;
      ghost var recent := Last(Last(history, size), n);
      result := [];
      for i := 0 to m
        invariant result == Volumes(recent[..i])
      {
        var t := At(count - m + i);
        assert t == recent[i];
        result := result + [t.volume];
      }
      assert recent[..m] == recent;
      LastCommutes(Last(history, size), n);
    }

    method UpdateLatestVolume(volume: int)
      requires Valid()
      modifies this`history, buf
      ensures Valid() && history == WithLatestVolume(old(history), volume)
    {
      var count := Count();
      if count == 0 { return; }
      LastOfUpdate(history, volume, size);
      ghost var view := View();
      var idx := write - 1;
      if idx < 0 { idx := size - 1; }
      assert full && write == 0 ==> view == buf[..];
      assert view[|view| - 1] == buf[idx];
      buf[idx] := buf[idx].(volume := volume);
      history := WithLatestVolume(history, volume);
      assert View() == WithLatestVolume(view, volume);
    }
  }

  // ----- sequences of operations -----

  datatype Op = Push(tick: Tick) | SetVolume(volume: int)

  function Do(h: seq<Tick>, op: Op): seq<Tick> {
    match op
    case Push(t) => h + [t]
    case SetVolume(v) => WithLatestVolume(h, v)
  }

  function History(ops: seq<Op>): seq<Tick> {
    if ops == [] then [] else Do(History(ops[..|ops| - 1]), ops[|ops| - 1])
  }

  /** A buffer that forgets as it goes: what the ring actually keeps between calls. */
  function Kept(ops: seq<Op>, size: nat): seq<Tick> {
    if ops == [] then [] else Last(Do(Kept(ops[..|ops| - 1], size), ops[|ops| - 1]), size)
  }

  /** Forgetting at every step is forgetting once at the end: over any sequence of
      appends and volume updates, what is kept is the last `size` of the full history. */
  lemma {:induction false} ForgettingIsLazy(ops: seq<Op>, size: nat)
    requires size >= 1
    ensures Kept(ops, size) == Last(History(ops), size)
  {
    if ops != [] {
      var front := ops[..|ops| - 1];
      ForgettingIsLazy(front, size);
      match ops[|ops| - 1] {
        case Push(t) => LastOfAppend(History(front), t, size);
        case SetVolume(v) => LastOfUpdate(History(front), v, size);
      }
    }
  }

  /** Driving a store by a sequence of operations leaves the history of that sequence. */
  method Drive(ops: seq<Op>, n: int) returns (store: TickStore)
    ensures store.Valid() && store.history == History(ops)
    ensures store.View() == Kept(ops, store.size)
  {
    store := new TickStore(n);
    for i := 0 to |ops|
      invariant store.Valid() && fresh(store) && fresh(store.buf)
      invariant store.history == History(ops[..i])
    {
      assert ops[..i + 1][..i] == ops[..i];
      match ops[i] {
        case Push(t) => store.Append(t);
        case SetVolume(v) => store.UpdateLatestVolume(v);
      }
    }
    assert ops[..|ops|] == ops;
    ForgettingIsLazy(ops, store.size);
  }
}
