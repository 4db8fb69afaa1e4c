/** Counting and summing over sequences and maps. */
module Counting {

  function Count<T>(xs: seq<T>, f: T -> bool): nat {
    if xs == [] then 0 else Count(xs[..|xs| - 1], f) + (if f(xs[|xs| - 1]) then 1 else 0)
  }

  lemma {:induction false} CountConcat<T>(xs: seq<T>, ys: seq<T>, f: T -> bool)
    ensures Count(xs + ys, f) == Count(xs, f) + Count(ys, f)
    decreases |ys|
  {
    if ys == [] {
      assert xs + ys == xs;
    } else {
      CountConcat(xs, ys[..|ys| - 1], f);
      assert (xs + ys)[..|xs + ys| - 1] == xs + ys[..|ys| - 1];
    }
  }

  lemma CountUpdate<T>(xs: seq<T>, i: nat, y: T, f: T -> bool)
    requires i < |xs|
    ensures Count(xs[i := y], f) == Count(xs, f) - (if f(xs[i]) then 1 else 0) + (if f(y) then 1 else 0)
  {
    assert xs == xs[..i] + [xs[i]] + xs[i + 1..];
    assert xs[i := y] == xs[..i] + [y] + xs[i + 1..];
    CountAround(xs[..i], xs[i], xs[i + 1..], f);
    CountAround(xs[..i], y, xs[i + 1..], f);
  }

  lemma CountRemove<T>(xs: seq<T>, i: nat, f: T -> bool)
    requires i < |xs|
    ensures Count(xs[..i] + xs[i + 1..], f) == Count(xs, f) - (if f(xs[i]) then 1 else 0)
  {
    var before, x, after := xs[..i], xs[i], xs[i + 1..];
    assert xs == before + [x] + after;
    CountAround(before, x, after, f);
    CountConcat(before, after, f);
  }

  lemma CountAround<T>(xs: seq<T>, y: T, zs: seq<T>, f: T -> bool)
    ensures Count(xs + [y] + zs, f) == Count(xs, f) + (if f(y) then 1 else 0) + Count(zs, f)
  {
    CountConcat(xs + [y], zs, f);
    CountConcat(xs, [y], f);
    assert [y][..0] == [];
  }

  lemma CountSnoc<T>(xs: seq<T>, y: T, f: T -> bool)
    ensures Count(xs + [y], f) == Count(xs, f) + (if f(y) then 1 else 0)
  {
    assert (xs + [y])[..|xs|] == xs;
  }

  lemma {:induction false} CountAll<T>(xs: seq<T>, f: T -> bool)
    requires forall x :: x in xs ==> f(x)
    ensures Count(xs, f) == |xs|
  {
    if xs != [] { CountAll(xs[..|xs| - 1], f); }
  }

  lemma {:induction false} CountAtMost<T>(xs: seq<T>, f: T -> bool)
    ensures Count(xs, f) <= |xs|
    ensures Count(xs, f) == 0 <==> forall x :: x in xs ==> !f(x)
  {
    if xs != [] {
      CountAtMost(xs[..|xs| - 1], f);
      assert xs == xs[..|xs| - 1] + [xs[|xs| - 1]];
    }
  }

  /** The sum of a map's values; the order in which keys are drawn does not matter. */
  ghost function SumMap<K(!new)>(m: map<K, real>): real
    decreases |m|
  {
    if m == map[] then 0.0
    else
      var k :| k in m;
      m[k] + SumMap(m - {k})
  }

  lemma {:induction false} SumMapRemove<K(!new)>(m: map<K, real>, k: K)
    requires k in m
    ensures SumMap(m) == m[k] + SumMap(m - {k})
    decreases |m|
  {
    var d :| d in m && SumMap(m) == m[d] + SumMap(m - {d});
    if d != k {
      SumMapRemove(m - {d}, k);
      SumMapRemove(m - {k}, d);
      assert m - {d} - {k} == m - {k} - {d};
    }
  }

  /** Adding to one entry, creating it if need be, adds to the sum. */
  lemma SumMapAdd<K(!new)>(m: map<K, real>, k: K, delta: real)
    ensures SumMap(m[k := (if k in m then m[k] else 0.0) + delta]) == SumMap(m) + delta
  {
    var after := m[k := (if k in m then m[k] else 0.0) + delta];
    SumMapRemove(after, k);
    assert after - {k} == m - {k};
    if k in m { SumMapRemove(m, k); } else { assert m - {k} == m; }
  }
}
