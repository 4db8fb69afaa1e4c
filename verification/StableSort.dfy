/** What sort.SliceStable promises for an integer key, as a function. */
module StableSort {

  function Place<T>(s: seq<T>, x: T, key: T -> int): seq<T> {
    if s == [] || key(s[|s| - 1]) <= key(x) then s + [x]
    else Place(s[..|s| - 1], x, key) + [s[|s| - 1]]
  }

  function Sort<T>(xs: seq<T>, key: T -> int): seq<T> {
    if xs == [] then [] else Place(Sort(xs[..|xs| - 1], key), xs[|xs| - 1], key)
  }

  ghost predicate Sorted<T>(s: seq<T>, key: T -> int) {
    forall i, j :: 0 <= i < j < |s| ==> key(s[i]) <= key(s[j])
  }

  /** The elements with one key, in order. */
  function OfKey<T>(s: seq<T>, key: T -> int, k: int): seq<T> {
    if s == [] then [] else OfKey(s[..|s| - 1], key, k) + (if key(s[|s| - 1]) == k then [s[|s| - 1]] else [])
  }

  lemma OfKeySnoc<T>(s: seq<T>, x: T, key: T -> int, k: int)
    ensures OfKey(s + [x], key, k) == OfKey(s, key, k) + (if key(x) == k then [x] else [])
  {
    assert (s + [x])[..|s|] == s;
  }

  lemma {:induction false} PlacePermutes<T>(s: seq<T>, x: T, key: T -> int)
    ensures multiset(Place(s, x, key)) == multiset(s) + multiset{x}
    ensures forall y :: y in Place(s, x, key) ==> y in s || y == x
  {
    if s != [] && key(s[|s| - 1]) > key(x) {
      PlacePermutes(s[..|s| - 1], x, key);
      assert s == s[..|s| - 1] + [s[|s| - 1]];
    }
  }

  lemma {:induction false} PlaceSorts<T>(s: seq<T>, x: T, key: T -> int)
    requires Sorted(s, key)
    ensures Sorted(Place(s, x, key), key)
  {
    if s != [] && key(s[|s| - 1]) > key(x) {
      var front, last := s[..|s| - 1], s[|s| - 1];
      PlaceSorts(front, x, key);
      PlacePermutes(front, x, key);
      var placed := Place(front, x, key);
      forall i | 0 <= i < |placed| ensures key(placed[i]) <= key(last) {
        assert placed[i] in front || placed[i] == x;
      }
    }
  }

  lemma {:induction false} PlaceIsStable<T>(s: seq<T>, x: T, key: T -> int, k: int)
    ensures OfKey(Place(s, x, key), key, k) == OfKey(s + [x], key, k)
  {
    if s != [] && key(s[|s| - 1]) > key(x) {
      var front, last := s[..|s| - 1], s[|s| - 1];
      PlaceIsStable(front, x, key, k);
      assert s == front + [last];
      OfKeySnoc(Place(front, x, key), last, key, k);
      OfKeySnoc(front, x, key, k);
      OfKeySnoc(front, last, key, k);
      OfKeySnoc(s, x, key, k);
    }
  }

  /** Sorted, a permutation, and equal keys keep their order. */
  lemma {:induction false} SortIsStable<T>(xs: seq<T>, key: T -> int)
    ensures Sorted(Sort(xs, key), key)
    ensures multiset(Sort(xs, key)) == multiset(xs)
    ensures forall k :: OfKey(Sort(xs, key), key, k) == OfKey(xs, key, k)
  {
    if xs != [] {
      var front, x := xs[..|xs| - 1], xs[|xs| - 1];
      assert xs == front + [x];
      SortIsStable(front, key);
      var s := Sort(front, key);
      PlaceSorts(s, x, key);
      PlacePermutes(s, x, key);
      forall k ensures OfKey(Sort(xs, key), key, k) == OfKey(xs, key, k) {
        PlaceIsStable(s, x, key, k);
        OfKeySnoc(s, x, key, k);
        OfKeySnoc(front, x, key, k);
      }
    }
  }

  lemma {:induction false} OfKeyMembers<T>(s: seq<T>, key: T -> int, k: int)
    ensures forall x :: x in OfKey(s, key, k) <==> x in s && key(x) == k
  {
    if s != [] {
      OfKeyMembers(s[..|s| - 1], key, k);
      assert s == s[..|s| - 1] + [s[|s| - 1]];
    }
  }

  /** These promises leave no choice: two sorted sequences that agree key by key are equal. */
  lemma {:induction false} StableOrderIsUnique<T>(a: seq<T>, b: seq<T>, key: T -> int)
    requires Sorted(a, key) && Sorted(b, key)
    requires forall k :: OfKey(a, key, k) == OfKey(b, key, k)
    ensures a == b
    decreases |a|
  {
    LastKeyIn(a, b, key);
    LastKeyIn(b, a, key);
    if |a| > 0 {
      var x, y := a[|a| - 1], b[|b| - 1];
      var k := key(x);
      assert k == key(y);
      var a', b' := a[..|a| - 1], b[..|b| - 1];
      assert a == a' + [x] && b == b' + [y];
      OfKeySnoc(a', x, key, k);
      OfKeySnoc(b', y, key, k);
      assert OfKey(a, key, k)[|OfKey(a, key, k)| - 1] == x;
      assert OfKey(b, key, k)[|OfKey(b, key, k)| - 1] == y;
      forall j ensures OfKey(a', key, j) == OfKey(b', key, j) {
        OfKeySnoc(a', x, key, j);
        OfKeySnoc(b', y, key, j);
        assert OfKey(a, key, j)[..|OfKey(a', key, j)|] == OfKey(a', key, j);
        assert OfKey(b, key, j)[..|OfKey(b', key, j)|] == OfKey(b', key, j);
      }
      StableOrderIsUnique(a', b', key);
    }
  }

  lemma LastKeyIn<T>(a: seq<T>, b: seq<T>, key: T -> int)
    requires Sorted(b, key) && forall k :: OfKey(a, key, k) == OfKey(b, key, k)
    ensures |a| > 0 ==> |b| > 0 && key(a[|a| - 1]) <= key(b[|b| - 1])
  {
    if |a| > 0 {
      var x := a[|a| - 1];
      OfKeyMembers(a, key, key(x));
      OfKeyMembers(b, key, key(x));
      assert x in OfKey(b, key, key(x));
    }
  }
}
