/** The news scraper's deduplication (src/analysts/sentiment/scraper.go). */
module Dedup {
  import opened Models

  datatype Article = Article(ticker: string, title: string, url: string)

  /** One article met at one instant. */
  datatype Arrival = Arrival(article: Article, at: int)

  /** The articles one successful fetch brought, and the instant read after it. */
  datatype Batch = Batch(articles: seq<Article>, at: int)

  type Seen = map<string, int>

  /** The digest of the key is any function: distinct keys may collide. */
  type Digest = string -> string

  function ArticleHash(a: Article, digest: Digest): string {
    digest(if a.url == "" then a.title else a.url)
  }

  /** Articles are told apart by their URL, and by their title where there is none; a title
      may stand for another article's URL. */
  lemma HashedByUrlElseTitle(a: Article, b: Article, digest: Digest)
    requires forall s, t :: digest(s) == digest(t) ==> s == t
    ensures ArticleHash(a, digest) == ArticleHash(b, digest) <==>
              || (a.url != "" && a.url == b.url)
              || (a.url == "" && b.url == "" && a.title == b.title)
              || (a.url != "" && b.url == "" && a.url == b.title)
              || (a.url == "" && b.url != "" && a.title == b.url)
  {
  }

  function Stamped(articles: seq<Article>, at: int): seq<Arrival> {
    seq(|articles|, i requires 0 <= i < |articles| => Arrival(articles[i], at))
  }

  // ----- one call -----

  datatype Pass = Pass(seen: Seen, out: seq<Arrival>)

  predicate Admits(seen: Seen, x: Arrival, ttl: int, digest: Digest) {
    var h := ArticleHash(x.article, digest);
    !(h in seen && x.at - seen[h] < ttl)
  }

  /** The arrivals let through, and the map afterwards. */
  function Sift(seen: Seen, arrivals: seq<Arrival>, ttl: int, digest: Digest): Pass {
    if arrivals == [] then Pass(seen, [])
    else
      var before, x := Sift(seen, arrivals[..|arrivals| - 1], ttl, digest), arrivals[|arrivals| - 1];
      if Admits(before.seen, x, ttl, digest)
      then Pass(before.seen[ArticleHash(x.article, digest) := x.at], before.out + [x])
      else before
  }

  function Pruned(seen: Seen, now: int, ttl: int): Seen {
    map h | h in seen && now - seen[h] < ttl :: seen[h]
  }

  class Scraper {
    const ttl: int
    const digest: Digest
    var seen: Seen

    constructor (ttl: int, digest: Digest)
      ensures this.ttl == ttl && this.digest == digest && seen == map[]
    {
      this.ttl, this.digest, seen := ttl, digest, map[];
    }

    /** A failed fetch changes nothing, and does not prune either. */
    method FetchFresh(fetched: Option<seq<Article>>, now: int) returns (r: Option<seq<Article>>)
      modifies this
      ensures r.Some? <==> fetched.Some?
      ensures fetched.None? ==> seen == old(seen)
      ensures fetched.Some? ==>
        var p := Sift(old(seen), Stamped(fetched.value, now), ttl, digest);
        Stamped(r.value, now) == p.out && seen == Pruned(p.seen, now, ttl)
    {
      if fetched.None? { return None; }
      var articles := fetched.value;
      var unseen: seq<Article> := [];
      ghost var arrivals := Stamped(articles, now);
      for i := 0 to |articles|
        invariant Sift(old(seen), arrivals[..i], ttl, digest) == Pass(seen, Stamped(unseen, now))
      {
        var a := articles[i];
        var h := ArticleHash(a, digest);
        assert arrivals[..i + 1][..i] == arrivals[..i];
        assert arrivals[..i + 1][i] == Arrival(a, now);
        if h in seen && now - seen[h] < ttl { continue; }
        seen := seen[h := now];
        assert Stamped(unseen + [a], now) == Stamped(unseen, now) + [Arrival(a, now)];
        unseen := unseen + [a];
      }
      assert arrivals[..|articles|] == arrivals;
      Prune(now);
      r := Some(unseen);
    }

    /** Entries are visited in any order. */
    method Prune(now: int)
      modifies this
      ensures seen == Pruned(old(seen), now, ttl)
    {
      var pending := seen.Keys;
      while pending != {}
        invariant pending <= old(seen).Keys
        invariant seen == map h | h in old(seen) && (h in pending || now - old(seen)[h] < ttl) :: old(seen)[h]
        decreases pending
      {
        var h :| h in pending;
        if now - seen[h] >= ttl { seen := seen - {h}; }
        pending := pending - {h};
      }
    }
  }

  // ----- runs -----

  /** A run's map and, call by call, what it let through. */
  datatype Log = Log(seen: Seen, outs: seq<seq<Arrival>>)

  /** A run of calls that prunes, as the code does, or never does. */
  function Run(batches: seq<Batch>, ttl: int, digest: Digest, pruning: bool): (log: Log)
    ensures |log.outs| == |batches|
  {
    if batches == [] then Log(map[], [])
    else
      var before, b := Run(batches[..|batches| - 1], ttl, digest, pruning), batches[|batches| - 1];
      var p := Sift(before.seen, Stamped(b.articles, b.at), ttl, digest);
      Log(if pruning then Pruned(p.seen, b.at, ttl) else p.seen, before.outs + [p.out])
  }

  function Times(batches: seq<Batch>): seq<int> {
    seq(|batches|, i requires 0 <= i < |batches| => batches[i].at)
  }

  ghost predicate Nondecreasing(times: seq<int>) {
    forall i, j :: 0 <= i <= j < |times| ==> times[i] <= times[j]
  }

  /** No instant at which an entry has expired is followed by one at which it has not. */
  ghost predicate ExpiryIsFinal(times: seq<int>, ttl: int) {
    forall i, j, k :: 0 <= i <= j < k < |times| && times[j] - times[i] >= ttl ==> times[k] - times[i] >= ttl
  }

  lemma NondecreasingIsFinal(times: seq<int>, ttl: int)
    requires Nondecreasing(times)
    ensures ExpiryIsFinal(times, ttl)
  {
  }

  /** The pruned map is the full one without entries that have expired by now. */
  ghost predicate OnlyExpiredMissing(full: Seen, pruned: Seen, now: int, ttl: int) {
    && (forall h :: h in pruned ==> h in full && full[h] == pruned[h])
    && (forall h :: h in full && h !in pruned ==> now - full[h] >= ttl)
  }

  lemma {:induction false} SiftAgrees(full: Seen, pruned: Seen, xs: seq<Arrival>, now: int, ttl: int, digest: Digest)
    requires OnlyExpiredMissing(full, pruned, now, ttl)
    requires forall x :: x in xs ==> x.at == now
    ensures var f, p := Sift(full, xs, ttl, digest), Sift(pruned, xs, ttl, digest);
            && f.out == p.out
            && OnlyExpiredMissing(f.seen, p.seen, now, ttl)
            && (forall h :: h in f.seen ==> f.seen[h] == now || (h in full && full[h] == f.seen[h]))
            && (forall h :: h in f.seen && h !in p.seen ==> h in full && h !in pruned && full[h] == f.seen[h])
  {
    if xs != [] {
      assert xs[|xs| - 1] in xs;
      SiftAgrees(full, pruned, xs[..|xs| - 1], now, ttl, digest);
    }
  }

  /** Every entry holds the instant of some call. */
  ghost predicate HoldsTimes(seen: Seen, times: seq<int>) {
    forall h :: h in seen ==> seen[h] in times
  }

  /** What the full map has and the pruned one lacks has expired for good. */
  ghost predicate MissingForGood(full: Seen, pruned: Seen, times: seq<int>, n: nat, ttl: int) {
    && (forall h :: h in pruned ==> h in full && full[h] == pruned[h])
    && (forall h, k :: h in full && h !in pruned && n <= k < |times| ==> times[k] - full[h] >= ttl)
  }

  lemma {:induction false} PrunedRunAgrees(batches: seq<Batch>, times: seq<int>, ttl: int, digest: Digest)
    requires Times(batches) <= times && ExpiryIsFinal(times, ttl)
    ensures var f, p := Run(batches, ttl, digest, false), Run(batches, ttl, digest, true);
            && f.outs == p.outs && HoldsTimes(f.seen, Times(batches))
            && MissingForGood(f.seen, p.seen, times, |batches|, ttl)
  {
    if batches != [] {
      var front, b, n := batches[..|batches| - 1], batches[|batches| - 1], |batches| - 1;
      assert Times(front) == Times(batches)[..n] && Times(batches)[n] == b.at == times[n];
      PrunedRunAgrees(front, times, ttl, digest);
      var f, p := Run(front, ttl, digest, false), Run(front, ttl, digest, true);
      var xs := Stamped(b.articles, b.at);
      SiftAgrees(f.seen, p.seen, xs, b.at, ttl, digest);
      var f', p' := Sift(f.seen, xs, ttl, digest), Sift(p.seen, xs, ttl, digest);
      assert HoldsTimes(f'.seen, Times(batches));
      PruneKeepsForGood(f'.seen, p'.seen, times, n, ttl);
    }
  }

  lemma PruneKeepsForGood(full: Seen, pruned: Seen, times: seq<int>, n: nat, ttl: int)
    requires n < |times| && ExpiryIsFinal(times, ttl)
    requires HoldsTimes(full, times[..n + 1]) && MissingForGood(full, pruned, times, n, ttl)
    ensures MissingForGood(full, Pruned(pruned, times[n], ttl), times, n + 1, ttl)
  {
    forall h, k | h in full && h !in Pruned(pruned, times[n], ttl) && n + 1 <= k < |times|
      ensures times[k] - full[h] >= ttl
    {
      var i :| 0 <= i < n + 1 && times[..n + 1][i] == full[h];
      assert times[i] == full[h];
      if h in pruned { assert times[n] - times[i] >= ttl; }
    }
  }

  // ----- when pruning shows -----

  /** One article, met in calls i and k of otherwise empty ones. */
  function Probe(times: seq<int>, i: nat, k: nat, n: nat): seq<Batch>
    requires n <= |times|
  {
    seq(n, c requires 0 <= c < n =>
      Batch(if c == i || c == k then [Article("", "", "")] else [], times[c]))
  }

  lemma ProbeSnoc(times: seq<int>, i: nat, k: nat, n: nat)
    requires n < |times|
    ensures var b := Probe(times, i, k, n + 1); b[..n] == Probe(times, i, k, n) && |b| == n + 1
  {
  }

  /** Between the two calls the full map remembers the first, and the pruned one that or nothing. */
  ghost predicate Remembers(full: Seen, pruned: Seen, h: string, times: seq<int>, ttl: int, i: nat, n: nat)
    requires i < |times| && n <= |times|
  {
    && full == (if n <= i then map[] else map[h := times[i]])
    && (pruned == map[] || (n > i && pruned == map[h := times[i]]))
    && (forall j :: i <= j < n && times[j] - times[i] >= ttl ==> pruned == map[])
  }

  function Meet(seen: Seen, h: string, here: bool, at: int, ttl: int): Seen {
    if here && !(h in seen && at - seen[h] < ttl) then seen[h := at] else seen
  }

  lemma RemembersStep(full: Seen, pruned: Seen, h: string, times: seq<int>, ttl: int, i: nat, n: nat)
    requires i < |times| && n < |times| && Remembers(full, pruned, h, times, ttl, i, n)
    ensures Remembers(Meet(full, h, n == i, times[n], ttl),
                      Pruned(Meet(pruned, h, n == i, times[n], ttl), times[n], ttl),
                      h, times, ttl, i, n + 1)
  {
    var met := Meet(pruned, h, n == i, times[n], ttl);
    assert met == map[] || met == map[h := times[i]];
    if met == map[] || times[n] - times[i] >= ttl {
      assert Pruned(met, times[n], ttl) == map[];
    } else {
      assert Pruned(met, times[n], ttl) == met;
    }
  }

  lemma {:induction false} ProbeRemembers(times: seq<int>, ttl: int, digest: Digest, i: nat, k: nat, n: nat)
    requires n <= k && i < k < |times|
    ensures Remembers(Run(Probe(times, i, k, n), ttl, digest, false).seen,
                      Run(Probe(times, i, k, n), ttl, digest, true).seen,
                      ArticleHash(Article("", "", ""), digest), times, ttl, i, n)
  {
    if n > 0 {
      ProbeRemembers(times, ttl, digest, i, k, n - 1);
      RemembersStep(Run(Probe(times, i, k, n - 1), ttl, digest, false).seen,
                    Run(Probe(times, i, k, n - 1), ttl, digest, true).seen,
                    ArticleHash(Article("", "", ""), digest), times, ttl, i, n - 1);
      ProbeStep(times, ttl, digest, i, k, n - 1, false);
      ProbeStep(times, ttl, digest, i, k, n - 1, true);
    }
  }

  /** Call n of the probe, as a step of the map. */
  lemma ProbeStep(times: seq<int>, ttl: int, digest: Digest, i: nat, k: nat, n: nat, pruning: bool)
    requires n < k && i < k < |times|
    ensures var h := ArticleHash(Article("", "", ""), digest);
            var was := Run(Probe(times, i, k, n), ttl, digest, pruning).seen;
            var now := Run(Probe(times, i, k, n + 1), ttl, digest, pruning).seen;
            var met := Meet(was, h, n == i, times[n], ttl);
            now == if pruning then Pruned(met, times[n], ttl) else met
  {
    ProbeSnoc(times, i, k, n);
    SiftShort(Run(Probe(times, i, k, n), ttl, digest, pruning).seen, Probe(times, i, k, n + 1)[n], ttl, digest);
  }

  lemma SiftShort(seen: Seen, b: Batch, ttl: int, digest: Digest)
    requires |b.articles| <= 1
    ensures Sift(seen, Stamped(b.articles, b.at), ttl, digest) ==
            if b.articles == [] then Pass(seen, [])
            else
              var x := Arrival(b.articles[0], b.at);
              if Admits(seen, x, ttl, digest) then Pass(seen[ArticleHash(x.article, digest) := x.at], [x])
              else Pass(seen, [])
  {
    if b.articles != [] {
      var xs := Stamped(b.articles, b.at);
      assert xs[..0] == [] && xs[0] == Arrival(b.articles[0], b.at);
    }
  }

  lemma ProbeShows(times: seq<int>, ttl: int, digest: Digest, i: nat, j: nat, k: nat)
    requires i <= j < k < |times| && times[j] - times[i] >= ttl > times[k] - times[i]
    ensures var batches := Probe(times, i, k, k + 1);
            Run(batches, ttl, digest, false).outs[k] == [] != Run(batches, ttl, digest, true).outs[k]
  {
    ProbeRemembers(times, ttl, digest, i, k, k);
    ProbeSnoc(times, i, k, k);
    SiftShort(Run(Probe(times, i, k, k), ttl, digest, false).seen, Probe(times, i, k, k + 1)[k], ttl, digest);
    SiftShort(Run(Probe(times, i, k, k), ttl, digest, true).seen, Probe(times, i, k, k + 1)[k], ttl, digest);
  }

  ghost predicate PruningIsInvisible(times: seq<int>, ttl: int, digest: Digest) {
    forall batches: seq<Batch> :: Times(batches) <= times ==>
      Run(batches, ttl, digest, true).outs == Run(batches, ttl, digest, false).outs
  }

  /** Whatever the articles, pruning changes nothing that any call returns, exactly when no
      expired entry can become current again. A clock that never runs back is enough. */
  lemma PruningIsInvisibleExactlyWhen(times: seq<int>, ttl: int, digest: Digest)
    ensures PruningIsInvisible(times, ttl, digest) <==> ExpiryIsFinal(times, ttl)
    ensures Nondecreasing(times) ==> PruningIsInvisible(times, ttl, digest)
  {
    if Nondecreasing(times) { NondecreasingIsFinal(times, ttl); }
    if ExpiryIsFinal(times, ttl) {
      forall batches: seq<Batch> | Times(batches) <= times
        ensures Run(batches, ttl, digest, true).outs == Run(batches, ttl, digest, false).outs
      {
        PrunedRunAgrees(batches, times, ttl, digest);
      }
    } else {
      var i: nat, j: nat, k: nat :| i <= j < k < |times| && times[j] - times[i] >= ttl && times[k] - times[i] < ttl;
      ProbeShows(times, ttl, digest, i, j, k);
      assert Times(Probe(times, i, k, k + 1)) <= times;
    }
  }

  // ----- what is emitted -----

  /** The reference: an arrival is emitted unless one of the same hash was emitted less than
      ttl before it. No map, no calls. */
  ghost function Emitted(xs: seq<Arrival>, ttl: int, digest: Digest): seq<Arrival> {
    if xs == [] then []
    else
      var before, x := Emitted(xs[..|xs| - 1], ttl, digest), xs[|xs| - 1];
      if Covered(before, x, ttl, digest) then before else before + [x]
  }

  ghost predicate Covered(emitted: seq<Arrival>, x: Arrival, ttl: int, digest: Digest) {
    exists e :: e in emitted && SameHash(e, x, digest) && x.at - e.at < ttl
  }

  predicate SameHash(x: Arrival, y: Arrival, digest: Digest) {
    ArticleHash(x.article, digest) == ArticleHash(y.article, digest)
  }

  ghost predicate InOrder(xs: seq<Arrival>) {
    forall i, j :: 0 <= i <= j < |xs| ==> xs[i].at <= xs[j].at
  }

  /** The map holds, for each hash emitted, the latest instant it was. */
  ghost predicate Latest(seen: Seen, emitted: seq<Arrival>, digest: Digest) {
    && (forall e :: e in emitted ==>
          ArticleHash(e.article, digest) in seen && e.at <= seen[ArticleHash(e.article, digest)])
    && (forall h :: h in seen ==> exists e :: e in emitted && ArticleHash(e.article, digest) == h && e.at == seen[h])
  }

  lemma {:induction false} EmittedCame(xs: seq<Arrival>, ttl: int, digest: Digest)
    ensures forall e :: e in Emitted(xs, ttl, digest) ==> e in xs
  {
    if xs != [] {
      EmittedCame(xs[..|xs| - 1], ttl, digest);
      assert xs == xs[..|xs| - 1] + [xs[|xs| - 1]];
    }
  }

  lemma {:induction false} SiftIsReference(xs: seq<Arrival>, ttl: int, digest: Digest)
    requires InOrder(xs)
    ensures var p := Sift(map[], xs, ttl, digest);
            p.out == Emitted(xs, ttl, digest) && Latest(p.seen, p.out, digest)
  {
    if xs != [] {
      var front, x := xs[..|xs| - 1], xs[|xs| - 1];
      SiftIsReference(front, ttl, digest);
      var p := Sift(map[], front, ttl, digest);
      EmittedCame(front, ttl, digest);
      forall e | e in p.out ensures e.at <= x.at { assert e in front; }
      LatestDecides(p.seen, p.out, x, ttl, digest);
    }
  }

  lemma LatestDecides(seen: Seen, emitted: seq<Arrival>, x: Arrival, ttl: int, digest: Digest)
    requires Latest(seen, emitted, digest) && forall e :: e in emitted ==> e.at <= x.at
    ensures Admits(seen, x, ttl, digest) <==> !Covered(emitted, x, ttl, digest)
    ensures Latest(seen[ArticleHash(x.article, digest) := x.at], emitted + [x], digest)
  {
    var h, after := ArticleHash(x.article, digest), seen[ArticleHash(x.article, digest) := x.at];
    forall g | g in after
      ensures exists e :: e in emitted + [x] && ArticleHash(e.article, digest) == g && e.at == after[g]
    {
      if g == h {
        assert x in emitted + [x];
      } else {
        var e :| e in emitted && ArticleHash(e.article, digest) == g && e.at == seen[g];
        assert e in emitted + [x];
      }
    }
  }

  lemma {:induction false} SiftConcat(seen: Seen, xs: seq<Arrival>, ys: seq<Arrival>, ttl: int, digest: Digest)
    ensures var p := Sift(seen, xs, ttl, digest);
            var q := Sift(p.seen, ys, ttl, digest);
            Sift(seen, xs + ys, ttl, digest) == Pass(q.seen, p.out + q.out)
    decreases |ys|
  {
    if ys == [] {
      assert xs + ys == xs;
    } else {
      SiftConcat(seen, xs, ys[..|ys| - 1], ttl, digest);
      assert (xs + ys)[..|xs + ys| - 1] == xs + ys[..|ys| - 1];
    }
  }

  function Arrivals(batches: seq<Batch>): seq<Arrival> {
    if batches == [] then []
    else Arrivals(batches[..|batches| - 1]) + Stamped(batches[|batches| - 1].articles, batches[|batches| - 1].at)
  }

  function Joined(outs: seq<seq<Arrival>>): seq<Arrival> {
    if outs == [] then [] else Joined(outs[..|outs| - 1]) + outs[|outs| - 1]
  }

  lemma {:induction false} UnprunedRunIsOneSift(batches: seq<Batch>, ttl: int, digest: Digest)
    ensures var r, p := Run(batches, ttl, digest, false), Sift(map[], Arrivals(batches), ttl, digest);
            r.seen == p.seen && Joined(r.outs) == p.out
  {
    if batches != [] {
      var front, b := batches[..|batches| - 1], batches[|batches| - 1];
      UnprunedRunIsOneSift(front, ttl, digest);
      SiftConcat(map[], Arrivals(front), Stamped(b.articles, b.at), ttl, digest);
      var outs := Run(batches, ttl, digest, false).outs;
      assert outs[..|outs| - 1] == Run(front, ttl, digest, false).outs;
    }
  }

  lemma {:induction false} ArrivalsInOrder(batches: seq<Batch>)
    requires Nondecreasing(Times(batches))
    ensures InOrder(Arrivals(batches))
    ensures forall x :: x in Arrivals(batches) ==> x.at <= batches[|batches| - 1].at
  {
    if batches != [] {
      var front, b := batches[..|batches| - 1], batches[|batches| - 1];
      assert Times(front) == Times(batches)[..|front|];
      ArrivalsInOrder(front);
      assert forall c :: 0 <= c < |front| ==> Times(batches)[c] <= Times(batches)[|front|];
      var before := Arrivals(front);
      assert front != [] ==> front[|front| - 1].at == Times(batches)[|front| - 1];
      assert forall c :: 0 <= c < |before| ==> before[c] in before;
    }
  }

  /** The code, with its map, its calls and its pruning, emits what the reference says. */
  lemma ScraperEmitsReference(batches: seq<Batch>, ttl: int, digest: Digest)
    requires Nondecreasing(Times(batches))
    ensures Joined(Run(batches, ttl, digest, true).outs) == Emitted(Arrivals(batches), ttl, digest)
  {
    PruningIsInvisibleExactlyWhen(Times(batches), ttl, digest);
    UnprunedRunIsOneSift(batches, ttl, digest);
    ArrivalsInOrder(batches);
    SiftIsReference(Arrivals(batches), ttl, digest);
  }

  ghost predicate Apart(es: seq<Arrival>, ttl: int, digest: Digest) {
    forall i, j :: 0 <= i < j < |es| && SameHash(es[i], es[j], digest) ==> es[j].at - es[i].at >= ttl
  }

  lemma ApartSnoc(es: seq<Arrival>, x: Arrival, ttl: int, digest: Digest)
    requires Apart(es, ttl, digest) && !Covered(es, x, ttl, digest)
    ensures Apart(es + [x], ttl, digest)
  {
    forall i | 0 <= i < |es| && SameHash(es[i], x, digest) ensures x.at - es[i].at >= ttl {
      assert es[i] in es;
    }
  }

  lemma {:induction false} EmittedApart(xs: seq<Arrival>, ttl: int, digest: Digest)
    ensures Apart(Emitted(xs, ttl, digest), ttl, digest)
  {
    if xs != [] {
      var front, x := xs[..|xs| - 1], xs[|xs| - 1];
      EmittedApart(front, ttl, digest);
      var before := Emitted(front, ttl, digest);
      if !Covered(before, x, ttl, digest) { ApartSnoc(before, x, ttl, digest); }
    }
  }

  /** Two emissions of one hash are at least ttl apart, over the whole run. */
  lemma EmissionsAreApart(batches: seq<Batch>, ttl: int, digest: Digest)
    requires Nondecreasing(Times(batches))
    ensures Apart(Joined(Run(batches, ttl, digest, true).outs), ttl, digest)
  {
    ScraperEmitsReference(batches, ttl, digest);
    EmittedApart(Arrivals(batches), ttl, digest);
  }

  /** A clock set back: an article emitted at 0 with ttl 10 expires at 10 and is pruned; met
      again at 5 it is emitted again, where the full map would have dropped it. */
  lemma ClockSetBackShows(digest: Digest)
    ensures var batches := Probe([0, 10, 5], 0, 2, 3);
            Run(batches, 10, digest, false).outs[2] == [] != Run(batches, 10, digest, true).outs[2]
  {
    ProbeShows([0, 10, 5], 10, digest, 0, 1, 2);
  }
}
