/** The square-off pass inside the interleaved protocol: between the steps of one pass
    anything else may run. */
module LifecycleSweep {
  import opened Models
  import opened MarketTime
  import opened PositionTable
  import opened SquareOff
  import opened Lifecycle
  import opened LifecycleTheorems
  import opened StaleRefresh

  /** The worlds of a run: at(k) is the one before action k. */
  type History = nat -> World

  ghost function HistoryOf(capital: real, run: seq<Action>): History {
    (k: nat) => Run(Init(capital), if k <= |run| then run[..k] else run)
  }

  ghost predicate Follows(at: History, run: seq<Action>, k: nat)
    requires k < |run|
  {
    at(k + 1) == Apply(at(k), run[k])
  }

  /** Nothing is in progress at first, and each world follows from the one before. */
  ghost predicate IsHistory(at: History, run: seq<Action>) {
    at(0).sweep.Idle? && forall k: nat :: k < |run| ==> Follows(at, run, k)
  }

  lemma HistoryOfRun(capital: real, run: seq<Action>)
    ensures IsHistory(HistoryOf(capital, run), run)
  {
    forall k: nat | k < |run| ensures Follows(HistoryOf(capital, run), run, k) {
      NextMoment(capital, run, k);
    }
    assert run[..0] == [];
  }

  // ----- what a pass is -----

  /** Action j reads a listing and starts a pass. */
  ghost predicate Begins(at: History, run: seq<Action>, j: nat) {
    j < |run| && run[j].BeginSweep? && Enabled(at(j), run[j])
  }

  ghost predicate EndsPass(w: World, a: Action) { a.EndSweep? && Enabled(w, a) }

  /** Action k ends the pass in progress. */
  ghost predicate Ends(at: History, run: seq<Action>, k: nat) {
    k < |run| && EndsPass(at(k), run[k])
  }

  /** The pass begun by action j is still the one in progress before action k. */
  ghost predicate InPass(at: History, run: seq<Action>, j: nat, k: nat) {
    j < k <= |run| && Begins(at, run, j) && forall i: nat :: j < i < k ==> !Ends(at, run, i)
  }

  /** If the action is a publish or an update of the pass, it worked, and an update found
      its row OPEN. */
  ghost predicate Succeeds(w: World, a: Action) {
    && (a.PublishSweep? && Enabled(w, a) ==> a.net.Done?)
    && (a.MarkSweep? && Enabled(w, a) ==> a.net.Done? && IsOpen(w.rows, w.sweep.listing[w.sweep.next].id))
  }

  ghost predicate AllSucceed(at: History, run: seq<Action>, j: nat, k: nat)
    requires k <= |run|
  {
    forall i: nat :: j < i < k ==> Succeeds(at(i), run[i])
  }

  /** The pass begun by action j ends with action k, and none of its calls failed. */
  ghost predicate CleanPass(at: History, run: seq<Action>, j: nat, k: nat) {
    InPass(at, run, j, k) && Ends(at, run, k) && AllSucceed(at, run, j, k)
  }

  /** The action closes this row for the pass. */
  ghost predicate ClosesRow(w: World, a: Action, id: int) {
    a.MarkSweep? && Enabled(w, a) && a.net.Done? && IsOpen(w.rows, id) && w.sweep.listing[w.sweep.next].id == id
  }

  ghost predicate ClosedDuring(at: History, run: seq<Action>, j: nat, k: nat, id: int)
    requires k <= |run|
  {
    exists i: nat :: j < i < k && ClosesRow(at(i), run[i], id)
  }

  // ----- what the state remembers of it -----

  lemma StepInPass(w: World, a: Action)
    requires w.sweep.Sweeping? && w.sweep.next <= |w.sweep.listing| && !EndsPass(w, a)
    ensures var s, s' := w.sweep, Apply(w, a).sweep;
            && s'.Sweeping? && s'.listing == s.listing && s'.day == s.day && Apply(w, a).sqDone == w.sqDone
            && (s'.clean <==> s.clean && Succeeds(w, a))
            && s.next <= s'.next <= s.next + 1 && s'.next <= |s.listing|
            && (s'.clean && s.next < s'.next ==> ClosesRow(w, a, s.listing[s.next].id))
  {
  }

  /** Its listing and day, whether all its calls worked so far, and that then the rows
      before next have been closed by it. */
  ghost predicate Remembers(at: History, run: seq<Action>, j: nat, k: nat)
    requires j < k <= |run| && Begins(at, run, j)
  {
    var s := at(k).sweep;
    && s.Sweeping? && s.listing == run[j].listing && s.day == run[j].now.day && s.next <= |s.listing|
    && at(k).sqDone == at(j).sqDone
    && (s.clean <==> AllSucceed(at, run, j, k))
    && (s.clean ==> forall n: nat :: n < s.next ==> ClosedDuring(at, run, j, k, s.listing[n].id))
  }

  lemma BeginIsRemembered(at: History, run: seq<Action>, j: nat)
    requires IsHistory(at, run) && Begins(at, run, j)
    ensures Remembers(at, run, j, j + 1)
  {
    assert Follows(at, run, j);
  }

  lemma StepIsRemembered(at: History, run: seq<Action>, j: nat, k: nat)
    requires IsHistory(at, run)
    requires j < k < |run| && Begins(at, run, j) && Remembers(at, run, j, k) && !Ends(at, run, k)
    ensures Remembers(at, run, j, k + 1)
  {
    assert Follows(at, run, k);
    StepInPass(at(k), run[k]);
    var s, s' := at(k).sweep, at(k + 1).sweep;
    forall n: nat | s'.clean && n < s'.next ensures ClosedDuring(at, run, j, k + 1, s'.listing[n].id) {
      if n < s.next { assert ClosedDuring(at, run, j, k, s.listing[n].id); }
    }
  }

  lemma {:induction false} PassIsRemembered(at: History, run: seq<Action>, j: nat, k: nat)
    requires IsHistory(at, run) && InPass(at, run, j, k)
    ensures Remembers(at, run, j, k)
    decreases k
  {
    if j + 1 == k {
      BeginIsRemembered(at, run, j);
    } else {
      PassIsRemembered(at, run, j, k - 1);
      assert !Ends(at, run, k - 1);
      StepIsRemembered(at, run, j, k - 1);
    }
  }

  lemma StepOutOfPass(w: World, a: Action)
    ensures w.sweep.Idle? && Apply(w, a).sweep.Sweeping? ==> a.BeginSweep? && Enabled(w, a)
    ensures EndsPass(w, a) ==> Apply(w, a).sweep.Idle?
    ensures Apply(w, a).sqDone == if EndsPass(w, a) && w.sweep.clean then Some(w.sweep.day) else w.sqDone
  {
  }

  /** A pass in progress was begun by some action. */
  lemma {:induction false} PassWasBegun(at: History, run: seq<Action>, k: nat) returns (j: nat)
    requires IsHistory(at, run) && k <= |run| && at(k).sweep.Sweeping?
    ensures InPass(at, run, j, k)
    decreases k
  {
    assert k > 0;
    assert Follows(at, run, k - 1);
    StepOutOfPass(at(k - 1), run[k - 1]);
    if at(k - 1).sweep.Idle? {
      j := k - 1;
    } else {
      j := PassWasBegun(at, run, k - 1);
    }
  }

  // ----- the theorems -----

  /** In every run the day is marked done exactly by the end of a pass none of whose calls
      failed, whatever ran between its steps. */
  lemma DayIsDoneExactlyAfterCleanPass(capital: real, run: seq<Action>, k: nat)
    requires k < |run|
    ensures var at := HistoryOf(capital, run);
            && (at(k + 1).sqDone != at(k).sqDone <==> exists j: nat :: CleanPass(at, run, j, k))
            && (forall j: nat :: CleanPass(at, run, j, k) ==> at(k + 1).sqDone == Some(run[j].now.day))
  {
    HistoryOfRun(capital, run);
    DayDone(HistoryOf(capital, run), run, k);
  }

  lemma DayDone(at: History, run: seq<Action>, k: nat)
    requires IsHistory(at, run) && k < |run|
    ensures at(k + 1).sqDone != at(k).sqDone <==> exists j: nat :: CleanPass(at, run, j, k)
    ensures forall j: nat :: CleanPass(at, run, j, k) ==> at(k + 1).sqDone == Some(run[j].now.day)
  {
    assert Follows(at, run, k);
    StepOutOfPass(at(k), run[k]);
    forall j: nat | CleanPass(at, run, j, k) ensures at(k + 1).sqDone == Some(run[j].now.day) != at(k).sqDone {
      PassIsRemembered(at, run, j, k);
    }
    if at(k + 1).sqDone != at(k).sqDone {
      var j := PassWasBegun(at, run, k);
      PassIsRemembered(at, run, j, k);
      assert CleanPass(at, run, j, k);
    }
  }

  ghost predicate IsClosedRow(rows: Table, id: int) { id in rows && rows[id].status.Closed? }

  /** The clean pass listed the table; every row the table then had, listed or not, is
      CLOSED when the day is marked done.  So a row that is OPEN at that moment was
      inserted after the listing was read. */
  lemma CleanSweepClosedItsListing(capital: real, run: seq<Action>, j: nat, k: nat)
    requires CleanPass(HistoryOf(capital, run), run, j, k)
    ensures var at := HistoryOf(capital, run);
            && IsListing(at(j).rows, run[j].listing)
            && (forall id :: id in at(j).rows ==> IsClosedRow(at(k + 1).rows, id))
            && (forall id :: IsOpen(at(k + 1).rows, id) ==> id !in at(j).rows)
  {
    HistoryOfRun(capital, run);
    ReachableInv(capital, run[..j]);
    ListedRowsClose(HistoryOf(capital, run), run, j, k);
  }

  lemma ListedRowsClose(at: History, run: seq<Action>, j: nat, k: nat)
    requires IsHistory(at, run) && CleanPass(at, run, j, k) && Keyed(at(j).rows)
    ensures forall id :: id in at(j).rows ==> IsClosedRow(at(k + 1).rows, id)
  {
    forall id | id in at(j).rows ensures IsClosedRow(at(k + 1).rows, id) {
      if IsOpen(at(j).rows, id) {
        ListedRowCloses(at, run, j, k, id);
      } else {
        RowsEvolve(at, run, j, k + 1);
      }
    }
  }

  lemma ListedRowCloses(at: History, run: seq<Action>, j: nat, k: nat, id: int)
    requires IsHistory(at, run) && CleanPass(at, run, j, k) && Keyed(at(j).rows) && IsOpen(at(j).rows, id)
    ensures IsClosedRow(at(k + 1).rows, id)
  {
    PassIsRemembered(at, run, j, k);
    var n := PlaceInListing(at(j).rows, run[j].listing, id);
    assert n < at(k).sweep.next;
    assert ClosedDuring(at, run, j, k, run[j].listing[n].id);
    ClosedRowStays(at, run, j, k, id);
  }

  lemma ClosedRowStays(at: History, run: seq<Action>, j: nat, k: nat, id: int)
    requires IsHistory(at, run) && k < |run| && ClosedDuring(at, run, j, k, id)
    ensures IsClosedRow(at(k + 1).rows, id)
  {
    var i: nat :| j < i < k && ClosesRow(at(i), run[i], id);
    assert Follows(at, run, i);
    RowIsClosed(at(i), run[i], id);
    RowsEvolve(at, run, i + 1, k + 1);
  }

  lemma PlaceInListing(rows: Table, listing: seq<Position>, id: int) returns (n: nat)
    requires Keyed(rows) && IsListing(rows, listing) && IsOpen(rows, id)
    ensures n < |listing| && listing[n].id == id
  {
    n :| n < |listing| && listing[n] == rows[id];
  }

  lemma RowIsClosed(w: World, a: Action, id: int)
    requires ClosesRow(w, a, id)
    ensures IsClosedRow(Apply(w, a).rows, id)
  {
  }

  lemma {:induction false} RowsEvolve(at: History, run: seq<Action>, i: nat, k: nat)
    requires IsHistory(at, run) && i <= k <= |run|
    ensures Evolves(at(i).rows, at(k).rows)
    decreases k
  {
    if i < k {
      RowsEvolve(at, run, i, k - 1);
      assert Follows(at, run, k - 1);
      StepGrows(at(k - 1), run[k - 1]);
      EvolvesTransitive(at(i).rows, at(k - 1).rows, at(k).rows);
    }
  }

  // ----- a day that is done -----

  const TRIGGER := Instant(1, 1, At(15, 15))

  lemma SweepBegins(w: World, p: Position)
    requires w.sweep.Idle? && w.sqDone == None && p.id == 1 && p.status.Open? && w.rows == map[1 := p]
    ensures Apply(w, BeginSweep(TRIGGER, [p])) == w.(sweep := Sweeping(1, [p], 0, None, true))
  {
    assert IsListing(w.rows, [p]);
  }

  lemma SweepPublishes(w: World, p: Position)
    requires w.sweep == Sweeping(1, [p], 0, None, true)
    ensures Apply(w, PublishSweep(90.0, 1, Done)) ==
              w.(sweep := Sweeping(1, [p], 0, Some(90.0), true), stream := w.stream + [SquareOffOrder(p, 90.0, 1)])
  {
  }

  lemma SweepMarks(w: World, p: Position)
    requires w.sweep == Sweeping(1, [p], 0, Some(90.0), true)
    requires p.id == 1 && p.status.Open? && w.rows == map[1 := p]
    ensures var w' := Apply(w, MarkSweep(Done, STAMP));
            w'.sweep == Sweeping(1, [p], 1, None, true) && IsClosedRow(w'.rows, 1) && w'.sqDone == w.sqDone
  {
  }

  lemma SweepEnds(w: World, p: Position)
    requires w.sweep == Sweeping(1, [p], 1, None, true)
    ensures Apply(w, EndSweep) == w.(sweep := Idle, sqDone := Some(1))
  {
  }

  /** A run whose last action marks a day done, after a pass that closed a row. */
  lemma ADayIsDone() returns (run: seq<Action>, last: Action)
    ensures Run(Init(CAPITAL), run).sqDone == None
    ensures Run(Init(CAPITAL), run + [last]).sqDone == Some(1) && IsClosedRow(Run(Init(CAPITAL), run + [last]).rows, 1)
  {
    var m := PromotedOrder();
    var p := Row(m);
    run := RowOpened(m);
    var w := Run(Init(CAPITAL), run);
    SweepBegins(w, p);
    SweepPublishes(Apply(w, BeginSweep(TRIGGER, [p])), p);
    run := RunTwo(Init(CAPITAL), run, BeginSweep(TRIGGER, [p]), PublishSweep(90.0, 1, Done));
    SweepMarks(Run(Init(CAPITAL), run), p);
    RunSnoc(Init(CAPITAL), run, MarkSweep(Done, STAMP));
    run := run + [MarkSweep(Done, STAMP)];
    last := EndSweep;
    SweepEnds(Run(Init(CAPITAL), run), p);
    RunSnoc(Init(CAPITAL), run, last);
  }
}
