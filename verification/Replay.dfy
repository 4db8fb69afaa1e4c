/** Archive replay (src/pkg/replay/engine.go). */
module Replay {
  import opened Models
  import opened StableSort

  datatype PriceTick = PriceTick(ticker: string, price: real, millis: int)

  /** Delay in nanoseconds, waited before the tick. */
  datatype Step = Step(tick: PriceTick, delay: int)

  // ----- loading -----

  /** An archive as the reader sees it: a malformed line is None. */
  datatype Archive =
    | Unopenable
    | Lines(lines: seq<Option<PriceTick>>, scanFails: bool)

  datatype LoadResult = Loaded(ticks: seq<PriceTick>) | OpenFailed | ScanFailed

  function ByMillis(): PriceTick -> int { (t: PriceTick) => t.millis }

  function WellFormed(lines: seq<Option<PriceTick>>): seq<PriceTick> {
    if lines == [] then []
    else WellFormed(lines[..|lines| - 1]) + (if lines[|lines| - 1].Some? then [lines[|lines| - 1].value] else [])
  }

  /** The well-formed lines, in file order: the k-th line holds the tick at the place given
      by the number of well-formed lines before it, and nothing else is loaded. */
  lemma {:induction false} WellFormedKeepsEachLine(lines: seq<Option<PriceTick>>)
    ensures |WellFormed(lines)| == Good(lines)
    ensures forall k: nat :: k < |lines| && lines[k].Some? ==>
              Good(lines[..k]) < |WellFormed(lines)| && WellFormed(lines)[Good(lines[..k])] == lines[k].value
  {
    if lines != [] {
      var front := lines[..|lines| - 1];
      WellFormedKeepsEachLine(front);
      forall k: nat | k < |lines| && lines[k].Some?
        ensures Good(lines[..k]) < |WellFormed(lines)| && WellFormed(lines)[Good(lines[..k])] == lines[k].value
      {
        if k < |front| { assert lines[..k] == front[..k] && front[k] == lines[k]; }
      }
    }
  }

  /** How many lines are well-formed. */
  function Good(lines: seq<Option<PriceTick>>): nat {
    if lines == [] then 0 else Good(lines[..|lines| - 1]) + (if lines[|lines| - 1].None? then 0 else 1)
  }

  method LoadTicks(archive: Archive) returns (r: LoadResult)
    ensures archive.Unopenable? <==> r.OpenFailed?
    ensures archive.Lines? && archive.scanFails <==> r.ScanFailed?
    ensures r.Loaded? ==>
      && Sorted(r.ticks, ByMillis()) && multiset(r.ticks) == multiset(WellFormed(archive.lines))
      && forall k :: OfKey(r.ticks, ByMillis(), k) == OfKey(WellFormed(archive.lines), ByMillis(), k)
  {
    if archive.Unopenable? { return OpenFailed; }
    var ticks: seq<PriceTick> := [];
    for i := 0 to |archive.lines|
      invariant ticks == WellFormed(archive.lines[..i])
    {
      assert archive.lines[..i + 1][..i] == archive.lines[..i];
      if archive.lines[i].None? { continue; }
      ticks := ticks + [archive.lines[i].value];
    }
    assert archive.lines[..|archive.lines|] == archive.lines;
    if archive.scanFails { return ScanFailed; }
    SortIsStable(ticks, ByMillis());
    r := Loaded(Sort(ticks, ByMillis()));
  }

  // ----- planning -----

  const NANOS_PER_MILLI := 1_000_000.0

  /** The exact wait, before truncation to whole nanoseconds. */
  function ExactDelay(gap: int, speed: real): real
    requires speed > 0.0
  {
    (gap as real) / speed * NANOS_PER_MILLI
  }

  /** Conversion to an integer drops the fraction; the argument is never negative here. */
  function DelayOf(ticks: seq<PriceTick>, i: nat, speed: real): int
    requires i < |ticks|
  {
    if i > 0 && speed > 0.0 && ticks[i].millis > ticks[i - 1].millis
    then ExactDelay(ticks[i].millis - ticks[i - 1].millis, speed).Floor
    else 0
  }

  function PlanOf(ticks: seq<PriceTick>, speed: real): seq<Step> {
    seq(|ticks|, i requires 0 <= i < |ticks| => Step(ticks[i], DelayOf(ticks, i, speed)))
  }

  method Plan(ticks: seq<PriceTick>, speed: real) returns (steps: seq<Step>)
    ensures steps == PlanOf(ticks, speed)
    ensures |steps| == |ticks| && forall i :: 0 <= i < |ticks| ==> steps[i].tick == ticks[i]
  {
    steps := [];
    var prevMillis := 0;
    for i := 0 to |ticks|
      invariant steps == PlanOf(ticks, speed)[..i]
      invariant i > 0 ==> prevMillis == ticks[i - 1].millis
    {
      var delay := 0;
      if i > 0 && speed > 0.0 {
        var gap := ticks[i].millis - prevMillis;
        if gap > 0 { delay := ((gap as real) / speed * NANOS_PER_MILLI).Floor; }
      }
      prevMillis := ticks[i].millis;
      steps := steps + [Step(ticks[i], delay)];
    }
  }

  function TotalDelay(steps: seq<Step>): int {
    if steps == [] then 0 else TotalDelay(steps[..|steps| - 1]) + steps[|steps| - 1].delay
  }

  lemma ExactDelayAdds(a: int, b: int, speed: real)
    requires speed > 0.0
    ensures ExactDelay(a + b, speed) == ExactDelay(a, speed) + ExactDelay(b, speed)
    ensures a >= 0 ==> ExactDelay(a, speed) >= 0.0
  {
    var x, y := (a as real) / speed, (b as real) / speed;
    assert (x + y) * speed == (a + b) as real;
    assert (a + b) as real / speed == x + y;
  }

  /** Each wait loses less than a nanosecond, and the losses are all that is lost: on every
      prefix of m steps the waits stay at or under the scaled elapsed time, and short of it
      by less than m nanoseconds. */
  lemma {:induction false} PacingIsKept(ticks: seq<PriceTick>, speed: real, m: nat)
    requires Sorted(ticks, ByMillis()) && speed > 0.0 && 1 <= m <= |ticks|
    ensures var due := ((ticks[m - 1].millis - ticks[0].millis) as real) / speed * 1_000_000.0;
            0.0 <= due - TotalDelay(PlanOf(ticks, speed)[..m]) as real < m as real
  {
    var steps := PlanOf(ticks, speed);
    assert steps[..m][..m - 1] == steps[..m - 1];
    assert TotalDelay(steps[..m]) == TotalDelay(steps[..m - 1]) + DelayOf(ticks, m - 1, speed);
    if m == 1 {
      assert steps[..0] == [];
      assert ExactDelay(0, speed) == 0.0;
    } else {
      PacingIsKept(ticks, speed, m - 1);
      assert ByMillis()(ticks[m - 2]) <= ByMillis()(ticks[m - 1]);
      var gap := ticks[m - 1].millis - ticks[m - 2].millis;
      ExactDelayAdds(ticks[m - 2].millis - ticks[0].millis, gap, speed);
      assert ExactDelay(0, speed) == 0.0;
      ExactDelayAdds(gap, 0, speed);
    }
  }

  /** No delay is negative, for any ticks; all are zero exactly when the speed is not
      positive or no wait reaches a nanosecond. */
  lemma {:induction false} MaximumSpeedNeverWaits(ticks: seq<PriceTick>, speed: real)
    ensures forall s :: s in PlanOf(ticks, speed) ==> s.delay >= 0
    ensures (forall s :: s in PlanOf(ticks, speed) ==> s.delay == 0) <==>
            (speed <= 0.0 || forall i :: 0 < i < |ticks| ==>
                ExactDelay(ticks[i].millis - ticks[i - 1].millis, speed) < 1.0)
  {
    if speed > 0.0 {
      forall i: nat | 0 < i < |ticks|
        ensures DelayOf(ticks, i, speed) >= 0
        ensures DelayOf(ticks, i, speed) == 0 <==> ExactDelay(ticks[i].millis - ticks[i - 1].millis, speed) < 1.0
      {
        var gap := ticks[i].millis - ticks[i - 1].millis;
        ExactDelayAdds(gap, 0, speed);
        ExactDelayAdds(gap, -gap, speed);
        ExactDelayAdds(-gap, 0, speed);
        assert ExactDelay(0, speed) == 0.0;
      }
      var steps := PlanOf(ticks, speed);
      if forall s :: s in steps ==> s.delay == 0 {
        forall i | 0 < i < |ticks| ensures DelayOf(ticks, i, speed) == 0 { assert steps[i] in steps; }
      }
    }
  }

  // ----- execution -----

  datatype Message = Message(subject: string, tick: PriceTick)

  /** What the surroundings do to one step: whether the context is cancelled during its
      wait, whether the tick encodes, and how the publish goes. */
  datatype Fate = Fate(cancelled: bool, encodes: bool, publish: Outcome)

  datatype Stop = Completed | Cancelled | EncodeFailed | PublishFailed

  function MessageOf(step: Step): Message {
    Message("signal.price." + step.tick.ticker, step.tick)
  }

  function Messages(steps: seq<Step>): seq<Message> {
    seq(|steps|, i requires 0 <= i < |steps| => MessageOf(steps[i]))
  }

  /** How a step ends; a step without a wait never looks at the context. */
  function StopAt(step: Step, fate: Fate): Stop {
    if step.delay > 0 && fate.cancelled then Cancelled
    else if !fate.encodes then EncodeFailed
    else if fate.publish.Done? then Completed
    else PublishFailed
  }

  ghost predicate StopsAfter(steps: seq<Step>, fates: nat -> Fate, published: nat, stop: Stop) {
    && published <= |steps|
    && (forall i: nat :: i < published ==> StopAt(steps[i], fates(i)) == Completed)
    && stop == (if published < |steps| then StopAt(steps[published], fates(published)) else Completed)
    && (stop == Completed ==> published == |steps|)
  }

  /** A publish whose acknowledgement alone was lost still left its message behind. */
  ghost function Unacknowledged(steps: seq<Step>, fates: nat -> Fate, published: nat, stop: Stop): seq<Message> {
    if stop == PublishFailed && published < |steps| && fates(published).publish.DoneButReportedLost?
    then [MessageOf(steps[published])] else []
  }

  class Engine {
    var sent: seq<Message>

    constructor ()
      ensures sent == []
    {
      sent := [];
    }

    method Publish(m: Message, outcome: Outcome) returns (ok: bool)
      modifies this
      ensures ok == outcome.Done?
      ensures sent == if outcome.Lost? then old(sent) else old(sent) + [m]
    {
      if !outcome.Lost? { sent := sent + [m]; }
      ok := outcome.Done?;
    }

    method Run(steps: seq<Step>, fates: nat -> Fate) returns (published: nat, stop: Stop)
      modifies this
      ensures StopsAfter(steps, fates, published, stop)
      ensures published <= |steps| && (stop == Completed <==> published == |steps|)
      ensures published < |steps| ==>
                var step, fate := steps[published], fates(published);
                && (stop == Cancelled <==> step.delay > 0 && fate.cancelled)
                && (stop == EncodeFailed <==> !(step.delay > 0 && fate.cancelled) && !fate.encodes)
                && (stop == PublishFailed ==> !fate.publish.Done?)
      ensures |sent| >= |old(sent)| + published && old(sent) <= sent
      ensures forall i :: 0 <= i < published ==>
                var m := sent[|old(sent)| + i];
                m.subject == "signal.price." + steps[i].tick.ticker && m.tick == steps[i].tick
      ensures sent == old(sent) + Messages(steps[..published]) + Unacknowledged(steps, fates, published, stop)
    {
      published := 0;
      for i := 0 to |steps|
        invariant published == i
        invariant forall j: nat :: j < i ==> StopAt(steps[j], fates(j)) == Completed
        invariant sent == old(sent) + Messages(steps[..i])
      {
        var step, fate := steps[i], fates(i);
        if step.delay > 0 {
          if fate.cancelled { return published, Cancelled; }
        }
        if !fate.encodes { return published, EncodeFailed; }
        var ok := Publish(MessageOf(step), fate.publish);
        if !ok { return published, PublishFailed; }
        assert Messages(steps[..i + 1]) == Messages(steps[..i]) + [MessageOf(step)];
        published := published + 1;
      }
      stop := Completed;
    }
  }

  /** A context cancelled from the start stops a replay that otherwise goes well exactly when
      some step waits: a maximum-speed replay runs to its end regardless. */
  lemma CancellationNeedsAWait(ticks: seq<PriceTick>, speed: real, n: nat, stop: Stop)
    requires StopsAfter(PlanOf(ticks, speed), _ => Fate(true, true, Done), n, stop)
    ensures stop == Cancelled <==> exists s :: s in PlanOf(ticks, speed) && s.delay > 0
    ensures speed <= 0.0 ==> stop == Completed && n == |ticks|
  {
    var steps := PlanOf(ticks, speed);
    var fates: nat -> Fate := _ => Fate(true, true, Done);
    MaximumSpeedNeverWaits(ticks, speed);
    if n == |steps| {
      forall s | s in steps ensures s.delay == 0 {
        var i: nat :| i < |steps| && steps[i] == s;
        assert StopAt(steps[i], fates(i)) == Completed;
      }
    } else {
      assert steps[n] in steps;
    }
  }
}
