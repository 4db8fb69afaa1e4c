/** Indian market-time guards (src/pkg/utils/time.go and the square-off trigger). */
module MarketTime {

  /** A wall-clock reading already converted to Asia/Kolkata: a calendar day,
      its weekday (0 = Sunday) and the nanoseconds elapsed in that day. */
  datatype Instant = Instant(day: int, weekday: nat, nanos: nat)

  const NANOS_PER_MINUTE: nat := 60_000_000_000

  function At(hour: nat, minute: nat): nat {
    (hour * 60 + minute) * NANOS_PER_MINUTE
  }

  predicate IsWeekend(t: Instant) { t.weekday == 0 || t.weekday == 6 }

  predicate IsOpeningBuffer(t: Instant) {
    !IsWeekend(t) && At(9, 15) < t.nanos < At(9, 30)
  }

  predicate IsClosingCutoff(t: Instant) {
    !IsWeekend(t) && At(15, 0) <= t.nanos
  }

  /** The guards at the head of the exit monitor's evaluate. */
  predicate ExitsEnabled(t: Instant) {
    !IsOpeningBuffer(t) && !IsClosingCutoff(t)
  }

  /** The trigger test of squareOff, which has no weekday clause. */
  predicate SquareOffDue(t: Instant) {
    At(15, 15) <= t.nanos
  }

  /** The guards on a clock face: the buffer is the open interval from 9:15 to 9:30, the
      cutoff starts with 15:00 and the square-off with 15:15. */
  lemma GuardsByTheClock(t: Instant, hour: nat, minute: nat, rest: nat)
    requires t.weekday <= 6 && minute < 60 && rest < 60_000_000_000
    requires t.nanos == hour * 3_600_000_000_000 + minute * 60_000_000_000 + rest
    ensures var workday := 1 <= t.weekday <= 5;
            && (IsOpeningBuffer(t) <==> workday && hour == 9 && 15 <= minute < 30 && !(minute == 15 && rest == 0))
            && (IsClosingCutoff(t) <==> workday && hour >= 15)
            && (SquareOffDue(t) <==> hour >= 16 || (hour == 15 && minute >= 15))
            && (ExitsEnabled(t) <==> !IsOpeningBuffer(t) && !IsClosingCutoff(t))
  {
  }

  /** The exit monitor and the square-off are enabled at the same instant exactly
      on weekends from 15:15: the closing cutoff is blind to Saturday and Sunday. */
  lemma LiquidatorsOverlapOnlyOnWeekends(t: Instant)
    ensures ExitsEnabled(t) && SquareOffDue(t) <==> IsWeekend(t) && At(15, 15) <= t.nanos
  {
    assert At(9, 30) < At(15, 0) < At(15, 15);
  }
}
