/**
  `isWinnerSelectionTime`: the winner is announced during the minute 22:00 UTC.
  Instants are integer milliseconds since the epoch; Dafny's `%` and `/` on a
  positive divisor are floor-based, which is what `getUTCHours` and
  `getUTCMinutes` compute for instants before the epoch as well.
*/
module SelectionTime {

  const MinuteMs := 60_000
  const HourMs := 3_600_000
  const DayMs := 86_400_000

  function UtcHour(t: int): (h: int)
    ensures 0 <= h < 24
  {
    (t % DayMs) / HourMs
  }

  function UtcMinute(t: int): (m: int)
    ensures 0 <= m < 60
  {
    (t % HourMs) / MinuteMs
  }

  /**
    `gmtHour === 22 && gmtMinutes === 0`, which holds exactly in the first minute
    of 22:00 UTC of every day.
  */
  predicate IsWinnerSelectionTime(now: int)
    ensures IsWinnerSelectionTime(now) <==> 22 * HourMs <= now % DayMs < 22 * HourMs + MinuteMs
  {
    ClockOfDay(now);
    UtcHour(now) == 22 && UtcMinute(now) == 0
  }

  /** The minute of the hour read off the offset into the day. */
  lemma ClockOfDay(t: int)
    ensures UtcMinute(t) == ((t % DayMs) % HourMs) / MinuteMs
  {
    var d := t / DayMs;
    var x := t % DayMs;
    assert t == d * DayMs + x;
    assert d * DayMs == (d * 24) * HourMs;
    assert t % HourMs == x % HourMs;
  }

  /** Seconds and milliseconds do not matter: any instant in a minute answers like its start. */
  lemma {:induction false} SecondsIrrelevant(now: int, s: int)
    requires 0 <= s < MinuteMs
    ensures var start := now - now % MinuteMs;
      IsWinnerSelectionTime(start + s) == IsWinnerSelectionTime(now)
  {
    var start := now - now % MinuteMs;
    var k := now / MinuteMs;
    assert start == k * MinuteMs;
    var day := k / 1440;
    var m := k % 1440;
    assert k == day * 1440 + m;
    assert start + s == day * DayMs + (m * MinuteMs + s);
    assert now == day * DayMs + (m * MinuteMs + now % MinuteMs);
    assert (start + s) % DayMs == m * MinuteMs + s;
    assert now % DayMs == m * MinuteMs + now % MinuteMs;
  }

  /** Adding whole days does not move the offset into the day. */
  lemma {:induction false} OffsetInDay(day: int, x: int)
    requires 0 <= x < DayMs
    ensures (day * DayMs + x) % DayMs == x
  {
    var t := day * DayMs + x;
    var q := t / DayMs;
    assert t == q * DayMs + t % DayMs;
    assert (day - q) * DayMs == t % DayMs - x;
  }

  /** At 21:59 and at 22:01 UTC, whatever the seconds, it is not selection time. */
  lemma NeighbouringMinutes(day: int, s: int)
    requires 0 <= s < MinuteMs
    ensures !IsWinnerSelectionTime(day * DayMs + 21 * HourMs + 59 * MinuteMs + s)
    ensures !IsWinnerSelectionTime(day * DayMs + 22 * HourMs + MinuteMs + s)
  {
    OffsetInDay(day, 21 * HourMs + 59 * MinuteMs + s);
    OffsetInDay(day, 22 * HourMs + MinuteMs + s);
  }

  /** The minute of the day 0 <= m < 1440 at which the predicate holds. */
  ghost function SelectionMinutes(day: int): set<int> {
    set m | 0 <= m < 1440 && IsWinnerSelectionTime(day * DayMs + m * MinuteMs)
  }

  /** Of the 1440 minutes of any day, exactly one (22:00, minute 1320) is selection time. */
  lemma ExactlyOneMinute(day: int)
    ensures SelectionMinutes(day) == {1320}
    ensures |SelectionMinutes(day)| == 1
  {
    forall m | 0 <= m < 1440
      ensures IsWinnerSelectionTime(day * DayMs + m * MinuteMs) <==> m == 1320
    {
      OffsetInDay(day, m * MinuteMs);
    }
  }
}
