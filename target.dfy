/**
  The wall-clock targets of `--at` (main.cpp:161-212, 469-535). The calendar
  arithmetic of `localtime_s` and `mktime` is not modelled: the instant they
  produce is a parameter, `None` when they fail. Instants and durations are
  whole milliseconds on the system clock.
 */
module Target {
  import opened Wrappers
  import opened Duration

  const DAY_MS: nat := 86400000

  /**
    `millisecondsUntilTime`: `today` is the given time of day on the current
    date; a time that is not strictly later than `now` means tomorrow.
   */
  function UntilTime(now: int, today: Option<int>): (ms: int)
    ensures 0 <= ms <= MAX_MS
    ensures today.None? ==> ms == 0
    ensures today.Some? && today.value > now ==> ms == Min(MAX_MS, today.value - now)
    ensures today.Some? && now - DAY_MS < today.value <= now ==> 0 < ms == today.value + DAY_MS - now
    ensures today.Some? && today.value <= now - DAY_MS ==> ms == 0
    ensures ms > 0 <==> today.Some? && today.value > now - DAY_MS
  {
    match today
    case None => 0
    case Some(target) =>
      var next := if target <= now then target + DAY_MS else target;
      ClampWhole(next - now);
      ClampMs((next - now) as real)
  }

  /** A time of day within the last 24 hours is always reached within the next 24 hours. */
  lemma UntilTimeWithinDay(now: int, target: int)
    requires now - DAY_MS < target <= now + DAY_MS
    ensures 0 < UntilTime(now, Some(target)) <= DAY_MS
  {
  }

  /** Rolling forward by a day does not change the answer: the target is the next occurrence. */
  lemma UntilTimeRollsForward(now: int, target: int)
    requires now - DAY_MS < target <= now
    ensures UntilTime(now, Some(target)) == UntilTime(now, Some(target + DAY_MS))
  {
  }

  /**
    `millisecondsUntilDateTime`: the sentinel 0 when the date does not
    convert or is not strictly in the future, the saturated distance otherwise.
   */
  function UntilDateTime(now: int, target: Option<int>): (ms: int)
    ensures 0 <= ms <= MAX_MS
    ensures ms > 0 <==> target.Some? && target.value > now
    ensures target.Some? && target.value > now ==> ms == Min(MAX_MS, target.value - now)
  {
    match target
    case None => 0
    case Some(t) =>
      if t <= now then 0
      else
        ClampWhole(t - now);
        ClampMs((t - now) as real)
  }

  /** A time of day: hour, minute and second as `sscanf` stores them. */
  datatype Clock = Clock(hour: int, minute: int, second: int)

  /**
    The time-only form of `--at` (main.cpp:516-523): `parsed` is the number of
    fields `sscanf("%d:%d:%d")` assigned. Fewer than two is an error; with two
    the seconds are 0.
   */
  function TimeOnly(parsed: int, hour: int, minute: int, second: int): (c: Option<Clock>)
    ensures c.Some? <==> parsed >= 2
    ensures c.Some? ==> c.value.hour == hour && c.value.minute == minute
    ensures c.Some? ==> c.value.second == (if parsed >= 3 then second else 0)
  {
    if parsed < 2 then None
    else Some(Clock(hour, minute, if parsed == 2 then 0 else second))
  }

  /**
    The time that follows a date (main.cpp:476-497). `next` is the argument
    after the date when there is one and it does not start with '-', scanned
    as `TimeOnly` scans it. The result also tells whether that argument was
    consumed; otherwise the time is midnight.
   */
  function AfterDate(next: Option<(int, Clock)>): (r: (Clock, bool))
    ensures r.1 <==> next.Some? && next.value.0 >= 2
    ensures !r.1 ==> r.0 == Clock(0, 0, 0)
    ensures r.1 ==> Some(r.0) == TimeOnly(next.value.0, next.value.1.hour, next.value.1.minute, next.value.1.second)
  {
    match next
    case None => (Clock(0, 0, 0), false)
    case Some((parsed, c)) =>
      match TimeOnly(parsed, c.hour, c.minute, c.second)
      case None => (Clock(0, 0, 0), false)
      case Some(clock) => (clock, true)
  }
}
