/** The latest due occurrence of an automation schedule. */
module Schedules {
  import opened Wrappers
  import opened LocalTime

  datatype ScheduleType = Once | Interval | Daily | Weekly

  /** `nextRunAt` is None when its text is no date; `time` is a minute of the day. */
  datatype Schedule = Schedule(
    scheduleType: ScheduleType,
    nextRunAt: Option<int>,
    intervalSeconds: nat,
    time: nat,
    weekday: nat,
    timezone: string)
  {
    /** What the domain's parser guarantees of a stored schedule. */
    predicate Valid() {
      time < DAY_MINUTES && weekday < 7 && (scheduleType.Interval? ==> intervalSeconds >= 300)
    }
  }

  /** The schedule names a local time of day, read in its time zone. */
  predicate ReadsClock(schedule: Schedule) { schedule.scheduleType.Daily? || schedule.scheduleType.Weekly? }

  /** The schedule has started, so its latest occurrence has to be computed. */
  predicate Started(schedule: Schedule, nowIso: Option<int>) {
    schedule.nextRunAt.Some? && nowIso.Some? && nowIso.value >= schedule.nextRunAt.value
  }

  /** A started interval of length zero divides by zero, and the date it ends up with cannot be written. */
  predicate DividesByZero(schedule: Schedule, nowIso: Option<int>) {
    Started(schedule, nowIso) && schedule.scheduleType.Interval? && schedule.intervalSeconds == 0
  }

  function LatestScheduledOccurrence(schedule: Schedule, nowIso: Option<int>, zone: Zone): Option<int>
    requires !DividesByZero(schedule, nowIso)
  {
    if !Started(schedule, nowIso) then None else
    var anchor, now := schedule.nextRunAt.value, nowIso.value;
    match schedule.scheduleType
    case Once => Some(anchor)
    case Interval =>
      var intervalMs := schedule.intervalSeconds * 1_000;
      Some(anchor + (now - anchor) / intervalMs * intervalMs)
    case _ =>
      var occurrence := LatestWallClock(schedule, now, zone);
      if occurrence < anchor then None else Some(occurrence)
  }

  function LatestWallClock(schedule: Schedule, now: int, zone: Zone): int {
    var today := ZonedParts(zone, now).day;
    Settle(schedule, now, zone, ShiftLocalDate(today, -DaysBack(schedule, today)))
  }

  function Settle(schedule: Schedule, now: int, zone: Zone, localDate: int): int {
    var occurrence := OccurrenceOn(schedule, zone, localDate);
    if occurrence > now then OccurrenceOn(schedule, zone, ShiftLocalDate(localDate, -Period(schedule))) else occurrence
  }

  function OccurrenceOn(schedule: Schedule, zone: Zone, day: int): int {
    InstantOf(zone, Local(day, schedule.time))
  }

  function Period(schedule: Schedule): int { if schedule.scheduleType.Weekly? then 7 else 1 }

  /** Independently of any search: the instants a schedule names, in a zone that always applies `offset`. */
  ghost predicate IsOccurrence(schedule: Schedule, offset: int, t: int)
    requires schedule.nextRunAt.Some?
  {
    match schedule.scheduleType
    case Once => t == schedule.nextRunAt.value
    case Interval => exists k :: t == schedule.nextRunAt.value + Multiple(k, schedule.intervalSeconds * 1_000)
    case _ => exists day: int :: t == OnDay(schedule, offset, day) && FallsOn(schedule, day)
  }

  /** The instant at which a clock `offset` minutes ahead of UTC shows the schedule's time on `day`. */
  function OnDay(schedule: Schedule, offset: int, day: int): int {
    Utc(Local(day, schedule.time)) - offset * MINUTE
  }

  predicate FallsOn(schedule: Schedule, day: int) {
    schedule.scheduleType.Weekly? ==> Weekday(day) == schedule.weekday
  }

  function DaysBack(schedule: Schedule, day: int): int {
    if schedule.scheduleType.Weekly? then (Weekday(day) - schedule.weekday + 7) % 7 else 0
  }

  function Multiple(k: int, n: int): int { k * n }

  ghost predicate DueIn(schedule: Schedule, offset: int, t: int, now: int)
    requires schedule.nextRunAt.Some?
  {
    schedule.nextRunAt.value <= t <= now && IsOccurrence(schedule, offset, t)
  }

  ghost predicate ConstantZone(zone: Zone, offset: int) { forall t :: zone(t) == offset }

  lemma ConstantSearch(zone: Zone, offset: int, value: Local)
    requires ConstantZone(zone, offset)
    ensures InstantOf(zone, value) == Utc(value) - offset * MINUTE
  {
    ConstantSearchRounds(zone, offset, Minutes(value), SEARCH_ROUNDS);
  }

  lemma ConstantSearchRounds(zone: Zone, offset: int, target: int, rounds: nat)
    requires ConstantZone(zone, offset) && rounds >= 2
    ensures Search(zone, target * MINUTE, target * MINUTE, rounds) == (target - offset) * MINUTE
  {
    SearchStep(zone, target, target, rounds);
    SearchStep(zone, target, target - offset, rounds - 1);
  }

  lemma ConstantOccurrence(schedule: Schedule, zone: Zone, offset: int, day: int)
    requires ConstantZone(zone, offset)
    ensures OccurrenceOn(schedule, zone, day) == OnDay(schedule, offset, day)
  {
    ConstantSearch(zone, offset, Local(day, schedule.time));
  }

  lemma ConstantToday(zone: Zone, offset: int, now: int)
    requires ConstantZone(zone, offset)
    ensures ZonedParts(zone, now).day == Today(offset, now)
  {
    assert zone(now) == offset;
  }

  lemma IntervalIsGreatest(anchor: int, now: int, period: int, k: int)
    requires period > 0 && anchor <= now && anchor <= anchor + Multiple(k, period) <= now
    ensures anchor + Multiple(k, period) <= anchor + Multiple((now - anchor) / period, period) <= now
  {
    var q := (now - anchor) / period;
    if k > q {
      assert k * period >= (q + 1) * period by { MulMonotone(q + 1, k, period); }
      assert false;
    } else {
      MulMonotone(k, q, period);
    }
  }

  lemma MulMonotone(a: int, b: int, n: int)
    requires a <= b && n >= 0
    ensures a * n <= b * n
  {
  }

  /** The latest day on which a clock at a constant offset shows the schedule's time not after `now`. */
  function SettledDay(schedule: Schedule, offset: int, now: int, today: int): int {
    var first := today - DaysBack(schedule, today);
    if OnDay(schedule, offset, first) > now then first - Period(schedule) else first
  }

  function Today(offset: int, now: int): int { (now / MINUTE + offset) / DAY_MINUTES }

  lemma SettledDayIsLatest(schedule: Schedule, offset: int, now: int, d: int)
    requires schedule.Valid() && FallsOn(schedule, d) && OnDay(schedule, offset, d) <= now
    ensures OnDay(schedule, offset, d) <= OnDay(schedule, offset, SettledDay(schedule, offset, now, Today(offset, now)))
  {
    var today := Today(offset, now);
    DueByToday(schedule, offset, now, d);
    if schedule.scheduleType.Weekly? { LatestWeekday(schedule, today, d); }
  }

  /** An instant that is due falls on today or earlier, by the clock that shows it. */
  lemma DueByToday(schedule: Schedule, offset: int, now: int, d: int)
    requires schedule.Valid() && OnDay(schedule, offset, d) <= now
    ensures d <= Today(offset, now)
  {
  }

  lemma LatestWeekday(schedule: Schedule, today: int, d: int)
    requires schedule.Valid() && schedule.scheduleType.Weekly? && Weekday(d) == schedule.weekday && d <= today
    ensures var first := today - DaysBack(schedule, today); d <= first && (d == first || d <= first - 7)
  {
  }

  lemma SettledDayIsDue(schedule: Schedule, offset: int, now: int)
    requires schedule.Valid()
    ensures var day := SettledDay(schedule, offset, now, Today(offset, now));
            FallsOn(schedule, day) && OnDay(schedule, offset, day) <= now
  {
  }

  lemma ConstantWallClock(schedule: Schedule, now: int, zone: Zone, offset: int, today: int)
    requires ConstantZone(zone, offset) && today == ZonedParts(zone, now).day
    ensures LatestWallClock(schedule, now, zone) == OnDay(schedule, offset, SettledDay(schedule, offset, now, today))
  {
    WallClockSettles(schedule, now, zone, offset, ShiftLocalDate(today, -DaysBack(schedule, today)));
  }

  lemma WallClockSettles(schedule: Schedule, now: int, zone: Zone, offset: int, first: int)
    requires ConstantZone(zone, offset)
    ensures Settle(schedule, now, zone, first)
         == OnDay(schedule, offset, if OnDay(schedule, offset, first) > now then first - Period(schedule) else first)
  {
    ConstantOccurrence(schedule, zone, offset, first);
    ConstantOccurrence(schedule, zone, offset, first - Period(schedule));
  }

  /** `r` is the greatest occurrence in [anchor, now], or None when there is none. */
  ghost predicate IsGreatest(schedule: Schedule, offset: int, now: int, r: Option<int>)
    requires schedule.nextRunAt.Some?
  {
    && (r.Some? ==> DueIn(schedule, offset, r.value, now))
    && (forall t :: DueIn(schedule, offset, t, now) ==> r.Some? && t <= r.value)
  }

  /** In a zone with a constant offset the code returns the greatest occurrence of the schedule lying in
      [anchor, now], and None exactly when there is none. */
  lemma LatestIsGreatest(schedule: Schedule, now: int, zone: Zone, offset: int)
    requires schedule.Valid() && schedule.nextRunAt.Some? && ConstantZone(zone, offset)
    ensures IsGreatest(schedule, offset, now, LatestScheduledOccurrence(schedule, Some(now), zone))
  {
    var anchor := schedule.nextRunAt.value;
    if anchor <= now {
      match schedule.scheduleType
      case Once =>
      case Interval =>
        var period := schedule.intervalSeconds * 1_000;
        assert anchor == anchor + Multiple(0, period);
        IntervalIsGreatest(anchor, now, period, 0);
        forall t | DueIn(schedule, offset, t, now)
          ensures t <= anchor + Multiple((now - anchor) / period, period)
        {
          var k :| t == anchor + Multiple(k, period);
          IntervalIsGreatest(anchor, now, period, k);
        }
      case _ =>
        ConstantToday(zone, offset, now);
        ConstantWallClock(schedule, now, zone, offset, Today(offset, now));
        SettledDayIsDue(schedule, offset, now);
        forall t | DueIn(schedule, offset, t, now)
          ensures t <= LatestWallClock(schedule, now, zone)
        {
          var d :| t == OnDay(schedule, offset, d) && FallsOn(schedule, d);
          SettledDayIsLatest(schedule, offset, now, d);
        }
    }
  }

  lemma GreatestIsMonotone(schedule: Schedule, offset: int, earlier: int, later: int, r: Option<int>, s: Option<int>)
    requires schedule.nextRunAt.Some? && earlier <= later
    requires IsGreatest(schedule, offset, earlier, r) && IsGreatest(schedule, offset, later, s)
    ensures r.Some? ==> s.Some? && r.value <= s.value
    ensures r == s <==> !exists t :: earlier < t && DueIn(schedule, offset, t, later)
  {
    assert r.Some? ==> DueIn(schedule, offset, r.value, later);
    assert s.Some? && s.value <= earlier ==> DueIn(schedule, offset, s.value, earlier);
  }

  /** As time passes the result never moves back, and stays put exactly until the next occurrence. */
  lemma LatestIsMonotone(schedule: Schedule, earlier: int, later: int, zone: Zone, offset: int)
    requires schedule.Valid() && schedule.nextRunAt.Some? && ConstantZone(zone, offset)
    requires earlier <= later
    ensures var r, s := LatestScheduledOccurrence(schedule, Some(earlier), zone),
                        LatestScheduledOccurrence(schedule, Some(later), zone);
            && (r.Some? ==> s.Some? && r.value <= s.value)
            && (r == s <==> !exists t :: earlier < t && DueIn(schedule, offset, t, later))
  {
    LatestIsGreatest(schedule, earlier, zone, offset);
    LatestIsGreatest(schedule, later, zone, offset);
    GreatestIsMonotone(schedule, offset, earlier, later,
                       LatestScheduledOccurrence(schedule, Some(earlier), zone),
                       LatestScheduledOccurrence(schedule, Some(later), zone));
  }
}
