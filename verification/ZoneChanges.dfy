/** Daily and weekly schedules in a time zone whose offset changes. */
module ZoneChanges {
  import opened Wrappers
  import opened LocalTime
  import opened Schedules

  /** The zone's offset is `a` before minute `change` and `b` from it on. */
  ghost predicate SingleChange(zone: Zone, a: int, b: int, change: int) {
    && -DAY_MINUTES < a < DAY_MINUTES && -DAY_MINUTES < b < DAY_MINUTES
    && forall t :: zone(t) == OffsetAt(a, b, change, t)
  }

  function Offset(a: int, b: int, change: int, minute: int): int { if minute < change then a else b }

  /** The change turns the calendar back to an earlier day. */
  predicate TurnsBackOverMidnight(a: int, b: int, change: int) {
    (change + b) / DAY_MINUTES < (change - 1 + a) / DAY_MINUTES
  }

  /** No day's wall time falls in the gap of the change. */
  ghost predicate GapFree(schedule: Schedule, a: int, b: int, change: int) {
    forall day: int :: FallsOn(schedule, day) ==> !InGap(a, b, change, Local(day, schedule.time))
  }

  /** The minute a wall time is taken for. */
  lemma FoundMinute(zone: Zone, a: int, b: int, change: int, value: Local) returns (r: int)
    requires SingleChange(zone, a, b, change)
    ensures InstantOf(zone, value) == r * MINUTE
    ensures !InGap(a, b, change, value) ==> r + Offset(a, b, change, r) == Minutes(value)
    ensures InGap(a, b, change, value) ==> a < b && r == Minutes(value) - if Minutes(value) < change then b else a
  {
    BounceEnds(a, b, change, Minutes(value));
    r := SearchEnds(zone, a, b, change, value);
  }

  /** What a clock showing day `day` in minute m says about a minute r that shows day d. */
  lemma ShownDaysAgree(a: int, b: int, change: int, m: int, day: int, r: int, d: int)
    requires !TurnsBackOverMidnight(a, b, change)
    requires day == (m + Offset(a, b, change, m)) / DAY_MINUTES && d == (r + Offset(a, b, change, r)) / DAY_MINUTES
    ensures d < day ==> r < m
    ensures d > day ==> r > m
  {
    if r >= m { DaysAdvance(a, b, change, m, r); }
    if r <= m { DaysAdvance(a, b, change, r, m); }
  }

  lemma DaysAdvance(a: int, b: int, change: int, m: int, r: int)
    requires !TurnsBackOverMidnight(a, b, change) && m <= r
    ensures (m + Offset(a, b, change, m)) / DAY_MINUTES <= (r + Offset(a, b, change, r)) / DAY_MINUTES
  {
    if m < change <= r {
      DivMonotone(m + a, change - 1 + a);
      DivMonotone(change + b, r + b);
    } else {
      DivMonotone(m + Offset(a, b, change, m), r + Offset(a, b, change, r));
    }
  }

  lemma DivMonotone(x: int, y: int)
    requires x <= y
    ensures x / DAY_MINUTES <= y / DAY_MINUTES
  {
  }

  lemma DayOf(day: int, time: nat)
    requires time < DAY_MINUTES
    ensures (day * DAY_MINUTES + time) / DAY_MINUTES == day
  {
  }

  /** Occurrences of days before the one shown are past, those of days after it are yet to come. */
  lemma DayOrder(schedule: Schedule, zone: Zone, a: int, b: int, change: int, now: int, d: int)
    requires SingleChange(zone, a, b, change) && !TurnsBackOverMidnight(a, b, change) && schedule.Valid()
    requires !InGap(a, b, change, Local(d, schedule.time))
    ensures d < ZonedParts(zone, now).day ==> OccurrenceOn(schedule, zone, d) <= now
    ensures d > ZonedParts(zone, now).day ==> OccurrenceOn(schedule, zone, d) > now
    ensures Shown(zone, OccurrenceOn(schedule, zone, d)) == Utc(Local(d, schedule.time))
  {
    var value, m := Local(d, schedule.time), now / MINUTE;
    var r := FoundMinute(zone, a, b, change, value);
    DayOf(d, schedule.time);
    ShownAtNow(zone, a, b, change, now);
    ShownDaysAgree(a, b, change, m, ZonedParts(zone, now).day, r, d);
    ShownAtMinute(zone, r);
    ShownAtNow(zone, a, b, change, r * MINUTE);
  }

  lemma ShownAtNow(zone: Zone, a: int, b: int, change: int, now: int)
    requires SingleChange(zone, a, b, change)
    ensures zone(now) == Offset(a, b, change, now / MINUTE)
    ensures ZonedParts(zone, now).day == (now / MINUTE + Offset(a, b, change, now / MINUTE)) / DAY_MINUTES
  {
    assert zone(now) == OffsetAt(a, b, change, now);
  }

  /** The instant taken for the schedule's time on each day, and the days it falls on. */
  function Occurrences(schedule: Schedule, zone: Zone): int -> int {
    (day: int) => OccurrenceOn(schedule, zone, day)
  }

  function Days(schedule: Schedule): int -> bool { (day: int) => FallsOn(schedule, day) }

  /** t is the instant of a day that has come, and no later day's has. */
  ghost predicate IsLatest(occurrence: int -> int, falls: int -> bool, now: int, t: int, day: int) {
    && falls(day) && t == occurrence(day) <= now && forall d: int | d > day && falls(d) :: occurrence(d) > now
  }

  /** t shows the schedule's time on the last day the schedule falls on whose instant has come. */
  ghost predicate LatestDay(schedule: Schedule, zone: Zone, now: int, t: int) {
    exists day: int :: IsLatest(Occurrences(schedule, zone), Days(schedule), now, t, day)
                       && Shown(zone, t) == Utc(Local(day, schedule.time))
  }

  lemma LatestDayIsUnique(schedule: Schedule, zone: Zone, now: int, t: int, u: int)
    requires LatestDay(schedule, zone, now, t) && LatestDay(schedule, zone, now, u)
    ensures t == u
  {
    var occurrence, falls := Occurrences(schedule, zone), Days(schedule);
    var d: int :| IsLatest(occurrence, falls, now, t, d);
    var e: int :| IsLatest(occurrence, falls, now, u, e);
    LatestIsUnique(occurrence, falls, now, t, d, u, e);
  }

  lemma LatestIsUnique(occurrence: int -> int, falls: int -> bool, now: int, t: int, d: int, u: int, e: int)
    requires IsLatest(occurrence, falls, now, t, d) && IsLatest(occurrence, falls, now, u, e)
    ensures t == u
  {
  }

  /** Through a change of offset a daily or weekly schedule keeps its local time, and its latest occurrence is that of
      the last day whose time has come, as long as its time is never in the gap and the change does not turn the
      calendar back. */
  lemma LatestThroughChange(schedule: Schedule, zone: Zone, a: int, b: int, change: int, now: int)
    requires SingleChange(zone, a, b, change) && !TurnsBackOverMidnight(a, b, change)
    requires schedule.Valid() && ReadsClock(schedule) && GapFree(schedule, a, b, change)
    ensures LatestDay(schedule, zone, now, LatestWallClock(schedule, now, zone))
  {
    var today, first := WallClockFrom(schedule, zone, now, LatestWallClock(schedule, now, zone));
    SettledThroughChange(schedule, zone, a, b, change, now, today, first, LatestWallClock(schedule, now, zone));
  }

  /** The day shown now, and the last day up to it that the schedule falls on. */
  lemma WallClockFrom(schedule: Schedule, zone: Zone, now: int, t: int) returns (today: int, first: int)
    requires schedule.Valid() && ReadsClock(schedule) && t == LatestWallClock(schedule, now, zone)
    ensures today == ZonedParts(zone, now).day && Neighbours(Days(schedule), today, first, Period(schedule))
    ensures t == Settle(schedule, now, zone, first)
  {
    today := ZonedParts(zone, now).day;
    first := FirstNeighbour(schedule, today);
    WallClockSettlesFrom(schedule, zone, now, today, first);
  }

  lemma FirstNeighbour(schedule: Schedule, today: int) returns (first: int)
    requires schedule.Valid() && ReadsClock(schedule)
    ensures first == today - DaysBack(schedule, today)
    ensures Neighbours(Days(schedule), today, first, Period(schedule))
  {
    first := today - DaysBack(schedule, today);
    NeighbouringDays(schedule, today);
  }

  lemma SettledThroughChange(
    schedule: Schedule, zone: Zone, a: int, b: int, change: int, now: int, today: int, first: int, t: int)
    requires SingleChange(zone, a, b, change) && !TurnsBackOverMidnight(a, b, change)
    requires schedule.Valid() && ReadsClock(schedule) && GapFree(schedule, a, b, change)
    requires today == ZonedParts(zone, now).day && Neighbours(Days(schedule), today, first, Period(schedule))
    requires t == Settle(schedule, now, zone, first)
    ensures LatestDay(schedule, zone, now, t)
  {
    InOrder(schedule, zone, a, b, change, now, today);
    var day := SettledDayFrom(schedule, zone, now, today, first, t);
    ShowsItsTime(schedule, zone, a, b, change, day);
  }

  /** Instants of days before `today` have come, those of days after it have not. */
  ghost predicate Orders(occurrence: int -> int, falls: int -> bool, now: int, today: int) {
    && (forall d: int | falls(d) && d < today :: occurrence(d) <= now)
    && (forall d: int | falls(d) && d > today :: occurrence(d) > now)
  }

  lemma InOrder(schedule: Schedule, zone: Zone, a: int, b: int, change: int, now: int, today: int)
    requires SingleChange(zone, a, b, change) && !TurnsBackOverMidnight(a, b, change)
    requires schedule.Valid() && ReadsClock(schedule) && GapFree(schedule, a, b, change)
    requires today == ZonedParts(zone, now).day
    ensures Orders(Occurrences(schedule, zone), Days(schedule), now, today)
  {
    forall d: int | Days(schedule)(d)
      ensures d < today ==> Occurrences(schedule, zone)(d) <= now
      ensures d > today ==> Occurrences(schedule, zone)(d) > now
    {
      DayOrder(schedule, zone, a, b, change, now, d);
    }
  }

  /** Of a day and the one before it that the schedule falls on, the later that has come. */
  function Pick(occurrence: int -> int, now: int, first: int, period: int): int {
    if occurrence(first) > now then first - period else first
  }

  /** `first` is the last day up to today that the schedule falls on, `first - period` the one before it. */
  ghost predicate Neighbours(falls: int -> bool, today: int, first: int, period: int) {
    && falls(first) && falls(first - period) && first <= today && first - period < today
    && (forall d: int | d > first && falls(d) :: d > today)
    && (forall d: int | d > first - period && falls(d) :: d >= first)
  }

  lemma PickIsLatest(occurrence: int -> int, falls: int -> bool, now: int, today: int, first: int, period: int)
    requires Orders(occurrence, falls, now, today) && Neighbours(falls, today, first, period)
    ensures var day := Pick(occurrence, now, first, period); IsLatest(occurrence, falls, now, occurrence(day), day)
  {
  }

  lemma WallClockSettlesFrom(schedule: Schedule, zone: Zone, now: int, today: int, first: int)
    requires today == ZonedParts(zone, now).day && first == today - DaysBack(schedule, today)
    ensures LatestWallClock(schedule, now, zone) == Settle(schedule, now, zone, first)
  {
  }

  lemma SettledDayFrom(schedule: Schedule, zone: Zone, now: int, today: int, first: int, t: int) returns (day: int)
    requires Neighbours(Days(schedule), today, first, Period(schedule))
    requires Orders(Occurrences(schedule, zone), Days(schedule), now, today)
    requires t == Settle(schedule, now, zone, first)
    ensures IsLatest(Occurrences(schedule, zone), Days(schedule), now, t, day)
  {
    PickIsLatest(Occurrences(schedule, zone), Days(schedule), now, today, first, Period(schedule));
    day := Pick(Occurrences(schedule, zone), now, first, Period(schedule));
    SettleIsPick(schedule, zone, now, first);
  }

  lemma SettleIsPick(schedule: Schedule, zone: Zone, now: int, first: int)
    ensures var occurrence := Occurrences(schedule, zone);
            Settle(schedule, now, zone, first) == occurrence(Pick(occurrence, now, first, Period(schedule)))
  {
  }

  lemma ShowsItsTime(schedule: Schedule, zone: Zone, a: int, b: int, change: int, day: int)
    requires SingleChange(zone, a, b, change) && schedule.Valid() && GapFree(schedule, a, b, change)
    requires Days(schedule)(day)
    ensures Shown(zone, Occurrences(schedule, zone)(day)) == Utc(Local(day, schedule.time))
  {
    var r := FoundMinute(zone, a, b, change, Local(day, schedule.time));
    ShownAtMinute(zone, r);
    ShownAtNow(zone, a, b, change, r * MINUTE);
  }

  lemma NeighbouringDays(schedule: Schedule, today: int)
    requires schedule.Valid() && ReadsClock(schedule)
    ensures Neighbours(Days(schedule), today, today - DaysBack(schedule, today), Period(schedule))
  {
    FallsOnTime(schedule, today);
    forall d: int | FallsOn(schedule, d)
      ensures d > today - DaysBack(schedule, today) ==> d > today
      ensures d > today - DaysBack(schedule, today) - Period(schedule) ==> d >= today - DaysBack(schedule, today)
    {
      if d <= today && schedule.scheduleType.Weekly? { LatestWeekday(schedule, today, d); }
    }
  }

  lemma FallsOnTime(schedule: Schedule, today: int)
    requires schedule.Valid() && ReadsClock(schedule)
    ensures var first := today - DaysBack(schedule, today);
            && FallsOn(schedule, first) && FallsOn(schedule, first - Period(schedule))
            && first <= today && first - Period(schedule) < today
  {
    WeekdaysBack(today + 4, schedule.weekday);
  }

  lemma WeekdaysBack(x: int, weekday: int)
    requires 0 <= weekday < 7
    ensures var back := (x % 7 - weekday + 7) % 7;
            0 <= back < 7 && (x - back) % 7 == weekday && (x - back - 7) % 7 == weekday
  {
    var back := (x % 7 - weekday + 7) % 7;
    var weeks := x / 7;
    assert x == 7 * weeks + x % 7;
    assert x - back == 7 * (if back == x % 7 - weekday then weeks else weeks - 1) + weekday;
  }

  // ---------- occurrences ahead of the clock ----------

  /** On this day the schedule's time is in the gap, is taken for the later of the two instants, and the clock has
      passed midnight by the time it comes to that instant. */
  predicate SlipsOverMidnight(schedule: Schedule, a: int, b: int, change: int, day: int) {
    var target := Minutes(Local(day, schedule.time));
    && InGap(a, b, change, Local(day, schedule.time)) && change <= target && change < target - a
    && schedule.time + (b - a) > DAY_MINUTES
  }

  /** In the gap, too, occurrences of days before the one shown are past, unless they slip over midnight. */
  lemma PastUnlessSlipped(schedule: Schedule, zone: Zone, a: int, b: int, change: int, now: int, d: int)
    requires SingleChange(zone, a, b, change) && !TurnsBackOverMidnight(a, b, change) && schedule.Valid()
    requires !SlipsOverMidnight(schedule, a, b, change, d) && d < ZonedParts(zone, now).day
    ensures OccurrenceOn(schedule, zone, d) <= now
  {
    var value, m := Local(d, schedule.time), now / MINUTE;
    if InGap(a, b, change, value) {
      var r := FoundMinute(zone, a, b, change, value);
      ShownAtNow(zone, a, b, change, now);
      assert r <= m;
    } else {
      DayOrder(schedule, zone, a, b, change, now, d);
    }
  }

  /** A daily occurrence that slips over midnight is returned while it is still to come: by then the clock shows the
      next day. */
  lemma SlippedIsAhead(schedule: Schedule, zone: Zone, a: int, b: int, change: int, day: int) returns (now: int)
    requires SingleChange(zone, a, b, change) && schedule.Valid() && schedule.scheduleType.Daily?
    requires SlipsOverMidnight(schedule, a, b, change, day) && b - a < DAY_MINUTES
    ensures LatestWallClock(schedule, now, zone) > now
  {
    var r := FoundMinute(zone, a, b, change, Local(day, schedule.time));
    now := (r - 1) * MINUTE;
    MinuteBefore(zone, a, b, change, r, day, Local(day, schedule.time));
    LaterDayIsLater(zone, a, b, change, r, Local(day, schedule.time));
    DailySettles(schedule, zone, now, day + 1);
  }

  lemma DailySettles(schedule: Schedule, zone: Zone, now: int, today: int)
    requires schedule.scheduleType.Daily? && ZonedParts(zone, now).day == today
    requires OccurrenceOn(schedule, zone, today) > now
    ensures LatestWallClock(schedule, now, zone) == OccurrenceOn(schedule, zone, today - 1)
  {
    WallClockSettlesFrom(schedule, zone, now, today, today);
  }

  lemma MinuteBefore(zone: Zone, a: int, b: int, change: int, r: int, day: int, value: Local)
    requires SingleChange(zone, a, b, change) && InGap(a, b, change, value) && b - a < DAY_MINUTES
    requires value.day == day && 0 <= value.minute < DAY_MINUTES && value.minute + (b - a) > DAY_MINUTES
    requires r == Minutes(value) - a > change
    ensures ZonedParts(zone, (r - 1) * MINUTE).day == day + 1
  {
    ShownAtNow(zone, a, b, change, (r - 1) * MINUTE);
    assert ((r - 1) * MINUTE) / MINUTE == r - 1;
    DayOf(day + 1, value.minute + (b - a) - 1 - DAY_MINUTES);
  }

  lemma LaterDayIsLater(zone: Zone, a: int, b: int, change: int, r: int, value: Local)
    requires SingleChange(zone, a, b, change) && InGap(a, b, change, value) && r == Minutes(value) - a > change
    requires b - a < DAY_MINUTES
    ensures InstantOf(zone, Local(value.day + 1, value.minute)) > (r - 1) * MINUTE
  {
    var next := FoundMinute(zone, a, b, change, Local(value.day + 1, value.minute));
    assert next > r;
  }

  /** What is returned has come, unless it is yesterday's. */
  lemma DailyIsYesterdays(schedule: Schedule, zone: Zone, now: int, t: int) returns (yesterday: int)
    requires schedule.scheduleType.Daily? && t == LatestWallClock(schedule, now, zone)
    ensures yesterday == ZonedParts(zone, now).day - 1
    ensures t <= now || t == OccurrenceOn(schedule, zone, yesterday)
  {
    yesterday := ZonedParts(zone, now).day - 1;
    WallClockSettlesFrom(schedule, zone, now, yesterday + 1, yesterday + 1);
    SettlesOnEither(schedule, zone, now, yesterday + 1, t);
  }

  lemma SettlesOnEither(schedule: Schedule, zone: Zone, now: int, first: int, t: int)
    requires t == Settle(schedule, now, zone, first)
    ensures t <= now || t == OccurrenceOn(schedule, zone, first - Period(schedule))
  {
  }

  lemma YesterdaysHasCome(schedule: Schedule, zone: Zone, a: int, b: int, change: int, now: int, d: int, t: int)
    requires SingleChange(zone, a, b, change) && !TurnsBackOverMidnight(a, b, change) && schedule.Valid()
    requires !SlipsOverMidnight(schedule, a, b, change, d) && d < ZonedParts(zone, now).day
    requires t <= now || t == OccurrenceOn(schedule, zone, d)
    ensures t <= now
  {
    PastUnlessSlipped(schedule, zone, a, b, change, now, d);
  }

  /** A daily schedule never yields an occurrence that is still to come exactly when its time never slips over
      midnight in the gap of the change. */
  lemma NeverAheadExactly(schedule: Schedule, zone: Zone, a: int, b: int, change: int)
    requires SingleChange(zone, a, b, change) && !TurnsBackOverMidnight(a, b, change) && b - a < DAY_MINUTES
    requires schedule.Valid() && schedule.scheduleType.Daily?
    ensures (forall now :: LatestWallClock(schedule, now, zone) <= now)
       <==> forall day: int :: !SlipsOverMidnight(schedule, a, b, change, day)
  {
    if day: int :| SlipsOverMidnight(schedule, a, b, change, day) {
      var now := SlippedIsAhead(schedule, zone, a, b, change, day);
    } else {
      forall now ensures LatestWallClock(schedule, now, zone) <= now {
        var yesterday := DailyIsYesterdays(schedule, zone, now, LatestWallClock(schedule, now, zone));
        YesterdaysHasCome(schedule, zone, a, b, change, now, yesterday, LatestWallClock(schedule, now, zone));
      }
    }
  }

  /** A clock that goes forward from 23:00 to midnight. */
  function LateJump(instant: int): int { OffsetAt(0, 60, 1_380, instant) }

  lemma LateJumpOccurrences(time: nat)
    requires time == 1_410
    ensures InstantOf(LateJump, Local(0, time)) == 1_410 * MINUTE
    ensures InstantOf(LateJump, Local(1, time)) > 1_409 * MINUTE
    ensures ZonedParts(LateJump, 1_409 * MINUTE).day == 1
  {
    var slipped := FoundMinute(LateJump, 0, 60, 1_380, Local(0, time));
    var next := FoundMinute(LateJump, 0, 60, 1_380, Local(1, time));
  }

  /** A concrete case: with that clock the occurrence of 23:30 is taken for half past midnight, and is returned a minute
      before that. */
  lemma OccurrenceAhead(schedule: Schedule)
    requires schedule == Schedule(Daily, Some(0), 0, 1_410, 0, "zone")
    ensures LatestScheduledOccurrence(schedule, Some(1_409 * MINUTE), LateJump) == Some(1_410 * MINUTE)
  {
    LateJumpOccurrences(schedule.time);
    DailySettles(schedule, LateJump, 1_409 * MINUTE, 1);
  }
}
