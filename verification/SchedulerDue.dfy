/** Which occurrences the scheduler runs: the latest ones its schedules name, read in each record's own time zone. */
module SchedulerDue {
  import opened Wrappers
  import opened Schedules
  import opened ZoneChanges
  import LocalTime
  import opened CompletedOccurrences
  import opened AutomationScheduling
  import opened SchedulerRuns
  import opened SchedulerCycle
  import opened SchedulerMemory
  import Listing

  /** A well-formed schedule whose time zone, if it is read in one, is known and always applies `offset`. */
  ghost predicate ReadAt(schedule: Schedule, offset: int, config: Config) {
    && schedule.Valid()
    && (ReadsClock(schedule) ==>
          config.zones(schedule.timezone).Some? && ConstantZone(config.zones(schedule.timezone).value, offset))
  }

  /** `t` is the last instant not after `now` that the schedule names from its anchor on. */
  ghost predicate LatestDue(schedule: Schedule, offset: int, now: int, t: int) {
    && schedule.nextRunAt.Some? && DueIn(schedule, offset, t, now)
    && forall u :: DueIn(schedule, offset, u, now) ==> u <= t
  }

  ghost predicate NothingDue(schedule: Schedule, offset: int, now: int) {
    schedule.nextRunAt.Some? ==> forall t :: !DueIn(schedule, offset, t, now)
  }

  lemma DueAtIsLatest(r: Record, env: Environment, config: Config, offset: int)
    requires ReadAt(r.schedule, offset, config)
    ensures !OccurrenceThrows(r, env, config)
    ensures DueAt(r, env, config).None? ==> NothingDue(r.schedule, offset, env.now)
    ensures DueAt(r, env, config).Some? ==> LatestDue(r.schedule, offset, env.now, DueAt(r, env, config).value)
  {
    if r.schedule.nextRunAt.Some? {
      var zone := config.zones(r.schedule.timezone).GetOr(NoOffset);
      if ReadsClock(r.schedule) {
        LatestIsGreatest(r.schedule, env.now, zone, offset);
      } else {
        LatestIsGreatest(r.schedule, env.now, NoOffset, 0);
        AnyZone(r.schedule, offset, env.now, zone);
      }
    }
  }

  /** A schedule that is read in no time zone means the same in all of them. */
  lemma AnyZone(schedule: Schedule, offset: int, now: int, zone: int -> int)
    requires schedule.Valid() && schedule.nextRunAt.Some? && !ReadsClock(schedule)
    ensures LatestScheduledOccurrence(schedule, Some(now), zone)
         == LatestScheduledOccurrence(schedule, Some(now), NoOffset)
    ensures forall t :: DueIn(schedule, offset, t, now) <==> DueIn(schedule, 0, t, now)
  {
  }

  lemma LatestDueIsUnique(schedule: Schedule, offset: int, now: int, t: int, u: int)
    requires LatestDue(schedule, offset, now, t) && LatestDue(schedule, offset, now, u)
    ensures t == u
  {
  }

  // ---------- one visit ----------

  /** The scheduler remembers this occurrence of the record, under its present definition and identities. */
  predicate Recalls(s: Scheduler, r: Record, t: int) {
    Entry(AutomationIdentity(r.tenantId, r.spaceId, r.automationId),
          OccurrenceIdentity(t, r.definitionDigest, r.actorId, r.principalId)) in s.completed
  }

  lemma {:induction false} LookupIsMembership(map_: seq<Entry>, e: Entry)
    requires DistinctKeys(map_)
    ensures Lookup(map_, e.automation) == Some(e.occurrence) <==> e in map_
  {
    if map_ != [] {
      LookupIsMembership(map_[1..], e);
    }
  }

  /** Every call for the record succeeds, and nothing closes the scheduler before the run has started. */
  predicate RunsThrough(attempt: Attempt) {
    attempt.outcome == RunCompleted && (attempt.close == NotClosed || attempt.close == DuringRun)
  }

  /** What visiting a record whose latest due occurrence is t adds to the log. */
  function VisitLog(s: Scheduler, r: Record, t: int, attempt: Attempt): seq<Act> {
    if s.closed then []
    else if Recalls(s, r, t) then [Skipped(IdempotencyKey(r.automationId, t), r)]
    else if RunsThrough(attempt) then [Committed(IdempotencyKey(r.automationId, t), r)] else []
  }

  /** A visit runs the latest due occurrence of the record's schedule in the record's time zone, unless it is
      remembered, and nothing when there is none. */
  lemma VisitRunsLatestDue(scan: Scan, r: Record, env: Environment, config: Config, offset: int)
    requires DistinctKeys(scan.s.completed) && ReadAt(r.schedule, offset, config)
    ensures var before, after := scan.s.history.acts, Visit(scan, r, env, config).s.history.acts;
            && (NothingDue(r.schedule, offset, env.now) ==> after == before)
            && forall t | LatestDue(r.schedule, offset, env.now, t) ::
                 after == before + VisitLog(scan.s, r, t, env.attempt(r))
  {
    DueAtIsLatest(r, env, config, offset);
    var due := DueAt(r, env, config);
    if due.Some? {
      LookupIsMembership(scan.s.completed, Identity(r, due.value));
      VisitDue(scan, r, env, config, due.value);
      forall t | LatestDue(r.schedule, offset, env.now, t) ensures t == due.value {
        LatestDueIsUnique(r.schedule, offset, env.now, t, due.value);
      }
    }
  }

  lemma VisitDue(scan: Scan, r: Record, env: Environment, config: Config, t: int)
    requires !OccurrenceThrows(r, env, config) && DueAt(r, env, config) == Some(t)
    requires Hit(scan.s, r, t) <==> Recalls(scan.s, r, t)
    ensures Visit(scan, r, env, config).s.history.acts
         == scan.s.history.acts + VisitLog(scan.s, r, t, env.attempt(r))
  {
  }

  /** A daily or weekly schedule in a known time zone with one change of offset, which neither skips its local time nor
      turns the calendar back. */
  ghost predicate ReadThrough(schedule: Schedule, a: int, b: int, change: int, config: Config) {
    && schedule.Valid() && ReadsClock(schedule) && schedule.nextRunAt.Some? && config.zones(schedule.timezone).Some?
    && SingleChange(config.zones(schedule.timezone).value, a, b, change)
    && !TurnsBackOverMidnight(a, b, change) && GapFree(schedule, a, b, change)
  }

  /** Through a change of offset, too, a visit runs the last of the schedule's days whose local time has come, unless
      that was before the schedule's anchor or is remembered. */
  lemma VisitRunsLatestDay(scan: Scan, r: Record, env: Environment, config: Config, a: int, b: int, change: int, t: int)
    requires DistinctKeys(scan.s.completed) && ReadThrough(r.schedule, a, b, change, config)
    requires LatestDay(r.schedule, config.zones(r.schedule.timezone).value, env.now, t)
    ensures var before, after := scan.s.history.acts, Visit(scan, r, env, config).s.history.acts;
            after == if r.schedule.nextRunAt.value <= t then before + VisitLog(scan.s, r, t, env.attempt(r)) else before
  {
    var zone := config.zones(r.schedule.timezone).value;
    LatestThroughChange(r.schedule, zone, a, b, change, env.now);
    LatestDayIsUnique(r.schedule, zone, env.now, t, LatestWallClock(r.schedule, env.now, zone));
    LatestDayHasCome(r.schedule, zone, env.now, t);
    LookupIsMembership(scan.s.completed, Identity(r, t));
    if r.schedule.nextRunAt.value <= t {
      assert DueAt(r, env, config) == Some(t);
      VisitDue(scan, r, env, config, t);
    } else {
      assert DueAt(r, env, config) == None;
    }
  }

  lemma LatestDayHasCome(schedule: Schedule, zone: LocalTime.Zone, now: int, t: int)
    requires LatestDay(schedule, zone, now, t)
    ensures t <= now
  {
  }

  // ---------- every run ----------

  /** A logged run is one of a listed record, for the latest occurrence its schedule names by the time of the wake. */
  ghost predicate RightlyRun(act: Act, env: Environment, config: Config) {
    && act.record in env.listing && act.key.automationId == act.record.automationId
    && forall offset | ReadAt(act.record.schedule, offset, config) ::
         LatestDue(act.record.schedule, offset, env.now, act.key.scheduledFor)
  }

  /** The acts logged since `before` are all rightly run. */
  ghost predicate LogsRightly(before: seq<Act>, after: seq<Act>, env: Environment, config: Config) {
    && |before| <= |after| && after[..|before|] == before
    && forall i | |before| <= i < |after| :: RightlyRun(after[i], env, config)
  }

  lemma LogsRightlyJoins(a: seq<Act>, b: seq<Act>, c: seq<Act>, env: Environment, config: Config)
    requires LogsRightly(a, b, env, config) && LogsRightly(b, c, env, config)
    ensures LogsRightly(a, c, env, config)
  {
    assert c[..|a|] == c[..|b|][..|a|];
    forall i | |a| <= i < |c| ensures RightlyRun(c[i], env, config) {
      if i < |b| { assert c[i] == c[..|b|][i]; }
    }
  }

  lemma VisitLogsRightly(scan: Scan, r: Record, env: Environment, config: Config)
    requires r in env.listing
    ensures LogsRightly(scan.s.history.acts, Visit(scan, r, env, config).s.history.acts, env, config)
  {
    var due := DueAt(r, env, config);
    forall offset | due.Some? && ReadAt(r.schedule, offset, config)
      ensures LatestDue(r.schedule, offset, env.now, due.value)
    {
      DueAtIsLatest(r, env, config, offset);
    }
    VisitAddsOwnAct(scan, r, env, config);
  }

  lemma VisitAddsOwnAct(scan: Scan, r: Record, env: Environment, config: Config)
    ensures var before, after := scan.s.history.acts, Visit(scan, r, env, config).s.history.acts;
            after == before
            || (DueAt(r, env, config).Some?
                && exists act: Act :: after == before + [act] && act.record == r
                                      && act.key == KeyOf(r, DueAt(r, env, config).value))
  {
    var before, after := scan.s.history.acts, Visit(scan, r, env, config).s.history.acts;
    if after != before { assert after == before + [after[|before|]]; }
  }

  lemma {:induction false} VisitsLogRightly(scan: Scan, records: seq<Record>, env: Environment, config: Config)
    requires forall r | r in records :: r in env.listing
    ensures LogsRightly(scan.s.history.acts, VisitAll(scan, records, env, config).s.history.acts, env, config)
    decreases |records|
  {
    if records != [] && scan.status.Running? {
      var next := Visit(scan, records[0], env, config);
      VisitLogsRightly(scan, records[0], env, config);
      VisitsLogRightly(next, records[1..], env, config);
      LogsRightlyJoins(scan.s.history.acts, next.s.history.acts,
                       VisitAll(next, records[1..], env, config).s.history.acts, env, config);
    }
  }

  lemma PageLogsRightly(scan: Scan, env: Environment, config: Config, page: nat)
    ensures LogsRightly(scan.s.history.acts, ScanPage(scan, env, config, page).s.history.acts, env, config)
  {
    Listing.AfterIsListed(env.listing, Rank, scan.s.cursor);
    var records := Listing.Page(env.listing, Rank, scan.s.cursor, PAGE_SIZE);
    VisitsLogRightly(CloseIf(scan, env.closedInList(page)), records, env, config);
  }

  lemma {:induction false} PagesLogRightly(scan: Scan, env: Environment, config: Config, page: nat)
    ensures LogsRightly(scan.s.history.acts, ScanPages(scan, env, config, page).s.history.acts, env, config)
    decreases config.maxPagesPerWake - page
  {
    UnfoldPages(scan, env, config, page);
    if scan.status.Running? && page < config.maxPagesPerWake {
      var next := ScanPage(scan, env, config, page);
      PageLogsRightly(scan, env, config, page);
      PagesLogRightly(next, env, config, page + 1);
      LogsRightlyJoins(scan.s.history.acts, next.s.history.acts,
                       ScanPages(next, env, config, page + 1).s.history.acts, env, config);
    }
  }

  lemma WakeLogsRightly(s: Scheduler, env: Environment, config: Config)
    ensures LogsRightly(s.history.acts, Wake(s, env, config).history.acts, env, config)
  {
    PagesLogRightly(CloseIf(Scan(s, None, Running), env.closedInAdmission), env, config, 0);
  }

  ghost predicate RightlyRunInSome(act: Act, envs: seq<Environment>, config: Config) {
    exists j :: 0 <= j < |envs| && RightlyRun(act, envs[j], config)
  }

  /** Over any run of wakes, whatever fails, every run logged is one of a record listed at some wake, for the latest
      occurrence that record's schedule named by the time of that wake. */
  lemma {:induction false} EveryRunIsDue(s: Scheduler, envs: seq<Environment>, config: Config)
    ensures var before, after := s.history.acts, Wakes(s, envs, config).history.acts;
            && |before| <= |after| && after[..|before|] == before
            && forall i | |before| <= i < |after| :: RightlyRunInSome(after[i], envs, config)
    decreases |envs|
  {
    if envs != [] {
      var a, b, c := s.history.acts, Wake(s, envs[0], config).history.acts, Wakes(s, envs, config).history.acts;
      WakeLogsRightly(s, envs[0], config);
      EveryRunIsDue(Wake(s, envs[0], config), envs[1..], config);
      assert c[..|a|] == c[..|b|][..|a|];
      forall i | |a| <= i < |c| ensures RightlyRunInSome(c[i], envs, config) {
        if i < |b| {
          assert c[i] == c[..|b|][i] == b[i];
          assert RightlyRun(b[i], envs[0], config);
        } else {
          var j :| 0 <= j < |envs[1..]| && RightlyRun(c[i], envs[1..][j], config);
          assert RightlyRun(c[i], envs[j + 1], config);
        }
      }
    }
  }

  // ---------- a cycle runs everything that is due ----------

  /** Every record dealt with since `a` has the key of its latest due occurrence among the committed ones. */
  ghost predicate Served(a: Scheduler, b: Scheduler, env: Environment, config: Config) {
    && |a.history.processed| <= |b.history.processed|
    && b.history.processed[..|a.history.processed|] == a.history.processed
    && CommittedKeys(a.history.acts) <= CommittedKeys(b.history.acts) && Backed(b) && !b.closed
    && forall i | |a.history.processed| <= i < |b.history.processed| ::
         NewKeys(b.history.processed[i], env, config) <= CommittedKeys(b.history.acts)
  }

  lemma ServedJoins(a: Scheduler, b: Scheduler, c: Scheduler, env: Environment, config: Config)
    requires Served(a, b, env, config) && Served(b, c, env, config)
    ensures Served(a, c, env, config)
  {
    var p, q, r := a.history.processed, b.history.processed, c.history.processed;
    assert r[..|p|] == r[..|q|][..|p|];
    forall i | |p| <= i < |r| ensures NewKeys(r[i], env, config) <= CommittedKeys(c.history.acts) {
      if i < |q| { assert r[i] == r[..|q|][i]; }
    }
  }

  lemma {:induction false} VisitsServe(scan: Scan, records: seq<Record>, env: Environment, config: Config)
    requires Backed(scan.s) && !scan.s.closed && scan.status.Running? && Quiet(env, env.listing, config)
    requires forall r | r in records :: r in env.listing
    ensures Served(scan.s, VisitAll(scan, records, env, config).s, env, config)
    decreases |records|
  {
    if records != [] {
      var next := Visit(scan, records[0], env, config);
      VisitCommits(scan, records[0], env, config);
      VisitBacked(scan, records[0], env, config);
      VisitsServe(next, records[1..], env, config);
      ServedJoins(scan.s, next.s, VisitAll(next, records[1..], env, config).s, env, config);
    }
  }

  lemma {:induction false} PagesServe(scan: Scan, env: Environment, config: Config, page: nat)
    requires Backed(scan.s) && !scan.s.closed && Quiet(env, env.listing, config)
    ensures Served(scan.s, ScanPages(scan, env, config, page).s, env, config)
    decreases config.maxPagesPerWake - page
  {
    UnfoldPages(scan, env, config, page);
    if scan.status.Running? && page < config.maxPagesPerWake {
      var next := ScanPage(scan, env, config, page);
      assert !env.closedInList(page) && env.listFails(page).None?;
      Listing.AfterIsListed(env.listing, Rank, scan.s.cursor);
      VisitsServe(CloseIf(scan, env.closedInList(page)),
                  Listing.Page(env.listing, Rank, scan.s.cursor, PAGE_SIZE), env, config);
      PagesServe(next, env, config, page + 1);
      ServedJoins(scan.s, next.s, ScanPages(next, env, config, page + 1).s, env, config);
    }
  }

  /** Wakes in which nothing interrupts the scan and every call about a listed record succeeds. */
  ghost predicate AllSucceed(envs: seq<Environment>, listing: seq<Record>, config: Config) {
    AllQuiet(envs, listing, config)
    && forall j, r | 0 <= j < |envs| && r in listing :: envs[j].attempt(r).outcome == RunCompleted
  }

  /** The latest occurrence due at the time of some of these wakes has been run. */
  ghost predicate RunInSome(r: Record, envs: seq<Environment>, offset: int, keys: set<IdempotencyKey>) {
    exists j :: 0 <= j < |envs| && HasRun(r, envs[j].now, offset, keys)
  }

  ghost predicate HasRun(r: Record, now: int, offset: int, keys: set<IdempotencyKey>) {
    forall t | LatestDue(r.schedule, offset, now, t) :: IdempotencyKey(r.automationId, t) in keys
  }

  lemma ServedHasRun(r: Record, env: Environment, config: Config, offset: int, keys: set<IdempotencyKey>)
    requires ReadAt(r.schedule, offset, config) && env.attempt(r).outcome == RunCompleted
    requires NewKeys(r, env, config) <= keys
    ensures HasRun(r, env.now, offset, keys)
  {
    DueAtIsLatest(r, env, config, offset);
    var due := DueAt(r, env, config);
    forall t | LatestDue(r.schedule, offset, env.now, t) ensures IdempotencyKey(r.automationId, t) in keys {
      if due.Some? { LatestDueIsUnique(r.schedule, offset, env.now, t, due.value); }
      assert KeyOf(r, t) in NewKeys(r, env, config);
    }
  }

  /** Every record dealt with over these wakes was run for the latest occurrence due at one of them. */
  lemma {:induction false} WakesServe(
    s: Scheduler, envs: seq<Environment>, listing: seq<Record>, config: Config, i: nat, offset: int)
    requires Backed(s) && !s.closed && AllSucceed(envs, listing, config)
    requires |s.history.processed| <= i < |Wakes(s, envs, config).history.processed|
    requires ReadAt(Wakes(s, envs, config).history.processed[i].schedule, offset, config)
    requires Wakes(s, envs, config).history.processed[i] in listing
    ensures CommittedKeys(s.history.acts) <= CommittedKeys(Wakes(s, envs, config).history.acts)
    ensures RunInSome(Wakes(s, envs, config).history.processed[i], envs, offset,
                      CommittedKeys(Wakes(s, envs, config).history.acts))
    decreases |envs|
  {
    var t, u := Wake(s, envs[0], config), Wakes(s, envs, config);
    PagesServe(Scan(s, None, Running), envs[0], config, 0);
    ProcessedGrows(t, envs[1..], listing, config);
    assert u == Wakes(t, envs[1..], config);
    if i < |t.history.processed| {
      assert u.history.processed[i] == u.history.processed[..|t.history.processed|][i] == t.history.processed[i];
      ServedHasRun(t.history.processed[i], envs[0], config, offset, CommittedKeys(u.history.acts));
    } else {
      WakesServe(t, envs[1..], listing, config, i, offset);
      var r, keys := u.history.processed[i], CommittedKeys(u.history.acts);
      var j :| 0 <= j < |envs[1..]| && HasRun(r, envs[1..][j].now, offset, keys);
      assert HasRun(r, envs[j + 1].now, offset, keys);
    }
  }

  lemma {:induction false} ProcessedGrows(s: Scheduler, envs: seq<Environment>, listing: seq<Record>, config: Config)
    requires Backed(s) && !s.closed && AllSucceed(envs, listing, config)
    ensures var t := Wakes(s, envs, config);
            && |s.history.processed| <= |t.history.processed|
            && t.history.processed[..|s.history.processed|] == s.history.processed
            && CommittedKeys(s.history.acts) <= CommittedKeys(t.history.acts)
    decreases |envs|
  {
    if envs != [] {
      var t := Wake(s, envs[0], config);
      PagesServe(Scan(s, None, Running), envs[0], config, 0);
      ProcessedGrows(t, envs[1..], listing, config);
      var p, q := t.history.processed, Wakes(t, envs[1..], config).history.processed;
      assert q[..|s.history.processed|] == q[..|p|][..|s.history.processed|];
    }
  }

  /** A cycle of wakes in which every call succeeds leaves every listed record run for the latest occurrence that
      was due at the time of one of them, whatever the scheduler did and remembered before. */
  lemma CycleRunsAllDue(
    earlier: seq<Environment>, listing: seq<Record>, envs: seq<Environment>, config: Config, r: Record, offset: int)
    requires config.Valid() && ListingOrdered(listing) && AllSucceed(envs, listing, config)
    requires !Wakes(Fresh(), earlier, config).closed && Wakes(Fresh(), earlier, config).cursor == None
    requires |envs| == WakesPerCycle(listing, config)
    requires r in listing && ReadAt(r.schedule, offset, config)
    ensures RunInSome(r, envs, offset, CommittedKeys(Wakes(Fresh(), earlier + envs, config).history.acts))
  {
    var s := Wakes(Fresh(), earlier, config);
    WakesBacked(Fresh(), earlier, config);
    WakesJoin(Fresh(), earlier, envs, config);
    CycleVisitsAllOnce(s, listing, envs, config);
    var k :| 0 <= k < |listing| && listing[k] == r;
    ServedAt(s, envs, listing, config, k, offset);
  }

  lemma ServedAt(s: Scheduler, envs: seq<Environment>, listing: seq<Record>, config: Config, k: nat, offset: int)
    requires Backed(s) && !s.closed && AllSucceed(envs, listing, config) && k < |listing|
    requires Wakes(s, envs, config).history.processed == s.history.processed + listing
    requires ReadAt(listing[k].schedule, offset, config)
    ensures RunInSome(listing[k], envs, offset, CommittedKeys(Wakes(s, envs, config).history.acts))
  {
    assert Wakes(s, envs, config).history.processed[|s.history.processed| + k] == listing[k];
    WakesServe(s, envs, listing, config, |s.history.processed| + k, offset);
  }
}
