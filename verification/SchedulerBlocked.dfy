/** What a record whose occurrence cannot be computed does to the records after it. */
module SchedulerBlocked {
  import opened Wrappers
  import opened AutomationScheduling
  import opened SchedulerRuns
  import Listing
  import Schedules

  /** `after` has dealt with listing[k..j] more than `before` and stands at j, no further than record p. */
  ghost predicate StopsBy(
    listing: seq<Record>, before: Scheduler, after: Scheduler, k: nat, j: nat, p: nat)
  {
    && k <= j <= p < |listing| && At(listing, after.cursor, j)
    && after.history.processed == before.history.processed + listing[k..j]
  }

  lemma StopsByJoins(
    listing: seq<Record>, s: Scheduler, t: Scheduler, u: Scheduler, k: nat, i: nat, j: nat, p: nat)
    requires StopsBy(listing, s, t, k, i, p) && StopsBy(listing, t, u, i, j, p)
    ensures StopsBy(listing, s, u, k, j, p)
  {
    assert listing[k..i] + listing[i..j] == listing[k..j];
  }

  /** Visiting a record in an open scan throws exactly when its schedule has started and is either an interval of no
      length or a local time of day in a time zone the runtime does not know. */
  lemma VisitThrowsExactly(scan: Scan, r: Record, env: Environment, config: Config)
    requires scan.status.Running? && !scan.s.closed
    ensures Visit(scan, r, env, config).status.Threw?
       <==> && r.schedule.nextRunAt.Some? && r.schedule.nextRunAt.value <= env.now
            && ((r.schedule.scheduleType == Schedules.Interval && r.schedule.intervalSeconds == 0)
                || (r.schedule.scheduleType in {Schedules.Daily, Schedules.Weekly}
                    && config.zones(r.schedule.timezone).None?))
  {
    var due := DueAt(r, env, config);
    if due.Some? { TryNeverThrows(scan, r, due.value, env.attempt(r), config.cacheLimit); }
  }

  lemma TryNeverThrows(scan: Scan, r: Record, due: int, attempt: Attempt, limit: nat)
    requires scan.status.Running?
    ensures !Try(scan, r, due, attempt, limit).status.Threw?
  {
  }

  lemma VisitStops(scan: Scan, listing: seq<Record>, k: nat, p: nat, env: Environment, config: Config)
    requires scan.status.Running? && At(listing, scan.s.cursor, k) && k < |listing|
    requires k <= p < |listing| && OccurrenceThrows(listing[p], env, config)
    ensures var next := Visit(scan, listing[k], env, config);
            StopsBy(listing, scan.s, next.s, k, if next.status.Running? then k + 1 else k, p)
  {
    VisitOrder(scan, listing, k, env, config);
  }

  lemma {:induction false} BlockedVisits(
    scan: Scan, listing: seq<Record>, k: nat, m: nat, p: nat, env: Environment, config: Config)
    returns (j: nat)
    requires scan.status.Running? && At(listing, scan.s.cursor, k) && k <= m <= |listing|
    requires k <= p < |listing| && OccurrenceThrows(listing[p], env, config)
    ensures StopsBy(listing, scan.s, VisitAll(scan, listing[k..m], env, config).s, k, j, p)
    ensures VisitAll(scan, listing[k..m], env, config).status.Running? ==> j == m
    decreases m - k
  {
    j := k;
    assert listing[k..k] == [];
    if k < m {
      assert listing[k..m][0] == listing[k] && listing[k..m][1..] == listing[k + 1..m];
      VisitStops(scan, listing, k, p, env, config);
      var next := Visit(scan, listing[k], env, config);
      if next.status.Running? {
        j := BlockedVisits(next, listing, k + 1, m, p, env, config);
        StopsByJoins(listing, scan.s, next.s, VisitAll(next, listing[k + 1..m], env, config).s, k, k + 1, j, p);
      } else {
        assert VisitAll(next, listing[k + 1..m], env, config) == next;
      }
    }
  }

  lemma BlockedPage(scan: Scan, listing: seq<Record>, k: nat, p: nat, env: Environment, config: Config, page: nat)
    returns (j: nat)
    requires ListingOrdered(listing) && env.listing == listing
    requires scan.status.Running? && At(listing, scan.s.cursor, k)
    requires k <= p < |listing| && OccurrenceThrows(listing[p], env, config)
    ensures StopsBy(listing, scan.s, ScanPage(scan, env, config, page).s, k, j, p)
  {
    Listing.PageResumes(listing, Rank, scan.s.cursor, k, PAGE_SIZE);
    var m := if k + PAGE_SIZE < |listing| then k + PAGE_SIZE else |listing|;
    j := k;
    assert listing[k..k] == [];
    if !scan.s.closed && env.listFails(page).None? {
      j := BlockedVisits(CloseIf(scan, env.closedInList(page)), listing, k, m, p, env, config);
    }
  }

  lemma {:induction false} BlockedPages(
    scan: Scan, listing: seq<Record>, k: nat, p: nat, env: Environment, config: Config, page: nat)
    returns (j: nat)
    requires ListingOrdered(listing) && env.listing == listing
    requires scan.status.Running? && At(listing, scan.s.cursor, k)
    requires k <= p < |listing| && OccurrenceThrows(listing[p], env, config)
    ensures StopsBy(listing, scan.s, ScanPages(scan, env, config, page).s, k, j, p)
    decreases config.maxPagesPerWake - page
  {
    j := k;
    assert listing[k..k] == [];
    UnfoldPages(scan, env, config, page);
    if page < config.maxPagesPerWake {
      var next := ScanPage(scan, env, config, page);
      var i := BlockedPage(scan, listing, k, p, env, config, page);
      j := i;
      if next.status.Running? {
        j := BlockedPages(next, listing, i, p, env, config, page + 1);
        StopsByJoins(listing, scan.s, next.s, ScanPages(next, env, config, page + 1).s, k, i, j, p);
      } else {
        UnfoldPages(next, env, config, page + 1);
      }
    }
  }

  lemma BlockedWake(s: Scheduler, listing: seq<Record>, k: nat, p: nat, env: Environment, config: Config)
    returns (j: nat)
    requires ListingOrdered(listing) && env.listing == listing && At(listing, s.cursor, k)
    requires k <= p < |listing| && OccurrenceThrows(listing[p], env, config)
    ensures StopsBy(listing, s, Wake(s, env, config), k, j, p)
  {
    j := k;
    assert listing[k..k] == [];
    var start := CloseIf(Scan(s, None, Running), env.closedInAdmission);
    if !s.closed && env.admission.None? && !start.s.closed {
      j := BlockedPages(start, listing, k, p, env, config, 0);
    }
  }

  /** A record whose occurrence throws at every wake blocks the listing: wakes that start at or before it deal with
      the records up to it at most, in order, and neither with it nor with any record after it, for ever. */
  lemma {:induction false} ThrowingRecordBlocks(
    s: Scheduler, listing: seq<Record>, k: nat, p: nat, envs: seq<Environment>, config: Config)
    returns (j: nat)
    requires ListingOrdered(listing) && At(listing, s.cursor, k) && k <= p < |listing|
    requires forall i | 0 <= i < |envs| ::
               envs[i].listing == listing && OccurrenceThrows(listing[p], envs[i], config)
    ensures k <= j <= p && At(listing, Wakes(s, envs, config).cursor, j)
    ensures Wakes(s, envs, config).history.processed == s.history.processed + listing[k..j]
    decreases |envs|
  {
    j := k;
    assert listing[k..k] == [];
    if envs != [] {
      var t := Wake(s, envs[0], config);
      var i := BlockedWake(s, listing, k, p, envs[0], config);
      j := ThrowingRecordBlocks(t, listing, i, p, envs[1..], config);
      StopsByJoins(listing, s, t, Wakes(t, envs[1..], config), k, i, j, p);
    }
  }
}
