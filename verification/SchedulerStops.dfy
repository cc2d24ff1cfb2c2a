/** What ends a wake early: a refused admission, a failing page read, a close. */
module SchedulerStops {
  import opened Wrappers
  import opened AutomationScheduling
  import opened SchedulerRuns
  import Listing

  /** A wake that is refused admission, or closed while it asks for it, deals with nothing. */
  lemma UnadmittedWakeDealsWithNothing(s: Scheduler, env: Environment, config: Config)
    requires !s.closed && (env.admission.Some? || env.closedInAdmission)
    ensures Wake(s, env, config)
         == s.(closed := env.closedInAdmission, lastFailure := env.admission)
  {
  }

  lemma VisitAtMost(scan: Scan, r: Record, env: Environment, config: Config)
    ensures |Visit(scan, r, env, config).s.history.processed| <= |scan.s.history.processed| + 1
  {
    var due := DueAt(r, env, config);
    if due.Some? { TryAtMost(scan, r, due.value, env.attempt(r), config.cacheLimit); }
  }

  lemma TryAtMost(scan: Scan, r: Record, due: int, attempt: Attempt, limit: nat)
    ensures |Try(scan, r, due, attempt, limit).s.history.processed| <= |scan.s.history.processed| + 1
  {
  }

  lemma {:induction false} VisitsAtMost(scan: Scan, records: seq<Record>, env: Environment, config: Config)
    ensures |VisitAll(scan, records, env, config).s.history.processed| <= |scan.s.history.processed| + |records|
    decreases |records|
  {
    if records != [] && scan.status.Running? {
      VisitAtMost(scan, records[0], env, config);
      VisitsAtMost(Visit(scan, records[0], env, config), records[1..], env, config);
    }
  }

  lemma PageAtMost(scan: Scan, env: Environment, config: Config, page: nat)
    ensures var next := ScanPage(scan, env, config, page);
            && |next.s.history.processed| <= |scan.s.history.processed| + 100
            && (env.listFails(page).Some? || env.closedInList(page) || scan.s.closed ==>
                  next.s.history == scan.s.history && !next.status.Running?)
            && (scan.s.closed ==> next.s == scan.s)
  {
    var listed := CloseIf(scan, env.closedInList(page));
    var records := Listing.Page(env.listing, Rank, scan.s.cursor, PAGE_SIZE);
    VisitsAtMost(listed, records, env, config);
  }

  lemma {:induction false} ClosedPages(scan: Scan, env: Environment, config: Config, page: nat)
    requires scan.s.closed
    ensures ScanPages(scan, env, config, page).s == scan.s
    decreases config.maxPagesPerWake - page
  {
    UnfoldPages(scan, env, config, page);
    if scan.status.Running? && page < config.maxPagesPerWake {
      PageAtMost(scan, env, config, page);
      ClosedPages(ScanPage(scan, env, config, page), env, config, page + 1);
    }
  }

  lemma {:induction false} PagesAtMost(scan: Scan, env: Environment, config: Config, page: nat, p: nat)
    requires page <= p && (env.listFails(p).Some? || env.closedInList(p))
    ensures |ScanPages(scan, env, config, page).s.history.processed|
         <= |scan.s.history.processed| + 100 * (p - page)
    decreases config.maxPagesPerWake - page
  {
    UnfoldPages(scan, env, config, page);
    if scan.status.Running? && page < config.maxPagesPerWake {
      var next := ScanPage(scan, env, config, page);
      PageAtMost(scan, env, config, page);
      UnfoldPages(next, env, config, page + 1);
      if page < p { PagesAtMost(next, env, config, page + 1, p); }
    }
  }

  /** A wake whose read of page p fails, or during which the scheduler is closed, deals with the records of the pages
      before p at most. */
  lemma WakeEndsAtPage(s: Scheduler, env: Environment, config: Config, p: nat)
    requires env.listFails(p).Some? || env.closedInList(p)
    ensures |Wake(s, env, config).history.processed| <= |s.history.processed| + 100 * p
  {
    PagesAtMost(CloseIf(Scan(s, None, Running), env.closedInAdmission), env, config, 0, p);
  }

  /** The calls for a record that is tried go on long enough for the scheduler to be closed during one of them. */
  predicate Closes(attempt: Attempt) {
    || attempt.close.DuringLookup?
    || (attempt.close.DuringAdmission? && !attempt.outcome.LookupFailed?)
    || (attempt.close.DuringRun? && (attempt.outcome.RunFailed? || attempt.outcome.RunCompleted?))
  }

  ghost predicate SkippedSince(before: seq<Act>, after: seq<Act>, r: Record) {
    exists i :: |before| <= i < |after| && after[i].Skipped? && after[i].record == r
  }

  /** Trying none of records[..n] closed the scheduler. */
  ghost predicate OpenThrough(
    records: seq<Record>, n: int, env: Environment, config: Config, before: seq<Act>, after: seq<Act>)
  {
    forall i | 0 <= i < n && i < |records| ::
      DueAt(records[i], env, config).Some? && Closes(env.attempt(records[i])) ==>
        SkippedSince(before, after, records[i])
  }

  lemma OpenThroughGrows(records: seq<Record>, n: int, env: Environment, config: Config,
                         before: seq<Act>, after: seq<Act>, later: seq<Act>)
    requires OpenThrough(records, n, env, config, before, after) && after <= later
    ensures OpenThrough(records, n, env, config, before, later)
  {
    forall i | 0 <= i < n && i < |records| && SkippedSince(before, after, records[i])
      ensures SkippedSince(before, later, records[i])
    {
      var m :| |before| <= m < |after| && after[m].Skipped? && after[m].record == records[i];
      assert later[m].record == records[i];
    }
  }

  /** What visiting a record adds, and that a scan which stays open was not closed by the record's calls. */
  ghost predicate Adds(scan: Scan, after: Scan, r: Record, env: Environment, config: Config) {
    && scan.s.history.acts <= after.s.history.acts
    && after.s.history.processed == scan.s.history.processed + (if after.status.Running? then [r] else [])
    && (!after.s.closed && after.status.Running? && DueAt(r, env, config).Some? && Closes(env.attempt(r)) ==>
          SkippedSince(scan.s.history.acts, after.s.history.acts, r))
  }

  /** Trying a record that is not remembered closes the scheduler exactly when a call closes it, and a scheduler that
      is closed deals with no record. */
  lemma VisitCloses(scan: Scan, r: Record, env: Environment, config: Config)
    requires scan.status.Running?
    ensures Adds(scan, Visit(scan, r, env, config), r, env, config)
    ensures scan.s.closed ==> Visit(scan, r, env, config) == scan.(status := Returned)
  {
    var due := DueAt(r, env, config);
    if !scan.s.closed && due.Some? {
      if Hit(scan.s, r, due.value) {
        SkipAdds(scan, r, env, config, due.value);
      } else {
        TryAdds(scan, r, env, config, due.value);
      }
    }
  }

  /** A close that comes before the run has been asked for ends the scan at once: nothing is run, reported, remembered
      or dealt with. */
  lemma ClosedBeforeTheRun(scan: Scan, r: Record, env: Environment, config: Config)
    requires scan.status.Running? && !scan.s.closed && !OccurrenceThrows(r, env, config)
    requires DueAt(r, env, config).Some? && !Hit(scan.s, r, DueAt(r, env, config).value)
    requires var attempt := env.attempt(r);
             || (attempt.close.DuringLookup? && !attempt.outcome.LookupFailed?)
             || (attempt.close.DuringAdmission? && (attempt.outcome.RunFailed? || attempt.outcome.RunCompleted?))
    ensures Visit(scan, r, env, config) == scan.(s := scan.s.(closed := true), status := Returned)
  {
  }

  /** A run that completes as the scheduler closes is logged, but not remembered any more. */
  lemma ClosedDuringTheRun(scan: Scan, r: Record, env: Environment, config: Config)
    requires scan.status.Running? && !scan.s.closed && !OccurrenceThrows(r, env, config)
    requires DueAt(r, env, config).Some? && !Hit(scan.s, r, DueAt(r, env, config).value)
    requires env.attempt(r) == Attempt(RunCompleted, DuringRun)
    ensures var t := Visit(scan, r, env, config).s;
            && t.closed && t.completed == scan.s.completed && t.history.remembered == scan.s.history.remembered
            && t.history.acts == scan.s.history.acts + [Committed(KeyOf(r, DueAt(r, env, config).value), r)]
  {
  }

  lemma SkipAdds(scan: Scan, r: Record, env: Environment, config: Config, t: int)
    requires scan.status.Running?
    ensures var skipped := Log(scan, Skipped(KeyOf(r, t), r));
            Adds(scan, Advance(RememberCompleted(skipped, Identity(r, t), config.cacheLimit), r), r, env, config)
  {
    assert Log(scan, Skipped(KeyOf(r, t), r)).s.history.acts[|scan.s.history.acts|].record == r;
  }

  lemma TryAdds(scan: Scan, r: Record, env: Environment, config: Config, t: int)
    requires scan.status.Running?
    ensures Adds(scan, Try(scan, r, t, env.attempt(r), config.cacheLimit), r, env, config)
  {
  }

  /** Of the records a scan has dealt with since s, trying the last one at most closed the scheduler. */
  ghost predicate LastClosed(s: Scheduler, t: Scheduler, env: Environment, config: Config) {
    var before, after := s.history, t.history;
    && before.processed <= after.processed && before.acts <= after.acts
    && var dealt := after.processed[|before.processed|..];
       && OpenThrough(dealt, |dealt| - 1, env, config, before.acts, after.acts)
       && (!t.closed ==> OpenThrough(dealt, |dealt|, env, config, before.acts, after.acts))
  }

  lemma VisitLastCloses(s: Scheduler, scan: Scan, r: Record, env: Environment, config: Config)
    requires LastClosed(s, scan.s, env, config) && scan.status.Running?
    ensures LastClosed(s, Visit(scan, r, env, config).s, env, config)
  {
    VisitCloses(scan, r, env, config);
    var t, u, n := scan.s, Visit(scan, r, env, config).s, |s.history.processed|;
    var dealt := t.history.processed[n..];
    if !scan.s.closed {
      OpenThroughGrows(dealt, |dealt|, env, config, s.history.acts, t.history.acts, u.history.acts);
      if Visit(scan, r, env, config).status.Running? {
        assert u.history.processed[n..] == dealt + [r];
        OneMore(s, t, u, r, dealt, env, config);
      } else {
        assert u.history.processed[n..] == dealt;
      }
    }
  }

  lemma OneMore(
    s: Scheduler, t: Scheduler, u: Scheduler, r: Record, dealt: seq<Record>, env: Environment, config: Config)
    requires s.history.acts <= t.history.acts <= u.history.acts && s.history.processed <= t.history.processed
    requires u.history.processed == t.history.processed + [r] && dealt == t.history.processed[|s.history.processed|..]
    requires OpenThrough(dealt, |dealt|, env, config, s.history.acts, u.history.acts)
    requires !u.closed && DueAt(r, env, config).Some? && Closes(env.attempt(r)) ==>
               SkippedSince(t.history.acts, u.history.acts, r)
    ensures LastClosed(s, u, env, config)
  {
    var longer := dealt + [r];
    assert u.history.processed[|s.history.processed|..] == longer;
    assert forall i | 0 <= i < |dealt| :: longer[i] == dealt[i];
    if SkippedSince(t.history.acts, u.history.acts, r) { assert SkippedSince(s.history.acts, u.history.acts, r); }
  }

  lemma {:induction false} VisitsLastClose(
    s: Scheduler, scan: Scan, records: seq<Record>, env: Environment, config: Config)
    requires LastClosed(s, scan.s, env, config)
    ensures LastClosed(s, VisitAll(scan, records, env, config).s, env, config)
    decreases |records|
  {
    if records != [] && scan.status.Running? {
      VisitLastCloses(s, scan, records[0], env, config);
      VisitsLastClose(s, Visit(scan, records[0], env, config), records[1..], env, config);
    }
  }

  lemma {:induction false} PagesLastClose(s: Scheduler, scan: Scan, env: Environment, config: Config, page: nat)
    requires LastClosed(s, scan.s, env, config)
    ensures LastClosed(s, ScanPages(scan, env, config, page).s, env, config)
    decreases config.maxPagesPerWake - page
  {
    UnfoldPages(scan, env, config, page);
    if scan.status.Running? && page < config.maxPagesPerWake {
      VisitsLastClose(s, CloseIf(scan, env.closedInList(page)),
                      Listing.Page(env.listing, Rank, scan.s.cursor, PAGE_SIZE), env, config);
      PagesLastClose(s, ScanPage(scan, env, config, page), env, config, page + 1);
    }
  }

  /** A close takes effect at the record being tried: of all records a wake deals with, only the last can be one whose
      calls closed the scheduler. */
  lemma WakeEndsAtClose(s: Scheduler, env: Environment, config: Config)
    ensures LastClosed(s, Wake(s, env, config), env, config)
  {
    var start := CloseIf(Scan(s, None, Running), env.closedInAdmission);
    assert s.history.processed[|s.history.processed|..] == [];
    PagesLastClose(s, start, env, config, 0);
  }
}
