/** Which failure a wake reports, and when it reports none. */
module SchedulerFailures {
  import opened Wrappers
  import opened AutomationScheduling
  import opened SchedulerRuns
  import Listing

  /** A run of r was committed or skipped since `before`. */
  ghost predicate LoggedSince(before: seq<Act>, after: seq<Act>, r: Record) {
    exists i :: |before| <= i < |after| && after[i].record == r
  }

  /** Every record of listing[k..j] that was due has been run or skipped. */
  ghost predicate Clean(
    listing: seq<Record>, k: int, j: int, env: Environment, config: Config, before: seq<Act>, after: seq<Act>)
  {
    0 <= k <= j <= |listing|
    && forall i | k <= i < j :: DueAt(listing[i], env, config).Some? ==> LoggedSince(before, after, listing[i])
  }

  /** A call for the due record r fails with f. */
  predicate Fails(r: Record, env: Environment, config: Config, f: Failure) {
    DueAt(r, env, config).Some? && !env.attempt(r).outcome.RunCompleted? && env.attempt(r).outcome.failure == f
  }

  /** f is the first ordinary failure among listing[k..j]. */
  ghost predicate FirstFailure(listing: seq<Record>, k: int, j: int, env: Environment, config: Config,
                               before: seq<Act>, after: seq<Act>, f: Failure)
  {
    f.Other? && 0 <= k <= j <= |listing|
    && exists i | k <= i < j :: Fails(listing[i], env, config, f) && Clean(listing, k, i, env, config, before, after)
  }

  /** Where the records dealt with since `s` end, for a scan that began at position k. */
  function Reached(s: Scheduler, k: int, t: Scheduler): int { k + |t.history.processed| - |s.history.processed| }

  ghost predicate SoFar(
    s: Scheduler, listing: seq<Record>, k: int, env: Environment, config: Config, scan: Scan, j: int)
  {
    var before, after := s.history.acts, scan.s.history.acts;
    && j == Reached(s, k, scan.s) && 0 <= k <= j <= |listing|
    && (scan.firstFailure.None? ==> Clean(listing, k, j, env, config, before, after))
    && (scan.firstFailure.Some? ==>
          FirstFailure(listing, k, j, env, config, before, after, scan.firstFailure.value))
  }

  /** The scan came to the end of the listing or of its budget of pages of 100 records. */
  ghost predicate Ended(listing: seq<Record>, k: int, j: int, t: Scheduler, config: Config) {
    (j == |listing| && t.cursor == None) || j == k + 100 * config.maxPagesPerWake
  }

  ghost predicate ListingFailed(env: Environment, f: Failure) { exists page: nat :: env.listFails(page) == Some(f) }

  /** What a failure that ends the scan at position j is. */
  ghost predicate EndsScan(
    s: Scheduler, listing: seq<Record>, k: int, env: Environment, config: Config, scan: Scan, f: Failure)
  {
    var j := Reached(s, k, scan.s);
    || ListingFailed(env, f)
    || (0 <= j < |listing| && OccurrenceThrows(listing[j], env, config) && f == SCHEDULE_FAILURE)
    || (Ended(listing, k, j, scan.s, config)
        && FirstFailure(listing, k, j, env, config, s.history.acts, scan.s.history.acts, f))
  }

  /** A storage refusal met at the record the scan has come to. */
  ghost predicate Refused(
    s: Scheduler, listing: seq<Record>, k: int, env: Environment, config: Config, scan: Scan, f: Failure)
  {
    var j := Reached(s, k, scan.s);
    f.StorageAdmission? && 0 <= j < |listing| && Fails(listing[j], env, config, f)
  }

  /** How a scan that began at position k with the scheduler s ended. */
  ghost predicate Explained(
    s: Scheduler, listing: seq<Record>, k: int, env: Environment, config: Config, scan: Scan)
  {
    match scan.status
    case Running => true
    case Returned => scan.s.closed || EndedCleanly(s, listing, k, env, config, scan)
    case Threw(f) => EndsScan(s, listing, k, env, config, scan, f)
    case Stopped(f, r) => Refused(s, listing, k, env, config, scan, f)
  }

  ghost predicate EndedCleanly(
    s: Scheduler, listing: seq<Record>, k: int, env: Environment, config: Config, scan: Scan)
  {
    var j := Reached(s, k, scan.s);
    Ended(listing, k, j, scan.s, config) && Clean(listing, k, j, env, config, s.history.acts, scan.s.history.acts)
  }

  lemma CleanGrows(listing: seq<Record>, k: int, j: int, env: Environment, config: Config,
                   before: seq<Act>, after: seq<Act>, later: seq<Act>)
    requires Clean(listing, k, j, env, config, before, after) && after <= later
    ensures Clean(listing, k, j, env, config, before, later)
  {
    forall i | k <= i < j && DueAt(listing[i], env, config).Some? ensures LoggedSince(before, later, listing[i]) {
      var n :| |before| <= n < |after| && after[n].record == listing[i];
      assert later[n].record == listing[i];
    }
  }

  lemma FirstFailureStays(listing: seq<Record>, k: int, j: int, env: Environment, config: Config,
                          before: seq<Act>, after: seq<Act>, later: seq<Act>, f: Failure)
    requires FirstFailure(listing, k, j, env, config, before, after, f) && after <= later && j < |listing|
    ensures FirstFailure(listing, k, j, env, config, before, later, f)
    ensures FirstFailure(listing, k, j + 1, env, config, before, later, f)
  {
    var i :| k <= i < j && Fails(listing[i], env, config, f) && Clean(listing, k, i, env, config, before, after);
    CleanGrows(listing, k, i, env, config, before, after, later);
  }

  /** What visiting a record does to the log and to the first failure. */
  ghost predicate Fared(scan: Scan, after: Scan, r: Record, env: Environment, config: Config) {
    && scan.s.history.acts <= after.s.history.acts
    && match after.status
       case Running => FaredOn(scan, after, r, env, config)
       case Threw(f) => OccurrenceThrows(r, env, config) && f == SCHEDULE_FAILURE
       case Stopped(f, _) => f.StorageAdmission? && Fails(r, env, config, f)
       case Returned => after.s.closed
  }

  /** The scan goes on: the record was run or skipped if it was due, or its failure is now the first one. */
  ghost predicate FaredOn(scan: Scan, after: Scan, r: Record, env: Environment, config: Config) {
    || (after.firstFailure == scan.firstFailure
        && (DueAt(r, env, config).Some? ==>
              LoggedSince(scan.s.history.acts, after.s.history.acts, r) || scan.firstFailure.Some?))
    || (scan.firstFailure.None? && after.firstFailure.Some? && after.firstFailure.value.Other?
        && Fails(r, env, config, after.firstFailure.value))
  }

  lemma VisitFares(scan: Scan, r: Record, env: Environment, config: Config)
    requires scan.status.Running?
    ensures Fared(scan, Visit(scan, r, env, config), r, env, config)
  {
    var due := DueAt(r, env, config);
    if !scan.s.closed && due.Some? {
      if Hit(scan.s, r, due.value) {
        SkipFares(scan, r, env, config, due.value);
      } else {
        TryFares(scan, r, env, config, due.value);
      }
    }
  }

  lemma SkipFares(scan: Scan, r: Record, env: Environment, config: Config, t: int)
    requires scan.status.Running?
    ensures var skipped := Log(scan, Skipped(KeyOf(r, t), r));
            Fared(scan, Advance(RememberCompleted(skipped, Identity(r, t), config.cacheLimit), r), r, env, config)
  {
    assert Log(scan, Skipped(KeyOf(r, t), r)).s.history.acts[|scan.s.history.acts|].record == r;
  }

  lemma TryFares(scan: Scan, r: Record, env: Environment, config: Config, t: int)
    requires scan.status.Running? && DueAt(r, env, config) == Some(t)
    ensures Fared(scan, Try(scan, r, t, env.attempt(r), config.cacheLimit), r, env, config)
  {
    var after := Try(scan, r, t, env.attempt(r), config.cacheLimit);
    if env.attempt(r).outcome.RunCompleted? && after.status.Running? {
      assert after.s.history.acts[|scan.s.history.acts|].record == r;
    }
  }

  lemma VisitSoFar(
    s: Scheduler, listing: seq<Record>, k: int, env: Environment, config: Config, scan: Scan, j: nat)
    requires SoFar(s, listing, k, env, config, scan, j) && scan.status.Running? && j < |listing|
    requires At(listing, scan.s.cursor, j) && |s.history.acts| <= |scan.s.history.acts|
    ensures var after := Visit(scan, listing[j], env, config);
            && |s.history.acts| <= |after.s.history.acts|
            && (after.status.Running? ==> SoFar(s, listing, k, env, config, after, j + 1))
            && Explained(s, listing, k, env, config, after)
  {
    VisitOrder(scan, listing, j, env, config);
    VisitFares(scan, listing[j], env, config);
    var after := Visit(scan, listing[j], env, config);
    if after.status.Running? {
      FaresOn(s, listing, k, env, config, scan, after, j);
    }
  }

  lemma FaresOn(
    s: Scheduler, listing: seq<Record>, k: int, env: Environment, config: Config, scan: Scan, after: Scan, j: nat)
    requires SoFar(s, listing, k, env, config, scan, j) && j < |listing|
    requires |s.history.acts| <= |scan.s.history.acts| && scan.s.history.acts <= after.s.history.acts
    requires Reached(s, k, after.s) == j + 1
    requires FaredOn(scan, after, listing[j], env, config)
    ensures SoFar(s, listing, k, env, config, after, j + 1)
  {
    var before, now, later := s.history.acts, scan.s.history.acts, after.s.history.acts;
    if scan.firstFailure.Some? {
      FirstFailureStays(listing, k, j, env, config, before, now, later, scan.firstFailure.value);
    } else {
      CleanGrows(listing, k, j, env, config, before, now, later);
      if DueAt(listing[j], env, config).Some? && LoggedSince(now, later, listing[j]) {
        assert LoggedSince(before, later, listing[j]);
      }
    }
  }

  /** A page of records: either all are dealt with, or the scan ended at one of them. */
  lemma {:induction false} VisitAllSoFar(
    s: Scheduler, listing: seq<Record>, k: int, env: Environment, config: Config, scan: Scan, j: nat, m: nat)
    requires SoFar(s, listing, k, env, config, scan, j) && scan.status.Running? && j <= m <= |listing|
    requires At(listing, scan.s.cursor, j) && |s.history.acts| <= |scan.s.history.acts|
    ensures var after := VisitAll(scan, listing[j..m], env, config);
            && |s.history.acts| <= |after.s.history.acts|
            && (after.status.Running? ==>
                  SoFar(s, listing, k, env, config, after, m) && At(listing, after.s.cursor, m))
            && Explained(s, listing, k, env, config, after)
    decreases m - j
  {
    if j < m {
      assert listing[j..m][0] == listing[j] && listing[j..m][1..] == listing[j + 1..m];
      VisitSoFar(s, listing, k, env, config, scan, j);
      VisitOrder(scan, listing, j, env, config);
      if Visit(scan, listing[j], env, config).status.Running? {
        VisitAllSoFar(s, listing, k, env, config, Visit(scan, listing[j], env, config), j + 1, m);
      }
    }
  }

  lemma PageSoFar(
    s: Scheduler, listing: seq<Record>, k: int, env: Environment, config: Config, scan: Scan, j: nat, page: nat)
    requires ListingOrdered(listing) && env.listing == listing
    requires SoFar(s, listing, k, env, config, scan, j) && scan.status.Running?
    requires At(listing, scan.s.cursor, j) && |s.history.acts| <= |scan.s.history.acts|
    ensures var after := ScanPage(scan, env, config, page);
            && |s.history.acts| <= |after.s.history.acts|
            && (after.status.Running? ==> SoFar(s, listing, k, env, config, after, j + 100)
                                          && At(listing, after.s.cursor, j + 100))
            && Explained(s, listing, k, env, config, after)
  {
    Listing.PageResumes(listing, Rank, scan.s.cursor, j, PAGE_SIZE);
    var m := if j + PAGE_SIZE < |listing| then j + PAGE_SIZE else |listing|;
    var listed := CloseIf(scan, env.closedInList(page));
    if !scan.s.closed && env.listFails(page).None? {
      VisitAllSoFar(s, listing, k, env, config, listed, j, m);
      EndSoFar(s, listing, k, env, config, VisitAll(listed, listing[j..m], env, config), j, m);
    }
  }

  lemma EndSoFar(
    s: Scheduler, listing: seq<Record>, k: int, env: Environment, config: Config, visited: Scan, j: nat, m: nat)
    requires m == if j + PAGE_SIZE < |listing| then j + PAGE_SIZE else |listing|
    requires j <= |listing| && Explained(s, listing, k, env, config, visited)
    requires visited.status.Running? ==>
               SoFar(s, listing, k, env, config, visited, m) && At(listing, visited.s.cursor, m)
    ensures var after := EndPage(visited, m - j);
            && (after.status.Running? ==> SoFar(s, listing, k, env, config, after, j + 100)
                                          && At(listing, after.s.cursor, j + 100))
            && Explained(s, listing, k, env, config, after)
  {
  }

  lemma PageThen(
    s: Scheduler, listing: seq<Record>, k: int, env: Environment, config: Config, scan: Scan, j: nat, page: nat)
    returns (next: Scan)
    requires ListingOrdered(listing) && env.listing == listing && page < config.maxPagesPerWake
    requires SoFar(s, listing, k, env, config, scan, j) && scan.status.Running?
    requires At(listing, scan.s.cursor, j) && |s.history.acts| <= |scan.s.history.acts|
    ensures ScanPages(scan, env, config, page) == ScanPages(next, env, config, page + 1)
    ensures |s.history.acts| <= |next.s.history.acts|
    ensures next.status.Running? ==> SoFar(s, listing, k, env, config, next, j + 100)
                                     && At(listing, next.s.cursor, j + 100)
    ensures !next.status.Running? ==> ScanPages(next, env, config, page + 1) == next
                                      && Explained(s, listing, k, env, config, next)
  {
    next := ScanPage(scan, env, config, page);
    UnfoldPages(scan, env, config, page);
    PageSoFar(s, listing, k, env, config, scan, j, page);
    UnfoldPages(next, env, config, page + 1);
  }

  lemma FinishedIsExplained(
    s: Scheduler, listing: seq<Record>, k: int, env: Environment, config: Config, scan: Scan, j: nat)
    requires SoFar(s, listing, k, env, config, scan, j) && j == k + 100 * config.maxPagesPerWake
    ensures Explained(s, listing, k, env, config, Finished(scan)) && !Finished(scan).status.Running?
  {
  }

  lemma {:induction false} PagesSoFar(
    s: Scheduler, listing: seq<Record>, k: int, env: Environment, config: Config, scan: Scan, j: nat, page: nat,
    end: Scan)
    requires ListingOrdered(listing) && env.listing == listing
    requires SoFar(s, listing, k, env, config, scan, j) && scan.status.Running?
    requires At(listing, scan.s.cursor, j) && |s.history.acts| <= |scan.s.history.acts|
    requires j == k + 100 * page && page <= config.maxPagesPerWake && end == ScanPages(scan, env, config, page)
    ensures !end.status.Running? && Explained(s, listing, k, env, config, end)
    decreases config.maxPagesPerWake - page
  {
    if page < config.maxPagesPerWake {
      var next := PageThen(s, listing, k, env, config, scan, j, page);
      if next.status.Running? { PagesSoFar(s, listing, k, env, config, next, j + 100, page + 1, end); }
    } else {
      UnfoldPages(scan, env, config, page);
      FinishedIsExplained(s, listing, k, env, config, scan, j);
    }
  }

  /** What a wake that began at position k and has come to j may report. */
  ghost predicate Reports(
    s: Scheduler, listing: seq<Record>, k: int, j: int, env: Environment, config: Config, t: Scheduler)
  {
    var before, after := s.history.acts, t.history.acts;
    match t.lastFailure
    case None => t.closed || (Ended(listing, k, j, t, config) && Clean(listing, k, j, env, config, before, after))
    case Some(f) =>
      || env.admission == Some(f)
      || ListingFailed(env, f)
      || (0 <= j < |listing| && OccurrenceThrows(listing[j], env, config) && f == SCHEDULE_FAILURE)
      || (0 <= j < |listing| && f.StorageAdmission? && Fails(listing[j], env, config, f))
      || (Ended(listing, k, j, t, config) && FirstFailure(listing, k, j, env, config, before, after, f))
  }

  /** A wake that reports no failure was closed, or came to its end with every due record run or skipped. A failure it
      reports is that of its admission, of a page read, of the computation or the storage refusal at the record it
      came to, or, when it came to its end, the first ordinary failure of a record it dealt with. */
  lemma WakeReports(s: Scheduler, listing: seq<Record>, k: nat, env: Environment, config: Config)
    requires ListingOrdered(listing) && env.listing == listing && At(listing, s.cursor, k) && !s.closed
    ensures Reports(s, listing, k, Reached(s, k, Wake(s, env, config)), env, config, Wake(s, env, config))
  {
    var start := CloseIf(Scan(s, None, Running), env.closedInAdmission);
    if env.admission.None? && !start.s.closed {
      PagesSoFar(s, listing, k, env, config, start, k, 0, ScanPages(start, env, config, 0));
    }
  }
}
