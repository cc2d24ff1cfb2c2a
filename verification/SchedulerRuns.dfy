/** What the scheduler guarantees over whole runs of wakes. */
module SchedulerRuns {
  import opened Wrappers
  import opened AutomationScheduling
  import Listing

  // ---------- order: nothing is skipped, a stopped record is retried first ----------

  ghost predicate ListingOrdered(listing: seq<Record>) { Listing.Ordered(listing, Rank) }

  ghost predicate At(listing: seq<Record>, cursor: Option<int>, k: int) { Listing.At(listing, Rank, cursor, k) }

  /** The `count` records met when walking round the listing from position k. */
  function Trail(listing: seq<Record>, k: nat, count: nat): seq<Record>
    requires k <= |listing| && listing != []
    decreases count, k == |listing|
  {
    if count == 0 then []
    else if k == |listing| then Trail(listing, 0, count)
    else [listing[k]] + Trail(listing, k + 1, count - 1)
  }

  /** Where that walk stands afterwards; the end of the listing and its start are the same place. */
  function Walked(listing: seq<Record>, k: nat, count: nat): (position: nat)
    requires k <= |listing| && listing != []
    ensures position <= |listing|
    decreases count, k == |listing|
  {
    if count == 0 then k else if k == |listing| then Walked(listing, 0, count) else Walked(listing, k + 1, count - 1)
  }

  ghost predicate Stands(listing: seq<Record>, cursor: Option<int>, position: nat) {
    At(listing, cursor, position) || (position == |listing| && cursor == None)
  }

  lemma {:induction false} TrailSegment(listing: seq<Record>, k: nat, j: nat)
    requires k <= j <= |listing| && listing != []
    ensures Trail(listing, k, j - k) == listing[k..j] && Walked(listing, k, j - k) == j
    decreases j - k
  {
    if k < j { TrailSegment(listing, k + 1, j); }
  }

  lemma {:induction false} TrailJoins(listing: seq<Record>, k: nat, a: nat, b: nat)
    requires k <= |listing| && listing != []
    ensures Trail(listing, k, a + b) == Trail(listing, k, a) + Trail(listing, Walked(listing, k, a), b)
    ensures Walked(listing, k, a + b) == Walked(listing, Walked(listing, k, a), b)
    decreases a, k == |listing|
  {
    if a > 0 {
      if k == |listing| { TrailJoins(listing, 0, a, b); } else { TrailJoins(listing, k + 1, a - 1, b); }
    }
  }

  lemma WrapIsFree(listing: seq<Record>, count: nat)
    requires listing != []
    ensures Trail(listing, |listing|, count) == Trail(listing, 0, count)
    ensures count > 0 ==> Walked(listing, |listing|, count) == Walked(listing, 0, count)
  {
  }

  /** `after` has dealt with listing[k..j] more than `before`, and a record that stopped it is listing[j]. */
  ghost predicate Dealt(listing: seq<Record>, before: Scan, after: Scan, k: int, j: int) {
    && 0 <= k <= j <= |listing|
    && after.s.history.processed == before.s.history.processed + listing[k..j]
    && (after.status.Stopped? ==> j < |listing| && after.status.record == listing[j] && At(listing, after.s.cursor, j))
  }

  lemma VisitOrder(scan: Scan, listing: seq<Record>, k: nat, env: Environment, config: Config)
    requires scan.status.Running? && At(listing, scan.s.cursor, k) && k < |listing|
    ensures var after := Visit(scan, listing[k], env, config);
            var j := if after.status.Running? then k + 1 else k;
            Dealt(listing, scan, after, k, j) && At(listing, after.s.cursor, j)
  {
    assert listing[k..k + 1] == [listing[k]];
    var due := DueAt(listing[k], env, config);
    if !scan.s.closed && due.Some? && !Hit(scan.s, listing[k], due.value) {
      TryOrder(scan, listing[k], due.value, env.attempt(listing[k]), config.cacheLimit);
    }
  }

  lemma TryOrder(scan: Scan, r: Record, due: int, attempt: Attempt, limit: nat)
    requires scan.status.Running?
    ensures var after := Try(scan, r, due, attempt, limit);
            && (after.status.Running? ==>
                after.s.cursor == Some(r.rank) && after.s.history.processed == scan.s.history.processed + [r])
            && (!after.status.Running? ==>
                after.s.cursor == scan.s.cursor && after.s.history.processed == scan.s.history.processed)
            && (after.status.Stopped? ==> after.status.record == r)
  {
  }

  /** `after` has dealt with listing[k..j], stands there, and stopped before m only if it runs no more. */
  ghost predicate Visited(listing: seq<Record>, before: Scan, after: Scan, k: int, j: int, m: int) {
    && j <= m && Dealt(listing, before, after, k, j) && At(listing, after.s.cursor, j)
    && (after.status.Running? ==> j == m)
  }

  lemma VisitedJoins(listing: seq<Record>, a: Scan, b: Scan, c: Scan, k: int, j: int, m: int)
    requires Dealt(listing, a, b, k, k + 1) && Visited(listing, b, c, k + 1, j, m)
    ensures Visited(listing, a, c, k, j, m)
  {
    assert listing[k..k + 1] + listing[k + 1..j] == listing[k..j];
  }

  lemma {:induction false} VisitAllOrder(
    scan: Scan, listing: seq<Record>, k: nat, m: nat, env: Environment, config: Config)
    returns (j: nat)
    requires scan.status.Running? && At(listing, scan.s.cursor, k) && k <= m <= |listing|
    ensures k <= j <= m && Visited(listing, scan, VisitAll(scan, listing[k..m], env, config), k, j, m)
    decreases m - k
  {
    j := k;
    if k < m {
      var next := Visit(scan, listing[k], env, config);
      assert listing[k..m][0] == listing[k] && listing[k..m][1..] == listing[k + 1..m];
      VisitOrder(scan, listing, k, env, config);
      if next.status.Running? {
        j := VisitAllOrder(next, listing, k + 1, m, env, config);
        VisitedJoins(listing, scan, next, VisitAll(next, listing[k + 1..m], env, config), k, j, m);
      }
    }
  }

  /** `after` has dealt with listing[k..j] and stands there, or at the end of the listing. */
  ghost predicate PageDealt(listing: seq<Record>, before: Scan, after: Scan, k: int, j: int) {
    && Dealt(listing, before, after, k, j) && Stands(listing, after.s.cursor, j)
    && (after.status.Running? ==> At(listing, after.s.cursor, j))
  }

  lemma EndOrder(listing: seq<Record>, scan: Scan, listed: Scan, visited: Scan, k: nat, j: nat, m: nat)
    requires k <= |listing| && m == if k + PAGE_SIZE < |listing| then k + PAGE_SIZE else |listing|
    requires Visited(listing, listed, visited, k, j, m) && listed.s.history == scan.s.history
    ensures PageDealt(listing, scan, EndPage(visited, m - k), k, j)
  {
  }

  lemma PageOrder(scan: Scan, listing: seq<Record>, k: nat, env: Environment, config: Config, page: nat)
    returns (j: nat)
    requires ListingOrdered(listing) && env.listing == listing
    requires scan.status.Running? && At(listing, scan.s.cursor, k)
    ensures PageDealt(listing, scan, ScanPage(scan, env, config, page), k, j)
  {
    Listing.PageResumes(listing, Rank, scan.s.cursor, k, PAGE_SIZE);
    var m := if k + PAGE_SIZE < |listing| then k + PAGE_SIZE else |listing|;
    var listed := CloseIf(scan, env.closedInList(page));
    j := k;
    if !scan.s.closed && env.listFails(page).None? {
      j := VisitAllOrder(listed, listing, k, m, env, config);
      EndOrder(listing, scan, listed, VisitAll(listed, listing[k..m], env, config), k, j, m);
    }
  }

  lemma DealtJoins(listing: seq<Record>, a: Scan, b: Scan, c: Scan, k: int, i: int, j: int)
    requires Dealt(listing, a, b, k, i) && Dealt(listing, b, c, i, j)
    ensures Dealt(listing, a, c, k, j)
  {
    assert listing[k..i] + listing[i..j] == listing[k..j];
  }

  lemma UnfoldPages(scan: Scan, env: Environment, config: Config, page: nat)
    ensures !scan.status.Running? ==> ScanPages(scan, env, config, page) == scan
    ensures scan.status.Running? && page < config.maxPagesPerWake ==>
              ScanPages(scan, env, config, page) == ScanPages(ScanPage(scan, env, config, page), env, config, page + 1)
    ensures scan.status.Running? && page >= config.maxPagesPerWake ==>
              ScanPages(scan, env, config, page) == Finished(scan)
  {
  }

  lemma {:induction false} PagesOrder(
    scan: Scan, listing: seq<Record>, k: nat, env: Environment, config: Config, page: nat)
    returns (j: nat)
    requires ListingOrdered(listing) && env.listing == listing
    requires scan.status.Running? && At(listing, scan.s.cursor, k)
    ensures var after := ScanPages(scan, env, config, page);
            Dealt(listing, scan, after, k, j) && Stands(listing, after.s.cursor, j)
    decreases config.maxPagesPerWake - page
  {
    j := k;
    UnfoldPages(scan, env, config, page);
    if page < config.maxPagesPerWake {
      var next := ScanPage(scan, env, config, page);
      j := PageOrder(scan, listing, k, env, config, page);
      if next.status.Running? {
        var i := j;
        j := PagesOrder(next, listing, i, env, config, page + 1);
        DealtJoins(listing, scan, next, ScanPages(next, env, config, page + 1), k, i, j);
      } else {
        UnfoldPages(next, env, config, page + 1);
      }
    }
  }

  ghost predicate NextTried(listing: seq<Record>, cursor: Option<int>, r: Record) {
    var page := Listing.Page(listing, Rank, cursor, PAGE_SIZE);
    page != [] && page[0] == r
  }

  /** One wake deals with a contiguous run of records from where the cursor stands; if a storage refusal
      stops it at a record, that record is the next one the cursor leads to. */
  lemma WakeOrder(s: Scheduler, listing: seq<Record>, k: nat, env: Environment, config: Config) returns (j: nat)
    requires ListingOrdered(listing) && env.listing == listing && At(listing, s.cursor, k)
    ensures k <= j <= |listing|
    ensures Wake(s, env, config).history.processed == s.history.processed + listing[k..j]
    ensures Stands(listing, Wake(s, env, config).cursor, j)
    ensures !s.closed && ScanDue(s, env, config).status.Stopped? ==>
              j < |listing| && listing[j] == ScanDue(s, env, config).status.record
              && NextTried(listing, Wake(s, env, config).cursor, listing[j])
  {
    j := k;
    var start := CloseIf(Scan(s, None, Running), env.closedInAdmission);
    if !s.closed && env.admission.None? && !start.s.closed {
      j := PagesOrder(start, listing, k, env, config, 0);
      if ScanDue(s, env, config).status.Stopped? {
        Listing.PageResumes(listing, Rank, ScanDue(s, env, config).s.cursor, j, PAGE_SIZE);
      }
    }
  }

  /** `after` extends `before` by a walk round the listing from position k, and its cursor stands where it ends. */
  ghost predicate Toured(before: Scheduler, after: Scheduler, listing: seq<Record>, k: nat)
    requires k <= |listing| && listing != []
  {
    var count := |after.history.processed| - |before.history.processed|;
    && count >= 0
    && after.history.processed == before.history.processed + Trail(listing, k, count)
    && Stands(listing, after.cursor, Walked(listing, k, count))
  }

  /** Over any run of wakes on a fixed listing, with failing records, storage refusals, page budgets and
      closes anywhere, the records dealt with are those of a walk round the listing: none is skipped. */
  lemma {:induction false} NothingIsSkipped(
    s: Scheduler, listing: seq<Record>, k: nat, envs: seq<Environment>, config: Config)
    requires ListingOrdered(listing) && listing != [] && At(listing, s.cursor, k)
    requires forall i | 0 <= i < |envs| :: envs[i].listing == listing
    ensures Toured(s, Wakes(s, envs, config), listing, k)
    decreases |envs|
  {
    if envs != [] {
      var t := Wake(s, envs[0], config);
      var j := WakeOrder(s, listing, k, envs[0], config);
      var p := if At(listing, t.cursor, j) then j else 0;
      NothingIsSkipped(t, listing, p, envs[1..], config);
      TourJoins(s, t, Wakes(t, envs[1..], config), listing, k, j, p);
    }
  }

  lemma TourJoins(s: Scheduler, t: Scheduler, u: Scheduler, listing: seq<Record>, k: nat, j: nat, p: nat)
    requires listing != [] && k <= j <= |listing| && (p == j || (j == |listing| && p == 0))
    requires t.history.processed == s.history.processed + listing[k..j] && Toured(t, u, listing, p)
    ensures Toured(s, u, listing, k)
  {
    var rest := |u.history.processed| - |t.history.processed|;
    JoinWake(listing, k, j, p, rest);
    var trail := Trail(listing, p, rest);
    assert u.history.processed == s.history.processed + (listing[k..j] + trail);
  }

  lemma JoinWake(listing: seq<Record>, k: nat, j: nat, p: nat, rest: nat)
    requires listing != [] && k <= j <= |listing| && (p == j || (j == |listing| && p == 0))
    ensures Trail(listing, k, j - k + rest) == listing[k..j] + Trail(listing, p, rest)
    ensures Walked(listing, k, j - k + rest) == if rest == 0 then j else Walked(listing, p, rest)
  {
    TrailSegment(listing, k, j);
    TrailJoins(listing, k, j - k, rest);
    WrapIsFree(listing, rest);
  }

  // ---------- close ----------

  lemma {:induction false} WakesJoin(s: Scheduler, first: seq<Environment>, second: seq<Environment>, config: Config)
    ensures Wakes(s, first + second, config) == Wakes(Wakes(s, first, config), second, config)
    decreases |first|
  {
    if first == [] {
      assert first + second == second;
    } else {
      assert (first + second)[0] == first[0] && (first + second)[1..] == first[1..] + second;
      WakesJoin(Wake(s, first[0], config), first[1..], second, config);
    }
  }

  /** Closing is final: no later wake changes anything. */
  lemma {:induction false} ClosedForGood(s: Scheduler, envs: seq<Environment>, config: Config)
    ensures Wakes(Close(s), envs, config) == Close(s)
    decreases |envs|
  {
    if envs != [] { ClosedForGood(s, envs[1..], config); }
  }
}
