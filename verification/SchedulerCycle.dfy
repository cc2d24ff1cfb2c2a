/** With no stop, a cycle of wakes visits every record exactly once. */
module SchedulerCycle {
  import opened Wrappers
  import opened AutomationScheduling
  import opened SchedulerRuns
  import Listing

  /** Calls about a record may fail, but no storage is refused, no listing read and no occurrence computation
      fails, and nothing closes the scheduler. */
  ghost predicate Quiet(env: Environment, listing: seq<Record>, config: Config) {
    && env.listing == listing && env.admission.None? && !env.closedInAdmission
    && (forall page :: !env.closedInList(page) && env.listFails(page).None?)
    && (forall r | r in listing :: !OccurrenceThrows(r, env, config))
    && (forall r :: QuietAttempt(env.attempt(r)))
  }

  predicate QuietAttempt(attempt: Attempt) {
    attempt.close.NotClosed? && (attempt.outcome.RunCompleted? || attempt.outcome.failure.Other?)
  }

  lemma QuietVisit(scan: Scan, r: Record, env: Environment, config: Config)
    requires scan.status.Running? && !scan.s.closed && Quiet(env, env.listing, config) && r in env.listing
    ensures Visit(scan, r, env, config).status.Running? && !Visit(scan, r, env, config).s.closed
  {
    assert QuietAttempt(env.attempt(r));
  }

  lemma {:induction false} QuietVisits(scan: Scan, records: seq<Record>, env: Environment, config: Config)
    requires scan.status.Running? && !scan.s.closed && Quiet(env, env.listing, config)
    requires forall r | r in records :: r in env.listing
    ensures VisitAll(scan, records, env, config).status.Running? && !VisitAll(scan, records, env, config).s.closed
    decreases |records|
  {
    if records != [] {
      QuietVisit(scan, records[0], env, config);
      QuietVisits(Visit(scan, records[0], env, config), records[1..], env, config);
    }
  }

  /** `pages` quiet page reads from position k: each deals with its page, and a short page ends the cycle. */
  ghost predicate Advanced(before: Scheduler, after: Scheduler, listing: seq<Record>, k: nat, pages: nat) {
    var end := k + PAGE_SIZE * pages;
    && k <= |listing| && !after.closed
    && after.history.processed == before.history.processed + listing[k..Least(end, |listing|)]
    && (if end <= |listing| then At(listing, after.cursor, end) else after.cursor == None)
  }

  function Least(a: nat, b: nat): nat { if a < b then a else b }

  ghost predicate Paged(before: Scan, after: Scan, listing: seq<Record>, k: nat) {
    Advanced(before.s, after.s, listing, k, 1) && (after.status.Running? <==> k + PAGE_SIZE <= |listing|)
  }

  lemma QuietPage(scan: Scan, listing: seq<Record>, k: nat, env: Environment, config: Config, page: nat)
    requires ListingOrdered(listing) && Quiet(env, listing, config)
    requires scan.status.Running? && !scan.s.closed && At(listing, scan.s.cursor, k)
    ensures Paged(scan, ScanPage(scan, env, config, page), listing, k)
  {
    Listing.PageResumes(listing, Rank, scan.s.cursor, k, PAGE_SIZE);
    var m := if k + PAGE_SIZE < |listing| then k + PAGE_SIZE else |listing|;
    assert !env.closedInList(page) && env.listFails(page).None?;
    var listed := CloseIf(scan, env.closedInList(page));
    QuietRecords(listed, listing, k, m, env, config);
    QuietEnd(scan, VisitAll(listed, listing[k..m], env, config), listing, k, m);
  }

  lemma QuietEnd(scan: Scan, visited: Scan, listing: seq<Record>, k: nat, m: nat)
    requires k <= |listing| && m == if k + PAGE_SIZE < |listing| then k + PAGE_SIZE else |listing|
    requires visited.status.Running? && !visited.s.closed && At(listing, visited.s.cursor, m)
    requires visited.s.history.processed == scan.s.history.processed + listing[k..m]
    ensures Paged(scan, EndPage(visited, m - k), listing, k)
  {
  }

  lemma QuietRecords(scan: Scan, listing: seq<Record>, k: nat, m: nat, env: Environment, config: Config)
    requires Quiet(env, listing, config) && scan.status.Running? && !scan.s.closed
    requires At(listing, scan.s.cursor, k) && k <= m <= |listing|
    ensures var after := VisitAll(scan, listing[k..m], env, config);
            && after.status.Running? && !after.s.closed && At(listing, after.s.cursor, m)
            && after.s.history.processed == scan.s.history.processed + listing[k..m]
  {
    var j := VisitAllOrder(scan, listing, k, m, env, config);
    QuietVisits(scan, listing[k..m], env, config);
  }

  lemma {:induction false} QuietPages(
    scan: Scan, listing: seq<Record>, k: nat, env: Environment, config: Config, page: nat)
    requires ListingOrdered(listing) && Quiet(env, listing, config) && page <= config.maxPagesPerWake
    requires scan.status.Running? && !scan.s.closed && At(listing, scan.s.cursor, k)
    ensures Advanced(scan.s, ScanPages(scan, env, config, page).s, listing, k, config.maxPagesPerWake - page)
    decreases config.maxPagesPerWake - page
  {
    if page >= config.maxPagesPerWake {
      UnfoldPages(scan, env, config, page);
      AdvancedNowhere(scan.s, listing, k);
    } else if k + PAGE_SIZE > |listing| {
      LastQuietPage(scan, listing, k, env, config, page);
    } else {
      QuietPageOn(scan, listing, k, env, config, page);
      QuietPages(ScanPage(scan, env, config, page), listing, k + PAGE_SIZE, env, config, page + 1);
      FullQuietPage(scan, listing, k, env, config, page);
    }
  }

  lemma QuietPageOn(scan: Scan, listing: seq<Record>, k: nat, env: Environment, config: Config, page: nat)
    requires ListingOrdered(listing) && Quiet(env, listing, config) && k + PAGE_SIZE <= |listing|
    requires scan.status.Running? && !scan.s.closed && At(listing, scan.s.cursor, k)
    ensures var next := ScanPage(scan, env, config, page);
            && next.status.Running? && !next.s.closed && At(listing, next.s.cursor, k + PAGE_SIZE)
            && Advanced(scan.s, next.s, listing, k, 1)
  {
    QuietPage(scan, listing, k, env, config, page);
    AdvancedOn(scan.s, ScanPage(scan, env, config, page).s, listing, k, 1, k + PAGE_SIZE);
  }

  lemma LastQuietPage(scan: Scan, listing: seq<Record>, k: nat, env: Environment, config: Config, page: nat)
    requires ListingOrdered(listing) && Quiet(env, listing, config)
    requires page < config.maxPagesPerWake && k + PAGE_SIZE > |listing|
    requires scan.status.Running? && !scan.s.closed && At(listing, scan.s.cursor, k)
    ensures Advanced(scan.s, ScanPages(scan, env, config, page).s, listing, k, config.maxPagesPerWake - page)
  {
    var next := ScanPage(scan, env, config, page);
    QuietPage(scan, listing, k, env, config, page);
    UnfoldPages(scan, env, config, page);
    UnfoldPages(next, env, config, page + 1);
    AdvancedPastEnd(scan.s, next.s, listing, k, config.maxPagesPerWake - page);
  }

  lemma FullQuietPage(scan: Scan, listing: seq<Record>, k: nat, env: Environment, config: Config, page: nat)
    requires scan.status.Running? && page < config.maxPagesPerWake && k + PAGE_SIZE <= |listing|
    requires Advanced(scan.s, ScanPage(scan, env, config, page).s, listing, k, 1)
    requires Advanced(ScanPage(scan, env, config, page).s,
                      ScanPages(ScanPage(scan, env, config, page), env, config, page + 1).s,
                      listing, k + PAGE_SIZE, config.maxPagesPerWake - page - 1)
    ensures Advanced(scan.s, ScanPages(scan, env, config, page).s, listing, k, config.maxPagesPerWake - page)
  {
    var next := ScanPage(scan, env, config, page);
    UnfoldPages(scan, env, config, page);
    AdvancedJoins(scan.s, next.s, ScanPages(next, env, config, page + 1).s, listing, k,
                  config.maxPagesPerWake - page - 1);
  }

  lemma AdvancedNowhere(s: Scheduler, listing: seq<Record>, k: nat)
    requires !s.closed && At(listing, s.cursor, k)
    ensures Advanced(s, s, listing, k, 0)
  {
    assert listing[k..k] == [];
  }

  lemma AdvancedPastEnd(s: Scheduler, t: Scheduler, listing: seq<Record>, k: nat, pages: nat)
    requires Advanced(s, t, listing, k, 1) && k + PAGE_SIZE > |listing| && pages >= 1
    ensures Advanced(s, t, listing, k, pages)
  {
  }

  lemma AdvancedJoins(s: Scheduler, t: Scheduler, u: Scheduler, listing: seq<Record>, k: nat, pages: nat)
    requires Advanced(s, t, listing, k, 1) && k + PAGE_SIZE <= |listing|
    requires Advanced(t, u, listing, k + PAGE_SIZE, pages)
    ensures Advanced(s, u, listing, k, pages + 1)
  {
    var m, e := k + PAGE_SIZE, Least(k + PAGE_SIZE * (pages + 1), |listing|);
    assert listing[k..m] + listing[m..e] == listing[k..e];
  }

  lemma QuietWake(s: Scheduler, listing: seq<Record>, k: nat, env: Environment, config: Config)
    requires ListingOrdered(listing) && Quiet(env, listing, config) && !s.closed && At(listing, s.cursor, k)
    ensures Advanced(s, Wake(s, env, config), listing, k, config.maxPagesPerWake)
  {
    QuietPages(Scan(s, None, Running), listing, k, env, config, 0);
  }

  /** Page reads a cycle still needs from position k; the last one is short, even if it is empty. */
  function PagesLeft(n: nat, k: nat): nat
    requires k <= n
  {
    (n - k) / PAGE_SIZE + 1
  }

  function CeilDiv(a: nat, b: nat): nat
    requires b > 0
  {
    (a + b - 1) / b
  }

  lemma DivIs(a: int, b: int, q: int, r: int)
    requires 0 <= r < b && a == q * b + r
    ensures a / b == q
  {
    var d := a / b - q;
    assert d >= 1 ==> d * b >= b;
    assert d <= -1 ==> d * b <= -b;
    assert d * b == r - a % b;
  }

  lemma CeilDivStep(a: nat, b: nat)
    requires b > 0
    ensures a > b ==> CeilDiv(a, b) == CeilDiv(a - b, b) + 1
    ensures 0 < a <= b ==> CeilDiv(a, b) == 1
  {
    if a > b {
      DivIs(a + b - 1, b, (a - 1) / b + 1, (a - 1) % b);
    } else if 0 < a {
      DivIs(a + b - 1, b, 1, a - 1);
    }
  }

  lemma {:induction false} CycleFrom(s: Scheduler, listing: seq<Record>, k: nat, envs: seq<Environment>, config: Config)
    requires config.Valid() && ListingOrdered(listing) && !s.closed && At(listing, s.cursor, k)
    requires forall i | 0 <= i < |envs| :: Quiet(envs[i], listing, config)
    requires |envs| == CeilDiv(PagesLeft(|listing|, k), config.maxPagesPerWake)
    ensures var after := Wakes(s, envs, config);
            after.history.processed == s.history.processed + listing[k..] && after.cursor == None && !after.closed
    decreases |envs|
  {
    var budget := config.maxPagesPerWake;
    CycleCount(|listing|, k, budget, |envs|);
    QuietWake(s, listing, k, envs[0], config);
    var t, p := Wake(s, envs[0], config), k + PAGE_SIZE * budget;
    assert Wakes(s, envs, config) == Wakes(t, envs[1..], config);
    if p <= |listing| {
      AdvancedOn(s, t, listing, k, budget, p);
      CycleFrom(t, listing, p, envs[1..], config);
      CycleJoins(s, t, Wakes(t, envs[1..], config), listing, k, p);
    } else {
      AdvancedToEnd(s, t, listing, k, budget);
      assert envs[1..] == [];
    }
  }

  lemma AdvancedOn(s: Scheduler, t: Scheduler, listing: seq<Record>, k: nat, pages: nat, p: nat)
    requires Advanced(s, t, listing, k, pages) && p == k + PAGE_SIZE * pages <= |listing|
    ensures !t.closed && At(listing, t.cursor, p) && t.history.processed == s.history.processed + listing[k..p]
  {
  }

  lemma AdvancedToEnd(s: Scheduler, t: Scheduler, listing: seq<Record>, k: nat, pages: nat)
    requires Advanced(s, t, listing, k, pages) && k + PAGE_SIZE * pages > |listing|
    ensures !t.closed && t.cursor == None && t.history.processed == s.history.processed + listing[k..]
  {
  }

  /** How many wakes a cycle still takes, one wake later. */
  lemma CycleCount(n: nat, k: nat, budget: nat, count: nat)
    requires k <= n && budget > 0 && count == CeilDiv(PagesLeft(n, k), budget)
    ensures count > 0
    ensures k + PAGE_SIZE * budget <= n ==> count - 1 == CeilDiv(PagesLeft(n, k + PAGE_SIZE * budget), budget)
    ensures k + PAGE_SIZE * budget > n ==> count == 1
  {
    CeilDivStep(PagesLeft(n, k), budget);
    if k + PAGE_SIZE * budget <= n { LaterPagesLeft(n, k, budget); } else { LastPagesLeft(n, k, budget); }
  }

  lemma CycleJoins(s: Scheduler, t: Scheduler, u: Scheduler, listing: seq<Record>, k: nat, p: nat)
    requires k <= p <= |listing| && t.history.processed == s.history.processed + listing[k..p]
    requires u.history.processed == t.history.processed + listing[p..]
    ensures u.history.processed == s.history.processed + listing[k..]
  {
    assert listing[k..p] + listing[p..] == listing[k..];
  }

  lemma LaterPagesLeft(n: nat, k: nat, budget: nat)
    requires k + PAGE_SIZE * budget <= n
    ensures PagesLeft(n, k + PAGE_SIZE * budget) == PagesLeft(n, k) - budget > 0
  {
  }

  lemma LastPagesLeft(n: nat, k: nat, budget: nat)
    requires k <= n < k + PAGE_SIZE * budget
    ensures PagesLeft(n, k) <= budget
  {
  }

  /** The number of wakes one cycle takes. */
  function WakesPerCycle(listing: seq<Record>, config: Config): nat
    requires config.Valid()
  {
    (|listing| / PAGE_SIZE + 1 + config.maxPagesPerWake - 1) / config.maxPagesPerWake
  }

  /** From the start of a listing of n records, ceil((floor(n / 100) + 1) / maxPagesPerWake) wakes that are
      never stopped deal with every record exactly once, in order, and stand at the start again. */
  lemma CycleVisitsAllOnce(s: Scheduler, listing: seq<Record>, envs: seq<Environment>, config: Config)
    requires config.Valid() && ListingOrdered(listing) && !s.closed && s.cursor == None
    requires forall i | 0 <= i < |envs| :: Quiet(envs[i], listing, config)
    requires |envs| == WakesPerCycle(listing, config)
    ensures var after := Wakes(s, envs, config);
            after.history.processed == s.history.processed + listing && after.cursor == None && !after.closed
  {
    CycleFrom(s, listing, 0, envs, config);
  }

  /** The listing, m times over. */
  function Times(listing: seq<Record>, m: nat): seq<Record> { if m == 0 then [] else listing + Times(listing, m - 1) }

  ghost predicate AllQuiet(envs: seq<Environment>, listing: seq<Record>, config: Config) {
    forall i | 0 <= i < |envs| :: Quiet(envs[i], listing, config)
  }

  /** `after` has dealt with the listing m times over more than `before`, and stands open at its start. */
  ghost predicate Cycled(before: Scheduler, after: Scheduler, listing: seq<Record>, m: nat) {
    && after.history.processed == before.history.processed + Times(listing, m)
    && after.cursor == None && !after.closed
  }

  /** m cycles deal with the whole listing m times over, each time in order. */
  lemma {:induction false} CyclesRepeat(
    s: Scheduler, listing: seq<Record>, envs: seq<Environment>, config: Config, m: nat)
    requires config.Valid() && ListingOrdered(listing) && !s.closed && s.cursor == None
    requires AllQuiet(envs, listing, config) && |envs| == m * WakesPerCycle(listing, config)
    ensures Cycled(s, Wakes(s, envs, config), listing, m)
    decreases m
  {
    if m == 0 {
      assert s.history.processed + [] == s.history.processed;
    } else {
      var k := WakesPerCycle(listing, config);
      SplitEnvironments(envs, listing, config, m, k);
      var first, rest := envs[..k], envs[k..];
      var t := Wakes(s, first, config);
      CycleVisitsAllOnce(s, listing, first, config);
      CyclesRepeat(t, listing, rest, config, m - 1);
      WakesJoin(s, first, rest, config);
      CyclesJoin(s, t, Wakes(t, rest, config), listing, m);
    }
  }

  lemma CyclesJoin(s: Scheduler, t: Scheduler, u: Scheduler, listing: seq<Record>, m: nat)
    requires m > 0 && t.history.processed == s.history.processed + listing && Cycled(t, u, listing, m - 1)
    ensures Cycled(s, u, listing, m)
  {
    var done, later := s.history.processed, Times(listing, m - 1);
    assert (done + listing) + later == done + (listing + later);
  }

  lemma SplitEnvironments(envs: seq<Environment>, listing: seq<Record>, config: Config, m: nat, k: nat)
    requires m > 0 && |envs| == m * k && AllQuiet(envs, listing, config)
    ensures k <= |envs| && |envs[k..]| == (m - 1) * k && envs == envs[..k] + envs[k..]
    ensures AllQuiet(envs[..k], listing, config) && AllQuiet(envs[k..], listing, config)
  {
    assert m * k == k + (m - 1) * k;
  }
}
