/** What remembering completed occurrences may and may not change. */
module SchedulerMemory {
  import opened Wrappers
  import opened CompletedOccurrences
  import opened AutomationScheduling
  import opened SchedulerCycle
  import Listing

  // ---------- the map is a function of history ----------

  ghost predicate MapIsRecent(s: Scheduler, limit: nat) {
    s.completed == if limit == 0 then [] else MostRecent(s.history.remembered, limit)
  }

  lemma VisitKeepsMap(scan: Scan, r: Record, env: Environment, config: Config)
    requires MapIsRecent(scan.s, config.cacheLimit)
    ensures MapIsRecent(Visit(scan, r, env, config).s, config.cacheLimit)
  {
    var due := DueAt(r, env, config);
    if due.Some? {
      RenewKeepsMap(Log(scan, Skipped(KeyOf(r, due.value), r)), Identity(r, due.value), config.cacheLimit);
      TryKeepsMap(scan, r, due.value, env.attempt(r), config.cacheLimit);
    }
  }

  lemma RenewKeepsMap(scan: Scan, e: Entry, limit: nat)
    requires MapIsRecent(scan.s, limit)
    ensures MapIsRecent(RememberCompleted(scan, e, limit).s, limit)
  {
    if limit > 0 { RememberIsMostRecent(scan.s.history.remembered, e, limit); }
  }

  /** Two schedulers remember the same and have remembered the same. */
  ghost predicate SameMemory(s: Scheduler, t: Scheduler) {
    s.completed == t.completed && s.history.remembered == t.history.remembered
  }

  lemma TryKeepsMap(scan: Scan, r: Record, due: int, attempt: Attempt, limit: nat)
    requires MapIsRecent(scan.s, limit)
    ensures MapIsRecent(Try(scan, r, due, attempt, limit).s, limit)
  {
    var ran := Log(CloseIf(scan, attempt.close.DuringRun?), Committed(KeyOf(r, due), r));
    RenewKeepsMap(ran, Identity(r, due), limit);
    TryRemembersOnce(scan, r, due, attempt, limit, ran);
  }

  lemma TryRemembersOnce(scan: Scan, r: Record, due: int, attempt: Attempt, limit: nat, ran: Scan)
    requires ran == Log(CloseIf(scan, attempt.close.DuringRun?), Committed(KeyOf(r, due), r))
    ensures var after := Try(scan, r, due, attempt, limit).s;
            SameMemory(after, scan.s) || SameMemory(after, RememberCompleted(ran, Identity(r, due), limit).s)
  {
  }

  lemma {:induction false} VisitAllKeepsMap(scan: Scan, records: seq<Record>, env: Environment, config: Config)
    requires MapIsRecent(scan.s, config.cacheLimit)
    ensures MapIsRecent(VisitAll(scan, records, env, config).s, config.cacheLimit)
    decreases |records|
  {
    if records != [] && scan.status.Running? {
      VisitKeepsMap(scan, records[0], env, config);
      VisitAllKeepsMap(Visit(scan, records[0], env, config), records[1..], env, config);
    }
  }

  lemma PageKeepsMap(scan: Scan, env: Environment, config: Config, page: nat)
    requires MapIsRecent(scan.s, config.cacheLimit)
    ensures MapIsRecent(ScanPage(scan, env, config, page).s, config.cacheLimit)
  {
    var records := Listing.Page(env.listing, Rank, scan.s.cursor, PAGE_SIZE);
    VisitAllKeepsMap(CloseIf(scan, env.closedInList(page)), records, env, config);
  }

  lemma {:induction false} ScanPagesKeepsMap(scan: Scan, env: Environment, config: Config, page: nat)
    requires MapIsRecent(scan.s, config.cacheLimit)
    ensures MapIsRecent(ScanPages(scan, env, config, page).s, config.cacheLimit)
    decreases config.maxPagesPerWake - page
  {
    if scan.status.Running? && page < config.maxPagesPerWake {
      PageKeepsMap(scan, env, config, page);
      ScanPagesKeepsMap(ScanPage(scan, env, config, page), env, config, page + 1);
    }
  }

  lemma {:induction false} WakesKeepMap(s: Scheduler, envs: seq<Environment>, config: Config)
    requires MapIsRecent(s, config.cacheLimit)
    ensures MapIsRecent(Wakes(s, envs, config), config.cacheLimit)
    decreases |envs|
  {
    if envs != [] {
      ScanPagesKeepsMap(CloseIf(Scan(s, None, Running), envs[0].closedInAdmission), envs[0], config, 0);
      WakesKeepMap(Wake(s, envs[0], config), envs[1..], config);
    }
  }

  /** What a log of acts has to be remembered for: a run that was completed, now or at some earlier time. */
  function Entries(acts: seq<Act>): seq<Entry> {
    if acts == [] then [] else
    var last := acts[|acts| - 1];
    Entries(acts[..|acts| - 1]) + [Identity(last.record, last.key.scheduledFor)]
  }

  /** While the scheduler is open, every run it commits or skips is remembered. */
  ghost predicate AllRemembered(s: Scheduler, limit: nat) {
    !s.closed && limit > 0 ==> s.history.remembered == Entries(s.history.acts)
  }

  lemma LogRemembered(scan: Scan, act: Act, limit: nat)
    requires AllRemembered(scan.s, limit)
    ensures AllRemembered(RememberCompleted(Log(scan, act), Identity(act.record, act.key.scheduledFor), limit).s, limit)
  {
    var acts := scan.s.history.acts;
    assert (acts + [act])[..|acts|] == acts;
  }

  lemma VisitRemembers(scan: Scan, r: Record, env: Environment, config: Config)
    requires AllRemembered(scan.s, config.cacheLimit)
    ensures AllRemembered(Visit(scan, r, env, config).s, config.cacheLimit)
  {
    var due := DueAt(r, env, config);
    if due.Some? && !scan.s.closed {
      LogRemembered(scan, Skipped(KeyOf(r, due.value), r), config.cacheLimit);
      TryRemembers(scan, r, due.value, env.attempt(r), config.cacheLimit);
    }
  }

  lemma TryRemembers(scan: Scan, r: Record, due: int, attempt: Attempt, limit: nat)
    requires AllRemembered(scan.s, limit)
    ensures AllRemembered(Try(scan, r, due, attempt, limit).s, limit)
  {
    LogRemembered(CloseIf(scan, attempt.close.DuringRun?), Committed(KeyOf(r, due), r), limit);
  }

  lemma {:induction false} VisitAllRemembers(scan: Scan, records: seq<Record>, env: Environment, config: Config)
    requires AllRemembered(scan.s, config.cacheLimit)
    ensures AllRemembered(VisitAll(scan, records, env, config).s, config.cacheLimit)
    decreases |records|
  {
    if records != [] && scan.status.Running? {
      VisitRemembers(scan, records[0], env, config);
      VisitAllRemembers(Visit(scan, records[0], env, config), records[1..], env, config);
    }
  }

  lemma PageRemembers(scan: Scan, env: Environment, config: Config, page: nat)
    requires AllRemembered(scan.s, config.cacheLimit)
    ensures AllRemembered(ScanPage(scan, env, config, page).s, config.cacheLimit)
  {
    var records := Listing.Page(env.listing, Rank, scan.s.cursor, PAGE_SIZE);
    VisitAllRemembers(CloseIf(scan, env.closedInList(page)), records, env, config);
  }

  lemma {:induction false} ScanPagesRemember(scan: Scan, env: Environment, config: Config, page: nat)
    requires AllRemembered(scan.s, config.cacheLimit)
    ensures AllRemembered(ScanPages(scan, env, config, page).s, config.cacheLimit)
    decreases config.maxPagesPerWake - page
  {
    if scan.status.Running? && page < config.maxPagesPerWake {
      PageRemembers(scan, env, config, page);
      ScanPagesRemember(ScanPage(scan, env, config, page), env, config, page + 1);
    }
  }

  lemma {:induction false} WakesRemember(s: Scheduler, envs: seq<Environment>, config: Config)
    requires AllRemembered(s, config.cacheLimit)
    ensures AllRemembered(Wakes(s, envs, config), config.cacheLimit)
    decreases |envs|
  {
    if envs != [] {
      ScanPagesRemember(CloseIf(Scan(s, None, Running), envs[0].closedInAdmission), envs[0], config, 0);
      WakesRemember(Wake(s, envs[0], config), envs[1..], config);
    }
  }

  /** In every run the map holds exactly the most recently remembered distinct automations, up to the limit,
      each with its latest occurrence and in order of recency; it never outgrows the limit, and as long as the
      scheduler is open what it remembers is every run it committed or skipped. */
  lemma MapIsFunctionOfHistory(envs: seq<Environment>, config: Config)
    ensures var s := Wakes(Fresh(), envs, config);
            && s.completed == MostRecent(if config.cacheLimit == 0 then [] else s.history.remembered, config.cacheLimit)
            && |s.completed| <= config.cacheLimit
            && (!s.closed ==> s.completed == MostRecent(Entries(s.history.acts), config.cacheLimit))
  {
    WakesKeepMap(Fresh(), envs, config);
    WakesRemember(Fresh(), envs, config);
  }

  // ---------- skipping is harmless ----------

  /** The keys a log of acts has committed. */
  function CommittedKeys(acts: seq<Act>): set<IdempotencyKey> {
    set a | a in acts && a.Committed? :: a.key
  }

  function EntryKey(e: Entry): IdempotencyKey {
    IdempotencyKey(e.automation.automationId, e.occurrence.scheduledFor)
  }

  /** The same occurrence of one automation, under the same definition and on behalf of the same identities. */
  predicate SameRun(a: Act, b: Act) {
    && a.key == b.key && a.record.definitionDigest == b.record.definitionDigest
    && a.record.tenantId == b.record.tenantId && a.record.spaceId == b.record.spaceId
    && a.record.automationId == b.record.automationId
    && a.record.actorId == b.record.actorId && a.record.principalId == b.record.principalId
  }

  ghost predicate WasCommitted(acts: seq<Act>, act: Act) {
    exists a | a in acts :: a.Committed? && SameRun(a, act)
  }

  /** Every skipped run was committed earlier in the same log. */
  ghost predicate SkipsFollowCommits(acts: seq<Act>) {
    forall i | 0 <= i < |acts| && acts[i].Skipped? :: WasCommitted(acts[..i], acts[i])
  }

  /** An entry of the map stands for a run in the log. */
  ghost predicate RanFor(acts: seq<Act>, e: Entry) {
    exists a | a in acts :: a.Committed? && a.key == EntryKey(e) && Identity(a.record, a.key.scheduledFor) == e
  }

  ghost predicate Backed(s: Scheduler) {
    (forall e | e in s.completed :: RanFor(s.history.acts, e)) && SkipsFollowCommits(s.history.acts)
  }

  lemma CommittedSnoc(acts: seq<Act>, a: Act)
    ensures CommittedKeys(acts + [a]) == CommittedKeys(acts) + if a.Committed? then {a.key} else {}
  {
    assert forall b :: b in acts + [a] <==> b in acts || b == a;
  }

  lemma {:induction false} DeleteKeeps(map_: seq<Entry>, k: AutomationIdentity)
    ensures forall e | e in Delete(map_, k) :: e in map_
  {
    if map_ != [] { DeleteKeeps(map_[1..], k); }
  }

  lemma RememberBacked(scan: Scan, e: Entry, limit: nat)
    requires Backed(scan.s) && RanFor(scan.s.history.acts, e)
    ensures Backed(RememberCompleted(scan, e, limit).s)
  {
    DeleteKeeps(scan.s.completed, e.automation);
  }

  lemma LogBacked(scan: Scan, act: Act)
    requires Backed(scan.s) && (act.Skipped? ==> WasCommitted(scan.s.history.acts, act))
    ensures Backed(Log(scan, act).s)
    ensures forall e | RanFor(scan.s.history.acts, e) :: RanFor(Log(scan, act).s.history.acts, e)
  {
    var acts := scan.s.history.acts;
    forall i | 0 <= i < |acts + [act]| && (acts + [act])[i].Skipped?
      ensures WasCommitted((acts + [act])[..i], (acts + [act])[i])
    {
      assert (acts + [act])[..i] == acts[..i];
      if i == |acts| { assert acts[..i] == acts; }
    }
    forall e | RanFor(acts, e) ensures RanFor(acts + [act], e) {
      var a :| a in acts && a.Committed? && a.key == EntryKey(e) && Identity(a.record, a.key.scheduledFor) == e;
      assert a in acts + [act];
    }
  }

  lemma HitIsBacked(s: Scheduler, r: Record, due: int)
    requires Backed(s) && Hit(s, r, due)
    ensures RanFor(s.history.acts, Identity(r, due)) && WasCommitted(s.history.acts, Skipped(KeyOf(r, due), r))
    ensures KeyOf(r, due) in CommittedKeys(s.history.acts)
  {
    LookupFinds(s.completed, Identity(r, due).automation);
    var acts, e := s.history.acts, Identity(r, due);
    var a :| a in acts && a.Committed? && a.key == EntryKey(e) && Identity(a.record, a.key.scheduledFor) == e;
    assert SameRun(a, Skipped(KeyOf(r, due), r));
  }

  lemma VisitBacked(scan: Scan, r: Record, env: Environment, config: Config)
    requires Backed(scan.s)
    ensures Backed(Visit(scan, r, env, config).s)
  {
    var due := DueAt(r, env, config);
    if due.Some? && !scan.s.closed {
      if Hit(scan.s, r, due.value) {
        HitIsBacked(scan.s, r, due.value);
        LogBacked(scan, Skipped(KeyOf(r, due.value), r));
        RememberBacked(Log(scan, Skipped(KeyOf(r, due.value), r)), Identity(r, due.value), config.cacheLimit);
      } else {
        TryBacked(scan, r, due.value, env.attempt(r), config.cacheLimit);
      }
    }
  }

  lemma TryBacked(scan: Scan, r: Record, due: int, attempt: Attempt, limit: nat)
    requires Backed(scan.s)
    ensures Backed(Try(scan, r, due, attempt, limit).s)
  {
    var act, ran := Committed(KeyOf(r, due), r), CloseIf(scan, attempt.close.DuringRun?);
    LogBacked(ran, act);
    assert act in Log(ran, act).s.history.acts;
    assert RanFor(Log(ran, act).s.history.acts, Identity(r, due));
    RememberBacked(Log(ran, act), Identity(r, due), limit);
  }

  lemma {:induction false} VisitAllBacked(scan: Scan, records: seq<Record>, env: Environment, config: Config)
    requires Backed(scan.s)
    ensures Backed(VisitAll(scan, records, env, config).s)
    decreases |records|
  {
    if records != [] && scan.status.Running? {
      VisitBacked(scan, records[0], env, config);
      VisitAllBacked(Visit(scan, records[0], env, config), records[1..], env, config);
    }
  }

  lemma PageBacked(scan: Scan, env: Environment, config: Config, page: nat)
    requires Backed(scan.s)
    ensures Backed(ScanPage(scan, env, config, page).s)
  {
    var records := Listing.Page(env.listing, Rank, scan.s.cursor, PAGE_SIZE);
    VisitAllBacked(CloseIf(scan, env.closedInList(page)), records, env, config);
  }

  lemma {:induction false} ScanPagesBacked(scan: Scan, env: Environment, config: Config, page: nat)
    requires Backed(scan.s)
    ensures Backed(ScanPages(scan, env, config, page).s)
    decreases config.maxPagesPerWake - page
  {
    if scan.status.Running? && page < config.maxPagesPerWake {
      PageBacked(scan, env, config, page);
      ScanPagesBacked(ScanPage(scan, env, config, page), env, config, page + 1);
    }
  }

  lemma {:induction false} WakesBacked(s: Scheduler, envs: seq<Environment>, config: Config)
    requires Backed(s)
    ensures Backed(Wakes(s, envs, config))
    decreases |envs|
  {
    if envs != [] {
      ScanPagesBacked(CloseIf(Scan(s, None, Running), envs[0].closedInAdmission), envs[0], config, 0);
      WakesBacked(Wake(s, envs[0], config), envs[1..], config);
    }
  }

  /** Whatever happens, a run is skipped only after this scheduler completed one of the same occurrence of the same
      automation, under the same definition and for the same identities. */
  lemma SkippedOnlyAfterCompletion(envs: seq<Environment>, config: Config)
    ensures SkipsFollowCommits(Wakes(Fresh(), envs, config).history.acts)
  {
    WakesBacked(Fresh(), envs, config);
  }

  // ---------- the limit does not change what is committed ----------

  /** Two schedulers that differ at most in what they remember. */
  ghost predicate Twins(s: Scheduler, t: Scheduler) {
    && s.cursor == t.cursor && !s.closed && !t.closed
    && s.history.processed == t.history.processed
    && CommittedKeys(s.history.acts) == CommittedKeys(t.history.acts)
    && Backed(s) && Backed(t)
  }

  ghost predicate TwinScans(a: Scan, b: Scan) { Twins(a.s, b.s) && a.status.Running? == b.status.Running? }

  function NewKeys(r: Record, env: Environment, config: Config): set<IdempotencyKey> {
    var due := DueAt(r, env, config);
    if due.Some? && env.attempt(r).outcome.RunCompleted? then {KeyOf(r, due.value)} else {}
  }

  /** What one quiet visit of a due record adds to the committed keys, whether or not it is skipped. */
  lemma VisitCommits(scan: Scan, r: Record, env: Environment, config: Config)
    requires Backed(scan.s) && !scan.s.closed && scan.status.Running?
    requires Quiet(env, env.listing, config) && r in env.listing
    ensures CommittedKeys(Visit(scan, r, env, config).s.history.acts)
         == CommittedKeys(scan.s.history.acts) + NewKeys(r, env, config)
    ensures var after := Visit(scan, r, env, config);
            && after.s.cursor == Some(r.rank) && after.s.history.processed == scan.s.history.processed + [r]
            && after.status.Running? && !after.s.closed
  {
    QuietVisit(scan, r, env, config);
    var due := DueAt(r, env, config);
    if due.Some? {
      CommittedSnoc(scan.s.history.acts, Skipped(KeyOf(r, due.value), r));
      CommittedSnoc(scan.s.history.acts, Committed(KeyOf(r, due.value), r));
      if Hit(scan.s, r, due.value) { HitIsBacked(scan.s, r, due.value); }
    }
  }

  lemma TwinVisit(a: Scan, b: Scan, r: Record, env: Environment, c: Config, d: Config)
    requires TwinScans(a, b) && a.status.Running? && c.zones == d.zones
    requires Quiet(env, env.listing, c) && Quiet(env, env.listing, d) && r in env.listing
    ensures TwinScans(Visit(a, r, env, c), Visit(b, r, env, d))
  {
    VisitCommits(a, r, env, c);
    VisitCommits(b, r, env, d);
    VisitBacked(a, r, env, c);
    VisitBacked(b, r, env, d);
  }

  lemma {:induction false} TwinVisits(a: Scan, b: Scan, records: seq<Record>, env: Environment, c: Config, d: Config)
    requires TwinScans(a, b) && c.zones == d.zones && forall r | r in records :: r in env.listing
    requires Quiet(env, env.listing, c) && Quiet(env, env.listing, d)
    ensures TwinScans(VisitAll(a, records, env, c), VisitAll(b, records, env, d))
    decreases |records|
  {
    if records != [] && a.status.Running? {
      TwinVisit(a, b, records[0], env, c, d);
      TwinVisits(Visit(a, records[0], env, c), Visit(b, records[0], env, d), records[1..], env, c, d);
    }
  }

  lemma QuietForTwin(env: Environment, c: Config, d: Config)
    requires Quiet(env, env.listing, c) && c.zones == d.zones
    ensures Quiet(env, env.listing, d)
  {
    forall r | r in env.listing ensures !OccurrenceThrows(r, env, d) { assert !OccurrenceThrows(r, env, c); }
  }

  lemma {:induction false} TwinPages(a: Scan, b: Scan, env: Environment, c: Config, d: Config, page: nat)
    requires TwinScans(a, b) && Quiet(env, env.listing, c) && d == c.(cacheLimit := d.cacheLimit)
    ensures TwinScans(ScanPages(a, env, c, page), ScanPages(b, env, d, page))
    decreases c.maxPagesPerWake - page
  {
    if a.status.Running? && page < c.maxPagesPerWake {
      var records := Listing.Page(env.listing, Rank, a.s.cursor, PAGE_SIZE);
      assert !env.closedInList(page) && env.listFails(page).None?;
      QuietForTwin(env, c, d);
      Listing.AfterIsListed(env.listing, Rank, a.s.cursor);
      TwinVisits(CloseIf(a, env.closedInList(page)), CloseIf(b, env.closedInList(page)), records, env, c, d);
      TwinPages(ScanPage(a, env, c, page), ScanPage(b, env, d, page), env, c, d, page + 1);
    }
  }

  lemma {:induction false} TwinWakes(s: Scheduler, t: Scheduler, envs: seq<Environment>, c: Config, d: Config)
    requires Twins(s, t) && d == c.(cacheLimit := d.cacheLimit)
    requires forall i | 0 <= i < |envs| :: Quiet(envs[i], envs[i].listing, c)
    ensures Twins(Wakes(s, envs, c), Wakes(t, envs, d))
    decreases |envs|
  {
    if envs != [] {
      TwinPages(Scan(s, None, Running), Scan(t, None, Running), envs[0], c, d, 0);
      TwinWakes(Wake(s, envs[0], c), Wake(t, envs[0], d), envs[1..], c, d);
    }
  }

  /** When nothing refuses storage and call outcomes are fixed per record and wake, the committed keys and
      the order of visits are the same for every cache limit, including zero. */
  lemma CacheLimitIsIrrelevant(envs: seq<Environment>, config: Config, otherLimit: nat)
    requires forall i | 0 <= i < |envs| :: Quiet(envs[i], envs[i].listing, config)
    ensures var s, t := Wakes(Fresh(), envs, config), Wakes(Fresh(), envs, config.(cacheLimit := otherLimit));
            && CommittedKeys(s.history.acts) == CommittedKeys(t.history.acts)
            && s.history.processed == t.history.processed
  {
    TwinWakes(Fresh(), Fresh(), envs, config, config.(cacheLimit := otherLimit));
  }
}
