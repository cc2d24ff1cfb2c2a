/** A scheduler that can remember every listed automation runs no occurrence twice. */
module SchedulerOnce {
  import opened Wrappers
  import opened Schedules
  import opened CompletedOccurrences
  import opened AutomationScheduling
  import opened SchedulerRuns
  import opened SchedulerDue
  import Listing

  type Offsets = Record -> int

  /** A listing of distinct automations, each with a well-formed schedule read at a constant offset. */
  ghost predicate Steady(listing: seq<Record>, offsets: Offsets, config: Config) {
    && (forall i, j | 0 <= i < j < |listing| :: listing[i].automationId != listing[j].automationId)
    && (forall r | r in listing :: ReadAt(r.schedule, offsets(r), config))
  }

  function OwnIdentity(r: Record): AutomationIdentity { AutomationIdentity(r.tenantId, r.spaceId, r.automationId) }

  /** An entry that stands for an occurrence of a listed record that was due by `now`. */
  ghost predicate Stems(e: Entry, r: Record, listing: seq<Record>, offsets: Offsets, now: int) {
    && r in listing && e == Identity(r, e.occurrence.scheduledFor) && r.schedule.nextRunAt.Some?
    && DueIn(r.schedule, offsets(r), e.occurrence.scheduledFor, now)
  }

  ghost predicate StemsFromSome(e: Entry, listing: seq<Record>, offsets: Offsets, now: int) {
    exists r :: Stems(e, r, listing, offsets, now)
  }

  /** The map has an entry of this record for t or a later occurrence. */
  ghost predicate Kept(map_: seq<Entry>, r: Record, t: int) {
    exists e | e in map_ :: e.automation == OwnIdentity(r) && t <= e.occurrence.scheduledFor
  }

  ghost predicate NoRepeat(acts: seq<Act>) {
    forall i, j | 0 <= i < j < |acts| && acts[i].Committed? && acts[j].Committed? :: acts[i].key != acts[j].key
  }

  /** Every committed run is one of a listed record and still covered by the map. */
  ghost predicate Covered(acts: seq<Act>, map_: seq<Entry>, closed: bool, listing: seq<Record>) {
    forall a | a in acts && a.Committed? ::
      && a.record in listing && a.key.automationId == a.record.automationId
      && (!closed ==> Kept(map_, a.record, a.key.scheduledFor))
  }

  ghost predicate Tidy(map_: seq<Entry>, listing: seq<Record>, offsets: Offsets, now: int) {
    DistinctKeys(map_) && forall e | e in map_ :: StemsFromSome(e, listing, offsets, now)
  }

  ghost predicate Once(s: Scheduler, listing: seq<Record>, offsets: Offsets, now: int) {
    && NoRepeat(s.history.acts) && Covered(s.history.acts, s.completed, s.closed, listing)
    && Tidy(s.completed, listing, offsets, now)
  }

  /** Everything about the listing and the clock that one wake relies on. */
  ghost predicate Suits(env: Environment, listing: seq<Record>, offsets: Offsets, config: Config, now: int) {
    && env.listing == listing && env.now == now
    && Steady(listing, offsets, config) && |listing| <= config.cacheLimit
  }

  lemma {:induction false} DeletedIsRest(map_: seq<Entry>, k: AutomationIdentity)
    ensures forall e :: e in Delete(map_, k) <==> e in map_ && e.automation != k
    ensures DistinctKeys(map_) ==> DistinctKeys(Delete(map_, k))
  {
    if map_ != [] {
      DeletedIsRest(map_[1..], k);
      var rest := Delete(map_[1..], k);
      if DistinctKeys(map_) {
        forall i | 0 <= i < |rest| ensures rest[i].automation != map_[0].automation {
          assert rest[i] in map_[1..];
        }
      }
    }
  }

  /** As many distinct automations as the map remembers are listed. */
  lemma NoMoreThanListed(map_: seq<Entry>, listing: seq<Record>, ids: set<AutomationIdentity>)
    requires DistinctKeys(map_) && ids == (set r | r in listing :: OwnIdentity(r))
    requires forall e | e in map_ :: e.automation in ids
    ensures |map_| <= |listing|
  {
    var seen := set i: nat | i < |map_| :: map_[i].automation;
    KeysCounted(map_, seen);
    assert seen <= ids by {
      forall k | k in seen ensures k in ids {
        var i: nat :| i < |map_| && map_[i].automation == k;
        assert map_[i] in map_;
      }
    }
    SubsetCounted(seen, ids);
    IdentitiesCounted(listing, ids);
  }

  lemma SubsetCounted<T>(a: set<T>, b: set<T>)
    requires a <= b
    ensures |a| <= |b|
  {
    assert b == a + (b - a);
  }

  lemma {:induction false} KeysCounted(map_: seq<Entry>, seen: set<AutomationIdentity>)
    requires DistinctKeys(map_) && seen == set i: nat | i < |map_| :: map_[i].automation
    ensures |seen| == |map_|
  {
    if map_ != [] {
      var last := map_[|map_| - 1].automation;
      var rest := map_[..|map_| - 1];
      var others := set i: nat | i < |rest| :: rest[i].automation;
      assert seen == others + {last} by {
        forall k | k in seen ensures k in others + {last} {
          var i: nat :| i < |map_| && map_[i].automation == k;
          if i < |rest| { assert rest[i].automation == k; }
        }
        forall k | k in others ensures k in seen {
          var i: nat :| i < |rest| && rest[i].automation == k;
          assert map_[i].automation == k;
        }
      }
      KeysCounted(rest, others);
    }
  }

  lemma {:induction false} IdentitiesCounted(listing: seq<Record>, ids: set<AutomationIdentity>)
    requires ids == set r | r in listing :: OwnIdentity(r)
    ensures |ids| <= |listing|
  {
    if listing != [] {
      var last := OwnIdentity(listing[|listing| - 1]);
      var rest := listing[..|listing| - 1];
      var others := set r | r in rest :: OwnIdentity(r);
      assert listing == rest + [listing[|listing| - 1]];
      assert ids == others + {last};
      IdentitiesCounted(rest, others);
    }
  }

  /** Remembering an occurrence of a listed record evicts no other entry. */
  lemma RememberKeepsAll(map_: seq<Entry>, e: Entry, r: Record, listing: seq<Record>, offsets: Offsets, now: int,
                         limit: nat)
    requires Tidy(map_, listing, offsets, now) && Stems(e, r, listing, offsets, now) && |listing| <= limit
    ensures Remember(map_, e, limit) == Delete(map_, e.automation) + [e]
    ensures Tidy(Remember(map_, e, limit), listing, offsets, now)
  {
    DeletedIsRest(map_, e.automation);
    var renewed := Delete(map_, e.automation) + [e];
    assert DistinctKeys(renewed) by {
      forall i | 0 <= i < |renewed| - 1 ensures renewed[i].automation != e.automation {
        assert renewed[i] in Delete(map_, e.automation);
      }
    }
    assert StemsFromSome(e, listing, offsets, now);
    var ids := set q | q in listing :: OwnIdentity(q);
    forall f | f in renewed ensures StemsFromSome(f, listing, offsets, now) && f.automation in ids {
      var q :| Stems(f, q, listing, offsets, now);
      assert OwnIdentity(q) in ids;
    }
    NoMoreThanListed(renewed, listing, ids);
    assert limit > 0;
  }

  /** Every committed run stays covered by the map with the entry of r renewed at t. */
  lemma RenewedCovers(acts: seq<Act>, map_: seq<Entry>, listing: seq<Record>, r: Record, t: int, renewed: seq<Entry>)
    requires Covered(acts, map_, false, listing)
    requires renewed == Delete(map_, OwnIdentity(r)) + [Identity(r, t)]
    requires forall e | e in map_ && e.automation == OwnIdentity(r) :: e.occurrence.scheduledFor <= t
    ensures Covered(acts, renewed, false, listing) && Kept(renewed, r, t)
  {
    DeletedIsRest(map_, OwnIdentity(r));
    assert Identity(r, t) in renewed;
    forall a | a in acts && a.Committed? ensures Kept(renewed, a.record, a.key.scheduledFor) {
      var e :| e in map_ && e.automation == OwnIdentity(a.record) && a.key.scheduledFor <= e.occurrence.scheduledFor;
      if e.automation == OwnIdentity(r) {
        assert Identity(r, t) in renewed && a.key.scheduledFor <= t;
      } else {
        assert e in Delete(map_, OwnIdentity(r));
        assert e in renewed;
      }
    }
  }

  /** The occurrence now due is no earlier than any the map remembers of the record. */
  lemma RememberedIsEarlier(map_: seq<Entry>, e: Entry, r: Record, listing: seq<Record>, offsets: Offsets,
                            config: Config, now: int, t: int)
    requires Steady(listing, offsets, config) && Tidy(map_, listing, offsets, now) && e in map_ && r in listing
    requires e.automation == OwnIdentity(r) && LatestDue(r.schedule, offsets(r), now, t)
    ensures e.occurrence.scheduledFor <= t && e == Identity(r, e.occurrence.scheduledFor)
  {
    assert StemsFromSome(e, listing, offsets, now);
    var q :| Stems(e, q, listing, offsets, now);
    SameAutomation(listing, offsets, config, q, r);
  }

  lemma SameAutomation(listing: seq<Record>, offsets: Offsets, config: Config, q: Record, r: Record)
    requires Steady(listing, offsets, config) && q in listing && r in listing && q.automationId == r.automationId
    ensures q == r
  {
    var i :| 0 <= i < |listing| && listing[i] == q;
    var j :| 0 <= j < |listing| && listing[j] == r;
  }

  /** A run that was committed before is remembered when its occurrence is still the latest due. */
  lemma CommittedIsHit(s: Scheduler, a: Act, r: Record, listing: seq<Record>, offsets: Offsets, config: Config,
                       now: int, t: int)
    requires Steady(listing, offsets, config) && Once(s, listing, offsets, now) && !s.closed && r in listing
    requires LatestDue(r.schedule, offsets(r), now, t)
    requires a in s.history.acts && a.Committed? && a.key == KeyOf(r, t)
    ensures Hit(s, r, t)
  {
    SameAutomation(listing, offsets, config, a.record, r);
    var e :| e in s.completed && e.automation == OwnIdentity(a.record) && t <= e.occurrence.scheduledFor;
    RememberedIsEarlier(s.completed, e, r, listing, offsets, config, now, t);
    LookupIsMembership(s.completed, e);
  }

  lemma VisitKeepsOnce(scan: Scan, r: Record, env: Environment, config: Config, offsets: Offsets)
    requires Suits(env, env.listing, offsets, config, env.now) && r in env.listing
    requires Once(scan.s, env.listing, offsets, env.now)
    ensures Once(Visit(scan, r, env, config).s, env.listing, offsets, env.now)
  {
    DueAtIsLatest(r, env, config, offsets(r));
    var due := DueAt(r, env, config);
    if due.Some? && !scan.s.closed {
      if Hit(scan.s, r, due.value) {
        SkipKeepsOnce(scan, r, env, config, offsets, due.value);
      } else {
        TryKeepsOnce(scan, r, env, config, offsets, due.value);
      }
    }
  }

  lemma SkipKeepsOnce(scan: Scan, r: Record, env: Environment, config: Config, offsets: Offsets, t: int)
    requires Suits(env, env.listing, offsets, config, env.now) && r in env.listing && !scan.s.closed
    requires Once(scan.s, env.listing, offsets, env.now) && LatestDue(r.schedule, offsets(r), env.now, t)
    ensures var skipped := Log(scan, Skipped(KeyOf(r, t), r));
            Once(RememberCompleted(skipped, Identity(r, t), config.cacheLimit).s, env.listing, offsets, env.now)
  {
    RenewKeepsOnce(Log(scan, Skipped(KeyOf(r, t), r)), r, env, config, offsets, t);
  }

  /** Remembering the latest due occurrence keeps everything covered, and covers that occurrence. */
  lemma RenewKeepsOnce(scan: Scan, r: Record, env: Environment, config: Config, offsets: Offsets, t: int)
    requires Suits(env, env.listing, offsets, config, env.now) && r in env.listing && !scan.s.closed
    requires Once(scan.s, env.listing, offsets, env.now) && LatestDue(r.schedule, offsets(r), env.now, t)
    ensures var after := RememberCompleted(scan, Identity(r, t), config.cacheLimit).s;
            Once(after, env.listing, offsets, env.now) && Kept(after.completed, r, t)
  {
    var map_, e := scan.s.completed, Identity(r, t);
    assert Stems(e, r, env.listing, offsets, env.now);
    RememberKeepsAll(map_, e, r, env.listing, offsets, env.now, config.cacheLimit);
    forall f | f in map_ && f.automation == OwnIdentity(r) ensures f.occurrence.scheduledFor <= t {
      RememberedIsEarlier(map_, f, r, env.listing, offsets, config, env.now, t);
    }
    RenewedCovers(scan.s.history.acts, map_, env.listing, r, t, Delete(map_, e.automation) + [e]);
  }

  lemma TryKeepsOnce(scan: Scan, r: Record, env: Environment, config: Config, offsets: Offsets, t: int)
    requires Suits(env, env.listing, offsets, config, env.now) && r in env.listing && !scan.s.closed
    requires Once(scan.s, env.listing, offsets, env.now) && LatestDue(r.schedule, offsets(r), env.now, t)
    requires !Hit(scan.s, r, t)
    ensures Once(Try(scan, r, t, env.attempt(r), config.cacheLimit).s, env.listing, offsets, env.now)
  {
    var attempt := env.attempt(r);
    if attempt.outcome.RunCompleted? && !attempt.close.DuringLookup? && !attempt.close.DuringAdmission? {
      var renewed := RememberCompleted(scan, Identity(r, t), config.cacheLimit).s;
      RenewKeepsOnce(scan, r, env, config, offsets, t);
      NotCommittedYet(scan.s, r, env, config, offsets, t);
      var after := Try(scan, r, t, attempt, config.cacheLimit).s;
      assert after.history.acts == scan.s.history.acts + [Committed(KeyOf(r, t), r)];
      CommitKeepsOnce(scan.s, renewed, after, r, t, env.listing, offsets, env.now);
    }
  }

  lemma NotCommittedYet(s: Scheduler, r: Record, env: Environment, config: Config, offsets: Offsets, t: int)
    requires Suits(env, env.listing, offsets, config, env.now) && r in env.listing && !s.closed && !Hit(s, r, t)
    requires Once(s, env.listing, offsets, env.now) && LatestDue(r.schedule, offsets(r), env.now, t)
    ensures forall a | a in s.history.acts && a.Committed? :: a.key != KeyOf(r, t)
  {
    forall a | a in s.history.acts && a.Committed? ensures a.key != KeyOf(r, t) {
      if a.key == KeyOf(r, t) { CommittedIsHit(s, a, r, env.listing, offsets, config, env.now, t); }
    }
  }

  lemma CommitKeepsOnce(s: Scheduler, renewed: Scheduler, after: Scheduler, r: Record, t: int, listing: seq<Record>,
                        offsets: Offsets, now: int)
    requires Once(s, listing, offsets, now) && Once(renewed, listing, offsets, now) && r in listing
    requires renewed.history.acts == s.history.acts && !renewed.closed && Kept(renewed.completed, r, t)
    requires after.history.acts == s.history.acts + [Committed(KeyOf(r, t), r)]
    requires after.completed == renewed.completed || (after.closed && after.completed == s.completed)
    requires forall a | a in s.history.acts && a.Committed? :: a.key != KeyOf(r, t)
    ensures Once(after, listing, offsets, now)
  {
    forall a | a in after.history.acts && a.Committed?
      ensures a.record in listing && a.key.automationId == a.record.automationId
      ensures !after.closed ==> Kept(after.completed, a.record, a.key.scheduledFor)
    {
      assert a in s.history.acts || a == Committed(KeyOf(r, t), r);
    }
  }

  lemma {:induction false} VisitsKeepOnce(
    scan: Scan, records: seq<Record>, env: Environment, config: Config, offsets: Offsets)
    requires Suits(env, env.listing, offsets, config, env.now) && forall r | r in records :: r in env.listing
    requires Once(scan.s, env.listing, offsets, env.now)
    ensures Once(VisitAll(scan, records, env, config).s, env.listing, offsets, env.now)
    decreases |records|
  {
    if records != [] && scan.status.Running? {
      VisitKeepsOnce(scan, records[0], env, config, offsets);
      VisitsKeepOnce(Visit(scan, records[0], env, config), records[1..], env, config, offsets);
    }
  }

  lemma PageKeepsOnce(scan: Scan, env: Environment, config: Config, offsets: Offsets, page: nat)
    requires Suits(env, env.listing, offsets, config, env.now) && Once(scan.s, env.listing, offsets, env.now)
    ensures Once(ScanPage(scan, env, config, page).s, env.listing, offsets, env.now)
  {
    Listing.AfterIsListed(env.listing, Rank, scan.s.cursor);
    VisitsKeepOnce(CloseIf(scan, env.closedInList(page)),
                   Listing.Page(env.listing, Rank, scan.s.cursor, PAGE_SIZE), env, config, offsets);
  }

  lemma {:induction false} PagesKeepOnce(scan: Scan, env: Environment, config: Config, offsets: Offsets, page: nat)
    requires Suits(env, env.listing, offsets, config, env.now) && Once(scan.s, env.listing, offsets, env.now)
    ensures Once(ScanPages(scan, env, config, page).s, env.listing, offsets, env.now)
    decreases config.maxPagesPerWake - page
  {
    UnfoldPages(scan, env, config, page);
    if scan.status.Running? && page < config.maxPagesPerWake {
      PageKeepsOnce(scan, env, config, offsets, page);
      PagesKeepOnce(ScanPage(scan, env, config, page), env, config, offsets, page + 1);
    }
  }

  lemma LaterKeepsOnce(s: Scheduler, listing: seq<Record>, offsets: Offsets, earlier: int, later: int)
    requires Once(s, listing, offsets, earlier) && earlier <= later
    ensures Once(s, listing, offsets, later)
  {
    forall e | e in s.completed ensures StemsFromSome(e, listing, offsets, later) {
      var r :| Stems(e, r, listing, offsets, earlier);
      assert Stems(e, r, listing, offsets, later);
    }
  }

  /** The clock never goes back from one wake to the next, and starts no earlier than `now`. */
  ghost predicate Forward(envs: seq<Environment>, now: int) {
    && (forall i | 0 <= i < |envs| :: now <= envs[i].now)
    && (forall i, j | 0 <= i < j < |envs| :: envs[i].now <= envs[j].now)
  }

  lemma {:induction false} WakesKeepOnce(
    s: Scheduler, listing: seq<Record>, envs: seq<Environment>, config: Config, offsets: Offsets, now: int)
    requires Steady(listing, offsets, config) && |listing| <= config.cacheLimit && Forward(envs, now)
    requires forall i | 0 <= i < |envs| :: envs[i].listing == listing
    requires Once(s, listing, offsets, now)
    ensures NoRepeat(Wakes(s, envs, config).history.acts)
    decreases |envs|
  {
    if envs != [] {
      var env := envs[0];
      LaterKeepsOnce(s, listing, offsets, now, env.now);
      PagesKeepOnce(CloseIf(Scan(s, None, Running), env.closedInAdmission), env, config, offsets, 0);
      WakesKeepOnce(Wake(s, env, config), listing, envs[1..], config, offsets, env.now);
    }
  }

  /** On a fixed listing of no more automations than the map can hold, with a clock that never goes back, no run is
      ever committed twice, whatever fails, refuses storage, runs out of budget or closes. */
  lemma NoRunTwice(listing: seq<Record>, envs: seq<Environment>, config: Config, offsets: Offsets, i: nat, j: nat)
    requires Steady(listing, offsets, config) && |listing| <= config.cacheLimit
    requires forall k | 0 <= k < |envs| :: envs[k].listing == listing
    requires forall k, l | 0 <= k < l < |envs| :: envs[k].now <= envs[l].now
    requires i < j < |Wakes(Fresh(), envs, config).history.acts|
    ensures var acts := Wakes(Fresh(), envs, config).history.acts;
            acts[i].Committed? && acts[j].Committed? ==> acts[i].key != acts[j].key
  {
    WakesKeepOnce(Fresh(), listing, envs, config, offsets, if envs == [] then 0 else envs[0].now);
  }
}
