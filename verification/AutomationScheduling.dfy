/** The automation scheduler: a resumable, budgeted, paged scan that skips occurrences it remembers
    having completed. */
module AutomationScheduling {
  import opened Wrappers
  import opened Schedules
  import opened CompletedOccurrences
  import LocalTime
  import Listing

  const PAGE_SIZE: nat := 100

  datatype Record = Record(
    rank: int,  // of its list cursor (updatedAt, automationId) in the listing's order
    tenantId: string,
    spaceId: string,
    automationId: string,
    actorId: string,
    principalId: Option<string>,
    definitionDigest: string,
    schedule: Schedule)

  datatype Failure = StorageAdmission(code: string) | Other(code: string)

  datatype IdempotencyKey = IdempotencyKey(automationId: string, scheduledFor: int)

  /** What the awaited calls for one due record answer, and during which of them the scheduler is closed. */
  datatype Outcome =
    | LookupFailed(failure: Failure)
    | AdmissionFailed(failure: Failure)
    | RunFailed(failure: Failure)
    | RunCompleted

  datatype ClosePoint = NotClosed | DuringLookup | DuringAdmission | DuringRun

  datatype Attempt = Attempt(outcome: Outcome, close: ClosePoint)

  /** Everything one wake observes of its surroundings: `listFails` says which page reads fail, and with what. */
  datatype Environment = Environment(
    listing: seq<Record>,
    admission: Option<Failure>,
    closedInAdmission: bool,
    listFails: nat -> Option<Failure>,
    closedInList: nat -> bool,
    now: int,
    attempt: Record -> Attempt)

  /** `zones` knows the time zones the runtime does; any other name makes it throw. */
  datatype Config = Config(cacheLimit: nat, maxPagesPerWake: nat, zones: string -> Option<LocalTime.Zone>)
  {
    predicate Valid() { cacheLimit <= 16_384 && 1 <= maxPagesPerWake <= 100 }
  }

  /** What a scheduler did: records it is done with, runs it committed and skipped, identities it remembered. */
  datatype Act = Committed(key: IdempotencyKey, record: Record) | Skipped(key: IdempotencyKey, record: Record)

  datatype History = History(processed: seq<Record>, acts: seq<Act>, remembered: seq<Entry>)

  datatype Scheduler = Scheduler(
    cursor: Option<int>,
    completed: seq<Entry>,
    closed: bool,
    lastFailure: Option<Failure>,
    history: History)

  datatype Status = Running | Returned | Threw(failure: Failure) | Stopped(failure: Failure, record: Record)

  datatype Scan = Scan(s: Scheduler, firstFailure: Option<Failure>, status: Status)

  function Rank(r: Record): int { r.rank }

  /** Computing the occurrence throws for an interval of zero seconds and for a wall time in an unknown zone. */
  predicate OccurrenceThrows(r: Record, env: Environment, config: Config) {
    DividesByZero(r.schedule, Some(env.now))
    || (Started(r.schedule, Some(env.now)) && ReadsClock(r.schedule)
        && config.zones(r.schedule.timezone).None?)
  }

  /** The code of an error whose message is no plain word, as the runtime's range errors are. */
  const SCHEDULE_FAILURE := Other("automation_schedule_failed")

  /** Stands in for an unknown zone where the schedule never asks for one. */
  function NoOffset(instant: int): int { 0 }

  function DueAt(r: Record, env: Environment, config: Config): Option<int> {
    if OccurrenceThrows(r, env, config) then None
    else LatestScheduledOccurrence(r.schedule, Some(env.now), config.zones(r.schedule.timezone).GetOr(NoOffset))
  }

  function Identity(r: Record, scheduledFor: int): Entry {
    Entry(AutomationIdentity(r.tenantId, r.spaceId, r.automationId),
          OccurrenceIdentity(scheduledFor, r.definitionDigest, r.actorId, r.principalId))
  }

  function KeyOf(r: Record, scheduledFor: int): IdempotencyKey { IdempotencyKey(r.automationId, scheduledFor) }

  // ---------- one wake as a function of the state and its surroundings ----------

  function Advance(scan: Scan, r: Record): Scan {
    var h := scan.s.history;
    scan.(s := scan.s.(cursor := Some(r.rank), history := h.(processed := h.processed + [r])))
  }

  function Log(scan: Scan, act: Act): Scan {
    scan.(s := scan.s.(history := scan.s.history.(acts := scan.s.history.acts + [act])))
  }

  function CloseIf(scan: Scan, closes: bool): Scan { scan.(s := scan.s.(closed := scan.s.closed || closes)) }

  function RememberCompleted(scan: Scan, e: Entry, limit: nat): Scan {
    if scan.s.closed || limit == 0 then scan else
    scan.(s := scan.s.(completed := Remember(scan.s.completed, e, limit),
                       history := scan.s.history.(remembered := scan.s.history.remembered + [e])))
  }

  function Catch(scan: Scan, r: Record, failure: Failure): Scan {
    if failure.StorageAdmission? then scan.(status := Stopped(failure, r))
    else Advance(scan.(firstFailure := if scan.firstFailure.None? then Some(failure) else scan.firstFailure), r)
  }

  function Try(scan: Scan, r: Record, due: int, attempt: Attempt, limit: nat): Scan {
    var looked := CloseIf(scan, attempt.close.DuringLookup?);
    if attempt.outcome.LookupFailed? then Catch(looked, r, attempt.outcome.failure)
    else if looked.s.closed then looked.(status := Returned)
    else
    var admitted := CloseIf(looked, attempt.close.DuringAdmission?);
    if attempt.outcome.AdmissionFailed? then Catch(admitted, r, attempt.outcome.failure)
    else if admitted.s.closed then admitted.(status := Returned)
    else
    var ran := CloseIf(admitted, attempt.close.DuringRun?);
    if attempt.outcome.RunFailed? then Catch(ran, r, attempt.outcome.failure)
    else Advance(RememberCompleted(Log(ran, Committed(KeyOf(r, due), r)), Identity(r, due), limit), r)
  }

  function Visit(scan: Scan, r: Record, env: Environment, config: Config): Scan {
    if scan.s.closed then scan.(status := Returned)
    else if OccurrenceThrows(r, env, config) then scan.(status := Threw(SCHEDULE_FAILURE))
    else
    var due := DueAt(r, env, config);
    if due.None? then Advance(scan, r)
    else if Hit(scan.s, r, due.value)
    then
      var skipped := Log(scan, Skipped(KeyOf(r, due.value), r));
      Advance(RememberCompleted(skipped, Identity(r, due.value), config.cacheLimit), r)
    else Try(scan, r, due.value, env.attempt(r), config.cacheLimit)
  }

  predicate Hit(s: Scheduler, r: Record, due: int) {
    Lookup(s.completed, Identity(r, due).automation) == Some(Identity(r, due).occurrence)
  }

  function VisitAll(scan: Scan, records: seq<Record>, env: Environment, config: Config): Scan
    decreases |records|
  {
    if records == [] || !scan.status.Running? then scan
    else VisitAll(Visit(scan, records[0], env, config), records[1..], env, config)
  }

  function Finished(scan: Scan): Scan {
    scan.(status := if scan.firstFailure.Some? then Threw(scan.firstFailure.value) else Returned)
  }

  function ScanPage(scan: Scan, env: Environment, config: Config, page: nat): Scan {
    if scan.s.closed then scan.(status := Returned) else
    var listed := CloseIf(scan, env.closedInList(page));
    if env.listFails(page).Some? then listed.(status := Threw(env.listFails(page).value)) else
    var records := Listing.Page(env.listing, Rank, scan.s.cursor, PAGE_SIZE);
    EndPage(VisitAll(listed, records, env, config), |records|)
  }

  /** A short page is the listing's last: the cursor goes back to its start and the scan ends. */
  function EndPage(visited: Scan, count: nat): Scan {
    if visited.status.Running? && count < PAGE_SIZE
    then Finished(visited.(s := visited.s.(cursor := None))) else visited
  }

  function ScanPages(scan: Scan, env: Environment, config: Config, page: nat): Scan
    decreases config.maxPagesPerWake - page
  {
    if !scan.status.Running? then scan
    else if page >= config.maxPagesPerWake then Finished(scan)
    else ScanPages(ScanPage(scan, env, config, page), env, config, page + 1)
  }

  function ScanDue(s: Scheduler, env: Environment, config: Config): Scan {
    var start := CloseIf(Scan(s, None, Running), env.closedInAdmission);
    if env.admission.Some? then start.(status := Threw(env.admission.value))
    else if start.s.closed then start.(status := Returned)
    else ScanPages(start, env, config, 0)
  }

  function Wake(s: Scheduler, env: Environment, config: Config): Scheduler {
    if s.closed then s else
    var scan := ScanDue(s, env, config);
    scan.s.(lastFailure := if scan.status.Threw? || scan.status.Stopped? then Some(scan.status.failure) else None)
  }

  function Wakes(s: Scheduler, envs: seq<Environment>, config: Config): Scheduler
    decreases |envs|
  {
    if envs == [] then s else Wakes(Wake(s, envs[0], config), envs[1..], config)
  }

  function Close(s: Scheduler): Scheduler { s.(closed := true, completed := [], cursor := None) }

  function Fresh(): Scheduler { Scheduler(None, [], false, None, History([], [], [])) }

  // ---------- the scheduler ----------

  class AutomationScheduler {
    const config: Config
    var cursor: Option<int>
    var completedOccurrences: seq<Entry>
    var closed: bool
    var lastFailure: Option<Failure>
    ghost var history: History

    ghost function State(): Scheduler reads this {
      Scheduler(cursor, completedOccurrences, closed, lastFailure, history)
    }

    constructor (config: Config)
      requires config.Valid()
      ensures State() == Fresh() && this.config == config
    {
      this.config := config;
      cursor, completedOccurrences, closed, lastFailure := None, [], false, None;
      history := History([], [], []);
    }

    method WakeUp(env: Environment)
      modifies this
      ensures State() == Wake(old(State()), env, config)
    {
      if closed { return; }
      var status, _ := ScanDueAutomations(env);
      lastFailure := if status.Threw? || status.Stopped? then Some(status.failure) else None;
    }

    method CloseScheduler()
      modifies this
      ensures State() == Close(old(State()))
      ensures closed && completedOccurrences == [] && cursor == None
    {
      closed := true;
      completedOccurrences := [];
      cursor := None;
    }

    method ScanDueAutomations(env: Environment) returns (status: Status, firstFailure: Option<Failure>)
      modifies this
      ensures Scan(State(), firstFailure, status) == ScanDue(old(State()), env, config)
    {
      status, firstFailure := Running, None;
      closed := closed || env.closedInAdmission;
      if env.admission.Some? { status := Threw(env.admission.value); return; }
      if closed { status := Returned; return; }
      ghost var start := Scan(State(), None, Running);
      var page := 0;
      while page < config.maxPagesPerWake && status.Running?
        invariant ScanPages(Scan(State(), firstFailure, status), env, config, page) == ScanPages(start, env, config, 0)
      {
        status, firstFailure := ReadPage(env, page, firstFailure);
        page := page + 1;
      }
      if status.Running? {
        status := if firstFailure.Some? then Threw(firstFailure.value) else Returned;
      }
    }

    method ReadPage(env: Environment, page: nat, failure: Option<Failure>)
      returns (status: Status, firstFailure: Option<Failure>)
      modifies this
      ensures Scan(State(), firstFailure, status) == ScanPage(Scan(old(State()), failure, Running), env, config, page)
    {
      status, firstFailure := Running, failure;
      if closed { status := Returned; return; }
      closed := closed || env.closedInList(page);
      if env.listFails(page).Some? { status := Threw(env.listFails(page).value); return; }
      var records := Listing.Page(env.listing, Rank, cursor, PAGE_SIZE);
      status, firstFailure := VisitRecords(records, env, failure);
      if status.Running? && |records| < PAGE_SIZE {
        cursor := None;
        status := if firstFailure.Some? then Threw(firstFailure.value) else Returned;
      }
    }

    method VisitRecords(records: seq<Record>, env: Environment, failure: Option<Failure>)
      returns (status: Status, firstFailure: Option<Failure>)
      modifies this
      ensures Scan(State(), firstFailure, status)
           == VisitAll(Scan(old(State()), failure, Running), records, env, config)
    {
      status, firstFailure := Running, failure;
      ghost var start := Scan(State(), failure, Running);
      var i := 0;
      while i < |records| && status.Running?
        invariant 0 <= i <= |records|
        invariant VisitAll(Scan(State(), firstFailure, status), records[i..], env, config)
               == VisitAll(start, records, env, config)
      {
        status, firstFailure := VisitRecord(records[i], env, firstFailure);
        i := i + 1;
      }
    }

    method VisitRecord(r: Record, env: Environment, failure: Option<Failure>)
      returns (status: Status, firstFailure: Option<Failure>)
      modifies this
      ensures Scan(State(), firstFailure, status) == Visit(Scan(old(State()), failure, Running), r, env, config)
    {
      status, firstFailure := Running, failure;
      if closed { status := Returned; return; }
      if OccurrenceThrows(r, env, config) { status := Threw(SCHEDULE_FAILURE); return; }
      var due := DueAt(r, env, config);
      if due.None? { AdvanceCursor(r); return; }
      var identity := Identity(r, due.value);
      if Lookup(completedOccurrences, identity.automation) == Some(identity.occurrence) {
        history := history.(acts := history.acts + [Skipped(KeyOf(r, due.value), r)]);
        RememberOccurrence(identity);
        AdvanceCursor(r);
        return;
      }
      status, firstFailure := TryRecord(r, due.value, env.attempt(r), failure);
    }

    method TryRecord(r: Record, due: int, attempt: Attempt, failure: Option<Failure>)
      returns (status: Status, firstFailure: Option<Failure>)
      modifies this
      ensures Scan(State(), firstFailure, status)
           == Try(Scan(old(State()), failure, Running), r, due, attempt, config.cacheLimit)
    {
      status, firstFailure := Running, failure;
      closed := closed || attempt.close.DuringLookup?;
      if attempt.outcome.LookupFailed? {
        status, firstFailure := CatchFailure(r, attempt.outcome.failure, failure);
        return;
      }
      if closed { status := Returned; return; }
      closed := closed || attempt.close.DuringAdmission?;
      if attempt.outcome.AdmissionFailed? {
        status, firstFailure := CatchFailure(r, attempt.outcome.failure, failure);
        return;
      }
      if closed { status := Returned; return; }
      closed := closed || attempt.close.DuringRun?;
      if attempt.outcome.RunFailed? {
        status, firstFailure := CatchFailure(r, attempt.outcome.failure, failure);
        return;
      }
      history := history.(acts := history.acts + [Committed(KeyOf(r, due), r)]);
      RememberOccurrence(Identity(r, due));
      AdvanceCursor(r);
    }

    method CatchFailure(r: Record, failure: Failure, first: Option<Failure>)
      returns (status: Status, firstFailure: Option<Failure>)
      modifies this
      ensures Scan(State(), firstFailure, status) == Catch(Scan(old(State()), first, Running), r, failure)
    {
      status, firstFailure := Running, first;
      if failure.StorageAdmission? { status := Stopped(failure, r); return; }
      if first.None? { firstFailure := Some(failure); }
      AdvanceCursor(r);
    }

    method AdvanceCursor(r: Record)
      modifies this`cursor, this`history
      ensures cursor == Some(r.rank) && history == old(history).(processed := old(history).processed + [r])
    {
      cursor := Some(r.rank);
      history := history.(processed := history.processed + [r]);
    }

    method RememberOccurrence(e: Entry)
      modifies this`completedOccurrences, this`history
      ensures Scan(State(), None, Running)
           == RememberCompleted(Scan(old(State()), None, Running), e, config.cacheLimit)
    {
      if closed || config.cacheLimit == 0 { return; }
      completedOccurrences := Delete(completedOccurrences, e.automation) + [e];
      if |completedOccurrences| > config.cacheLimit {
        completedOccurrences := completedOccurrences[1..];
      }
      history := history.(remembered := history.remembered + [e]);
    }
  }
}
