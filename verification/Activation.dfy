/** Preparing, refreshing and committing the activation of an installed plugin, while everything the checks
    read may change between any two awaits. */
module Activation {
  import opened Wrappers

  const MAX_PENDING := 128

  datatype SelectionState = Disabled | Enabled | Withdrawn

  datatype Selection = Selection(revision: nat, state: SelectionState, packageDigest: int)

  /** A published entry; its package bytes, configuration and deployment are identified by digests. */
  datatype Entry = Entry(packageDigest: int, registration: int, configuration: int, deployment: int)

  /** What the checks can read at one moment; `owner` stands for the profile and scope ownership checks. */
  datatype Facts = Facts(
    owner: bool,
    selection: Option<Selection>,
    package: Option<int>,
    registration: int,
    configuration: int,
    deployment: Option<int>,
    allowed: bool,
    peerReady: bool)

  datatype Request = Request(
    entry: Entry,
    current: Option<Selection>,
    next: Selection,
    package: Option<int>,
    business: bool)

  datatype Candidate = Candidate(entry: Entry, before: Selection, package: int, next: Selection, commitPrepared: bool)

  /** The synchronous check of the live facts against what was prepared. */
  predicate SyncUnchanged(f: Facts, entry: Entry, selection: Selection, package: int) {
    && f.owner && f.selection == Some(selection) && f.package == Some(package)
    && f.configuration == entry.configuration && f.deployment == Some(entry.deployment)
  }

  /** The one-shot check at the moment of commit. */
  function CommitCheck(c: Candidate, f: Facts, selection: Selection): (bool, Candidate) {
    if !c.commitPrepared || selection != c.next then (false, c)
    else (SyncUnchanged(f, c.entry, c.before, c.package), c.(commitPrepared := false))
  }

  /** A candidate a refresh has armed, or disarmed as it began. */
  function Armed(c: Candidate, prepared: bool): Candidate { c.(commitPrepared := prepared) }

  class PreparedCandidate {
    const entry: Entry
    const before: Selection
    const package: int
    const next: Selection
    var commitPrepared: bool

    constructor (entry: Entry, before: Selection, package: int, next: Selection)
      ensures State() == Candidate(entry, before, package, next, false)
    {
      this.entry, this.before, this.package, this.next, commitPrepared := entry, before, package, next, false;
    }

    function State(): Candidate reads this { Candidate(entry, before, package, next, commitPrepared) }

    /** As a refresh begins no commit check passes, whatever it is asked and finds. */
    method BeginRefresh()
      modifies this
      ensures State() == Armed(old(State()), false)
      ensures forall f, selection :: !CommitCheck(State(), f, selection).0
    {
      commitPrepared := false;
    }

    /** After a finished refresh the check passes exactly for the prepared selection on unchanged facts. */
    method FinishRefresh()
      modifies this
      ensures State() == Armed(old(State()), true)
      ensures forall f, selection ::
                CommitCheck(State(), f, selection).0 <==> selection == next && SyncUnchanged(f, entry, before, package)
    {
      commitPrepared := true;
    }

    method AssertBeforeSelectionCommit(f: Facts, selection: Selection) returns (passes: bool)
      modifies this
      ensures (passes, State()) == CommitCheck(old(State()), f, selection)
      ensures passes ==> forall g, again :: !CommitCheck(State(), g, again).0
    {
      if !commitPrepared || selection != next { return false; }
      commitPrepared := false;
      passes := SyncUnchanged(f, entry, before, package);
    }
  }

  // ---------- operations, one atomic step at a time ----------

  datatype Instruction =
    | AssertOwner | LoadSelection | LoadPackage | LoadRegistration | LoadConfiguration | SyncCheck
    | Accept | CompareSelection | Decide | AskPeer | Issue | Disarm | Arm

  const FACTS := [AssertOwner, LoadSelection, LoadPackage, LoadRegistration, LoadConfiguration, SyncCheck]
  const UNCHANGED := FACTS + [CompareSelection]
  const ACCEPTED := [AssertOwner, LoadRegistration] + FACTS + [Accept, Decide]
  const ASKED := ACCEPTED + UNCHANGED + [AskPeer]
  const VETTED := ASKED + UNCHANGED + [Decide]
  const PREPARE := VETTED + UNCHANGED + [Issue]
  const REFRESH := [Disarm] + UNCHANGED + [Decide] + UNCHANGED + [Arm]

  datatype Purpose = Prepare(request: Request) | Refresh(candidate: nat)

  /** What an operation has read so far, and what it still has to do. */
  datatype Operation = Operation(
    id: nat,
    purpose: Purpose,
    script: seq<Instruction>,
    entry: Entry,
    selection: Option<Selection>,
    package: Option<int>,
    before: Option<Selection>)

  datatype Entered =
    | RefreshStarted(candidate: nat, operation: nat)
    | RefreshDone(candidate: nat, operation: nat)
    | Consumed(candidate: nat)
    | Committed(candidate: nat)

  /** `highest` is the highest revision a selection write has used. */
  datatype World = World(
    facts: Facts,
    highest: nat,
    closed: bool,
    candidates: seq<Candidate>,
    pending: map<nat, Operation>,
    log: seq<Entered>)

  datatype Event =
    | Environment(facts: Facts)
    | StartPrepare(id: nat, request: Request)
    | StartRefresh(id: nat, candidate: nat)
    | Advance(id: nat)
    | Commit(candidate: nat, selection: Selection)
    | CloseOwner

  /** A selection can only change by a write with a revision above every earlier one. */
  predicate WriteAllowed(w: World, f: Facts) {
    f.selection == w.facts.selection || f.selection.None? || f.selection.value.revision > w.highest
  }

  function Highest(w: World, f: Facts): nat {
    if f.selection.Some? && f.selection.value.revision > w.highest then f.selection.value.revision else w.highest
  }

  function Owned(w: World): Facts { w.facts.(owner := w.facts.owner && !w.closed) }

  /** Whether an instruction's check holds now, given what the operation has read. */
  predicate Holds(i: Instruction, op: Operation, w: World) {
    var f := Owned(w);
    match i
    case AssertOwner => f.owner
    case LoadSelection =>
      f.selection.Some? && f.selection.value.state in {Disabled, Enabled}
      && f.selection.value.packageDigest == op.entry.packageDigest
    case LoadPackage => f.package.Some?
    case LoadRegistration => f.owner && f.registration == op.entry.registration
    case LoadConfiguration => f.configuration == op.entry.configuration
    case SyncCheck =>
      && op.selection.Some? && op.package.Some?
      && SyncUnchanged(f, op.entry, op.selection.value, op.package.value)
    case Accept =>
      && op.purpose.Prepare? && op.purpose.request.current.Some? && op.purpose.request.current.value.state.Disabled?
      && op.selection == op.purpose.request.current && op.package == op.purpose.request.package
      && op.purpose.request.next.packageDigest == op.entry.packageDigest
    case CompareSelection => op.selection == op.before
    case Decide => f.allowed
    case AskPeer => f.peerReady
    case Issue => op.purpose.Prepare? && op.before.Some? && op.purpose.request.package.Some?
    case Disarm => op.purpose.Refresh? && op.purpose.candidate < |w.candidates|
    case Arm => op.purpose.Refresh? && op.purpose.candidate < |w.candidates|
  }

  function Read(i: Instruction, op: Operation, f: Facts): Operation {
    var next := op.(script := op.script[if op.script == [] then 0 else 1..]);
    match i
    case LoadSelection => next.(selection := f.selection)
    case LoadPackage => next.(package := f.package)
    case Accept => next.(before := op.selection)
    case _ => next
  }

  function SetPrepared(w: World, c: nat, prepared: bool, entered: Entered): World
    requires c < |w.candidates|
  {
    w.(candidates := w.candidates[c := Armed(w.candidates[c], prepared)], log := w.log + [entered])
  }

  function Effect(i: Instruction, op: Operation, w: World): World
    requires Holds(i, op, w)
  {
    match i
    case Issue =>
      w.(candidates := w.candidates
           + [Candidate(op.entry, op.before.value, op.purpose.request.package.value, op.purpose.request.next, false)])
    case Disarm => SetPrepared(w, op.purpose.candidate, false, RefreshStarted(op.purpose.candidate, op.id))
    case Arm => SetPrepared(w, op.purpose.candidate, true, RefreshDone(op.purpose.candidate, op.id))
    case _ => w
  }

  /** A failed instruction rejects its operation; the last one settles it. */
  function AdvanceOperation(w: World, id: nat): World
    requires id in w.pending
  {
    var op := w.pending[id];
    if op.script == [] || !Holds(op.script[0], op, w) then w.(pending := w.pending - {id}) else
    var next := Read(op.script[0], op, w.facts);
    var v := Effect(op.script[0], op, w);
    v.(pending := if next.script == [] then v.pending - {id} else v.pending[id := next])
  }

  function CommitSelection(w: World, c: nat, selection: Selection): World
    requires c < |w.candidates|
  {
    var (passes, after) := CommitCheck(w.candidates[c], Owned(w), selection);
    var v := w.(candidates := w.candidates[c := after]);
    if after == w.candidates[c] then v
    else if !passes || selection.revision <= w.highest then v.(log := w.log + [Consumed(c)])
    else v.(facts := w.facts.(selection := Some(selection)), highest := selection.revision,
            log := w.log + [Committed(c)])
  }

  function Step(w: World, e: Event): World {
    match e
    case Environment(f) => if WriteAllowed(w, f) then w.(facts := f, highest := Highest(w, f)) else w
    case CloseOwner => w.(closed := true)
    case StartPrepare(id, r) =>
      if w.closed || id in w.pending || |w.pending| >= MAX_PENDING then w
      else if !r.next.state.Enabled? || r.package.None? || !r.business then w
      else w.(pending := w.pending[id := Operation(id, Prepare(r), PREPARE, r.entry, None, None, None)])
    case StartRefresh(id, c) =>
      if w.closed || id in w.pending || |w.pending| >= MAX_PENDING || c >= |w.candidates| then w else
      var k := w.candidates[c];
      w.(pending := w.pending[id := Operation(id, Refresh(c), REFRESH, k.entry, None, None, Some(k.before))])
    case Advance(id) => if id in w.pending then AdvanceOperation(w, id) else w
    case Commit(c, selection) => if c < |w.candidates| then CommitSelection(w, c, selection) else w
  }

  function Steps(w: World, events: seq<Event>): World
    decreases |events|
  {
    if events == [] then w else Steps(Step(w, events[0]), events[1..])
  }

  ghost predicate Initial(w: World) {
    && w.candidates == [] && w.pending == map[] && w.log == []
    && (w.facts.selection.Some? ==> w.facts.selection.value.revision <= w.highest)
  }

  // ---------- a commit follows a refresh of its own candidate ----------

  function About(e: Entered): nat { e.candidate }

  /** The last thing the log says about candidate c is that a refresh of it finished. */
  predicate Refreshed(log: seq<Entered>, c: nat) {
    if log == [] then false
    else if About(log[|log| - 1]) == c then log[|log| - 1].RefreshDone? else Refreshed(log[..|log| - 1], c)
  }

  ghost predicate CommitsFollowRefreshes(log: seq<Entered>) {
    forall i | 0 <= i < |log| && (log[i].Committed? || log[i].Consumed?) :: Refreshed(log[..i], log[i].candidate)
  }

  ghost predicate LogInv(w: World) {
    && (forall c: nat | c < |w.candidates| :: w.candidates[c].commitPrepared <==> Refreshed(w.log, c))
    && (forall i | 0 <= i < |w.log| :: About(w.log[i]) < |w.candidates|)
    && CommitsFollowRefreshes(w.log)
  }

  lemma {:induction false} NotRefreshedBeforeIssue(log: seq<Entered>, c: nat)
    requires forall i | 0 <= i < |log| :: About(log[i]) < c
    ensures !Refreshed(log, c)
  {
    if log != [] { NotRefreshedBeforeIssue(log[..|log| - 1], c); }
  }

  lemma LogGrows(w: World, v: World, entered: Entered)
    requires LogInv(w) && entered.candidate < |w.candidates|
    requires v.log == w.log + [entered]
    requires var c := entered.candidate;
             v.candidates == w.candidates[c := w.candidates[c].(commitPrepared := entered.RefreshDone?)]
    requires entered.Committed? || entered.Consumed? ==> w.candidates[entered.candidate].commitPrepared
    ensures LogInv(v)
  {
    assert v.log[..|w.log|] == w.log;
    forall i | 0 <= i < |v.log| && (v.log[i].Committed? || v.log[i].Consumed?)
      ensures Refreshed(v.log[..i], v.log[i].candidate)
    {
      assert v.log[..i] == w.log[..i];
      if i == |w.log| { assert w.log[..i] == w.log; }
    }
  }

  lemma StepKeepsLog(w: World, e: Event)
    requires LogInv(w)
    ensures LogInv(Step(w, e))
  {
    match e
    case Advance(id) =>
      if id in w.pending {
        var op := w.pending[id];
        if op.script != [] && Holds(op.script[0], op, w) { EffectKeepsLog(w, op); }
      }
    case Commit(c, selection) =>
      if c < |w.candidates| && CommitCheck(w.candidates[c], Owned(w), selection).1 != w.candidates[c] {
        var v := Step(w, e);
        LogGrows(w, v, v.log[|w.log|]);
      }
    case _ =>
  }

  lemma EffectKeepsLog(w: World, op: Operation)
    requires LogInv(w) && op.script != [] && Holds(op.script[0], op, w)
    ensures LogInv(Effect(op.script[0], op, w))
  {
    var v := Effect(op.script[0], op, w);
    match op.script[0]
    case Issue => NotRefreshedBeforeIssue(w.log, |w.candidates|);
    case Disarm => LogGrows(w, v, RefreshStarted(op.purpose.candidate, op.id));
    case Arm => LogGrows(w, v, RefreshDone(op.purpose.candidate, op.id));
    case _ =>
  }

  lemma {:induction false} StepsKeepLog(w: World, events: seq<Event>)
    requires LogInv(w)
    ensures LogInv(Steps(w, events))
    decreases |events|
  {
    if events != [] {
      StepKeepsLog(w, events[0]);
      StepsKeepLog(Step(w, events[0]), events[1..]);
    }
  }

  /** Whatever changes between awaits, every commit in every run directly follows, among the events of its own
      candidate, a finished refresh that no earlier commit check has consumed and no newer refresh has reset. */
  lemma CommitFollowsItsRefresh(w: World, events: seq<Event>)
    requires Initial(w)
    ensures CommitsFollowRefreshes(Steps(w, events).log)
  {
    StepsKeepLog(w, events);
  }

  /** In every run a commit check passes exactly when the last thing that happened to its candidate is a finished
      refresh, it is asked for the prepared selection, and the live facts are the prepared ones. */
  lemma CommitPassesExactly(w: World, events: seq<Event>, c: nat, selection: Selection)
    requires Initial(w) && c < |Steps(w, events).candidates|
    ensures var v := Steps(w, events);
            var k := v.candidates[c];
            CommitCheck(k, Owned(v), selection).0
            <==> Refreshed(v.log, c) && selection == k.next && SyncUnchanged(Owned(v), k.entry, k.before, k.package)
  {
    StepsKeepLog(w, events);
  }

  // ---------- a commit finds everything as it was prepared ----------

  ghost predicate Commits(w: World, e: Event, c: nat) { Step(w, e).log == w.log + [Committed(c)] }

  /** A commit writes exactly the prepared selection, and at that instant selection, package, configuration and
      deployment are all what was prepared. */
  lemma CommitFindsPreparedFacts(w: World, e: Event, c: nat)
    requires Commits(w, e, c)
    ensures e.Commit? && e.candidate == c < |w.candidates| && w.candidates[c].commitPrepared
    ensures e.selection == w.candidates[c].next && Step(w, e).facts.selection == Some(w.candidates[c].next)
    ensures w.facts.selection == Some(w.candidates[c].before) && w.facts.package == Some(w.candidates[c].package)
    ensures w.facts.configuration == w.candidates[c].entry.configuration
    ensures w.facts.deployment == Some(w.candidates[c].entry.deployment)
    ensures w.facts.owner && !w.closed
  {
    assert Step(w, e).log[|w.log|] == Committed(c);
  }

  // ---------- one disabled selection yields at most one commit ----------

  ghost predicate HasCommitted(w: World, c: nat) { Committed(c) in w.log }

  /** Revisions have moved past the selection every committed candidate started from. */
  ghost predicate RevisionsInv(w: World) {
    && (w.facts.selection.Some? ==> w.facts.selection.value.revision <= w.highest)
    && (forall c: nat | HasCommitted(w, c) ::
          && c < |w.candidates| && w.candidates[c].before.revision < w.highest
          && (w.facts.selection.Some? ==> w.candidates[c].before.revision < w.facts.selection.value.revision))
  }

  predicate Enables(c: Candidate) { c.before.state.Disabled? && c.next.state.Enabled? }

  /** Candidates start from a disabled selection and lead to an enabled one. */
  ghost predicate CandidatesInv(w: World) {
    && (forall i | 0 <= i < |w.candidates| :: Enables(w.candidates[i]))
    && (forall id | id in w.pending :: OperationInv(w.pending[id]))
  }

  ghost predicate OperationInv(op: Operation) {
    op.purpose.Prepare? ==>
      op.purpose.request.next.state.Enabled? && (op.before.Some? ==> op.before.value.state.Disabled?)
  }

  lemma StepKeepsRevisions(w: World, e: Event)
    requires RevisionsInv(w)
    ensures RevisionsInv(Step(w, e))
    ensures |w.candidates| <= |Step(w, e).candidates|
    ensures forall c | 0 <= c < |w.candidates| :: Step(w, e).candidates[c].before == w.candidates[c].before
  {
    match e
    case Advance(id) =>
      if id in w.pending {
        var op := w.pending[id];
        if op.script != [] && Holds(op.script[0], op, w) {
          EffectKeepsRevisions(w, op);
          PendingIsIrrelevant(Effect(op.script[0], op, w), Step(w, e));
        } else {
          PendingIsIrrelevant(w, Step(w, e));
        }
      }
    case Commit(c, selection) =>
      if c < |w.candidates| { CommitKeepsRevisions(w, c, selection); }
    case _ =>
      forall c: nat | HasCommitted(Step(w, e), c) ensures HasCommitted(w, c) {}
  }

  lemma PendingIsIrrelevant(w: World, v: World)
    requires RevisionsInv(w) && v == w.(pending := v.pending)
    ensures RevisionsInv(v)
  {
    forall c: nat | HasCommitted(v, c) ensures HasCommitted(w, c) {}
  }

  lemma CommitKeepsRevisions(w: World, c: nat, selection: Selection)
    requires RevisionsInv(w) && c < |w.candidates|
    ensures var v := CommitSelection(w, c, selection);
            && RevisionsInv(v) && |v.candidates| == |w.candidates|
            && forall d | 0 <= d < |w.candidates| :: v.candidates[d].before == w.candidates[d].before
  {
    var v := CommitSelection(w, c, selection);
    forall d: nat | HasCommitted(v, d)
      ensures d < |v.candidates| && v.candidates[d].before.revision < v.highest
              && (v.facts.selection.Some? ==> v.candidates[d].before.revision < v.facts.selection.value.revision)
    {
      if !HasCommitted(w, d) { assert v.log[|w.log|] == Committed(d); }
    }
  }

  lemma EffectKeepsRevisions(w: World, op: Operation)
    requires RevisionsInv(w) && op.script != [] && Holds(op.script[0], op, w)
    ensures var v := Effect(op.script[0], op, w);
            && RevisionsInv(v) && |w.candidates| <= |v.candidates|
            && forall c | 0 <= c < |w.candidates| :: v.candidates[c].before == w.candidates[c].before
  {
    var v := Effect(op.script[0], op, w);
    forall d: nat | HasCommitted(v, d) ensures HasCommitted(w, d) {
      if v.log != w.log { assert v.log[|w.log|] != Committed(d); }
    }
  }

  lemma {:induction false} StepsKeepRevisions(w: World, events: seq<Event>)
    requires RevisionsInv(w)
    ensures RevisionsInv(Steps(w, events)) && |w.candidates| <= |Steps(w, events).candidates|
    ensures forall c | 0 <= c < |w.candidates| :: Steps(w, events).candidates[c].before == w.candidates[c].before
    decreases |events|
  {
    if events != [] {
      StepKeepsRevisions(w, events[0]);
      StepsKeepRevisions(Step(w, events[0]), events[1..]);
    }
  }

  /** Two committed candidates, the second of which started from a later revision. */
  predicate Rises(w: World, c: nat, d: nat) {
    c < |w.candidates| && d < |w.candidates| && w.candidates[c].before.revision < w.candidates[d].before.revision
  }

  /** Every commit started from a later revision than the commits before it. */
  ghost predicate CommitsRise(w: World) {
    forall i, j | 0 <= i < j < |w.log| && w.log[i].Committed? && w.log[j].Committed? ::
      Rises(w, w.log[i].candidate, w.log[j].candidate)
  }

  /** The log only grows, and a commit adds itself at the end. */
  lemma StepGrowsLog(w: World, e: Event)
    ensures w.log <= Step(w, e).log && |Step(w, e).log| <= |w.log| + 1
    ensures |Step(w, e).log| > |w.log| && Step(w, e).log[|w.log|].Committed? ==>
              Commits(w, e, Step(w, e).log[|w.log|].candidate)
  {
    match e
    case Advance(id) =>
      if id in w.pending {
        var op := w.pending[id];
        if op.script != [] && Holds(op.script[0], op, w) { assert w.log <= Effect(op.script[0], op, w).log; }
      }
    case _ =>
  }

  lemma StepKeepsRise(w: World, e: Event)
    requires RevisionsInv(w) && CommitsRise(w)
    ensures CommitsRise(Step(w, e))
  {
    StepKeepsRevisions(w, e);
    StepGrowsLog(w, e);
    forall c: nat, d: nat | HasCommitted(w, c) && Commits(w, e, d) ensures Rises(w, c, d) {
      CommitStartsHigher(w, e, c, d);
    }
    LogRises(w, Step(w, e));
  }

  /** A log that grows by a commit from a later revision than all before it keeps rising. */
  lemma LogRises(w: World, v: World)
    requires CommitsRise(w) && w.log <= v.log && |v.log| <= |w.log| + 1 && |w.candidates| <= |v.candidates|
    requires forall c | 0 <= c < |w.candidates| :: v.candidates[c].before == w.candidates[c].before
    requires forall c: nat, d: nat | HasCommitted(w, c) && v.log == w.log + [Committed(d)] :: Rises(w, c, d)
    ensures CommitsRise(v)
  {
    forall i, j | 0 <= i < j < |v.log| && v.log[i].Committed? && v.log[j].Committed?
      ensures Rises(v, v.log[i].candidate, v.log[j].candidate)
    {
      var c, d := v.log[i].candidate, v.log[j].candidate;
      assert v.log[i] == w.log[i];
      if j == |w.log| {
        assert v.log == w.log + [Committed(d)] && HasCommitted(w, c);
      } else {
        assert v.log[j] == w.log[j];
      }
      assert Rises(w, c, d);
    }
  }

  /** A commit starts from a later revision than every candidate committed before it. */
  lemma CommitStartsHigher(w: World, e: Event, c: nat, d: nat)
    requires RevisionsInv(w) && HasCommitted(w, c) && Commits(w, e, d)
    ensures Rises(w, c, d)
  {
    CommitFindsPreparedFacts(w, e, d);
  }

  lemma {:induction false} StepsKeepRise(w: World, events: seq<Event>)
    requires RevisionsInv(w) && CommitsRise(w)
    ensures CommitsRise(Steps(w, events))
    decreases |events|
  {
    if events != [] {
      StepKeepsRevisions(w, events[0]);
      StepKeepsRise(w, events[0]);
      StepsKeepRise(Step(w, events[0]), events[1..]);
    }
  }

  /** In every run, any two commits are of candidates prepared from different selections: of all candidates
      prepared from one disabled selection at most one commits, and only once. */
  lemma AtMostOneCommit(w: World, events: seq<Event>, i: nat, j: nat)
    requires Initial(w) && i < j < |Steps(w, events).log|
    requires Steps(w, events).log[i].Committed? && Steps(w, events).log[j].Committed?
    ensures var v := Steps(w, events);
            var c, d := v.log[i].candidate, v.log[j].candidate;
            && c < |v.candidates| && d < |v.candidates| && v.candidates[c].before != v.candidates[d].before
            && v.candidates[c].before.state.Disabled? && v.candidates[d].before.state.Disabled?
  {
    ReachableWorlds(w, events);
    StepsKeepRise(w, events);
  }

  lemma StepKeepsCandidates(w: World, e: Event)
    requires CandidatesInv(w)
    ensures CandidatesInv(Step(w, e))
  {
    match e
    case Advance(id) =>
      if id in w.pending {
        assert OperationInv(w.pending[id]);
        AdvanceKeepsCandidates(w, id);
      }
    case _ =>
  }

  lemma AdvanceKeepsCandidates(w: World, id: nat)
    requires CandidatesInv(w) && id in w.pending
    ensures CandidatesInv(AdvanceOperation(w, id))
  {
    var op, v := w.pending[id], AdvanceOperation(w, id);
    assert OperationInv(op);
    if op.script != [] && Holds(op.script[0], op, w) {
      assert OperationInv(Read(op.script[0], op, w.facts));
    }
  }

  lemma {:induction false} StepsKeepCandidates(w: World, events: seq<Event>)
    requires CandidatesInv(w)
    ensures CandidatesInv(Steps(w, events))
    decreases |events|
  {
    if events != [] {
      StepKeepsCandidates(w, events[0]);
      StepsKeepCandidates(Step(w, events[0]), events[1..]);
    }
  }

  /** In every run, every candidate leads from a disabled to an enabled selection, and no selection has a
      revision that the writes so far have not reached. */
  lemma ReachableWorlds(w: World, events: seq<Event>)
    requires Initial(w)
    ensures var v := Steps(w, events);
            && RevisionsInv(v)
            && forall i | 0 <= i < |v.candidates| :: Enables(v.candidates[i])
  {
    StepsKeepRevisions(w, events);
    StepsKeepCandidates(w, events);
  }

  /** A closed owner commits nothing more. */
  lemma {:induction false} ClosedCommitsNothing(w: World, events: seq<Event>, later: Event, c: nat)
    requires w.closed
    ensures Steps(w, events).closed && !Commits(Steps(w, events), later, c)
    decreases |events|
  {
    if events != [] {
      ClosedCommitsNothing(Step(w, events[0]), events[1..], later, c);
    } else if Commits(w, later, c) {
      CommitFindsPreparedFacts(w, later, c);
    }
  }
}
