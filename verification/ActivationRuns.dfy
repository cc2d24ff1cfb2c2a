/** An activation that nothing disturbs goes through: its preparation issues a candidate, its refresh arms it, and the
    commit passes. */
module ActivationRuns {
  import opened Wrappers
  import opened Activation
  import opened ActivationChecks

  /** All facts are as the entry and the selection have them, and the activation is allowed. */
  ghost predicate InOrder(w: World, entry: Entry, before: Selection) {
    && w.facts.owner && !w.closed && w.facts.selection == Some(before) && w.facts.package.Some?
    && before.state in {Disabled, Enabled} && before.packageDigest == entry.packageDigest
    && w.facts.registration == entry.registration && w.facts.configuration == entry.configuration
    && w.facts.deployment == Some(entry.deployment) && w.facts.allowed
  }

  function Repeat(e: Event, n: nat): seq<Event> { if n == 0 then [] else [e] + Repeat(e, n - 1) }

  function Advances(id: nat, n: nat): seq<Event> { Repeat(Advance(id), n) }

  function ScriptOf(p: Purpose): seq<Instruction> { if p.Prepare? then PREPARE else REFRESH }

  /** Where a script first reads the selection. */
  function FirstLoad(p: Purpose): nat { if p.Prepare? then 3 else 2 }

  /** Operation id, which began as `op`, has run its first j instructions on the facts as they are now. */
  ghost predicate Underway(w: World, id: nat, op: Operation, j: nat) {
    id in w.pending && op.id == id && j < |ScriptOf(op.purpose)|
    && IsNow(w, op, w.pending[id], j)
  }

  ghost predicate IsNow(w: World, op: Operation, now: Operation, j: nat)
    requires j < |ScriptOf(op.purpose)|
  {
    && now == op.(script := ScriptOf(op.purpose)[j..], selection := now.selection, package := now.package,
                  before := now.before)
    && (j > FirstLoad(op.purpose) ==> now.selection == w.facts.selection)
    && (j > FirstLoad(op.purpose) + 1 ==> now.package == w.facts.package)
    && now.before == if op.purpose.Refresh? then op.before else if j > 8 then w.facts.selection else None
  }

  /** What an operation needs of the world to run through: a preparation asks for what is there, a refresh is of a
      candidate prepared from it. */
  ghost predicate Suited(w: World, op: Operation, before: Selection) {
    && InOrder(w, op.entry, before)
    && match op.purpose
       case Prepare(r) =>
         && w.facts.peerReady && before.state.Disabled? && r.current == Some(before)
         && r.package == w.facts.package && r.next.packageDigest == op.entry.packageDigest
       case Refresh(c) => c < |w.candidates| && op.before == Some(before)
  }

  /** Where each instruction stands in its script. */
  lemma Places(p: Purpose, j: nat)
    requires j < |ScriptOf(p)|
    ensures var i := ScriptOf(p)[j];
            && (i == SyncCheck ==> j > FirstLoad(p) + 1)
            && (i == LoadSelection || j != FirstLoad(p)) && (i == LoadPackage || j != FirstLoad(p) + 1)
            && (i == CompareSelection ==> j > FirstLoad(p) && (p.Prepare? ==> j > 8))
            && (p.Prepare? ==> (i == Accept <==> j == 8) && (i == Issue <==> j == 33) && i != Disarm && i != Arm)
            && (p.Refresh? ==> (i == Disarm <==> j == 0) && (i == Arm <==> j == 16) && i != Accept && i != Issue)
  {
    if p.Prepare? { PreparePlaces(j); }
  }

  lemma PreparePlaces(j: nat)
    requires j < |PREPARE|
    ensures PREPARE[j] == SyncCheck ==> j > 4
    ensures (PREPARE[j] == LoadSelection || j != 3) && (PREPARE[j] == LoadPackage || j != 4)
    ensures PREPARE[j] == CompareSelection ==> j > 8
    ensures (PREPARE[j] == Accept <==> j == 8) && (PREPARE[j] == Issue <==> j == 33)
    ensures PREPARE[j] != Disarm && PREPARE[j] != Arm
  {
    PrepareScript();
    PrepareNeverArms(j);
    if j < 9 { PrepareBegins(j); }
  }

  lemma PrepareBegins(j: nat)
    requires j < 9
    ensures PREPARE[j] == ([AssertOwner, LoadRegistration] + FACTS + [Accept])[j]
  {
    AcceptedScript();
    AskedScript();
    VettedScript();
    Parts(VETTED, UNCHANGED, Issue);
    assert PREPARE[j] == VETTED[j] == VETTED[..18][j] == ASKED[j] == ASKED[..10][j] == ACCEPTED[j];
  }

  lemma PrepareNeverArms(j: nat)
    requires j < |PREPARE|
    ensures PREPARE[j] != Disarm && PREPARE[j] != Arm
  {
    assert forall i | i in PREPARE :: i in ACCEPTED || i in UNCHANGED || i in [AskPeer, Decide, Issue];
    assert PREPARE[j] in PREPARE;
  }

  lemma InstructionHolds(w: World, id: nat, op: Operation, j: nat, before: Selection)
    requires Underway(w, id, op, j) && Suited(w, op, before)
    ensures Holds(ScriptOf(op.purpose)[j], w.pending[id], w)
  {
    Places(op.purpose, j);
  }

  /** Running an instruction that neither issues nor arms anything only takes the operation on. */
  lemma OneAdvance(w: World, id: nat, op: Operation, j: nat, before: Selection)
    requires Underway(w, id, op, j) && Suited(w, op, before) && j + 1 < |ScriptOf(op.purpose)|
    requires op.purpose.Refresh? ==> j > 0
    ensures var v := Step(w, Advance(id));
            Underway(v, id, op, j + 1) && v == w.(pending := w.pending[id := v.pending[id]])
  {
    Places(op.purpose, j);
    InstructionHolds(w, id, op, j, before);
    NextRecord(w, id, op, j, before);
    var now := w.pending[id];
    assert now.script[0] == ScriptOf(op.purpose)[j] && now.script[1..] == ScriptOf(op.purpose)[j + 1..];
    PlacesOfLast(op.purpose);
  }

  lemma PlacesOfLast(p: Purpose)
    ensures |ScriptOf(p)| == if p.Prepare? then 34 else 17
    ensures ScriptOf(p)[|ScriptOf(p)| - 1] == if p.Prepare? then Issue else Arm
  {
    if p.Prepare? { PrepareScript(); }
  }

  lemma NextRecord(w: World, id: nat, op: Operation, j: nat, before: Selection)
    requires Underway(w, id, op, j) && Suited(w, op, before) && j + 1 < |ScriptOf(op.purpose)|
    ensures IsNow(w, op, Read(ScriptOf(op.purpose)[j], w.pending[id], w.facts), j + 1)
  {
    Places(op.purpose, j);
    var now := w.pending[id];
    assert now.script[1..] == ScriptOf(op.purpose)[j + 1..];
  }

  /** `v` differs from `w` in operation id alone, which has run j instructions. */
  ghost predicate CameTo(w: World, v: World, id: nat, op: Operation, j: nat) {
    Underway(v, id, op, j) && v == w.(pending := w.pending[id := v.pending[id]])
  }

  /** The world after an event has happened n times in a row. */
  function Repeated(w: World, e: Event, n: nat): World {
    if n == 0 then w else Step(Repeated(w, e, n - 1), e)
  }

  lemma {:induction false} RepeatReaches(w: World, e: Event, n: nat)
    ensures Steps(w, Repeat(e, n)) == Repeated(w, e, n)
  {
    if n > 0 {
      RepeatReaches(w, e, n - 1);
      RepeatSnoc(e, n - 1);
      StepsSnoc(w, Repeat(e, n - 1), e);
    }
  }

  lemma {:induction false} RepeatSnoc(e: Event, n: nat)
    ensures Repeat(e, n + 1) == Repeat(e, n) + [e]
  {
    if n > 0 { RepeatSnoc(e, n - 1); }
  }

  lemma {:induction false} AdvancesOn(w: World, id: nat, op: Operation, j: nat, n: nat, before: Selection)
    requires Underway(w, id, op, j) && Suited(w, op, before) && j + n < |ScriptOf(op.purpose)|
    requires op.purpose.Refresh? ==> j > 0
    ensures CameTo(w, Repeated(w, Advance(id), n), id, op, j + n)
  {
    if n == 0 {
      Stays(w, id, op, j);
    } else {
      AdvancesOn(w, id, op, j, n - 1, before);
      CameOneFurther(w, Repeated(w, Advance(id), n - 1), id, op, j + n - 1, before);
    }
  }

  lemma Stays(w: World, id: nat, op: Operation, j: nat)
    requires Underway(w, id, op, j)
    ensures CameTo(w, w, id, op, j)
  {
    assert w.pending[id := w.pending[id]] == w.pending;
  }

  lemma CameOneFurther(w: World, v: World, id: nat, op: Operation, j: nat, before: Selection)
    requires CameTo(w, v, id, op, j) && Suited(w, op, before) && j + 1 < |ScriptOf(op.purpose)|
    requires op.purpose.Refresh? ==> j > 0
    ensures CameTo(w, Step(v, Advance(id)), id, op, j + 1)
  {
    assert Suited(v, op, before);
    OneAdvance(v, id, op, j, before);
  }

  // ---------- a preparation ----------

  /** A preparation may begin: the owner has room for one more operation, and the request is for an enabled selection of
      an installed business package. */
  predicate MayPrepare(w: World, id: nat, r: Request) {
    !w.closed && id !in w.pending && |w.pending| < 128 && r.next.state == Enabled && r.package.Some? && r.business
  }

  lemma LastOfPreparation(v: World, id: nat, op: Operation, r: Request, before: Selection)
    requires Underway(v, id, op, 33) && Suited(v, op, before) && op.purpose == Prepare(r)
    ensures Step(v, Advance(id))
         == v.(candidates := v.candidates + [Candidate(op.entry, before, v.facts.package.value, r.next, false)],
               pending := v.pending - {id})
  {
    PlacesOfLast(op.purpose);
    InstructionHolds(v, id, op, 33, before);
    assert v.pending[id].script == [Issue];
  }

  /** If nothing changes meanwhile, a preparation of what is there issues the candidate it was asked for. */
  lemma UndisturbedPreparationIssues(w: World, id: nat, r: Request, before: Selection)
    requires MayPrepare(w, id, r) && InOrder(w, r.entry, before) && w.facts.peerReady && before.state == Disabled
    requires r.current == Some(before) && r.package == w.facts.package && r.next.packageDigest == r.entry.packageDigest
    ensures Steps(w, [StartPrepare(id, r)] + Advances(id, 34))
         == w.(candidates := w.candidates + [Candidate(r.entry, before, r.package.value, r.next, false)])
  {
    var op := Operation(id, Prepare(r), PREPARE, r.entry, None, None, None);
    var u := Step(w, StartPrepare(id, r));
    PlacesOfLast(op.purpose);
    assert PREPARE[0..] == PREPARE;
    assert Underway(u, id, op, 0) && Suited(u, op, before);
    AdvancesOn(u, id, op, 0, 33, before);
    RepeatReaches(u, Advance(id), 33);
    LastOfPreparation(Repeated(u, Advance(id), 33), id, op, r, before);
    RepeatSnoc(Advance(id), 33);
    StepsSnoc(u, Advances(id, 33), Advance(id));
    assert ([StartPrepare(id, r)] + Advances(id, 34))[1..] == Advances(id, 34);
  }

  // ---------- a refresh and its commit ----------

  lemma FirstOfRefresh(u: World, id: nat, op: Operation, c: nat, before: Selection)
    requires Underway(u, id, op, 0) && Suited(u, op, before) && op.purpose == Refresh(c)
    ensures var v := Step(u, Advance(id));
            && Underway(v, id, op, 1) && Suited(v, op, before)
            && v == u.(candidates := u.candidates[c := u.candidates[c].(commitPrepared := false)],
                       log := u.log + [RefreshStarted(c, id)], pending := u.pending[id := v.pending[id]])
  {
    InstructionHolds(u, id, op, 0, before);
    NextRecord(u, id, op, 0, before);
    assert u.pending[id].script == REFRESH && REFRESH[0] == Disarm;
  }

  lemma LastOfRefresh(v: World, id: nat, op: Operation, c: nat, before: Selection)
    requires Underway(v, id, op, 16) && Suited(v, op, before) && op.purpose == Refresh(c)
    ensures Step(v, Advance(id))
         == v.(candidates := v.candidates[c := v.candidates[c].(commitPrepared := true)],
               log := v.log + [RefreshDone(c, id)], pending := v.pending - {id})
  {
    InstructionHolds(v, id, op, 16, before);
    assert v.pending[id].script == [Arm];
  }

  lemma BeginsToRefresh(u: World, id: nat, op: Operation, c: nat, before: Selection) returns (x: World)
    requires Underway(u, id, op, 0) && Suited(u, op, before) && op.purpose == Refresh(c)
    ensures Underway(x, id, op, 1) && Suited(x, op, before)
    ensures x == u.(candidates := u.candidates[c := u.candidates[c].(commitPrepared := false)],
                    log := u.log + [RefreshStarted(c, id)], pending := u.pending[id := x.pending[id]])
    ensures Steps(u, Advances(id, 17)) == Steps(x, Advances(id, 16))
  {
    FirstOfRefresh(u, id, op, c, before);
    x := Step(u, Advance(id));
    assert Advances(id, 17)[0] == Advance(id) && Advances(id, 17)[1..] == Advances(id, 16);
  }

  lemma EndsRefreshing(x: World, id: nat, op: Operation, c: nat, before: Selection)
    requires Underway(x, id, op, 1) && Suited(x, op, before) && op.purpose == Refresh(c)
    ensures Steps(x, Advances(id, 16))
         == x.(candidates := x.candidates[c := x.candidates[c].(commitPrepared := true)],
               log := x.log + [RefreshDone(c, id)], pending := x.pending - {id})
  {
    PlacesOfLast(op.purpose);
    AdvancesOn(x, id, op, 1, 15, before);
    RepeatReaches(x, Advance(id), 15);
    LastOfRefresh(Repeated(x, Advance(id), 15), id, op, c, before);
    RepeatSnoc(Advance(id), 15);
    StepsSnoc(x, Advances(id, 15), Advance(id));
  }

  lemma RefreshBegins(w: World, id: nat, c: nat, events: seq<Event>) returns (op: Operation, u: World)
    requires c < |w.candidates| && id !in w.pending && |w.pending| < 128
    requires InOrder(w, w.candidates[c].entry, w.candidates[c].before)
    ensures Underway(u, id, op, 0) && Suited(u, op, w.candidates[c].before) && op.purpose == Refresh(c)
    ensures u == w.(pending := w.pending[id := op])
    ensures Steps(w, [StartRefresh(id, c)] + events) == Steps(u, events)
  {
    var k := w.candidates[c];
    op := Operation(id, Refresh(c), REFRESH, k.entry, None, None, Some(k.before));
    u := Step(w, StartRefresh(id, c));
    assert REFRESH[0..] == REFRESH;
    assert ([StartRefresh(id, c)] + events)[1..] == events;
  }

  /** If nothing changes meanwhile, a refresh of a candidate arms it: the owner needs room for one more operation, the
      facts must be the prepared ones and the activation allowed. */
  lemma UndisturbedRefreshArms(w: World, id: nat, c: nat)
    requires c < |w.candidates| && id !in w.pending && |w.pending| < 128
    requires InOrder(w, w.candidates[c].entry, w.candidates[c].before)
    ensures Steps(w, [StartRefresh(id, c)] + Advances(id, 17))
         == w.(candidates := w.candidates[c := w.candidates[c].(commitPrepared := true)],
               log := w.log + [RefreshStarted(c, id), RefreshDone(c, id)])
  {
    var op, u := RefreshBegins(w, id, c, Advances(id, 17));
    var x := BeginsToRefresh(u, id, op, c, w.candidates[c].before);
    EndsRefreshing(x, id, op, c, w.candidates[c].before);
  }

  /** The selection can then be committed, once, if its revision is above every earlier one and the package is still
      the prepared one. */
  lemma UndisturbedCommitPasses(w: World, id: nat, c: nat)
    requires c < |w.candidates| && id !in w.pending && |w.pending| < 128
    requires InOrder(w, w.candidates[c].entry, w.candidates[c].before)
    requires w.facts.package == Some(w.candidates[c].package) && w.candidates[c].next.revision > w.highest
    ensures var armed := Steps(w, [StartRefresh(id, c)] + Advances(id, 17));
            && Commits(armed, Commit(c, w.candidates[c].next), c)
            && Step(armed, Commit(c, w.candidates[c].next)).facts.selection == Some(w.candidates[c].next)
  {
    UndisturbedRefreshArms(w, id, c);
    ArmedCommits(Steps(w, [StartRefresh(id, c)] + Advances(id, 17)), c);
  }

  lemma ArmedCommits(v: World, c: nat)
    requires c < |v.candidates| && v.candidates[c].commitPrepared
    requires InOrder(v, v.candidates[c].entry, v.candidates[c].before)
    requires v.facts.package == Some(v.candidates[c].package) && v.candidates[c].next.revision > v.highest
    ensures Commits(v, Commit(c, v.candidates[c].next), c)
    ensures Step(v, Commit(c, v.candidates[c].next)).facts.selection == Some(v.candidates[c].next)
  {
  }

  // ---------- what a commit does not survive ----------

  /** Once the owner has closed nothing commits any more, in any run. */
  lemma NothingCommitsAfterClose(w: World, events: seq<Event>, later: Event, c: nat)
    ensures !Commits(Steps(Step(w, CloseOwner), events), later, c)
  {
    ClosedCommitsNothing(Step(w, CloseOwner), events, later, c);
  }

  /** A refreshed candidate does not commit when the facts have changed meanwhile, and its refresh is used up. */
  lemma ChangedFactsRefuseCommit(w: World, facts: Facts, c: nat)
    requires c < |w.candidates| && w.candidates[c].commitPrepared && WriteAllowed(w, facts)
    requires !SyncUnchanged(facts, w.candidates[c].entry, w.candidates[c].before, w.candidates[c].package)
    ensures var u := Step(w, Environment(facts));
            var v := Step(u, Commit(c, w.candidates[c].next));
            && !Commits(u, Commit(c, w.candidates[c].next), c) && v.facts == facts
            && |v.candidates| == |w.candidates| && !v.candidates[c].commitPrepared
  {
    var u := Step(w, Environment(facts));
    if Commits(u, Commit(c, w.candidates[c].next), c) {
      CommitFindsPreparedFacts(u, Commit(c, w.candidates[c].next), c);
    }
  }

  // ---------- how many operations are under way ----------

  lemma PendingGrowsByStarts(w: World, e: Event)
    ensures |Step(w, e).pending| <= |w.pending|
         || ((e.StartPrepare? || e.StartRefresh?) && !w.closed && |w.pending| < 128
             && |Step(w, e).pending| == |w.pending| + 1)
  {
    match e
    case Advance(id) => if id in w.pending { AdvanceAddsNothing(w, id); }
    case StartPrepare(id, r) => StartAddsOne(w, id, Step(w, e));
    case StartRefresh(id, c) => StartAddsOne(w, id, Step(w, e));
    case _ =>
  }

  lemma StartAddsOne(w: World, id: nat, v: World)
    requires v.pending == w.pending
          || (id !in w.pending && id in v.pending && v.pending == w.pending[id := v.pending[id]])
    ensures v.pending == w.pending || |v.pending| == |w.pending| + 1
  {
    if v.pending != w.pending { assert v.pending.Keys == w.pending.Keys + {id}; }
  }

  lemma AdvanceAddsNothing(w: World, id: nat)
    requires id in w.pending
    ensures |AdvanceOperation(w, id).pending| <= |w.pending|
  {
    var v := AdvanceOperation(w, id);
    assert v.pending.Keys <= w.pending.Keys;
    var gone := w.pending.Keys - v.pending.Keys;
    assert w.pending.Keys == v.pending.Keys + gone;
  }

  /** In every run at most 128 operations are pending, and none starts after the owner closes. */
  lemma {:induction false} PendingIsBounded(w: World, events: seq<Event>)
    requires |w.pending| <= 128
    ensures |Steps(w, events).pending| <= 128
    ensures w.closed ==> Steps(w, events).closed && |Steps(w, events).pending| <= |w.pending|
    decreases |events|
  {
    if events != [] {
      PendingGrowsByStarts(w, events[0]);
      if w.closed { StaysClosed(w, events[0]); }
      PendingIsBounded(Step(w, events[0]), events[1..]);
    }
  }

  lemma StaysClosed(w: World, e: Event)
    requires w.closed
    ensures Step(w, e).closed
  {
  }

  // ---------- two refreshes of one candidate ----------

  /** A refresh that has only its last instruction left arms the candidate also when a newer refresh, of which nothing
      has been checked yet, has just disarmed it. */
  lemma OlderRefreshArms(w: World, id: nat, op: Operation, c: nat, newer: nat)
    requires Underway(w, id, op, 16) && op.purpose == Refresh(c) && c < |w.candidates|
    requires !w.closed && newer !in w.pending && |w.pending| < 128
    ensures var v := Steps(w, [StartRefresh(newer, c), Advance(newer), Advance(id)]);
            && v.log == w.log + [RefreshStarted(c, newer), RefreshDone(c, id)]
            && c < |v.candidates| && v.candidates[c].commitPrepared && v.facts == w.facts
  {
    NewerDisarms(w, c, newer);
    var x := Step(Step(w, StartRefresh(newer, c)), Advance(newer));
    OnlyArmsLeft(x, id, c);
    ThreeSteps(w, StartRefresh(newer, c), Advance(newer), Advance(id));
  }

  lemma NewerDisarms(w: World, c: nat, newer: nat)
    requires !w.closed && newer !in w.pending && |w.pending| < 128 && c < |w.candidates|
    ensures var x := Step(Step(w, StartRefresh(newer, c)), Advance(newer));
            && |x.candidates| == |w.candidates| && x.log == w.log + [RefreshStarted(c, newer)] && x.facts == w.facts
            && forall id | id in w.pending :: id in x.pending && x.pending[id] == w.pending[id]
  {
    var u := Step(w, StartRefresh(newer, c));
    assert u.pending[newer].script == REFRESH && REFRESH[0] == Disarm;
  }

  lemma OnlyArmsLeft(x: World, id: nat, c: nat)
    requires id in x.pending && x.pending[id].script == REFRESH[16..] && x.pending[id].purpose == Refresh(c)
    requires x.pending[id].id == id && c < |x.candidates|
    ensures var v := Step(x, Advance(id));
            && v.log == x.log + [RefreshDone(c, id)] && v.facts == x.facts
            && c < |v.candidates| && v.candidates[c].commitPrepared
  {
    assert x.pending[id].script == [Arm];
  }

  lemma ThreeSteps(w: World, a: Event, b: Event, c: Event)
    ensures Steps(w, [a, b, c]) == Step(Step(Step(w, a), b), c)
  {
    assert [a, b, c][1..] == [b, c] && [b, c][1..] == [c] && [c][1..] == [];
    assert Steps(Step(Step(w, a), b), [c]) == Steps(Step(Step(Step(w, a), b), c), []);
  }
}
