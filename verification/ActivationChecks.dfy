/** What was checked, and in which order, before a candidate is issued and before it commits. */
module ActivationChecks {
  import opened Wrappers
  import opened Activation

  /** The world after the first i events of a run. */
  function Moment(w: World, events: seq<Event>, i: nat): World
    requires i <= |events|
  {
    Steps(w, events[..i])
  }

  lemma {:induction false} StepsSnoc(w: World, events: seq<Event>, e: Event)
    ensures Steps(w, events + [e]) == Step(Steps(w, events), e)
    decreases |events|
  {
    if events == [] {
      assert events + [e] == [e];
      assert Steps(Step(w, e), []) == Step(w, e);
    } else {
      assert (events + [e])[1..] == events[1..] + [e];
      StepsSnoc(Step(w, events[0]), events[1..], e);
    }
  }

  /** A run is the run up to an event, and then that event. */
  lemma NextMoment(w: World, events: seq<Event>, i: nat)
    requires i < |events|
    ensures Moment(w, events, i + 1) == Step(Moment(w, events, i), events[i])
  {
    assert events[..i + 1] == events[..i] + [events[i]];
    StepsSnoc(w, events[..i], events[i]);
  }

  lemma EarlierMoment(w: World, events: seq<Event>, n: nat, i: nat)
    requires i <= n <= |events|
    ensures Moment(w, events[..n], i) == Moment(w, events, i)
  {
    assert events[..n][..i] == events[..i];
  }

  // ---------- what an operation has done so far ----------

  /** One instruction of operation `before` ran at moment i and held there. */
  ghost predicate Ran(w: World, events: seq<Event>, i: nat, before: Operation, after: Operation) {
    && i < |events| && before.script != [] && Runs(Moment(w, events, i), events[i], before)
    && Holds(before.script[0], before, Moment(w, events, i))
    && after == Read(before.script[0], before, Moment(w, events, i).facts)
  }

  /** The event advances this pending operation. */
  ghost predicate Runs(v: World, e: Event, op: Operation) {
    e.Advance? && e.id in v.pending && v.pending[e.id] == op
  }

  /** The operation's record after each instruction it has run, at rising moments after its start; `times[0]` is the
      moment it started at. */
  ghost predicate Traced(w: World, events: seq<Event>, times: seq<nat>, ops: seq<Operation>) {
    && |times| == |ops| > 0 && times[0] < |events|
    && (forall j, k | 0 <= j < k < |times| :: times[j] < times[k])
    && (forall j | 1 <= j < |times| :: Ran(w, events, times[j], ops[j - 1], ops[j]))
    && Begins(Moment(w, events, times[0]), ops[0])
  }

  /** The operation as it starts in a world. */
  ghost predicate Begins(w: World, op: Operation) {
    match op.purpose
    case Refresh(c) =>
      c < |w.candidates|
      && op == Operation(op.id, Refresh(c), REFRESH, w.candidates[c].entry, None, None, Some(w.candidates[c].before))
    case Prepare(r) => op == Operation(op.id, Prepare(r), PREPARE, r.entry, None, None, None)
  }

  ghost predicate TracedTo(w: World, events: seq<Event>, op: Operation) {
    exists times: seq<nat>, ops: seq<Operation> :: Traced(w, events, times, ops) && ops[|ops| - 1] == op
  }

  lemma TraceGrows(w: World, events: seq<Event>, e: Event, times: seq<nat>, ops: seq<Operation>)
    requires Traced(w, events, times, ops)
    ensures Traced(w, events + [e], times, ops)
  {
    forall i | 0 <= i <= |events| ensures Moment(w, events + [e], i) == Moment(w, events, i) {
      assert (events + [e])[..i] == events[..i];
    }
    forall j | 1 <= j < |times| ensures Ran(w, events + [e], times[j], ops[j - 1], ops[j]) {
      assert Ran(w, events, times[j], ops[j - 1], ops[j]);
    }
  }

  lemma TraceContinues(w: World, events: seq<Event>, e: Event, op: Operation, next: Operation)
    requires TracedTo(w, events, op) && op.script != [] && Holds(op.script[0], op, Steps(w, events))
    requires next == Read(op.script[0], op, Steps(w, events).facts) && Runs(Steps(w, events), e, op)
    ensures TracedTo(w, events + [e], next)
  {
    var times: seq<nat>, ops: seq<Operation> :| Traced(w, events, times, ops) && ops[|ops| - 1] == op;
    TraceGrows(w, events, e, times, ops);
    assert (events + [e])[..|events|] == events;
    TimesBefore(w, events, times, ops);
    var longer, more := times + [|events|], ops + [next];
    forall j | 1 <= j < |longer| ensures Ran(w, events + [e], longer[j], more[j - 1], more[j]) {
      if j < |times| { assert Ran(w, events + [e], times[j], ops[j - 1], ops[j]); }
    }
    assert Traced(w, events + [e], longer, more);
  }

  lemma TimesBefore(w: World, events: seq<Event>, times: seq<nat>, ops: seq<Operation>)
    requires Traced(w, events, times, ops)
    ensures forall j | 0 <= j < |times| :: times[j] < |events|
  {
    forall j | 0 <= j < |times| ensures times[j] < |events| {
      if j > 0 { assert Ran(w, events, times[j], ops[j - 1], ops[j]); }
    }
  }

  lemma TraceStays(w: World, events: seq<Event>, e: Event, op: Operation)
    requires TracedTo(w, events, op)
    ensures TracedTo(w, events + [e], op)
  {
    var times: seq<nat>, ops: seq<Operation> :| Traced(w, events, times, ops) && ops[|ops| - 1] == op;
    TraceGrows(w, events, e, times, ops);
  }

  lemma TraceBegins(w: World, events: seq<Event>, e: Event, op: Operation)
    requires Begins(Steps(w, events), op)
    ensures TracedTo(w, events + [e], op)
  {
    assert (events + [e])[..|events|] == events;
    assert Traced(w, events + [e], [|events|], [op]);
  }

  /** An operation that is pending was pending before, has just run one instruction, or has just begun. */
  lemma PendingAfterStep(w: World, e: Event, id: nat)
    requires id in Step(w, e).pending
    ensures var next := Step(w, e).pending[id];
            || Begins(w, next)
            || (id in w.pending
                && var op := w.pending[id];
                   (next == op
                    || (e == Advance(id) && op.script != [] && Holds(op.script[0], op, w)
                        && next == Read(op.script[0], op, w.facts))))
  {
    match e
    case Advance(k) =>
      if k in w.pending { PendingAfterAdvance(w, k, id); }
    case _ =>
  }

  lemma PendingAfterAdvance(w: World, k: nat, id: nat)
    requires k in w.pending && id in AdvanceOperation(w, k).pending
    ensures id in w.pending
    ensures var op, next := w.pending[id], AdvanceOperation(w, k).pending[id];
            && (k != id ==> next == op)
            && (k == id ==> op.script != [] && Holds(op.script[0], op, w)
                            && next == Read(op.script[0], op, w.facts))
  {
  }

  /** In every run, everything a pending operation has behind it did happen, in its order. */
  lemma {:induction false} PendingIsTraced(w: World, events: seq<Event>, id: nat)
    requires w.pending == map[] && id in Steps(w, events).pending
    ensures TracedTo(w, events, Steps(w, events).pending[id])
    decreases |events|
  {
    if events != [] {
      var n := |events| - 1;
      var earlier, e := events[..n], events[n];
      var v := Steps(w, earlier);
      assert events == earlier + [e];
      StepsSnoc(w, earlier, e);
      PendingAfterStep(v, e, id);
      var next := Step(v, e).pending[id];
      if Begins(v, next) {
        TraceBegins(w, earlier, e, next);
      } else {
        PendingIsTraced(w, earlier, id);
        if next == v.pending[id] {
          TraceStays(w, earlier, e, next);
        } else {
          TraceContinues(w, earlier, e, v.pending[id], next);
        }
      }
    }
  }

  // ---------- what the checks found ----------

  /** At moment i the process owns the profile, and the registration is the prepared one. */
  ghost predicate RegisteredAt(w: World, events: seq<Event>, i: nat, entry: Entry) {
    i <= |events| && var v := Moment(w, events, i);
    v.facts.owner && !v.closed && v.facts.registration == entry.registration
  }

  /** At moment i the process owns the profile, and selection, configuration and deployment are the prepared ones. */
  ghost predicate UnchangedAt(w: World, events: seq<Event>, i: nat, entry: Entry, before: Selection) {
    i <= |events| && var v := Moment(w, events, i);
    && v.facts.owner && !v.closed && v.facts.selection == Some(before) && v.facts.package.Some?
    && v.facts.configuration == entry.configuration && v.facts.deployment == Some(entry.deployment)
  }

  /** Strictly between two moments the facts were checked. */
  ghost predicate CheckedBetween(
    w: World, events: seq<Event>, start: nat, end: nat, entry: Entry, before: Selection)
  {
    exists r: nat, f: nat :: start < r < f < end && RegisteredAt(w, events, r, entry)
                             && UnchangedAt(w, events, f, entry, before)
  }

  /** At a moment strictly in between the policy allows the activation. */
  predicate AllowedAt(w: World, events: seq<Event>, i: nat) { i <= |events| && Moment(w, events, i).facts.allowed }

  predicate ReadyAt(w: World, events: seq<Event>, i: nat) { i <= |events| && Moment(w, events, i).facts.peerReady }

  lemma {:induction false} TracedScript(
    w: World, events: seq<Event>, times: seq<nat>, ops: seq<Operation>, j: nat)
    requires Traced(w, events, times, ops) && j < |ops|
    ensures j <= |ops[0].script| && ops[j].script == ops[0].script[j..]
    ensures ops[j].id == ops[0].id && ops[j].purpose == ops[0].purpose && ops[j].entry == ops[0].entry
    ensures ops[0].purpose.Refresh? ==> Accept !in ops[0].script
    ensures ops[0].purpose.Refresh? ==> ops[j].before == ops[0].before
    decreases j
  {
    if j > 0 {
      TracedScript(w, events, times, ops, j - 1);
      assert Ran(w, events, times[j], ops[j - 1], ops[j]);
      assert ops[j - 1].script[0] == ops[0].script[j - 1];
    }
  }

  /** The instruction an operation ran when it had run j before. */
  lemma RanInstruction(w: World, events: seq<Event>, times: seq<nat>, ops: seq<Operation>, j: nat)
    requires Traced(w, events, times, ops) && j + 1 < |ops|
    ensures j < |ops[0].script| && times[j + 1] < |events|
    ensures Holds(ops[0].script[j], ops[j], Moment(w, events, times[j + 1]))
    ensures ops[j + 1] == Read(ops[0].script[j], ops[j], Moment(w, events, times[j + 1]).facts)
  {
    TracedScript(w, events, times, ops, j);
    TracedScript(w, events, times, ops, j + 1);
    assert Ran(w, events, times[j + 1], ops[j], ops[j + 1]);
    assert ops[j].script[0] == ops[0].script[j];
  }

  lemma RegistrationWasRead(w: World, events: seq<Event>, times: seq<nat>, ops: seq<Operation>, j: nat)
    requires Traced(w, events, times, ops) && j + 1 < |ops| && j < |ops[0].script|
    requires ops[0].script[j] == LoadRegistration
    ensures RegisteredAt(w, events, times[j + 1], ops[0].entry)
  {
    RanInstruction(w, events, times, ops, j);
    TracedScript(w, events, times, ops, j);
  }

  lemma RestWasRead(w: World, events: seq<Event>, times: seq<nat>, ops: seq<Operation>, j: nat)
    requires Traced(w, events, times, ops) && j + 1 < |ops| && j < |ops[0].script|
    requires ops[0].script[j] == SyncCheck
    ensures var op, at := ops[j + 1], times[j + 1];
            && at < |events| && op.selection.Some? && op.package.Some?
            && UnchangedAt(w, events, at, ops[0].entry, op.selection.value)
            && Moment(w, events, at).facts.package == op.package
  {
    RanInstruction(w, events, times, ops, j);
    TracedScript(w, events, times, ops, j);
  }

  /** Running the six reads of the facts in a row leaves a moment at which the registration and a later one at which
      everything else was the prepared one. */
  lemma FactsWereRead(w: World, events: seq<Event>, times: seq<nat>, ops: seq<Operation>, j: nat)
    requires Traced(w, events, times, ops) && j + 6 < |ops| && j + 6 <= |ops[0].script|
    requires ops[0].script[j..j + 6] == FACTS
    ensures RegisteredAt(w, events, times[j + 4], ops[0].entry)
    ensures var op, at := ops[j + 6], times[j + 6];
            && at < |events| && op.before == ops[j].before && op.selection.Some? && op.package.Some?
            && UnchangedAt(w, events, at, ops[0].entry, op.selection.value)
            && Moment(w, events, at).facts.package == op.package
  {
    FactsInScript(ops[0].script, j);
    RegistrationWasRead(w, events, times, ops, j + 3);
    RestWasRead(w, events, times, ops, j + 5);
    BeforeKept(w, events, times, ops, j, 6);
  }

  lemma FactsInScript(script: seq<Instruction>, j: nat)
    requires j + 6 <= |script| && script[j..j + 6] == FACTS
    ensures script[j + 3] == LoadRegistration && script[j + 5] == SyncCheck
    ensures forall i | j <= i < j + 6 :: script[i] != Accept
  {
    assert script[j + 3] == FACTS[3] && script[j + 5] == FACTS[5];
    forall i | j <= i < j + 6 ensures script[i] != Accept { assert script[i] == FACTS[i - j]; }
  }

  lemma BeforeKeptOnce(w: World, events: seq<Event>, times: seq<nat>, ops: seq<Operation>, j: nat)
    requires Traced(w, events, times, ops) && j + 1 < |ops| && j < |ops[0].script| && ops[0].script[j] != Accept
    ensures ops[j + 1].before == ops[j].before
  {
    RanInstruction(w, events, times, ops, j);
  }

  lemma {:induction false} BeforeKept(
    w: World, events: seq<Event>, times: seq<nat>, ops: seq<Operation>, j: nat, n: nat)
    requires Traced(w, events, times, ops) && j + n < |ops| && j + n <= |ops[0].script|
    requires forall i | j <= i < j + n :: ops[0].script[i] != Accept
    ensures ops[j + n].before == ops[j].before
    decreases n
  {
    if n > 0 {
      BeforeKept(w, events, times, ops, j, n - 1);
      BeforeKeptOnce(w, events, times, ops, j + n - 1);
    }
  }

  /** Reading the facts and comparing the selection checks them between what came before and what comes after. */
  lemma UnchangedWasChecked(
    w: World, events: seq<Event>, times: seq<nat>, ops: seq<Operation>, j: nat, before: Selection, end: nat)
    requires Traced(w, events, times, ops) && j + 7 < |ops| && j + 7 <= |ops[0].script|
    requires ops[0].script[j..j + 7] == UNCHANGED && ops[j].before == Some(before)
    requires times[j + 6] < end
    ensures CheckedBetween(w, events, times[j], end, ops[0].entry, before)
  {
    assert ops[0].script[j..j + 6] == ops[0].script[j..j + 7][..6] == FACTS;
    FactsWereRead(w, events, times, ops, j);
    RanInstruction(w, events, times, ops, j + 6);
    assert ops[0].script[j + 6] == ops[0].script[j..j + 7][6] == CompareSelection;
    assert times[j] < times[j + 4] < times[j + 6];
  }

  // ---------- before a refresh arms a candidate ----------

  /** At moment s a refresh of candidate c begins, as operation id. */
  ghost predicate StartsRefresh(w: World, events: seq<Event>, s: nat, c: nat, id: nat) {
    s < |events| && Moment(w, events, s + 1).log == Moment(w, events, s).log + [RefreshStarted(c, id)]
  }

  /** At moment n the refresh of candidate c that is operation id finishes. */
  ghost predicate EndsRefresh(w: World, events: seq<Event>, n: nat, c: nat, id: nat) {
    n < |events| && Moment(w, events, n + 1).log == Moment(w, events, n).log + [RefreshDone(c, id)]
  }

  /** Between s and n the facts were checked, then the policy allowed the activation, then the facts were checked
      again. */
  ghost predicate Reviewed(w: World, events: seq<Event>, s: nat, n: nat, entry: Entry, before: Selection) {
    exists d: nat :: s < d < n && AllowedAt(w, events, d) && CheckedBetween(w, events, s, d, entry, before)
                     && CheckedBetween(w, events, d, n, entry, before)
  }

  ghost predicate ReviewedSinceStart(w: World, events: seq<Event>, n: nat, c: nat, id: nat, k: Candidate) {
    exists s: nat :: s < n && StartsRefresh(w, events, s, c, id) && Reviewed(w, events, s, n, k.entry, k.before)
  }

  lemma {:induction false} CandidateKept(w: World, events: seq<Event>, i: nat, n: nat, c: nat)
    requires i <= n <= |events| && c < |Moment(w, events, i).candidates|
    ensures Kept(Moment(w, events, i), Moment(w, events, n), c)
    decreases n - i
  {
    if i < n {
      CandidateKept(w, events, i, n - 1, c);
      CandidateKeptNext(w, events, n - 1, c);
      KeptJoins(Moment(w, events, i), Moment(w, events, n - 1), Moment(w, events, n), c);
    }
  }

  lemma CandidateKeptNext(w: World, events: seq<Event>, n: nat, c: nat)
    requires n < |events| && c < |Moment(w, events, n).candidates|
    ensures Kept(Moment(w, events, n), Moment(w, events, n + 1), c)
  {
    NextMoment(w, events, n);
    CandidateKeptByStep(Moment(w, events, n), events[n], c);
  }

  lemma KeptJoins(u: World, v: World, x: World, c: nat)
    requires Kept(u, v, c) && Kept(v, x, c)
    ensures Kept(u, x, c)
  {
  }

  ghost predicate Kept(v: World, u: World, c: nat) {
    c < |v.candidates| && c < |u.candidates|
    && var k, l := v.candidates[c], u.candidates[c]; l == k.(commitPrepared := l.commitPrepared)
  }

  lemma CandidateKeptByStep(v: World, e: Event, c: nat)
    requires c < |v.candidates|
    ensures Kept(v, Step(v, e), c)
  {
    match e
    case Advance(id) => if id in v.pending { CandidateKeptByAdvance(v, id, c); }
    case Commit(d, selection) => if d < |v.candidates| { CandidateKeptByCommit(v, d, selection, c); }
    case _ =>
  }

  lemma CandidateKeptByAdvance(v: World, id: nat, c: nat)
    requires id in v.pending && c < |v.candidates|
    ensures Kept(v, AdvanceOperation(v, id), c)
  {
    var op := v.pending[id];
    if op.script != [] && Holds(op.script[0], op, v) { CandidateKeptByEffect(v, op, c); }
  }

  lemma CandidateKeptByEffect(v: World, op: Operation, c: nat)
    requires op.script != [] && Holds(op.script[0], op, v) && c < |v.candidates|
    ensures Kept(v, Effect(op.script[0], op, v), c)
  {
  }

  lemma CandidateKeptByCommit(v: World, d: nat, selection: Selection, c: nat)
    requires d < |v.candidates| && c < |v.candidates|
    ensures Kept(v, CommitSelection(v, d, selection), c)
  {
  }

  /** Only running the last instruction of a refresh logs its end. */
  lemma EndedByItsOperation(v: World, e: Event, c: nat, id: nat) returns (op: Operation)
    requires Step(v, e).log == v.log + [RefreshDone(c, id)]
    ensures Runs(v, e, op) && op.script != [] && op.script[0] == Arm && op.purpose == Refresh(c) && op.id == id
  {
    assert Step(v, e).log[|v.log|] == RefreshDone(c, id);
    op := v.pending[e.id];
  }

  lemma StartLogged(w: World, events: seq<Event>, i: nat, before: Operation, after: Operation)
    requires Ran(w, events, i, before, after) && before.script[0] == Disarm
    ensures before.purpose.Refresh? && StartsRefresh(w, events, i, before.purpose.candidate, before.id)
  {
    NextMoment(w, events, i);
  }

  lemma RefreshScript()
    ensures |REFRESH| == 17 && REFRESH[0] == Disarm && REFRESH[1..8] == UNCHANGED && REFRESH[8] == Decide
    ensures REFRESH[9..16] == UNCHANGED && forall j | 0 <= j < 17 :: REFRESH[j] == Arm <==> j == 16
  {
  }

  /** Everything a refresh has behind it when its last instruction runs. */
  lemma RefreshTrace(w: World, events: seq<Event>, n: nat, c: nat, id: nat)
    returns (times: seq<nat>, ops: seq<Operation>)
    requires Initial(w) && EndsRefresh(w, events, n, c, id)
    ensures Traced(w, events, times, ops) && |ops| == 17 && times[16] < n
    ensures ops[0].script == REFRESH && ops[0].purpose == Refresh(c) && ops[0].id == id
    ensures forall j | 0 <= j < 17 :: ops[j].before == ops[0].before
  {
    NextMoment(w, events, n);
    var v, e := Moment(w, events, n), events[n];
    var op := EndedByItsOperation(v, e, c, id);
    PendingIsTraced(w, events[..n], e.id);
    times, ops :| Traced(w, events[..n], times, ops) && ops[|ops| - 1] == op;
    TimesBefore(w, events[..n], times, ops);
    TraceOfPrefix(w, events, n, times, ops);
    var last := |ops| - 1;
    TracedScript(w, events, times, ops, last);
    assert op.script[0] == ops[0].script[last];
    RefreshScript();
    forall j | 0 <= j < 17 ensures ops[j].before == ops[0].before { TracedScript(w, events, times, ops, j); }
  }

  lemma TraceOfPrefix(w: World, events: seq<Event>, n: nat, times: seq<nat>, ops: seq<Operation>)
    requires n <= |events| && Traced(w, events[..n], times, ops)
    ensures Traced(w, events, times, ops)
  {
    forall i | 0 <= i <= n ensures Moment(w, events[..n], i) == Moment(w, events, i) { EarlierMoment(w, events, n, i); }
    forall j | 1 <= j < |times| ensures Ran(w, events, times[j], ops[j - 1], ops[j]) {
      assert Ran(w, events[..n], times[j], ops[j - 1], ops[j]);
    }
  }

  /** In every run a refresh arms its candidate only after it has, since its own start, found the facts unchanged, then
      the activation allowed, then the facts unchanged again. */
  lemma RefreshWasReviewed(w: World, events: seq<Event>, n: nat, c: nat, id: nat)
    requires Initial(w) && EndsRefresh(w, events, n, c, id)
    ensures c < |Moment(w, events, n).candidates|
    ensures ReviewedSinceStart(w, events, n, c, id, Moment(w, events, n).candidates[c])
  {
    var times, ops := RefreshTrace(w, events, n, c, id);
    RefreshScript();
    CandidateKept(w, events, times[0], n, c);
    var k := Moment(w, events, n).candidates[c];
    assert Ran(w, events, times[1], ops[0], ops[1]);
    StartLogged(w, events, times[1], ops[0], ops[1]);
    UnchangedWasChecked(w, events, times, ops, 1, k.before, times[9]);
    RanInstruction(w, events, times, ops, 8);
    UnchangedWasChecked(w, events, times, ops, 9, k.before, n);
    assert AllowedAt(w, events, times[9]);
    assert Reviewed(w, events, times[1], n, k.entry, k.before);
  }

  // ---------- before a commit ----------

  /** The last entry of a refreshed candidate is the end of a refresh. */
  lemma {:induction false} LastRefresh(log: seq<Entered>, c: nat) returns (i: nat)
    requires Refreshed(log, c)
    ensures i < |log| && log[i].RefreshDone? && log[i].candidate == c
    ensures forall j | i < j < |log| :: About(log[j]) != c
  {
    if About(log[|log| - 1]) == c {
      i := |log| - 1;
    } else {
      i := LastRefresh(log[..|log| - 1], c);
    }
  }

  /** The moment at which an entry was logged. */
  lemma {:induction false} LoggedAt(w: World, events: seq<Event>, i: nat) returns (n: nat)
    requires w.log == [] && i < |Steps(w, events).log|
    ensures n < |events| && Moment(w, events, n).log == Steps(w, events).log[..i]
    ensures Moment(w, events, n + 1).log == Steps(w, events).log[..i + 1]
    decreases |events|
  {
    var last := |events| - 1;
    var v := Moment(w, events, last);
    assert Moment(w, events, |events|) == Steps(w, events) by { assert events[..|events|] == events; }
    NextMoment(w, events, last);
    StepGrowsLog(v, events[last]);
    if i < |v.log| {
      n := LoggedAt(w, events[..last], i);
      EarlierMoment(w, events, last, n);
      EarlierMoment(w, events, last, n + 1);
      assert Steps(w, events).log[..i] == v.log[..i] && Steps(w, events).log[..i + 1] == v.log[..i + 1];
    } else {
      n := last;
      assert Steps(w, events).log[..i] == v.log && Steps(w, events).log[..i + 1] == Steps(w, events).log;
    }
  }

  /** At moment n a refresh of c finished that had reviewed everything since its own start, and nothing else has been
      logged about c since. */
  ghost predicate LastReviewed(w: World, events: seq<Event>, n: nat, c: nat, id: nat, k: Candidate) {
    && EndsRefresh(w, events, n, c, id) && ReviewedSinceStart(w, events, n, c, id, k)
    && var done, log := |Moment(w, events, n + 1).log|, Steps(w, events).log;
       forall i | done <= i < |log| :: About(log[i]) != c
  }

  lemma ReviewedWhenLogged(w: World, events: seq<Event>, i: nat, c: nat) returns (n: nat)
    requires Initial(w) && i < |Steps(w, events).log| && c < |Steps(w, events).candidates|
    requires Steps(w, events).log[i].RefreshDone? && Steps(w, events).log[i].candidate == c
    ensures n < |events| && |Moment(w, events, n + 1).log| == i + 1
    ensures var id := Steps(w, events).log[i].operation;
            EndsRefresh(w, events, n, c, id) && ReviewedSinceStart(w, events, n, c, id, Steps(w, events).candidates[c])
  {
    var v := Steps(w, events);
    n := LoggedAt(w, events, i);
    assert v.log[..i + 1] == v.log[..i] + [v.log[i]];
    RefreshWasReviewed(w, events, n, c, v.log[i].operation);
    assert events[..|events|] == events;
    CandidateKept(w, events, n, |events|, c);
  }

  /** In every run, a commit follows a refresh of its candidate that found, since its own start, the facts unchanged,
      the activation allowed and the facts unchanged again; and nothing else happened to the candidate in between. */
  lemma CommitWasReviewed(w: World, events: seq<Event>, later: Event, c: nat) returns (n: nat, id: nat)
    requires Initial(w) && Commits(Steps(w, events), later, c)
    ensures c < |Steps(w, events).candidates|
    ensures LastReviewed(w, events, n, c, id, Steps(w, events).candidates[c])
  {
    var v := Steps(w, events);
    CommitFindsPreparedFacts(v, later, c);
    StepsKeepLog(w, events);
    var i := LastRefresh(v.log, c);
    n := ReviewedWhenLogged(w, events, i, c);
    id := v.log[i].operation;
  }

  // ---------- before a candidate is issued ----------

  /** At moment f, between s and n, everything including the package was what the candidate was prepared from. */
  ghost predicate PreparedBetween(w: World, events: seq<Event>, s: nat, n: nat, k: Candidate) {
    exists r: nat, f: nat :: s < r < f < n && RegisteredAt(w, events, r, k.entry)
      && UnchangedAt(w, events, f, k.entry, k.before) && Moment(w, events, f).facts.package == Some(k.package)
  }

  /** By moment n the facts were found as prepared, the activation allowed, the peer ready and the activation allowed
      again, in this order, with the facts unchanged before and after each. */
  ghost predicate Vetted(w: World, events: seq<Event>, n: nat, k: Candidate) {
    exists d: nat, p: nat, q: nat ::
      && d < p < q < n && AllowedAt(w, events, d) && ReadyAt(w, events, p) && AllowedAt(w, events, q)
      && PreparedBetween(w, events, 0, d, k) && CheckedBetween(w, events, d, p, k.entry, k.before)
      && CheckedBetween(w, events, p, q, k.entry, k.before) && CheckedBetween(w, events, q, n, k.entry, k.before)
  }

  /** At moment n candidate c is issued. */
  ghost predicate Issues(w: World, events: seq<Event>, n: nat, c: nat) {
    n < |events| && |Moment(w, events, n).candidates| == c < |Moment(w, events, n + 1).candidates|
  }

  lemma IssuedByItsOperation(v: World, e: Event) returns (op: Operation)
    requires |Step(v, e).candidates| > |v.candidates|
    ensures Runs(v, e, op) && op.script != [] && op.script[0] == Issue && op.purpose.Prepare?
    ensures op.before.Some? && op.purpose.request.package.Some?
    ensures Step(v, e).candidates == v.candidates
         + [Candidate(op.entry, op.before.value, op.purpose.request.package.value, op.purpose.request.next, false)]
  {
    OnlyAdvanceIssues(v, e);
    op := v.pending[e.id];
  }

  lemma OnlyAdvanceIssues(v: World, e: Event)
    requires |Step(v, e).candidates| > |v.candidates|
    ensures e.Advance? && e.id in v.pending
  {
  }

  /** Where the parts of two joined scripts are. */
  lemma Parts(s: seq<Instruction>, t: seq<Instruction>, i: Instruction)
    ensures var joined := s + t + [i];
            && |joined| == |s| + |t| + 1 && joined[..|s|] == s && joined[|s|..|s| + |t|] == t
            && joined[|s| + |t|] == i
            && (forall j | 0 <= j < |s| :: joined[j] == s[j])
            && (forall j | |s| <= j < |s| + |t| :: joined[j] == t[j - |s|])
  {
  }

  lemma UnchangedScript()
    ensures |UNCHANGED| == 7 && forall i | i in UNCHANGED :: i !in {Accept, Issue, Disarm, Arm}
  {
  }

  lemma AcceptedScript()
    ensures |ACCEPTED| == 10 && ACCEPTED[2..8] == FACTS && ACCEPTED[8] == Accept && ACCEPTED[9] == Decide
    ensures forall j | 0 <= j < 10 :: ACCEPTED[j] != Issue && (ACCEPTED[j] == Accept <==> j == 8)
  {
  }

  /** A script's first part keeps its places when more is joined to it. */
  lemma PartKept(s: seq<Instruction>, t: seq<Instruction>, i: Instruction, a: nat, b: nat)
    requires a <= b <= |s|
    ensures (s + t + [i])[a..b] == s[a..b]
  {
  }

  lemma AskedScript()
    ensures |ASKED| == 18 && ASKED[..10] == ACCEPTED && ASKED[2..8] == FACTS
    ensures ASKED[10..17] == UNCHANGED && ASKED[17] == AskPeer
    ensures forall j | 0 <= j < 18 :: ASKED[j] != Issue && (ASKED[j] == Accept <==> j == 8)
  {
    UnchangedScript();
    AcceptedScript();
    Parts(ACCEPTED, UNCHANGED, AskPeer);
    PartKept(ACCEPTED, UNCHANGED, AskPeer, 2, 8);
  }

  lemma VettedScript()
    ensures |VETTED| == 26 && VETTED[..18] == ASKED && VETTED[2..8] == FACTS && VETTED[10..17] == UNCHANGED
    ensures VETTED[18..25] == UNCHANGED && VETTED[25] == Decide
    ensures forall j | 0 <= j < 26 :: VETTED[j] != Issue && (VETTED[j] == Accept <==> j == 8)
  {
    UnchangedScript();
    AskedScript();
    Parts(ASKED, UNCHANGED, Decide);
    PartKept(ASKED, UNCHANGED, Decide, 2, 8);
    PartKept(ASKED, UNCHANGED, Decide, 10, 17);
  }

  lemma PrepareScript()
    ensures |PREPARE| == 34 && PREPARE[2..8] == FACTS && PREPARE[8] == Accept && PREPARE[9] == Decide
    ensures PREPARE[10..17] == UNCHANGED && PREPARE[17] == AskPeer && PREPARE[18..25] == UNCHANGED
    ensures PREPARE[25] == Decide && PREPARE[26..33] == UNCHANGED
    ensures forall j | 0 <= j < 34 :: PREPARE[j] == Issue <==> j == 33
    ensures forall j | 0 <= j < 34 :: PREPARE[j] == Accept <==> j == 8
  {
    UnchangedScript();
    VettedScript();
    Parts(VETTED, UNCHANGED, Issue);
    PartKept(VETTED, UNCHANGED, Issue, 2, 8);
    PartKept(VETTED, UNCHANGED, Issue, 10, 17);
    PartKept(VETTED, UNCHANGED, Issue, 18, 25);
    DecisionsAndPeer();
  }

  lemma DecisionsAndPeer()
    ensures PREPARE[9] == Decide && PREPARE[17] == AskPeer && PREPARE[25] == Decide
  {
    AcceptedScript();
    AskedScript();
    VettedScript();
    Parts(VETTED, UNCHANGED, Issue);
    assert PREPARE[9] == VETTED[9] == VETTED[..18][9] == ASKED[9] == ASKED[..10][9] == ACCEPTED[9];
    assert PREPARE[17] == VETTED[17] == VETTED[..18][17] == ASKED[17];
  }

  /** Everything a preparation has behind it when its last instruction runs. */
  lemma PrepareTrace(w: World, events: seq<Event>, n: nat, c: nat)
    returns (times: seq<nat>, ops: seq<Operation>)
    requires Initial(w) && Issues(w, events, n, c)
    ensures Traced(w, events, times, ops) && |ops| == 34 && times[33] < n
    ensures ops[0].script == PREPARE && ops[0].purpose.Prepare?
    ensures ops[33].before.Some? && ops[33].purpose == ops[0].purpose && ops[0].purpose.request.package.Some?
    ensures c < |Moment(w, events, n + 1).candidates|
    ensures Moment(w, events, n + 1).candidates[c]
         == Candidate(ops[0].entry, ops[33].before.value, ops[0].purpose.request.package.value,
                      ops[0].purpose.request.next, false)
  {
    NextMoment(w, events, n);
    var v, e := Moment(w, events, n), events[n];
    var op := IssuedByItsOperation(v, e);
    PendingIsTraced(w, events[..n], e.id);
    times, ops :| Traced(w, events[..n], times, ops) && ops[|ops| - 1] == op;
    TimesBefore(w, events[..n], times, ops);
    TraceOfPrefix(w, events, n, times, ops);
    var last := |ops| - 1;
    TracedScript(w, events, times, ops, last);
    assert op.script[0] == ops[0].script[last];
    PrepareScript();
  }

  /** The facts a preparation accepted are what its candidate carries. */
  lemma AcceptedFacts(w: World, events: seq<Event>, times: seq<nat>, ops: seq<Operation>, k: Candidate)
    requires Traced(w, events, times, ops) && |ops| == 34 && ops[0].script == PREPARE
    requires ops[33].before == Some(k.before) && ops[0].purpose.Prepare?
    requires ops[0].purpose.request.package == Some(k.package) && k.entry == ops[0].entry
    ensures PreparedBetween(w, events, 0, times[10], k)
    ensures forall j | 9 <= j < 34 :: ops[j].before == Some(k.before)
  {
    PrepareScript();
    FactsWereRead(w, events, times, ops, 2);
    RanInstruction(w, events, times, ops, 8);
    TracedScript(w, events, times, ops, 8);
    forall j | 9 <= j < 34 ensures ops[j].before == ops[9].before { NoFurtherAccept(w, events, times, ops, j); }
    assert times[0] < times[6] < times[8] < times[10];
  }

  lemma NoFurtherAccept(w: World, events: seq<Event>, times: seq<nat>, ops: seq<Operation>, j: nat)
    requires Traced(w, events, times, ops) && |ops| == 34 && ops[0].script == PREPARE && 9 <= j < 34
    ensures ops[j].before == ops[9].before
  {
    PrepareScript();
    BeforeKept(w, events, times, ops, 9, j - 9);
  }

  /** In every run a candidate is issued only after its preparation has found the facts as the candidate carries them,
      the activation allowed, the peer ready and the activation allowed again, in this order, with the facts unchanged
      before and after each. */
  lemma IssueWasVetted(w: World, events: seq<Event>, n: nat, c: nat)
    requires Initial(w) && Issues(w, events, n, c)
    ensures Vetted(w, events, n, Moment(w, events, n + 1).candidates[c])
  {
    var times, ops := PrepareTrace(w, events, n, c);
    var k := Moment(w, events, n + 1).candidates[c];
    PrepareScript();
    AcceptedFacts(w, events, times, ops, k);
    UnchangedWasChecked(w, events, times, ops, 10, k.before, times[18]);
    UnchangedWasChecked(w, events, times, ops, 18, k.before, times[26]);
    UnchangedWasChecked(w, events, times, ops, 26, k.before, n);
    RanInstruction(w, events, times, ops, 9);
    RanInstruction(w, events, times, ops, 17);
    RanInstruction(w, events, times, ops, 25);
    assert AllowedAt(w, events, times[10]) && ReadyAt(w, events, times[18]) && AllowedAt(w, events, times[26]);
  }
}
