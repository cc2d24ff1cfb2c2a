/** Exactly when a check scope returns normally, in terms of checks that all run where they are asked for. */
module OwnershipOutcome {
  import opened Wrappers
  import opened OwnershipCheck

  /** A check that was reached, and whether its file was valid then. */
  datatype Checked = Checked(key: Key, passed: bool)

  /** The checks reached when every one runs at its own call site, in order. */
  function DirectLog(invalid: set<Key>, actions: seq<Action>): seq<Checked>
    decreases actions, 0
  {
    if actions == [] then [] else
    var (outcome, next) := Direct(invalid, actions[0]);
    DirectLogOf(invalid, actions[0]) + if outcome.Threw? then [] else DirectLog(next, actions[1..])
  }

  function DirectLogOf(invalid: set<Key>, action: Action): seq<Checked>
    decreases action, 1
  {
    match action
    case Check(key) => [Checked(key, key !in invalid)]
    case Change(_) => []
    case Attempt(body) => DirectLog(invalid, body)
    case Scope(body, _, _) => DirectLog(invalid, body)
  }

  /** The files that have passed a check, in the order in which they first did. */
  function FirstPasses(log: seq<Checked>): seq<Key> {
    if log == [] then [] else
    var earlier, last := FirstPasses(log[..|log| - 1]), log[|log| - 1];
    if last.passed && last.key !in earlier then earlier + [last.key] else earlier
  }

  /** The file was checked again after it had passed. */
  ghost predicate CheckedAgain(log: seq<Checked>, key: Key) {
    exists i, j | 0 <= i < j < |log| :: log[i] == Checked(key, true) && log[j].key == key
  }

  /** A file that was checked again after it had passed, and is invalid by now. */
  ghost predicate Stale(log: seq<Checked>, invalid: set<Key>) {
    exists key | key in invalid :: CheckedAgain(log, key)
  }

  // ---------- the batch is what the direct run has checked ----------

  ghost predicate Mirrors(batch: seq<FileCheck>, log: seq<Checked>) {
    && |batch| == |FirstPasses(log)|
    && forall i | 0 <= i < |batch| ::
         batch[i].key == FirstPasses(log)[i] && (batch[i].repeated <==> CheckedAgain(log, batch[i].key))
  }

  lemma {:induction false} PassedIsListed(log: seq<Checked>, key: Key)
    ensures key in FirstPasses(log) <==> Checked(key, true) in log
    ensures forall i, j | 0 <= i < j < |FirstPasses(log)| :: FirstPasses(log)[i] != FirstPasses(log)[j]
  {
    if log != [] {
      var rest := log[..|log| - 1];
      assert log == rest + [log[|log| - 1]];
      PassedIsListed(rest, key);
    }
  }

  lemma AgainSnoc(log: seq<Checked>, c: Checked, key: Key)
    ensures CheckedAgain(log + [c], key) <==> CheckedAgain(log, key) || (c.key == key && Checked(key, true) in log)
  {
    var more := log + [c];
    if i, j :| 0 <= i < j < |more| && more[i] == Checked(key, true) && more[j].key == key {
      if j < |log| { assert log[i] == Checked(key, true) && log[j].key == key; }
    }
    if i, j :| 0 <= i < j < |log| && log[i] == Checked(key, true) && log[j].key == key {
      assert more[i] == Checked(key, true) && more[j].key == key;
    }
    if c.key == key && Checked(key, true) in log {
      var i :| 0 <= i < |log| && log[i] == Checked(key, true);
      assert more[i] == Checked(key, true) && more[|log|].key == key;
    }
  }

  lemma AgainGrows(log: seq<Checked>, more: seq<Checked>, key: Key)
    requires CheckedAgain(log, key)
    ensures CheckedAgain(log + more, key)
  {
    var i, j :| 0 <= i < j < |log| && log[i] == Checked(key, true) && log[j].key == key;
    assert (log + more)[i] == Checked(key, true) && (log + more)[j].key == key;
  }

  lemma FirstPassesSnoc(log: seq<Checked>, c: Checked)
    ensures FirstPasses(log + [c])
         == if c.passed && c.key !in FirstPasses(log) then FirstPasses(log) + [c.key] else FirstPasses(log)
  {
    assert (log + [c])[..|log|] == log;
  }

  /** How the batched run stands to the direct one: still the same, or both have met a stale file. */
  ghost predicate InStep(outcome: Outcome, t: State, direct: Outcome, invalid: set<Key>, log: seq<Checked>) {
    t.current.Some?
    && ((outcome == direct && t.invalid == invalid && Mirrors(t.current.value, log))
        || (Stale(log, invalid) && !RepeatedValid(t.current.value, t.invalid)))
  }

  lemma CheckInStep(s: State, c: Checked, log: seq<Checked>)
    requires s.current.Some? && Mirrors(s.current.value, log) && (c.passed <==> c.key !in s.invalid)
    ensures var (outcome, t) := CheckFile(s, c.key);
            InStep(outcome, t, if c.passed then Normal else Threw, s.invalid, log + [c])
  {
    FindFinds(s.current.value, c.key);
    var i := Find(s.current.value, c.key);
    if i.Some? { PassedAlready(s, c, log, i.value); } else { FirstCheck(s, c, log); }
  }

  lemma PassedAlready(s: State, c: Checked, log: seq<Checked>, i: nat)
    requires s.current.Some? && Mirrors(s.current.value, log) && (c.passed <==> c.key !in s.invalid)
    requires Find(s.current.value, c.key) == Some(i) && i < |s.current.value| && s.current.value[i].key == c.key
    ensures var (outcome, t) := CheckFile(s, c.key);
            InStep(outcome, t, if c.passed then Normal else Threw, s.invalid, log + [c])
  {
    var batch := s.current.value;
    var renewed := batch[i := FileCheck(c.key, true)];
    PassedIsListed(log, c.key);
    FirstPassesSnoc(log, c);
    AgainSnoc(log, c, c.key);
    assert renewed[i].repeated && renewed[i].key == c.key;
    if c.passed {
      forall j | 0 <= j < |renewed|
        ensures renewed[j].repeated <==> CheckedAgain(log + [c], renewed[j].key)
      {
        AgainSnoc(log, c, renewed[j].key);
        assert j != i ==> FirstPasses(log)[j] != FirstPasses(log)[i];
      }
    }
  }

  lemma FirstCheck(s: State, c: Checked, log: seq<Checked>)
    requires s.current.Some? && Mirrors(s.current.value, log) && (c.passed <==> c.key !in s.invalid)
    requires Find(s.current.value, c.key).None?
    requires forall i | 0 <= i < |s.current.value| :: s.current.value[i].key != c.key
    ensures var (outcome, t) := CheckFile(s, c.key);
            InStep(outcome, t, if c.passed then Normal else Threw, s.invalid, log + [c])
  {
    var batch := s.current.value;
    PassedIsListed(log, c.key);
    FirstPassesSnoc(log, c);
    forall i | 0 <= i < |batch| ensures batch[i].repeated <==> CheckedAgain(log + [c], batch[i].key) {
      AgainSnoc(log, c, batch[i].key);
    }
    AgainSnoc(log, c, c.key);
    if CheckedAgain(log, c.key) {
      var i, j :| 0 <= i < j < |log| && log[i] == Checked(c.key, true) && log[j].key == c.key;
      assert Checked(c.key, true) in log;
    }
  }

  lemma {:induction false} DirectGrows(invalid: set<Key>, actions: seq<Action>)
    ensures invalid <= DirectAll(invalid, actions).1
    decreases actions, 0
  {
    if actions != [] {
      DirectGrowsOne(invalid, actions[0]);
      var (outcome, next) := Direct(invalid, actions[0]);
      if outcome.Normal? { DirectGrows(next, actions[1..]); }
    }
  }

  lemma {:induction false} DirectGrowsOne(invalid: set<Key>, action: Action)
    ensures invalid <= Direct(invalid, action).1
    decreases action, 1
  {
    match action
    case Attempt(body) => DirectGrows(invalid, body);
    case Scope(body, _, _) => DirectGrows(invalid, body);
    case _ =>
  }

  lemma StaleGrows(log: seq<Checked>, more: seq<Checked>, invalid: set<Key>, later: set<Key>)
    requires Stale(log, invalid) && invalid <= later
    ensures Stale(log + more, later)
  {
    var key :| key in invalid && CheckedAgain(log, key);
    AgainGrows(log, more, key);
  }

  lemma StaleBatchGrows(s: State, t: State)
    requires s.current.Some? && t.current.Some? && Grows(s.current.value, t.current.value) && s.invalid <= t.invalid
    requires !RepeatedValid(s.current.value, s.invalid)
    ensures !RepeatedValid(t.current.value, t.invalid)
  {
    var i :| 0 <= i < |s.current.value| && s.current.value[i].repeated && s.current.value[i].key in s.invalid;
    assert t.current.value[i].repeated && t.current.value[i].key == s.current.value[i].key;
  }

  lemma {:induction false} ActionsInStep(s: State, actions: seq<Action>, log: seq<Checked>)
    requires s.current.Some? && Mirrors(s.current.value, log)
    ensures var (outcome, t) := RunAll(s, actions);
            var (direct, invalid) := DirectAll(s.invalid, actions);
            InStep(outcome, t, direct, invalid, log + DirectLog(s.invalid, actions))
    decreases actions, 0
  {
    if actions == [] {
      assert log + [] == log;
    } else {
      ActionInStep(s, actions[0], log);
      RestInStep(s, actions, log);
    }
  }

  /** After the first of some actions: whatever follows keeps in step, or the stale file stays stale. */
  lemma {:induction false} RestInStep(s: State, actions: seq<Action>, log: seq<Checked>)
    requires s.current.Some? && actions != []
    requires var (outcome, t) := Run(s, actions[0]);
             var (direct, invalid) := Direct(s.invalid, actions[0]);
             InStep(outcome, t, direct, invalid, log + DirectLogOf(s.invalid, actions[0]))
    ensures var (outcome, t) := RunAll(s, actions);
            var (direct, invalid) := DirectAll(s.invalid, actions);
            InStep(outcome, t, direct, invalid, log + DirectLog(s.invalid, actions))
    decreases actions[1..], 1
  {
    var (outcome, t) := Run(s, actions[0]);
    var (direct, invalid) := Direct(s.invalid, actions[0]);
    var own := DirectLogOf(s.invalid, actions[0]);
    var others := if direct.Threw? then [] else DirectLog(invalid, actions[1..]);
    assert log + DirectLog(s.invalid, actions) == (log + own) + others;
    if outcome == direct && t.invalid == invalid && Mirrors(t.current.value, log + own) {
      if outcome.Normal? {
        ActionsInStep(t, actions[1..], log + own);
      } else {
        assert (log + own) + [] == log + own;
      }
    } else {
      if direct.Normal? { DirectGrows(invalid, actions[1..]); }
      StaleGrows(log + own, others, invalid, DirectAll(s.invalid, actions).1);
      if outcome.Normal? {
        InsideGrows(t, actions[1..]);
        StaleBatchGrows(t, RunAll(t, actions[1..]).1);
      }
    }
  }

  lemma {:induction false} ActionInStep(s: State, action: Action, log: seq<Checked>)
    requires s.current.Some? && Mirrors(s.current.value, log)
    ensures var (outcome, t) := Run(s, action);
            var (direct, invalid) := Direct(s.invalid, action);
            InStep(outcome, t, direct, invalid, log + DirectLogOf(s.invalid, action))
    decreases action, 1
  {
    match action
    case Check(key) => CheckInStep(s, Checked(key, key !in s.invalid), log);
    case Change(key) => assert log + [] == log;
    case Attempt(body) => ActionsInStep(s, body, log);
    case Scope(body, async, late) =>
      ActionsInStep(s, body, log);
      LateChanges(s, body, async, late, log);
  }

  lemma LateChanges(s: State, body: seq<Action>, async: bool, late: seq<Key>, log: seq<Checked>)
    requires s.current.Some?
    requires var (outcome, t) := RunAll(s, body);
             var (direct, invalid) := DirectAll(s.invalid, body);
             InStep(outcome, t, direct, invalid, log + DirectLog(s.invalid, body))
    ensures var (outcome, t) := Run(s, Scope(body, async, late));
            var (direct, invalid) := Direct(s.invalid, Scope(body, async, late));
            InStep(outcome, t, direct, invalid, log + DirectLog(s.invalid, body))
  {
    var (outcome, t) := RunAll(s, body);
    var (direct, invalid) := DirectAll(s.invalid, body);
    var reached := log + DirectLog(s.invalid, body);
    if Stale(reached, invalid) && !RepeatedValid(t.current.value, t.invalid) {
      StaleGrows(reached, [], invalid, invalid + Keys(late));
      assert reached + [] == reached;
      StaleBatchGrows(t, t.(invalid := t.invalid + Keys(late)));
    }
  }

  // ---------- when an outermost scope returns ----------

  /** The files that have changed by the n-th turn of the last loop. */
  function Taken(late: seq<Key>, n: nat): set<Key> { Keys(if n < |late| then late[..n] else late) }

  /** Every repeated check finds its file valid at its own turn of the last loop. */
  ghost predicate ValidInTurn(batch: seq<FileCheck>, invalid: set<Key>, late: seq<Key>) {
    forall i | 0 <= i < |batch| && batch[i].repeated :: batch[i].key !in invalid + Taken(late, i + 1)
  }

  lemma {:induction false} RecheckPassesExactly(s: State, batch: seq<FileCheck>, late: seq<Key>)
    ensures Recheck(s, batch, late).0.Normal? <==> ValidInTurn(batch, s.invalid, late)
    decreases |batch|
  {
    if batch != [] {
      var t := if late == [] then s else s.(invalid := s.invalid + {late[0]});
      var rest := if late == [] then [] else late[1..];
      var u := if batch[0].repeated then t.(runs := t.runs + [batch[0].key]) else t;
      RecheckPassesExactly(u, batch[1..], rest);
      forall i: nat ensures s.invalid + Taken(late, i + 1) == t.invalid + Taken(rest, i) { TakenSplits(late, i); }
      LaterTurns(batch, s.invalid, late, t.invalid, rest);
    }
  }

  lemma TakenSplits(late: seq<Key>, i: nat)
    ensures late == [] ==> Taken(late, i + 1) == {} == Taken([], i)
    ensures late != [] ==> Taken(late, i + 1) == {late[0]} + Taken(late[1..], i)
  {
    if late != [] {
      var now := if i + 1 < |late| then late[..i + 1] else late;
      var rest := if i < |late[1..]| then late[1..][..i] else late[1..];
      assert now == [late[0]] + rest;
    }
  }

  lemma LaterTurns(batch: seq<FileCheck>, invalid: set<Key>, late: seq<Key>, later: set<Key>, rest: seq<Key>)
    requires batch != [] && forall i: nat :: invalid + Taken(late, i + 1) == later + Taken(rest, i)
    ensures ValidInTurn(batch, invalid, late)
       <==> (batch[0].repeated ==> batch[0].key !in later) && ValidInTurn(batch[1..], later, rest)
  {
    assert Taken(rest, 0) == {};
    assert invalid + Taken(late, 0 + 1) == later + Taken(rest, 0);
    forall i: nat | 0 < i < |batch|
      ensures batch[i] == batch[1..][i - 1] && invalid + Taken(late, i + 1) == later + Taken(rest, i - 1 + 1)
    {
    }
    if ValidInTurn(batch, invalid, late) {
      forall i | 0 <= i < |batch[1..]| && batch[1..][i].repeated
        ensures batch[1..][i].key !in later + Taken(rest, i + 1)
      {
        assert batch[i + 1] == batch[1..][i];
      }
    }
  }

  /** No file that passes its first check and is checked again has become invalid by the turn of its first check in the
      last loop. */
  ghost predicate StaysValid(log: seq<Checked>, invalid: set<Key>, late: seq<Key>) {
    forall i | 0 <= i < |FirstPasses(log)| && CheckedAgain(log, FirstPasses(log)[i]) ::
      FirstPasses(log)[i] !in invalid + Taken(late, i + 1)
  }

  lemma StaleIsFound(log: seq<Checked>, invalid: set<Key>, late: seq<Key>)
    requires Stale(log, invalid)
    ensures !StaysValid(log, invalid, late)
  {
    var key :| key in invalid && CheckedAgain(log, key);
    var i, j :| 0 <= i < j < |log| && log[i] == Checked(key, true) && log[j].key == key;
    assert Checked(key, true) in log;
    PassedIsListed(log, key);
    var k :| 0 <= k < |FirstPasses(log)| && FirstPasses(log)[k] == key;
    assert CheckedAgain(log, FirstPasses(log)[k]);
  }

  lemma NotValidInTurn(batch: seq<FileCheck>, invalid: set<Key>, late: seq<Key>)
    requires !RepeatedValid(batch, invalid)
    ensures !ValidInTurn(batch, invalid, late)
  {
    var i :| 0 <= i < |batch| && batch[i].repeated && batch[i].key in invalid;
  }

  /** An outermost scope returns normally exactly when running every check where it was asked for would, with the same
      changes at the same moments, and no file that is checked again after it has passed has become invalid by its turn
      of the last loop; its turn comes in the order in which the files first passed. */
  lemma ScopeReturnsExactly(s: State, body: seq<Action>, async: bool, late: seq<Key>)
    requires s.current.None?
    ensures Run(s, Scope(body, async, late)).0.Normal?
       <==> && Direct(s.invalid, Scope(body, async, late)).0.Normal?
            && StaysValid(DirectLog(s.invalid, body), DirectAll(s.invalid, body).1, late)
  {
    var inside := s.(current := Some([]));
    assert [] + DirectLog(s.invalid, body) == DirectLog(s.invalid, body);
    ActionsInStep(inside, body, []);
    StepDecides(RunAll(inside, body).0, RunAll(inside, body).1, DirectAll(s.invalid, body).0,
                DirectAll(s.invalid, body).1, DirectLog(s.invalid, body), late);
    OutermostPasses(s, body, async, late);
  }

  lemma OutermostPasses(s: State, body: seq<Action>, async: bool, late: seq<Key>)
    requires s.current.None? && RunAll(s.(current := Some([])), body).1.current.Some?
    ensures var (outcome, t) := RunAll(s.(current := Some([])), body);
            Run(s, Scope(body, async, late)).0.Normal?
            <==> outcome.Normal? && !async && ValidInTurn(t.current.value, t.invalid, late)
  {
    var t := RunAll(s.(current := Some([])), body).1;
    RecheckPassesExactly(t.(current := None), t.current.value, late);
  }

  /** Whether in step or not, the two runs pass under the same condition. */
  lemma StepDecides(
    outcome: Outcome, t: State, direct: Outcome, invalid: set<Key>, log: seq<Checked>, late: seq<Key>)
    requires InStep(outcome, t, direct, invalid, log)
    ensures outcome.Normal? && ValidInTurn(t.current.value, t.invalid, late)
       <==> direct.Normal? && StaysValid(log, invalid, late)
  {
    if Stale(log, invalid) && !RepeatedValid(t.current.value, t.invalid) {
      StaleIsFound(log, invalid, late);
      NotValidInTurn(t.current.value, t.invalid, late);
    }
  }

  /** So no false alarm is raised: when no file that the scope checks is ever invalid, the scope returns as its code
      does. */
  lemma ValidFilesRaiseNoAlarm(s: State, body: seq<Action>, async: bool, late: seq<Key>)
    requires s.current.None?
    requires forall c | c in DirectLog(s.invalid, body) :: c.key !in DirectAll(s.invalid, body).1 + Keys(late)
    ensures Run(s, Scope(body, async, late)).0 == Direct(s.invalid, Scope(body, async, late)).0
  {
    var log, invalid := DirectLog(s.invalid, body), DirectAll(s.invalid, body).1;
    ScopeReturnsExactly(s, body, async, late);
    forall i | 0 <= i < |FirstPasses(log)| ensures FirstPasses(log)[i] !in invalid + Taken(late, i + 1) {
      PassedIsListed(log, FirstPasses(log)[i]);
      assert Checked(FirstPasses(log)[i], true) in log;
    }
  }

  // ---------- how often each validator runs ----------

  ghost predicate Repeats(batch: seq<FileCheck>, key: Key) {
    exists i :: 0 <= i < |batch| && batch[i].key == key && batch[i].repeated
  }

  lemma {:induction false} RecheckRunsRepeated(s: State, batch: seq<FileCheck>, late: seq<Key>, key: Key)
    requires Distinct(batch) && Recheck(s, batch, late).0.Normal?
    ensures Runs(Recheck(s, batch, late).1.runs, key) == Runs(s.runs, key) + if Repeats(batch, key) then 1 else 0
    decreases |batch|
  {
    if batch != [] {
      var t := if late == [] then s else s.(invalid := s.invalid + {late[0]});
      var u := if batch[0].repeated then t.(runs := t.runs + [batch[0].key]) else t;
      RunsSnoc(t.runs, batch[0].key, key);
      RecheckRunsRepeated(u, batch[1..], if late == [] then [] else late[1..], key);
      RepeatsSplits(batch, key);
    }
  }

  lemma RepeatsSplits(batch: seq<FileCheck>, key: Key)
    requires Distinct(batch) && batch != []
    ensures Repeats(batch, key) <==> (batch[0].key == key && batch[0].repeated) || Repeats(batch[1..], key)
    ensures !(batch[0].key == key && Repeats(batch[1..], key))
  {
    if i :| 0 <= i < |batch| && batch[i].key == key && batch[i].repeated {
      if i > 0 { assert batch[1..][i - 1] == batch[i]; }
    }
    if i :| 0 <= i < |batch[1..]| && batch[1..][i].key == key && batch[1..][i].repeated {
      assert batch[i + 1] == batch[1..][i];
    }
  }

  /** The batch and the log agree on which files have passed and which were checked again after that. */
  lemma MirrorsKey(batch: seq<FileCheck>, log: seq<Checked>, key: Key)
    requires Mirrors(batch, log)
    ensures Holds(batch, key) <==> key in FirstPasses(log)
    ensures Repeats(batch, key) <==> CheckedAgain(log, key)
    ensures CheckedAgain(log, key) ==> key in FirstPasses(log)
  {
    PassedIsListed(log, key);
    if CheckedAgain(log, key) {
      var i, j :| 0 <= i < j < |log| && log[i] == Checked(key, true) && log[j].key == key;
      assert Checked(key, true) in log;
    }
    if key in FirstPasses(log) {
      var i :| 0 <= i < |FirstPasses(log)| && FirstPasses(log)[i] == key;
      assert batch[i].key == key;
    }
    if i :| 0 <= i < |batch| && batch[i].key == key { assert FirstPasses(log)[i] == key; }
  }

  /** In an outermost scope that returns normally the validator of a file has run once if the file passed a check, once
      more if it was checked again after that, and once for each check of it that threw and was swallowed. */
  lemma RunsExactly(s: State, body: seq<Action>, async: bool, late: seq<Key>, key: Key)
    requires s.current.None? && Run(s, Scope(body, async, late)).0.Normal?
    ensures var log := DirectLog(s.invalid, body);
            Runs(Run(s, Scope(body, async, late)).1.runs, key)
            == Runs(s.runs, key) + Failures(s.(current := Some([])), body, key)
               + (if key in FirstPasses(log) then 1 else 0) + (if CheckedAgain(log, key) then 1 else 0)
  {
    var inside, log := s.(current := Some([])), DirectLog(s.invalid, body);
    assert [] + log == log;
    ActionsInStep(inside, body, []);
    InsideCounted(inside, body, key);
    StillInStep(s, body, async, late, log);
    var t := RunAll(inside, body).1;
    MirrorsKey(t.current.value, log, key);
    RecheckRunsRepeated(t.(current := None), t.current.value, late, key);
  }

  lemma StillInStep(s: State, body: seq<Action>, async: bool, late: seq<Key>, log: seq<Checked>)
    requires s.current.None? && Run(s, Scope(body, async, late)).0.Normal?
    requires var (outcome, t) := RunAll(s.(current := Some([])), body);
             var (direct, invalid) := DirectAll(s.invalid, body);
             InStep(outcome, t, direct, invalid, log)
    ensures var t := RunAll(s.(current := Some([])), body).1;
            && t.current.Some? && Mirrors(t.current.value, log)
            && Recheck(t.(current := None), t.current.value, late).0.Normal?
            && Run(s, Scope(body, async, late)).1 == Recheck(t.(current := None), t.current.value, late).1
  {
    var t := RunAll(s.(current := Some([])), body).1;
    RecheckProves(t.(current := None), t.current.value, late);
  }
}
