/** The deduplicating ownership-check scope.

    A validator is named by its key. Code that runs inside a scope is a list of actions, and files may become
    invalid between any two of them. */
module OwnershipCheck {
  import opened Wrappers

  type Key = int

  datatype Action =
    | Check(key: Key)             // checkNativeOwnershipFile
    | Change(key: Key)            // the file is replaced or withdrawn from outside
    | Attempt(body: seq<Action>)  // a caller that swallows a failure of its body
    // validateNativeOwnership; the `late` files change during its last loop
    | Scope(body: seq<Action>, async: bool, late: seq<Key>)

  /** One entry of the batch map, in insertion order. */
  datatype FileCheck = FileCheck(key: Key, repeated: bool)

  /** `runs` lists the validator runs in order. */
  datatype State = CheckState(current: Option<seq<FileCheck>>, invalid: set<Key>, runs: seq<Key>)

  datatype Outcome = Normal | Threw

  function Find(batch: seq<FileCheck>, key: Key): Option<nat> {
    if batch == [] then None
    else if batch[0].key == key then Some(0)
    else var i := Find(batch[1..], key); if i.None? then None else Some(i.value + 1)
  }

  lemma {:induction false} FindFinds(batch: seq<FileCheck>, key: Key)
    ensures Find(batch, key).Some? ==> Find(batch, key).value < |batch| && batch[Find(batch, key).value].key == key
    ensures Find(batch, key).None? ==> forall i | 0 <= i < |batch| :: batch[i].key != key
  {
    if batch != [] { FindFinds(batch[1..], key); }
  }

  function Validate(s: State, key: Key): (Outcome, State) {
    (if key in s.invalid then Threw else Normal, s.(runs := s.runs + [key]))
  }

  function CheckFile(s: State, key: Key): (Outcome, State) {
    if s.current.None? then Validate(s, key) else
    var i := Find(s.current.value, key);
    if i.Some? then
      (FindFinds(s.current.value, key);
       (Normal, s.(current := Some(s.current.value[i.value := FileCheck(key, true)]))))
    else
      var (outcome, t) := Validate(s, key);
      if outcome.Threw? then (Threw, t) else (Normal, t.(current := Some(s.current.value + [FileCheck(key, false)])))
  }

  /** The loop at the end of a scope: repeated checks run again, in insertion order. */
  function Recheck(s: State, batch: seq<FileCheck>, late: seq<Key>): (Outcome, State)
    decreases |batch|
  {
    if batch == [] then (Normal, s.(invalid := s.invalid + Keys(late))) else
    var t := if late == [] then s else s.(invalid := s.invalid + {late[0]});
    var rest := if late == [] then [] else late[1..];
    if !batch[0].repeated then Recheck(t, batch[1..], rest) else
    var (outcome, u) := Validate(t, batch[0].key);
    if outcome.Threw? then (Threw, u) else Recheck(u, batch[1..], rest)
  }

  function Keys(late: seq<Key>): set<Key> { set k | k in late }

  function RunAll(s: State, actions: seq<Action>): (Outcome, State)
    decreases actions, 0
  {
    if actions == [] then (Normal, s) else
    var (outcome, t) := Run(s, actions[0]);
    if outcome.Threw? then (Threw, t) else RunAll(t, actions[1..])
  }

  function Run(s: State, action: Action): (Outcome, State)
    decreases action, 1
  {
    match action
    case Check(key) => CheckFile(s, key)
    case Change(key) => (Normal, s.(invalid := s.invalid + {key}))
    case Attempt(body) => (Normal, RunAll(s, body).1)
    case Scope(body, async, late) =>
      if s.current.Some? then
        var (outcome, t) := RunAll(s, body);
        (if outcome.Threw? || async then Threw else Normal, t.(invalid := t.invalid + Keys(late)))
      else
        var (outcome, t) := RunAll(s.(current := Some([])), body);
        if outcome.Threw? || async then (Threw, t.(current := None))
        else Recheck(t.(current := None), t.current.GetOr([]), late)
  }

  // ---------- the current scope ----------

  class OwnershipChecks {
    var current: Option<seq<FileCheck>>
    var invalid: set<Key>
    var runs: seq<Key>

    constructor (invalid: set<Key>)
      ensures State() == CheckState(None, invalid, [])
    {
      current, this.invalid, runs := None, invalid, [];
    }

    function State(): State reads this { CheckState(current, invalid, runs) }

    method RunValidator(key: Key) returns (outcome: Outcome)
      modifies this`runs
      ensures (outcome, State()) == Validate(old(State()), key)
    {
      runs := runs + [key];
      outcome := if key in invalid then Threw else Normal;
    }

    method CheckNativeOwnershipFile(key: Key) returns (outcome: Outcome)
      modifies this
      ensures (outcome, State()) == CheckFile(old(State()), key)
    {
      if current.None? { outcome := RunValidator(key); return; }
      var batch := current.value;
      var previous := Find(batch, key);
      if previous.Some? {
        FindFinds(batch, key);
        current := Some(batch[previous.value := FileCheck(key, true)]);
        return Normal;
      }
      outcome := RunValidator(key);
      if outcome.Normal? { current := Some(batch + [FileCheck(key, false)]); }
    }

    method ValidateNativeOwnership(body: seq<Action>, async: bool, late: seq<Key>) returns (outcome: Outcome)
      modifies this
      ensures (outcome, State()) == Run(old(State()), Scope(body, async, late))
      decreases body, 1
    {
      if current.Some? {
        outcome := RunActions(body);
        if async { outcome := Threw; }
        invalid := invalid + Keys(late);
        return;
      }
      current := Some([]);
      outcome := RunActions(body);
      if async { outcome := Threw; }
      var batch := current.GetOr([]);
      current := None;
      if outcome.Normal? { outcome := RecheckAll(batch, late); }
    }

    method RecheckAll(batch: seq<FileCheck>, late: seq<Key>) returns (outcome: Outcome)
      modifies this
      ensures (outcome, State()) == Recheck(old(State()), batch, late)
    {
      ghost var start := State();
      var i, rest := 0, late;
      outcome := Normal;
      while i < |batch|
        invariant 0 <= i <= |batch| && outcome.Normal?
        invariant Recheck(State(), batch[i..], rest) == Recheck(start, batch, late)
      {
        if rest != [] { invalid, rest := invalid + {rest[0]}, rest[1..]; }
        if batch[i].repeated {
          outcome := RunValidator(batch[i].key);
          if outcome.Threw? { return; }
        }
        i := i + 1;
      }
      invalid := invalid + Keys(rest);
    }

    method RunActions(actions: seq<Action>) returns (outcome: Outcome)
      modifies this
      ensures (outcome, State()) == RunAll(old(State()), actions)
      decreases actions, 0
    {
      if actions == [] { return Normal; }
      outcome := RunAction(actions[0]);
      if outcome.Normal? { outcome := RunActions(actions[1..]); }
    }

    method RunAction(action: Action) returns (outcome: Outcome)
      modifies this
      ensures (outcome, State()) == Run(old(State()), action)
      decreases action, 2
    {
      match action
      case Check(key) => outcome := CheckNativeOwnershipFile(key);
      case Change(key) => invalid := invalid + {key}; outcome := Normal;
      case Attempt(body) => outcome := RunActions(body); outcome := Normal;
      case Scope(body, async, late) => outcome := ValidateNativeOwnership(body, async, late);
    }
  }

  // ---------- every check where it was asked for ----------

  /** The same actions with every check run at its own call site. */
  function DirectAll(invalid: set<Key>, actions: seq<Action>): (Outcome, set<Key>)
    decreases actions, 0
  {
    if actions == [] then (Normal, invalid) else
    var (outcome, next) := Direct(invalid, actions[0]);
    if outcome.Threw? then (Threw, next) else DirectAll(next, actions[1..])
  }

  function Direct(invalid: set<Key>, action: Action): (Outcome, set<Key>)
    decreases action, 1
  {
    match action
    case Check(key) => (if key in invalid then Threw else Normal, invalid)
    case Change(key) => (Normal, invalid + {key})
    case Attempt(body) => (Normal, DirectAll(invalid, body).1)
    case Scope(body, async, late) =>
      var (outcome, next) := DirectAll(invalid, body);
      (if outcome.Threw? || async then Threw else Normal, next + Keys(late))
  }

  /** The batch only grows, and a repeated check stays repeated. */
  ghost predicate Grows(a: seq<FileCheck>, b: seq<FileCheck>) {
    |a| <= |b| && forall i | 0 <= i < |a| :: b[i].key == a[i].key && (a[i].repeated ==> b[i].repeated)
  }

  ghost predicate RepeatedValid(batch: seq<FileCheck>, invalid: set<Key>) {
    forall i | 0 <= i < |batch| && batch[i].repeated :: batch[i].key !in invalid
  }

  lemma {:induction false} InsideGrows(s: State, actions: seq<Action>)
    requires s.current.Some?
    ensures var t := RunAll(s, actions).1;
            t.current.Some? && Grows(s.current.value, t.current.value) && s.invalid <= t.invalid
    decreases actions, 0
  {
    if actions != [] {
      InsideGrowsOne(s, actions[0]);
      if Run(s, actions[0]).0.Normal? { InsideGrows(Run(s, actions[0]).1, actions[1..]); }
    }
  }

  lemma {:induction false} InsideGrowsOne(s: State, action: Action)
    requires s.current.Some?
    ensures var t := Run(s, action).1;
            t.current.Some? && Grows(s.current.value, t.current.value) && s.invalid <= t.invalid
    decreases action, 1
  {
    match action
    case Check(key) => FindFinds(s.current.value, key);
    case Change(_) =>
    case Attempt(body) => InsideGrows(s, body);
    case Scope(body, _, _) => InsideGrows(s, body);
  }

  /** Inside a scope, if every check that ends up repeated is still valid at the end, then running each check
      at its own call site has the very same outcome. */
  lemma {:induction false} InsideIsDirect(s: State, actions: seq<Action>)
    requires s.current.Some?
    requires var t := RunAll(s, actions).1; t.current.Some? && RepeatedValid(t.current.value, t.invalid)
    ensures DirectAll(s.invalid, actions) == (RunAll(s, actions).0, RunAll(s, actions).1.invalid)
    decreases actions, 0
  {
    if actions != [] {
      var (outcome, next) := Run(s, actions[0]);
      InsideGrowsOne(s, actions[0]);
      if outcome.Normal? {
        InsideGrows(next, actions[1..]);
        EarlierValid(next, RunAll(next, actions[1..]).1);
        InsideIsDirect(next, actions[1..]);
      }
      InsideIsDirectOne(s, actions[0]);
    }
  }

  lemma EarlierValid(s: State, t: State)
    requires s.current.Some? && t.current.Some? && Grows(s.current.value, t.current.value) && s.invalid <= t.invalid
    requires RepeatedValid(t.current.value, t.invalid)
    ensures RepeatedValid(s.current.value, s.invalid)
  {
  }

  lemma {:induction false} InsideIsDirectOne(s: State, action: Action)
    requires s.current.Some?
    requires var t := Run(s, action).1; t.current.Some? && RepeatedValid(t.current.value, t.invalid)
    ensures Direct(s.invalid, action) == (Run(s, action).0, Run(s, action).1.invalid)
    decreases action, 1
  {
    match action
    case Check(key) =>
      FindFinds(s.current.value, key);
      var i := Find(s.current.value, key);
      if i.Some? { assert Run(s, action).1.current.value[i.value] == FileCheck(key, true); }
    case Change(_) =>
    case Attempt(body) => InsideIsDirect(s, body);
    case Scope(body, _, _) =>
      InsideGrows(s, body);
      EarlierValid(RunAll(s, body).1, Run(s, action).1);
      InsideIsDirect(s, body);
  }

  lemma {:induction false} RecheckProves(s: State, batch: seq<FileCheck>, late: seq<Key>)
    requires Recheck(s, batch, late).0.Normal?
    ensures RepeatedValid(batch, s.invalid)
    ensures Recheck(s, batch, late).1.invalid == s.invalid + Keys(late)
    decreases |batch|
  {
    if batch != [] {
      var t := if late == [] then s else s.(invalid := s.invalid + {late[0]});
      var rest := if late == [] then [] else late[1..];
      var u := if batch[0].repeated then t.(runs := t.runs + [batch[0].key]) else t;
      RecheckProves(u, batch[1..], rest);
      assert late != [] ==> late == [late[0]] + late[1..];
      forall i | 0 <= i < |batch| && batch[i].repeated ensures batch[i].key !in s.invalid {
        if i > 0 { assert batch[1..][i - 1] == batch[i]; }
      }
    }
  }

  /** Whenever an outermost scope returns normally, running every one of its checks where it was asked for, with
      the same changes at the same moments, would have returned normally too and left the same files invalid. */
  lemma BatchedIsAsStrongAsDirect(s: State, body: seq<Action>, async: bool, late: seq<Key>)
    requires s.current.None? && Run(s, Scope(body, async, late)).0.Normal?
    ensures Direct(s.invalid, Scope(body, async, late)) == (Normal, Run(s, Scope(body, async, late)).1.invalid)
  {
    var inside := s.(current := Some([]));
    var t := RunAll(inside, body).1;
    InsideGrows(inside, body);
    RecheckProves(t.(current := None), t.current.value, late);
    InsideIsDirect(inside, body);
  }

  /** Nothing of a scope survives it: whatever runs outside every scope, and however it ends, leaves none current. */
  lemma {:induction false} NoneCurrentOutside(s: State, actions: seq<Action>)
    requires s.current.None?
    ensures RunAll(s, actions).1.current.None?
    decreases actions, 0
  {
    if actions != [] {
      NoneCurrentAfter(s, actions[0]);
      if Run(s, actions[0]).0.Normal? { NoneCurrentOutside(Run(s, actions[0]).1, actions[1..]); }
    }
  }

  lemma {:induction false} NoneCurrentAfter(s: State, action: Action)
    requires s.current.None?
    ensures Run(s, action).1.current.None?
    decreases action, 1
  {
    match action
    case Check(_) =>
    case Change(_) =>
    case Attempt(body) => NoneCurrentOutside(s, body);
    case Scope(body, async, late) =>
      var t := RunAll(s.(current := Some([])), body).1;
      RecheckKeepsNone(t.(current := None), t.current.GetOr([]), late);
  }

  lemma {:induction false} RecheckKeepsNone(s: State, batch: seq<FileCheck>, late: seq<Key>)
    requires s.current.None?
    ensures Recheck(s, batch, late).1.current.None?
    decreases |batch|
  {
    if batch != [] {
      var t := if late == [] then s else s.(invalid := s.invalid + {late[0]});
      var u := if batch[0].repeated then t.(runs := t.runs + [batch[0].key]) else t;
      RecheckKeepsNone(u, batch[1..], if late == [] then [] else late[1..]);
    }
  }

  // ---------- how often a validator runs ----------

  function Runs(runs: seq<Key>, key: Key): nat {
    if runs == [] then 0 else (if runs[0] == key then 1 else 0) + Runs(runs[1..], key)
  }

  lemma {:induction false} RunsSnoc(runs: seq<Key>, k: Key, key: Key)
    ensures Runs(runs + [k], key) == Runs(runs, key) + if k == key then 1 else 0
  {
    if runs == [] {
      assert runs + [k] == [k];
    } else {
      assert (runs + [k])[0] == runs[0] && (runs + [k])[1..] == runs[1..] + [k];
      RunsSnoc(runs[1..], k, key);
    }
  }

  ghost predicate Distinct(batch: seq<FileCheck>) { forall i, j | 0 <= i < j < |batch| :: batch[i].key != batch[j].key }

  ghost predicate Holds(batch: seq<FileCheck>, key: Key) { exists i :: 0 <= i < |batch| && batch[i].key == key }

  /** How many of the checks of a key that these actions reach throw. */
  function Failures(s: State, actions: seq<Action>, key: Key): nat
    decreases actions, 0
  {
    if actions == [] then 0 else
    var (outcome, t) := Run(s, actions[0]);
    FailuresOf(s, actions[0], key) + if outcome.Threw? then 0 else Failures(t, actions[1..], key)
  }

  function FailuresOf(s: State, action: Action, key: Key): nat
    decreases action, 1
  {
    match action
    case Check(k) => if k == key && CheckFile(s, k).0.Threw? then 1 else 0
    case Change(_) => 0
    case Attempt(body) => Failures(s, body, key)
    case Scope(body, _, _) => Failures(if s.current.Some? then s else s.(current := Some([])), body, key)
  }

  /** Inside a scope a validator runs once as its key enters the batch and once for each check of it that throws;
      a key that has thrown stays invalid and never enters. */
  ghost predicate Counted(s: State, t: State, failures: nat, key: Key) {
    && s.current.Some? && t.current.Some? && Distinct(t.current.value) && s.invalid <= t.invalid
    && (failures > 0 ==> key in t.invalid && !Holds(t.current.value, key))
    && (key in s.invalid && !Holds(s.current.value, key) ==> !Holds(t.current.value, key))
    && (if Holds(s.current.value, key)
        then Holds(t.current.value, key) && failures == 0 && Runs(t.runs, key) == Runs(s.runs, key)
        else Runs(t.runs, key) == Runs(s.runs, key) + failures + if Holds(t.current.value, key) then 1 else 0)
  }

  lemma {:induction false} InsideCounted(s: State, actions: seq<Action>, key: Key)
    requires s.current.Some? && Distinct(s.current.value)
    ensures Counted(s, RunAll(s, actions).1, Failures(s, actions, key), key)
    decreases actions, 0
  {
    if actions != [] {
      InsideCountedOne(s, actions[0], key);
      if Run(s, actions[0]).0.Normal? { InsideCounted(Run(s, actions[0]).1, actions[1..], key); }
    }
  }

  lemma {:induction false} InsideCountedOne(s: State, action: Action, key: Key)
    requires s.current.Some? && Distinct(s.current.value)
    ensures Counted(s, Run(s, action).1, FailuresOf(s, action, key), key)
    decreases action, 1
  {
    match action
    case Check(k) => CheckCounted(s, k, key);
    case Change(_) =>
    case Attempt(body) => InsideCounted(s, body, key);
    case Scope(body, _, _) => InsideCounted(s, body, key);
  }

  lemma CheckCounted(s: State, k: Key, key: Key)
    requires s.current.Some? && Distinct(s.current.value)
    ensures Counted(s, CheckFile(s, k).1, if k == key && CheckFile(s, k).0.Threw? then 1 else 0, key)
  {
    var batch, t := s.current.value, CheckFile(s, k).1;
    FindFinds(batch, k);
    RunsSnoc(s.runs, k, key);
    if i :| 0 <= i < |batch| && batch[i].key == key { assert t.current.value[i].key == key; }
    if Find(batch, k).None? && t.current.value != batch { assert t.current.value[|batch|].key == k; }
  }

  lemma {:induction false} RecheckRunsOnce(s: State, batch: seq<FileCheck>, late: seq<Key>, key: Key)
    requires Distinct(batch)
    ensures Runs(s.runs, key) <= Runs(Recheck(s, batch, late).1.runs, key) <= Runs(s.runs, key) + 1
    ensures !Holds(batch, key) ==> Runs(Recheck(s, batch, late).1.runs, key) == Runs(s.runs, key)
    decreases |batch|
  {
    if batch != [] {
      var t := if late == [] then s else s.(invalid := s.invalid + {late[0]});
      var u := if batch[0].repeated then t.(runs := t.runs + [batch[0].key]) else t;
      RunsSnoc(t.runs, batch[0].key, key);
      RecheckRunsOnce(u, batch[1..], if late == [] then [] else late[1..], key);
      if i :| 0 <= i < |batch[1..]| && batch[1..][i].key == key { assert batch[i + 1].key == key; }
      assert batch[0].key == key ==> !Holds(batch[1..], key);
    }
  }

  /** In any outermost scope, whatever its code swallows, a validator runs at most twice exactly when at most two
      of the checks of its key that the code reaches throw. */
  lemma AtMostTwice(s: State, body: seq<Action>, async: bool, late: seq<Key>, key: Key)
    requires s.current.None?
    ensures Runs(Run(s, Scope(body, async, late)).1.runs, key) <= Runs(s.runs, key) + 2
       <==> Failures(s.(current := Some([])), body, key) <= 2
  {
    var inside := s.(current := Some([]));
    InsideCounted(inside, body, key);
    var t := RunAll(inside, body).1;
    RecheckRunsOnce(t.(current := None), t.current.value, late, key);
  }

  /** Some caller reached by these actions swallows a failure. */
  predicate Swallows(s: State, actions: seq<Action>)
    decreases actions, 0
  {
    actions != [] &&
      (SwallowsIn(s, actions[0]) || (Run(s, actions[0]).0.Normal? && Swallows(Run(s, actions[0]).1, actions[1..])))
  }

  predicate SwallowsIn(s: State, action: Action)
    decreases action, 1
  {
    match action
    case Attempt(body) => Swallows(s, body) || RunAll(s, body).0.Threw?
    case Scope(body, _, _) => Swallows(if s.current.Some? then s else s.(current := Some([])), body)
    case _ => false
  }

  /** Where no failure is swallowed, the first check that throws is also the last one reached. */
  lemma {:induction false} FirstFailureEnds(s: State, actions: seq<Action>, key: Key)
    requires s.current.Some? && !Swallows(s, actions)
    ensures Failures(s, actions, key) <= if RunAll(s, actions).0.Threw? then 1 else 0
    decreases actions, 0
  {
    if actions != [] {
      InsideGrowsOne(s, actions[0]);
      FirstFailureEndsOne(s, actions[0], key);
      if Run(s, actions[0]).0.Normal? { FirstFailureEnds(Run(s, actions[0]).1, actions[1..], key); }
    }
  }

  lemma {:induction false} FirstFailureEndsOne(s: State, action: Action, key: Key)
    requires s.current.Some? && !SwallowsIn(s, action)
    ensures FailuresOf(s, action, key) <= if Run(s, action).0.Threw? then 1 else 0
    decreases action, 1
  {
    match action
    case Attempt(body) => FirstFailureEnds(s, body, key);
    case Scope(body, _, _) => FirstFailureEnds(s, body, key);
    case _ =>
  }

  /** So a validator runs at most twice in an outermost scope that swallows no failure. */
  lemma AtMostTwiceUnlessSwallowed(s: State, body: seq<Action>, async: bool, late: seq<Key>, key: Key)
    requires s.current.None? && !Swallows(s.(current := Some([])), body)
    ensures Runs(Run(s, Scope(body, async, late)).1.runs, key) <= Runs(s.runs, key) + 2
  {
    FirstFailureEnds(s.(current := Some([])), body, key);
    AtMostTwice(s, body, async, late, key);
  }

  /** Swallowing failures lifts that bound: an invalid file checked three times is validated three times. */
  lemma SwallowedFailuresRunAgain()
    ensures var check := Attempt([Check(1)]);
            Run(CheckState(None, {1}, []), Scope([check, check, check], false, [])).1.runs == [1, 1, 1]
  {
    var check := Attempt([Check(1)]);
    SwallowOnce([], [check, check]);
    SwallowOnce([1], [check]);
    SwallowOnce([1, 1], []);
    assert [check] + [check, check] == [check, check, check];
    assert [check] + [check] == [check, check] && [check] + [] == [check];
    assert [] + [1] == [1] && [1] + [1] == [1, 1] && [1, 1] + [1] == [1, 1, 1];
    var t := RunAll(CheckState(Some([]), {1}, []), [check, check, check]);
    assert t == (Normal, CheckState(Some([]), {1}, [1, 1, 1]));
    assert Recheck(t.1.(current := None), [], []).1.runs == [1, 1, 1];
  }

  lemma SwallowOnce(runs: seq<Key>, rest: seq<Action>)
    ensures RunAll(CheckState(Some([]), {1}, runs), [Attempt([Check(1)])] + rest)
         == RunAll(CheckState(Some([]), {1}, runs + [1]), rest)
  {
    var s := CheckState(Some([]), {1}, runs);
    assert RunAll(s, [Check(1)]).1 == s.(runs := runs + [1]);
    assert ([Attempt([Check(1)])] + rest)[1..] == rest;
  }
}
