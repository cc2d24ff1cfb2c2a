/** Which scans of a scheduler run: concurrent wakes share one, and a close waits for it.

    A scan is named by its number. It runs from the wake that starts it until the handler that empties the slot. */
module ScanSlot {
  import opened Wrappers

  /** `closes` holds, for every call of close that has not resumed, the scan it waits for. */
  datatype Slot = Slot(
    closed: bool,
    scan: Option<nat>,
    started: nat,
    running: set<nat>,
    closes: map<nat, Option<nat>>,
    cleared: bool)

  const EMPTY := Slot(false, None, 0, {}, map[], false)

  /** The scan whose end a wake waits for, if any. */
  function WakeAnswer(s: Slot): Option<nat> {
    if s.closed then None else if s.scan.Some? then s.scan else Some(s.started)
  }

  function Wake(s: Slot): Slot {
    if s.closed || s.scan.Some? then s
    else s.(scan := Some(s.started), started := s.started + 1, running := s.running + {s.started})
  }

  function EndScan(s: Slot, scan: nat): Slot {
    if scan !in s.running then s
    else s.(running := s.running - {scan}, scan := if s.scan == Some(scan) then None else s.scan)
  }

  function Close(s: Slot, call: nat): Slot {
    if call in s.closes then s else s.(closed := true, closes := s.closes[call := s.scan])
  }

  /** A close resumes once the scan it waits for has ended, and then clears what the scheduler remembers. */
  function ResumeClose(s: Slot, call: nat): Slot {
    if call !in s.closes || (s.closes[call].Some? && s.closes[call].value in s.running) then s
    else s.(closes := s.closes - {call}, cleared := true)
  }

  class SchedulerSlot {
    var closed: bool
    var scan: Option<nat>
    var started: nat
    var running: set<nat>
    var closes: map<nat, Option<nat>>
    var cleared: bool

    constructor ()
      ensures State() == EMPTY && !closed && scan == None && !cleared
    {
      closed, scan, started, running, closes, cleared := false, None, 0, {}, map[], false;
    }

    function State(): Slot reads this { Slot(closed, scan, started, running, closes, cleared) }

    method WakeUp() returns (answer: Option<nat>)
      modifies this
      ensures answer == WakeAnswer(old(State())) && State() == Wake(old(State()))
    {
      if closed { return None; }
      if scan.Some? { return scan; }
      answer := Some(started);
      running := running + {started};
      scan := answer;
      started := started + 1;
    }

    method FinishScan(ended: nat)
      modifies this
      ensures State() == EndScan(old(State()), ended)
    {
      if ended !in running { return; }
      running := running - {ended};
      if scan == Some(ended) { scan := None; }
    }

    method CallClose(call: nat)
      modifies this
      ensures State() == Close(old(State()), call)
    {
      if call in closes { return; }
      closed := true;
      closes := closes[call := scan];
    }

    method FinishClose(call: nat)
      modifies this
      ensures State() == ResumeClose(old(State()), call)
    {
      if call !in closes || (closes[call].Some? && closes[call].value in running) { return; }
      closes := closes - {call};
      cleared := true;
    }
  }

  datatype Event = WakeEvent | ScanEnds(scan: nat) | CloseEvent(call: nat) | CloseResumes(call: nat)

  function Step(s: Slot, e: Event): Slot {
    match e
    case WakeEvent => Wake(s)
    case ScanEnds(scan) => EndScan(s, scan)
    case CloseEvent(call) => Close(s, call)
    case CloseResumes(call) => ResumeClose(s, call)
  }

  function Steps(s: Slot, events: seq<Event>): Slot
    decreases |events|
  {
    if events == [] then s else Steps(Step(s, events[0]), events[1..])
  }

  /** The scan in the slot is the one running; a pending close waits for it, or it has ended. */
  ghost predicate Inv(s: Slot) {
    && s.running == (if s.scan.Some? then {s.scan.value} else {})
    && (s.scan.Some? ==> s.scan.value < s.started)
    && (s.closes != map[] || s.cleared ==> s.closed)
    && (forall call | call in s.closes :: s.scan.Some? ==> s.closes[call] == s.scan)
    && (s.cleared ==> s.scan.None?)
  }

  lemma StepKeepsInv(s: Slot, e: Event)
    requires Inv(s)
    ensures Inv(Step(s, e))
  {
  }

  lemma {:induction false} StepsKeepInv(s: Slot, events: seq<Event>)
    requires Inv(s)
    ensures Inv(Steps(s, events))
    decreases |events|
  {
    if events != [] {
      StepKeepsInv(s, events[0]);
      StepsKeepInv(Step(s, events[0]), events[1..]);
    }
  }

  /** However wakes, ends of scans and closes interleave, at most one scan runs, and a wake of an open scheduler
      waits for exactly the one that then runs. */
  lemma OneScanAtATime(events: seq<Event>)
    ensures var s := Steps(EMPTY, events);
            && (forall a, b | a in s.running && b in s.running :: a == b)
            && (!s.closed ==> WakeAnswer(s).Some? && Wake(s).running == {WakeAnswer(s).value})
            && (s.running != {} && !s.closed ==> Wake(s) == s)
  {
    StepsKeepInv(EMPTY, events);
  }

  lemma {:induction false} ClosedStartsNothing(s: Slot, events: seq<Event>)
    requires s.closed
    ensures var t := Steps(s, events); t.closed && t.started == s.started && t.running <= s.running
    decreases |events|
  {
    if events != [] { ClosedStartsNothing(Step(s, events[0]), events[1..]); }
  }

  /** When a close clears what the scheduler remembers, no scan is running, and none ever runs again: nothing can
      be remembered after that. */
  lemma ClearedForGood(before: seq<Event>, after: seq<Event>)
    requires Steps(EMPTY, before).cleared
    ensures var s := Steps(EMPTY, before);
            s.closed && s.running == {} && Steps(s, after).running == {} && Steps(s, after).started == s.started
  {
    StepsKeepInv(EMPTY, before);
    ClosedStartsNothing(Steps(EMPTY, before), after);
  }

  /** A close resumes exactly when no scan is left running. */
  lemma CloseWaitsForTheScan(events: seq<Event>, call: nat)
    requires call in Steps(EMPTY, events).closes
    ensures var s := Steps(EMPTY, events);
            call !in Step(s, CloseResumes(call)).closes <==> s.running == {}
  {
    StepsKeepInv(EMPTY, events);
  }

  /** In every reachable state a wake starts a scan of its own exactly when the scheduler is open and none is running,
      and otherwise changes nothing; it waits for the scan then running, and for none once the scheduler is closed. */
  lemma WakeStartsExactly(events: seq<Event>)
    ensures var s := Steps(EMPTY, events);
            && (if !s.closed && s.running == {}
                then Wake(s).running == {s.started} && Wake(s).started > s.started else Wake(s) == s)
            && (s.closed ==> WakeAnswer(s) == None)
            && (!s.closed ==> WakeAnswer(s).Some? && Wake(s).running == {WakeAnswer(s).value})
  {
    StepsKeepInv(EMPTY, events);
  }

  /** When the running scan ends, none is running, and a scheduler that is still open can start the next one. */
  lemma EndFreesTheSlot(events: seq<Event>, scan: nat)
    requires scan in Steps(EMPTY, events).running
    ensures var s := Steps(EMPTY, events);
            var t := Step(s, ScanEnds(scan));
            && t.running == {} && t.closed == s.closed
            && (!s.closed ==> Wake(t).running == {s.started})
            && Step(s, ScanEnds(s.started)) == s
  {
    StepsKeepInv(EMPTY, events);
  }

  /** A call of close takes effect at once; it clears what the scheduler remembers when the scan that was running then,
      if any, has ended. */
  lemma CloseClears(events: seq<Event>, call: nat)
    requires call !in Steps(EMPTY, events).closes
    ensures var s := Steps(EMPTY, events);
            var u := Step(s, CloseEvent(call));
            var v := if s.scan.Some? then Step(u, ScanEnds(s.scan.value)) else u;
            && u.closed && (s.running != {} ==> Step(u, CloseResumes(call)) == u)
            && v.running == {} && Step(v, CloseResumes(call)).cleared
  {
    StepsKeepInv(EMPTY, events);
  }

  /** From the start: two wakes with a scan's end between them start two scans. */
  lemma FirstScans()
    ensures Steps(EMPTY, [WakeEvent, ScanEnds(0), WakeEvent]).running == {1}
  {
    var events := [WakeEvent, ScanEnds(0), WakeEvent];
    assert events[1..] == [ScanEnds(0), WakeEvent] && events[1..][1..] == [WakeEvent] && events[1..][1..][1..] == [];
    var s := Step(Step(EMPTY, WakeEvent), ScanEnds(0));
    assert Steps(s, [WakeEvent]) == Steps(Step(s, WakeEvent), []);
  }
}
