/** Maintenance admission: pass objects that share one process-wide permit count and resource set.

    A promise is named by the pass that made it and the number of the admitted run it belongs to, its
    generation. The process keeps the event loop's live timers, the executions still in progress and
    the order in which wait promises were resolved. */
module MaintenancePass {
  import opened Wrappers

  const MAX_ACTIVE_PASSES := 2
  const CLOSE_GRACE_MS := 250

  type Resource = int

  datatype Timer = Timer(owner: nat, generation: nat, due: int)

  datatype Resolution = Resolution(owner: nat, generation: nat, at: int)

  datatype Process = Process(
    activePasses: int,
    activeResources: set<Resource>,
    timers: map<nat, Timer>,
    nextTimer: nat,
    executing: set<(nat, nat)>,
    resolutions: seq<Resolution>,
    now: int)

  datatype Pass = Pass(
    id: nat,
    resource: Resource,
    maxDurationMs: nat,
    active: bool,
    observing: bool,
    closed: bool,
    deferred: bool,
    deadline: int,
    abort: Option<bool>,
    timer: Option<nat>,
    wait: Option<nat>,
    resolver: Option<nat>,
    closing: Option<Option<nat>>,
    generation: nat)

  function ClearTimeout(s: Process, timer: Option<nat>): Process {
    if timer.None? then s else s.(timers := s.timers - {timer.value})
  }

  function SetTimeout(s: Process, p: Pass, delay: int): Process {
    s.(timers := s.timers[s.nextTimer := Timer(p.id, p.generation, s.now + delay)], nextTimer := s.nextTimer + 1)
  }

  function Resolve(s: Process, p: Pass): Process {
    if p.resolver.None? then s
    else s.(resolutions := s.resolutions + [Resolution(p.id, p.resolver.value, s.now)])
  }

  function Aborted(abort: Option<bool>): Option<bool> { if abort.None? then None else Some(true) }

  predicate Admits(p: Pass, s: Process) {
    !p.closed && !p.active && s.activePasses < MAX_ACTIVE_PASSES && p.resource !in s.activeResources
  }

  /** The promise a caller of `run` awaits: the current one, that of the run just admitted, or none. */
  function RunAnswer(p: Pass, s: Process): Option<nat> {
    if p.closed then None else if p.active then p.wait
    else if Admits(p, s) then Some(p.generation + 1) else None
  }

  function Run(p: Pass, s: Process): (Pass, Process) {
    if p.closed || p.active then (p, s)
    else if !Admits(p, s) then (p.(deferred := true), s)
    else (Started(p, s), Reserved(p, s))
  }

  function Started(p: Pass, s: Process): Pass {
    var g := p.generation + 1;
    p.(deferred := false, active := true, observing := true, abort := Some(false), generation := g,
       wait := Some(g), resolver := Some(g), deadline := s.now + p.maxDurationMs, timer := Some(s.nextTimer))
  }

  function Reserved(p: Pass, s: Process): Process {
    var g := p.generation + 1;
    s.(activePasses := s.activePasses + 1, activeResources := s.activeResources + {p.resource},
       timers := s.timers[s.nextTimer := Timer(p.id, g, s.now + p.maxDurationMs)], nextTimer := s.nextTimer + 1,
       executing := s.executing + {(p.id, g)})
  }

  function CloseDelay(p: Pass, now: int): int { Max(0, Min(CLOSE_GRACE_MS, p.deadline - now)) }

  function Min(a: int, b: int): int { if a < b then a else b }

  function Max(a: int, b: int): int { if a < b then b else a }

  function Close(p: Pass, s: Process): (Pass, Process) {
    if p.closing.Some? then (p, s) else
    var q := p.(closed := true, abort := Aborted(p.abort), closing := Some(p.wait));
    if !p.observing then (q, s) else
    var t := ClearTimeout(s, p.timer);
    (q.(timer := Some(t.nextTimer)), SetTimeout(t, q, CloseDelay(p, s.now)))
  }

  function Timeout(p: Pass, s: Process): (Pass, Process) {
    if !p.observing then (p, s) else
    (p.(timer := None, observing := false, abort := Aborted(p.abort), resolver := None), Resolve(s, p))
  }

  function Finish(p: Pass, s: Process): (Pass, Process) {
    if !p.active then (p, s) else
    var t := Resolve(ClearTimeout(s, p.timer), p);
    (p.(timer := None, active := false, observing := false, abort := None, resolver := None, wait := None),
     t.(activePasses := s.activePasses - 1, activeResources := s.activeResources - {p.resource}))
  }

  // ---------- the passes and what they share ----------

  /** The module variables and the event loop every pass object shares. */
  class MaintenanceProcess {
    var activePasses: int
    var activeResources: set<Resource>
    var timers: map<nat, Timer>
    var nextTimer: nat
    var executing: set<(nat, nat)>
    var resolutions: seq<Resolution>
    var now: int

    constructor (now: int)
      ensures State() == Process(0, {}, map[], 0, {}, [], now)
    {
      activePasses, activeResources, timers, nextTimer := 0, {}, map[], 0;
      executing, resolutions, this.now := {}, [], now;
    }

    function State(): Process reads this {
      Process(activePasses, activeResources, timers, nextTimer, executing, resolutions, now)
    }

    method Reserve(resource: Resource)
      modifies this`activePasses, this`activeResources
      ensures activePasses == old(activePasses) + 1 && activeResources == old(activeResources) + {resource}
    {
      activePasses := activePasses + 1;
      activeResources := activeResources + {resource};
    }

    method Release(resource: Resource)
      modifies this`activePasses, this`activeResources
      ensures activePasses == old(activePasses) - 1 && activeResources == old(activeResources) - {resource}
    {
      activePasses := activePasses - 1;
      activeResources := activeResources - {resource};
    }

    method Execute(p: Pass)
      modifies this`executing
      ensures executing == old(executing) + {(p.id, p.generation)}
    {
      executing := executing + {(p.id, p.generation)};
    }

    method ClearTimer(timer: Option<nat>)
      modifies this`timers
      ensures timers == ClearTimeout(old(State()), timer).timers
    {
      if timer.Some? { timers := timers - {timer.value}; }
    }

    method SetTimer(p: Pass, delay: int) returns (timer: nat)
      modifies this`timers, this`nextTimer
      ensures timer == old(nextTimer) && nextTimer == timer + 1
      ensures timers == old(timers)[timer := Timer(p.id, p.generation, now + delay)]
    {
      timer := nextTimer;
      timers := timers[timer := Timer(p.id, p.generation, now + delay)];
      nextTimer := nextTimer + 1;
    }
  }

  class BoundedMaintenancePass {
    const id: nat
    const resource: Resource
    const maxDurationMs: nat
    const process: MaintenanceProcess
    var active: bool
    var observing: bool
    var closed: bool
    var deferred: bool
    var deadline: int
    var abort: Option<bool>
    var timer: Option<nat>
    var wait: Option<nat>
    var resolver: Option<nat>
    var closing: Option<Option<nat>>
    var generation: nat

    constructor (id: nat, resource: Resource, maxDurationMs: nat, process: MaintenanceProcess)
      requires 1 <= maxDurationMs <= 10_000
      ensures State() == Fresh(id, resource, maxDurationMs) && this.process == process
      ensures !active && !observing && !closed && !deferred && wait == None && generation == 0
    {
      this.id, this.resource, this.maxDurationMs, this.process := id, resource, maxDurationMs, process;
      active, observing, closed, deferred, deadline, generation := false, false, false, false, 0, 0;
      abort, timer, wait, resolver, closing := None, None, None, None, None;
    }

    function State(): Pass reads this {
      Pass(id, resource, maxDurationMs, active, observing, closed, deferred, deadline, abort, timer, wait,
           resolver, closing, generation)
    }

    /** The answer is the wait promise the caller may await, or None for the idle promise. */
    method RunPass() returns (answer: Option<nat>)
      modifies this, process
      ensures (State(), process.State()) == Run(old(State()), old(process.State()))
      ensures answer == RunAnswer(old(State()), old(process.State()))
    {
      if closed { return None; }
      if active { return wait; }
      if process.activePasses >= MAX_ACTIVE_PASSES || resource in process.activeResources {
        deferred := true;
        return None;
      }
      answer := Some(generation + 1);
      Admit();
    }

    method Admit()
      modifies this, process
      ensures State() == Started(old(State()), old(process.State()))
      ensures process.State() == Reserved(old(State()), old(process.State()))
    {
      process.Reserve(resource);
      Observe();
      var t := process.SetTimer(State(), maxDurationMs);
      timer := Some(t);
      process.Execute(State());
    }

    method Observe()
      modifies this
      ensures State() == Started(old(State()), process.State()).(timer := old(timer))
    {
      deferred, active, observing := false, true, true;
      generation := generation + 1;
      abort, resolver, wait := Some(false), Some(generation), Some(generation);
      deadline := process.now + maxDurationMs;
    }

    method ClosePass() returns (answer: Option<nat>)
      modifies this, process
      ensures (State(), process.State()) == Close(old(State()), old(process.State()))
      ensures closing == Some(answer) && (old(closing).Some? ==> closing == old(closing))
    {
      if closing.Some? { return closing.value; }
      closed := true;
      abort := Aborted(abort);
      if observing { RestartTimer(Max(0, Min(CLOSE_GRACE_MS, deadline - process.now))); }
      closing := Some(wait);
      return wait;
    }

    method RestartTimer(delay: int)
      modifies this`timer, process
      ensures timer == Some(old(process.nextTimer))
      ensures process.State() == SetTimeout(ClearTimeout(old(process.State()), old(timer)), old(State()), delay)
    {
      process.ClearTimer(timer);
      var t := process.SetTimer(State(), delay);
      timer := Some(t);
    }

    method TimeoutPass()
      modifies this, process
      ensures (State(), process.State()) == Timeout(old(State()), old(process.State()))
    {
      if !observing { return; }
      timer := None;
      observing := false;
      abort := Aborted(abort);
      ResolveWait();
    }

    method FinishPass()
      modifies this, process
      ensures (State(), process.State()) == Finish(old(State()), old(process.State()))
    {
      if !active { return; }
      process.ClearTimer(timer);
      Deactivate();
      process.Release(resource);
      ResolveWait();
      wait := None;
    }

    method Deactivate()
      modifies this
      ensures State() == old(State()).(timer := None, active := false, observing := false, abort := None)
    {
      timer := None;
      active := false;
      observing := false;
      abort := None;
    }

    method ResolveWait()
      modifies this`resolver, process`resolutions
      ensures process.State() == Resolve(old(process.State()), old(State()))
      ensures State() == old(State()).(resolver := None)
    {
      if resolver.Some? {
        process.resolutions := process.resolutions + [Resolution(id, resolver.value, process.now)];
      }
      resolver := None;
    }
  }

  function Fresh(id: nat, resource: Resource, maxDurationMs: nat): Pass {
    Pass(id, resource, maxDurationMs, false, false, false, false, 0, None, None, None, None, None, 0)
  }

  // ---------- every interleaving ----------

  datatype World = World(passes: seq<Pass>, process: Process)

  datatype Event =
    | RunEvent(pass: nat)
    | SettleEvent(pass: nat, generation: nat)  // the promise of one execution settles
    | FireEvent(timer: nat)
    | CloseEvent(pass: nat)
    | AdvanceEvent(to: int)

  function Put(w: World, i: nat, next: (Pass, Process)): World
    requires i < |w.passes|
  {
    World(w.passes[i := next.0], next.1)
  }

  /** An event that cannot happen in this state leaves it as it is. */
  function Step(w: World, e: Event): World {
    var s := w.process;
    match e
    case RunEvent(i) => if i < |w.passes| then Put(w, i, Run(w.passes[i], s)) else w
    case CloseEvent(i) => if i < |w.passes| then Put(w, i, Close(w.passes[i], s)) else w
    case SettleEvent(i, g) =>
      if i < |w.passes| && (i, g) in s.executing
      then Put(w, i, Finish(w.passes[i], s.(executing := s.executing - {(i, g)}))) else w
    case FireEvent(t) =>
      if t in s.timers && s.timers[t].due <= s.now && s.timers[t].owner < |w.passes|
      then Put(w, s.timers[t].owner, Timeout(w.passes[s.timers[t].owner], ClearTimeout(s, Some(t)))) else w
    case AdvanceEvent(to) => if to >= s.now then w.(process := s.(now := to)) else w
  }

  function Steps(w: World, events: seq<Event>): World
    decreases |events|
  {
    if events == [] then w else Steps(Step(w, events[0]), events[1..])
  }

  ghost predicate Initial(w: World) {
    && (forall i | 0 <= i < |w.passes| ::
          w.passes[i] == Fresh(i, w.passes[i].resource, w.passes[i].maxDurationMs))
    && w.process == Process(0, {}, map[], 0, {}, [], w.process.now)
  }

  function ActiveCount(passes: seq<Pass>): nat {
    if passes == [] then 0 else (if passes[0].active then 1 else 0) + ActiveCount(passes[1..])
  }

  ghost predicate ResourcesExact(w: World) {
    && (forall i | 0 <= i < |w.passes| && w.passes[i].active :: w.passes[i].resource in w.process.activeResources)
    && (forall r | r in w.process.activeResources ::
          exists i :: 0 <= i < |w.passes| && w.passes[i].active && w.passes[i].resource == r)
    && (forall i, j | 0 <= i < j < |w.passes| && w.passes[i].active && w.passes[j].active ::
          w.passes[i].resource != w.passes[j].resource)
  }

  /** What admission promises of the whole process at every moment. */
  ghost predicate Admission(w: World) {
    && w.process.activePasses == ActiveCount(w.passes) <= MAX_ACTIVE_PASSES
    && ResourcesExact(w)
    && forall i | 0 <= i < |w.passes| :: w.passes[i].observing ==> w.passes[i].active
  }

  /** The fields of one pass agree with each other. */
  predicate FieldsAgree(p: Pass) {
    && (p.observing ==> p.active)
    && (p.active ==> p.generation >= 1)
    && (p.observing <==> p.timer.Some?)
    && p.wait == (if p.active then Some(p.generation) else None)
    && p.resolver == (if p.observing then Some(p.generation) else None)
    && p.abort.Some? == p.active
    && (p.active ==> p.abort == Some(p.closed || !p.observing))
    && (p.closed == p.closing.Some?)
  }

  /** A pass owns its live timer, and is executing exactly its current generation while active. */
  ghost predicate Linked(p: Pass, i: nat, s: Process) {
    && p.id == i
    && (p.timer.Some? ==> p.timer.value in s.timers && s.timers[p.timer.value].owner == i)
    && (forall g: nat :: (i, g) in s.executing <==> p.active && g == p.generation)
  }

  ghost predicate PassInv(p: Pass, i: nat, s: Process) { FieldsAgree(p) && Linked(p, i, s) }

  ghost predicate TimersInv(w: World) {
    forall t | t in w.process.timers ::
      var timer := w.process.timers[t];
      && t < w.process.nextTimer && timer.owner < |w.passes|
      && w.passes[timer.owner].timer == Some(t) && w.passes[timer.owner].generation == timer.generation
  }

  function Resolutions(log: seq<Resolution>, owner: nat, generation: nat): nat {
    if log == [] then 0
    else (if log[0].owner == owner && log[0].generation == generation then 1 else 0)
         + Resolutions(log[1..], owner, generation)
  }

  /** How often a generation's wait promise must have been resolved by now. */
  function ResolutionsDue(p: Pass, generation: nat): nat {
    if 1 <= generation <= p.generation && !(p.observing && generation == p.generation) then 1 else 0
  }

  ghost predicate ResolutionsInv(w: World) {
    forall i: nat, g: nat | i < |w.passes| ::
      Resolutions(w.process.resolutions, i, g) == ResolutionsDue(w.passes[i], g)
  }

  ghost predicate Inv(w: World) {
    && Admission(w)
    && (forall i | 0 <= i < |w.passes| :: PassInv(w.passes[i], i, w.process))
    && TimersInv(w)
    && ResolutionsInv(w)
  }

  lemma {:induction false} ActiveCountUpdate(passes: seq<Pass>, i: nat, p: Pass)
    requires i < |passes|
    ensures ActiveCount(passes[i := p])
         == ActiveCount(passes) - (if passes[i].active then 1 else 0) + (if p.active then 1 else 0)
  {
    if i == 0 {
      assert passes[i := p][1..] == passes[1..];
    } else {
      assert passes[i := p][1..] == passes[1..][i - 1 := p];
      ActiveCountUpdate(passes[1..], i - 1, p);
    }
  }

  lemma {:induction false} ResolutionsSnoc(log: seq<Resolution>, r: Resolution, owner: nat, generation: nat)
    ensures Resolutions(log + [r], owner, generation)
         == Resolutions(log, owner, generation) + (if r.owner == owner && r.generation == generation then 1 else 0)
  {
    if log != [] {
      assert (log + [r])[1..] == log[1..] + [r];
      ResolutionsSnoc(log[1..], r, owner, generation);
    } else {
      assert log + [r] == [r];
    }
  }

  /** Appending pass i's own resolution keeps the tally when that ends its observation. */
  lemma ResolveKeepsTally(w: World, v: World, i: nat)
    requires ResolutionsInv(w) && i < |w.passes| == |v.passes|
    requires w.passes[i].observing && w.passes[i].generation >= 1
    requires forall j | 0 <= j < |w.passes| && j != i :: v.passes[j] == w.passes[j]
    requires v.passes[i].generation == w.passes[i].generation && !v.passes[i].observing
    requires v.process.resolutions
          == w.process.resolutions + [Resolution(i, w.passes[i].generation, w.process.now)]
    ensures ResolutionsInv(v)
  {
    forall j: nat, g: nat | j < |v.passes|
      ensures Resolutions(v.process.resolutions, j, g) == ResolutionsDue(v.passes[j], g)
    {
      ResolutionsSnoc(w.process.resolutions, Resolution(i, w.passes[i].generation, w.process.now), j, g);
      assert Resolutions(w.process.resolutions, j, g) == ResolutionsDue(w.passes[j], g);
    }
  }

  lemma RunKeepsInv(w: World, i: nat)
    requires Inv(w) && i < |w.passes|
    ensures Inv(Step(w, RunEvent(i)))
  {
    var p, v := w.passes[i], Step(w, RunEvent(i));
    assert PassInv(p, i, w.process);
    if Admits(p, w.process) {
      assert ResolutionsInv(v) by { RunKeepsTally(w, v, i); }
      assert ResourcesExact(v) by { RunKeepsResources(w, i); }
      assert TimersInv(v) && PassInv(v.passes[i], i, v.process) by { RunKeepsTimers(w, i); }
      assert OthersKept(w.process, v.process, i) by { RunKeepsTimers(w, i); }
      Reassemble(w, v, i);
    } else {
      ChangeOnlyFlags(w, v, i);
    }
  }

  /** A run that starts adds a generation whose promise is still open. */
  lemma RunKeepsTally(w: World, v: World, i: nat)
    requires ResolutionsInv(w) && i < |w.passes| == |v.passes| && !w.passes[i].observing
    requires v.passes == w.passes[i := v.passes[i]] && v.process.resolutions == w.process.resolutions
    requires v.passes[i].generation == w.passes[i].generation + 1 && v.passes[i].observing
    ensures ResolutionsInv(v)
  {
    forall j: nat, g: nat | j < |v.passes|
      ensures Resolutions(v.process.resolutions, j, g) == ResolutionsDue(v.passes[j], g)
    {
      assert Resolutions(w.process.resolutions, j, g) == ResolutionsDue(w.passes[j], g);
    }
  }

  lemma RunKeepsTimers(w: World, i: nat)
    requires TimersInv(w) && i < |w.passes| && PassInv(w.passes[i], i, w.process) && Admits(w.passes[i], w.process)
    ensures var v := Step(w, RunEvent(i));
            TimersInv(v) && PassInv(v.passes[i], i, v.process) && OthersKept(w.process, v.process, i)
  {
  }

  lemma RunKeepsResources(w: World, i: nat)
    requires ResourcesExact(w) && i < |w.passes| && Admits(w.passes[i], w.process)
    ensures ResourcesExact(Step(w, RunEvent(i)))
  {
    ResourcesWith(w, Step(w, RunEvent(i)), i);
  }

  lemma ResourcesWith(w: World, v: World, i: nat)
    requires ResourcesExact(w) && i < |w.passes| == |v.passes| && !w.passes[i].active
    requires v.passes == w.passes[i := v.passes[i]] && v.passes[i].active
    requires v.passes[i].resource == w.passes[i].resource && w.passes[i].resource !in w.process.activeResources
    requires v.process.activeResources == w.process.activeResources + {w.passes[i].resource}
    ensures ResourcesExact(v)
  {
    forall r | r in v.process.activeResources
      ensures exists j :: 0 <= j < |v.passes| && v.passes[j].active && v.passes[j].resource == r
    {
      if r == w.passes[i].resource {
        assert v.passes[i].active && v.passes[i].resource == r;
      } else {
        var j :| 0 <= j < |w.passes| && w.passes[j].active && w.passes[j].resource == r;
        assert v.passes[j].active && v.passes[j].resource == r;
      }
    }
  }

  /** A step that leaves admission, timers and promises alone cannot break anything. */
  lemma ChangeOnlyFlags(w: World, v: World, i: nat)
    requires Inv(w) && FlagsChanged(w, v, i) && PassInv(v.passes[i], i, v.process)
    ensures Inv(v)
  {
    FlagsKeepTheRest(w, v, i);
    Reassemble(w, v, i);
  }

  ghost predicate FlagsChanged(w: World, v: World, i: nat) {
    && i < |w.passes| == |v.passes| && v.process == w.process && v.passes == w.passes[i := v.passes[i]]
    && v.passes[i] == w.passes[i].(deferred := v.passes[i].deferred, closed := v.passes[i].closed,
                                   closing := v.passes[i].closing, abort := v.passes[i].abort)
  }

  lemma FlagsKeepTheRest(w: World, v: World, i: nat)
    requires FlagsChanged(w, v, i) && TimersInv(w) && ResolutionsInv(w) && ResourcesExact(w)
    ensures TimersInv(v) && ResolutionsInv(v) && ResourcesExact(v)
  {
    SameTally(w, v);
    SameResources(w, v);
  }

  /** Other passes keep their timers and executions. */
  ghost predicate OthersKept(s: Process, t: Process, i: nat) {
    && (forall k | k in s.timers && s.timers[k].owner != i :: k in t.timers && t.timers[k].owner == s.timers[k].owner)
    && (forall j: nat, g: nat | j != i :: (j, g) in t.executing <==> (j, g) in s.executing)
  }

  /** The pieces of the invariant that a change to pass i alone must re-establish. */
  lemma Reassemble(w: World, v: World, i: nat)
    requires Inv(w) && i < |w.passes| == |v.passes| && v.passes == w.passes[i := v.passes[i]]
    requires PassInv(v.passes[i], i, v.process) && TimersInv(v) && ResolutionsInv(v) && ResourcesExact(v)
    requires v.process.activePasses == w.process.activePasses
             - (if w.passes[i].active then 1 else 0) + (if v.passes[i].active then 1 else 0) <= MAX_ACTIVE_PASSES
    requires OthersKept(w.process, v.process, i)
    ensures Inv(v)
  {
    ActiveCountUpdate(w.passes, i, v.passes[i]);
    forall j | 0 <= j < |v.passes| && j != i ensures PassInv(v.passes[j], j, v.process) {
      assert PassInv(w.passes[j], j, w.process);
    }
  }

  lemma CloseKeepsInv(w: World, i: nat)
    requires Inv(w) && i < |w.passes|
    ensures Inv(Step(w, CloseEvent(i)))
  {
    var p, v := w.passes[i], Step(w, CloseEvent(i));
    assert PassInv(p, i, w.process);
    if p.closing.None? && p.observing {
      CloseRetimes(w, i);
      Retimed(w, v, i, v.process.timers[w.process.nextTimer]);
    } else {
      ChangeOnlyFlags(w, v, i);
    }
  }

  lemma CloseRetimes(w: World, i: nat)
    requires i < |w.passes| && w.passes[i].closing.None? && w.passes[i].observing
    requires PassInv(w.passes[i], i, w.process)
    ensures var v := Step(w, CloseEvent(i));
            && w.process.nextTimer in v.process.timers
            && RetimedTo(w, v, i, v.process.timers[w.process.nextTimer])
  {
  }

  /** Closing an observed pass swaps its timer for a fresh one. */
  lemma Retimed(w: World, v: World, i: nat, timer: Timer)
    requires Inv(w) && RetimedTo(w, v, i, timer)
    ensures Inv(v)
  {
    assert PassInv(w.passes[i], i, w.process);
    RetimedTimers(w, v, i, timer);
    RetimedRest(w, v, i, timer);
    Reassemble(w, v, i);
  }

  lemma RetimedRest(w: World, v: World, i: nat, timer: Timer)
    requires ResolutionsInv(w) && ResourcesExact(w) && RetimedTo(w, v, i, timer)
    ensures ResolutionsInv(v) && ResourcesExact(v)
  {
    SameTally(w, v);
    SameResources(w, v);
  }

  ghost predicate RetimedTo(w: World, v: World, i: nat, timer: Timer) {
    && i < |w.passes| == |v.passes| && w.passes[i].observing && w.passes[i].timer.Some?
    && v.passes == w.passes[i := v.passes[i]] && FieldsAgree(v.passes[i])
    && v.passes[i] == w.passes[i].(closed := true, closing := v.passes[i].closing, abort := v.passes[i].abort,
                                   timer := Some(w.process.nextTimer))
    && timer.owner == i && timer.generation == w.passes[i].generation
    && var s := w.process;
       v.process == s.(timers := (s.timers - {w.passes[i].timer.value})[s.nextTimer := timer],
                       nextTimer := s.nextTimer + 1)
  }

  lemma RetimedTimers(w: World, v: World, i: nat, timer: Timer)
    requires RetimedTo(w, v, i, timer) && TimersInv(w) && PassInv(w.passes[i], i, w.process)
    ensures TimersInv(v) && PassInv(v.passes[i], i, v.process) && OthersKept(w.process, v.process, i)
  {
  }

  lemma SameTally(w: World, v: World)
    requires ResolutionsInv(w) && |v.passes| == |w.passes|
    requires v.process.resolutions == w.process.resolutions
    requires forall j | 0 <= j < |w.passes| ::
      v.passes[j].generation == w.passes[j].generation && v.passes[j].observing == w.passes[j].observing
    ensures ResolutionsInv(v)
  {
    forall j: nat, g: nat | j < |v.passes|
      ensures Resolutions(v.process.resolutions, j, g) == ResolutionsDue(v.passes[j], g)
    {
      assert Resolutions(w.process.resolutions, j, g) == ResolutionsDue(w.passes[j], g);
    }
  }

  lemma SameResources(w: World, v: World)
    requires ResourcesExact(w) && |v.passes| == |w.passes|
    requires v.process.activeResources == w.process.activeResources
    requires forall j | 0 <= j < |w.passes| ::
      v.passes[j].active == w.passes[j].active && v.passes[j].resource == w.passes[j].resource
    ensures ResourcesExact(v)
  {
    forall r | r in v.process.activeResources
      ensures exists j :: 0 <= j < |v.passes| && v.passes[j].active && v.passes[j].resource == r
    {
      var j :| 0 <= j < |w.passes| && w.passes[j].active && w.passes[j].resource == r;
      assert v.passes[j].active && v.passes[j].resource == r;
    }
  }

  lemma FireKeepsInv(w: World, t: nat)
    requires Inv(w)
    ensures Inv(Step(w, FireEvent(t)))
  {
    var v := Step(w, FireEvent(t));
    if v != w {
      var i := w.process.timers[t].owner;
      assert PassInv(w.passes[i], i, w.process);
      FireTimers(w, t, i);
      FireRest(w, t, i);
      Reassemble(w, v, i);
    }
  }

  lemma FireTimers(w: World, t: nat, i: nat)
    requires TimersInv(w) && t in w.process.timers && w.process.timers[t].due <= w.process.now
    requires i == w.process.timers[t].owner < |w.passes| && PassInv(w.passes[i], i, w.process)
    ensures var v := Step(w, FireEvent(t));
            && TimersInv(v) && PassInv(v.passes[i], i, v.process) && OthersKept(w.process, v.process, i)
  {
  }

  lemma FireRest(w: World, t: nat, i: nat)
    requires ResolutionsInv(w) && ResourcesExact(w) && TimersInv(w)
    requires t in w.process.timers && w.process.timers[t].due <= w.process.now
    requires i == w.process.timers[t].owner < |w.passes| && PassInv(w.passes[i], i, w.process)
    ensures ResolutionsInv(Step(w, FireEvent(t))) && ResourcesExact(Step(w, FireEvent(t)))
  {
    assert w.passes[i].timer == Some(t);
    ResolveKeepsTally(w, Step(w, FireEvent(t)), i);
    SameResources(w, Step(w, FireEvent(t)));
  }

  lemma SettleKeepsInv(w: World, i: nat, g: nat)
    requires Inv(w)
    ensures Inv(Step(w, SettleEvent(i, g)))
  {
    var v := Step(w, SettleEvent(i, g));
    if i < |w.passes| && (i, g) in w.process.executing {
      assert PassInv(w.passes[i], i, w.process);
      assert ResolutionsInv(v) by { SettleTally(w, i, g); }
      assert ResourcesExact(v) by { SettleKeepsResources(w, i, g); }
      assert TimersInv(v) && PassInv(v.passes[i], i, v.process) by { SettleTimers(w, i, g); }
      Reassemble(w, v, i);
    }
  }

  lemma SettleTally(w: World, i: nat, g: nat)
    requires ResolutionsInv(w) && i < |w.passes| && (i, g) in w.process.executing
    requires PassInv(w.passes[i], i, w.process)
    ensures ResolutionsInv(Step(w, SettleEvent(i, g)))
  {
    if w.passes[i].observing {
      ResolveKeepsTally(w, Step(w, SettleEvent(i, g)), i);
    } else {
      SameTally(w, Step(w, SettleEvent(i, g)));
    }
  }

  lemma SettleTimers(w: World, i: nat, g: nat)
    requires TimersInv(w) && i < |w.passes| && (i, g) in w.process.executing
    requires PassInv(w.passes[i], i, w.process)
    ensures TimersInv(Step(w, SettleEvent(i, g)))
    ensures PassInv(Step(w, SettleEvent(i, g)).passes[i], i, Step(w, SettleEvent(i, g)).process)
  {
  }

  lemma SettleKeepsResources(w: World, i: nat, g: nat)
    requires ResourcesExact(w) && i < |w.passes| && (i, g) in w.process.executing && w.passes[i].active
    ensures ResourcesExact(Step(w, SettleEvent(i, g)))
  {
    var v := Step(w, SettleEvent(i, g));
    ResourcesWithout(w, v, i);
  }

  lemma ResourcesWithout(w: World, v: World, i: nat)
    requires ResourcesExact(w) && i < |w.passes| == |v.passes| && w.passes[i].active
    requires v.passes == w.passes[i := v.passes[i]] && !v.passes[i].active
    requires v.process.activeResources == w.process.activeResources - {w.passes[i].resource}
    ensures ResourcesExact(v)
  {
    forall r | r in v.process.activeResources
      ensures exists j :: 0 <= j < |v.passes| && v.passes[j].active && v.passes[j].resource == r
    {
      var j :| 0 <= j < |w.passes| && w.passes[j].active && w.passes[j].resource == r;
      assert v.passes[j].active && v.passes[j].resource == r;
    }
  }

  lemma StepKeepsInv(w: World, e: Event)
    requires Inv(w)
    ensures Inv(Step(w, e))
  {
    match e
    case RunEvent(i) => if i < |w.passes| { RunKeepsInv(w, i); }
    case CloseEvent(i) => if i < |w.passes| { CloseKeepsInv(w, i); }
    case SettleEvent(i, g) => SettleKeepsInv(w, i, g);
    case FireEvent(t) => FireKeepsInv(w, t);
    case AdvanceEvent(to) =>
      var v := Step(w, e);
      SameTally(w, v);
      SameResources(w, v);
      forall j | 0 <= j < |v.passes| ensures PassInv(v.passes[j], j, v.process) {
        assert PassInv(w.passes[j], j, w.process);
      }
  }

  lemma {:induction false} StepsKeepInv(w: World, events: seq<Event>)
    requires Inv(w)
    ensures Inv(Steps(w, events))
    decreases |events|
  {
    if events != [] {
      StepKeepsInv(w, events[0]);
      StepsKeepInv(Step(w, events[0]), events[1..]);
    }
  }

  lemma {:induction false} InitialCount(passes: seq<Pass>)
    requires forall i | 0 <= i < |passes| :: !passes[i].active
    ensures ActiveCount(passes) == 0
  {
    if passes != [] { InitialCount(passes[1..]); }
  }

  /** Whatever runs, settlements, timeouts and closes interleave, admission holds: the permit count is the
      number of active passes and at most two, the resource set is exactly theirs and none is shared. */
  lemma AdmissionAlwaysHolds(w: World, events: seq<Event>)
    requires Initial(w)
    ensures Inv(Steps(w, events)) && Admission(Steps(w, events))
  {
    InitialCount(w.passes);
    StepsKeepInv(w, events);
  }

  /** A wait promise is resolved only by the step that ends its observation: the settlement of that very
      generation or the timer set for it, whichever comes first. */
  lemma ResolvedByItsOwnStep(w: World, e: Event)
    requires Inv(w)
    ensures var log, next := w.process.resolutions, Step(w, e).process.resolutions;
            next == log
            || exists i: nat | i < |w.passes| :: w.passes[i].observing && !Step(w, e).passes[i].observing
                 && next == log + [Resolution(i, w.passes[i].generation, w.process.now)]
                 && (e == SettleEvent(i, w.passes[i].generation) || e == FireEvent(w.passes[i].timer.value))
  {
    match e
    case SettleEvent(i, g) => SettleResolves(w, i, g);
    case FireEvent(t) => FireResolves(w, t);
    case _ => KeepsResolutions(w, e);
  }

  lemma KeepsResolutions(w: World, e: Event)
    requires e.RunEvent? || e.CloseEvent? || e.AdvanceEvent?
    ensures Step(w, e).process.resolutions == w.process.resolutions
  {
  }

  lemma SettleResolves(w: World, i: nat, g: nat)
    requires Inv(w)
    ensures var v := Step(w, SettleEvent(i, g));
            v.process.resolutions == w.process.resolutions
            || (i < |w.passes| == |v.passes| && w.passes[i].observing && !v.passes[i].observing
                && v.process.resolutions
                   == w.process.resolutions + [Resolution(i, w.passes[i].generation, w.process.now)]
                && g == w.passes[i].generation)
  {
    if i < |w.passes| { assert PassInv(w.passes[i], i, w.process); }
  }

  lemma FireResolves(w: World, t: nat)
    requires Inv(w)
    ensures var v := Step(w, FireEvent(t));
            v.process.resolutions == w.process.resolutions
            || (t in w.process.timers
                && var i := w.process.timers[t].owner;
                   && i < |w.passes| == |v.passes| && w.passes[i].observing && !v.passes[i].observing
                   && v.process.resolutions
                      == w.process.resolutions + [Resolution(i, w.passes[i].generation, w.process.now)]
                   && w.passes[i].timer == Some(t))
  {
    if t in w.process.timers {
      assert PassInv(w.passes[w.process.timers[t].owner], w.process.timers[t].owner, w.process);
    }
  }

  /** In every reachable state each generation's promise has been resolved exactly once, or not yet when
      that generation is the one being observed. */
  lemma ResolvedExactlyOnce(w: World, events: seq<Event>, i: nat, g: nat)
    requires Initial(w) && i < |w.passes|
    ensures var v := Steps(w, events);
            && |v.passes| == |w.passes|
            && Resolutions(v.process.resolutions, i, g)
               == if 1 <= g <= v.passes[i].generation && !(v.passes[i].observing && g == v.passes[i].generation)
                  then 1 else 0
  {
    AdmissionAlwaysHolds(w, events);
    SameNumber(w, events);
    assert Resolutions(Steps(w, events).process.resolutions, i, g) == ResolutionsDue(Steps(w, events).passes[i], g);
  }

  lemma {:induction false} SameNumber(w: World, events: seq<Event>)
    ensures |Steps(w, events).passes| == |w.passes|
    decreases |events|
  {
    if events != [] { SameNumber(Step(w, events[0]), events[1..]); }
  }

  /** A live timer always belongs to the generation its pass is observing now, so firing it can end no
      other generation's observation. */
  lemma TimerActsOnItsGeneration(w: World, events: seq<Event>, t: nat)
    requires Initial(w) && t in Steps(w, events).process.timers
    ensures var v := Steps(w, events);
            var timer := v.process.timers[t];
            && timer.owner < |v.passes| && v.passes[timer.owner].observing
            && v.passes[timer.owner].generation == timer.generation
            && forall j | 0 <= j < |v.passes| && j != timer.owner :: Step(v, FireEvent(t)).passes[j] == v.passes[j]
  {
    AdmissionAlwaysHolds(w, events);
    var v := Steps(w, events);
    assert PassInv(v.passes[v.process.timers[t].owner], v.process.timers[t].owner, v.process);
  }

  /** Only the settlement of a pass's current execution returns its permit; a timeout or a close never does. */
  lemma PermitReturnedBySettlement(w: World, e: Event, i: nat)
    requires Inv(w) && i < |w.passes| && w.passes[i].active
    ensures !Step(w, e).passes[i].active <==> e == SettleEvent(i, w.passes[i].generation)
  {
    assert PassInv(w.passes[i], i, w.process);
  }

  lemma ClosedStaysClosed(w: World, e: Event, i: nat)
    requires i < |w.passes| && w.passes[i].closed
    ensures |Step(w, e).passes| == |w.passes|
    ensures Step(w, e).passes[i].closed && Step(w, e).passes[i].generation == w.passes[i].generation
  {
  }

  /** Once closed, a pass admits no further generation, whatever happens. */
  lemma {:induction false} ClosedNeverStarts(w: World, events: seq<Event>, i: nat)
    requires Inv(w) && i < |w.passes| && w.passes[i].closed
    ensures |Steps(w, events).passes| == |w.passes|
    ensures Steps(w, events).passes[i].closed && Steps(w, events).passes[i].generation == w.passes[i].generation
    decreases |events|
  {
    if events != [] {
      ClosedStaysClosed(w, events[0], i);
      StepKeepsInv(w, events[0]);
      ClosedNeverStarts(Step(w, events[0]), events[1..], i);
    }
  }

  /** The event loop is prompt: the clock does not pass a due timer before it has fired. */
  ghost predicate Prompt(w: World, events: seq<Event>)
    decreases |events|
  {
    events == []
    || ((events[0].AdvanceEvent? ==> forall t | t in w.process.timers :: events[0].to <= w.process.timers[t].due)
        && Prompt(Step(w, events[0]), events[1..]))
  }

  /** When the timer of an observed pass is due. */
  function Due(w: World, i: nat): int
    requires i < |w.passes|
  {
    var timer := w.passes[i].timer;
    if timer.Some? && timer.value in w.process.timers then w.process.timers[timer.value].due else w.process.now
  }

  ghost predicate DueIs(v: World, i: nat, due: int, deadline: int) {
    i < |v.passes| && Due(v, i) == due && v.passes[i].deadline == deadline
  }

  lemma DueAfterRun(w: World, i: nat)
    requires Inv(w) && i < |w.passes| && !w.passes[i].observing && Step(w, RunEvent(i)).passes[i].observing
    ensures var due := w.process.now + w.passes[i].maxDurationMs; DueIs(Step(w, RunEvent(i)), i, due, due)
  {
  }

  lemma DueAfterClose(w: World, i: nat)
    requires Inv(w) && i < |w.passes| && w.passes[i].observing && !w.passes[i].closed
    ensures var p, now := w.passes[i], w.process.now;
            DueIs(Step(w, CloseEvent(i)), i, now + CloseDelay(p, now), p.deadline)
  {
    assert PassInv(w.passes[i], i, w.process);
  }

  /** The passes an event can touch: its own, or the owner of the fired timer. */
  function Target(w: World, e: Event): Option<nat> {
    match e
    case RunEvent(i) => Some(i)
    case CloseEvent(i) => Some(i)
    case SettleEvent(i, g) => Some(i)
    case FireEvent(t) => if t in w.process.timers then Some(w.process.timers[t].owner) else None
    case AdvanceEvent(to) => None
  }

  /** A timer stays as it is through what another pass does. */
  predicate Keeps(s: Process, t: Process, timer: nat) {
    timer in s.timers ==> timer in t.timers && t.timers[timer] == s.timers[timer]
  }

  lemma OthersKeepTimer(p: Pass, s: Process, timer: nat)
    requires p.timer != Some(timer) && timer < s.nextTimer
    ensures Keeps(s, Run(p, s).1, timer) && Keeps(s, Close(p, s).1, timer)
    ensures Keeps(s, Timeout(p, s).1, timer) && Keeps(s, Finish(p, s).1, timer)
  {
  }

  lemma DueUntouched(w: World, e: Event, i: nat)
    requires Inv(w) && i < |w.passes| && w.passes[i].observing && Target(w, e) != Some(i)
    ensures DueIs(Step(w, e), i, Due(w, i), w.passes[i].deadline)
    ensures Step(w, e).passes[i] == w.passes[i]
  {
    assert PassInv(w.passes[i], i, w.process);
    var j := Target(w, e);
    if j.Some? && j.value < |w.passes| {
      assert PassInv(w.passes[j.value], j.value, w.process);
      OwnTimersDiffer(w, i, j.value);
      TouchedByOther(w, e, i, j.value);
    }
  }

  lemma OwnTimersDiffer(w: World, i: nat, j: nat)
    requires TimersInv(w) && i < |w.passes| && j < |w.passes| && i != j && w.passes[i].observing
    requires PassInv(w.passes[i], i, w.process) && PassInv(w.passes[j], j, w.process)
    ensures w.passes[i].timer.Some? && w.passes[i].timer.value in w.process.timers
    ensures w.passes[j].timer != w.passes[i].timer && w.passes[i].timer.value < w.process.nextTimer
    ensures w.process.timers[w.passes[i].timer.value].owner == i
  {
  }

  lemma TouchedByOther(w: World, e: Event, i: nat, j: nat)
    requires i < |w.passes| && j < |w.passes| && i != j && Target(w, e) == Some(j)
    requires w.passes[i].timer.Some? && w.passes[i].timer.value in w.process.timers
    requires w.passes[j].timer != w.passes[i].timer && w.passes[i].timer.value < w.process.nextTimer
    requires w.process.timers[w.passes[i].timer.value].owner == i
    ensures DueIs(Step(w, e), i, Due(w, i), w.passes[i].deadline)
    ensures Step(w, e).passes[i] == w.passes[i]
  {
    var p, s, timer := w.passes[j], w.process, w.passes[i].timer.value;
    match e
    case SettleEvent(_, g) => OthersKeepTimer(p, s.(executing := s.executing - {(j, g)}), timer);
    case FireEvent(t) => OthersKeepTimer(p, ClearTimeout(s, Some(t)), timer);
    case _ => OthersKeepTimer(p, s, timer);
  }

  lemma NotObservedByOthers(w: World, e: Event, i: nat)
    requires Inv(w) && i < |w.passes| && !w.passes[i].observing && e != RunEvent(i)
    ensures i < |Step(w, e).passes| && !Step(w, e).passes[i].observing
  {
  }

  /** An observed pass has the due time it had before, or the one its own run or close just set. */
  lemma DueAfterStep(w: World, e: Event, i: nat)
    requires Inv(w) && i < |w.passes| && Step(w, e).passes[i].observing
    ensures var p, now := w.passes[i], w.process.now;
            var close := e == CloseEvent(i) && !p.closed;
            var run := !p.observing;
            && (run ==> e == RunEvent(i) && !p.closed)
            && DueIs(Step(w, e), i,
                     if run then now + p.maxDurationMs else if close then now + CloseDelay(p, now) else Due(w, i),
                     if run then now + p.maxDurationMs else p.deadline)
  {
    var p := w.passes[i];
    assert PassInv(p, i, w.process);
    if !p.observing {
      if e != RunEvent(i) { NotObservedByOthers(w, e, i); }
      DueAfterRun(w, i);
    } else if Target(w, e) != Some(i) {
      DueUntouched(w, e, i);
    } else if e == CloseEvent(i) && !p.closed {
      DueAfterClose(w, i);
    } else {
      DueOwnIdle(w, e, i);
    }
  }

  lemma DueOwnIdle(w: World, e: Event, i: nat)
    requires Inv(w) && i < |w.passes| && w.passes[i].observing && Step(w, e).passes[i].observing
    requires Target(w, e) == Some(i) && (e == CloseEvent(i) ==> w.passes[i].closed)
    ensures DueIs(Step(w, e), i, Due(w, i), w.passes[i].deadline)
  {
    assert PassInv(w.passes[i], i, w.process);
  }

  /** The clock moves only when it is advanced, and then by no more than any live timer allows. */
  lemma ClockStaysBeforeDue(w: World, e: Event, i: nat)
    requires i < |w.passes| && PassInv(w.passes[i], i, w.process)
    requires w.passes[i].observing && w.process.now <= Due(w, i)
    requires e.AdvanceEvent? ==> forall t | t in w.process.timers :: e.to <= w.process.timers[t].due
    ensures Step(w, e).process.now <= Due(w, i)
  {
    ClockMovesOnlyByAdvance(w, e);
  }

  lemma ClockMovesOnlyByAdvance(w: World, e: Event)
    ensures !e.AdvanceEvent? ==> Step(w, e).process.now == w.process.now
    ensures e.AdvanceEvent? ==> Step(w, e).process.now == if e.to >= w.process.now then e.to else w.process.now
  {
  }

  lemma {:induction false} ClosedObservationEnds(w: World, events: seq<Event>, i: nat, due: int)
    requires Inv(w) && i < |w.passes| && w.passes[i].closed && Prompt(w, events)
    requires w.passes[i].observing ==> w.process.now <= Due(w, i) == due
    ensures |Steps(w, events).passes| == |w.passes|
    ensures Steps(w, events).passes[i].observing ==> Steps(w, events).process.now <= due
    decreases |events|
  {
    if events != [] {
      var v := Step(w, events[0]);
      StepKeepsInv(w, events[0]);
      ClosedNeverStarts(w, [events[0]], i);
      assert Steps(w, [events[0]]) == v;
      if v.passes[i].observing {
        DueAfterStep(w, events[0], i);
        assert PassInv(w.passes[i], i, w.process);
        ClockStaysBeforeDue(w, events[0], i);
      }
      ClosedObservationEnds(v, events[1..], i, due);
    }
  }

  /** After a close at time t, a prompt event loop ends the observation by max(t, min(t + 250, deadline)). */
  lemma CloseEndsObservation(w: World, events: seq<Event>, i: nat)
    requires Inv(w) && i < |w.passes| && w.passes[i].observing && !w.passes[i].closed
    requires Prompt(Step(w, CloseEvent(i)), events)
    ensures var v := Steps(Step(w, CloseEvent(i)), events);
            var t := w.process.now;
            |v.passes| == |w.passes|
            && (v.passes[i].observing ==>
                v.process.now <= t || (v.process.now <= t + 250 && v.process.now <= w.passes[i].deadline))
  {
    var v := Step(w, CloseEvent(i));
    assert PassInv(w.passes[i], i, w.process);
    CloseKeepsInv(w, i);
    ClosedObservationEnds(v, events, i, w.process.now + CloseDelay(w.passes[i], w.process.now));
  }

  /** Every observed generation is due by the deadline its admission set, and that is not past. */
  ghost predicate OnTime(w: World) {
    forall i: nat | i < |w.passes| && w.passes[i].observing :: w.process.now <= Due(w, i) <= w.passes[i].deadline
  }

  /** A caller's wait ends by the deadline of the run that admitted it, even if the execution never settles. */
  lemma {:induction false} WaitEndsByDeadline(w: World, events: seq<Event>)
    requires Inv(w) && OnTime(w) && Prompt(w, events)
    ensures OnTime(Steps(w, events))
    decreases |events|
  {
    if events != [] {
      StepKeepsInv(w, events[0]);
      StepOnTime(w, events[0]);
      WaitEndsByDeadline(Step(w, events[0]), events[1..]);
    }
  }

  lemma StepOnTime(w: World, e: Event)
    requires Inv(w) && OnTime(w)
    requires e.AdvanceEvent? ==> forall t | t in w.process.timers :: e.to <= w.process.timers[t].due
    ensures OnTime(Step(w, e))
  {
    var v := Step(w, e);
    SameNumber(w, [e]);
    assert Steps(w, [e]) == v;
    forall i: nat | i < |v.passes| && v.passes[i].observing
      ensures v.process.now <= Due(v, i) <= v.passes[i].deadline
    {
      DueAfterStep(w, e, i);
      assert PassInv(w.passes[i], i, w.process);
      if w.passes[i].observing { ClockStaysBeforeDue(w, e, i); }
    }
  }
}
