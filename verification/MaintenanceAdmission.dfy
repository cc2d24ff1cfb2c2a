/** Which runs are admitted, what their callers are answered, and how long they are observed. */
module MaintenanceAdmission {
  import opened Wrappers
  import opened MaintenancePass

  /** No two passes are active. */
  ghost predicate PermitLeft(passes: seq<Pass>) {
    forall i, j | 0 <= i < j < |passes| :: !(passes[i].active && passes[j].active)
  }

  /** No active pass works on the resource. */
  ghost predicate ResourceFree(passes: seq<Pass>, resource: Resource) {
    forall j | 0 <= j < |passes| && passes[j].active :: passes[j].resource != resource
  }

  /** An idle, open pass whose resource is free finds a permit. */
  ghost predicate MayRun(passes: seq<Pass>, i: nat)
    requires i < |passes|
  {
    !passes[i].closed && !passes[i].active && PermitLeft(passes) && ResourceFree(passes, passes[i].resource)
  }

  lemma {:induction false} NoneCounted(passes: seq<Pass>)
    ensures ActiveCount(passes) == 0 <==> forall i | 0 <= i < |passes| :: !passes[i].active
  {
    if passes != [] {
      NoneCounted(passes[1..]);
      if forall i | 0 <= i < |passes[1..]| :: !passes[1..][i].active {
        assert forall i | 1 <= i < |passes| :: passes[i] == passes[1..][i - 1];
      }
    }
  }

  lemma {:induction false} FewerThanTwo(passes: seq<Pass>)
    ensures ActiveCount(passes) < 2 <==> PermitLeft(passes)
  {
    if passes != [] {
      var rest := passes[1..];
      assert forall i | 1 <= i < |passes| :: passes[i] == rest[i - 1];
      NoneCounted(rest);
      FewerThanTwo(rest);
      if ActiveCount(passes) < 2 {
        forall i, j | 0 <= i < j < |passes| ensures !(passes[i].active && passes[j].active) {
          if i > 0 { assert !(rest[i - 1].active && rest[j - 1].active); }
        }
      } else if !PermitLeft(rest) {
        var i, j :| 0 <= i < j < |rest| && rest[i].active && rest[j].active;
        assert passes[i + 1].active && passes[j + 1].active;
      } else {
        var j :| 0 <= j < |rest| && rest[j].active;
        assert passes[0].active && passes[j + 1].active;
      }
    }
  }

  /** What a call of run does to a pass. */
  ghost predicate RunDoes(passes: seq<Pass>, p: Pass, q: Pass, admitted: bool, deferred: bool) {
    if admitted
    then q.active && q.observing && !q.deferred && q.generation == p.generation + 1 && q.abort == Some(false)
    else q == p.(deferred := p.deferred || deferred)
  }

  lemma AdmitsExactly(w: World, i: nat)
    requires Inv(w) && i < |w.passes|
    ensures Admits(w.passes[i], w.process) <==> MayRun(w.passes, i)
  {
    FewerThanTwo(w.passes);
    if !ResourceFree(w.passes, w.passes[i].resource) {
      var j :| 0 <= j < |w.passes| && w.passes[j].active && w.passes[j].resource == w.passes[i].resource;
    }
  }

  /** In every reachable state a run of a pass is admitted exactly when the pass is idle and open, fewer than two passes
      are active and none of them works on its resource; an idle, open pass is otherwise marked as deferred. */
  lemma RunAdmittedExactly(w: World, events: seq<Event>, i: nat)
    requires Initial(w) && i < |Steps(w, events).passes|
    ensures var v := Steps(w, events);
            var u := Step(v, RunEvent(i));
            && |u.passes| == |v.passes|
            && RunDoes(v.passes, v.passes[i], u.passes[i], MayRun(v.passes, i),
                       !v.passes[i].closed && !v.passes[i].active)
            && forall j | 0 <= j < |v.passes| && j != i :: u.passes[j] == v.passes[j]
  {
    AdmissionAlwaysHolds(w, events);
    AdmitsExactly(Steps(w, events), i);
  }

  /** In every reachable state a call of run is answered with the wait of the run it starts, with the wait of the run
      under way, or, when the pass is closed or deferred, with none. */
  lemma RunAnswers(w: World, events: seq<Event>, i: nat)
    requires Initial(w) && i < |Steps(w, events).passes|
    ensures var v := Steps(w, events);
            var p := v.passes[i];
            RunAnswer(p, v.process)
            == if MayRun(v.passes, i) then Some(p.generation + 1)
               else if p.active && !p.closed then Some(p.generation) else None
  {
    AdmissionAlwaysHolds(w, events);
    var v := Steps(w, events);
    AdmitsExactly(v, i);
    assert PassInv(v.passes[i], i, v.process);
  }

  // ---------- how long a run is observed ----------

  /** Firing a timer ends the observation of a pass only when that pass's timer is due. */
  lemma FiredWhenDue(w: World, t: nat, i: nat)
    requires Inv(w) && i < |w.passes| && w.passes[i].observing
    ensures |Step(w, FireEvent(t)).passes| == |w.passes|
    ensures !Step(w, FireEvent(t)).passes[i].observing ==> Due(w, i) <= w.process.now
  {
    assert PassInv(w.passes[i], i, w.process);
  }

  /** Through any events but its own close, an observed generation keeps its due time. */
  lemma {:induction false} DueStays(w: World, events: seq<Event>, i: nat, g: nat, due: int)
    requires Inv(w) && i < |w.passes| && w.passes[i].generation == g
    requires w.passes[i].observing ==> Due(w, i) == due
    requires w.passes[i].closed || CloseEvent(i) !in events
    ensures |Steps(w, events).passes| == |w.passes|
    ensures var v := Steps(w, events); v.passes[i].generation == g && v.passes[i].observing ==> Due(v, i) == due
    decreases |events|
  {
    if events != [] {
      var v := DueNext(w, events[0], i, due);
      assert forall e | e in events[1..] :: e in events;
      if v.passes[i].generation == g {
        DueStays(v, events[1..], i, g, due);
      } else {
        GenerationsGrow(v, events[1..], i);
      }
    }
  }

  lemma DueNext(w: World, e: Event, i: nat, due: int) returns (v: World)
    requires Inv(w) && i < |w.passes| && (w.passes[i].observing ==> Due(w, i) == due)
    requires w.passes[i].closed || e != CloseEvent(i)
    ensures v == Step(w, e) && Inv(v) && |v.passes| == |w.passes|
    ensures w.passes[i].generation <= v.passes[i].generation && (v.passes[i].closed || e != CloseEvent(i))
    ensures w.passes[i].closed ==> v.passes[i].closed
    ensures v.passes[i].generation == w.passes[i].generation && v.passes[i].observing ==> Due(v, i) == due
  {
    v := Step(w, e);
    StepKeepsInv(w, e);
    GenerationGrows(w, e, i);
    if v.passes[i].observing { DueAfterStep(w, e, i); }
  }

  lemma GenerationGrows(w: World, e: Event, i: nat)
    requires i < |w.passes|
    ensures |Step(w, e).passes| == |w.passes| && w.passes[i].generation <= Step(w, e).passes[i].generation
    ensures w.passes[i].closed ==> Step(w, e).passes[i].closed
    ensures !w.passes[i].observing && Step(w, e).passes[i].observing ==>
              Step(w, e).passes[i].generation > w.passes[i].generation
    ensures !w.passes[i].closed && Step(w, e).passes[i].closed ==> e == CloseEvent(i)
  {
  }

  lemma {:induction false} GenerationsGrow(w: World, events: seq<Event>, i: nat)
    requires i < |w.passes|
    ensures |Steps(w, events).passes| == |w.passes|
    ensures w.passes[i].generation <= Steps(w, events).passes[i].generation
    decreases |events|
  {
    if events != [] {
      GenerationGrows(w, events[0], i);
      GenerationsGrow(Step(w, events[0]), events[1..], i);
    }
  }

  /** A run admitted at time t that its pass does not close is observed until it settles or until its full duration has
      passed: no timer ends its observation before t plus the duration. */
  lemma RunKeepsItsTime(w: World, events: seq<Event>, i: nat, t: nat)
    requires Inv(w) && i < |w.passes| && !w.passes[i].active && Step(w, RunEvent(i)).passes[i].active
    requires CloseEvent(i) !in events
    ensures var g, u := w.passes[i].generation + 1, Steps(Step(w, RunEvent(i)), events);
            && |u.passes| == |Step(u, FireEvent(t)).passes| == |w.passes|
            && (u.passes[i].generation == g && u.passes[i].observing && !Step(u, FireEvent(t)).passes[i].observing ==>
                  w.process.now + w.passes[i].maxDurationMs <= u.process.now)
  {
    var v := Step(w, RunEvent(i));
    assert PassInv(w.passes[i], i, w.process);
    StepKeepsInv(w, RunEvent(i));
    DueAfterRun(w, i);
    DueStays(v, events, i, w.passes[i].generation + 1, w.process.now + w.passes[i].maxDurationMs);
    StepsKeepInv(v, events);
    var u := Steps(v, events);
    if u.passes[i].observing { FiredWhenDue(u, t, i); }
  }

  /** The due time of a run after its close. */
  lemma DueSinceClose(w: World, events: seq<Event>, i: nat)
    requires Inv(w) && i < |w.passes| && w.passes[i].observing && !w.passes[i].closed
    ensures var u := Steps(Step(w, CloseEvent(i)), events);
            && Inv(u) && |u.passes| == |w.passes|
            && (u.passes[i].observing ==>
                  Due(u, i) == w.process.now + CloseDelay(w.passes[i], w.process.now))
  {
    var v := Step(w, CloseEvent(i));
    StepKeepsInv(w, CloseEvent(i));
    DueAfterClose(w, i);
    ClosedByClose(w, i);
    ClosedNeverStarts(v, events, i);
    DueStays(v, events, i, w.passes[i].generation, w.process.now + CloseDelay(w.passes[i], w.process.now));
    StepsKeepInv(v, events);
  }

  lemma ClosedByClose(w: World, i: nat)
    requires i < |w.passes| && w.passes[i].closing.None?
    ensures var v := Step(w, CloseEvent(i));
            i < |v.passes| == |w.passes| && v.passes[i].closed && v.passes[i].generation == w.passes[i].generation
  {
  }

  /** A run closed at time t keeps its grace: no timer ends its observation before max(t, min(t + 250, deadline)). */
  lemma CloseLeavesGrace(w: World, events: seq<Event>, i: nat, t: nat)
    requires Inv(w) && i < |w.passes| && w.passes[i].observing && !w.passes[i].closed
    ensures var u := Steps(Step(w, CloseEvent(i)), events);
            var now := w.process.now;
            && |u.passes| == |Step(u, FireEvent(t)).passes| == |w.passes|
            && (u.passes[i].observing && !Step(u, FireEvent(t)).passes[i].observing ==>
                  now <= u.process.now && (now + 250 <= u.process.now || w.passes[i].deadline <= u.process.now))
  {
    DueSinceClose(w, events, i);
    var u := Steps(Step(w, CloseEvent(i)), events);
    GenerationGrows(u, FireEvent(t), i);
    if u.passes[i].observing { FiredWhenDue(u, t, i); }
  }

  // ---------- what a close waits for ----------

  lemma ClosingStays(w: World, e: Event, i: nat)
    requires i < |w.passes| && w.passes[i].closing.Some?
    ensures |Step(w, e).passes| == |w.passes| && Step(w, e).passes[i].closing == w.passes[i].closing
  {
  }

  lemma {:induction false} ClosingKept(w: World, events: seq<Event>, i: nat)
    requires i < |w.passes| && w.passes[i].closing.Some?
    ensures |Steps(w, events).passes| == |w.passes| && Steps(w, events).passes[i].closing == w.passes[i].closing
    decreases |events|
  {
    if events != [] {
      ClosingStays(w, events[0], i);
      ClosingKept(Step(w, events[0]), events[1..], i);
    }
  }

  /** At `now` both 250 ms since the close at time t and, if it comes earlier, the deadline are past. */
  predicate GraceIsOver(t: int, deadline: int, now: int) { t < now && (t + 250 < now || deadline < now) }

  /** A close waits for the run under way, if there is one, and for nothing else, however often it is called; with
      prompt timers that wait has been resolved, exactly once, when max(t, min(t + 250, deadline)) is past. */
  lemma CloseWaitsForTheRun(w: World, events: seq<Event>, i: nat)
    requires Inv(w) && i < |w.passes| && !w.passes[i].closed && Prompt(Step(w, CloseEvent(i)), events)
    ensures var v := Steps(Step(w, CloseEvent(i)), events);
            var p, now := w.passes[i], w.process.now;
            && |v.passes| == |w.passes|
            && v.passes[i].closing == Some(if p.active then Some(p.generation) else None)
            && (p.active && (p.observing ==> GraceIsOver(now, p.deadline, v.process.now)) ==>
                  Resolutions(v.process.resolutions, i, p.generation) == 1)
  {
    var u, p := Step(w, CloseEvent(i)), w.passes[i];
    assert PassInv(p, i, w.process);
    StepKeepsInv(w, CloseEvent(i));
    ClosingKept(u, events, i);
    ClosedNeverStarts(u, events, i);
    StepsKeepInv(u, events);
    var v := Steps(u, events);
    if p.observing {
      CloseEndsObservation(w, events, i);
    } else if p.active {
      ClosedStaysUnobserved(u, events, i);
    }
    assert Resolutions(v.process.resolutions, i, p.generation) == ResolutionsDue(v.passes[i], p.generation);
  }

  lemma {:induction false} ClosedStaysUnobserved(w: World, events: seq<Event>, i: nat)
    requires i < |w.passes| && w.passes[i].closed && !w.passes[i].observing
    ensures |Steps(w, events).passes| == |w.passes| && !Steps(w, events).passes[i].observing
    decreases |events|
  {
    if events != [] {
      GenerationGrows(w, events[0], i);
      ClosedStaysClosed(w, events[0], i);
      ClosedStaysUnobserved(Step(w, events[0]), events[1..], i);
    }
  }
}
