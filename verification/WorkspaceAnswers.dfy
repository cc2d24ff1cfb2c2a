/** What callers of the workspace client get: which requests start, that they are answered, and that a close ends. */
module WorkspaceAnswers {
  import opened Wrappers
  import opened WorkspaceClient

  function After(w: World, i: nat, a: Action): World { Step(w, OnClient(i, a)) }

  // ---------- clients ----------

  /** In every reachable state a new client is created exactly when every earlier one has closed, its signal has not
      fired and the channel is connected; it starts with nothing in flight. */
  lemma ClientCreatedExactly(now: int, events: seq<Event>, aborted: bool)
    ensures var w := Steps(Initial(now), events);
            var free := forall i | 0 <= i < |w.clients| :: w.clients[i].closing.Closed?;
            Step(w, CreateClient(aborted)).clients
            == if free && !aborted && w.connected
               then w.clients + [Client(false, false, Open, map[], {}, map[], map[], map[])] else w.clients
  {
    StepsKeepInv(Initial(now), events);
    var w := Steps(Initial(now), events);
    if w.owner.Some? { assert !w.clients[w.owner.value].closing.Closed?; }
    if i: nat :| i < |w.clients| && !w.clients[i].closing.Closed? { assert w.owner == Some(i); }
  }

  // ---------- starting ----------

  /** Why a request is refused, in the order in which the client looks. */
  function RefusedFor(c: Client, connected: bool, r: Request): Option<Outcome> {
    if c.withdrawn || c.signalAborted || !connected then Some(Unavailable)
    else if r.signal == Some(true) then Some(RequestAborted)
    else if |c.physical| >= 4 || |c.pending| >= 4 then Some(CapacityExceeded) else None
  }

  /** The exchange of a request that has begun at time `now`; a send that fails at once settles it. */
  ghost predicate BegunAt(e: Exchange, r: Request, now: int) {
    && e.schema == r.schema && e.due == now + r.deadlineMs && e.signal == r.signal && e.answer == None
    && match r.send
       case Queued => e.outcomes == [] && !e.sendDone
       case Called(false) => e.outcomes == [] && e.sendDone
       case _ => e.outcomes == [SendUnavailable] && e.sendDone
  }

  /** What a request with a fresh identifier does to its client. */
  ghost predicate StartsOn(c: Client, now: int, connected: bool, r: Request, d: Client) {
    if RefusedFor(c, connected, r).Some? then d == c
    else && d.exchanges.Keys == c.exchanges.Keys + {r.id} && d.physical == c.physical + {r.id}
         && BegunAt(d.exchanges[r.id], r, now)
         && forall id | id in c.exchanges :: d.exchanges[id] == c.exchanges[id]
  }

  lemma ClientStarts(c: Client, now: int, connected: bool, r: Request)
    requires r.id !in c.exchanges
    ensures Refusal(c, connected, r) == RefusedFor(c, connected, r)
    ensures StartsOn(c, now, connected, r, Start(c, now, connected, r))
  {
    StartAt(c, now, connected, r);
    if Refusal(c, connected, r).None? {
      SentPhysically(c, now, connected, r);
      StartedHasBegun(now, r);
    }
  }

  lemma StartedHasBegun(now: int, r: Request)
    ensures BegunAt(Started(now, r), r, now)
  {
  }

  /** A request with a fresh identifier starts exactly when the client is current, its own signal has not fired and
      fewer than four responses are pending and four sends physical; a refused one changes nothing. */
  lemma StartsExactly(w: World, i: nat, r: Request)
    requires i < |w.clients| && r.id !in w.clients[i].exchanges
    ensures var c, v := w.clients[i], After(w, i, StartRequest(r));
            && Refusal(c, w.connected, r) == RefusedFor(c, w.connected, r)
            && |v.clients| == |w.clients| && StartsOn(c, w.now, w.connected, r, v.clients[i])
  {
    ClientStarts(w.clients[i], w.now, w.connected, r);
  }

  lemma SentPhysically(c: Client, now: int, connected: bool, r: Request)
    requires Refusal(c, connected, r).None?
    ensures Start(c, now, connected, r).physical == c.physical + {r.id}
  {
  }

  // ---------- resuming ----------

  /** What a caller gets whose response settled with o, by what it finds when it resumes. */
  function Result(c: Client, connected: bool, e: Exchange, o: Outcome): Outcome {
    match o
    case Delivered(v) =>
      if c.withdrawn || c.signalAborted || !connected then Unavailable
      else if e.signal == Some(true) then RequestAborted else Delivered(v)
    case _ => o
  }

  /** In every reachable state, a caller that resumes gets the outcome of its response; a result, however, only if the
      client is not withdrawn, its signal has not fired, the channel is connected and the request's own signal has not
      fired. It is answered once, and not before its response has settled. */
  lemma ResumeAnswers(now: int, events: seq<Event>, i: nat, id: Id)
    requires i < |Steps(Initial(now), events).clients| && id in Steps(Initial(now), events).clients[i].exchanges
    ensures var w := Steps(Initial(now), events);
            var v := After(w, i, ResumeRequest(id));
            && |v.clients| == |w.clients| && id in v.clients[i].exchanges
            && var c, e := w.clients[i], w.clients[i].exchanges[id];
               v.clients[i].exchanges[id].answer
               == if e.answer.Some? then e.answer
                  else if e.outcomes == [] then None
                  else Some(Result(c, w.connected, e, e.outcomes[0]))
  {
    StepsKeepInv(Initial(now), events);
  }

  // ---------- a request is served ----------

  /** Whatever came before, a request that may start and whose message comes is given the result the message carries,
      if nothing intervenes. */
  lemma RequestIsServed(w: World, i: nat, r: Request, v: int)
    requires WorldInv(w) && i < |w.clients| && r.id !in w.clients[i].exchanges
    requires RefusedFor(w.clients[i], w.connected, r) == None && (r.send == Queued || r.send == Called(false))
    ensures var message := Message(Some(r.schema), Some(r.id), Some(v));
            var u := After(After(After(w, i, StartRequest(r)), i, Receive(message)), i, ResumeRequest(r.id));
            && |u.clients| == |w.clients| && r.id in u.clients[i].exchanges
            && u.clients[i].exchanges[r.id].answer == Some(Delivered(v))
  {
    var a := After(w, i, StartRequest(r));
    var b := After(a, i, Receive(Message(Some(r.schema), Some(r.id), Some(v))));
    StartsExactly(w, i, r);
    StepKeepsInv(w, OnClient(i, StartRequest(r)));
    StartKeepsFlags(w.clients[i], w.now, w.connected, r);
    ReceivedIsDelivered(a, i, r.id, v);
  }

  lemma StartKeepsFlags(c: Client, now: int, connected: bool, r: Request)
    ensures var d := Start(c, now, connected, r);
            d.withdrawn == c.withdrawn && d.signalAborted == c.signalAborted
  {
  }

  lemma ReceivedIsDelivered(a: World, i: nat, id: Id, v: int)
    requires WorldInv(a) && i < |a.clients| && id in a.clients[i].exchanges
    requires var c, e := a.clients[i], a.clients[i].exchanges[id];
             && e.outcomes == [] && e.answer == None && e.signal != Some(true)
             && !c.withdrawn && !c.signalAborted && a.connected
    ensures var e := a.clients[i].exchanges[id];
            var b := After(a, i, Receive(Message(Some(e.schema), Some(id), Some(v))));
            var u := After(b, i, ResumeRequest(id));
            && |u.clients| == |a.clients| && id in u.clients[i].exchanges
            && u.clients[i].exchanges[id].answer == Some(Delivered(v))
  {
    var c, e := a.clients[i], a.clients[i].exchanges[id];
    assert ExchangeInv(c, id);
  }

  /** The first client of a process, on a connected channel, serves its first request. */
  lemma FirstRequestIsServed(now: int, r: Request, v: int)
    requires r.signal != Some(true) && (r.send == Queued || r.send == Called(false))
    ensures var w := Step(Initial(now), CreateClient(false));
            var message := Message(Some(r.schema), Some(r.id), Some(v));
            var u := After(After(After(w, 0, StartRequest(r)), 0, Receive(message)), 0, ResumeRequest(r.id));
            && |u.clients| == 1 && r.id in u.clients[0].exchanges
            && u.clients[0].exchanges[r.id].answer == Some(Delivered(v))
  {
    var w := Step(Initial(now), CreateClient(false));
    StepKeepsInv(Initial(now), CreateClient(false));
    RequestIsServed(w, 0, r, v);
  }

  /** A request that has been delivered its result gets none when the channel is lost before its caller resumes. */
  lemma LostChannelWithholds(w: World, i: nat, id: Id, v: int)
    requires i < |w.clients| && id in w.clients[i].exchanges
    requires w.clients[i].exchanges[id].outcomes == [Delivered(v)] && w.clients[i].exchanges[id].answer == None
    ensures var u := After(Step(w, ChannelLost), i, ResumeRequest(id));
            && |u.clients| == |w.clients| && id in u.clients[i].exchanges
            && u.clients[i].exchanges[id].answer == Some(Unavailable)
  {
  }

  /** A request nobody answers: its deadline settles it as soon as the clock has come to it, and that is what its caller
      gets. */
  lemma RequestTimesOut(w: World, i: nat, id: Id)
    requires WorldInv(w) && i < |w.clients| && id in w.clients[i].exchanges && w.now <= w.clients[i].exchanges[id].due
    requires w.clients[i].exchanges[id].outcomes == [] && w.clients[i].exchanges[id].answer == None
    ensures var due := w.clients[i].exchanges[id].due;
            var u := After(After(Step(w, Tick(due)), i, FireDeadline(id)), i, ResumeRequest(id));
            && u.now == due && |u.clients| == |w.clients| && id in u.clients[i].exchanges
            && u.clients[i].exchanges[id].answer == Some(DeadlineExceeded)
  {
    assert ExchangeInv(w.clients[i], id);
  }

  // ---------- a request's own signal ----------

  /** The own signal of request id has fired, and its caller has not been given a result. */
  predicate Denied(w: World, i: nat, id: Id) {
    && i < |w.clients| && id in w.clients[i].exchanges && w.clients[i].exchanges[id].signal == Some(true)
    && var answer := w.clients[i].exchanges[id].answer; answer.Some? ==> !answer.value.Delivered?
  }

  /** What an action leaves of a request whose own signal has fired. */
  ghost predicate StillFired(c: Client, d: Client, id: Id)
    requires id in c.exchanges
  {
    && id in d.exchanges && d.exchanges[id].signal == Some(true)
    && (c.exchanges[id].answer.None? && d.exchanges[id].answer.Some? ==> !d.exchanges[id].answer.value.Delivered?)
  }

  lemma ClientActionsKeepSignal(c: Client, now: int, connected: bool, a: Action, id: Id)
    requires id in c.exchanges && c.exchanges[id].signal == Some(true) && OfClient(a)
    ensures StillFired(c, Act(c, now, connected, a), id)
  {
  }

  lemma RequestActionsKeepSignal(c: Client, now: int, connected: bool, a: Action, id: Id)
    requires id in c.exchanges && c.exchanges[id].signal == Some(true) && !OfClient(a) && !a.StartRequest?
    ensures StillFired(c, Act(c, now, connected, a), id)
  {
  }

  lemma SignalStays(c: Client, now: int, connected: bool, a: Action, id: Id)
    requires id in c.exchanges && c.exchanges[id].signal == Some(true)
    ensures StillFired(c, Act(c, now, connected, a), id)
  {
    if OfClient(a) {
      ClientActionsKeepSignal(c, now, connected, a, id);
    } else if a.StartRequest? {
      if a.request.id !in c.exchanges { StartAt(c, now, connected, a.request); }
    } else {
      RequestActionsKeepSignal(c, now, connected, a, id);
    }
  }

  lemma StepDenies(w: World, e: Event, i: nat, id: Id)
    requires WorldInv(w) && Denied(w, i, id)
    ensures Denied(Step(w, e), i, id)
  {
    if e.OnClient? && e.client == i {
      SignalStays(w.clients[i], w.now, w.connected, e.action, id);
      SettledByItsOwnCause(w.clients[i], w.now, w.connected, e.action, id);
    }
  }

  lemma {:induction false} StaysDenied(w: World, events: seq<Event>, i: nat, id: Id)
    requires WorldInv(w) && Denied(w, i, id)
    ensures Denied(Steps(w, events), i, id)
    decreases |events|
  {
    if events != [] {
      StepKeepsInv(w, events[0]);
      StepDenies(w, events[0], i, id);
      StaysDenied(Step(w, events[0]), events[1..], i, id);
    }
  }

  /** Once a request's own signal has fired its caller gets no result any more, even if its message had arrived. */
  lemma NoResultAfterAbort(w: World, events: seq<Event>, i: nat, id: Id)
    requires WorldInv(w) && i < |w.clients| && id in w.clients[i].exchanges
    requires w.clients[i].exchanges[id].signal == Some(false) && w.clients[i].exchanges[id].answer == None
    ensures Denied(Steps(After(w, i, AbortRequest(id)), events), i, id)
  {
    StepKeepsInv(w, OnClient(i, AbortRequest(id)));
    StaysDenied(After(w, i, AbortRequest(id)), events, i, id);
  }

  // ---------- a close ends ----------

  function ReapAll(i: nat, ids: seq<Id>): seq<Event> {
    if ids == [] then [] else [OnClient(i, ReapSend(ids[0]))] + ReapAll(i, ids[1..])
  }

  /** `v` is `w` with these sends taken out of client i's physical ones. */
  ghost predicate Reaped(w: World, v: World, i: nat, ids: set<Id>) {
    i < |w.clients|
    && v == w.(clients := w.clients[i := w.clients[i].(physical := w.clients[i].physical - ids)])
  }

  predicate AllSent(w: World, i: nat, ids: seq<Id>) {
    i < |w.clients| && forall id | id in ids :: id in w.clients[i].exchanges && w.clients[i].exchanges[id].sendDone
  }

  lemma ReapedOnce(w: World, i: nat, id: Id, ids: seq<Id>) returns (v: World)
    requires AllSent(w, i, [id] + ids)
    ensures Reaped(w, v, i, {id}) && AllSent(v, i, ids)
    ensures Steps(w, ReapAll(i, [id] + ids)) == Steps(v, ReapAll(i, ids))
  {
    assert id in [id] + ids;
    v := After(w, i, ReapSend(id));
    assert w.clients[i := w.clients[i]] == w.clients;
    assert ([id] + ids)[1..] == ids;
    var events := ReapAll(i, [id] + ids);
    assert events[0] == OnClient(i, ReapSend(id)) && events[1..] == ReapAll(i, ids);
  }

  lemma {:induction false} AllReaped(w: World, i: nat, ids: seq<Id>)
    requires AllSent(w, i, ids)
    ensures Reaped(w, Steps(w, ReapAll(i, ids)), i, set id | id in ids)
    decreases |ids|
  {
    if ids == [] {
      assert (set id | id in ids) == {};
      NothingReaped(w, i);
    } else {
      assert ids == [ids[0]] + ids[1..];
      var v := ReapedOnce(w, i, ids[0], ids[1..]);
      AllReaped(v, i, ids[1..]);
      ReapedJoins(w, v, Steps(v, ReapAll(i, ids[1..])), i, ids);
    }
  }

  lemma NothingReaped(w: World, i: nat)
    requires i < |w.clients|
    ensures Reaped(w, w, i, {})
  {
    assert w.clients[i].physical - {} == w.clients[i].physical;
    assert w.clients[i := w.clients[i]] == w.clients;
  }

  lemma ReapedJoins(w: World, v: World, u: World, i: nat, ids: seq<Id>)
    requires ids != [] && Reaped(w, v, i, {ids[0]}) && Reaped(v, u, i, set id | id in ids[1..])
    ensures Reaped(w, u, i, set id | id in ids)
  {
    assert ids == [ids[0]] + ids[1..];
    assert w.clients[i].physical - {ids[0]} - (set id | id in ids[1..])
        == w.clients[i].physical - (set id | id in ids);
  }

  /** A close ends: it withdraws the client, and once every send that was physical then has ended and been taken out,
      in any order, the client is closed and the process free for the next one. */
  lemma CloseEnds(w: World, i: nat, ids: seq<Id>)
    requires WorldInv(w) && i < |w.clients| && w.clients[i].closing.Open?
    requires w.clients[i].physical == set id | id in ids
    requires forall id | id in w.clients[i].physical :: w.clients[i].exchanges[id].sendDone
    ensures var u := After(w, i, CloseNow);
            var v := After(Steps(u, ReapAll(i, ids)), i, CompleteClose);
            && |u.clients| == |v.clients| == |w.clients| && u.clients[i].withdrawn
            && v.clients[i].closing == Closed && v.owner == None
  {
    var u := After(w, i, CloseNow);
    StepKeepsInv(w, OnClient(i, CloseNow));
    CloseKeepsSends(w.clients[i]);
    AllReaped(u, i, ids);
    ClosesWhenReaped(u, Steps(u, ReapAll(i, ids)), i, set id | id in ids);
  }

  lemma CloseKeepsSends(c: Client)
    requires Inv(c) && c.closing.Open?
    ensures var d := Close(c);
            && d.physical == c.physical && d.exchanges.Keys == c.exchanges.Keys && d.closing.Waiting? && d.withdrawn
            && forall id | id in c.exchanges :: d.exchanges[id].sendDone == c.exchanges[id].sendDone
  {
  }

  lemma ClosesWhenReaped(w: World, u: World, i: nat, ids: set<Id>)
    requires WorldInv(w) && Reaped(w, u, i, ids) && w.clients[i].closing.Waiting?
    requires w.clients[i].physical - ids == {}
    ensures var v := After(u, i, CompleteClose);
            |v.clients| == |w.clients| && v.clients[i].closing == Closed && v.owner == None
  {
    assert w.owner == Some(i);
  }
}
