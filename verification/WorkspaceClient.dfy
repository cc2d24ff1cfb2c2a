/** The in-flight requests of the project workspace client: correlation, capacity, deadlines, withdrawal, close.

    A request is named by its identifier. Its response promise settles through `Settle`, its physical send
    through `FinishSend`; `outcomes` records every time the response promise was settled. */
module WorkspaceClient {
  import opened Wrappers

  const MAX_IN_FLIGHT := 4

  type Id = int

  datatype Schema = AllocationResponse | PrepareResponse

  /** A message as the client reads it: `None` where the schema is unknown or the identifier is not a string;
      `parsed` is what the parser of its own schema makes of it, `None` if that parser throws. */
  datatype Message = Message(schema: Option<Schema>, requestId: Option<Id>, parsed: Option<int>)

  datatype Outcome =
    | Delivered(value: int)
    | ResponseInvalid | DeadlineExceeded | RequestAborted | SendUnavailable | Unavailable | CapacityExceeded

  /** `signal` is the request's own abort signal, if it has one, and whether that has fired; `answer` is what
      the caller finally gets, once the wait for the response has resumed. */
  datatype Exchange = Exchange(
    schema: Schema,
    due: int,
    signal: Option<bool>,
    done: bool,
    outcomes: seq<Outcome>,
    sendDone: bool,
    answer: Option<Outcome>)

  datatype Closing = Open | Waiting(sends: set<Id>) | Closed

  datatype Client = Client(
    withdrawn: bool,
    signalAborted: bool,
    closing: Closing,
    pending: map<Id, Schema>,
    physical: set<Id>,
    timers: map<Id, int>,
    sendTimers: map<Id, int>,
    exchanges: map<Id, Exchange>)

  /** How the send call itself ends: its callback comes later, came during the call, or the call threw. */
  datatype Send = Queued | Called(failed: bool) | Threw

  datatype Request = Request(id: Id, schema: Schema, deadlineMs: nat, signal: Option<bool>, send: Send)

  predicate Current(c: Client, connected: bool) { !c.withdrawn && !c.signalAborted && connected }

  function Settled(e: Exchange, outcome: Outcome): Exchange {
    e.(done := true, outcomes := e.outcomes + [outcome])
  }

  function Settle(c: Client, id: Id, outcome: Outcome): Client
    requires id in c.exchanges
  {
    if c.exchanges[id].done then c
    else c.(exchanges := c.exchanges[id := Settled(c.exchanges[id], outcome)], timers := c.timers - {id},
            pending := c.pending - {id})
  }

  function FinishSend(c: Client, id: Id, failed: bool): Client
    requires id in c.exchanges
  {
    if c.exchanges[id].sendDone then c else
    var d := c.(exchanges := c.exchanges[id := c.exchanges[id].(sendDone := true)], sendTimers := c.sendTimers - {id});
    if failed && id in d.pending then Settle(d, id, SendUnavailable) else d
  }

  /** Why a request is not even started. */
  function Refusal(c: Client, connected: bool, r: Request): Option<Outcome> {
    if !Current(c, connected) then Some(Unavailable)
    else if r.signal == Some(true) then Some(RequestAborted)
    else if |c.physical| >= MAX_IN_FLIGHT || |c.pending| >= MAX_IN_FLIGHT then Some(CapacityExceeded)
    else None
  }

  function Begun(now: int, r: Request): Exchange {
    Exchange(r.schema, now + r.deadlineMs, r.signal, false, [], false, None)
  }

  function Registered(c: Client, now: int, r: Request): Client {
    c.(pending := c.pending[r.id := r.schema], timers := c.timers[r.id := now + r.deadlineMs],
       sendTimers := c.sendTimers[r.id := now + r.deadlineMs], exchanges := c.exchanges[r.id := Begun(now, r)])
  }

  function Sent(c: Client, id: Id, send: Send): Client
    requires id in c.exchanges
  {
    match send
    case Queued => c
    case Called(failed) => FinishSend(c, id, failed)
    case Threw => FinishSend(c, id, true)
  }

  function Start(c: Client, now: int, connected: bool, r: Request): Client {
    if Refusal(c, connected, r).Some? then c
    else var d := Sent(Registered(c, now, r), r.id, r.send); d.(physical := d.physical + {r.id})
  }

  /** What a message that reaches the pending request of its own identifier settles it with. */
  function Verdict(m: Message, expected: Schema): Outcome {
    if m.schema != Some(expected) || m.parsed.None? then ResponseInvalid else Delivered(m.parsed.value)
  }

  predicate Reaches(c: Client, m: Message) {
    !c.withdrawn && m.schema.Some? && m.requestId.Some? && m.requestId.value in c.pending
  }

  function Accept(c: Client, m: Message): Client
    requires c.pending.Keys <= c.exchanges.Keys
  {
    if Reaches(c, m) then Settle(c, m.requestId.value, Verdict(m, c.pending[m.requestId.value])) else c
  }

  function Abort(c: Client, id: Id): Client
    requires id in c.exchanges
  {
    if c.exchanges[id].signal != Some(false) then c
    else Settle(c.(exchanges := c.exchanges[id := c.exchanges[id].(signal := Some(true))]), id, RequestAborted)
  }

  function SettledAll(exchanges: map<Id, Exchange>, ids: set<Id>, outcome: Outcome): map<Id, Exchange> {
    map id | id in exchanges ::
      if id in ids && !exchanges[id].done then Settled(exchanges[id], outcome) else exchanges[id]
  }

  function Withdraw(c: Client): Client {
    c.(withdrawn := true, exchanges := SettledAll(c.exchanges, c.pending.Keys, Unavailable),
       timers := c.timers - c.pending.Keys, pending := map[])
  }

  /** A withdrawal that has settled the given part of the pending responses. */
  function WithdrawnSoFar(c: Client, settled: set<Id>): Client {
    c.(withdrawn := true, exchanges := SettledAll(c.exchanges, settled, Unavailable),
       timers := c.timers - settled, pending := c.pending - settled)
  }

  lemma WithdrawnSoFarEnds(c: Client)
    ensures WithdrawnSoFar(c, {}) == c.(withdrawn := true)
    ensures WithdrawnSoFar(c, c.pending.Keys) == Withdraw(c)
  {
    assert c.pending - c.pending.Keys == map[];
    assert SettledAll(c.exchanges, {}, Unavailable) == c.exchanges;
  }

  lemma WithdrawnSoFarGrows(c: Client, settled: set<Id>, id: Id)
    requires id in c.pending && id in c.exchanges && id !in settled && !c.exchanges[id].done
    ensures Settle(WithdrawnSoFar(c, settled), id, Unavailable) == WithdrawnSoFar(c, settled + {id})
    ensures |c.pending - (settled + {id})| < |c.pending - settled|
  {
    MinusGrows(c.timers, settled, id);
    MinusGrows(c.pending, settled, id);
    SettledAllGrows(c.exchanges, settled, id, Unavailable);
    assert id in c.pending - settled;
  }

  lemma SomeKey<K, V>(m: map<K, V>) returns (key: K)
    requires |m| > 0
    ensures key in m
  {
    assert |m.Keys| > 0;
    key :| key in m.Keys;
  }

  lemma NothingLeft<V>(m: map<Id, V>, removed: set<Id>)
    requires removed <= m.Keys && |m - removed| == 0
    ensures removed == m.Keys
  {
    assert forall k :: k in m && k !in removed ==> k in m - removed;
  }

  lemma MinusGrows<V>(m: map<Id, V>, removed: set<Id>, id: Id)
    ensures m - removed - {id} == m - (removed + {id})
    ensures id in m - removed ==> |m - (removed + {id})| < |m - removed|
  {
    var before, after := m - removed, m - (removed + {id});
    assert forall k :: k in after <==> k in before && k != id;
    assert before - {id} == after;
    assert after.Keys == before.Keys - {id};
  }

  lemma SettledAllGrows(exchanges: map<Id, Exchange>, settled: set<Id>, id: Id, outcome: Outcome)
    requires id in exchanges && id !in settled && !exchanges[id].done
    ensures SettledAll(exchanges, settled, outcome)[id := Settled(exchanges[id], outcome)]
         == SettledAll(exchanges, settled + {id}, outcome)
  {
  }

  function Close(c: Client): Client {
    if c.closing.Open? then Withdraw(c).(closing := Waiting(c.physical)) else c
  }

  /** The client closes once every send it was waiting for has been taken out of the physical set. */
  function FinishClose(c: Client): Client {
    if c.closing.Waiting? && c.closing.sends !! c.physical then c.(closing := Closed) else c
  }

  function Reap(c: Client, id: Id): Client
    requires id in c.exchanges
  {
    if c.exchanges[id].sendDone then c.(physical := c.physical - {id}) else c
  }

  /** What the caller gets when its wait resumes: the client and the signal are looked at once more. */
  function Answer(c: Client, e: Exchange, connected: bool): Outcome
    requires |e.outcomes| > 0
  {
    if !e.outcomes[0].Delivered? then e.outcomes[0]
    else if !Current(c, connected) then Unavailable
    else if e.signal == Some(true) then RequestAborted
    else e.outcomes[0]
  }

  function Resume(c: Client, id: Id, connected: bool): Client
    requires id in c.exchanges
  {
    var e := c.exchanges[id];
    if e.answer.Some? || |e.outcomes| == 0 then c
    else c.(exchanges := c.exchanges[id := e.(answer := Some(Answer(c, e, connected)))])
  }

  // ---------- the client and its process ----------

  /** The module variable naming the one client of the process. */
  class Registry {
    var owner: WorkspaceClient?

    constructor () ensures owner == null { owner := null; }
  }

  class WorkspaceClient {
    var withdrawn: bool
    var signalAborted: bool
    var closing: Closing
    var pending: map<Id, Schema>
    var physical: set<Id>
    var timers: map<Id, int>
    var sendTimers: map<Id, int>
    var exchanges: map<Id, Exchange>

    constructor ()
      ensures State() == FRESH
    {
      withdrawn, signalAborted, closing, pending, physical := false, false, Open, map[], {};
      timers, sendTimers, exchanges := map[], map[], map[];
    }

    /** There is never a second client while one owns the process. */
    static method Create(registry: Registry, signalAborted: bool, connected: bool) returns (client: WorkspaceClient?)
      modifies registry
      ensures client != null <==> old(registry.owner) == null && !signalAborted && connected
      ensures client != null ==> fresh(client) && registry.owner == client && client.State() == FRESH
      ensures client == null ==> registry.owner == old(registry.owner)
    {
      if registry.owner != null || signalAborted || !connected { return null; }
      client := new WorkspaceClient();
      registry.owner := client;
    }

    function State(): Client reads this {
      Client(withdrawn, signalAborted, closing, pending, physical, timers, sendTimers, exchanges)
    }

    /** Whoever calls first settles the response; every later call changes nothing. */
    method SettleResponse(id: Id, outcome: Outcome)
      requires id in exchanges
      modifies this`exchanges, this`timers, this`pending
      ensures State() == Settle(old(State()), id, outcome)
    {
      if exchanges[id].done { return; }
      exchanges := exchanges[id := Settled(exchanges[id], outcome)];
      timers := timers - {id};
      pending := pending - {id};
    }

    method EndSend(id: Id, failed: bool)
      requires id in exchanges
      modifies this`exchanges, this`sendTimers, this`timers, this`pending
      ensures State() == FinishSend(old(State()), id, failed)
    {
      if exchanges[id].sendDone { return; }
      exchanges := exchanges[id := exchanges[id].(sendDone := true)];
      sendTimers := sendTimers - {id};
      if failed && id in pending { SettleResponse(id, SendUnavailable); }
    }

    /** The refusal, if any, is thrown to the caller. */
    method StartExchange(now: int, connected: bool, r: Request) returns (refusal: Option<Outcome>)
      modifies this
      ensures refusal == Refusal(old(State()), connected, r)
      ensures State() == Start(old(State()), now, connected, r)
    {
      if withdrawn || signalAborted || !connected { return Some(Unavailable); }
      if r.signal == Some(true) { return Some(RequestAborted); }
      if |physical| >= MAX_IN_FLIGHT || |pending| >= MAX_IN_FLIGHT { return Some(CapacityExceeded); }
      refusal := None;
      Register(now, r);
      match r.send {
        case Queued =>
        case Called(failed) => EndSend(r.id, failed);
        case Threw => EndSend(r.id, true);
      }
      physical := physical + {r.id};
    }

    method Register(now: int, r: Request)
      modifies this`pending, this`timers, this`sendTimers, this`exchanges
      ensures State() == Registered(old(State()), now, r)
    {
      pending := pending[r.id := r.schema];
      timers := timers[r.id := now + r.deadlineMs];
      exchanges := exchanges[r.id := Begun(now, r)];
      sendTimers := sendTimers[r.id := now + r.deadlineMs];
    }

    method AcceptMessage(m: Message)
      requires pending.Keys <= exchanges.Keys
      modifies this`exchanges, this`timers, this`pending
      ensures State() == Accept(old(State()), m)
    {
      if withdrawn || m.schema.None? || m.requestId.None? { return; }
      var id := m.requestId.value;
      if id !in pending { return; }
      if m.schema.value != pending[id] { SettleResponse(id, ResponseInvalid); return; }
      SettleResponse(id, if m.parsed.Some? then Delivered(m.parsed.value) else ResponseInvalid);
    }

    method AbortExchange(id: Id)
      requires id in exchanges
      modifies this`exchanges, this`timers, this`pending
      ensures State() == Abort(old(State()), id)
    {
      if exchanges[id].signal != Some(false) { return; }
      exchanges := exchanges[id := exchanges[id].(signal := Some(true))];
      SettleResponse(id, RequestAborted);
    }

    /** Settles every pending response, one after the other. */
    method WithdrawClient()
      requires pending.Keys <= exchanges.Keys
      requires forall id | id in pending :: !exchanges[id].done
      modifies this`withdrawn, this`exchanges, this`timers, this`pending
      ensures State() == Withdraw(old(State()))
    {
      ghost var before, settled := State(), {};
      withdrawn := true;
      WithdrawnSoFarEnds(before);
      while |pending| > 0
        invariant settled <= before.pending.Keys && State() == WithdrawnSoFar(before, settled)
        decreases |before.pending - settled|
      {
        ghost var next := SomeKey(pending);
        var id :| id in pending;
        SettleNext(before, settled, id);
        settled := settled + {id};
      }
      NothingLeft(before.pending, settled);
    }

    method SettleNext(ghost before: Client, ghost settled: set<Id>, id: Id)
      requires State() == WithdrawnSoFar(before, settled)
      requires id in before.pending && id in before.exchanges && id !in settled && !before.exchanges[id].done
      modifies this`exchanges, this`timers, this`pending
      ensures State() == WithdrawnSoFar(before, settled + {id})
      ensures |before.pending - (settled + {id})| < |before.pending - settled|
    {
      WithdrawnSoFarGrows(before, settled, id);
      SettleResponse(id, Unavailable);
    }

    method CloseClient()
      requires pending.Keys <= exchanges.Keys
      requires forall id | id in pending :: !exchanges[id].done
      modifies this
      ensures State() == Close(old(State()))
    {
      if !closing.Open? { return; }
      WithdrawClient();
      closing := Waiting(physical);
    }

    /** Runs after every send the close waits for; the process may then have a new client. */
    method CompleteClose(registry: Registry)
      modifies this, registry
      ensures State() == FinishClose(old(State()))
      ensures registry.owner
           == if State() != old(State()) && old(registry.owner) == this then null else old(registry.owner)
    {
      if !closing.Waiting? || !(closing.sends !! physical) { return; }
      closing := Closed;
      if registry.owner == this { registry.owner := null; }
    }

    method ReapSend(id: Id)
      requires id in exchanges
      modifies this
      ensures State() == Reap(old(State()), id)
    {
      if exchanges[id].sendDone { physical := physical - {id}; }
    }

    method ResumeExchange(id: Id, connected: bool)
      requires id in exchanges
      modifies this
      ensures State() == Resume(old(State()), id, connected)
    {
      var e := exchanges[id];
      if e.answer.Some? || |e.outcomes| == 0 { return; }
      var answer := e.outcomes[0];
      if answer.Delivered? {
        if withdrawn || signalAborted || !connected { answer := Unavailable; }
        else if e.signal == Some(true) { answer := RequestAborted; }
      }
      exchanges := exchanges[id := e.(answer := Some(answer))];
    }
  }

  const FRESH := Client(false, false, Open, map[], {}, map[], map[], map[])

  // ---------- every interleaving ----------

  datatype Action =
    | StartRequest(request: Request)
    | Receive(message: Message)
    | FireDeadline(id: Id)
    | FireSendDeadline(id: Id)
    | SendCallback(id: Id, failed: bool)
    | AbortRequest(id: Id)
    | AbortClient
    | WithdrawNow  // a call, or the loss of the channel
    | CloseNow
    | ReapSend(id: Id)
    | CompleteClose
    | ResumeRequest(id: Id)

  function FireTimer(c: Client, now: int, id: Id): Client {
    if id in c.timers && id in c.exchanges && c.timers[id] <= now
    then Settle(c.(timers := c.timers - {id}), id, DeadlineExceeded) else c
  }

  function FireSendTimer(c: Client, now: int, id: Id): Client {
    if id in c.sendTimers && id in c.exchanges && c.sendTimers[id] <= now then FinishSend(c, id, true) else c
  }

  /** One action at time `now`; an action that cannot happen in this state leaves it as it is. */
  function Act(c: Client, now: int, connected: bool, a: Action): Client {
    match a
    case StartRequest(r) => if r.id in c.exchanges then c else Start(c, now, connected, r)
    case Receive(m) => if c.pending.Keys <= c.exchanges.Keys then Accept(c, m) else c
    case FireDeadline(id) => FireTimer(c, now, id)
    case FireSendDeadline(id) => FireSendTimer(c, now, id)
    case SendCallback(id, failed) => if id in c.exchanges then FinishSend(c, id, failed) else c
    case AbortRequest(id) => if id in c.exchanges then Abort(c, id) else c
    case AbortClient => Withdraw(c).(signalAborted := true)
    case WithdrawNow => Withdraw(c)
    case CloseNow => Close(c)
    case ReapSend(id) => if id in c.exchanges then Reap(c, id) else c
    case CompleteClose => FinishClose(c)
    case ResumeRequest(id) => if id in c.exchanges then Resume(c, id, connected) else c
  }

  // ---------- what every action keeps ----------

  ghost predicate ExchangeInv(c: Client, id: Id)
    requires id in c.exchanges
  {
    var e := c.exchanges[id];
    && (id in c.pending <==> !e.done) && (id in c.timers <==> !e.done)
    && |e.outcomes| == (if e.done then 1 else 0)
    && (id in c.pending ==> c.pending[id] == e.schema) && (id in c.timers ==> c.timers[id] == e.due)
    && (id in c.sendTimers <==> !e.sendDone) && (id in c.sendTimers ==> c.sendTimers[id] == e.due && id in c.physical)
    && (e.answer.Some? && e.answer.value.Delivered? ==> e.outcomes == [e.answer.value])
  }

  ghost predicate Inv(c: Client) {
    && c.pending.Keys <= c.exchanges.Keys && c.timers.Keys <= c.exchanges.Keys
    && c.sendTimers.Keys <= c.exchanges.Keys && c.physical <= c.exchanges.Keys
    && (forall id | id in c.exchanges :: ExchangeInv(c, id))
    && |c.pending| <= MAX_IN_FLIGHT && |c.physical| <= MAX_IN_FLIGHT
    && (c.withdrawn ==> c.pending == map[])
    && (!c.closing.Open? ==> c.withdrawn)
    && (c.closing.Waiting? ==> c.physical <= c.closing.sends)
    && (c.closing.Closed? ==> c.physical == {})
  }

  lemma SettleKeepsInv(c: Client, id: Id, outcome: Outcome)
    requires Inv(c) && id in c.exchanges
    ensures Inv(Settle(c, id, outcome))
  {
    var d := Settle(c, id, outcome);
    if !c.exchanges[id].done {
      assert ExchangeInv(c, id);
      assert d.pending.Keys == c.pending.Keys - {id};
      forall k | k in d.exchanges ensures ExchangeInv(d, k) { assert ExchangeInv(c, k); }
    }
  }

  lemma FinishSendKeepsInv(c: Client, id: Id, failed: bool)
    requires Inv(c) && id in c.exchanges
    ensures Inv(FinishSend(c, id, failed))
  {
    if !c.exchanges[id].sendDone {
      var d := c.(exchanges := c.exchanges[id := c.exchanges[id].(sendDone := true)],
                  sendTimers := c.sendTimers - {id});
      forall k | k in d.exchanges ensures ExchangeInv(d, k) { assert ExchangeInv(c, k); }
      assert Inv(d);
      if id in d.pending { SettleKeepsInv(d, id, SendUnavailable); }
    }
  }

  /** The request joins the physical set after the send call; the invariant is stated with it already there. */
  lemma StartKeepsInv(c: Client, now: int, connected: bool, r: Request)
    requires Inv(c) && r.id !in c.exchanges
    ensures Inv(Start(c, now, connected, r))
  {
    if Refusal(c, connected, r).None? {
      RegisteredKeepsInv(c, now, r);
      var e := Registered(c, now, r).(physical := c.physical + {r.id});
      if !r.send.Queued? { FinishSendKeepsInv(e, r.id, r.send.Threw? || r.send.failed); }
    }
  }

  lemma RegisteredKeepsInv(c: Client, now: int, r: Request)
    requires Inv(c) && r.id !in c.exchanges && !c.withdrawn
    requires |c.pending| < MAX_IN_FLIGHT && |c.physical| < MAX_IN_FLIGHT
    ensures Inv(Registered(c, now, r).(physical := c.physical + {r.id}))
  {
    var e := Registered(c, now, r).(physical := c.physical + {r.id});
    assert e.pending.Keys == c.pending.Keys + {r.id};
    forall k | k in e.exchanges ensures ExchangeInv(e, k) {
      if k != r.id { assert ExchangeInv(c, k); }
      RegisteredExchange(c, now, r, k);
    }
  }

  lemma RegisteredExchange(c: Client, now: int, r: Request, k: Id)
    requires k == r.id || (k in c.exchanges && ExchangeInv(c, k))
    ensures ExchangeInv(Registered(c, now, r).(physical := c.physical + {r.id}), k)
  {
  }

  lemma WithdrawKeepsInv(c: Client)
    requires Inv(c)
    ensures Inv(Withdraw(c))
  {
    var d := Withdraw(c);
    forall k | k in d.exchanges ensures ExchangeInv(d, k) { assert ExchangeInv(c, k); }
  }

  lemma ReapKeepsInv(c: Client, id: Id)
    requires Inv(c) && id in c.exchanges
    ensures Inv(Reap(c, id))
  {
    if c.exchanges[id].sendDone {
      var d := Reap(c, id);
      assert ExchangeInv(c, id) && |d.physical| <= |c.physical| by {
        if id in c.physical { assert d.physical + {id} == c.physical; } else { assert d.physical == c.physical; }
      }
      forall k | k in d.exchanges ensures ExchangeInv(d, k) { assert ExchangeInv(c, k); }
    }
  }

  lemma ResumeKeepsInv(c: Client, id: Id, connected: bool)
    requires Inv(c) && id in c.exchanges
    ensures Inv(Resume(c, id, connected))
  {
    var d := Resume(c, id, connected);
    assert ExchangeInv(c, id);
    forall k | k in d.exchanges ensures ExchangeInv(d, k) {
      assert ExchangeInv(c, k);
      ResumedExchange(c, id, connected, k);
    }
  }

  lemma ResumedExchange(c: Client, id: Id, connected: bool, k: Id)
    requires id in c.exchanges && k in c.exchanges && ExchangeInv(c, id) && ExchangeInv(c, k)
    ensures ExchangeInv(Resume(c, id, connected), k)
  {
  }

  lemma AbortKeepsInv(c: Client, id: Id)
    requires Inv(c) && id in c.exchanges
    ensures Inv(Abort(c, id))
  {
    if c.exchanges[id].signal == Some(false) {
      var d := c.(exchanges := c.exchanges[id := c.exchanges[id].(signal := Some(true))]);
      forall k | k in d.exchanges ensures ExchangeInv(d, k) { assert ExchangeInv(c, k); }
      SettleKeepsInv(d, id, RequestAborted);
    }
  }

  lemma ActKeepsInv(c: Client, now: int, connected: bool, a: Action)
    requires Inv(c)
    ensures Inv(Act(c, now, connected, a))
  {
    match a
    case StartRequest(r) => if r.id !in c.exchanges { StartKeepsInv(c, now, connected, r); }
    case Receive(m) => AcceptKeepsInv(c, m);
    case FireDeadline(id) => TimersKeepInv(c, now, id);
    case FireSendDeadline(id) => TimersKeepInv(c, now, id);
    case SendCallback(id, failed) => if id in c.exchanges { FinishSendKeepsInv(c, id, failed); }
    case AbortRequest(id) => if id in c.exchanges { AbortKeepsInv(c, id); }
    case AbortClient => WithdrawKeepsInv(c); AbortFlagKeepsInv(Withdraw(c));
    case WithdrawNow => WithdrawKeepsInv(c);
    case CloseNow => CloseKeepsInv(c);
    case ReapSend(id) => if id in c.exchanges { ReapKeepsInv(c, id); }
    case CompleteClose => CloseKeepsInv(c);
    case ResumeRequest(id) => if id in c.exchanges { ResumeKeepsInv(c, id, connected); }
  }

  lemma AcceptKeepsInv(c: Client, m: Message)
    requires Inv(c)
    ensures Inv(Accept(c, m))
  {
    if Reaches(c, m) { SettleKeepsInv(c, m.requestId.value, Verdict(m, c.pending[m.requestId.value])); }
  }

  lemma TimersKeepInv(c: Client, now: int, id: Id)
    requires Inv(c)
    ensures Inv(FireTimer(c, now, id)) && Inv(FireSendTimer(c, now, id))
  {
    if id in c.timers {
      TimerSettles(c, id);
      SettleKeepsInv(c, id, DeadlineExceeded);
    }
    if id in c.sendTimers { FinishSendKeepsInv(c, id, true); }
  }

  lemma CloseKeepsInv(c: Client)
    requires Inv(c)
    ensures Inv(Close(c)) && Inv(FinishClose(c))
  {
    if c.closing.Open? {
      WithdrawKeepsInv(c);
      ClosingKeepsInv(Withdraw(c), Waiting(c.physical));
    } else if FinishClose(c) != c {
      assert c.physical == {};
      ClosingKeepsInv(c, Closed);
    }
  }

  /** The timer that fires belongs to a response that is still open. */
  lemma TimerSettles(c: Client, id: Id)
    requires Inv(c) && id in c.timers
    ensures Settle(c.(timers := c.timers - {id}), id, DeadlineExceeded) == Settle(c, id, DeadlineExceeded)
  {
    assert ExchangeInv(c, id);
  }

  lemma AbortFlagKeepsInv(c: Client)
    requires Inv(c)
    ensures Inv(c.(signalAborted := true))
  {
    var d := c.(signalAborted := true);
    forall k | k in d.exchanges ensures ExchangeInv(d, k) { assert ExchangeInv(c, k); }
  }

  lemma ClosingKeepsInv(c: Client, closing: Closing)
    requires Inv(c) && c.withdrawn
    requires closing == Waiting(c.physical) || (closing == Closed && c.physical == {})
    ensures Inv(c.(closing := closing))
  {
    var d := c.(closing := closing);
    forall k | k in d.exchanges ensures ExchangeInv(d, k) { assert ExchangeInv(c, k); }
  }

  // ---------- who settles a response ----------

  /** What an action settles the open response of request id with, if it is one of its five causes: a message
      for it, its deadline, its own abort signal, the failure of its own send, a withdrawal of the client. */
  function Cause(c: Client, now: int, a: Action, id: Id): Option<Outcome>
    requires id in c.exchanges
  {
    var e := c.exchanges[id];
    match a
    case Receive(m) =>
      if !c.withdrawn && m.requestId == Some(id) && m.schema.Some? then Some(Verdict(m, e.schema)) else None
    case FireDeadline(k) => if k == id && e.due <= now then Some(DeadlineExceeded) else None
    case AbortRequest(k) => if k == id && e.signal == Some(false) then Some(RequestAborted) else None
    case SendCallback(k, failed) => if k == id && failed && !e.sendDone then Some(SendUnavailable) else None
    case FireSendDeadline(k) => if k == id && e.due <= now && !e.sendDone then Some(SendUnavailable) else None
    case AbortClient => Some(Unavailable)
    case WithdrawNow => Some(Unavailable)
    case CloseNow => Some(Unavailable)
    case _ => None
  }

  /** How an exchange may change: it settles at most once and keeps its schema and deadline, its send ends at
      most once, and its caller is answered at most once. */
  predicate Later(e: Exchange, f: Exchange) {
    && f.schema == e.schema && f.due == e.due
    && (e.done ==> f.done && f.outcomes == e.outcomes) && (e.sendDone ==> f.sendDone)
    && (e.answer.Some? ==> f.answer == e.answer)
  }

  lemma FinishSendAt(c: Client, id: Id, failed: bool, k: Id)
    requires Inv(c) && id in c.exchanges && k in c.exchanges
    ensures k in FinishSend(c, id, failed).exchanges
    ensures var e, f := c.exchanges[k], FinishSend(c, id, failed).exchanges[k];
            && Later(e, f)
            && f.outcomes == if k == id && failed && !e.sendDone && !e.done
                             then e.outcomes + [SendUnavailable] else e.outcomes
  {
    assert ExchangeInv(c, k);
  }

  /** The exchange of a request just after it was started. */
  function Started(now: int, r: Request): Exchange {
    var e := Begun(now, r);
    match r.send
    case Queued => e
    case Called(failed) => if failed then Settled(e.(sendDone := true), SendUnavailable) else e.(sendDone := true)
    case Threw => Settled(e.(sendDone := true), SendUnavailable)
  }

  lemma StartAt(c: Client, now: int, connected: bool, r: Request)
    requires r.id !in c.exchanges
    ensures Start(c, now, connected, r).exchanges
         == if Refusal(c, connected, r).None? then c.exchanges[r.id := Started(now, r)] else c.exchanges
  {
    if Refusal(c, connected, r).None? && !r.send.Queued? {
      FinishFreshSend(Registered(c, now, r), r.id, r.send.Threw? || r.send.failed);
      Overwrites(c.exchanges, r.id, Begun(now, r), Started(now, r));
    }
  }

  lemma Overwrites<V>(m: map<Id, V>, id: Id, v: V, w: V)
    ensures m[id := v][id := w] == m[id := w]
  {
  }

  lemma FinishFreshSend(d: Client, id: Id, failed: bool)
    requires id in d.exchanges && id in d.pending && !d.exchanges[id].done && !d.exchanges[id].sendDone
    ensures FinishSend(d, id, failed).exchanges
         == d.exchanges[id := var e := d.exchanges[id].(sendDone := true);
                              if failed then Settled(e, SendUnavailable) else e]
  {
  }

  lemma TimerAt(c: Client, now: int, id: Id, k: Id)
    requires Inv(c) && k in c.exchanges
    ensures k in FireTimer(c, now, id).exchanges
    ensures var e, f := c.exchanges[k], FireTimer(c, now, id).exchanges[k];
            && Later(e, f)
            && f.outcomes == if k == id && !e.done && e.due <= now then e.outcomes + [DeadlineExceeded] else e.outcomes
  {
    assert ExchangeInv(c, k);
  }

  lemma SendTimerAt(c: Client, now: int, id: Id, k: Id)
    requires Inv(c) && k in c.exchanges
    ensures k in FireSendTimer(c, now, id).exchanges
    ensures var e, f := c.exchanges[k], FireSendTimer(c, now, id).exchanges[k];
            && Later(e, f)
            && f.outcomes == if k == id && !e.sendDone && !e.done && e.due <= now
                             then e.outcomes + [SendUnavailable] else e.outcomes
  {
    assert ExchangeInv(c, k);
    if id in c.sendTimers { FinishSendAt(c, id, true, k); }
  }

  lemma AcceptAt(c: Client, m: Message, k: Id)
    requires Inv(c) && k in c.exchanges
    ensures k in Accept(c, m).exchanges
    ensures var e, f := c.exchanges[k], Accept(c, m).exchanges[k];
            && Later(e, f)
            && f.outcomes == if !c.withdrawn && m.requestId == Some(k) && m.schema.Some? && !e.done
                             then e.outcomes + [Verdict(m, e.schema)] else e.outcomes
  {
    assert ExchangeInv(c, k);
  }

  lemma WithdrawAt(c: Client, k: Id)
    requires Inv(c) && k in c.exchanges
    ensures k in Withdraw(c).exchanges
    ensures var e, f := c.exchanges[k], Withdraw(c).exchanges[k];
            && Later(e, f) && (!e.done ==> e.outcomes == [])
            && f.outcomes == if e.done then e.outcomes else [Unavailable]
  {
    assert ExchangeInv(c, k);
  }

  lemma AbortAt(c: Client, id: Id, k: Id)
    requires Inv(c) && id in c.exchanges && k in c.exchanges
    ensures k in Abort(c, id).exchanges
    ensures var e, f := c.exchanges[k], Abort(c, id).exchanges[k];
            && Later(e, f)
            && f.outcomes == if k == id && e.signal == Some(false) && !e.done
                             then e.outcomes + [RequestAborted] else e.outcomes
  {
    assert ExchangeInv(c, k);
  }

  /** What an action does to the exchange of request id. */
  ghost predicate ActsOn(c: Client, now: int, connected: bool, a: Action, id: Id)
    requires id in c.exchanges
  {
    var d := Act(c, now, connected, a);
    && id in d.exchanges && Later(c.exchanges[id], d.exchanges[id])
    && (!c.exchanges[id].done ==>
          d.exchanges[id].outcomes == if Cause(c, now, a, id).Some? then [Cause(c, now, a, id).value] else [])
  }

  predicate OfClient(a: Action) {
    a.AbortClient? || a.WithdrawNow? || a.CloseNow? || a.CompleteClose? || a.ReapSend? || a.ResumeRequest?
  }

  lemma ClientActionsAt(c: Client, now: int, connected: bool, a: Action, id: Id)
    requires Inv(c) && id in c.exchanges && OfClient(a)
    ensures ActsOn(c, now, connected, a, id)
  {
    if a.ResumeRequest? {
      ResumeAt(c, a.id, connected, id);
    } else {
      WithdrawAt(c, id);
    }
  }

  lemma ResumeAt(c: Client, id: Id, connected: bool, k: Id)
    requires Inv(c) && k in c.exchanges
    ensures id in c.exchanges ==>
              && k in Resume(c, id, connected).exchanges
              && Later(c.exchanges[k], Resume(c, id, connected).exchanges[k])
              && Resume(c, id, connected).exchanges[k].outcomes == c.exchanges[k].outcomes
    ensures !c.exchanges[k].done ==> c.exchanges[k].outcomes == []
  {
    assert ExchangeInv(c, k);
  }

  lemma RequestActionsAt(c: Client, now: int, connected: bool, a: Action, id: Id)
    requires Inv(c) && id in c.exchanges
    requires a.StartRequest? || a.Receive? || a.AbortRequest? || a.SendCallback?
    ensures ActsOn(c, now, connected, a, id)
  {
    assert ExchangeInv(c, id);
    match a
    case StartRequest(r) => if r.id !in c.exchanges { StartAt(c, now, connected, r); }
    case Receive(m) => AcceptAt(c, m, id);
    case AbortRequest(k) => if k in c.exchanges { AbortAt(c, k, id); }
    case SendCallback(k, failed) => if k in c.exchanges { FinishSendAt(c, k, failed, id); }
  }

  /** An action settles an open response exactly with the outcome it causes, and leaves it open otherwise; a
      settled response never settles again, and nothing about a request is ever taken back. */
  lemma SettledByItsOwnCause(c: Client, now: int, connected: bool, a: Action, id: Id)
    requires Inv(c) && id in c.exchanges
    ensures id in Act(c, now, connected, a).exchanges
    ensures var e, f := c.exchanges[id], Act(c, now, connected, a).exchanges[id];
            && Later(e, f)
            && (!e.done ==> f.outcomes == if Cause(c, now, a, id).Some? then [Cause(c, now, a, id).value] else [])
  {
    assert ActsOn(c, now, connected, a, id) by {
      if a.FireDeadline? {
        assert ExchangeInv(c, id);
        TimerAt(c, now, a.id, id);
      } else if a.FireSendDeadline? {
        assert ExchangeInv(c, id);
        SendTimerAt(c, now, a.id, id);
      } else if a.StartRequest? || a.Receive? || a.AbortRequest? || a.SendCallback? {
        RequestActionsAt(c, now, connected, a, id);
      } else {
        ClientActionsAt(c, now, connected, a, id);
      }
    }
  }

  // ---------- every client of a process ----------

  datatype World = World(now: int, connected: bool, owner: Option<nat>, clients: seq<Client>)

  datatype Event =
    | Tick(to: int)
    | ChannelLost
    | CreateClient(signalAborted: bool)
    | OnClient(client: nat, action: Action)

  function Step(w: World, e: Event): World {
    match e
    case Tick(to) => if to >= w.now then w.(now := to) else w
    case ChannelLost => w.(connected := false)
    case CreateClient(aborted) =>
      if w.owner.Some? || aborted || !w.connected then w
      else w.(owner := Some(|w.clients|), clients := w.clients + [FRESH])
    case OnClient(i, a) => if i < |w.clients| then ActOn(w, i, a) else w
  }

  function ActOn(w: World, i: nat, a: Action): World
    requires i < |w.clients|
  {
    var c, d := w.clients[i], Act(w.clients[i], w.now, w.connected, a);
    w.(clients := w.clients[i := d],
       owner := if d.closing.Closed? && !c.closing.Closed? && w.owner == Some(i) then None else w.owner)
  }

  function Steps(w: World, events: seq<Event>): World
    decreases |events|
  {
    if events == [] then w else Steps(Step(w, events[0]), events[1..])
  }

  function Initial(now: int): World { World(now, true, None, []) }

  /** The owner is the one client that has not closed. */
  ghost predicate WorldInv(w: World) {
    && (forall i | 0 <= i < |w.clients| :: Inv(w.clients[i]))
    && (forall i: nat | i < |w.clients| :: w.owner == Some(i) <==> !w.clients[i].closing.Closed?)
    && (w.owner.Some? ==> w.owner.value < |w.clients|)
  }

  lemma ClosedStays(c: Client, now: int, connected: bool, a: Action)
    ensures c.closing.Closed? ==> Act(c, now, connected, a).closing.Closed?
  {
  }

  lemma FreshInv()
    ensures Inv(FRESH)
  {
  }

  lemma StepKeepsInv(w: World, e: Event)
    requires WorldInv(w)
    ensures WorldInv(Step(w, e))
  {
    FreshInv();
    if e.OnClient? && e.client < |w.clients| {
      ActKeepsInv(w.clients[e.client], w.now, w.connected, e.action);
      ClosedStays(w.clients[e.client], w.now, w.connected, e.action);
    }
  }

  lemma {:induction false} StepsKeepInv(w: World, events: seq<Event>)
    requires WorldInv(w)
    ensures WorldInv(Steps(w, events))
    decreases |events|
  {
    if events != [] {
      StepKeepsInv(w, events[0]);
      StepsKeepInv(Step(w, events[0]), events[1..]);
    }
  }

  /** In every reachable state a request has settled at most once, and is pending, with its timer running,
      exactly when it has not settled; its physical send is done or has a running timer. */
  lemma SettlesAtMostOnce(now: int, events: seq<Event>, i: nat, id: Id)
    requires i < |Steps(Initial(now), events).clients| && id in Steps(Initial(now), events).clients[i].exchanges
    ensures var c := Steps(Initial(now), events).clients[i];
            var e := c.exchanges[id];
            && |e.outcomes| <= 1 && (e.outcomes == [] <==> id in c.pending) && (id in c.pending <==> id in c.timers)
            && (id in c.pending ==> c.pending[id] == e.schema && c.timers[id] == e.due)
            && (id in c.sendTimers <==> !e.sendDone) && (!e.sendDone ==> id in c.physical)
  {
    StepsKeepInv(Initial(now), events);
    assert ExchangeInv(Steps(Initial(now), events).clients[i], id);
  }

  /** Never more than four pending responses or four physical sends, and only the owner has any. */
  lemma CapacityHolds(now: int, events: seq<Event>, i: nat)
    requires i < |Steps(Initial(now), events).clients|
    ensures var w := Steps(Initial(now), events);
            && |w.clients[i].pending| <= MAX_IN_FLIGHT && |w.clients[i].physical| <= MAX_IN_FLIGHT
            && (w.owner != Some(i) ==> w.clients[i].pending == map[] && w.clients[i].physical == {})
  {
    StepsKeepInv(Initial(now), events);
  }

  /** At most one client of a process has not closed. */
  lemma OneClientAtATime(now: int, events: seq<Event>, i: nat, j: nat)
    requires i < |Steps(Initial(now), events).clients| && j < |Steps(Initial(now), events).clients|
    requires !Steps(Initial(now), events).clients[i].closing.Closed?
    requires !Steps(Initial(now), events).clients[j].closing.Closed?
    ensures i == j
  {
    StepsKeepInv(Initial(now), events);
  }

  // ---------- results come from their own message ----------

  predicate Answers(e: Event, i: nat, id: Id, schema: Schema, v: int) {
    e == OnClient(i, Receive(Message(Some(schema), Some(id), Some(v))))
  }

  /** Request id of client i, if there is one, has been delivered v. */
  predicate Has(w: World, i: nat, id: Id, schema: Schema, v: int) {
    && i < |w.clients| && id in w.clients[i].exchanges
    && w.clients[i].exchanges[id].schema == schema && w.clients[i].exchanges[id].outcomes == [Delivered(v)]
  }

  lemma DeliveredByStep(w: World, e: Event, i: nat, id: Id, schema: Schema, v: int)
    requires WorldInv(w) && !Has(w, i, id, schema, v) && Has(Step(w, e), i, id, schema, v)
    ensures Answers(e, i, id, schema, v)
  {
    if i < |w.clients| {
      var c := w.clients[i];
      assert e.OnClient? && e.client == i;
      if id in c.exchanges {
        SettledByItsOwnCause(c, w.now, w.connected, e.action, id);
        assert ExchangeInv(c, id);
      } else {
        NewRequestWasStarted(c, w.now, w.connected, e.action, id);
        NewRequestHasNoResult(c, w.now, w.connected, e.action.request);
      }
    }
  }

  lemma NewRequestHasNoResult(c: Client, now: int, connected: bool, r: Request)
    requires r.id !in c.exchanges && r.id in Start(c, now, connected, r).exchanges
    ensures forall v :: Delivered(v) !in Start(c, now, connected, r).exchanges[r.id].outcomes
  {
    StartAt(c, now, connected, r);
  }

  lemma NewRequestWasStarted(c: Client, now: int, connected: bool, a: Action, id: Id)
    requires c.pending.Keys <= c.exchanges.Keys && id !in c.exchanges && id in Act(c, now, connected, a).exchanges
    ensures a.StartRequest? && a.request.id == id
  {
    if a.StartRequest? {
      StartAt(c, now, connected, a.request);
    }
  }

  lemma {:induction false} DeliveredInRun(w: World, events: seq<Event>, i: nat, id: Id, schema: Schema, v: int)
    requires WorldInv(w) && !Has(w, i, id, schema, v) && Has(Steps(w, events), i, id, schema, v)
    ensures exists j | 0 <= j < |events| :: Answers(events[j], i, id, schema, v)
    decreases |events|
  {
    if events != [] {
      if Has(Step(w, events[0]), i, id, schema, v) {
        DeliveredByStep(w, events[0], i, id, schema, v);
      } else {
        StepKeepsInv(w, events[0]);
        DeliveredInRun(Step(w, events[0]), events[1..], i, id, schema, v);
        var j :| 0 <= j < |events[1..]| && Answers(events[1..][j], i, id, schema, v);
        assert Answers(events[j + 1], i, id, schema, v);
      }
    }
  }

  /** In every run, a result the caller gets was carried by a message with the request's own identifier and its
      expected schema. */
  lemma ResultComesFromItsMessage(now: int, events: seq<Event>, i: nat, id: Id, v: int)
    requires i < |Steps(Initial(now), events).clients| && id in Steps(Initial(now), events).clients[i].exchanges
    requires Steps(Initial(now), events).clients[i].exchanges[id].answer == Some(Delivered(v))
    ensures exists j | 0 <= j < |events| ::
              Answers(events[j], i, id, Steps(Initial(now), events).clients[i].exchanges[id].schema, v)
  {
    StepsKeepInv(Initial(now), events);
    var c := Steps(Initial(now), events).clients[i];
    assert ExchangeInv(c, id);
    DeliveredInRun(Initial(now), events, i, id, c.exchanges[id].schema, v);
  }

  // ---------- withdrawal and close ----------

  /** Once withdrawn, an action adds no request and no physical send. */
  ghost predicate AddsNothing(c: Client, d: Client) {
    d.withdrawn && d.exchanges.Keys == c.exchanges.Keys && d.physical <= c.physical
  }

  lemma RequestActionsAddNothing(c: Client, now: int, connected: bool, a: Action)
    requires c.withdrawn
    requires !OfClient(a)
    ensures AddsNothing(c, Act(c, now, connected, a))
  {
  }

  lemma ClientActionsAddNothing(c: Client, now: int, connected: bool, a: Action)
    requires c.withdrawn
    requires OfClient(a)
    ensures AddsNothing(c, Act(c, now, connected, a))
  {
  }

  lemma ActAfterWithdrawal(c: Client, now: int, connected: bool, a: Action)
    requires c.withdrawn
    ensures AddsNothing(c, Act(c, now, connected, a))
  {
    if OfClient(a) {
      ClientActionsAddNothing(c, now, connected, a);
    } else {
      RequestActionsAddNothing(c, now, connected, a);
    }
  }

  lemma StepAddsNothing(w: World, e: Event, i: nat)
    requires i < |w.clients| && w.clients[i].withdrawn
    ensures i < |Step(w, e).clients| && AddsNothing(w.clients[i], Step(w, e).clients[i])
  {
    if e.OnClient? && e.client == i { ActAfterWithdrawal(w.clients[i], w.now, w.connected, e.action); }
  }

  lemma {:induction false} StepsAddNothing(w: World, events: seq<Event>, i: nat)
    requires i < |w.clients| && w.clients[i].withdrawn
    ensures i < |Steps(w, events).clients| && AddsNothing(w.clients[i], Steps(w, events).clients[i])
    decreases |events|
  {
    if events != [] {
      StepAddsNothing(w, events[0], i);
      StepsAddNothing(Step(w, events[0]), events[1..], i);
    }
  }

  /** After a withdrawal nothing is pending, nothing starts and no send joins the physical set, for good. */
  lemma WithdrawnForGood(w: World, events: seq<Event>, i: nat)
    requires WorldInv(w) && i < |w.clients| && w.clients[i].withdrawn
    ensures i < |Steps(w, events).clients|
    ensures var c, d := w.clients[i], Steps(w, events).clients[i];
            && d.withdrawn && d.pending == map[]
            && d.exchanges.Keys == c.exchanges.Keys && d.physical <= c.physical
  {
    StepsAddNothing(w, events, i);
    StepsKeepInv(w, events);
  }

  lemma AnswerAfterWithdrawal(c: Client, now: int, connected: bool, a: Action, id: Id)
    requires Inv(c) && c.withdrawn && id in c.exchanges && c.exchanges[id].answer.None?
    ensures id in Act(c, now, connected, a).exchanges
    ensures var answer := Act(c, now, connected, a).exchanges[id].answer;
            answer.Some? ==> a == ResumeRequest(id) && !answer.value.Delivered?
  {
    if OfClient(a) {
      ClientActionsAddNothing(c, now, connected, a);
    } else {
      RequestActionsAddNothing(c, now, connected, a);
    }
  }

  /** Client i is withdrawn and the caller of its request id has not been given a result. */
  predicate Withheld(w: World, i: nat, id: Id) {
    && i < |w.clients| && w.clients[i].withdrawn && id in w.clients[i].exchanges
    && var answer := w.clients[i].exchanges[id].answer; answer.Some? ==> !answer.value.Delivered?
  }

  lemma StepWithholds(w: World, e: Event, i: nat, id: Id)
    requires WorldInv(w) && Withheld(w, i, id)
    ensures Withheld(Step(w, e), i, id)
  {
    StepAddsNothing(w, e, i);
    if e.OnClient? && e.client == i {
      SettledByItsOwnCause(w.clients[i], w.now, w.connected, e.action, id);
      if w.clients[i].exchanges[id].answer.None? {
        AnswerAfterWithdrawal(w.clients[i], w.now, w.connected, e.action, id);
      }
    }
  }

  /** A caller that resumes only after the withdrawal never gets a result, even if its message had arrived. */
  lemma {:induction false} NoResultAfterWithdrawal(w: World, events: seq<Event>, i: nat, id: Id)
    requires WorldInv(w) && Withheld(w, i, id)
    ensures Withheld(Steps(w, events), i, id)
    decreases |events|
  {
    if events != [] {
      StepKeepsInv(w, events[0]);
      StepWithholds(w, events[0], i, id);
      NoResultAfterWithdrawal(Step(w, events[0]), events[1..], i, id);
    }
  }

  /** Close completes exactly when no physical send remains. */
  lemma CloseCompletesWhenSendsAreGone(c: Client, now: int, connected: bool)
    requires Inv(c) && c.closing.Waiting?
    ensures Act(c, now, connected, CompleteClose).closing.Closed? <==> c.physical == {}
  {
    assert c.physical * c.closing.sends == c.physical;
  }

  /** In every reachable state a closed client has no physical send left, and each of its requests is settled
      and sent. */
  lemma ClosedHasNothingInFlight(now: int, events: seq<Event>, i: nat, id: Id)
    requires i < |Steps(Initial(now), events).clients| && Steps(Initial(now), events).clients[i].closing.Closed?
    requires id in Steps(Initial(now), events).clients[i].exchanges
    ensures var c := Steps(Initial(now), events).clients[i];
            c.physical == {} && |c.exchanges[id].outcomes| == 1 && c.exchanges[id].sendDone
  {
    StepsKeepInv(Initial(now), events);
    assert ExchangeInv(Steps(Initial(now), events).clients[i], id);
  }

  // ---------- deadlines ----------

  ghost predicate NoneDueBefore(c: Client, t: int) {
    && (forall id | id in c.timers :: t <= c.timers[id]) && (forall id | id in c.sendTimers :: t <= c.sendTimers[id])
  }

  ghost predicate AllNoneDueBefore(w: World, t: int) {
    forall i | 0 <= i < |w.clients| :: NoneDueBefore(w.clients[i], t)
  }

  /** A run in which the clock never passes a running timer. */
  ghost predicate Prompt(w: World, events: seq<Event>)
    decreases |events|
  {
    events != [] ==>
      (events[0].Tick? ==> AllNoneDueBefore(w, events[0].to)) && Prompt(Step(w, events[0]), events[1..])
  }

  lemma ActKeepsTime(c: Client, now: int, connected: bool, a: Action)
    requires NoneDueBefore(c, now)
    ensures NoneDueBefore(Act(c, now, connected, a), now)
  {
    match a
    case StartRequest(r) => StartKeepsTime(c, now, connected, r);
    case FireDeadline(id) => TimersKeepTime(c, now, id);
    case FireSendDeadline(id) => TimersKeepTime(c, now, id);
    case SendCallback(id, failed) => if id in c.exchanges { FinishSendKeepsTime(c, now, id, failed); }
    case _ =>
  }

  lemma FinishSendKeepsTime(c: Client, now: int, id: Id, failed: bool)
    requires NoneDueBefore(c, now) && id in c.exchanges
    ensures NoneDueBefore(FinishSend(c, id, failed), now)
  {
  }

  lemma StartKeepsTime(c: Client, now: int, connected: bool, r: Request)
    requires NoneDueBefore(c, now)
    ensures NoneDueBefore(Start(c, now, connected, r), now)
  {
    if Refusal(c, connected, r).None? && !r.send.Queued? {
      FinishSendKeepsTime(Registered(c, now, r), now, r.id, r.send.Threw? || r.send.failed);
    }
  }

  lemma TimersKeepTime(c: Client, now: int, id: Id)
    requires NoneDueBefore(c, now)
    ensures NoneDueBefore(FireTimer(c, now, id), now) && NoneDueBefore(FireSendTimer(c, now, id), now)
  {
    if id in c.exchanges { FinishSendKeepsTime(c, now, id, true); }
  }

  lemma {:induction false} PromptKeepsTime(w: World, events: seq<Event>)
    requires AllNoneDueBefore(w, w.now) && Prompt(w, events)
    ensures AllNoneDueBefore(Steps(w, events), Steps(w, events).now)
    decreases |events|
  {
    if events != [] {
      if events[0].OnClient? && events[0].client < |w.clients| {
        ActKeepsTime(w.clients[events[0].client], w.now, w.connected, events[0].action);
      }
      PromptKeepsTime(Step(w, events[0]), events[1..]);
    }
  }

  /** When timers fire on time, every request has settled and every send has ended once its deadline is past. */
  lemma EndsByItsDeadline(now: int, events: seq<Event>, i: nat, id: Id)
    requires Prompt(Initial(now), events)
    requires i < |Steps(Initial(now), events).clients| && id in Steps(Initial(now), events).clients[i].exchanges
    requires Steps(Initial(now), events).clients[i].exchanges[id].due < Steps(Initial(now), events).now
    ensures var e := Steps(Initial(now), events).clients[i].exchanges[id]; |e.outcomes| == 1 && e.sendDone
  {
    StepsKeepInv(Initial(now), events);
    PromptKeepsTime(Initial(now), events);
    assert ExchangeInv(Steps(Initial(now), events).clients[i], id);
  }
}
