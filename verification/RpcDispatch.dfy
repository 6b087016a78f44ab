/** The request and call side of `cli/src/rpc.rs`, and the loop of `cli/src/msgpack_rpc.rs` that runs
    it: who gets answered, which callbacks run, and when the loop can get through a batch. */
module RpcDispatch {
  import opened Common

  // ---------------------------------------------------------------------------------------------
  // One inbound message
  // ---------------------------------------------------------------------------------------------

  type MessageId = nat

  datatype Response = Success(id: MessageId, result: seq<byte>) | Error(id: MessageId, code: int)

  /** How a registered method ended for one request. */
  datatype Outcome = Undecodable | Returned(result: seq<byte>) | Threw

  /** What a handler answers: nothing at all to a message without an id. */
  function Answer(id: Option<MessageId>, o: Outcome): Option<Response> {
    if id.None? then None
    else match o
      case Undecodable => Some(Error(id.value, 0))
      case Returned(result) => Some(Success(id.value, result))
      case Threw => Some(Error(id.value, -1))
  }

  datatype Kind = Sync | Async | Duplex

  /** The approximate shape of an incoming message; `target` is its method name. */
  datatype Partial = Partial(id: Option<MessageId>, target: Option<string>, error: bool)

  /** Where the dispatcher sends a message: an answer that is ready, a future, or a future with
      streams; `Panics` is the `unwrap` of an absent id. */
  datatype Route = Ready(response: Option<Response>) | Future | Stream | Callback(id: MessageId) | Panics

  /** `outcome` is what a synchronous handler returns. */
  function Dispatch(methods: map<string, Kind>, p: Partial, outcome: Outcome): Route {
    if p.target.Some? then
      if p.target.value !in methods then Ready(if p.id.Some? then Some(Error(p.id.value, -1)) else None)
      else match methods[p.target.value]
        case Sync => Ready(Answer(p.id, outcome))
        case Async => Future
        case Duplex => Stream
    else if p.id.None? then Panics
    else Callback(p.id.value)
  }

  // ---------------------------------------------------------------------------------------------
  // The whole run: requests from the peer, handlers that end later, calls to the peer
  // ---------------------------------------------------------------------------------------------

  /** A request that reached a handler or was refused, and whether that has finished. */
  datatype Request = Request(id: Option<MessageId>, finished: bool)

  /** A response handed to the writing loop, with the position of the request that it answers. */
  datatype Sent = Sent(request: nat, response: Response)

  datatype State = State(
    requests: seq<Request>,
    out: seq<Sent>,
    nextId: MessageId,
    sending: set<MessageId>,
    calls: set<MessageId>,
    fired: seq<MessageId>,
    panicked: bool)

  const INIT := State([], [], 0, {}, {}, [], false)

  datatype Action =
    | Inbound(p: Partial, outcome: Outcome)
    | Finish(k: nat, outcome: Outcome)
    | SendCall
    | Register(id: MessageId)

  predicate Enabled(s: State, a: Action) {
    && !s.panicked
    && match a
       case Inbound(_, _) => true
       case Finish(k, _) => k < |s.requests| && !s.requests[k].finished
       case SendCall => true
       case Register(id) => id in s.sending
  }

  function Respond(s: State, k: nat, r: Option<Response>): seq<Sent> {
    if r.Some? then s.out + [Sent(k, r.value)] else s.out
  }

  function Step(methods: map<string, Kind>, s: State, a: Action): State
    requires Enabled(s, a)
  {
    match a
    case Inbound(p, outcome) =>
      (match Dispatch(methods, p, outcome)
       case Ready(r) => s.(requests := s.requests + [Request(p.id, true)], out := Respond(s, |s.requests|, r))
       case Future => s.(requests := s.requests + [Request(p.id, false)])
       case Stream => s.(requests := s.requests + [Request(p.id, false)])
       case Callback(id) => if id in s.calls then s.(calls := s.calls - {id}, fired := s.fired + [id]) else s
       case Panics => s.(panicked := true))
    case Finish(k, outcome) =>
      s.(requests := s.requests[k := s.requests[k].(finished := true)],
        out := Respond(s, k, Answer(s.requests[k].id, outcome)))
    case SendCall => s.(nextId := s.nextId + 1, sending := s.sending + {s.nextId})
    case Register(id) => s.(sending := s.sending - {id}, calls := s.calls + {id})
  }

  /** The state after a run; `None` if some action was not possible. */
  function Exec(methods: map<string, Kind>, acts: seq<Action>): Option<State>
    decreases |acts|
  {
    if acts == [] then Some(INIT)
    else
      var s := Exec(methods, acts[..|acts|-1]);
      var a := acts[|acts|-1];
      if s.None? || !Enabled(s.value, a) then None else Some(Step(methods, s.value, a))
  }

  // ---------------------------------------------------------------------------------------------
  // Requests: exactly one response, or none to a notification
  // ---------------------------------------------------------------------------------------------

  /** How many responses answer request `k`. */
  function ResponsesTo(out: seq<Sent>, k: nat): nat {
    if out == [] then 0 else ResponsesTo(out[..|out|-1], k) + if out[|out|-1].request == k then 1 else 0
  }

  lemma ResponsesPush(out: seq<Sent>, m: Sent, k: nat)
    ensures ResponsesTo(out + [m], k) == ResponsesTo(out, k) + if m.request == k then 1 else 0
  {
  }

  lemma {:induction false} NoResponses(out: seq<Sent>, k: nat)
    requires forall m <- out :: m.request < k
    ensures ResponsesTo(out, k) == 0
  {
    if out != [] {
      assert out[|out|-1] in out;
      NoResponses(out[..|out|-1], k);
    }
  }

  function Due(r: Request): nat {
    if r.finished && r.id.Some? then 1 else 0
  }

  ghost predicate RequestInv(s: State) {
    && (forall m <- s.out :: m.request < |s.requests| && s.requests[m.request].id == Some(m.response.id))
    && (forall k | 0 <= k < |s.requests| :: ResponsesTo(s.out, k) == Due(s.requests[k]))
  }

  lemma NewRequestKeepsInv(s: State, r: Request, response: Option<Response>)
    requires RequestInv(s)
    requires response.Some? <==> Due(r) == 1
    requires response.Some? ==> r.id == Some(response.value.id)
    ensures RequestInv(s.(requests := s.requests + [r], out := Respond(s, |s.requests|, response)))
  {
    NoResponses(s.out, |s.requests|);
    forall k | 0 <= k <= |s.requests|
      ensures ResponsesTo(Respond(s, |s.requests|, response), k) == Due((s.requests + [r])[k])
    {
      if response.Some? { ResponsesPush(s.out, Sent(|s.requests|, response.value), k); }
    }
  }

  lemma FinishKeepsInv(s: State, k: nat, outcome: Outcome)
    requires RequestInv(s) && k < |s.requests| && !s.requests[k].finished
    ensures RequestInv(s.(requests := s.requests[k := s.requests[k].(finished := true)],
                          out := Respond(s, k, Answer(s.requests[k].id, outcome))))
  {
    var r := Answer(s.requests[k].id, outcome);
    var requests' := s.requests[k := s.requests[k].(finished := true)];
    forall j | 0 <= j < |s.requests| ensures ResponsesTo(Respond(s, k, r), j) == Due(requests'[j]) {
      if r.Some? { ResponsesPush(s.out, Sent(k, r.value), j); }
    }
  }

  lemma {:induction false} RequestInvHolds(methods: map<string, Kind>, acts: seq<Action>)
    requires Exec(methods, acts).Some?
    ensures RequestInv(Exec(methods, acts).value)
    decreases |acts|
  {
    if acts != [] {
      RequestInvHolds(methods, acts[..|acts|-1]);
      var s, a := Exec(methods, acts[..|acts|-1]).value, acts[|acts|-1];
      if a.Finish? {
        FinishKeepsInv(s, a.k, a.outcome);
      } else if a.Inbound? {
        var r := Dispatch(methods, a.p, a.outcome);
        if r.Ready? { NewRequestKeepsInv(s, Request(a.p.id, true), r.response); }
        if r.Future? || r.Stream? { NewRequestKeepsInv(s, Request(a.p.id, false), None); }
      }
    }
  }

  /** In every run, whatever the mix of synchronous, asynchronous, duplex, unknown and undecodable
      requests: a request with an id whose handler has finished got exactly one response, it carries
      that id, and notifications and unfinished requests got none. */
  lemma OneResponseEach(methods: map<string, Kind>, acts: seq<Action>, s: State, k: nat)
    requires Exec(methods, acts) == Some(s) && k < |s.requests|
    ensures ResponsesTo(s.out, k) == if s.requests[k].finished && s.requests[k].id.Some? then 1 else 0
    ensures forall m <- s.out | m.request == k :: s.requests[k].id == Some(m.response.id)
  {
    RequestInvHolds(methods, acts);
  }

  // ---------------------------------------------------------------------------------------------
  // Calls: a callback runs at most once, and only for a response that comes after its registration
  // ---------------------------------------------------------------------------------------------

  predicate IsReply(a: Action, id: MessageId) {
    a.Inbound? && a.p.target.None? && a.p.id == Some(id)
  }

  /** A reply to call `id` that the dispatcher saw after the call had registered its callback. */
  ghost predicate RepliedAfterRegister(acts: seq<Action>, id: MessageId) {
    exists i, j :: 0 <= i < j < |acts| && acts[i] == Register(id) && IsReply(acts[j], id)
  }

  ghost predicate CallInv(acts: seq<Action>, s: State, id: MessageId) {
    && (id in s.sending || id in s.calls || id in s.fired || Register(id) in acts ==> id < s.nextId)
    && (Register(id) in acts <==> id in s.calls || id in s.fired)
    && !(id in s.sending && (id in s.calls || id in s.fired))
    && !(id in s.calls && id in s.fired)
    && (id in s.fired <==> RepliedAfterRegister(acts, id))
    && multiset(s.fired)[id] <= 1
  }

  lemma RepliesGrow(acts: seq<Action>, a: Action, id: MessageId)
    ensures RepliedAfterRegister(acts + [a], id) <==>
      RepliedAfterRegister(acts, id) || (Register(id) in acts && IsReply(a, id))
    ensures Register(id) in acts + [a] <==> Register(id) in acts || a == Register(id)
  {
    var all := acts + [a];
    if RepliedAfterRegister(acts, id) {
      var i, j :| 0 <= i < j < |acts| && acts[i] == Register(id) && IsReply(acts[j], id);
      assert all[i] == Register(id) && IsReply(all[j], id);
    } else if Register(id) in acts && IsReply(a, id) {
      var i :| 0 <= i < |acts| && acts[i] == Register(id);
      assert all[i] == Register(id) && IsReply(all[|acts|], id);
    }
    if RepliedAfterRegister(all, id) {
      var i, j :| 0 <= i < j < |all| && all[i] == Register(id) && IsReply(all[j], id);
      assert acts[i] == Register(id);
      assert j < |acts| ==> IsReply(acts[j], id);
    }
  }

  lemma CallStepKeepsInv(methods: map<string, Kind>, acts: seq<Action>, s: State, a: Action, id: MessageId)
    requires CallInv(acts, s, id) && Enabled(s, a)
    ensures CallInv(acts + [a], Step(methods, s, a), id)
  {
    RepliesGrow(acts, a, id);
    match a
    case Inbound(p, outcome) =>
      if p.target.Some? || p.id != Some(id) {
        assert !IsReply(a, id);
        assert multiset(Step(methods, s, a).fired)[id] == multiset(s.fired)[id];
      } else {
        assert IsReply(a, id);
      }
    case Finish(_, _) =>
    case SendCall =>
    case Register(_) =>
  }

  lemma {:induction false} CallInvHolds(methods: map<string, Kind>, acts: seq<Action>, id: MessageId)
    requires Exec(methods, acts).Some?
    ensures CallInv(acts, Exec(methods, acts).value, id)
    decreases |acts|
  {
    if acts != [] {
      var before, a := acts[..|acts|-1], acts[|acts|-1];
      CallInvHolds(methods, before, id);
      CallStepKeepsInv(methods, before, Exec(methods, before).value, a, id);
      assert acts == before + [a];
    }
  }

  /** A callback runs at most once; and it runs if and only if the dispatcher sees a reply with the
      call's own id after the call registered it. */
  lemma CallbackAccounting(methods: map<string, Kind>, acts: seq<Action>, s: State, id: MessageId)
    requires Exec(methods, acts) == Some(s)
    ensures multiset(s.fired)[id] == if RepliedAfterRegister(acts, id) then 1 else 0
  {
    CallInvHolds(methods, acts, id);
  }

  /** `call` sends before it registers: a reply that is dispatched in between is lost, and the
      callback stays registered without ever having run. */
  lemma EarlyReplyIsLost() returns (acts: seq<Action>, s: State)
    ensures Exec(map[], acts) == Some(s)
    ensures (exists a <- acts :: IsReply(a, 0)) && Register(0) in acts && s.fired == [] && 0 in s.calls
  {
    var reply := Inbound(Partial(Some(0), None, false), Threw);
    acts := [SendCall, reply, Register(0)];
    assert acts[..2] == [SendCall, reply] && [SendCall, reply][..1] == [SendCall] && [SendCall][..0] == [];
    assert Exec(map[], []) == Some(INIT);
    assert Exec(map[], [SendCall]) == Some(Step(map[], INIT, SendCall));
    assert Exec(map[], [SendCall, reply]) == Some(Step(map[], Step(map[], INIT, SendCall), reply));
    assert IsReply(acts[1], 0);
    s := Step(map[], Step(map[], Step(map[], INIT, SendCall), reply), Register(0));
  }

  /** The dispatcher object: its table of callbacks is the only thing a message changes. */
  class RpcDispatcher {
    const methods: map<string, Kind>
    var calls: set<MessageId>
    var fired: seq<MessageId>

    constructor (methods: map<string, Kind>)
      ensures this.methods == methods && calls == {} && fired == []
    {
      this.methods := methods;
      calls, fired := {}, [];
    }

    method DispatchWithPartial(p: Partial, outcome: Outcome) returns (r: Route)
      modifies this
      ensures r == Dispatch(methods, p, outcome)
      ensures forall s: State | s.calls == old(calls) && s.fired == old(fired) && !s.panicked ::
                calls == Step(methods, s, Inbound(p, outcome)).calls &&
                  fired == Step(methods, s, Inbound(p, outcome)).fired
    {
      if p.target.Some? {
        if p.target.value !in methods {
          return Ready(if p.id.Some? then Some(Error(p.id.value, -1)) else None);
        }
        match methods[p.target.value]
        case Sync => return Ready(Answer(p.id, outcome));
        case Async => return Future;
        case Duplex => return Stream;
      }
      if p.id.None? {
        return Panics;
      }
      if p.id.value in calls {
        calls := calls - {p.id.value};
        fired := fired + [p.id.value];
      }
      r := Callback(p.id.value);
    }
  }

  // ---------------------------------------------------------------------------------------------
  // The bounded channel of the loop
  // ---------------------------------------------------------------------------------------------

  const CAPACITY := 8

  /** A decoded frame, with what its handler makes of it as far as that is known at once: whether the
      parameters can be decoded and, for a synchronous method, the result. */
  datatype Message = Message(p: Partial, outcome: Outcome)

  /** What dispatching a frame makes the loop do before the next one: await a send on its own channel
      (a response that is ready, or the announcement of streams), nothing, or panic. Futures send from
      tasks of their own. */
  datatype Handling = AwaitSend | NoWait | Panic

  function HandlingOf(methods: map<string, Kind>, m: Message): Handling {
    match Dispatch(methods, m.p, m.outcome)
    case Ready(response) => if response.Some? then AwaitSend else NoWait
    case Future => NoWait
    case Stream => if m.outcome.Undecodable? then NoWait else AwaitSend
    case Callback(_) => NoWait
    case Panics => Panic
  }

  /** `used` slots of the channel are taken; `batch` are the frames still to be dispatched before the
      loop gets back to draining the channel. */
  datatype Loop = Loop(used: nat, batch: seq<Message>)

  datatype LoopAction = Handle | OtherSend

  function LoopStep(methods: map<string, Kind>, l: Loop, a: LoopAction): Option<Loop> {
    match a
    case Handle =>
      if l.batch == [] then None
      else
        (match HandlingOf(methods, l.batch[0])
         case AwaitSend => if l.used >= CAPACITY then None else Some(Loop(l.used + 1, l.batch[1..]))
         case NoWait => Some(Loop(l.used, l.batch[1..]))
         case Panic => None)
    case OtherSend => if l.used >= CAPACITY then None else Some(l.(used := l.used + 1))
  }

  /** Where the loop is after some steps; `None` if one of them has to wait for a slot or panics. */
  function LoopEnd(methods: map<string, Kind>, l: Loop, acts: seq<LoopAction>): Option<Loop>
    decreases |acts|
  {
    if acts == [] then Some(l)
    else
      var next := LoopStep(methods, l, acts[0]);
      if next.None? then None else LoopEnd(methods, next.value, acts[1..])
  }

  ghost predicate Finishes(methods: map<string, Kind>, l: Loop, acts: seq<LoopAction>) {
    LoopEnd(methods, l, acts).Some? && LoopEnd(methods, l, acts).value.batch == []
  }

  /** The requests of a batch that are answered at once, and the duplex calls that open streams. */
  function Waits(methods: map<string, Kind>, batch: seq<Message>): nat {
    if batch == [] then 0
    else (if HandlingOf(methods, batch[0]) == AwaitSend then 1 else 0) + Waits(methods, batch[1..])
  }

  predicate NoPanic(methods: map<string, Kind>, batch: seq<Message>) {
    batch == [] || (HandlingOf(methods, batch[0]) != Panic && NoPanic(methods, batch[1..]))
  }

  lemma {:induction false} BatchUsesSlots(methods: map<string, Kind>, l: Loop, acts: seq<LoopAction>)
    requires l.used <= CAPACITY && Finishes(methods, l, acts)
    ensures l.used + Waits(methods, l.batch) <= CAPACITY && NoPanic(methods, l.batch)
    decreases |acts|
  {
    if acts != [] { BatchUsesSlots(methods, LoopStep(methods, l, acts[0]).value, acts[1..]); }
  }

  lemma {:induction false} BatchAlone(methods: map<string, Kind>, l: Loop) returns (acts: seq<LoopAction>)
    requires l.used + Waits(methods, l.batch) <= CAPACITY && NoPanic(methods, l.batch)
    ensures Finishes(methods, l, acts)
    decreases |l.batch|
  {
    if l.batch == [] {
      acts := [];
    } else {
      var rest := BatchAlone(methods, LoopStep(methods, l, Handle).value);
      acts := [Handle] + rest;
      assert acts[1..] == rest;
    }
  }

  /** The loop awaits sends on the channel that only it drains: it can finish the frames of one read if
      and only if none of them makes it panic, and the slots taken together with the frames that it
      answers or announces at once fit the channel. */
  lemma BatchCompletesIff(methods: map<string, Kind>, l: Loop)
    requires l.used <= CAPACITY
    ensures (exists acts :: Finishes(methods, l, acts)) <==>
              NoPanic(methods, l.batch) && l.used + Waits(methods, l.batch) <= CAPACITY
  {
    if NoPanic(methods, l.batch) && l.used + Waits(methods, l.batch) <= CAPACITY {
      var acts := BatchAlone(methods, l);
    }
    if acts :| Finishes(methods, l, acts) {
      BatchUsesSlots(methods, l, acts);
    }
  }

  /** A request with an id to a synchronous method. */
  predicate SyncRequest(methods: map<string, Kind>, m: Message) {
    m.p.id.Some? && m.p.target.Some? && m.p.target.value in methods && methods[m.p.target.value] == Sync
  }

  lemma {:induction false} SyncRequestsWait(methods: map<string, Kind>, batch: seq<Message>)
    requires forall m <- batch :: SyncRequest(methods, m)
    ensures Waits(methods, batch) == |batch| && NoPanic(methods, batch)
  {
    if batch != [] {
      assert SyncRequest(methods, batch[0]);
      SyncRequestsWait(methods, batch[1..]);
    }
  }

  /** Synchronous requests read at once, whatever their handlers return: the loop gets through them if
      and only if there are no more of them than free slots. */
  lemma SyncRequestsIff(methods: map<string, Kind>, l: Loop)
    requires l.used <= CAPACITY && forall m <- l.batch :: SyncRequest(methods, m)
    ensures (exists acts :: Finishes(methods, l, acts)) <==> l.used + |l.batch| <= CAPACITY
  {
    SyncRequestsWait(methods, l.batch);
    BatchCompletesIff(methods, l);
  }

  /** Nine requests to one synchronous method, read at once, stop a loop whose channel was empty. */
  lemma NineRequestsStop()
    ensures var methods := map["ping" := Sync];
            var batch := seq(9, i requires 0 <= i < 9 => Message(Partial(Some(i), Some("ping"), false), Returned([])));
            !exists acts :: Finishes(methods, Loop(0, batch), acts)
  {
    var batch := seq(9, i requires 0 <= i < 9 => Message(Partial(Some(i), Some("ping"), false), Returned([])));
    SyncRequestsIff(map["ping" := Sync], Loop(0, batch));
  }
}
