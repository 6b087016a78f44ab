/** What the answers of the dispatcher in `cli/src/rpc.rs` say, over whole runs: which request is
    answered when, and with what, in terms of what was asked and how the handlers ended. */
module RpcAnswers {
  import opened Common
  import opened RpcDispatch

  // ---------------------------------------------------------------------------------------------
  // The history of a run
  // ---------------------------------------------------------------------------------------------

  /** The messages of a run that name a method, in order. */
  function Asked(acts: seq<Action>): seq<Message> {
    if acts == [] then []
    else
      var last := acts[|acts|-1];
      Asked(acts[..|acts|-1]) + if last.Inbound? && last.p.target.Some? then [Message(last.p, last.outcome)] else []
  }

  /** How the pending handler of request `k` ended, if it has. */
  function Finished(acts: seq<Action>, k: nat): Option<Outcome> {
    if acts == [] then None
    else
      var last := acts[|acts|-1];
      if last.Finish? && last.k == k then Some(last.outcome) else Finished(acts[..|acts|-1], k)
  }

  predicate Known(methods: map<string, Kind>, ask: Message) {
    ask.p.target.Some? && ask.p.target.value in methods
  }

  /** How the handler of request `k` ended: a synchronous one within the dispatch, the others later. */
  function Ended(methods: map<string, Kind>, acts: seq<Action>, k: nat): Option<Outcome>
    requires k < |Asked(acts)| && Known(methods, Asked(acts)[k])
  {
    var ask := Asked(acts)[k];
    if methods[ask.p.target.value] == Sync then Some(ask.outcome) else Finished(acts, k)
  }

  /** A result is sent as it is; a handler that failed has code -1, parameters that cannot be decoded
      have code 0. */
  predicate Says(r: Response, o: Outcome) {
    match o
    case Returned(result) => r.Success? && r.result == result
    case Threw => r.Error? && r.code == -1
    case Undecodable => r.Error? && r.code == 0
  }

  // ---------------------------------------------------------------------------------------------
  // Every response in every run
  // ---------------------------------------------------------------------------------------------

  ghost predicate Means(methods: map<string, Kind>, acts: seq<Action>, m: Sent)
    requires m.request < |Asked(acts)|
  {
    var ask := Asked(acts)[m.request];
    && ask.p.target.Some? && ask.p.id == Some(m.response.id)
    && if Known(methods, ask) then
         Ended(methods, acts, m.request).Some? && Says(m.response, Ended(methods, acts, m.request).value)
       else m.response == Error(m.response.id, -1)
  }

  ghost predicate Recorded(methods: map<string, Kind>, acts: seq<Action>, r: Request, k: nat)
    requires k < |Asked(acts)|
  {
    var ask := Asked(acts)[k];
    && ask.p.target.Some? && r.id == ask.p.id
    && (r.finished <==> (Known(methods, ask) ==> Ended(methods, acts, k).Some?))
  }

  ghost predicate AnswersInv(methods: map<string, Kind>, acts: seq<Action>, s: State) {
    && |s.requests| == |Asked(acts)|
    && (forall k: nat | k < |s.requests| :: Recorded(methods, acts, s.requests[k], k))
    && (forall k: nat | k >= |s.requests| :: Finished(acts, k) == None)
    && (forall m <- s.out :: m.request < |Asked(acts)| && Means(methods, acts, m))
  }

  lemma HistoryGrows(acts: seq<Action>, a: Action)
    ensures Asked(acts + [a]) ==
            Asked(acts) + if a.Inbound? && a.p.target.Some? then [Message(a.p, a.outcome)] else []
    ensures forall k: nat ::
              Finished(acts + [a], k) == if a.Finish? && a.k == k then Some(a.outcome) else Finished(acts, k)
  {
    assert (acts + [a])[..|acts|] == acts;
  }

  /** What a request has got, and what was recorded of it, stays true. */
  lemma StillMeans(methods: map<string, Kind>, acts: seq<Action>, a: Action, m: Sent)
    requires m.request < |Asked(acts)| && Means(methods, acts, m) && !(a.Finish? && a.k == m.request)
    ensures m.request < |Asked(acts + [a])| && Means(methods, acts + [a], m)
  {
    HistoryGrows(acts, a);
  }

  lemma StillRecorded(methods: map<string, Kind>, acts: seq<Action>, a: Action, r: Request, k: nat)
    requires k < |Asked(acts)| && Recorded(methods, acts, r, k) && !(a.Finish? && a.k == k)
    ensures k < |Asked(acts + [a])| && Recorded(methods, acts + [a], r, k)
  {
    HistoryGrows(acts, a);
  }

  /** A request that is answered or recorded as pending is dispatched by its kind. */
  lemma NewRequest(methods: map<string, Kind>, acts: seq<Action>, s: State, a: Action)
    requires AnswersInv(methods, acts, s) && Enabled(s, a) && a.Inbound? && a.p.target.Some?
    ensures var s', n := Step(methods, s, a), |s.requests|;
            && |s'.requests| == n + 1 && s'.requests[..n] == s.requests
            && |Asked(acts + [a])| == n + 1 && Recorded(methods, acts + [a], s'.requests[n], n)
            && (s'.out == s.out ||
                (|s'.out| > 0 && s'.out == s.out + [s'.out[|s'.out|-1]] && s'.out[|s'.out|-1].request == n
                 && Means(methods, acts + [a], s'.out[|s'.out|-1])))
  {
    HistoryGrows(acts, a);
    assert Asked(acts + [a])[|s.requests|] == Message(a.p, a.outcome);
  }

  lemma AskedKeepsInv(methods: map<string, Kind>, acts: seq<Action>, s: State, a: Action)
    requires AnswersInv(methods, acts, s) && Enabled(s, a) && a.Inbound? && a.p.target.Some?
    ensures AnswersInv(methods, acts + [a], Step(methods, s, a))
  {
    var s', n := Step(methods, s, a), |s.requests|;
    NewRequest(methods, acts, s, a);
    HistoryGrows(acts, a);
    forall k: nat | k < n + 1 ensures Recorded(methods, acts + [a], s'.requests[k], k) {
      if k < n {
        assert s'.requests[k] == s.requests[k];
        StillRecorded(methods, acts, a, s.requests[k], k);
      }
    }
    forall m <- s'.out ensures m.request < |Asked(acts + [a])| && Means(methods, acts + [a], m) {
      if m in s.out { StillMeans(methods, acts, a, m); }
    }
  }

  lemma NoAnswerYet(s: State, k: nat)
    requires RequestInv(s) && k < |s.requests| && !s.requests[k].finished
    ensures forall m <- s.out :: m.request != k
  {
    if m :| m in s.out && m.request == k {
      AnswerIsCounted(s.out, m);
    }
  }

  lemma {:induction false} AnswerIsCounted(out: seq<Sent>, m: Sent)
    requires m in out
    ensures ResponsesTo(out, m.request) > 0
  {
    if m != out[|out|-1] {
      assert m in out[..|out|-1];
      AnswerIsCounted(out[..|out|-1], m);
    }
  }

  lemma {:induction false} CountedIsThere(out: seq<Sent>, k: nat)
    requires ResponsesTo(out, k) > 0
    ensures exists m <- out :: m.request == k
  {
    if out[|out|-1].request != k {
      CountedIsThere(out[..|out|-1], k);
      var m :| m in out[..|out|-1] && m.request == k;
      assert m in out;
    }
  }

  lemma FinishedKeepsInv(methods: map<string, Kind>, acts: seq<Action>, s: State, a: Action)
    requires AnswersInv(methods, acts, s) && RequestInv(s) && Enabled(s, a) && a.Finish?
    ensures AnswersInv(methods, acts + [a], Step(methods, s, a))
  {
    var s' := Step(methods, s, a);
    HistoryGrows(acts, a);
    NoAnswerYet(s, a.k);
    assert Recorded(methods, acts, s.requests[a.k], a.k);
    forall k: nat | k < |s'.requests| ensures Recorded(methods, acts + [a], s'.requests[k], k) {
      if k != a.k { StillRecorded(methods, acts, a, s.requests[k], k); }
    }
    forall m <- s'.out ensures m.request < |Asked(acts + [a])| && Means(methods, acts + [a], m) {
      if m in s.out { StillMeans(methods, acts, a, m); }
    }
  }

  /** Replies, calls and registrations concern no request. */
  lemma OtherKeepsInv(methods: map<string, Kind>, acts: seq<Action>, s: State, a: Action)
    requires AnswersInv(methods, acts, s) && Enabled(s, a) && !a.Finish? && (a.Inbound? ==> a.p.target.None?)
    ensures AnswersInv(methods, acts + [a], Step(methods, s, a))
  {
    HistoryGrows(acts, a);
    forall k: nat | k < |s.requests| ensures Recorded(methods, acts + [a], s.requests[k], k) {
      StillRecorded(methods, acts, a, s.requests[k], k);
    }
    forall m <- s.out ensures m.request < |Asked(acts + [a])| && Means(methods, acts + [a], m) {
      StillMeans(methods, acts, a, m);
    }
  }

  lemma {:induction false} AnswersInvHolds(methods: map<string, Kind>, acts: seq<Action>)
    requires Exec(methods, acts).Some?
    ensures AnswersInv(methods, acts, Exec(methods, acts).value)
    decreases |acts|
  {
    if acts != [] {
      var before, a := acts[..|acts|-1], acts[|acts|-1];
      var s := Exec(methods, before).value;
      AnswersInvHolds(methods, before);
      RequestInvHolds(methods, before);
      assert acts == before + [a];
      if a.Inbound? && a.p.target.Some? {
        AskedKeepsInv(methods, before, s, a);
      } else if a.Finish? {
        FinishedKeepsInv(methods, before, s, a);
      } else {
        OtherKeepsInv(methods, before, s, a);
      }
    }
  }

  /** In every run, for every request `k` with an id whose method is registered: once its handler has
      ended there is a response, and it is the success with the handler's result, code -1 if the handler
      failed, or code 0 if the parameters could not be decoded; before that there is none. */
  lemma HandlerIsAnswered(methods: map<string, Kind>, acts: seq<Action>, s: State, k: nat)
    requires Exec(methods, acts) == Some(s) && k < |Asked(acts)| && Known(methods, Asked(acts)[k])
    requires Asked(acts)[k].p.id.Some?
    ensures (exists m <- s.out :: m.request == k) <==> Ended(methods, acts, k).Some?
    ensures forall m <- s.out | m.request == k ::
              m.response.id == Asked(acts)[k].p.id.value && Says(m.response, Ended(methods, acts, k).value)
  {
    AnswersInvHolds(methods, acts);
    RequestInvHolds(methods, acts);
    assert Recorded(methods, acts, s.requests[k], k);
    if Ended(methods, acts, k).Some? {
      CountedIsThere(s.out, k);
    }
  }

  /** A request with an id for a method that is not registered gets code -1, at once. */
  lemma UnknownIsRefused(methods: map<string, Kind>, acts: seq<Action>, s: State, k: nat)
    requires Exec(methods, acts) == Some(s) && k < |Asked(acts)| && !Known(methods, Asked(acts)[k])
    requires Asked(acts)[k].p.id.Some?
    ensures exists m <- s.out :: m.request == k
    ensures forall m <- s.out | m.request == k :: m.response == Error(Asked(acts)[k].p.id.value, -1)
  {
    AnswersInvHolds(methods, acts);
    RequestInvHolds(methods, acts);
    assert Recorded(methods, acts, s.requests[k], k);
    CountedIsThere(s.out, k);
  }

  // ---------------------------------------------------------------------------------------------
  // What the kinds of methods mean for the loop
  // ---------------------------------------------------------------------------------------------

  predicate Calls(methods: map<string, Kind>, m: Message, kind: Kind) {
    m.p.target.Some? && m.p.target.value in methods && methods[m.p.target.value] == kind
  }

  /** A call to a duplex method whose parameters can be decoded. */
  predicate OpensStreams(methods: map<string, Kind>, m: Message) {
    Calls(methods, m, Kind.Duplex) && !m.outcome.Undecodable?
  }

  /** A request with an id that is refused. */
  predicate IsRefused(methods: map<string, Kind>, m: Message) {
    m.p.id.Some? && m.p.target.Some? && m.p.target.value !in methods
  }

  predicate SendsAtOnce(methods: map<string, Kind>, m: Message) {
    SyncRequest(methods, m) || IsRefused(methods, m) || OpensStreams(methods, m)
  }

  function AtOnce(methods: map<string, Kind>, batch: seq<Message>): nat {
    if batch == [] then 0 else (if SendsAtOnce(methods, batch[0]) then 1 else 0) + AtOnce(methods, batch[1..])
  }

  lemma {:induction false} WaitsAtOnce(methods: map<string, Kind>, batch: seq<Message>)
    ensures Waits(methods, batch) == AtOnce(methods, batch)
    ensures NoPanic(methods, batch) <==> forall m <- batch :: m.p.target.Some? || m.p.id.Some?
  {
    if batch != [] {
      WaitsAtOnce(methods, batch[1..]);
      assert forall m <- batch :: m == batch[0] || m in batch[1..];
    }
  }

  /** Any messages read at once, of any kinds: the loop gets through them if and only if no reply lacks
      its id, and there are free slots for the requests with an id that are synchronous or refused and
      the duplex calls whose parameters can be decoded. Nothing else waits. */
  lemma MixedBatchIff(methods: map<string, Kind>, l: Loop)
    requires l.used <= CAPACITY
    ensures (exists acts :: Finishes(methods, l, acts)) <==>
              (forall m <- l.batch :: m.p.target.Some? || m.p.id.Some?) && l.used + AtOnce(methods, l.batch) <= CAPACITY
  {
    WaitsAtOnce(methods, l.batch);
    BatchCompletesIff(methods, l);
  }

  lemma {:induction false} AllAtOnce(methods: map<string, Kind>, batch: seq<Message>)
    requires forall m <- batch :: OpensStreams(methods, m)
    ensures AtOnce(methods, batch) == |batch|
  {
    if batch != [] {
      assert OpensStreams(methods, batch[0]);
      AllAtOnce(methods, batch[1..]);
    }
  }

  /** Duplex calls announce their streams at once, also without an id: the loop gets through them if and
      only if there are no more of them than free slots. */
  lemma DuplexCallsIff(methods: map<string, Kind>, l: Loop)
    requires l.used <= CAPACITY && forall m <- l.batch :: OpensStreams(methods, m)
    ensures (exists acts :: Finishes(methods, l, acts)) <==> l.used + |l.batch| <= CAPACITY
  {
    forall m <- l.batch ensures m.p.target.Some? { assert OpensStreams(methods, m); }
    AllAtOnce(methods, l.batch);
    MixedBatchIff(methods, l);
  }

  lemma {:induction false} NoneAtOnce(methods: map<string, Kind>, batch: seq<Message>)
    requires forall m <- batch :: Calls(methods, m, Async)
    ensures AtOnce(methods, batch) == 0
  {
    if batch != [] {
      assert Calls(methods, batch[0], Async);
      NoneAtOnce(methods, batch[1..]);
    }
  }

  /** Any number of asynchronous requests pass. */
  lemma AsyncRequestsPass(methods: map<string, Kind>, l: Loop)
    requires l.used <= CAPACITY && forall m <- l.batch :: Calls(methods, m, Async)
    ensures exists acts :: Finishes(methods, l, acts)
  {
    forall m <- l.batch ensures m.p.target.Some? { assert Calls(methods, m, Async); }
    NoneAtOnce(methods, l.batch);
    MixedBatchIff(methods, l);
  }

  /** Eight synchronous requests still fit an empty channel. */
  lemma EightRequestsPass(methods: map<string, Kind>, batch: seq<Message>)
    requires |batch| == 8 && forall m <- batch :: SyncRequest(methods, m)
    ensures exists acts :: Finishes(methods, Loop(0, batch), acts)
  {
    SyncRequestsIff(methods, Loop(0, batch));
  }
}
