/** The stream table of `cli/src/rpc.rs`: every stream has a queue, an optional write half and an
    `ended` flag behind one mutex, and a write loop takes the write half out to drain the queue.
    First the lock regions as functions on the record they touch, then every interleaving of them
    as a state machine. */
module StreamMux {
  import opened Common

  // ---------------------------------------------------------------------------------------------
  // The lock regions, on the record found under the stream's id
  // ---------------------------------------------------------------------------------------------

  /** One record of the table; `W` identifies a write half. */
  datatype StreamRec<+W> = StreamRec(write: Option<W>, q: seq<seq<byte>>, ended: bool)

  type Slot<+W> = Option<StreamRec<W>>

  function InsertRec<W>(w: W): Slot<W> {
    Some(StreamRec(Some(w), [], false))
  }

  /** `Streams.write`: the new record, and the write half handed to a new write loop, if any. */
  function WriteRec<W>(r: Slot<W>, buf: seq<byte>): (Slot<W>, Option<W>) {
    match r
    case None => (None, None)
    case Some(s) => (Some(StreamRec(None, s.q + [buf], s.ended)), s.write)
  }

  /** `Streams.remove`: the new record, and the write half its caller shuts down, if any. */
  function RemoveRec<W>(r: Slot<W>): (Slot<W>, Option<W>) {
    match r
    case None => (None, None)
    case Some(s) => if s.write.Some? then (None, s.write) else (Some(s.(ended := true)), None)
  }

  /** What a write loop learns under the lock. */
  datatype Turn = Missing | Finished | Parked | Batch(items: seq<seq<byte>>)

  function TurnRec<W>(r: Slot<W>, w: W): (Slot<W>, Turn) {
    match r
    case None => (None, Missing)
    case Some(s) =>
      if s.q != [] then (Some(s.(q := [])), Batch(s.q))
      else if s.ended then (None, Finished)
      else (Some(s.(write := Some(w))), Parked)
  }

  // ---------------------------------------------------------------------------------------------
  // One stream id: a step per lock region, per byte written and per shutdown
  // ---------------------------------------------------------------------------------------------

  type Handle = nat

  /** A spawned write loop with the items it has not written yet (none: it is about to take the
      lock), or a task that is about to shut its write half down. */
  datatype Task =
    | WriteLoop(h: Handle, items: seq<seq<byte>>)
    | Closer(h: Handle)

  /** The other end of a write half: what arrived, whether writing fails from now on, and how often
      the half was shut down. */
  datatype Pipe = Pipe(delivered: seq<byte>, broken: bool, shutdowns: nat)

  /** Everything in the process that carries one stream id, with the bytes `write` accepted and
      whether `remove` found the record since the last insertion. */
  datatype Stream = Stream(
    rec: Slot<Handle>,
    tasks: seq<Task>,
    pipes: map<Handle, Pipe>,
    accepted: seq<byte>,
    removed: bool)

  const ABSENT := Stream(None, [], map[], [], false)

  /** `k` is the position of the task that takes the step. */
  datatype Action =
    | Insert(h: Handle)
    | Write(buf: seq<byte>)
    | Remove
    | Lock(k: nat)
    | PutByte(k: nat)
    | NextItem(k: nat)
    | Fail(k: nat)
    | Shutdown(k: nat)

  /** The steps that the spawned tasks take by themselves. */
  predicate Internal(a: Action) {
    !a.Insert? && !a.Write? && !a.Remove?
  }

  predicate IsLoop(s: Stream, k: nat) {
    k < |s.tasks| && s.tasks[k].WriteLoop? && s.tasks[k].h in s.pipes
  }

  predicate AtItem(s: Stream, k: nat) {
    IsLoop(s, k) && s.tasks[k].items != []
  }

  predicate Enabled(s: Stream, a: Action) {
    match a
    case Insert(h) => h !in s.pipes
    case Write(_) => true
    case Remove => true
    case Lock(k) => IsLoop(s, k) && s.tasks[k].items == []
    case PutByte(k) => AtItem(s, k) && s.tasks[k].items[0] != [] && !s.pipes[s.tasks[k].h].broken
    case NextItem(k) => AtItem(s, k) && s.tasks[k].items[0] == []
    case Fail(k) => AtItem(s, k) && s.tasks[k].items[0] != []
    case Shutdown(k) => k < |s.tasks| && s.tasks[k].Closer? && s.tasks[k].h in s.pipes
  }

  function InsertStep(s: Stream, h: Handle): Stream {
    s.(rec := InsertRec(h), pipes := s.pipes[h := Pipe([], false, 0)], accepted := [], removed := false)
  }

  function WriteStep(s: Stream, buf: seq<byte>): Stream {
    var (rec, spawned) := WriteRec(s.rec, buf);
    var accepted := if s.rec.Some? then s.accepted + buf else s.accepted;
    s.(rec := rec, accepted := accepted,
       tasks := if spawned.Some? then s.tasks + [WriteLoop(spawned.value, [])] else s.tasks)
  }

  function RemoveStep(s: Stream): Stream {
    var (rec, taken) := RemoveRec(s.rec);
    s.(rec := rec, removed := s.removed || s.rec.Some?,
       tasks := if taken.Some? then s.tasks + [Closer(taken.value)] else s.tasks)
  }

  function WithoutTask(tasks: seq<Task>, k: nat): seq<Task>
    requires k < |tasks|
  {
    tasks[..k] + tasks[k+1..]
  }

  function LockStep(s: Stream, k: nat): Stream
    requires Enabled(s, Lock(k))
  {
    var h := s.tasks[k].h;
    var (rec, turn) := TurnRec(s.rec, h);
    s.(rec := rec,
       tasks := match turn
         case Batch(items) => s.tasks[k := WriteLoop(h, items)]
         case Parked => WithoutTask(s.tasks, k)
         case Finished => s.tasks[k := Closer(h)]
         case Missing => s.tasks[k := Closer(h)])
  }

  /** A write loop's progress that touches only its own items and pipe. */
  function LoopStep(s: Stream, k: nat, items: seq<seq<byte>>, p: Pipe): Stream
    requires IsLoop(s, k)
  {
    s.(tasks := s.tasks[k := WriteLoop(s.tasks[k].h, items)], pipes := s.pipes[s.tasks[k].h := p])
  }

  function ShutdownStep(s: Stream, k: nat): Stream
    requires Enabled(s, Shutdown(k))
  {
    var h := s.tasks[k].h;
    var p := s.pipes[h];
    s.(tasks := WithoutTask(s.tasks, k), pipes := s.pipes[h := p.(shutdowns := p.shutdowns + 1)])
  }

  function Step(s: Stream, a: Action): Stream
    requires Enabled(s, a)
  {
    match a
    case Insert(h) => InsertStep(s, h)
    case Write(buf) => WriteStep(s, buf)
    case Remove => RemoveStep(s)
    case Lock(k) => LockStep(s, k)
    case PutByte(k) =>
      var items, p := s.tasks[k].items, s.pipes[s.tasks[k].h];
      LoopStep(s, k, [items[0][1..]] + items[1..], p.(delivered := p.delivered + [items[0][0]]))
    case NextItem(k) => LoopStep(s, k, s.tasks[k].items[1..], s.pipes[s.tasks[k].h])
    case Fail(k) => LoopStep(s, k, [], s.pipes[s.tasks[k].h].(broken := true))
    case Shutdown(k) => ShutdownStep(s, k)
  }

  /** Ids come from one counter, so a stream id is inserted at most once. */
  predicate Fresh(s: Stream, a: Action) {
    a.Insert? ==> s.pipes == map[]
  }

  ghost predicate Run(s0: Stream, acts: seq<Action>, s1: Stream)
    decreases |acts|
  {
    if acts == [] then s0 == s1
    else Enabled(s0, acts[0]) && Fresh(s0, acts[0]) && Run(Step(s0, acts[0]), acts[1..], s1)
  }

  // ---------------------------------------------------------------------------------------------
  // The invariant of every reachable state
  // ---------------------------------------------------------------------------------------------

  /** Items a write loop still holds. */
  function Unsent(s: Stream): seq<byte> {
    if s.tasks != [] && s.tasks[0].WriteLoop? then Flatten(s.tasks[0].items) else []
  }

  function Queued(s: Stream): seq<byte> {
    if s.rec.Some? then Flatten(s.rec.value.q) else []
  }

  /** Inserted, with `h` its one write half. */
  ghost predicate LiveInv(s: Stream, h: Handle) {
    && s.pipes.Keys == {h}
    && s.pipes[h].delivered <= s.accepted
    && (!s.pipes[h].broken ==> s.pipes[h].delivered + (Unsent(s) + Queued(s)) == s.accepted)
    && if s.tasks == [] then
         if s.rec.Some? then s.rec == InsertRec(h) && s.pipes[h].shutdowns == 0 && !s.removed
         else s.pipes[h].shutdowns == 1 && s.removed
       else
         && |s.tasks| == 1 && s.tasks[0].h == h && s.pipes[h].shutdowns == 0
         && if s.tasks[0].WriteLoop? then s.rec.Some? && s.rec.value.write == None && s.rec.value.ended == s.removed
            else s.rec == None && s.removed
  }

  ghost predicate Inv(s: Stream) {
    s == ABSENT || exists h :: LiveInv(s, h)
  }

  lemma PutByteFlatten(items: seq<seq<byte>>)
    requires items != [] && items[0] != []
    ensures [items[0][0]] + Flatten([items[0][1..]] + items[1..]) == Flatten(items)
  {
  }

  lemma WriteKeepsInv(s: Stream, h: Handle, buf: seq<byte>)
    requires LiveInv(s, h)
    ensures LiveInv(WriteStep(s, buf), h)
  {
    if s.rec.Some? {
      var q, d := s.rec.value.q, s.pipes[h].delivered;
      FlattenPush(q, buf);
      assert d + (Unsent(s) + (Flatten(q) + buf)) == (d + (Unsent(s) + Flatten(q))) + buf;
    }
  }

  lemma RemoveKeepsInv(s: Stream, h: Handle)
    requires LiveInv(s, h)
    ensures LiveInv(RemoveStep(s), h)
  {}

  lemma LockKeepsInv(s: Stream, h: Handle, k: nat)
    requires LiveInv(s, h) && Enabled(s, Lock(k))
    ensures LiveInv(LockStep(s, k), h)
  {}

  lemma LoopStepKeepsInv(s: Stream, h: Handle, items: seq<seq<byte>>, p: Pipe)
    requires LiveInv(s, h) && IsLoop(s, 0) && p.shutdowns == 0
    requires s.pipes[h].broken ==> p.broken
    requires p.delivered <= s.accepted
    requires !p.broken ==> p.delivered + Flatten(items) == s.pipes[h].delivered + Flatten(s.tasks[0].items)
    ensures LiveInv(LoopStep(s, 0, items, p), h)
  {
    var q, before := Queued(s), s.pipes[h];
    assert p.delivered + (Flatten(items) + q) == (p.delivered + Flatten(items)) + q;
    assert before.delivered + (Flatten(s.tasks[0].items) + q) == (before.delivered + Flatten(s.tasks[0].items)) + q;
  }

  lemma MoveByte(d: seq<byte>, b: byte, held: seq<byte>, queued: seq<byte>)
    ensures (d + [b]) + held == d + ([b] + held) && d + [b] <= d + (([b] + held) + queued)
  {
    assert d + (([b] + held) + queued) == (d + [b]) + (held + queued);
  }

  /** The next byte of the held items is the next byte of what `write` accepted. */
  lemma PutByteKeepsInv(s: Stream, h: Handle)
    requires LiveInv(s, h) && Enabled(s, PutByte(0))
    ensures LiveInv(Step(s, PutByte(0)), h)
  {
    var items, p := s.tasks[0].items, s.pipes[h];
    var left := [items[0][1..]] + items[1..];
    PutByteFlatten(items);
    MoveByte(p.delivered, items[0][0], Flatten(left), Queued(s));
    assert p.delivered + (Flatten(items) + Queued(s)) == s.accepted;
    LoopStepKeepsInv(s, h, left, p.(delivered := p.delivered + [items[0][0]]));
  }

  lemma ShutdownKeepsInv(s: Stream, h: Handle, k: nat)
    requires LiveInv(s, h) && Enabled(s, Shutdown(k))
    ensures LiveInv(ShutdownStep(s, k), h)
  {}

  lemma LiveStepKeepsInv(s: Stream, h: Handle, a: Action)
    requires LiveInv(s, h) && Enabled(s, a) && !a.Insert?
    ensures LiveInv(Step(s, a), h)
  {
    match a
    case Write(buf) => WriteKeepsInv(s, h, buf);
    case Remove => RemoveKeepsInv(s, h);
    case Lock(k) => LockKeepsInv(s, h, k);
    case PutByte(k) => PutByteKeepsInv(s, h);
    case NextItem(k) => LoopStepKeepsInv(s, h, s.tasks[0].items[1..], s.pipes[h]);
    case Fail(k) => LoopStepKeepsInv(s, h, [], s.pipes[h].(broken := true));
    case Shutdown(k) => ShutdownKeepsInv(s, h, k);
  }

  lemma StepKeepsInv(s: Stream, a: Action)
    requires Inv(s) && Enabled(s, a) && Fresh(s, a)
    ensures Inv(Step(s, a))
  {
    if s != ABSENT {
      var h :| LiveInv(s, h);
      LiveStepKeepsInv(s, h, a);
    } else if a.Insert? {
      assert LiveInv(Step(s, a), a.h);
    }
  }

  lemma {:induction false} RunKeepsInv(s0: Stream, acts: seq<Action>, s1: Stream)
    requires Inv(s0) && Run(s0, acts, s1)
    ensures Inv(s1)
    decreases |acts|
  {
    if acts != [] {
      StepKeepsInv(s0, acts[0]);
      RunKeepsInv(Step(s0, acts[0]), acts[1..], s1);
    }
  }

  // ---------------------------------------------------------------------------------------------
  // What every run delivers
  // ---------------------------------------------------------------------------------------------

  /** The buffers that the `write` calls of a run put in a record's queue, in order. */
  function AcceptedWrites(s: Stream, acts: seq<Action>): seq<seq<byte>>
    decreases |acts|
  {
    if acts == [] || !Enabled(s, acts[0]) then []
    else (if acts[0].Write? && s.rec.Some? then [acts[0].buf] else []) + AcceptedWrites(Step(s, acts[0]), acts[1..])
  }

  lemma StepAccepts(s: Stream, a: Action)
    requires Inv(s) && Enabled(s, a) && Fresh(s, a)
    ensures Step(s, a).accepted == s.accepted + (if a.Write? && s.rec.Some? then a.buf else [])
  {}

  lemma {:induction false} AcceptedIsWrites(s0: Stream, acts: seq<Action>, s1: Stream)
    requires Inv(s0) && Run(s0, acts, s1)
    ensures s1.accepted == s0.accepted + Flatten(AcceptedWrites(s0, acts))
    decreases |acts|
  {
    if acts != [] {
      var s := Step(s0, acts[0]);
      StepKeepsInv(s0, acts[0]);
      StepAccepts(s0, acts[0]);
      AcceptedIsWrites(s, acts[1..], s1);
      AcceptedFirst(s0.accepted, acts[0], s0.rec.Some?, AcceptedWrites(s, acts[1..]));
    }
  }

  lemma AcceptedFirst(accepted: seq<byte>, a: Action, found: bool, rest: seq<seq<byte>>)
    ensures (accepted + if a.Write? && found then a.buf else []) + Flatten(rest)
            == accepted + Flatten((if a.Write? && found then [a.buf] else []) + rest)
  {
    if a.Write? && found {
      assert ([a.buf] + rest)[1..] == rest;
      assert (accepted + a.buf) + Flatten(rest) == accepted + (a.buf + Flatten(rest));
    } else {
      assert [] + rest == rest && accepted + [] == accepted;
    }
  }

  /** Every interleaving: what arrived, what a write loop holds and what is queued are, in this
      order, exactly the bytes `write` accepted. A writer that fails for good has still delivered a
      prefix of them, and a half that was shut down without failing has delivered all of them. */
  lemma StreamsRefineFifo(acts: seq<Action>, s: Stream, h: Handle)
    requires Run(ABSENT, acts, s) && h in s.pipes
    ensures s.pipes[h].delivered <= Flatten(AcceptedWrites(ABSENT, acts))
    ensures !s.pipes[h].broken ==>
              s.pipes[h].delivered + (Unsent(s) + Queued(s)) == Flatten(AcceptedWrites(ABSENT, acts))
    ensures s.pipes[h].shutdowns > 0 ==> s.removed
    ensures s.pipes[h].shutdowns > 0 && !s.pipes[h].broken ==>
              s.pipes[h].delivered == Flatten(AcceptedWrites(ABSENT, acts))
  {
    RunKeepsInv(ABSENT, acts, s);
    AcceptedIsWrites(ABSENT, acts, s);
    var h' :| LiveInv(s, h');
  }

  /** How many places hold the write half `h`: the record, the tasks, and past shutdowns. */
  function Recorded(s: Stream, h: Handle): nat {
    if s.rec.Some? && s.rec.value.write == Some(h) then 1 else 0
  }

  function Holders(tasks: seq<Task>, h: Handle): nat {
    if tasks == [] then 0 else (if tasks[0].h == h then 1 else 0) + Holders(tasks[1..], h)
  }

  function Loops(tasks: seq<Task>): nat {
    if tasks == [] then 0 else (if tasks[0].WriteLoop? then 1 else 0) + Loops(tasks[1..])
  }

  /** A write half is never duplicated and never lost: it is in the record, or with one task, or
      it was shut down once. An idle half means nothing is queued and the stream has not ended;
      queued data or an ended stream means exactly one write loop is running. */
  lemma WriterOwnership(acts: seq<Action>, s: Stream, h: Handle)
    requires Run(ABSENT, acts, s) && h in s.pipes
    ensures Recorded(s, h) + Holders(s.tasks, h) + s.pipes[h].shutdowns == 1
    ensures s.rec.Some? && s.rec.value.write.Some? ==>
      s.rec.value == StreamRec(Some(h), [], false) && Loops(s.tasks) == 0
    ensures s.rec.Some? && (s.rec.value.q != [] || s.rec.value.ended) ==> Loops(s.tasks) == 1
  {
    RunKeepsInv(ABSENT, acts, s);
    var h' :| LiveInv(s, h');
    assert s.tasks != [] ==> s.tasks[1..] == [];
  }

  /** A write loop that takes the lock always finds its record. */
  lemma RecordNeverMissing(acts: seq<Action>, s: Stream, k: nat)
    requires Run(ABSENT, acts, s) && Enabled(s, Lock(k))
    ensures TurnRec(s.rec, s.tasks[k].h).1 != Missing
  {
    RunKeepsInv(ABSENT, acts, s);
    var h :| LiveInv(s, h);
  }

  // ---------------------------------------------------------------------------------------------
  // The spawned tasks come to rest, and then everything has been delivered
  // ---------------------------------------------------------------------------------------------

  function Weight(items: seq<seq<byte>>): nat {
    if items == [] then 0 else |items[0]| + 1 + Weight(items[1..])
  }

  /** Bounds the steps the spawned tasks can still take before the next call from outside. */
  function Rank(s: Stream): nat {
    if s.tasks == [] then 0
    else if s.tasks[0].Closer? then 1
    else 2 + Weight(s.tasks[0].items) + if s.rec.Some? then Weight(s.rec.value.q) + |s.rec.value.q| else 0
  }

  /** Some task can always take a step, and a failing write only if its writer is broken; and every such
      step brings the stream closer to rest. */
  lemma InternalProgress(s: Stream, a: Action)
    requires Inv(s)
    ensures s.tasks != [] ==>
              exists b :: Internal(b) && Enabled(s, b) && (b.Fail? ==> s.pipes[s.tasks[b.k].h].broken)
    ensures Internal(a) && Enabled(s, a) ==> Rank(Step(s, a)) < Rank(s)
  {
    if s.tasks != [] {
      var h :| LiveInv(s, h);
      var t := s.tasks[0];
      var b := if t.Closer? then Shutdown(0) else if t.items == [] then Lock(0)
               else if t.items[0] == [] then NextItem(0) else if s.pipes[h].broken then Fail(0) else PutByte(0);
      assert Internal(b) && Enabled(s, b);
    }
    if Internal(a) && Enabled(s, a) {
      var h :| LiveInv(s, h);
      RankDecreases(s, h, a);
    }
  }

  lemma RankDecreases(s: Stream, h: Handle, a: Action)
    requires LiveInv(s, h) && Internal(a) && Enabled(s, a)
    ensures Rank(Step(s, a)) < Rank(s)
  {
  }

  /** No run of internal steps is longer than the rank it starts with. */
  lemma {:induction false} InternalRunsAreBounded(s0: Stream, acts: seq<Action>, s1: Stream)
    requires Inv(s0) && Run(s0, acts, s1) && (forall a <- acts :: Internal(a))
    ensures |acts| + Rank(s1) <= Rank(s0)
    decreases |acts|
  {
    if acts != [] {
      InternalProgress(s0, acts[0]);
      StepKeepsInv(s0, acts[0]);
      InternalRunsAreBounded(Step(s0, acts[0]), acts[1..], s1);
    }
  }

  /** Once no task can move, a writer that never failed has delivered everything accepted, and a
      removed stream has been shut down exactly once. */
  lemma RestMeansDelivered(acts: seq<Action>, s: Stream, h: Handle)
    requires Run(ABSENT, acts, s) && h in s.pipes
    requires forall a :: Internal(a) ==> !Enabled(s, a)
    ensures !s.pipes[h].broken ==> s.pipes[h].delivered == Flatten(AcceptedWrites(ABSENT, acts))
    ensures s.pipes[h].shutdowns == if s.removed then 1 else 0
  {
    StreamsRefineFifo(acts, s, h);
    RunKeepsInv(ABSENT, acts, s);
    InternalProgress(s, Lock(0));
    var h' :| LiveInv(s, h');
  }

  // ---------------------------------------------------------------------------------------------
  // Why the ids must be fresh
  // ---------------------------------------------------------------------------------------------

  /** Inserting twice under one id while a write loop is running: the loop puts its own half back
      over the new one, which is then held nowhere and never shut down. */
  lemma ReusedIdLosesWriter() returns (s: Stream)
    ensures Enabled(ABSENT, Insert(0))
    ensures var s1 := Step(ABSENT, Insert(0));
            var s2 := Step(s1, Write([7]));
            Enabled(s2, Insert(1)) && !Fresh(s2, Insert(1))
            && var s3 := Step(s2, Insert(1));
               Enabled(s3, Lock(0)) && s == Step(s3, Lock(0))
    ensures 1 in s.pipes && Recorded(s, 1) + Holders(s.tasks, 1) + s.pipes[1].shutdowns == 0
  {
    var s1 := Step(ABSENT, Insert(0));
    var s2 := Step(s1, Write([7]));
    assert s2.tasks == [WriteLoop(0, [])];
    var s3 := Step(s2, Insert(1));
    s := Step(s3, Lock(0));
  }
}
