/** A duplex call of `cli/src/rpc.rs` from end to end: the task that registers the call's streams,
    one reading task per stream, the response, the ordered channel they all send on, and a receiver
    that handles data frames at once but end frames in a task of their own. */
module Duplex {
  import opened Common
  import opened StreamMux

  type StreamId = nat

  const READ_SIZE := 4096

  datatype Frame =
    | Started(ids: seq<StreamId>)
    | Data(id: StreamId, segment: seq<byte>)
    | Ended(id: StreamId)
    | Response

  predicate About(f: Frame, id: StreamId) {
    (f.Data? || f.Ended?) && f.id == id
  }

  /** The segments of one stream, concatenated in the order of the frames. */
  function DataOf(frames: seq<Frame>, id: StreamId): seq<byte> {
    if frames == [] then []
    else
      var last := frames[|frames|-1];
      DataOf(frames[..|frames|-1], id) + if last.Data? && last.id == id then last.segment else []
  }

  // ---------------------------------------------------------------------------------------------
  // The sending side
  // ---------------------------------------------------------------------------------------------

  /** A reading task: what it does next, and all bytes it has read so far. */
  datatype Doing = Reading | Holding(segment: seq<byte>) | AtEnd | Done | Quit
  datatype Reader = Reader(doing: Doing, got: seq<byte>)

  datatype Phase = Opening | Registering | Waiting | Answered

  /** `readers[i]` reads the stream `ids[i]`; `frames` is all that was ever accepted by the channel;
      once the channel is closed every send on it fails. */
  datatype Sender = Sender(
    ids: seq<StreamId>,
    phase: Phase,
    readers: seq<Reader>,
    frames: seq<Frame>,
    closed: bool)

  datatype SendAction =
    | Announce
    | Register
    | SpawnResponse
    | Respond
    | Read(i: nat, segment: seq<byte>)
    | ReadEnd(i: nat)
    | SendSegment(i: nat)
    | SendEnd(i: nat)
    | Close

  predicate Does(s: Sender, i: nat, doing: Doing) {
    i < |s.readers| <= |s.ids| && s.readers[i].doing == doing
  }

  predicate SendEnabled(s: Sender, a: SendAction) {
    match a
    case Announce => s.phase == Opening
    case Register => s.phase == Registering && |s.readers| < |s.ids|
    case SpawnResponse => s.phase == Registering && |s.readers| == |s.ids|
    case Respond => s.phase == Waiting
    case Read(i, segment) => Does(s, i, Reading) && 1 <= |segment| <= READ_SIZE
    case ReadEnd(i) => Does(s, i, Reading)
    case SendSegment(i) => i < |s.readers| <= |s.ids| && s.readers[i].doing.Holding?
    case SendEnd(i) => Does(s, i, AtEnd)
    case Close => true
  }

  function Sent(s: Sender, f: Frame): Sender {
    if s.closed then s else s.(frames := s.frames + [f])
  }

  function Now(s: Sender, i: nat, r: Reader): Sender
    requires i < |s.readers|
  {
    s.(readers := s.readers[i := r])
  }

  function SendStep(s: Sender, a: SendAction): Sender
    requires SendEnabled(s, a)
  {
    match a
    case Announce => Sent(s, Started(s.ids)).(phase := if s.closed then Waiting else Registering)
    case Register => s.(readers := s.readers + [Reader(Reading, [])])
    case SpawnResponse => s.(phase := Waiting)
    case Respond => Sent(s, Response).(phase := Answered)
    case Read(i, segment) => Now(s, i, Reader(Holding(segment), s.readers[i].got + segment))
    case ReadEnd(i) => Now(s, i, s.readers[i].(doing := AtEnd))
    case SendSegment(i) =>
      var r := s.readers[i];
      Now(Sent(s, Data(s.ids[i], r.doing.segment)), i, r.(doing := if s.closed then Quit else Reading))
    case SendEnd(i) => Now(Sent(s, Ended(s.ids[i])), i, s.readers[i].(doing := Done))
    case Close => s.(closed := true)
  }

  /** The frames of one call: the announcement first and only once, segments of allowed length on
      announced streams, nothing about a stream after its end, and at most one response. */
  ghost predicate Conforms(ids: seq<StreamId>, frames: seq<Frame>) {
    && (frames != [] ==> frames[0] == Started(ids))
    && (forall i | 0 <= i < |frames| :: frames[i].Started? <==> i == 0)
    && (forall f <- frames :: f.Data? ==> f.id in ids && 1 <= |f.segment| <= READ_SIZE)
    && (forall f <- frames :: f.Ended? ==> f.id in ids)
    && (forall i, j | 0 <= i < j < |frames| && frames[i].Ended? :: !About(frames[j], frames[i].id))
    && (forall i, j | 0 <= i < j < |frames| :: !(frames[i].Response? && frames[j].Response?))
  }

  ghost predicate ReaderInv(s: Sender, i: nat)
    requires i < |s.readers| <= |s.ids|
  {
    var r := s.readers[i];
    var sent := DataOf(s.frames, s.ids[i]);
    match r.doing
    case Reading => sent == r.got && Ended(s.ids[i]) !in s.frames
    case Holding(segment) => sent + segment == r.got && 1 <= |segment| <= READ_SIZE && Ended(s.ids[i]) !in s.frames
    case AtEnd => sent == r.got && Ended(s.ids[i]) !in s.frames
    case Done => sent == r.got && (s.closed || Ended(s.ids[i]) in s.frames)
    case Quit => s.closed && sent <= r.got && Ended(s.ids[i]) !in s.frames
  }

  ghost predicate SenderInv(s: Sender) {
    && (forall i, j | 0 <= i < j < |s.ids| :: s.ids[i] != s.ids[j])
    && Conforms(s.ids, s.frames)
    && |s.readers| <= |s.ids|
    && (s.readers != [] ==> s.frames != [])
    && (s.phase == Opening ==> s.frames == [])
    && (s.phase == Registering ==> s.frames != [])
    && (s.phase == Waiting && s.frames == [] ==> s.closed)
    && (s.phase != Answered ==> Response !in s.frames)
    && (s.phase == Answered && !s.closed ==> Response in s.frames)
    && (s.phase == Waiting || s.phase == Answered ==> s.closed || |s.readers| == |s.ids|)
    && (forall i | 0 <= i < |s.readers| :: ReaderInv(s, i))
    && (forall i | |s.readers| <= i < |s.ids| :: forall f <- s.frames :: !About(f, s.ids[i]))
  }

  lemma DataOfPush(frames: seq<Frame>, f: Frame, id: StreamId)
    ensures DataOf(frames + [f], id) == DataOf(frames, id) + if f.Data? && f.id == id then f.segment else []
  {
  }

  lemma {:induction false} NoDataOf(frames: seq<Frame>, id: StreamId)
    requires forall f <- frames :: !About(f, id)
    ensures DataOf(frames, id) == []
    decreases |frames|
  {
    if frames != [] {
      assert !About(frames[|frames|-1], id);
      NoDataOf(frames[..|frames|-1], id);
    }
  }

  /** Sending a frame that is not about stream `ids[i]` keeps that stream's reader consistent. */
  lemma OtherFrame(s: Sender, f: Frame, i: nat, s': Sender)
    requires i < |s.readers| <= |s.ids| && ReaderInv(s, i) && !About(f, s.ids[i])
    requires s'.ids == s.ids && i < |s'.readers| <= |s'.ids| && s'.readers[i] == s.readers[i]
    requires s'.frames == s.frames + [f] && s'.closed == s.closed
    ensures ReaderInv(s', i)
  {
  }

  lemma PushConforms(ids: seq<StreamId>, frames: seq<Frame>, f: Frame)
    requires Conforms(ids, frames)
    requires f.Started? ==> frames == [] && f == Started(ids)
    requires !f.Started? ==> frames != []
    requires f.Data? || f.Ended? ==> f.id in ids && Ended(f.id) !in frames
    requires f.Data? ==> 1 <= |f.segment| <= READ_SIZE
    requires f.Response? ==> Response !in frames
    ensures Conforms(ids, frames + [f])
  {
  }

  /** A reading task that sends a frame about its own stream. */
  lemma OwnFrameKeepsInv(s: Sender, i: nat, f: Frame, r: Reader)
    requires SenderInv(s) && !s.closed && i < |s.readers|
    requires if f.Data?
             then f.id == s.ids[i] && s.readers[i].doing == Holding(f.segment) && r == s.readers[i].(doing := Reading)
             else f == Ended(s.ids[i]) && s.readers[i].doing == AtEnd && r == s.readers[i].(doing := Done)
    ensures SenderInv(Now(Sent(s, f), i, r))
  {
    assert ReaderInv(s, i);
    var s' := Now(Sent(s, f), i, r);
    PushConforms(s.ids, s.frames, f);
    forall j | 0 <= j < |s'.readers| ensures ReaderInv(s', j) {
      assert ReaderInv(s, j);
      if j != i { OtherFrame(s, f, j, s'); } else { DataOfPush(s.frames, f, s.ids[i]); }
    }
  }

  /** A reading task's step that sends nothing. */
  lemma QuietStepKeepsInv(s: Sender, i: nat, r: Reader)
    requires SenderInv(s) && i < |s.readers| && ReaderInv(Now(s, i, r), i)
    ensures SenderInv(Now(s, i, r))
  {
    var s' := Now(s, i, r);
    forall j | 0 <= j < |s'.readers| ensures ReaderInv(s', j) {
      assert ReaderInv(s, j);
    }
  }

  /** A frame that is about no stream. */
  lemma PlainFrameKeepsInv(s: Sender, a: SendAction)
    requires SenderInv(s) && SendEnabled(s, a) && (a.Announce? || a.Respond?)
    ensures SenderInv(SendStep(s, a))
  {
    var s' := SendStep(s, a);
    if !s.closed {
      var f := if a.Announce? then Started(s.ids) else Response;
      PushConforms(s.ids, s.frames, f);
      forall j | 0 <= j < |s'.readers| ensures ReaderInv(s', j) { OtherFrame(s, f, j, s'); }
    } else {
      forall j | 0 <= j < |s'.readers| ensures ReaderInv(s', j) { assert ReaderInv(s, j); }
    }
  }

  lemma RegisterKeepsInv(s: Sender)
    requires SenderInv(s) && SendEnabled(s, Register)
    ensures SenderInv(SendStep(s, Register))
  {
    var s' := SendStep(s, Register);
    NoDataOf(s.frames, s.ids[|s.readers|]);
    forall j | 0 <= j < |s'.readers| ensures ReaderInv(s', j) {
      if j < |s.readers| { assert ReaderInv(s, j); }
    }
  }

  /** A step that neither sends nor concerns one reader. */
  lemma SilentStepKeepsInv(s: Sender, a: SendAction)
    requires SenderInv(s) && SendEnabled(s, a) && (a.SpawnResponse? || a.Close?)
    ensures SenderInv(SendStep(s, a))
  {
    var s' := SendStep(s, a);
    forall j | 0 <= j < |s'.readers| ensures ReaderInv(s', j) { assert ReaderInv(s, j); }
  }

  lemma SegmentKeepsInv(s: Sender, i: nat)
    requires SenderInv(s) && SendEnabled(s, SendSegment(i))
    ensures SenderInv(SendStep(s, SendSegment(i)))
  {
    assert ReaderInv(s, i);
    if s.closed {
      QuietStepKeepsInv(s, i, s.readers[i].(doing := Quit));
    } else {
      OwnFrameKeepsInv(s, i, Data(s.ids[i], s.readers[i].doing.segment), s.readers[i].(doing := Reading));
    }
  }

  lemma EndKeepsInv(s: Sender, i: nat)
    requires SenderInv(s) && SendEnabled(s, SendEnd(i))
    ensures SenderInv(SendStep(s, SendEnd(i)))
  {
    assert ReaderInv(s, i);
    if s.closed {
      QuietStepKeepsInv(s, i, s.readers[i].(doing := Done));
    } else {
      OwnFrameKeepsInv(s, i, Ended(s.ids[i]), s.readers[i].(doing := Done));
    }
  }

  lemma SendStepKeepsInv(s: Sender, a: SendAction)
    requires SenderInv(s) && SendEnabled(s, a)
    ensures SenderInv(SendStep(s, a))
  {
    match a
    case Announce => PlainFrameKeepsInv(s, a);
    case Respond => PlainFrameKeepsInv(s, a);
    case Register => RegisterKeepsInv(s);
    case SpawnResponse => SilentStepKeepsInv(s, a);
    case Read(i, segment) =>
      assert ReaderInv(s, i);
      QuietStepKeepsInv(s, i, Reader(Holding(segment), s.readers[i].got + segment));
    case ReadEnd(i) =>
      assert ReaderInv(s, i);
      QuietStepKeepsInv(s, i, s.readers[i].(doing := AtEnd));
    case SendSegment(i) => SegmentKeepsInv(s, i);
    case SendEnd(i) => EndKeepsInv(s, i);
    case Close => SilentStepKeepsInv(s, a);
  }

  // ---------------------------------------------------------------------------------------------
  // Sender, channel and receiver together
  // ---------------------------------------------------------------------------------------------

  /** `next` frames have been received; `ending` are the end handlers spawned but not yet run. */
  datatype Call = Call(s: Sender, streams: map<StreamId, Stream>, next: nat, ending: set<StreamId>)

  function Start(ids: seq<StreamId>): Call {
    Call(Sender(ids, Opening, [], [], false), map[], 0, {})
  }

  datatype CallAction =
    | Send(a: SendAction)
    | Deliver
    | RunEnd(id: StreamId)
    | Work(id: StreamId, act: Action)

  predicate CallEnabled(c: Call, a: CallAction) {
    match a
    case Send(b) => SendEnabled(c.s, b)
    case Deliver => c.next < |c.s.frames|
    case RunEnd(id) => id in c.ending
    case Work(id, act) => id in c.streams && Internal(act) && Enabled(c.streams[id], act)
  }

  /** The receiver handles one frame: end frames only spawn a task. */
  function Received(c: Call, f: Frame): Call {
    match f
    case Started(ids) => c.(streams := c.streams + map id | id in ids :: InsertStep(ABSENT, 0))
    case Data(id, segment) =>
      if id in c.streams then c.(streams := c.streams[id := WriteStep(c.streams[id], segment)]) else c
    case Ended(id) => c.(ending := c.ending + {id})
    case Response => c
  }

  function CallStep(c: Call, a: CallAction): Call
    requires CallEnabled(c, a)
  {
    match a
    case Send(b) => c.(s := SendStep(c.s, b))
    case Deliver => Received(c, c.s.frames[c.next]).(next := c.next + 1)
    case RunEnd(id) =>
      c.(ending := c.ending - {id},
         streams := if id in c.streams then c.streams[id := RemoveStep(c.streams[id])] else c.streams)
    case Work(id, act) => c.(streams := c.streams[id := Step(c.streams[id], act)])
  }

  ghost predicate CallRun(c0: Call, acts: seq<CallAction>, c1: Call)
    decreases |acts|
  {
    if acts == [] then c0 == c1
    else CallEnabled(c0, acts[0]) && CallRun(CallStep(c0, acts[0]), acts[1..], c1)
  }

  ghost predicate StreamInv(frames: seq<Frame>, ending: set<StreamId>, id: StreamId, st: Stream) {
    && LiveInv(st, 0)
    && st.accepted == DataOf(frames, id)
    && (Ended(id) in frames <==> st.removed || id in ending)
    && !(st.removed && id in ending)
  }

  ghost predicate ReceiverInv(frames: seq<Frame>, ending: set<StreamId>, streams: map<StreamId, Stream>) {
    && ending <= streams.Keys
    && (forall id <- streams :: StreamInv(frames, ending, id, streams[id]))
  }

  ghost predicate CallInv(c: Call) {
    && SenderInv(c.s)
    && ReceptionInv(c)
  }

  ghost predicate ReceptionInv(c: Call) {
    && c.next <= |c.s.frames|
    && (c.next == 0 ==> c.streams == map[] && c.ending == {})
    && (c.next > 0 ==> c.streams.Keys == set id | id in c.s.ids)
    && ReceiverInv(c.s.frames[..c.next], c.ending, c.streams)
  }

  /** Receiving a frame that is not about the stream leaves the stream consistent. */
  lemma SkipFrame(frames: seq<Frame>, f: Frame, ending: set<StreamId>, ending': set<StreamId>, id: StreamId, st: Stream)
    requires StreamInv(frames, ending, id, st) && !About(f, id) && (id in ending <==> id in ending')
    ensures StreamInv(frames + [f], ending', id, st)
  {
  }

  lemma DataFrame(frames: seq<Frame>, segment: seq<byte>, ending: set<StreamId>, id: StreamId, st: Stream)
    requires StreamInv(frames, ending, id, st) && Ended(id) !in frames
    ensures StreamInv(frames + [Data(id, segment)], ending, id, WriteStep(st, segment))
  {
    DataOfPush(frames, Data(id, segment), id);
    WriteKeepsInv(st, 0, segment);
  }

  lemma EndFrame(frames: seq<Frame>, ending: set<StreamId>, id: StreamId, st: Stream)
    requires StreamInv(frames, ending, id, st) && Ended(id) !in frames
    ensures StreamInv(frames + [Ended(id)], ending + {id}, id, st)
  {
  }

  lemma EndHandled(frames: seq<Frame>, ending: set<StreamId>, id: StreamId, st: Stream)
    requires StreamInv(frames, ending, id, st) && id in ending
    ensures StreamInv(frames, ending - {id}, id, RemoveStep(st))
  {
  }

  lemma Opened(ids: seq<StreamId>, id: StreamId)
    ensures StreamInv([Started(ids)], {}, id, InsertStep(ABSENT, 0))
  {
  }

  lemma Worked(frames: seq<Frame>, ending: set<StreamId>, id: StreamId, st: Stream, act: Action)
    requires StreamInv(frames, ending, id, st) && Internal(act) && Enabled(st, act)
    ensures StreamInv(frames, ending, id, Step(st, act))
  {
    LiveStepKeepsInv(st, 0, act);
  }

  /** No frame about a stream follows its end frame. */
  lemma NotYetEnded(ids: seq<StreamId>, frames: seq<Frame>, n: nat)
    requires Conforms(ids, frames) && n < |frames| && (frames[n].Data? || frames[n].Ended?)
    ensures Ended(frames[n].id) !in frames[..n] && frames[n].id in ids && n > 0
  {
  }

  lemma DeliverKeepsInv(c: Call, id: StreamId)
    requires Conforms(c.s.ids, c.s.frames) && ReceptionInv(c) && c.next < |c.s.frames|
    requires id in CallStep(c, Deliver).streams
    ensures StreamInv(c.s.frames[..c.next+1], CallStep(c, Deliver).ending, id, CallStep(c, Deliver).streams[id])
  {
    var f, before := c.s.frames[c.next], c.s.frames[..c.next];
    assert c.s.frames[..c.next+1] == before + [f];
    if f.Data? || f.Ended? { NotYetEnded(c.s.ids, c.s.frames, c.next); }
    if id !in c.streams {
      assert c.next == 0 && before == [];
      Opened(c.s.ids, id);
    } else {
      assert c.next > 0 && !f.Started?;
      assert StreamInv(before, c.ending, id, c.streams[id]);
      if !About(f, id) { SkipFrame(before, f, c.ending, CallStep(c, Deliver).ending, id, c.streams[id]); }
      else if f.Data? { DataFrame(before, f.segment, c.ending, id, c.streams[id]); }
      else { EndFrame(before, c.ending, id, c.streams[id]); }
    }
  }

  /** A step on one stream's own state. */
  lemma UpdateStream(frames: seq<Frame>, ending: set<StreamId>, streams: map<StreamId, Stream>, id: StreamId,
                     ending': set<StreamId>, st: Stream)
    requires ReceiverInv(frames, ending, streams) && id in streams
    requires StreamInv(frames, ending', id, st) && ending' - {id} == ending - {id}
    ensures ReceiverInv(frames, ending', streams[id := st])
  {
    assert forall j <- ending' :: j == id || j in ending' - {id};
    forall j <- streams | j != id ensures StreamInv(frames, ending', j, streams[j]) {
      assert StreamInv(frames, ending, j, streams[j]);
      assert j in ending <==> j in ending - {id};
      assert j in ending' <==> j in ending' - {id};
    }
  }

  lemma RunEndKeepsInv(c: Call, id: StreamId)
    requires ReceiverInv(c.s.frames, c.ending, c.streams) && id in c.ending
    ensures ReceiverInv(c.s.frames, CallStep(c, RunEnd(id)).ending, CallStep(c, RunEnd(id)).streams)
  {
    EndHandled(c.s.frames, c.ending, id, c.streams[id]);
    UpdateStream(c.s.frames, c.ending, c.streams, id, c.ending - {id}, RemoveStep(c.streams[id]));
  }

  lemma WorkKeepsInv(c: Call, id: StreamId, act: Action)
    requires ReceiverInv(c.s.frames, c.ending, c.streams) && CallEnabled(c, Work(id, act))
    ensures ReceiverInv(c.s.frames, c.ending, CallStep(c, Work(id, act)).streams)
  {
    Worked(c.s.frames, c.ending, id, c.streams[id], act);
    UpdateStream(c.s.frames, c.ending, c.streams, id, c.ending, Step(c.streams[id], act));
  }

  ghost predicate KeysInv(c: Call) {
    (c.next > 0 ==> c.streams.Keys == set id | id in c.s.ids) && c.ending <= c.streams.Keys
  }

  /** The first frame opens all announced streams. */
  lemma OpeningKeepsKeys(c: Call)
    requires c.next == 0 && c.streams == map[] && c.ending == {} && |c.s.frames| > 0 &&
      c.s.frames[0] == Started(c.s.ids)
    ensures KeysInv(CallStep(c, Deliver))
  {
  }

  lemma LaterFrameKeepsKeys(c: Call)
    requires KeysInv(c) && 0 < c.next < |c.s.frames|
    requires var f := c.s.frames[c.next]; !f.Started? && (f.Data? || f.Ended? ==> f.id in c.s.ids)
    ensures KeysInv(CallStep(c, Deliver))
  {
  }

  lemma DeliverKeepsKeys(c: Call)
    requires Conforms(c.s.ids, c.s.frames) && CallEnabled(c, Deliver) && KeysInv(c)
    requires c.next == 0 ==> c.streams == map[] && c.ending == {}
    ensures KeysInv(CallStep(c, Deliver))
  {
    if c.next == 0 {
      OpeningKeepsKeys(c);
    } else {
      var f := c.s.frames[c.next];
      if f.Data? || f.Ended? { NotYetEnded(c.s.ids, c.s.frames, c.next); }
      LaterFrameKeepsKeys(c);
    }
  }

  lemma DeliverKeepsRest(c: Call)
    requires CallEnabled(c, Deliver)
    ensures CallStep(c, Deliver).s == c.s && CallStep(c, Deliver).next == c.next + 1
  {
  }

  lemma ReceptionKeepsInv(c: Call)
    requires Conforms(c.s.ids, c.s.frames) && ReceptionInv(c) && CallEnabled(c, Deliver)
    ensures ReceptionInv(CallStep(c, Deliver)) && CallStep(c, Deliver).s == c.s
  {
    DeliverKeepsKeys(c);
    DeliverKeepsRest(c);
    var c' := CallStep(c, Deliver);
    forall id <- c'.streams ensures StreamInv(c'.s.frames[..c'.next], c'.ending, id, c'.streams[id]) {
      DeliverKeepsInv(c, id);
    }
  }

  lemma SendCallKeepsInv(c: Call, b: SendAction)
    requires CallInv(c) && CallEnabled(c, Send(b))
    ensures CallInv(CallStep(c, Send(b)))
  {
    SendStepKeepsInv(c.s, b);
    assert CallStep(c, Send(b)).s.frames[..c.next] == c.s.frames[..c.next];
  }

  lemma CallStepKeepsInv(c: Call, a: CallAction)
    requires CallInv(c) && CallEnabled(c, a)
    ensures CallInv(CallStep(c, a))
  {
    var received := c.(s := c.s.(frames := c.s.frames[..c.next]));
    match a
    case Send(b) => SendCallKeepsInv(c, b);
    case Deliver => ReceptionKeepsInv(c);
    case RunEnd(id) => RunEndKeepsInv(received, id);
    case Work(id, act) => WorkKeepsInv(received, id, act);
  }

  lemma {:induction false} CallRunKeepsInv(c0: Call, acts: seq<CallAction>, c1: Call)
    requires CallInv(c0) && CallRun(c0, acts, c1)
    ensures CallInv(c1)
    decreases |acts|
  {
    if acts != [] {
      CallStepKeepsInv(c0, acts[0]);
      CallRunKeepsInv(CallStep(c0, acts[0]), acts[1..], c1);
    }
  }

  lemma Reception(ids: seq<StreamId>, acts: seq<CallAction>, c: Call)
    requires Distinct(ids) && CallRun(Start(ids), acts, c)
    ensures ReceptionInv(c) && c.s.ids == ids
  {
    CallRunKeepsInv(Start(ids), acts, c);
    IdsStay(Start(ids), acts, c);
  }

  lemma ReceivedFacts(c: Call, id: StreamId)
    requires ReceptionInv(c) && id in c.streams
    ensures 0 in c.streams[id].pipes && c.streams[id].pipes[0].delivered <= DataOf(c.s.frames, id)
    ensures c.next == |c.s.frames| && Ended(id) in c.s.frames && id !in c.ending && c.streams[id].tasks == [] ==>
              c.streams[id].pipes[0].shutdowns == 1
              && (!c.streams[id].pipes[0].broken ==> c.streams[id].pipes[0].delivered == DataOf(c.s.frames, id))
  {
    StreamFacts(c.s.frames[..c.next], c.ending, id, c.streams[id]);
    DataOfPrefix(c.s.frames, c.next, id);
    assert c.next == |c.s.frames| ==> c.s.frames[..c.next] == c.s.frames;
  }

  lemma StreamFacts(frames: seq<Frame>, ending: set<StreamId>, id: StreamId, st: Stream)
    requires StreamInv(frames, ending, id, st)
    ensures 0 in st.pipes && st.pipes[0].delivered <= DataOf(frames, id)
    ensures Ended(id) in frames && id !in ending && st.tasks == [] ==>
              st.pipes[0].shutdowns == 1 && (!st.pipes[0].broken ==> st.pipes[0].delivered == DataOf(frames, id))
  {}

  ghost predicate Distinct(ids: seq<StreamId>) {
    forall i, j | 0 <= i < j < |ids| :: ids[i] != ids[j]
  }

  /** In every run the frames of the call are well ordered, also before the first stream is registered and
      for a call without streams. */
  lemma FramesConform(ids: seq<StreamId>, acts: seq<CallAction>, c: Call)
    requires Distinct(ids) && CallRun(Start(ids), acts, c)
    ensures c.s.ids == ids && |c.s.readers| <= |ids| && Conforms(ids, c.s.frames)
    ensures forall f <- c.s.frames :: f.Data? ==> 1 <= |f.segment| <= 4096
  {
    CallRunKeepsInv(Start(ids), acts, c);
    IdsStay(Start(ids), acts, c);
  }

  /** In every run a stream's segments concatenate to what its task read (short of a segment still held),
      and an end frame means all of it was sent. */
  lemma SegmentsAreRead(ids: seq<StreamId>, acts: seq<CallAction>, c: Call, i: nat)
    requires Distinct(ids) && CallRun(Start(ids), acts, c) && i < |c.s.readers|
    ensures i < |ids| && DataOf(c.s.frames, ids[i]) <= c.s.readers[i].got
    ensures Ended(ids[i]) in c.s.frames ==>
              DataOf(c.s.frames, ids[i]) == c.s.readers[i].got && c.s.readers[i].doing == Done
    ensures c.s.readers[i].doing == Done && !c.s.closed ==> Ended(ids[i]) in c.s.frames
  {
    CallRunKeepsInv(Start(ids), acts, c);
    IdsStay(Start(ids), acts, c);
    assert ReaderInv(c.s, i);
  }

  lemma {:induction false} IdsStay(c0: Call, acts: seq<CallAction>, c1: Call)
    requires CallRun(c0, acts, c1)
    ensures c1.s.ids == c0.s.ids
    decreases |acts|
  {
    if acts != [] { IdsStay(CallStep(c0, acts[0]), acts[1..], c1); }
  }

  lemma {:induction false} OneResponse(ids: seq<StreamId>, frames: seq<Frame>)
    requires Conforms(ids, frames)
    ensures multiset(frames)[Response] == if Response in frames then 1 else 0
  {
    if Response in frames {
      var i :| 0 <= i < |frames| && frames[i] == Response;
      assert frames == frames[..i] + [Response] + frames[i + 1..];
      assert Response !in frames[..i] && Response !in frames[i + 1..];
    }
  }

  /** In every run: a call that is not answered yet has no response among its frames, and one that is
      answered on an open channel has exactly one. */
  lemma AnsweredOnce(ids: seq<StreamId>, acts: seq<CallAction>, c: Call)
    requires Distinct(ids) && CallRun(Start(ids), acts, c)
    ensures c.s.phase != Answered ==> Response !in c.s.frames
    ensures c.s.phase == Answered && !c.s.closed ==> multiset(c.s.frames)[Response] == 1
  {
    CallRunKeepsInv(Start(ids), acts, c);
    IdsStay(Start(ids), acts, c);
    OneResponse(ids, c.s.frames);
  }

  /** In every interleaving of the sending tasks, the channel, the receiver's dispatch loop, its end
      handlers and its write loops: what arrives at the far end of a stream is a prefix of what the
      stream's task read; and once the task has finished, all frames are received, the end handler
      has run and no write loop can move, it is all of it and the stream was closed exactly once. */
  lemma DuplexEndToEnd(ids: seq<StreamId>, acts: seq<CallAction>, c: Call, i: nat)
    requires Distinct(ids) && CallRun(Start(ids), acts, c) && i < |c.s.readers|
    ensures i < |ids|
    ensures ids[i] in c.streams ==>
              0 in c.streams[ids[i]].pipes && c.streams[ids[i]].pipes[0].delivered <= c.s.readers[i].got
    ensures c.s.readers[i].doing == Done && !c.s.closed && c.next == |c.s.frames| && c.ending == {}
            && ids[i] in c.streams && c.streams[ids[i]].tasks == [] ==>
              c.streams[ids[i]].pipes[0].shutdowns == 1
              && (!c.streams[ids[i]].pipes[0].broken ==> c.streams[ids[i]].pipes[0].delivered == c.s.readers[i].got)
    ensures c.s.readers[i].doing == Done && c.next > 0 ==> ids[i] in c.streams
  {
    FramesConform(ids, acts, c);
    SegmentsAreRead(ids, acts, c, i);
    Reception(ids, acts, c);
    if ids[i] in c.streams {
      ReceivedFacts(c, ids[i]);
    }
  }

  /** Nothing can happen any more, except that the channel is closed. */
  ghost predicate AtRest(c: Call) {
    forall a :: CallEnabled(c, a) ==> a == Send(Close)
  }

  lemma SenderRests(c: Call)
    requires SenderInv(c.s) && AtRest(c)
    ensures c.s.phase == Answered
    ensures forall i: nat | i < |c.s.readers| :: c.s.readers[i].doing == Done || c.s.readers[i].doing == Quit
  {
    var s := c.s;
    assert !CallEnabled(c, Send(Announce)) && !CallEnabled(c, Send(Register));
    assert !CallEnabled(c, Send(SpawnResponse)) && !CallEnabled(c, Send(Respond));
    forall i: nat | i < |s.readers| ensures s.readers[i].doing == Done || s.readers[i].doing == Quit {
      assert !CallEnabled(c, Send(ReadEnd(i))) && !CallEnabled(c, Send(SendSegment(i)));
      assert !CallEnabled(c, Send(SendEnd(i)));
    }
  }

  lemma ReceiverRests(c: Call)
    requires ReceptionInv(c) && AtRest(c)
    ensures c.next == |c.s.frames| && c.ending == {}
    ensures forall id <- c.streams :: c.streams[id].tasks == []
  {
    assert !CallEnabled(c, Deliver);
    if id :| id in c.ending {
      assert CallEnabled(c, RunEnd(id));
    }
    forall id <- c.streams ensures c.streams[id].tasks == [] {
      assert StreamInv(c.s.frames[..c.next], c.ending, id, c.streams[id]);
      InternalProgress(c.streams[id], Lock(0));
      if b :| Internal(b) && Enabled(c.streams[id], b) {
        assert CallEnabled(c, Work(id, b));
      }
    }
  }

  /** A call that has come to rest on an open channel is complete: it has been announced and answered
      exactly once, and every one of its streams has been registered, delivered whole to an unbroken far
      end, and closed exactly once. */
  lemma RestIsComplete(ids: seq<StreamId>, acts: seq<CallAction>, c: Call)
    requires Distinct(ids) && CallRun(Start(ids), acts, c) && AtRest(c) && !c.s.closed
    ensures |c.s.frames| > 0 && c.s.frames[0] == Started(ids) && multiset(c.s.frames)[Response] == 1
    ensures |c.s.readers| == |ids|
    ensures forall i: nat | i < |ids| ::
              ids[i] in c.streams && 0 in c.streams[ids[i]].pipes && c.streams[ids[i]].pipes[0].shutdowns == 1
              && (!c.streams[ids[i]].pipes[0].broken ==> c.streams[ids[i]].pipes[0].delivered == c.s.readers[i].got)
  {
    CallRunKeepsInv(Start(ids), acts, c);
    IdsStay(Start(ids), acts, c);
    SenderRests(c);
    ReceiverRests(c);
    AnsweredOnce(ids, acts, c);
    OneResponse(ids, c.s.frames);
    assert Response in c.s.frames;
    forall i: nat | i < |ids|
      ensures ids[i] in c.streams && 0 in c.streams[ids[i]].pipes && c.streams[ids[i]].pipes[0].shutdowns == 1
      ensures !c.streams[ids[i]].pipes[0].broken ==> c.streams[ids[i]].pipes[0].delivered == c.s.readers[i].got
    {
      assert ReaderInv(c.s, i);
      DuplexEndToEnd(ids, acts, c, i);
    }
  }

  lemma {:induction false} DataOfPrefix(frames: seq<Frame>, n: nat, id: StreamId)
    requires n <= |frames|
    ensures DataOf(frames[..n], id) <= DataOf(frames, id)
    decreases |frames|
  {
    if n == |frames| {
      assert frames[..n] == frames;
    } else {
      DataOfPrefix(frames[..|frames|-1], n, id);
      assert frames[..|frames|-1][..n] == frames[..n];
    }
  }
}
