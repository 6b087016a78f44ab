/** Using a stream id of `cli/src/rpc.rs` again: exactly when that is harmless. */
module StreamReuse {
  import opened Common
  import opened StreamMux

  /** An insertion that finds no record under the id. */
  predicate Vacant(s: Stream, a: Action) {
    a.Insert? ==> s.rec == None
  }

  ghost predicate ReuseRun(s0: Stream, acts: seq<Action>, s1: Stream)
    decreases |acts|
  {
    if acts == [] then s0 == s1
    else Enabled(s0, acts[0]) && Vacant(s0, acts[0]) && ReuseRun(Step(s0, acts[0]), acts[1..], s1)
  }

  /** The write half `h` is in exactly one place. */
  predicate Owned(s: Stream, h: Handle)
    requires h in s.pipes
  {
    Recorded(s, h) + Holders(s.tasks, h) + s.pipes[h].shutdowns == 1
  }

  // ---------------------------------------------------------------------------------------------
  // Earlier uses of the id, and the current one
  // ---------------------------------------------------------------------------------------------

  /** The current use `cur` with the tasks and pipes that earlier uses have left. */
  function Behind(earlier: seq<Task>, past: map<Handle, Pipe>, cur: Stream): Stream {
    cur.(tasks := earlier + cur.tasks, pipes := past + cur.pipes)
  }

  /** Earlier halves are shut down or about to be. */
  ghost predicate Closing(earlier: seq<Task>, past: map<Handle, Pipe>) {
    && (forall t <- earlier :: t.Closer? && t.h in past)
    && (forall h <- past :: past[h].shutdowns + Holders(earlier, h) == 1)
  }

  ghost predicate Split(s: Stream, earlier: seq<Task>, past: map<Handle, Pipe>, cur: Stream) {
    s == Behind(earlier, past, cur) && Closing(earlier, past) && Inv(cur) && past.Keys !! cur.pipes.Keys
  }

  ghost predicate ReuseInv(s: Stream) {
    exists earlier, past, cur :: Split(s, earlier, past, cur)
  }

  lemma {:induction false} HoldersAppend(a: seq<Task>, b: seq<Task>, h: Handle)
    ensures Holders(a + b, h) == Holders(a, h) + Holders(b, h)
  {
    if a == [] {
      assert a + b == b;
    } else {
      assert (a + b)[0] == a[0] && (a + b)[1..] == a[1..] + b;
      HoldersAppend(a[1..], b, h);
    }
  }

  lemma {:induction false} NotHeld(tasks: seq<Task>, past: set<Handle>, h: Handle)
    requires (forall t <- tasks :: t.h in past) && h !in past
    ensures Holders(tasks, h) == 0
  {
    if tasks != [] {
      assert tasks[0] in tasks;
      NotHeld(tasks[1..], past, h);
    }
  }

  lemma HoldersWithout(tasks: seq<Task>, k: nat, h: Handle)
    requires k < |tasks|
    ensures Holders(WithoutTask(tasks, k), h) + (if tasks[k].h == h then 1 else 0) == Holders(tasks, h)
  {
    assert tasks == tasks[..k] + ([tasks[k]] + tasks[k+1..]);
    HoldersAppend(tasks[..k], [tasks[k]] + tasks[k+1..], h);
    HoldersAppend([tasks[k]], tasks[k+1..], h);
    HoldersAppend(tasks[..k], tasks[k+1..], h);
  }

  // ---------------------------------------------------------------------------------------------
  // Steps
  // ---------------------------------------------------------------------------------------------

  /** A new use begins: what the current one has left becomes earlier. */
  lemma InsertSplits(earlier: seq<Task>, past: map<Handle, Pipe>, cur: Stream, h: Handle)
    requires Closing(earlier, past) && Inv(cur) && past.Keys !! cur.pipes.Keys && cur.rec == None
    requires h !in past && h !in cur.pipes
    ensures Split(InsertStep(Behind(earlier, past, cur), h), earlier + cur.tasks, past + cur.pipes,
      InsertStep(ABSENT, h))
  {
    ClosingGrows(earlier, past, cur);
    assert (past + cur.pipes)[h := Pipe([], false, 0)] == past + cur.pipes + map[h := Pipe([], false, 0)];
    assert earlier + cur.tasks + [] == earlier + cur.tasks;
    assert LiveInv(InsertStep(ABSENT, h), h);
  }

  lemma ClosingGrows(earlier: seq<Task>, past: map<Handle, Pipe>, cur: Stream)
    requires Closing(earlier, past) && Inv(cur) && past.Keys !! cur.pipes.Keys && cur.rec == None
    ensures Closing(earlier + cur.tasks, past + cur.pipes)
  {
    if cur == ABSENT {
      assert earlier + cur.tasks == earlier && past + cur.pipes == past;
    } else {
      var h0 :| LiveInv(cur, h0);
      forall h <- past + cur.pipes
        ensures (past + cur.pipes)[h].shutdowns + Holders(earlier + cur.tasks, h) == 1
      {
        HoldersAppend(earlier, cur.tasks, h);
        OneTask(cur.tasks, h0, h);
        if h == h0 {
          NotHeld(earlier, past.Keys, h);
        }
      }
    }
  }

  lemma OneTask(tasks: seq<Task>, h0: Handle, h: Handle)
    requires |tasks| <= 1 && (tasks != [] ==> tasks[0].h == h0)
    ensures Holders(tasks, h) == if tasks != [] && h == h0 then 1 else 0
  {
  }

  /** A step from outside concerns the current use. */
  lemma OutsideSplits(earlier: seq<Task>, past: map<Handle, Pipe>, cur: Stream, a: Action)
    requires Closing(earlier, past) && Inv(cur) && past.Keys !! cur.pipes.Keys && (a.Write? || a.Remove?)
    ensures Step(Behind(earlier, past, cur), a) == Behind(earlier, past, Step(cur, a)) &&
      Step(cur, a).pipes == cur.pipes
  {
    if a.Write? && cur.rec.Some? && cur.rec.value.write.Some? {
      var t := WriteLoop(cur.rec.value.write.value, []);
      assert earlier + cur.tasks + [t] == earlier + (cur.tasks + [t]);
    } else if a.Remove? && cur.rec.Some? && cur.rec.value.write.Some? {
      var t := Closer(cur.rec.value.write.value);
      assert earlier + cur.tasks + [t] == earlier + (cur.tasks + [t]);
    }
  }

  function Moved(a: Action, n: nat): Action
    requires Internal(a) && n <= a.k
  {
    match a
    case Lock(k) => Lock(k - n)
    case PutByte(k) => PutByte(k - n)
    case NextItem(k) => NextItem(k - n)
    case Fail(k) => Fail(k - n)
    case Shutdown(k) => Shutdown(k - n)
  }

  lemma TaskBehind(earlier: seq<Task>, tasks: seq<Task>, k: nat, t: Task)
    requires |earlier| <= k < |earlier| + |tasks|
    ensures (earlier + tasks)[k] == tasks[k - |earlier|]
    ensures (earlier + tasks)[k := t] == earlier + tasks[k - |earlier| := t]
    ensures WithoutTask(earlier + tasks, k) == earlier + WithoutTask(tasks, k - |earlier|)
  {
    assert (earlier + tasks)[..k] == earlier + tasks[..k - |earlier|];
    assert (earlier + tasks)[k+1..] == tasks[k - |earlier| + 1..];
  }

  lemma PipeBehind(past: map<Handle, Pipe>, pipes: map<Handle, Pipe>, h: Handle, p: Pipe)
    ensures (past + pipes)[h := p] == past + pipes[h := p]
  {
  }

  /** A step of the current use's task, which stands behind the earlier ones. */
  lemma TaskSplits(earlier: seq<Task>, past: map<Handle, Pipe>, cur: Stream, h: Handle, a: Action)
    requires LiveInv(cur, h) && h !in past && Internal(a) && |earlier| <= a.k && Enabled(Behind(earlier, past, cur), a)
    ensures Enabled(cur, Moved(a, |earlier|))
    ensures Step(Behind(earlier, past, cur), a) == Behind(earlier, past, Step(cur, Moved(a, |earlier|)))
    ensures Step(cur, Moved(a, |earlier|)).pipes.Keys == cur.pipes.Keys
  {
    var s, b := Behind(earlier, past, cur), Moved(a, |earlier|);
    assert a.k < |s.tasks| && cur.tasks[a.k - |earlier|] == s.tasks[a.k];
    assert a.k == |earlier| && cur.tasks[0].h == h;
    if a.Lock? {
      LockSplits(earlier, past, cur, h);
    } else if a.Shutdown? {
      TaskBehind(earlier, cur.tasks, a.k, cur.tasks[0]);
      PipeBehind(past, cur.pipes, h, cur.pipes[h].(shutdowns := cur.pipes[h].shutdowns + 1));
    } else {
      LoopSplits(earlier, past, cur, h, a);
    }
  }

  lemma LockSplits(earlier: seq<Task>, past: map<Handle, Pipe>, cur: Stream, h: Handle)
    requires LiveInv(cur, h) && h !in past && Enabled(cur, Lock(0))
    ensures Enabled(Behind(earlier, past, cur), Lock(|earlier|))
    ensures LockStep(Behind(earlier, past, cur), |earlier|) == Behind(earlier, past, LockStep(cur, 0))
  {
    var (_, turn) := TurnRec(cur.rec, h);
    var t := match turn { case Batch(items) => WriteLoop(h, items) case _ => Closer(h) };
    TaskBehind(earlier, cur.tasks, |earlier|, t);
  }

  lemma LoopSplits(earlier: seq<Task>, past: map<Handle, Pipe>, cur: Stream, h: Handle, a: Action)
    requires LiveInv(cur, h) && h !in past && (a.PutByte? || a.NextItem? || a.Fail?) && a.k == |earlier|
    requires Enabled(Behind(earlier, past, cur), a)
    ensures Enabled(cur, Moved(a, |earlier|))
    ensures Step(Behind(earlier, past, cur), a) == Behind(earlier, past, Step(cur, Moved(a, |earlier|)))
  {
    var s, next := Behind(earlier, past, cur), Step(cur, Moved(a, |earlier|));
    assert s.tasks[a.k] == cur.tasks[0] && s.pipes[h] == cur.pipes[h];
    TaskBehind(earlier, cur.tasks, a.k, next.tasks[0]);
    PipeBehind(past, cur.pipes, h, next.pipes[h]);
  }

  lemma ClosingShrinks(earlier: seq<Task>, past: map<Handle, Pipe>, k: nat)
    requires Closing(earlier, past) && k < |earlier| && earlier[k].h in past
    ensures var h := earlier[k].h;
            Closing(WithoutTask(earlier, k), past[h := past[h].(shutdowns := past[h].shutdowns + 1)])
  {
    var h := earlier[k].h;
    var past' := past[h := past[h].(shutdowns := past[h].shutdowns + 1)];
    forall g <- past' ensures past'[g].shutdowns + Holders(WithoutTask(earlier, k), g) == 1 {
      HoldersWithout(earlier, k, g);
    }
    assert forall t <- WithoutTask(earlier, k) :: t in earlier;
  }

  /** An earlier half is shut down. */
  lemma OldShutdownSplits(earlier: seq<Task>, past: map<Handle, Pipe>, cur: Stream, k: nat)
    requires Closing(earlier, past) && Inv(cur) && past.Keys !! cur.pipes.Keys
    requires k < |earlier| && earlier[k].h in past
    ensures var h := earlier[k].h;
            Enabled(Behind(earlier, past, cur), Shutdown(k)) ==>
              Split(ShutdownStep(Behind(earlier, past, cur), k),
                    WithoutTask(earlier, k), past[h := past[h].(shutdowns := past[h].shutdowns + 1)], cur)
  {
    ClosingShrinks(earlier, past, k);
    var h := earlier[k].h;
    var p := past[h].(shutdowns := past[h].shutdowns + 1);
    assert WithoutTask(earlier + cur.tasks, k) == WithoutTask(earlier, k) + cur.tasks;
    assert (past + cur.pipes)[h := p] == past[h := p] + cur.pipes;
  }

  lemma InternalKeepsInv(earlier: seq<Task>, past: map<Handle, Pipe>, cur: Stream, a: Action)
    requires Split(Behind(earlier, past, cur), earlier, past, cur) && Internal(a) &&
      Enabled(Behind(earlier, past, cur), a)
    ensures ReuseInv(Step(Behind(earlier, past, cur), a))
  {
    var s := Behind(earlier, past, cur);
    if a.k < |earlier| {
      assert s.tasks[a.k] == earlier[a.k] && earlier[a.k] in earlier;
      OldShutdownSplits(earlier, past, cur, a.k);
    } else {
      assert cur != ABSENT;
      var h :| LiveInv(cur, h);
      TaskSplits(earlier, past, cur, h, a);
      LiveStepKeepsInv(cur, h, Moved(a, |earlier|));
      assert Split(Step(s, a), earlier, past, Step(cur, Moved(a, |earlier|)));
    }
  }

  lemma StepKeepsReuseInv(s: Stream, a: Action)
    requires ReuseInv(s) && Enabled(s, a) && Vacant(s, a)
    ensures ReuseInv(Step(s, a))
  {
    var earlier, past, cur :| Split(s, earlier, past, cur);
    if a.Insert? {
      InsertSplits(earlier, past, cur, a.h);
    } else if a.Write? || a.Remove? {
      OutsideSplits(earlier, past, cur, a);
      StepKeepsInv(cur, a);
      assert Split(Step(s, a), earlier, past, Step(cur, a));
    } else {
      InternalKeepsInv(earlier, past, cur, a);
    }
  }

  lemma {:induction false} RunKeepsReuseInv(s0: Stream, acts: seq<Action>, s1: Stream)
    requires ReuseInv(s0) && ReuseRun(s0, acts, s1)
    ensures ReuseInv(s1)
    decreases |acts|
  {
    if acts != [] {
      StepKeepsReuseInv(s0, acts[0]);
      RunKeepsReuseInv(Step(s0, acts[0]), acts[1..], s1);
    }
  }

  lemma AbsentIsSplit()
    ensures ReuseInv(ABSENT)
  {
    assert [] + ABSENT.tasks == ABSENT.tasks;
    assert map[] + ABSENT.pipes == ABSENT.pipes;
    assert Split(ABSENT, [], map[], ABSENT);
  }

  lemma SplitOwns(s: Stream, earlier: seq<Task>, past: map<Handle, Pipe>, cur: Stream, h: Handle)
    requires Split(s, earlier, past, cur) && h in s.pipes
    ensures Owned(s, h)
  {
    HoldersAppend(earlier, cur.tasks, h);
    if cur != ABSENT {
      var h0 :| LiveInv(cur, h0);
      OneTask(cur.tasks, h0, h);
      if h == h0 {
        NotHeld(earlier, past.Keys, h);
      }
    }
  }

  /** An id may be used any number of times: as long as every insertion finds no record, no write half is
      ever lost or duplicated, and each one is shut down at most once. */
  lemma VacantReuseKeepsOwnership(acts: seq<Action>, s: Stream, h: Handle)
    requires ReuseRun(ABSENT, acts, s) && h in s.pipes
    ensures Owned(s, h)
  {
    AbsentIsSplit();
    RunKeepsReuseInv(ABSENT, acts, s);
    var earlier, past, cur :| Split(s, earlier, past, cur);
    SplitOwns(s, earlier, past, cur, h);
  }

  // ---------------------------------------------------------------------------------------------
  // An insertion over a record
  // ---------------------------------------------------------------------------------------------

  /** A write loop can always come to the point where it takes the lock. */
  lemma {:induction false} DrainRun(s: Stream, k: nat) returns (more: seq<Action>, s': Stream)
    requires IsLoop(s, k)
    ensures ReuseRun(s, more, s') && s'.rec == s.rec && s'.tasks == s.tasks[k := WriteLoop(s.tasks[k].h, [])]
    ensures s'.pipes - {s.tasks[k].h} == s.pipes - {s.tasks[k].h} && s'.pipes.Keys == s.pipes.Keys
    decreases |s.tasks[k].items|
  {
    var items := s.tasks[k].items;
    if items == [] {
      more, s' := [], s;
    } else {
      var a := if items[0] == [] then NextItem(k) else Fail(k);
      var rest, end := DrainRun(Step(s, a), k);
      more, s' := [a] + rest, end;
      assert more[1..] == rest;
    }
  }

  lemma {:induction false} RunJoined(s0: Stream, acts: seq<Action>, s1: Stream, a: Action)
    requires ReuseRun(s0, acts, s1) && Enabled(s1, a) && Vacant(s1, a)
    ensures ReuseRun(s0, acts + [a], Step(s1, a))
    decreases |acts|
  {
    if acts == [] {
      assert acts + [a] == [a] && [a][1..] == [];
    } else {
      assert (acts + [a])[0] == acts[0] && (acts + [a])[1..] == acts[1..] + [a];
      RunJoined(Step(s0, acts[0]), acts[1..], s1, a);
    }
  }

  /** The new record replaces one with an idle half: that half is lost at once. */
  lemma IdleHalfIsLost(s: Stream, earlier: seq<Task>, past: map<Handle, Pipe>, cur: Stream, h: Handle, h0: Handle)
    requires Split(s, earlier, past, cur) && LiveInv(cur, h0) && cur.rec.Some? && cur.tasks == [] && h !in s.pipes
    ensures h0 in s.pipes && !Owned(InsertStep(s, h), h0)
  {
    NotHeld(earlier, past.Keys, h0);
    assert earlier + [] == earlier;
  }

  /** The new record is filled by the loop of the one before: the new half is lost when the loop parks. */
  lemma NewHalfIsLost(s: Stream, earlier: seq<Task>, past: map<Handle, Pipe>, cur: Stream, h: Handle, h0: Handle)
    returns (more: seq<Action>, s': Stream)
    requires Split(s, earlier, past, cur) && LiveInv(cur, h0) && cur.rec.Some? && cur.tasks != [] && h !in s.pipes
    ensures ReuseRun(InsertStep(s, h), more, s') && h in s'.pipes && !Owned(s', h)
  {
    var k := |earlier|;
    var s1 := InsertStep(s, h);
    assert s1.tasks[k] == cur.tasks[0];
    var drained, s2 := DrainRun(s1, k);
    RunJoined(s1, drained, s2, Lock(k));
    more, s' := drained + [Lock(k)], Step(s2, Lock(k));
    assert s'.tasks == earlier by {
      assert s'.tasks == WithoutTask(s2.tasks, k);
      assert s2.tasks == earlier + [WriteLoop(h0, [])];
    }
    NotHeld(earlier, past.Keys, h);
    PipeKept(s1.pipes, s2.pipes, h0, h);
  }

  lemma PipeKept(pipes: map<Handle, Pipe>, pipes': map<Handle, Pipe>, h0: Handle, h: Handle)
    requires pipes' - {h0} == pipes - {h0} && h in pipes && h != h0
    ensures h in pipes' && pipes'[h] == pipes[h]
  {
    assert h in pipes - {h0} && (pipes - {h0})[h] == pipes[h];
    assert h in pipes' - {h0} && (pipes' - {h0})[h] == pipes'[h];
  }

  ghost predicate AllOwned(s: Stream) {
    forall h <- s.pipes :: Owned(s, h)
  }

  lemma VacantInsertIsHarmless(s: Stream, h: Handle, more: seq<Action>, s': Stream)
    requires ReuseInv(s) && s.rec == None && h !in s.pipes && ReuseRun(InsertStep(s, h), more, s')
    ensures AllOwned(s')
  {
    StepKeepsReuseInv(s, Insert(h));
    RunKeepsReuseInv(InsertStep(s, h), more, s');
    var earlier, past, cur :| Split(s', earlier, past, cur);
    forall g <- s'.pipes ensures Owned(s', g) { SplitOwns(s', earlier, past, cur, g); }
  }

  /** Whatever happens after inserting `h`, no write half is lost or duplicated. */
  ghost predicate Harmless(s: Stream, h: Handle) {
    forall more, s' :: ReuseRun(InsertStep(s, h), more, s') ==> AllOwned(s')
  }

  lemma VacantIsHarmless(s: Stream, h: Handle)
    requires ReuseInv(s) && s.rec == None && h !in s.pipes
    ensures Harmless(s, h)
  {
    forall more, s' | ReuseRun(InsertStep(s, h), more, s') ensures AllOwned(s') {
      VacantInsertIsHarmless(s, h, more, s');
    }
  }

  lemma RecordIsHarmful(s: Stream, h: Handle)
    requires ReuseInv(s) && s.rec.Some? && h !in s.pipes
    ensures !Harmless(s, h)
  {
    var more, s' := LosingRun(s, h);
    assert ReuseRun(InsertStep(s, h), more, s') && !AllOwned(s');
  }

  /** Inserting under an id again is harmless if and only if no record is left under the id. */
  lemma ReuseIsHarmlessIff(acts: seq<Action>, s: Stream, h: Handle)
    requires ReuseRun(ABSENT, acts, s) && h !in s.pipes
    ensures Harmless(s, h) <==> s.rec == None
  {
    AbsentIsSplit();
    RunKeepsReuseInv(ABSENT, acts, s);
    if s.rec == None {
      VacantIsHarmless(s, h);
    } else {
      RecordIsHarmful(s, h);
    }
  }

  lemma LosingRun(s: Stream, h: Handle) returns (more: seq<Action>, s': Stream)
    requires ReuseInv(s) && s.rec.Some? && h !in s.pipes
    ensures ReuseRun(InsertStep(s, h), more, s') && !AllOwned(s')
  {
    var earlier, past, cur :| Split(s, earlier, past, cur);
    var h0 :| LiveInv(cur, h0);
    if cur.tasks == [] {
      IdleHalfIsLost(s, earlier, past, cur, h, h0);
      more, s' := [], InsertStep(s, h);
    } else {
      more, s' := NewHalfIsLost(s, earlier, past, cur, h, h0);
    }
  }
}
