/** What `DownloadCache::create` of `cli/src/download_cache.rs` returns, in runs of any number of
    processes: a creation that nothing stands in the way of succeeds, and the exact conditions for `Ok`
    and for an error in terms of what the process has met. */
module CacheResults {
  import opened Common
  import opened CacheNames
  import opened CacheProtocol

  // ---------------------------------------------------------------------------------------------
  // A creation that nothing stands in the way of
  // ---------------------------------------------------------------------------------------------

  /** No call of the process fails and its staging names are new; it is neither cancelled nor killed; nobody
      else works on the name, and its entry is not evicted. */
  predicate Favourable(w: World, a: Action, pid: Pid, name: string) {
    match a
    case Spawn(q, n) => q != pid && n != name
    case Step(q, c) => q == pid ==> c.success && StagingName(name, c.id) !in w.dirs
    case Cancel(q) => q != pid
    case Crash(q) => q != pid
    case Evict(n) => n != name
  }

  ghost predicate FavourableRun(w0: World, acts: seq<Action>, w1: World, pid: Pid, name: string)
    decreases |acts|
  {
    if acts == [] then w0 == w1
    else Enabled(w0, acts[0]) && Favourable(w0, acts[0], pid, name)
         && FavourableRun(Apply(w0, acts[0]), acts[1..], w1, pid, name)
  }

  predicate Alone(w: World, pid: Pid, name: string) {
    forall q <- w.procs | q != pid :: w.procs[q].name != name
  }

  /** Before the rename there is no entry; from then on the entry is there, finished, and the result is
      `Ok`. */
  predicate OnCourse(w: World, pid: Pid, name: string) {
    && Plain(name) && Alone(w, pid, name) && pid in w.procs && w.procs[pid].name == name
    && match w.procs[pid].pc
       case LockTaken => false
       case RenameFailed(_, _) => false
       case Dropping(_, ok) => ok && name in w.dirs && w.dirs[name] == Finished
       case Unlocking(ok) => ok && name in w.dirs && w.dirs[name] == Finished
       case Done(ok) => ok && name in w.dirs && w.dirs[name] == Finished
       case _ => name !in w.dirs
  }

  /** How many steps are left at most. */
  function Left(pc: Pc): nat {
    match pc
    case Checking => 11
    case Locking => 10
    case LockTaken => 11
    case Rechecking => 9
    case Listing => 8
    case Reaping(entries) => 7 + |entries|
    case Staging => 6
    case Creating(_) => 5
    case Touching(_) => 4
    case Renaming(_, _) => 3
    case RenameFailed(_, _) => 4
    case Dropping(_, _) => 2
    case Unlocking(_) => 1
    case Done(_) => 0
  }

  lemma FreeLock(w: World, pid: Pid, name: string)
    requires Inv(w) && Alone(w, pid, name) && pid in w.procs && w.procs[pid].name == name
    ensures name in w.locks ==> HoldsLock(w.procs[pid].pc)
  {
    assert ProcInv(w, pid, w.procs[pid]);
  }

  lemma EarlyOwnStep(w: World, pid: Pid, name: string, c: Choice)
    requires Inv(w) && OnCourse(w, pid, name) && Enabled(w, Step(pid, c)) && Favourable(w, Step(pid, c), pid, name)
    requires Tmp(w.procs[pid].pc).None?
    ensures var w' := StepOf(w, pid, c);
            OnCourse(w', pid, name) && Left(w'.procs[pid].pc) + 1 <= Left(w.procs[pid].pc) + |c.entries|
  {
    FreeLock(w, pid, name);
    StepChangesOne(w, pid, c);
    KeepsAlone(w, StepOf(w, pid, c), pid, name);
    StagingNameIs(name, c.id);
    PrefixMarks(name, StagingName(name, c.id));
  }

  lemma KeepsAlone(w: World, w': World, pid: Pid, name: string)
    requires Alone(w, pid, name) && w'.procs - {pid} == w.procs - {pid}
    ensures Alone(w', pid, name)
  {
    forall q <- w'.procs | q != pid ensures w'.procs[q].name != name {
      assert q in w'.procs - {pid} && (w'.procs - {pid})[q] == w'.procs[q] == (w.procs - {pid})[q];
    }
  }

  lemma LateOwnStep(w: World, pid: Pid, name: string, c: Choice)
    requires Inv(w) && OnCourse(w, pid, name) && Enabled(w, Step(pid, c)) && Favourable(w, Step(pid, c), pid, name)
    requires Tmp(w.procs[pid].pc).Some?
    ensures var w' := StepOf(w, pid, c);
            OnCourse(w', pid, name) && Left(w'.procs[pid].pc) + 1 <= Left(w.procs[pid].pc) + |c.entries|
  {
    var tmp := Tmp(w.procs[pid].pc).value;
    assert ProcInv(w, pid, w.procs[pid]);
    PrefixMarks(name, tmp);
    StepChangesOne(w, pid, c);
    KeepsAlone(w, StepOf(w, pid, c), pid, name);
  }

  /** What others do leaves the entry as it is. */
  lemma OthersKeepEntry(w: World, a: Action, pid: Pid, name: string)
    requires Inv(w) && Enabled(w, a) && Plain(name) && Alone(w, pid, name)
    requires if a.Evict? then a.name != name else a.pid != pid
    ensures name in Apply(w, a).dirs <==> name in w.dirs
    ensures name in w.dirs ==> Apply(w, a).dirs[name] == w.dirs[name]
  {
    if a.Step? {
      var p := w.procs[a.pid];
      assert ProcInv(w, a.pid, p);
      PrefixMarks(p.name, StagingName(p.name, a.c.id));
      if Tmp(p.pc).Some? {
        PrefixMarks(p.name, Tmp(p.pc).value);
        LateStepKeepsEntry(w, a.pid, a.c, name);
      } else {
        if p.pc.Reaping? && p.pc.entries != [] { PrefixMarks(p.name, p.pc.entries[0]); }
        EarlyStepKeepsEntry(w, a.pid, a.c, name);
      }
    }
  }

  lemma EarlyStepKeepsEntry(w: World, q: Pid, c: Choice, name: string)
    requires Enabled(w, Step(q, c)) && Tmp(w.procs[q].pc).None? && w.procs[q].name != name
    requires StagingName(w.procs[q].name, c.id) != name
    requires var pc := w.procs[q].pc;
             pc.Reaping? && pc.entries != [] && w.procs[q].name + MARKER <= pc.entries[0] ==> pc.entries[0] != name
    ensures name in StepOf(w, q, c).dirs <==> name in w.dirs
    ensures name in w.dirs ==> StepOf(w, q, c).dirs[name] == w.dirs[name]
  {
  }

  lemma LateStepKeepsEntry(w: World, q: Pid, c: Choice, name: string)
    requires Enabled(w, Step(q, c)) && Tmp(w.procs[q].pc).Some? && w.procs[q].name != name
    requires Tmp(w.procs[q].pc).value != name
    ensures name in StepOf(w, q, c).dirs <==> name in w.dirs
    ensures name in w.dirs ==> StepOf(w, q, c).dirs[name] == w.dirs[name]
  {
  }

  lemma OtherStep(w: World, a: Action, pid: Pid, name: string)
    requires Inv(w) && OnCourse(w, pid, name) && Enabled(w, a) && Favourable(w, a, pid, name)
    requires a.Evict? || a.pid != pid
    ensures OnCourse(Apply(w, a), pid, name) && Apply(w, a).procs[pid] == w.procs[pid]
  {
    OthersKeepProcs(w, a, pid);
    OthersKeepEntry(w, a, pid, name);
    forall q <- Apply(w, a).procs | q != pid ensures Apply(w, a).procs[q].name != name {
      NamesStay(w, a, q);
    }
  }

  lemma NamesStay(w: World, a: Action, q: Pid)
    requires Enabled(w, a) && q in Apply(w, a).procs
    ensures if a.Spawn? && a.pid == q then Apply(w, a).procs[q].name == a.name
            else q in w.procs && Apply(w, a).procs[q].name == w.procs[q].name
  {
    if a.Evict? || a.pid != q {
      OthersKeepProcs(w, a, q);
    } else if a.Step? {
      StepChangesOne(w, q, a.c);
    }
  }

  /** The steps of the process in a run, and the entries that its listings returned. */
  function OwnSteps(acts: seq<Action>, pid: Pid): nat {
    if acts == [] then 0 else (if acts[0].Step? && acts[0].pid == pid then 1 else 0) + OwnSteps(acts[1..], pid)
  }

  function EntriesListed(acts: seq<Action>, pid: Pid): nat {
    if acts == [] then 0
    else (if acts[0].Step? && acts[0].pid == pid then |acts[0].c.entries| else 0) + EntriesListed(acts[1..], pid)
  }

  lemma {:induction false} StaysOnCourse(w: World, acts: seq<Action>, w': World, pid: Pid, name: string)
    requires Inv(w) && OnCourse(w, pid, name) && FavourableRun(w, acts, w', pid, name)
    ensures OnCourse(w', pid, name)
    ensures Left(w'.procs[pid].pc) + OwnSteps(acts, pid) <= Left(w.procs[pid].pc) + EntriesListed(acts, pid)
    decreases |acts|
  {
    if acts != [] {
      var a := acts[0];
      ApplyKeepsInv(w, a);
      if a.Evict? || a.pid != pid {
        OtherStep(w, a, pid, name);
      } else if Tmp(w.procs[pid].pc).None? {
        EarlyOwnStep(w, pid, name, a.c);
      } else {
        LateOwnStep(w, pid, name, a.c);
      }
      StaysOnCourse(Apply(w, a), acts[1..], w', pid, name);
    }
  }

  /** From any reachable world: a process that is spawned for a name without an entry on which nobody else
      works, whose calls succeed and which is left alone, has after at most eleven steps, and one more for
      every entry listed, returned `Ok`, and its entry is there and finished. Until then it can go on. */
  lemma SuccessfulCreate(acts: seq<Action>, w: World, pid: Pid, name: string, more: seq<Action>, w': World)
    requires Exec(acts) == Some(w) && Enabled(w, Spawn(pid, name)) && Alone(w, pid, name) && name !in w.dirs
    requires FavourableRun(Apply(w, Spawn(pid, name)), more, w', pid, name)
    ensures pid in w'.procs
    ensures OwnSteps(more, pid) >= 11 + EntriesListed(more, pid) ==> w'.procs[pid].pc.Done?
    ensures w'.procs[pid].pc.Done? ==> w'.procs[pid].pc.ok && name in w'.dirs && w'.dirs[name] == Finished
    ensures !w'.procs[pid].pc.Done? ==> Enabled(w', Step(pid, Choice(true, [], "")))
  {
    InvHolds(acts);
    ApplyKeepsInv(w, Spawn(pid, name));
    StaysOnCourse(Apply(w, Spawn(pid, name)), more, w', pid, name);
  }

  // ---------------------------------------------------------------------------------------------
  // When does a process return `Ok`?
  // ---------------------------------------------------------------------------------------------

  /** A step of the process, other than an attempt to take the lock and before its result is fixed, right
      after which the entry is there. */
  predicate Sees(w: World, a: Action, pid: Pid) {
    && a.Step? && a.pid == pid && Enabled(w, a)
    && var pc := w.procs[pid].pc;
       && !pc.Locking? && !pc.Dropping? && !pc.Unlocking? && !pc.Done?
       && w.procs[pid].name in Apply(w, a).dirs
  }

  /** The process has met its entry since it was spawned. */
  ghost predicate Saw(acts: seq<Action>, pid: Pid) {
    acts != []
    && var before, a := acts[..|acts|-1], acts[|acts|-1];
       && !(a.Spawn? && a.pid == pid)
       && Exec(before).Some?
       && (Saw(before, pid) || Sees(Exec(before).value, a, pid))
  }

  lemma OwnSees(w: World, pid: Pid, c: Choice)
    requires Inv(w) && Enabled(w, Step(pid, c))
    ensures Succeeds(StepOf(w, pid, c).procs[pid].pc) <==> Succeeds(w.procs[pid].pc) || Sees(w, Step(pid, c), pid)
  {
    var p := w.procs[pid];
    assert ProcInv(w, pid, p);
    PrefixMarks(p.name, StagingName(p.name, c.id));
    if Tmp(p.pc).Some? {
      LateSees(w, pid, c);
    } else {
      EarlySees(w, pid, c);
    }
  }

  lemma EarlySees(w: World, pid: Pid, c: Choice)
    requires Enabled(w, Step(pid, c)) && Tmp(w.procs[pid].pc).None?
    requires ProcInv(w, pid, w.procs[pid]) && !Plain(StagingName(w.procs[pid].name, c.id))
    ensures Succeeds(StepOf(w, pid, c).procs[pid].pc) <==> Succeeds(w.procs[pid].pc) || Sees(w, Step(pid, c), pid)
  {
  }

  lemma LateSees(w: World, pid: Pid, c: Choice)
    requires Enabled(w, Step(pid, c)) && Tmp(w.procs[pid].pc).Some? && ProcInv(w, pid, w.procs[pid])
    requires w.procs[pid].pc.RenameFailed? ==> w.procs[pid].name !in w.dirs
    ensures Succeeds(StepOf(w, pid, c).procs[pid].pc) <==> Succeeds(w.procs[pid].pc) || Sees(w, Step(pid, c), pid)
  {
  }

  /** In every run: a process has decided on `Ok` if and only if it has met its entry at one of its checks
      or made it by its rename. */
  lemma {:induction false} OkIff(acts: seq<Action>, w: World, pid: Pid)
    requires Exec(acts) == Some(w) && pid in w.procs
    ensures Succeeds(w.procs[pid].pc) <==> Saw(acts, pid)
    decreases |acts|
  {
    var before, a := acts[..|acts|-1], acts[|acts|-1];
    var b := Exec(before).value;
    InvHolds(before);
    if a.Evict? || a.pid != pid {
      OthersKeepProcs(b, a, pid);
      OkIff(before, b, pid);
    } else if a.Step? {
      OkIff(before, b, pid);
      OwnSees(b, pid, a.c);
    } else if a.Cancel? {
      OkIff(before, b, pid);
    }
  }

  // ---------------------------------------------------------------------------------------------
  // When does it return an error?
  // ---------------------------------------------------------------------------------------------

  predicate Failed(pc: Pc) {
    (pc.Dropping? || pc.Unlocking? || pc.Done?) && !pc.ok
  }

  /** How many renames of the process have failed since it was spawned. */
  ghost function FailedRenames(acts: seq<Action>, pid: Pid): nat {
    if acts == [] then 0
    else
      var before, a := acts[..|acts|-1], acts[|acts|-1];
      if a.Spawn? && a.pid == pid then 0
      else if a.Step? && a.pid == pid && Exec(acts).Some? && Exec(before).value.procs[pid].pc.Renaming?
              && Exec(before).value.procs[pid].name !in Exec(acts).value.dirs
      then FailedRenames(before, pid) + 1
      else FailedRenames(before, pid)
  }

  /** What makes a process give up: a cancellation, an error before the lock is held, a staging directory
      that cannot be made, a creator that fails, or the 21st rename that fails. */
  predicate GivesUp(w: World, a: Action, pid: Pid, failedRenames: nat) {
    && !a.Evict? && a.pid == pid && pid in w.procs
    && var p := w.procs[pid];
       || a.Cancel?
       || (a.Step?
           && match p.pc
              case Checking => !a.c.success && p.name !in w.dirs
              case Locking => !a.c.success
              case Staging => !a.c.success || StagingName(p.name, a.c.id) in w.dirs
              case Creating(_) => !a.c.success
              case RenameFailed(_, _) => failedRenames == 21
              case _ => false)
  }

  ghost predicate GaveUp(acts: seq<Action>, pid: Pid) {
    acts != []
    && var before, a := acts[..|acts|-1], acts[|acts|-1];
       && !(a.Spawn? && a.pid == pid)
       && Exec(before).Some?
       && (GaveUp(before, pid) || GivesUp(Exec(before).value, a, pid, FailedRenames(before, pid)))
  }

  predicate Counted(pc: Pc, failedRenames: nat) {
    match pc
    case Renaming(_, attempt) => failedRenames == attempt <= 20
    case RenameFailed(_, attempt) => failedRenames == attempt + 1 <= 21
    case Dropping(_, _) => true
    case Unlocking(_) => true
    case Done(_) => true
    case _ => failedRenames == 0
  }

  lemma OwnCounts(w: World, pid: Pid, c: Choice, n: nat)
    requires Enabled(w, Step(pid, c)) && Counted(w.procs[pid].pc, n) && ProcInv(w, pid, w.procs[pid])
    ensures var w' := StepOf(w, pid, c);
            Counted(w'.procs[pid].pc,
                    if w.procs[pid].pc.Renaming? && w.procs[pid].name !in w'.dirs then n + 1 else n)
  {
  }

  lemma {:induction false} RenamesCounted(acts: seq<Action>, w: World, pid: Pid)
    requires Exec(acts) == Some(w) && pid in w.procs
    ensures Counted(w.procs[pid].pc, FailedRenames(acts, pid))
    decreases |acts|
  {
    var before, a := acts[..|acts|-1], acts[|acts|-1];
    var b := Exec(before).value;
    InvHolds(before);
    if a.Evict? || a.pid != pid {
      OthersKeepProcs(b, a, pid);
      RenamesCounted(before, b, pid);
    } else if a.Step? {
      RenamesCounted(before, b, pid);
      OwnCounts(b, pid, a.c, FailedRenames(before, pid));
    } else if a.Cancel? {
      RenamesCounted(before, b, pid);
    }
  }

  lemma OwnGivesUp(w: World, pid: Pid, c: Choice, n: nat)
    requires Enabled(w, Step(pid, c)) && Counted(w.procs[pid].pc, n) && ProcInv(w, pid, w.procs[pid])
    ensures Failed(StepOf(w, pid, c).procs[pid].pc) <==>
              Failed(w.procs[pid].pc) || GivesUp(w, Step(pid, c), pid, n)
  {
  }

  /** In every run: a process has decided on an error if and only if one of these has happened to it. */
  lemma {:induction false} ErrorIff(acts: seq<Action>, w: World, pid: Pid)
    requires Exec(acts) == Some(w) && pid in w.procs
    ensures Failed(w.procs[pid].pc) <==> GaveUp(acts, pid)
    decreases |acts|
  {
    var before, a := acts[..|acts|-1], acts[|acts|-1];
    var b := Exec(before).value;
    InvHolds(before);
    if a.Evict? || a.pid != pid {
      OthersKeepProcs(b, a, pid);
      ErrorIff(before, b, pid);
    } else if a.Step? {
      ErrorIff(before, b, pid);
      RenamesCounted(before, b, pid);
      OwnGivesUp(b, pid, a.c, FailedRenames(before, pid));
    } else if a.Cancel? {
      ErrorIff(before, b, pid);
    }
  }

  /** A process that has returned: `Ok` exactly if it met its entry, an error exactly if it gave up. */
  lemma ResultIff(acts: seq<Action>, w: World, pid: Pid)
    requires Exec(acts) == Some(w) && pid in w.procs && w.procs[pid].pc.Done?
    ensures w.procs[pid].pc.ok <==> Saw(acts, pid)
    ensures !w.procs[pid].pc.ok <==> GaveUp(acts, pid)
  {
    OkIff(acts, w, pid);
    ErrorIff(acts, w, pid);
  }
}
