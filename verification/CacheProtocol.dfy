/** `DownloadCache::create` of `cli/src/download_cache.rs`, run by any number of processes over one
    cache directory: every file-system call and every lock operation is a step of its own, and a
    process may crash at any step or be cancelled wherever it awaits. */
module CacheProtocol {
  import opened Common
  import opened CacheNames

  const RENAME_ATTEMPTS := 20

  type Pid = nat

  /** A directory below the cache path: whether its creator has finished successfully. */
  datatype Dir = Partial | Finished

  /** Where a process is in `create`, with the staging path once it exists; `ok` is the result. */
  datatype Pc =
    | Checking
    | Locking
    | LockTaken
    | Rechecking
    | Listing
    | Reaping(entries: seq<string>)
    | Staging
    | Creating(tmp: string)
    | Touching(tmp: string)
    | Renaming(tmp: string, attempt: nat)
    | RenameFailed(tmp: string, attempt: nat)
    | Dropping(tmp: string, ok: bool)
    | Unlocking(ok: bool)
    | Done(ok: bool)

  datatype Proc = Proc(name: string, pc: Pc)

  /** `leaked` collects the staging paths whose guard never ran or could not remove them. */
  datatype World = World(dirs: map<string, Dir>, locks: map<string, Pid>, procs: map<Pid, Proc>, leaked: set<string>)

  const INIT := World(map[], map[], map[], {})

  predicate HoldsLock(pc: Pc) {
    !pc.Checking? && !pc.Locking? && !pc.LockTaken? && !pc.Done?
  }

  function Tmp(pc: Pc): Option<string> {
    match pc
    case Creating(tmp) => Some(tmp)
    case Touching(tmp) => Some(tmp)
    case Renaming(tmp, _) => Some(tmp)
    case RenameFailed(tmp, _) => Some(tmp)
    case Dropping(tmp, _) => Some(tmp)
    case _ => None
  }

  // ---------------------------------------------------------------------------------------------
  // Steps
  // ---------------------------------------------------------------------------------------------

  /** What the environment decides at a step: whether the call succeeds, what a directory listing
      returns, and the next UUID. */
  datatype Choice = Choice(success: bool, entries: seq<string>, id: string)

  datatype Action =
    | Spawn(pid: Pid, name: string)
    | Step(pid: Pid, c: Choice)
    | Cancel(pid: Pid)
    | Crash(pid: Pid)
    | Evict(name: string)

  /** The cancellation points: the delay before asking for the lock again, the creating future, and
      the delay before renaming again. */
  predicate Awaits(pc: Pc) {
    pc.Locking? || pc.Creating? || (pc.Renaming? && pc.attempt > 0)
  }

  predicate Enabled(w: World, a: Action) {
    match a
    case Spawn(pid, name) => pid !in w.procs && Plain(name)
    case Step(pid, c) => pid in w.procs && !w.procs[pid].pc.Done? && '.' !in c.id
    case Cancel(pid) => pid in w.procs && Awaits(w.procs[pid].pc)
    case Crash(pid) => pid in w.procs
    case Evict(name) => Plain(name)
  }

  /** The next place of a process whose step touches neither directories nor locks. */
  function Goto(w: World, pid: Pid, pc: Pc): World
    requires pid in w.procs
  {
    w.(procs := w.procs[pid := w.procs[pid].(pc := pc)])
  }

  function Removed(w: World, path: string): World {
    w.(dirs := w.dirs - {path})
  }

  /** `StagingDirectory::drop`, and then the lock is next. */
  function DropStaging(w: World, pid: Pid, tmp: string, removed: bool, ok: bool): World
    requires pid in w.procs
  {
    var w' := if removed then Removed(w, tmp) else w.(leaked := w.leaked + {tmp});
    Goto(w', pid, Unlocking(ok))
  }

  function StepOf(w: World, pid: Pid, c: Choice): World
    requires Enabled(w, Step(pid, c))
  {
    var name := w.procs[pid].name;
    match w.procs[pid].pc
    case Checking => Goto(w, pid, if name in w.dirs then Done(true) else if c.success then Locking else Done(false))
    case Locking =>
      if !c.success then Goto(w, pid, Done(false))
      else if name in w.locks then Goto(w, pid, LockTaken)
      else Goto(w.(locks := w.locks[name := pid]), pid, Rechecking)
    case LockTaken => Goto(w, pid, if name in w.dirs then Done(true) else Locking)
    case Rechecking => Goto(w, pid, if name in w.dirs then Unlocking(true) else Listing)
    case Listing => Goto(w, pid, if c.success then Reaping(c.entries) else Staging)
    case Reaping(entries) =>
      if entries == [] then Goto(w, pid, Staging)
      else
        var w' := if name + MARKER <= entries[0] && c.success then Removed(w, entries[0]) else w;
        Goto(w', pid, Reaping(entries[1..]))
    case Staging =>
      var tmp := StagingName(name, c.id);
      if !c.success || tmp in w.dirs then Goto(w, pid, Unlocking(false))
      else Goto(w.(dirs := w.dirs[tmp := Partial]), pid, Creating(tmp))
    case Creating(tmp) =>
      if c.success && tmp in w.dirs then Goto(w.(dirs := w.dirs[tmp := Finished]), pid, Touching(tmp))
      else Goto(w, pid, Dropping(tmp, false))
    case Touching(tmp) => Goto(w, pid, Renaming(tmp, 0))
    case Renaming(tmp, attempt) =>
      if c.success && tmp in w.dirs && name !in w.dirs then
        Goto(w.(dirs := (w.dirs - {tmp})[name := w.dirs[tmp]]), pid, Dropping(tmp, true))
      else Goto(w, pid, RenameFailed(tmp, attempt))
    case RenameFailed(tmp, attempt) =>
      Goto(w, pid, if name in w.dirs then Dropping(tmp, true)
                   else if attempt >= RENAME_ATTEMPTS then Dropping(tmp, false)
                   else Renaming(tmp, attempt + 1))
    case Dropping(tmp, ok) => DropStaging(w, pid, tmp, c.success || tmp !in w.dirs, ok)
    case Unlocking(ok) => Goto(w.(locks := w.locks - {name}), pid, Done(ok))
  }

  /** Dropping the future drops its locals, the staging guard first and then the lock, in the steps that
      every other exit takes too; a crash or another process may come between them. */
  function CancelOf(w: World, pid: Pid): World
    requires Enabled(w, Cancel(pid))
  {
    var pc := w.procs[pid].pc;
    Goto(w, pid, if pc.Locking? then Done(false) else Dropping(pc.tmp, false))
  }

  /** The process is gone; the operating system releases its lock and nothing else. */
  function CrashOf(w: World, pid: Pid): World
    requires pid in w.procs
  {
    var p := w.procs[pid];
    w.(procs := w.procs - {pid},
       locks := if HoldsLock(p.pc) then w.locks - {p.name} else w.locks,
       leaked := if Tmp(p.pc).Some? then w.leaked + {Tmp(p.pc).value} else w.leaked)
  }

  function Apply(w: World, a: Action): World
    requires Enabled(w, a)
  {
    match a
    case Spawn(pid, name) => w.(procs := w.procs[pid := Proc(name, Checking)])
    case Step(pid, c) => StepOf(w, pid, c)
    case Cancel(pid) => CancelOf(w, pid)
    case Crash(pid) => CrashOf(w, pid)
    case Evict(name) => Removed(w, name)
  }

  /** The world after a run; `None` if some action was not possible. */
  function Exec(acts: seq<Action>): Option<World>
    decreases |acts|
  {
    if acts == [] then Some(INIT)
    else
      var w := Exec(acts[..|acts|-1]);
      var a := acts[|acts|-1];
      if w.None? || !Enabled(w.value, a) then None else Some(Apply(w.value, a))
  }

  // ---------------------------------------------------------------------------------------------
  // The invariant of every reachable world
  // ---------------------------------------------------------------------------------------------

  /** Between the recheck under the lock and the rename the entry does not exist. */
  predicate NoTargetYet(pc: Pc) {
    HoldsLock(pc) && !pc.Rechecking? && !pc.Unlocking? && !pc.Dropping?
  }

  predicate InFlight(pc: Pc) {
    Tmp(pc).Some? && !pc.Dropping?
  }

  ghost predicate ProcInv(w: World, pid: Pid, p: Proc) {
    && Plain(p.name)
    && (HoldsLock(p.pc) <==> p.name in w.locks && w.locks[p.name] == pid)
    && (Tmp(p.pc).Some? ==> IsStaging(Tmp(p.pc).value, p.name))
    && (InFlight(p.pc) ==> Tmp(p.pc).value in w.dirs && (w.dirs[Tmp(p.pc).value] == Finished || p.pc.Creating?))
    && (NoTargetYet(p.pc) ==> p.name !in w.dirs)
  }

  ghost predicate Owned(procs: map<Pid, Proc>, path: string) {
    exists pid <- procs :: Tmp(procs[pid].pc) == Some(path)
  }

  ghost predicate Stages(path: string) {
    exists name: string :: Plain(name) && IsStaging(path, name)
  }

  ghost predicate DirInv(w: World, path: string)
    requires path in w.dirs
  {
    if Plain(path) then w.dirs[path] == Finished else Stages(path) && (path in w.leaked || Owned(w.procs, path))
  }

  ghost predicate ProcsInv(w: World) {
    forall pid <- w.procs :: ProcInv(w, pid, w.procs[pid])
  }

  ghost predicate LocksInv(w: World) {
    forall name <- w.locks :: w.locks[name] in w.procs && w.procs[w.locks[name]].name == name
  }

  ghost predicate DirsInv(w: World) {
    forall path <- w.dirs :: DirInv(w, path)
  }

  ghost predicate Inv(w: World) {
    ProcsInv(w) && LocksInv(w) && DirsInv(w)
  }

  /** A step that brings no directory into being, when every staging directory keeps its owner, is
      gone, or counts as leaked. */
  lemma DirsStay(w: World, w': World)
    requires DirsInv(w) && w.leaked <= w'.leaked
    requires forall path <- w'.dirs :: path in w.dirs && w'.dirs[path] == w.dirs[path]
    requires forall q <- w.procs :: Tmp(w.procs[q].pc).Some? ==>
               || (q in w'.procs && Tmp(w'.procs[q].pc) == Tmp(w.procs[q].pc))
               || Tmp(w.procs[q].pc).value !in w'.dirs
               || Tmp(w.procs[q].pc).value in w'.leaked
    ensures DirsInv(w')
  {
    forall path <- w'.dirs ensures DirInv(w', path) {
      assert DirInv(w, path);
      if Owned(w.procs, path) && path !in w'.leaked {
        var q :| q in w.procs && Tmp(w.procs[q].pc) == Some(path);
        assert q in w'.procs && Tmp(w'.procs[q].pc) == Some(path);
      }
    }
  }

  /** The same with one path written. */
  lemma DirsGain(w: World, w': World, at: string)
    requires DirsInv(w) && w.leaked <= w'.leaked
    requires at in w'.dirs && DirInv(w', at)
    requires forall path <- w'.dirs :: path == at || (path in w.dirs && w'.dirs[path] == w.dirs[path])
    requires forall q <- w.procs :: Tmp(w.procs[q].pc).Some? ==>
               || (q in w'.procs && Tmp(w'.procs[q].pc) == Tmp(w.procs[q].pc))
               || Tmp(w.procs[q].pc).value !in w'.dirs
    ensures DirsInv(w')
  {
    forall path <- w'.dirs | path != at ensures DirInv(w', path) {
      assert DirInv(w, path);
      if Owned(w.procs, path) {
        var q :| q in w.procs && Tmp(w.procs[q].pc) == Some(path);
        assert q in w'.procs && Tmp(w'.procs[q].pc) == Some(path);
      }
    }
  }

  /** A step that changes nothing but the process's place, keeping its lock and its staging path. */
  lemma GotoKeepsInv(w: World, pid: Pid, pc: Pc)
    requires Inv(w) && pid in w.procs
    requires HoldsLock(pc) == HoldsLock(w.procs[pid].pc) && Tmp(pc) == Tmp(w.procs[pid].pc)
    requires InFlight(pc) ==> InFlight(w.procs[pid].pc) && (w.procs[pid].pc.Creating? ==> pc.Creating?)
    requires NoTargetYet(pc) ==> NoTargetYet(w.procs[pid].pc) || w.procs[pid].name !in w.dirs
    ensures Inv(Goto(w, pid, pc))
  {
    var w' := Goto(w, pid, pc);
    assert ProcInv(w, pid, w.procs[pid]);
    forall q <- w'.procs ensures ProcInv(w', q, w'.procs[q]) { assert ProcInv(w, q, w.procs[q]); }
    DirsStay(w, w');
  }

  /** Only one process at a time is past the lock of a name. */
  lemma SameNameSameProcess(w: World, p: Pid, q: Pid)
    requires Inv(w) && p in w.procs && q in w.procs
    requires HoldsLock(w.procs[p].pc) && HoldsLock(w.procs[q].pc) && w.procs[p].name == w.procs[q].name
    ensures p == q
  {
  }

  /** Removing a path that no process is filling or about to rename. */
  lemma RemoveKeepsInv(w: World, path: string)
    requires Inv(w)
    requires forall q <- w.procs :: InFlight(w.procs[q].pc) ==> Tmp(w.procs[q].pc).value != path
    ensures Inv(Removed(w, path))
  {
    var w' := Removed(w, path);
    forall q <- w'.procs ensures ProcInv(w', q, w'.procs[q]) { assert ProcInv(w, q, w.procs[q]); }
    forall d <- w'.dirs ensures DirInv(w', d) { assert DirInv(w, d); }
  }

  /** A path with the staging prefix of a name belongs to no live process but that name's holder. */
  lemma ReapedIsNotInFlight(w: World, pid: Pid, path: string, q: Pid)
    requires Inv(w) && pid in w.procs && w.procs[pid].pc.Reaping? && w.procs[pid].name + MARKER <= path && q in w.procs
    ensures Tmp(w.procs[q].pc) != Some(path)
  {
    assert ProcInv(w, pid, w.procs[pid]) && ProcInv(w, q, w.procs[q]);
    if Tmp(w.procs[q].pc) == Some(path) {
      PlainPrefixMatches(w.procs[pid].name, w.procs[q].name, path);
      SameNameSameProcess(w, pid, q);
    }
  }

  lemma EvictKeepsInv(w: World, name: string)
    requires Inv(w) && Plain(name)
    ensures Inv(Removed(w, name))
  {
    forall q <- w.procs | InFlight(w.procs[q].pc) ensures Tmp(w.procs[q].pc).value != name {
      assert ProcInv(w, q, w.procs[q]);
      PrefixMarks(w.procs[q].name, Tmp(w.procs[q].pc).value);
    }
    RemoveKeepsInv(w, name);
  }

  lemma AcquireKeepsInv(w: World, pid: Pid)
    requires Inv(w) && pid in w.procs && w.procs[pid].pc.Locking? && w.procs[pid].name !in w.locks
    ensures Inv(Goto(w.(locks := w.locks[w.procs[pid].name := pid]), pid, Rechecking))
  {
    var w' := Goto(w.(locks := w.locks[w.procs[pid].name := pid]), pid, Rechecking);
    forall q <- w'.procs ensures ProcInv(w', q, w'.procs[q]) { assert ProcInv(w, q, w.procs[q]); }
    DirsStay(w, w');
  }

  lemma ReleaseKeepsInv(w: World, pid: Pid, ok: bool)
    requires Inv(w) && pid in w.procs && w.procs[pid].pc.Unlocking?
    ensures Inv(Goto(w.(locks := w.locks - {w.procs[pid].name}), pid, Done(ok)))
  {
    var w' := Goto(w.(locks := w.locks - {w.procs[pid].name}), pid, Done(ok));
    assert ProcInv(w, pid, w.procs[pid]);
    forall q <- w'.procs ensures ProcInv(w', q, w'.procs[q]) { assert ProcInv(w, q, w.procs[q]); }
    DirsStay(w, w');
  }

  /** The staging directory's contents change, or it comes into being, while its process holds the lock. */
  lemma StagingKeepsInv(w: World, pid: Pid, tmp: string, dir: Dir, pc: Pc)
    requires Inv(w) && pid in w.procs && HoldsLock(w.procs[pid].pc) && NoTargetYet(w.procs[pid].pc)
    requires IsStaging(tmp, w.procs[pid].name) && InFlight(pc) && Tmp(pc) == Some(tmp) && NoTargetYet(pc)
    requires Tmp(w.procs[pid].pc) == None || Tmp(w.procs[pid].pc) == Some(tmp)
    requires dir == Finished || pc.Creating?
    ensures Inv(Goto(w.(dirs := w.dirs[tmp := dir]), pid, pc))
  {
    var w' := Goto(w.(dirs := w.dirs[tmp := dir]), pid, pc);
    var name := w.procs[pid].name;
    assert ProcInv(w, pid, w.procs[pid]);
    PrefixMarks(name, tmp);
    forall q <- w'.procs ensures ProcInv(w', q, w'.procs[q]) {
      assert ProcInv(w, q, w.procs[q]);
      if q != pid && Tmp(w.procs[q].pc) == Some(tmp) {
        PlainPrefixMatches(name, w.procs[q].name, tmp);
        SameNameSameProcess(w, pid, q);
      }
    }
    assert Stages(tmp) && Tmp(w'.procs[pid].pc) == Some(tmp);
    DirsGain(w, w', tmp);
  }

  lemma RenameKeepsInv(w: World, pid: Pid, tmp: string)
    requires Inv(w) && pid in w.procs && w.procs[pid].pc.Renaming? && w.procs[pid].pc.tmp == tmp
    requires tmp in w.dirs
    ensures Inv(Goto(w.(dirs := (w.dirs - {tmp})[w.procs[pid].name := w.dirs[tmp]]), pid, Dropping(tmp, true)))
  {
    var name := w.procs[pid].name;
    var w' := Goto(w.(dirs := (w.dirs - {tmp})[name := w.dirs[tmp]]), pid, Dropping(tmp, true));
    assert ProcInv(w, pid, w.procs[pid]);
    PrefixMarks(name, tmp);
    forall q <- w'.procs ensures ProcInv(w', q, w'.procs[q]) {
      assert ProcInv(w, q, w.procs[q]);
      if q != pid {
        if Tmp(w.procs[q].pc) == Some(tmp) {
          PlainPrefixMatches(name, w.procs[q].name, tmp);
          SameNameSameProcess(w, pid, q);
        }
        if HoldsLock(w.procs[q].pc) && w.procs[q].name == name { SameNameSameProcess(w, pid, q); }
      }
    }
    DirsGain(w, w', name);
  }

  lemma LeakKeepsInv(w: World, path: string)
    requires Inv(w)
    ensures Inv(w.(leaked := w.leaked + {path}))
  {
  }

  /** The guard's path is gone or known to have leaked: the process no longer owns it. */
  lemma DisownKeepsInv(w: World, pid: Pid, ok: bool)
    requires Inv(w) && pid in w.procs && w.procs[pid].pc.Dropping?
    requires w.procs[pid].pc.tmp !in w.dirs || w.procs[pid].pc.tmp in w.leaked
    ensures Inv(Goto(w, pid, Unlocking(ok)))
  {
    var w' := Goto(w, pid, Unlocking(ok));
    forall q <- w'.procs ensures ProcInv(w', q, w'.procs[q]) { assert ProcInv(w, q, w.procs[q]); }
    DirsStay(w, w');
  }

  lemma DropKeepsInv(w: World, pid: Pid, tmp: string, removed: bool, ok: bool)
    requires Inv(w) && pid in w.procs && w.procs[pid].pc.Dropping? && w.procs[pid].pc.tmp == tmp
    ensures Inv(DropStaging(w, pid, tmp, removed, ok))
  {
    if removed {
      assert ProcInv(w, pid, w.procs[pid]);
      forall q <- w.procs | InFlight(w.procs[q].pc) ensures Tmp(w.procs[q].pc).value != tmp {
        assert ProcInv(w, q, w.procs[q]);
        if Tmp(w.procs[q].pc).value == tmp {
          PlainPrefixMatches(w.procs[pid].name, w.procs[q].name, tmp);
          SameNameSameProcess(w, pid, q);
        }
      }
      RemoveKeepsInv(w, tmp);
      DisownKeepsInv(Removed(w, tmp), pid, ok);
    } else {
      LeakKeepsInv(w, tmp);
      DisownKeepsInv(w.(leaked := w.leaked + {tmp}), pid, ok);
    }
  }

  lemma CancelKeepsInv(w: World, pid: Pid)
    requires Inv(w) && Enabled(w, Cancel(pid))
    ensures Inv(CancelOf(w, pid))
  {
    var pc := w.procs[pid].pc;
    GotoKeepsInv(w, pid, if pc.Locking? then Done(false) else Dropping(pc.tmp, false));
  }

  lemma CrashKeepsInv(w: World, pid: Pid)
    requires Inv(w) && pid in w.procs
    ensures Inv(CrashOf(w, pid))
  {
    var w' := CrashOf(w, pid);
    assert ProcInv(w, pid, w.procs[pid]);
    forall q <- w'.procs ensures ProcInv(w', q, w'.procs[q]) { assert ProcInv(w, q, w.procs[q]); }
    DirsStay(w, w');
  }

  lemma SpawnKeepsInv(w: World, pid: Pid, name: string)
    requires Inv(w) && pid !in w.procs && Plain(name)
    ensures Inv(Apply(w, Spawn(pid, name)))
  {
    var w' := Apply(w, Spawn(pid, name));
    forall q <- w'.procs ensures ProcInv(w', q, w'.procs[q]) { if q != pid { assert ProcInv(w, q, w.procs[q]); } }
    DirsStay(w, w');
  }

  lemma ReapKeepsInv(w: World, pid: Pid, c: Choice)
    requires Inv(w) && Enabled(w, Step(pid, c)) && w.procs[pid].pc.Reaping? && w.procs[pid].pc.entries != []
    ensures Inv(StepOf(w, pid, c))
  {
    var entries := w.procs[pid].pc.entries;
    if w.procs[pid].name + MARKER <= entries[0] && c.success {
      forall q <- w.procs ensures Tmp(w.procs[q].pc) != Some(entries[0]) { ReapedIsNotInFlight(w, pid, entries[0], q); }
      RemoveKeepsInv(w, entries[0]);
      GotoKeepsInv(Removed(w, entries[0]), pid, Reaping(entries[1..]));
    } else {
      GotoKeepsInv(w, pid, Reaping(entries[1..]));
    }
  }

  /** Steps before the process holds the lock, and the recheck under it. */
  lemma ApproachKeepsInv(w: World, pid: Pid, c: Choice)
    requires Inv(w) && Enabled(w, Step(pid, c))
    requires !HoldsLock(w.procs[pid].pc) || w.procs[pid].pc.Rechecking? || w.procs[pid].pc.Listing?
    ensures Inv(StepOf(w, pid, c))
  {
    if w.procs[pid].pc.Locking? && c.success && w.procs[pid].name !in w.locks {
      AcquireKeepsInv(w, pid);
    } else {
      GotoKeepsInv(w, pid, StepOf(w, pid, c).procs[pid].pc);
    }
  }

  /** Steps from the staging directory's creation to the rename. */
  lemma BuildKeepsInv(w: World, pid: Pid, c: Choice)
    requires Inv(w) && Enabled(w, Step(pid, c))
    requires InFlight(w.procs[pid].pc) || w.procs[pid].pc.Staging?
    ensures Inv(StepOf(w, pid, c))
  {
    var pc := w.procs[pid].pc;
    if pc.Staging? {
      StageKeepsInv(w, pid, c);
    } else if pc.Creating? {
      CreatorKeepsInv(w, pid, c);
    } else if pc.Renaming? && c.success {
      assert ProcInv(w, pid, w.procs[pid]);
      RenameKeepsInv(w, pid, pc.tmp);
    } else {
      GotoKeepsInv(w, pid, StepOf(w, pid, c).procs[pid].pc);
    }
  }

  lemma StageKeepsInv(w: World, pid: Pid, c: Choice)
    requires Inv(w) && Enabled(w, Step(pid, c)) && w.procs[pid].pc.Staging?
    ensures Inv(StepOf(w, pid, c))
  {
    var tmp := StagingName(w.procs[pid].name, c.id);
    if !c.success || tmp in w.dirs {
      assert StepOf(w, pid, c) == Goto(w, pid, Unlocking(false));
      GotoKeepsInv(w, pid, Unlocking(false));
    } else {
      assert StepOf(w, pid, c) == Goto(w.(dirs := w.dirs[tmp := Partial]), pid, Creating(tmp));
      NewStagingKeepsInv(w, pid, c.id);
    }
  }

  lemma NewStagingKeepsInv(w: World, pid: Pid, id: string)
    requires Inv(w) && pid in w.procs && w.procs[pid].pc.Staging? && '.' !in id
    ensures var tmp := StagingName(w.procs[pid].name, id);
            Inv(Goto(w.(dirs := w.dirs[tmp := Partial]), pid, Creating(tmp)))
  {
    var tmp := StagingName(w.procs[pid].name, id);
    StagingNameIs(w.procs[pid].name, id);
    StagingKeepsInv(w, pid, tmp, Partial, Creating(tmp));
  }

  lemma CreatorKeepsInv(w: World, pid: Pid, c: Choice)
    requires Inv(w) && Enabled(w, Step(pid, c)) && w.procs[pid].pc.Creating?
    ensures Inv(StepOf(w, pid, c))
  {
    var tmp := w.procs[pid].pc.tmp;
    assert ProcInv(w, pid, w.procs[pid]);
    if c.success {
      StagingKeepsInv(w, pid, tmp, Finished, Touching(tmp));
    } else {
      GotoKeepsInv(w, pid, Dropping(tmp, false));
    }
  }

  lemma StepKeepsInv(w: World, pid: Pid, c: Choice)
    requires Inv(w) && Enabled(w, Step(pid, c))
    ensures Inv(StepOf(w, pid, c))
  {
    var pc := w.procs[pid].pc;
    if pc.Dropping? {
      DropKeepsInv(w, pid, pc.tmp, c.success || pc.tmp !in w.dirs, pc.ok);
    } else if pc.Unlocking? {
      ReleaseKeepsInv(w, pid, pc.ok);
    } else if pc.Reaping? {
      if pc.entries == [] { GotoKeepsInv(w, pid, Staging); } else { ReapKeepsInv(w, pid, c); }
    } else if InFlight(pc) || pc.Staging? {
      BuildKeepsInv(w, pid, c);
    } else {
      ApproachKeepsInv(w, pid, c);
    }
  }

  lemma ApplyKeepsInv(w: World, a: Action)
    requires Inv(w) && Enabled(w, a)
    ensures Inv(Apply(w, a))
  {
    match a
    case Spawn(pid, name) => SpawnKeepsInv(w, pid, name);
    case Step(pid, c) => StepKeepsInv(w, pid, c);
    case Cancel(pid) => CancelKeepsInv(w, pid);
    case Crash(pid) => CrashKeepsInv(w, pid);
    case Evict(name) => EvictKeepsInv(w, name);
  }

  lemma {:induction false} InvHolds(acts: seq<Action>)
    requires Exec(acts).Some?
    ensures Inv(Exec(acts).value)
    decreases |acts|
  {
    if acts != [] {
      InvHolds(acts[..|acts|-1]);
      ApplyKeepsInv(Exec(acts[..|acts|-1]).value, acts[|acts|-1]);
    }
  }

  // ---------------------------------------------------------------------------------------------
  // What holds in every run
  // ---------------------------------------------------------------------------------------------

  /** At most one process at a time is creating an entry, or anywhere between lock and unlock. */
  lemma OneCreatorPerName(acts: seq<Action>, w: World, p: Pid, q: Pid)
    requires Exec(acts) == Some(w) && p in w.procs && q in w.procs && w.procs[p].name == w.procs[q].name
    requires HoldsLock(w.procs[p].pc) && HoldsLock(w.procs[q].pc)
    ensures p == q
  {
    InvHolds(acts);
    SameNameSameProcess(w, p, q);
  }

  /** An entry is never partial. */
  lemma EntriesAreFinished(acts: seq<Action>, w: World, name: string)
    requires Exec(acts) == Some(w) && Plain(name) && name in w.dirs
    ensures w.dirs[name] == Finished
  {
    InvHolds(acts);
    assert DirInv(w, name);
  }

  /** An entry appears only when a process renames its own staging directory of that entry, whose
      creator has finished successfully; and that rename never finds the entry already there. */
  lemma EntriesAppearByRename(acts: seq<Action>, w: World, a: Action, name: string)
    requires Exec(acts) == Some(w) && Enabled(w, a) && Plain(name) && name !in w.dirs && name in Apply(w, a).dirs
    ensures a.Step? && w.procs[a.pid].name == name && w.procs[a.pid].pc.Renaming?
    ensures w.procs[a.pid].pc.tmp in w.dirs && w.dirs[w.procs[a.pid].pc.tmp] == Finished
            && IsStaging(w.procs[a.pid].pc.tmp, name)
  {
    InvHolds(acts);
    if a.Step? {
      assert ProcInv(w, a.pid, w.procs[a.pid]);
      PrefixMarks(w.procs[a.pid].name, StagingName(w.procs[a.pid].name, a.c.id));
    }
  }

  lemma RenameFindsNoEntry(acts: seq<Action>, w: World, pid: Pid)
    requires Exec(acts) == Some(w) && pid in w.procs && (w.procs[pid].pc.Renaming? || w.procs[pid].pc.RenameFailed?)
    ensures w.procs[pid].name !in w.dirs
  {
    InvHolds(acts);
    assert ProcInv(w, pid, w.procs[pid]);
  }

  predicate Succeeds(pc: Pc) {
    (pc.Dropping? || pc.Unlocking? || pc.Done?) && pc.ok
  }

  /** Action `k` is the step of the process that decides on `Ok`, the entry exists right after it, and
      the process keeps that result from then on. */
  ghost predicate DecidedAt(acts: seq<Action>, pid: Pid, name: string, k: nat) {
    && k < |acts| && acts[k].Step? && acts[k].pid == pid
    && Exec(acts[..k]).Some? && Undecided(Exec(acts[..k]).value, pid)
    && Exec(acts[..k+1]).Some? && name in Exec(acts[..k+1]).value.dirs
    && (forall j | k < j <= |acts| :: Exec(acts[..j]).Some? && Decided(Exec(acts[..j]).value, pid, name))
  }

  predicate Decided(w: World, pid: Pid, name: string) {
    pid in w.procs && w.procs[pid].name == name && Succeeds(w.procs[pid].pc)
  }

  predicate Undecided(w: World, pid: Pid) {
    pid in w.procs && !Succeeds(w.procs[pid].pc)
  }

  lemma OkStep(w: World, a: Action, pid: Pid, name: string)
    requires Enabled(w, a) && Decided(Apply(w, a), pid, name)
    ensures pid in w.procs && w.procs[pid].name == name
    ensures !Succeeds(w.procs[pid].pc) ==> a.Step? && a.pid == pid && name in Apply(w, a).dirs
  {
    if a.Step? && a.pid == pid {
      OwnOkStep(w, pid, a.c);
    } else if a.Evict? || a.pid != pid {
      OthersKeepProcs(w, a, pid);
    } else {
      NoOkByItself(w, a);
    }
  }

  /** Being spawned, cancelled or crashed does not make a process succeed. */
  lemma NoOkByItself(w: World, a: Action)
    requires Enabled(w, a) && (a.Spawn? || a.Cancel? || a.Crash?)
    ensures a.pid in Apply(w, a).procs ==> !Succeeds(Apply(w, a).procs[a.pid].pc)
  {
  }

  lemma OthersKeepProcs(w: World, a: Action, q: Pid)
    requires Enabled(w, a) && (a.Evict? || a.pid != q)
    ensures q in Apply(w, a).procs <==> q in w.procs
    ensures q in w.procs ==> Apply(w, a).procs[q] == w.procs[q]
  {
    if a.Step? {
      StepChangesOne(w, a.pid, a.c);
    }
  }

  lemma StepChangesOne(w: World, pid: Pid, c: Choice)
    requires Enabled(w, Step(pid, c))
    ensures pid in StepOf(w, pid, c).procs && StepOf(w, pid, c).procs[pid].name == w.procs[pid].name
    ensures StepOf(w, pid, c).procs - {pid} == w.procs - {pid}
  {
    if Tmp(w.procs[pid].pc).None? {
      EarlyStepChangesOne(w, pid, c);
    } else {
      LateStepChangesOne(w, pid, c);
    }
  }

  lemma EarlyStepChangesOne(w: World, pid: Pid, c: Choice)
    requires Enabled(w, Step(pid, c)) && Tmp(w.procs[pid].pc).None?
    ensures pid in StepOf(w, pid, c).procs && StepOf(w, pid, c).procs[pid].name == w.procs[pid].name
    ensures StepOf(w, pid, c).procs - {pid} == w.procs - {pid}
  {
  }

  lemma LateStepChangesOne(w: World, pid: Pid, c: Choice)
    requires Enabled(w, Step(pid, c)) && Tmp(w.procs[pid].pc).Some?
    ensures pid in StepOf(w, pid, c).procs && StepOf(w, pid, c).procs[pid].name == w.procs[pid].name
    ensures StepOf(w, pid, c).procs - {pid} == w.procs - {pid}
  {
  }

  lemma OwnOkStep(w: World, pid: Pid, c: Choice)
    requires Enabled(w, Step(pid, c)) && pid in StepOf(w, pid, c).procs && Succeeds(StepOf(w, pid, c).procs[pid].pc)
    ensures StepOf(w, pid, c).procs[pid].name == w.procs[pid].name
    ensures !Succeeds(w.procs[pid].pc) ==> w.procs[pid].name in StepOf(w, pid, c).dirs
  {
    if Tmp(w.procs[pid].pc).None? {
      OkWithoutStaging(w, pid, c);
    }
  }

  /** Before staging: the entry was there when the process looked. */
  lemma OkWithoutStaging(w: World, pid: Pid, c: Choice)
    requires Enabled(w, Step(pid, c)) && Tmp(w.procs[pid].pc).None?
    requires pid in StepOf(w, pid, c).procs && Succeeds(StepOf(w, pid, c).procs[pid].pc)
    ensures StepOf(w, pid, c).procs[pid].name == w.procs[pid].name
    ensures !Succeeds(w.procs[pid].pc) ==> w.procs[pid].name in StepOf(w, pid, c).dirs
  {
  }

  lemma DecisionStays(before: seq<Action>, a: Action, pid: Pid, name: string, k: nat)
    requires DecidedAt(before, pid, name, k)
    requires Exec(before + [a]).Some? && Decided(Exec(before + [a]).value, pid, name)
    ensures DecidedAt(before + [a], pid, name, k)
  {
    var acts := before + [a];
    assert acts[..k] == before[..k] && acts[..k+1] == before[..k+1];
    forall j | k < j <= |acts| ensures Exec(acts[..j]).Some? && Decided(Exec(acts[..j]).value, pid, name) {
      assert j <= |before| ==> acts[..j] == before[..j];
      assert j == |acts| ==> acts[..j] == acts;
    }
  }

  /** A process that returns `Ok` decided so at a step of its own, and right after that very step, a
      check or its rename, the entry existed. */
  lemma {:induction false} OkMeansSeen(acts: seq<Action>, pid: Pid, name: string)
    requires Exec(acts).Some? && Decided(Exec(acts).value, pid, name)
    ensures exists k :: DecidedAt(acts, pid, name, k)
    decreases |acts|
  {
    var before, a := acts[..|acts|-1], acts[|acts|-1];
    var w := Exec(before).value;
    OkStep(w, a, pid, name);
    assert acts == before + [a];
    if Succeeds(w.procs[pid].pc) {
      OkMeansSeen(before, pid, name);
      var k :| DecidedAt(before, pid, name, k);
      DecisionStays(before, a, pid, name, k);
    } else {
      assert acts[..|acts|] == acts;
      assert DecidedAt(acts, pid, name, |acts| - 1);
    }
  }

  /** Nothing that another process, an eviction or a crash does touches a directory that a live
      process is filling or about to rename. */
  lemma LiveStagingIsSafe(acts: seq<Action>, w: World, a: Action, q: Pid)
    requires Exec(acts) == Some(w) && Enabled(w, a) && q in w.procs && InFlight(w.procs[q].pc)
    requires a.Evict? || a.pid != q
    ensures q in Apply(w, a).procs && Apply(w, a).procs[q] == w.procs[q]
    ensures w.procs[q].pc.tmp in w.dirs && w.procs[q].pc.tmp in Apply(w, a).dirs
            && Apply(w, a).dirs[w.procs[q].pc.tmp] == w.dirs[w.procs[q].pc.tmp]
  {
    InvHolds(acts);
    OthersKeepPlace(w, a, q);
    OthersKeepStaging(w, a, q);
  }

  lemma OthersKeepPlace(w: World, a: Action, q: Pid)
    requires Enabled(w, a) && q in w.procs && (a.Evict? || a.pid != q)
    ensures q in Apply(w, a).procs && Apply(w, a).procs[q] == w.procs[q]
  {
    OthersKeepProcs(w, a, q);
  }

  /** A path comes into being only as a staging directory or by a rename to an entry. */
  lemma NewPath(w: World, a: Action, path: string)
    requires Enabled(w, a) && path !in w.dirs && path in Apply(w, a).dirs
    ensures a.Step?
    ensures (w.procs[a.pid].pc.Staging? && path == StagingName(w.procs[a.pid].name, a.c.id))
            || (w.procs[a.pid].pc.Renaming? && path == w.procs[a.pid].name)
  {}

  lemma OthersKeepStaging(w: World, a: Action, q: Pid)
    requires Inv(w) && Enabled(w, a) && q in w.procs && InFlight(w.procs[q].pc) && (a.Evict? || a.pid != q)
    ensures w.procs[q].pc.tmp in w.dirs && w.procs[q].pc.tmp in Apply(w, a).dirs
            && Apply(w, a).dirs[w.procs[q].pc.tmp] == w.dirs[w.procs[q].pc.tmp]
  {
    assert ProcInv(w, q, w.procs[q]);
    PrefixMarks(w.procs[q].name, w.procs[q].pc.tmp);
    if a.Step? || a.Cancel? {
      var p := w.procs[a.pid];
      assert ProcInv(w, a.pid, p);
      if p.pc.Reaping? && p.pc.entries != [] && p.name + MARKER <= p.pc.entries[0] {
        ReapedIsNotInFlight(w, a.pid, p.pc.entries[0], q);
      }
      if Tmp(p.pc) == Some(w.procs[q].pc.tmp) {
        PlainPrefixMatches(p.name, w.procs[q].name, w.procs[q].pc.tmp);
        SameNameSameProcess(w, a.pid, q);
      }
    }
  }

  /** While nobody holds the lock of a name, every staging directory of that name is one whose guard
      was prevented from running by a crash, or could not remove it. */
  lemma UnlockedMeansNoStaging(acts: seq<Action>, w: World, name: string, path: string)
    requires Exec(acts) == Some(w) && Plain(name) && name !in w.locks && path in w.dirs && IsStaging(path, name)
    ensures path in w.leaked
  {
    InvHolds(acts);
    assert DirInv(w, path);
    PrefixMarks(name, path);
    if Owned(w.procs, path) {
      var q :| q in w.procs && Tmp(w.procs[q].pc) == Some(path);
      assert ProcInv(w, q, w.procs[q]);
      PlainPrefixMatches(name, w.procs[q].name, path);
    }
  }

  /** The process that owns a staging directory crashes, or its guard cannot remove it. */
  ghost predicate Leaks(w: World, a: Action, path: string) {
    && (a.Crash? || (a.Step? && !a.c.success && path in w.dirs))
    && a.pid in w.procs && Tmp(w.procs[a.pid].pc) == Some(path)
    && (a.Step? ==> w.procs[a.pid].pc.Dropping?)
  }

  ghost predicate LeakedAt(acts: seq<Action>, k: nat, path: string) {
    k < |acts| && Exec(acts[..k]).Some? && Leaks(Exec(acts[..k]).value, acts[k], path)
  }

  lemma LeakStep(w: World, a: Action, path: string)
    requires Enabled(w, a)
    ensures path in Apply(w, a).leaked <==> path in w.leaked || Leaks(w, a, path)
  {
    if a.Step? && !w.procs[a.pid].pc.Dropping? {
      OnlyDroppingLeaks(w, a.pid, a.c);
    }
  }

  lemma OnlyDroppingLeaks(w: World, pid: Pid, c: Choice)
    requires Enabled(w, Step(pid, c)) && !w.procs[pid].pc.Dropping?
    ensures StepOf(w, pid, c).leaked == w.leaked
  {
  }

  lemma LeakedBefore(before: seq<Action>, a: Action, path: string, k: nat)
    requires k < |before|
    ensures LeakedAt(before + [a], k, path) <==> LeakedAt(before, k, path)
  {
    assert (before + [a])[..k] == before[..k] && (before + [a])[k] == before[k];
  }

  lemma LeakedLast(before: seq<Action>, a: Action, path: string)
    requires Exec(before).Some?
    ensures LeakedAt(before + [a], |before|, path) <==> Leaks(Exec(before).value, a, path)
  {
    assert (before + [a])[..|before|] == before;
  }

  lemma LeakedSometime(before: seq<Action>, a: Action, path: string)
    requires Exec(before).Some?
    ensures (exists k :: LeakedAt(before + [a], k, path)) <==>
              (exists k :: LeakedAt(before, k, path)) || Leaks(Exec(before).value, a, path)
  {
    LeakedLast(before, a, path);
    forall k: nat | k < |before| ensures LeakedAt(before + [a], k, path) <==> LeakedAt(before, k, path) {
      LeakedBefore(before, a, path, k);
    }
  }

  /** Over whole runs: a staging directory counts as leaked if and only if, at some step before, the
      process that owned it crashed or its guard could not remove it. */
  lemma {:induction false} OnlyCrashesLeak(acts: seq<Action>, w: World, path: string)
    requires Exec(acts) == Some(w)
    ensures path in w.leaked <==> exists k :: LeakedAt(acts, k, path)
    decreases |acts|
  {
    if acts != [] {
      var before, a := acts[..|acts|-1], acts[|acts|-1];
      OnlyCrashesLeak(before, Exec(before).value, path);
      LeakStep(Exec(before).value, a, path);
      LeakedSometime(before, a, path);
      assert acts == before + [a];
    }
  }

  // ---------------------------------------------------------------------------------------------
  // Reaping is complete
  // ---------------------------------------------------------------------------------------------

  /** Every directory with the staging prefix of the process's name is one of `entries`. */
  ghost predicate OnlyLeft(w: World, pid: Pid, entries: seq<string>)
    requires pid in w.procs
  {
    forall path <- w.dirs :: w.procs[pid].name + MARKER <= path ==> path in entries
  }

  /** From the listing on: what is left is still listed while the process removes, and nothing is left
      when it goes on to stage. */
  ghost predicate ReapInv(w: World, pid: Pid) {
    && pid in w.procs
    && var pc := w.procs[pid].pc;
       && (pc.Done? || (HoldsLock(pc) && !pc.Rechecking? && !pc.Listing?))
       && (pc.Reaping? ==> OnlyLeft(w, pid, pc.entries))
       && (pc.Staging? ==> OnlyLeft(w, pid, []))
  }

  lemma OwnReapStep(w: World, pid: Pid, c: Choice)
    requires Enabled(w, Step(pid, c)) && ReapInv(w, pid) && (w.procs[pid].pc.Reaping? ==> c.success)
    ensures ReapInv(StepOf(w, pid, c), pid)
  {
    if w.procs[pid].pc.Reaping? && w.procs[pid].pc.entries != [] {
      var entries := w.procs[pid].pc.entries;
      assert forall path :: path in entries ==> path == entries[0] || path in entries[1..];
    }
  }

  lemma ReapStep(w: World, pid: Pid, a: Action)
    requires Inv(w) && Enabled(w, a) && ReapInv(w, pid) && a != Crash(pid)
    requires a.Step? && a.pid == pid ==> a.c.success
    ensures ReapInv(Apply(w, a), pid)
  {
    if a.Evict? || a.pid != pid {
      OthersKeepPlace(w, a, pid);
      if w.procs[pid].pc.Reaping? { OthersAddNothing(w, pid, a, w.procs[pid].pc.entries); }
      if w.procs[pid].pc.Staging? { OthersAddNothing(w, pid, a, []); }
    } else if a.Step? {
      OwnReapStep(w, pid, a.c);
    }
  }

  lemma {:induction false} ReapRun(acts: seq<Action>, pid: Pid, more: seq<Action>)
    requires Exec(acts).Some? && ReapInv(Exec(acts).value, pid) && Exec(acts + more).Some? && Crash(pid) !in more
    requires forall a <- more :: a.Step? && a.pid == pid ==> a.c.success
    ensures ReapInv(Exec(acts + more).value, pid)
    decreases |more|
  {
    if more == [] {
      assert acts + more == acts;
    } else {
      var before, a := more[..|more|-1], more[|more|-1];
      assert (acts + more)[..|acts + more|-1] == acts + before;
      assert (acts + more)[|acts + more|-1] == a && a in more;
      ReapRun(acts, pid, before);
      InvHolds(acts + before);
      ReapStep(Exec(acts + before).value, pid, a);
    }
  }

  /** From a complete listing to the staging: if the process is not killed and its removals succeed, it
      gets to `Staging` only when no directory with the staging prefix of its name exists, whatever
      other processes have done meanwhile. */
  lemma ReapingIsComplete(acts: seq<Action>, w: World, pid: Pid, c: Choice, more: seq<Action>, w': World)
    requires Exec(acts) == Some(w) && pid in w.procs && w.procs[pid].pc.Listing? && '.' !in c.id
    requires c.success && forall path <- w.dirs :: path in c.entries
    requires Exec(acts + [Step(pid, c)] + more) == Some(w') && Crash(pid) !in more
    requires forall a <- more :: a.Step? && a.pid == pid ==> a.c.success
    ensures pid in w'.procs
    ensures w'.procs[pid].pc.Staging? ==> forall path <- w'.dirs :: !(w'.procs[pid].name + MARKER <= path)
  {
    var listed := acts + [Step(pid, c)];
    assert listed[..|listed|-1] == acts;
    assert ReapInv(StepOf(w, pid, c), pid);
    ReapRun(listed, pid, more);
  }

  lemma OthersAddNothing(w: World, pid: Pid, a: Action, entries: seq<string>)
    requires Inv(w) && Enabled(w, a) && pid in w.procs && HoldsLock(w.procs[pid].pc) && OnlyLeft(w, pid, entries)
    requires a.Evict? || a.pid != pid
    ensures pid in Apply(w, a).procs && OnlyLeft(Apply(w, a), pid, entries)
  {
    var name, w' := w.procs[pid].name, Apply(w, a);
    OthersKeepPlace(w, a, pid);
    forall path <- w'.dirs | name + MARKER <= path ensures path in entries {
      if path !in w.dirs {
        NewPath(w, a, path);
        OthersStageOtherNames(w, pid, a.pid, a.c.id);
        PrefixMarks(name, path);
      }
    }
  }

  lemma OthersStageOtherNames(w: World, pid: Pid, q: Pid, id: string)
    requires Inv(w) && pid in w.procs && q in w.procs && pid != q && HoldsLock(w.procs[pid].pc) && '.' !in id
    ensures Plain(w.procs[q].name)
    ensures HoldsLock(w.procs[q].pc) ==> !(w.procs[pid].name + MARKER <= StagingName(w.procs[q].name, id))
  {
    assert ProcInv(w, pid, w.procs[pid]) && ProcInv(w, q, w.procs[q]);
    StagingNameIs(w.procs[q].name, id);
    PlainPrefixMatches(w.procs[pid].name, w.procs[q].name, StagingName(w.procs[q].name, id));
  }
}
