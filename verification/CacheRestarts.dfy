/** The cache of `cli/src/download_cache.rs` when saving the list may fail: the process goes on with the
    list in memory, and only a restart reads the file again. */
module CacheRestarts {
  import opened Common
  import opened StateFile
  import opened CacheLru
  import opened CacheDirectory

  /** `view` holds the directories and the list in memory, `file` the list file if it can be read, and
      `saved` whether the last save was written (before the first one: whether memory was read from it). */
  datatype Live = Live(view: Disk, file: Option<seq<string>>, saved: bool)

  function Write(l: Live, s: FsStep, w: WriteResult): Live {
    if s.SaveList? then Live(Do(l.view, s), AfterWrite(l.file, s.l, w), w == Written) else l.(view := Do(l.view, s))
  }

  function WriteAll(l: Live, steps: seq<FsStep>, w: WriteResult): Live
    decreases |steps|
  {
    if steps == [] then l else WriteAll(Write(l, steps[0], w), steps[1..], w)
  }

  /** A new process: its list is what the file holds, or empty. */
  function Restarted(l: Live): Live {
    Live(Disk(l.view.dirs, Some(List(Disk(l.view.dirs, l.file)))), l.file, true)
  }

  /** An operation whose save goes as `w` says, with a crash and a restart after `upTo` of its steps. */
  datatype Attempt = Attempt(op: Op, w: WriteResult, upTo: Option<nat>)

  /** The steps that an operation takes before it ends or the crash comes. */
  function Performed(l: Live, e: Attempt): seq<FsStep> {
    var plan := Plan(l.view, e.op);
    if e.upTo.Some? && e.upTo.value < |plan| then plan[..e.upTo.value] else plan
  }

  /** Where the process is then. */
  function Before(l: Live, e: Attempt): Live {
    WriteAll(l, Performed(l, e), e.w)
  }

  function AfterAttempt(l: Live, e: Attempt): Live {
    if e.upTo.Some? then Restarted(Before(l, e)) else Before(l, e)
  }

  function AfterAttempts(l: Live, attempts: seq<Attempt>): Live
    decreases |attempts|
  {
    if attempts == [] then l else AfterAttempts(AfterAttempt(l, attempts[0]), attempts[1..])
  }

  /** Whenever the run restarts, the last save before was written. */
  predicate SavedAtRestarts(l: Live, attempts: seq<Attempt>)
    decreases |attempts|
  {
    attempts == [] ||
    ((attempts[0].upTo.Some? ==> Before(l, attempts[0]).saved) &&
     SavedAtRestarts(AfterAttempt(l, attempts[0]), attempts[1..]))
  }

  /** The list in memory knows every directory, and a written file holds that list. */
  ghost predicate Covered(l: Live) {
    Listed(l.view) && (l.saved ==> List(Disk(l.view.dirs, l.file)) == List(l.view))
  }

  lemma {:induction false} ViewOfWrites(l: Live, steps: seq<FsStep>, w: WriteResult)
    requires l.saved ==> List(Disk(l.view.dirs, l.file)) == List(l.view)
    ensures var l' := WriteAll(l, steps, w);
            l'.view == DoAll(l.view, steps) && (l'.saved ==> List(Disk(l'.view.dirs, l'.file)) == List(l'.view))
    decreases |steps|
  {
    if steps != [] {
      ViewOfWrites(Write(l, steps[0], w), steps[1..], w);
    }
  }

  lemma BeforeIsCovered(l: Live, e: Attempt)
    requires Covered(l)
    ensures Covered(Before(l, e))
  {
    var plan := Plan(l.view, e.op);
    var k := if e.upTo.Some? && e.upTo.value < |plan| then e.upTo.value else |plan|;
    assert plan[..|plan|] == plan;
    PlanKeepsListed(l.view, e.op, k);
    ViewOfWrites(l, plan[..k], e.w);
  }

  /** After a written save a restart changes nothing. */
  lemma WrittenSaveSurvives(l: Live)
    requires Covered(l) && l.saved
    ensures Covered(Restarted(l)) && Restarted(l).view.dirs == l.view.dirs && List(Restarted(l).view) == List(l.view)
  {
  }

  /** Over any run, with saves that fail or are cut off and with crashes after any step: the list in
      memory covers all directories, as long as each restart comes after a save that was written. */
  lemma {:induction false} MemoryCoversDirectories(l: Live, attempts: seq<Attempt>)
    requires Covered(l) && SavedAtRestarts(l, attempts)
    ensures Covered(AfterAttempts(l, attempts))
    decreases |attempts|
  {
    if attempts != [] {
      BeforeIsCovered(l, attempts[0]);
      if attempts[0].upTo.Some? { WrittenSaveSurvives(Before(l, attempts[0])); }
      MemoryCoversDirectories(AfterAttempt(l, attempts[0]), attempts[1..]);
    }
  }

  // ---------------------------------------------------------------------------------------------
  // Restarting after saves that failed
  // ---------------------------------------------------------------------------------------------

  function Dirs(dirs: set<string>, steps: seq<FsStep>): set<string>
    decreases |steps|
  {
    if steps == [] then dirs else Dirs(Do(Disk(dirs, None), steps[0]).dirs, steps[1..])
  }

  predicate Saves(steps: seq<FsStep>)
    decreases |steps|
  {
    steps != [] && (steps[0].SaveList? || Saves(steps[1..]))
  }

  /** Every directory made under a name that is not saved is removed again. */
  predicate Settled(saved: seq<string>, steps: seq<FsStep>)
    decreases |steps|
  {
    steps == [] ||
    ((steps[0].AddDir? && steps[0].name !in saved ==> RemoveDir(steps[0].name) in steps[1..]) &&
     Settled(saved, steps[1..]))
  }

  lemma {:induction false} SettledIff(saved: seq<string>, dirs: set<string>, steps: seq<FsStep>)
    ensures (forall name <- Dirs(dirs, steps) :: name in saved) <==>
              Settled(saved, steps) && forall name <- dirs :: name in saved || RemoveDir(name) in steps
    decreases |steps|
  {
    if steps != [] {
      var next, rest := Do(Disk(dirs, None), steps[0]).dirs, steps[1..];
      SettledIff(saved, next, rest);
      assert steps == [steps[0]] + rest;
      StepSettles(saved, dirs, steps[0], rest);
    }
  }

  lemma StepSettles(saved: seq<string>, dirs: set<string>, s: FsStep, rest: seq<FsStep>)
    ensures var next := Do(Disk(dirs, None), s).dirs;
            (forall name <- next :: name in saved || RemoveDir(name) in rest) <==>
              (s.AddDir? && s.name !in saved ==> RemoveDir(s.name) in rest) &&
              forall name <- dirs :: name in saved || RemoveDir(name) in [s] + rest
  {
  }

  lemma {:induction false} Failing(l: Live, steps: seq<FsStep>, w: WriteResult)
    requires w != Written
    ensures var l' := WriteAll(l, steps, w);
            && l'.view.dirs == Dirs(l.view.dirs, steps)
            && l'.file == if w == CutOff && Saves(steps) then None else l.file
    decreases |steps|
  {
    if steps != [] {
      Failing(Write(l, steps[0], w), steps[1..], w);
    }
  }

  /** All steps of a run. */
  function Steps(l: Live, attempts: seq<Attempt>): seq<FsStep>
    decreases |attempts|
  {
    if attempts == [] then [] else Performed(l, attempts[0]) + Steps(AfterAttempt(l, attempts[0]), attempts[1..])
  }

  /** A save of the run is cut off. */
  predicate CutsOff(l: Live, attempts: seq<Attempt>)
    decreases |attempts|
  {
    attempts != [] &&
    ((attempts[0].w == CutOff && Saves(Performed(l, attempts[0]))) ||
     CutsOff(AfterAttempt(l, attempts[0]), attempts[1..]))
  }

  lemma {:induction false} DirsAppend(dirs: set<string>, a: seq<FsStep>, b: seq<FsStep>)
    ensures Dirs(dirs, a + b) == Dirs(Dirs(dirs, a), b)
    decreases |a|
  {
    if a == [] {
      assert a + b == b;
    } else {
      assert (a + b)[0] == a[0] && (a + b)[1..] == a[1..] + b;
      DirsAppend(Do(Disk(dirs, None), a[0]).dirs, a[1..], b);
    }
  }

  lemma {:induction false} FailingRun(l: Live, attempts: seq<Attempt>)
    requires forall e <- attempts :: e.w != Written
    ensures var l' := AfterAttempts(l, attempts);
            && l'.view.dirs == Dirs(l.view.dirs, Steps(l, attempts))
            && l'.file == if CutsOff(l, attempts) then None else l.file
    decreases |attempts|
  {
    if attempts != [] {
      var e, next := attempts[0], AfterAttempt(l, attempts[0]);
      Failing(l, Performed(l, e), e.w);
      FailingRun(next, attempts[1..]);
      DirsAppend(l.view.dirs, Performed(l, e), Steps(next, attempts[1..]));
    }
  }

  /** From a written save on, a run of operations, crashes and restarts in which every save fails: the
      next restart finds every directory listed if and only if every directory made meanwhile under a
      name that this save lacks was removed again, and, if a save was cut off, every directory that
      there was and every one made meanwhile was removed. */
  lemma RestartKeepsListedIff(l: Live, attempts: seq<Attempt>)
    requires Covered(l) && l.saved && forall e <- attempts :: e.w != Written
    ensures var cut, steps := CutsOff(l, attempts), Steps(l, attempts);
            Listed(Restarted(AfterAttempts(l, attempts)).view) <==>
              && Settled(if cut then [] else List(l.view), steps)
              && (cut ==> forall name <- l.view.dirs :: RemoveDir(name) in steps)
  {
    FailingRun(l, attempts);
    SettledIff(if CutsOff(l, attempts) then [] else List(l.view), l.view.dirs, Steps(l, attempts));
  }

  // ---------------------------------------------------------------------------------------------
  // One operation whose save fails
  // ---------------------------------------------------------------------------------------------

  /** Whether an operation gets to saving the list. */
  predicate GetsToSave(d: Disk, op: Op) {
    match op
    case Exists(name, _) => name in d.dirs
    case Delete(name, removable) => name in d.dirs ==> removable
    case Create(name, created, _, _) => name !in d.dirs && created
  }

  /** Whether an operation that gets there leaves no directory. */
  predicate Empties(d: Disk, op: Op) {
    match op
    case Exists(name, removable) => d.dirs <= Evicted(d.dirs, List(d), name, removable)
    case Delete(name, _) => d.dirs <= {name}
    case Create(name, _, renamed, removable) => !renamed && d.dirs <= Evicted(d.dirs, List(d), name, removable)
  }

  lemma OneStep(dirs: set<string>, s: FsStep)
    ensures Dirs(dirs, [s]) == Do(Disk(dirs, None), s).dirs
  {
    assert [s][1..] == [];
  }

  lemma TouchDirs(d: Disk, name: string, removable: bool, more: seq<FsStep>)
    ensures Dirs(d.dirs, TouchPlan(d, name, removable) + more)
            == Dirs(d.dirs - Evicted(d.dirs, List(d), name, removable), more)
    ensures Saves(TouchPlan(d, name, removable) + more)
  {
    var plan, f := TouchPlan(d, name, removable), Front(List(d), name);
    var save := SaveList(Touched(List(d), name, Gone(d.dirs, List(d), name, removable)));
    DirsAppend(d.dirs, plan, more);
    assert (plan + more)[1..] == plan[1..] + more;
    if Evicted(d.dirs, List(d), name, removable) == {} {
      assert plan == [save] && d.dirs - {} == d.dirs;
      OneStep(d.dirs, save);
    } else {
      assert plan == [RemoveDir(f[|f|-1])] + [save];
      DirsAppend(d.dirs, [RemoveDir(f[|f|-1])], [save]);
      OneStep(d.dirs, RemoveDir(f[|f|-1]));
      OneStep(d.dirs - {f[|f|-1]}, save);
      assert d.dirs - {f[|f|-1]} == d.dirs - Evicted(d.dirs, List(d), name, removable);
      assert (plan + more)[1..][0] == save;
    }
  }

  lemma OpDirs(d: Disk, op: Op)
    ensures Saves(Plan(d, op)) <==> GetsToSave(d, op)
    ensures Dirs(d.dirs, Plan(d, op)) ==
            match op
            case Exists(name, removable) =>
              d.dirs - if name in d.dirs then Evicted(d.dirs, List(d), name, removable) else {}
            case Delete(name, removable) => if removable then d.dirs - {name} else d.dirs
            case Create(name, created, renamed, removable) =>
              if name in d.dirs || !created then d.dirs
              else d.dirs - Evicted(d.dirs, List(d), name, removable) + if renamed then {name} else {}
  {
    match op
    case Exists(name, removable) =>
      TouchDirs(d, name, removable, []);
      assert TouchPlan(d, name, removable) + [] == TouchPlan(d, name, removable);
    case Delete(name, removable) =>
      OneStep(d.dirs, SaveList(Retain(List(d), name)));
      if name in d.dirs && removable {
        assert Plan(d, op)[1..] == [SaveList(Retain(List(d), name))];
        OneStep(d.dirs - {name}, SaveList(Retain(List(d), name)));
      }
    case Create(name, created, renamed, removable) =>
      TouchDirs(d, name, removable, if renamed then [AddDir(name)] else []);
      OneStep(d.dirs - Evicted(d.dirs, List(d), name, removable), AddDir(name));
  }

  /** The file cannot be opened for the save of one operation: a restart finds every directory listed if
      and only if the operation is not a creation of a new entry that was not saved before. */
  lemma FailedSaveIff(l: Live, op: Op)
    requires Covered(l) && l.saved
    ensures Listed(Restarted(Before(l, Attempt(op, NotOpened, None))).view) <==>
              !(op.Create? && op.created && op.renamed && op.name !in l.view.dirs && op.name !in List(l.view))
  {
    Failing(l, Plan(l.view, op), NotOpened);
    OpDirs(l.view, op);
    if op.Create? && op.created && op.renamed && op.name !in l.view.dirs {
      assert op.name in Before(l, Attempt(op, NotOpened, None)).view.dirs;
    }
  }

  /** The save of one operation is cut off: a restart finds every directory listed if and only if the
      operation does not get to saving, or leaves no directory. */
  lemma CutOffSaveIff(l: Live, op: Op)
    requires Covered(l) && l.saved
    ensures Listed(Restarted(Before(l, Attempt(op, CutOff, None))).view) <==>
              !GetsToSave(l.view, op) || Empties(l.view, op)
  {
    var l' := Before(l, Attempt(op, CutOff, None));
    Failing(l, Plan(l.view, op), CutOff);
    OpDirs(l.view, op);
    if GetsToSave(l.view, op) {
      assert l'.file == None && (Listed(Restarted(l').view) <==> l'.view.dirs == {});
    }
  }

  /** The error of the save is ignored: one failed save, the rename, and a restart leave a directory that
      the list does not know. */
  lemma FailedSaveLeaks(name: string, w: WriteResult)
    requires w != Written
    ensures var start := Live(Disk({}, Some([])), None, true);
            Covered(start) && !Listed(Restarted(Before(start, Attempt(Create(name, true, true, true), w, None))).view)
  {
    var start := Live(Disk({}, Some([])), None, true);
    var plan := Plan(start.view, Create(name, true, true, true));
    assert Front([], name) == [name];
    assert plan == [SaveList([name]), AddDir(name)];
    var l1 := Write(start, SaveList([name]), w);
    assert plan[1..] == [AddDir(name)] && [AddDir(name)][1..] == [];
    assert WriteAll(start, plan, w) == WriteAll(l1, [AddDir(name)], w) == Write(l1, AddDir(name), w);
    assert Before(start, Attempt(Create(name, true, true, true), w, None)) == Write(l1, AddDir(name), w);
    assert name in Write(l1, AddDir(name), w).view.dirs;
  }
}
