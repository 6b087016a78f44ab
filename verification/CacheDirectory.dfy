/** One process working on the cache of `cli/src/download_cache.rs`: directories and the saved list
    change one file-system step at a time, and the process may stop between any two of them. */
module CacheDirectory {
  import opened Common
  import opened StateFile
  import opened CacheLru

  // ---------------------------------------------------------------------------------------------
  // File-system steps of the operations
  // ---------------------------------------------------------------------------------------------

  /** The entry directories, and the list file if it can be read. */
  datatype Disk = Disk(dirs: set<string>, file: Option<seq<string>>)

  datatype FsStep = RemoveDir(name: string) | AddDir(name: string) | SaveList(l: seq<string>)

  function Do(d: Disk, s: FsStep): Disk {
    match s
    case RemoveDir(name) => d.(dirs := d.dirs - {name})
    case AddDir(name) => d.(dirs := d.dirs + {name})
    case SaveList(l) => d.(file := Some(l))
  }

  function DoAll(d: Disk, steps: seq<FsStep>): Disk
    decreases |steps|
  {
    if steps == [] then d else DoAll(Do(d, steps[0]), steps[1..])
  }

  function List(d: Disk): seq<string> {
    if d.file.Some? then d.file.value else []
  }

  /** `removable` tells whether removing a directory succeeds, `created` and `renamed` how far the
      creation gets. */
  datatype Op =
    | Exists(name: string, removable: bool)
    | Delete(name: string, removable: bool)
    | Create(name: string, created: bool, renamed: bool, removable: bool)

  function Evicted(dirs: set<string>, l: seq<string>, name: string, removable: bool): set<string> {
    var f := Front(l, name);
    if |f| > KEEP_LRU && removable then {f[|f|-1]} * dirs else {}
  }

  /** Whether the last name can leave the list. */
  function Gone(dirs: set<string>, l: seq<string>, name: string, removable: bool): bool {
    removable || Front(l, name)[|Front(l, name)|-1] !in dirs
  }

  function TouchPlan(d: Disk, name: string, removable: bool): seq<FsStep> {
    var l := List(d);
    var f := Front(l, name);
    (if Evicted(d.dirs, l, name, removable) != {} then [RemoveDir(f[|f|-1])] else [])
    + [SaveList(Touched(l, name, Gone(d.dirs, l, name, removable)))]
  }

  /** The steps an operation takes when it is not interrupted. */
  function Plan(d: Disk, op: Op): seq<FsStep> {
    match op
    case Exists(name, removable) => if name in d.dirs then TouchPlan(d, name, removable) else []
    case Delete(name, removable) =>
      if name !in d.dirs then [SaveList(Retain(List(d), name))]
      else if removable then [RemoveDir(name), SaveList(Retain(List(d), name))]
      else []
    case Create(name, created, renamed, removable) =>
      if name in d.dirs || !created then []
      else TouchPlan(d, name, removable) + if renamed then [AddDir(name)] else []
  }

  // ---------------------------------------------------------------------------------------------
  // Nothing on disk is missing from the list
  // ---------------------------------------------------------------------------------------------

  ghost predicate Listed(d: Disk) {
    forall name <- d.dirs :: name in List(d)
  }

  lemma {:induction false} DoAllAppend(d: Disk, a: seq<FsStep>, b: seq<FsStep>)
    ensures DoAll(d, a + b) == DoAll(DoAll(d, a), b)
    decreases |a|
  {
    if a == [] {
      assert a + b == b;
    } else {
      assert (a + b)[1..] == a[1..] + b;
      DoAllAppend(Do(d, a[0]), a[1..], b);
    }
  }

  lemma ListAfterTouch(d: Disk, name: string, removable: bool)
    ensures List(DoAll(d, TouchPlan(d, name, removable))) ==
      Touched(List(d), name, Gone(d.dirs, List(d), name, removable))
    ensures DoAll(d, TouchPlan(d, name, removable)).dirs <= d.dirs
  {
    var plan := TouchPlan(d, name, removable);
    if |plan| == 2 {
      assert plan == [plan[0]] + [plan[1]];
      DoAllAppend(d, [plan[0]], [plan[1]]);
    }
  }

  /** A touched list still covers the directories, unless its last name had one that was kept. */
  lemma TouchedCovers(l: seq<string>, name: string, gone: bool, dirs: set<string>)
    requires forall x <- dirs :: x in l
    requires gone && |Front(l, name)| > KEEP_LRU ==> Front(l, name)[|Front(l, name)|-1] !in dirs
    ensures forall x <- dirs :: x in Touched(l, name, gone)
    ensures name in Touched(l, name, gone)
  {
    forall x <- dirs ensures x in Touched(l, name, gone) { TouchedHas(l, name, gone, x); }
    assert Touched(l, name, gone)[0] == name;
  }

  lemma TouchedHas(l: seq<string>, name: string, gone: bool, x: string)
    requires x in l
    requires gone && |Front(l, name)| > KEEP_LRU ==> Front(l, name)[|Front(l, name)|-1] != x
    ensures x in Touched(l, name, gone)
  {
    RemoveFirstKeeps(l, name);
    InFront(name, RemoveFirst(l, name), x);
    NotLast(Front(l, name), x);
  }

  lemma InFront(y: string, l: seq<string>, x: string)
    ensures x == y || x in l ==> x in [y] + l
  {}

  lemma NotLast(f: seq<string>, x: string)
    requires x in f
    ensures x != f[|f|-1] ==> x in f[..|f|-1]
  {
  }

  lemma TouchKeepsListed(d: Disk, name: string, removable: bool, k: nat)
    requires Listed(d) && k <= |TouchPlan(d, name, removable)|
    ensures Listed(DoAll(d, TouchPlan(d, name, removable)[..k]))
    ensures name in List(DoAll(d, TouchPlan(d, name, removable)))
  {
    var l, plan := List(d), TouchPlan(d, name, removable);
    var gone := Gone(d.dirs, l, name, removable);
    TouchedCovers(l, name, gone, d.dirs - Evicted(d.dirs, l, name, removable));
    if |plan| == 2 {
      assert plan == [plan[0]] + [plan[1]];
      DoAllAppend(d, [plan[0]], [plan[1]]);
      assert plan[..k] == if k == 0 then [] else if k == 1 then [plan[0]] else [plan[0]] + [plan[1]];
    } else {
      assert plan[..k] == if k == 0 then [] else plan;
    }
  }

  /** Stopping an operation after any number of its steps leaves every directory listed. */
  lemma PlanKeepsListed(d: Disk, op: Op, k: nat)
    requires Listed(d) && k <= |Plan(d, op)|
    ensures Listed(DoAll(d, Plan(d, op)[..k]))
  {
    var plan := Plan(d, op);
    match op
    case Exists(name, removable) => if name in d.dirs { TouchKeepsListed(d, name, removable, k); }
    case Delete(name, removable) =>
      RetainKeeps(List(d), name);
      if |plan| == 2 {
        assert plan[..k] == if k == 0 then [] else if k == 1 then [plan[0]] else [plan[0]] + [plan[1]];
        DoAllAppend(d, [plan[0]], [plan[1]]);
      }
    case Create(name, created, renamed, removable) =>
      if name !in d.dirs && created {
        var touch := TouchPlan(d, name, removable);
        if k <= |touch| {
          assert plan[..k] == touch[..k];
          TouchKeepsListed(d, name, removable, k);
        } else {
          assert plan[..k] == touch + [AddDir(name)];
          assert touch[..|touch|] == touch;
          TouchKeepsListed(d, name, removable, |touch|);
          DoAllAppend(d, touch, [AddDir(name)]);
        }
      }
  }

  // ---------------------------------------------------------------------------------------------
  // What each operation is for
  // ---------------------------------------------------------------------------------------------

  lemma TouchedList(l: seq<string>, name: string, gone: bool)
    requires Distinct(l)
    ensures var t := Touched(l, name, gone);
            t != [] && t[0] == name && Distinct(t) && (forall x <- t :: x == name || x in l)
            && (gone && |l| <= KEEP_LRU ==> |t| <= KEEP_LRU)
    ensures var f := Front(l, name); |f| > 1 ==> f[|f|-1] != name
  {
    var f := Front(l, name);
    RemoveFirstKeeps(l, name);
    assert f[1..] == RemoveFirst(l, name);
    DistinctPrefix(f, |f| - 1);
    if |f| > 1 {
      assert f[|f|-1] == f[1..][|f|-2];
    }
  }

  /** A name that is touched comes first, no other name gets in, at most one directory goes, and that is not
      the touched one. */
  lemma TouchMeaning(d: Disk, name: string, removable: bool)
    requires Distinct(List(d))
    ensures var d' := DoAll(d, TouchPlan(d, name, removable));
            && List(d') != [] && List(d')[0] == name && Distinct(List(d'))
            && (forall x <- List(d') :: x == name || x in List(d))
            && d'.dirs <= d.dirs && (name in d.dirs ==> name in d'.dirs) && |d.dirs - d'.dirs| <= 1
    ensures removable && |List(d)| <= KEEP_LRU ==> |List(DoAll(d, TouchPlan(d, name, removable)))| <= KEEP_LRU
  {
    var l := List(d);
    ListAfterTouch(d, name, removable);
    TouchedList(l, name, Gone(d.dirs, l, name, removable));
    DirsAfterTouch(d, name, removable);
    SmallSet(d.dirs - (d.dirs - Evicted(d.dirs, l, name, removable)), Front(l, name)[|Front(l, name)|-1]);
  }

  lemma SmallSet(s: set<string>, x: string)
    requires s <= {x}
    ensures |s| <= 1
  {
    assert s == {} || s == {x};
  }

  lemma DirsAfterTouch(d: Disk, name: string, removable: bool)
    ensures DoAll(d, TouchPlan(d, name, removable)).dirs == d.dirs - Evicted(d.dirs, List(d), name, removable)
  {
    var plan := TouchPlan(d, name, removable);
    if |plan| == 2 {
      assert plan == [plan[0]] + [plan[1]];
      DoAllAppend(d, [plan[0]], [plan[1]]);
    }
  }

  /** A deletion that can remove its directory leaves neither the directory nor the name; one that cannot
      changes nothing. Other entries stay. */
  lemma DeleteMeaning(d: Disk, name: string, removable: bool)
    ensures var d' := DoAll(d, Plan(d, Delete(name, removable)));
            if name in d.dirs && !removable then d' == d
            else && d'.dirs == d.dirs - {name} && name !in List(d')
                 && forall x | x != name :: x in List(d') <==> x in List(d)
  {
    RetainKeeps(List(d), name);
    if name in d.dirs && removable {
      assert Plan(d, Delete(name, removable)) == [RemoveDir(name)] + [SaveList(Retain(List(d), name))];
      DoAllAppend(d, [RemoveDir(name)], [SaveList(Retain(List(d), name))]);
    }
  }

  /** A creation that succeeds leaves its directory, and its name first in the list. */
  lemma CreateMeaning(d: Disk, name: string, removable: bool)
    requires Distinct(List(d)) && name !in d.dirs
    ensures var d' := DoAll(d, Plan(d, Create(name, true, true, removable)));
            name in d'.dirs && List(d') != [] && List(d')[0] == name && d'.dirs <= d.dirs + {name}
  {
    TouchMeaning(d, name, removable);
    DoAllAppend(d, TouchPlan(d, name, removable), [AddDir(name)]);
  }

  /** A run of operations, each of which may be cut off after `upTo` of its steps by a crash. */
  datatype Event = Event(op: Op, upTo: Option<nat>)

  function After(d: Disk, e: Event): Disk {
    var plan := Plan(d, e.op);
    DoAll(d, if e.upTo.Some? && e.upTo.value < |plan| then plan[..e.upTo.value] else plan)
  }

  function AfterAll(d: Disk, events: seq<Event>): Disk
    decreases |events|
  {
    if events == [] then d else AfterAll(After(d, events[0]), events[1..])
  }

  /** Over any such run no directory ever leaks: all of them stay listed. */
  lemma {:induction false} NoDirectoryLeaks(d: Disk, events: seq<Event>)
    requires Listed(d)
    ensures Listed(AfterAll(d, events))
    decreases |events|
  {
    if events != [] {
      var plan, upTo := Plan(d, events[0].op), events[0].upTo;
      PlanKeepsListed(d, events[0].op, if upTo.Some? && upTo.value < |plan| then upTo.value else |plan|);
      assert plan[..|plan|] == plan;
      NoDirectoryLeaks(After(d, events[0]), events[1..]);
    }
  }

  /** A list of at most five different names. */
  ghost predicate Short(d: Disk) {
    Distinct(List(d)) && |List(d)| <= KEEP_LRU
  }

  lemma PlanKeepsShort(d: Disk, op: Op, k: nat)
    requires Short(d) && op.removable && k <= |Plan(d, op)|
    ensures Short(DoAll(d, Plan(d, op)[..k]))
  {
    RetainKeeps(List(d), op.name);
    TouchMeaning(d, op.name, true);
    var plan, touch := Plan(d, op), TouchPlan(d, op.name, true);
    if op.Delete? {
      FewSteps(d, plan, k);
    } else if plan != [] {
      TouchKeepsShort(d, op.name, if k <= |touch| then k else |touch|);
      assert touch[..|touch|] == touch;
      if k <= |touch| {
        assert plan[..k] == touch[..k];
      } else {
        assert plan[..k] == touch + [AddDir(op.name)];
        DoAllAppend(d, touch, [AddDir(op.name)]);
      }
    }
  }

  lemma FewSteps(d: Disk, plan: seq<FsStep>, k: nat)
    requires Short(d) && k <= |plan| <= 2 && forall s <- plan :: !s.SaveList? || Short(d.(file := Some(s.l)))
    ensures Short(DoAll(d, plan[..k]))
  {
    if k == 2 {
      assert plan[..k] == [plan[0]] + [plan[1]];
      DoAllAppend(d, [plan[0]], [plan[1]]);
    } else if k == 1 {
      assert plan[..k] == [plan[0]];
    }
  }

  lemma TouchKeepsShort(d: Disk, name: string, k: nat)
    requires Short(d) && k <= |TouchPlan(d, name, true)|
    ensures Short(DoAll(d, TouchPlan(d, name, true)[..k]))
  {
    var plan := TouchPlan(d, name, true);
    TouchMeaning(d, name, true);
    ListAfterTouch(d, name, true);
    FewSteps(d, plan, k);
  }

  lemma {:induction false} ListBoundsDirs(dirs: set<string>, l: seq<string>)
    requires forall name <- dirs :: name in l
    ensures |dirs| <= |l|
    decreases |l|
  {
    if l == [] {
      assert dirs == {};
    } else {
      forall name <- dirs - {l[0]} ensures name in l[1..] {
        assert name in l;
      }
      ListBoundsDirs(dirs - {l[0]}, l[1..]);
      assert |dirs| <= |dirs - {l[0]}| + 1 by {
        if l[0] in dirs { assert dirs == (dirs - {l[0]}) + {l[0]}; } else { assert dirs == dirs - {l[0]}; }
      }
    }
  }

  /** Over any run of operations and crashes in which removals succeed: never more than five directories. */
  lemma {:induction false} AtMostFiveDirectories(d: Disk, events: seq<Event>)
    requires Listed(d) && Short(d) && forall e <- events :: e.op.removable
    ensures |AfterAll(d, events).dirs| <= 5 && Short(AfterAll(d, events))
    decreases |events|
  {
    if events == [] {
      ListBoundsDirs(d.dirs, List(d));
    } else {
      var plan, upTo := Plan(d, events[0].op), events[0].upTo;
      var k := if upTo.Some? && upTo.value < |plan| then upTo.value else |plan|;
      assert plan[..|plan|] == plan;
      PlanKeepsListed(d, events[0].op, k);
      PlanKeepsShort(d, events[0].op, k);
      AtMostFiveDirectories(After(d, events[0]), events[1..]);
    }
  }

  // ---------------------------------------------------------------------------------------------
  // The cache object
  // ---------------------------------------------------------------------------------------------

  class DownloadCache {
    const state: PersistedState<seq<string>>
    var dirs: set<string>

    constructor (dirs: set<string>, file: Option<seq<string>>)
      ensures Valid() && fresh(state) && OnDisk() == Disk(dirs, file)
    {
      state := new PersistedState([], file, file.Some?);
      this.dirs := dirs;
    }

    /** The cached list, if there is one, is what the file holds. */
    ghost predicate Valid()
      reads this, state
    {
      state.default == [] && state.Current() == List(OnDisk())
    }

    function OnDisk(): Disk
      reads this, state
    {
      Disk(dirs, state.file)
    }

    /** `touch`: the mutation of the list removes the evicted directory before the list is saved. */
    method Touch(name: string, removable: bool, w: WriteResult) returns (ok: bool)
      requires Valid()
      modifies this`dirs, state
      ensures ok <==> w == Written
      ensures dirs == old(dirs) - Evicted(old(dirs), old(List(OnDisk())), name, removable)
      ensures state.Current() ==
              Touched(old(List(OnDisk())), name, Gone(old(dirs), old(List(OnDisk())), name, removable))
      ensures ok ==> Valid() && OnDisk() == DoAll(old(OnDisk()), TouchPlan(old(OnDisk()), name, removable))
    {
      ghost var before := OnDisk();
      var l := state.LoadOrGet();
      l := [name] + RemoveFirst(l, name);
      if |l| > KEEP_LRU {
        var last := l[|l|-1];
        if last !in dirs || removable {
          dirs := dirs - {last};
          l := l[..|l|-1];
        }
      }
      ok := state.Save(l, w);
      ghost var plan := TouchPlan(before, name, removable);
      assert |plan| == 2 ==> plan == [plan[0]] + [plan[1]];
      if |plan| == 2 { DoAllAppend(before, [plan[0]], [plan[1]]); }
    }

    /** `exists`: a failing save is ignored. */
    method Exists(name: string, removable: bool, w: WriteResult) returns (found: bool)
      requires Valid()
      modifies this`dirs, state
      ensures found <==> name in old(dirs)
      ensures dirs == if found then old(dirs) - Evicted(old(dirs), old(List(OnDisk())), name, removable) else old(dirs)
      ensures state.Current() == if !found then old(List(OnDisk()))
                else Touched(old(List(OnDisk())), name, Gone(old(dirs), old(List(OnDisk())), name, removable))
      ensures w == Written ==>
                Valid() && OnDisk() == DoAll(old(OnDisk()), Plan(old(OnDisk()), Op.Exists(name, removable)))
    {
      if name !in dirs {
        return false;
      }
      var _ := Touch(name, removable, w);
      found := true;
    }

    method Delete(name: string, removable: bool, w: WriteResult) returns (ok: bool)
      requires Valid()
      modifies this`dirs, state
      ensures ok <==> (name in old(dirs) ==> removable) && w == Written
      ensures dirs == if removable then old(dirs) - {name} else old(dirs)
      ensures state.Current() ==
              if name in old(dirs) && !removable then old(List(OnDisk())) else Retain(old(List(OnDisk())), name)
      ensures w == Written ==>
                Valid() && OnDisk() == DoAll(old(OnDisk()), Plan(old(OnDisk()), Op.Delete(name, removable)))
    {
      ghost var before := OnDisk();
      if name in dirs {
        if !removable {
          return false;
        }
        dirs := dirs - {name};
      }
      var l := state.LoadOrGet();
      l := Retain(l, name);
      ok := state.Save(l, w);
      ghost var plan := Plan(before, Op.Delete(name, removable));
      if |plan| == 2 {
        assert plan == [plan[0]] + [plan[1]];
        DoAllAppend(before, [plan[0]], [plan[1]]);
      }
    }

    /** `create` with nobody else around. */
    method Create(name: string, created: bool, renamed: bool, removable: bool, w: WriteResult) returns (ok: bool)
      requires Valid()
      modifies this`dirs, state
      ensures ok ==> name in dirs
      ensures ok <==> name in old(dirs) || (created && renamed)
      ensures dirs == if name in old(dirs) || !created then old(dirs)
                else old(dirs) - Evicted(old(dirs), old(List(OnDisk())), name, removable) +
                     if renamed then {name} else {}
      ensures state.Current() == if name in old(dirs) || !created then old(List(OnDisk()))
                else Touched(old(List(OnDisk())), name, Gone(old(dirs), old(List(OnDisk())), name, removable))
      ensures w == Written ==>
                Valid() &&
                OnDisk() == DoAll(old(OnDisk()), Plan(old(OnDisk()), Op.Create(name, created, renamed, removable)))
    {
      ghost var before := OnDisk();
      if name in dirs {
        return true;
      }
      if !created {
        return false;
      }
      var _ := Touch(name, removable, w);
      if !renamed {
        assert TouchPlan(before, name, removable) + [] == TouchPlan(before, name, removable);
        return false;
      }
      dirs := dirs + {name};
      DoAllAppend(before, TouchPlan(before, name, removable), [AddDir(name)]);
      ok := true;
    }
  }
}
