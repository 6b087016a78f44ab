/** Operations of one process interleaved on the cache of `cli/src/download_cache.rs`: exactly when a
    creation makes a directory that the list does not know. */
module CacheInterleavings {
  import opened Common
  import opened CacheLru
  import opened CacheDirectory

  // ---------------------------------------------------------------------------------------------
  // The parts of the operations
  // ---------------------------------------------------------------------------------------------

  /** The parts of operations between which other operations can come. An update of the list runs under
      its mutex, together with the eviction that a touch may bring. */
  datatype Part =
    | Touch(name: string, removable: bool)
    | Rename(name: string)
    | Remove(name: string)
    | Forget(name: string)

  function DoPart(d: Disk, p: Part): Disk {
    match p
    case Touch(name, removable) => DoAll(d, TouchPlan(d, name, removable))
    case Rename(name) => Do(d, AddDir(name))
    case Remove(name) => Do(d, RemoveDir(name))
    case Forget(name) => Do(d, SaveList(Retain(List(d), name)))
  }

  function DoParts(d: Disk, parts: seq<Part>): Disk
    decreases |parts|
  {
    if parts == [] then d else DoParts(DoPart(d, parts[0]), parts[1..])
  }

  /** Everything but using or renaming `a`, which has no directory and whose lock is held. */
  predicate Beside(p: Part, a: string) {
    p.Touch? || p.Rename? ==> p.name != a
  }

  // ---------------------------------------------------------------------------------------------
  // When does a name stay in the list?
  // ---------------------------------------------------------------------------------------------

  /** The names in front of `a`: used since `a` was, and not deleted again. */
  function Joined(crowd: seq<string>, p: Part): seq<string> {
    match p
    case Touch(name, _) => Front(crowd, name)
    case Forget(name) => Retain(crowd, name)
    case _ => crowd
  }

  /** What takes `a` off the list: a deletion, or a touch that finds at least five names in front of `a`
      and none behind. */
  predicate Drops(d: Disk, a: string, crowd: seq<string>, p: Part) {
    p == Forget(a) ||
    (p.Touch? && |Joined(crowd, p)| >= KEEP_LRU && |Front(List(d), p.name)| == |Joined(crowd, p)| + 1)
  }

  predicate Stays(d: Disk, a: string, crowd: seq<string>, parts: seq<Part>)
    decreases |parts|
  {
    parts == [] ||
    (!Drops(d, a, crowd, parts[0]) && Stays(DoPart(d, parts[0]), a, Joined(crowd, parts[0]), parts[1..]))
  }

  ghost predicate Behind(d: Disk, a: string, crowd: seq<string>) {
    crowd + [a] <= List(d) && a !in crowd && a !in d.dirs
  }

  ghost predicate Absent(d: Disk, a: string) {
    a !in List(d) && a !in d.dirs
  }

  lemma Regroup(a: seq<string>, b: seq<string>, c: seq<string>)
    ensures a + (b + c) == (a + b) + c
  {
  }

  lemma {:induction false} RetainAppend(u: seq<string>, v: seq<string>, x: string)
    ensures Retain(u + v, x) == Retain(u, x) + Retain(v, x)
  {
    if u == [] {
      assert u + v == v;
    } else {
      var s, t := u + v, u[1..];
      assert s[0] == u[0] && s[1..] == t + v;
      RetainAppend(t, v, x);
      Regroup(if u[0] == x then [] else [u[0]], Retain(t, x), Retain(v, x));
    }
  }

  lemma ForgetStep(crowd: seq<string>, a: string, l: seq<string>, x: string)
    requires crowd + [a] <= l && x != a
    ensures Retain(crowd, x) + [a] <= Retain(l, x)
  {
    var rest := l[|crowd| + 1..];
    assert l == (crowd + [a]) + rest;
    RetainAppend(crowd + [a], rest, x);
    RetainAppend(crowd, [a], x);
    assert Retain([a], x) == [a];
  }

  /** The list after a touch, when `crowd` has become the names in front of `a`. */
  lemma CutBehind(f: seq<string>, crowd: seq<string>, a: string, gone: bool)
    requires crowd + [a] <= f && (f[|f|-1] == a ==> gone)
    ensures var l := if |f| > KEEP_LRU && gone then f[..|f|-1] else f;
            if |crowd| >= KEEP_LRU && |f| == |crowd| + 1 then l == crowd else crowd + [a] <= l
  {
    if |f| == |crowd| + 1 {
      assert f == crowd + [a];
    }
  }

  lemma FrontBehind(crowd: seq<string>, a: string, l: seq<string>, x: string)
    requires crowd + [a] <= l && a !in crowd && x != a
    ensures Front(crowd, x) + [a] <= Front(l, x) && a !in Front(crowd, x)
  {
    BehindStep(crowd, a, l, x);
    RemoveFirstKeeps(crowd, x);
    assert Front(crowd, x) + [a] == [x] + (RemoveFirst(crowd, x) + [a]);
  }

  lemma TouchBehind(d: Disk, a: string, crowd: seq<string>, p: Part)
    requires Behind(d, a, crowd) && p.Touch? && p.name != a
    ensures if Drops(d, a, crowd, p) then Absent(DoPart(d, p), a) else Behind(DoPart(d, p), a, Joined(crowd, p))
  {
    var l, x := List(d), p.name;
    FrontBehind(crowd, a, l, x);
    ListAfterTouch(d, x, p.removable);
    CutBehind(Front(l, x), Front(crowd, x), a, Gone(d.dirs, l, x, p.removable));
  }

  lemma PartBehind(d: Disk, a: string, crowd: seq<string>, p: Part)
    requires Behind(d, a, crowd) && Beside(p, a)
    ensures if Drops(d, a, crowd, p) then Absent(DoPart(d, p), a) else Behind(DoPart(d, p), a, Joined(crowd, p))
  {
    match p
    case Touch(_, _) => TouchBehind(d, a, crowd, p);
    case Forget(x) =>
      RetainKeeps(List(d), x);
      RetainKeeps(crowd, x);
      if x != a {
        ForgetStep(crowd, a, List(d), x);
      }
    case _ =>
  }

  lemma {:induction false} AbsentStays(d: Disk, a: string, parts: seq<Part>)
    requires Absent(d, a) && forall p <- parts :: Beside(p, a)
    ensures Absent(DoParts(d, parts), a)
    decreases |parts|
  {
    if parts != [] {
      AbsentStep(d, a, parts[0]);
      AbsentStays(DoPart(d, parts[0]), a, parts[1..]);
    }
  }

  lemma AbsentStep(d: Disk, a: string, p: Part)
    requires Absent(d, a) && Beside(p, a)
    ensures Absent(DoPart(d, p), a)
  {
    match p
    case Touch(x, removable) =>
      ListAfterTouch(d, x, removable);
      RemoveFirstKeeps(List(d), x);
    case Forget(x) => RetainKeeps(List(d), x);
    case _ =>
  }

  lemma {:induction false} StaysBehindIff(d: Disk, a: string, crowd: seq<string>, parts: seq<Part>)
    requires Behind(d, a, crowd) && forall p <- parts :: Beside(p, a)
    ensures a in List(DoParts(d, parts)) <==> Stays(d, a, crowd, parts)
    ensures a !in DoParts(d, parts).dirs
    decreases |parts|
  {
    if parts == [] {
      assert List(d)[|crowd|] == a;
    } else {
      var next := DoPart(d, parts[0]);
      assert Beside(parts[0], a);
      PartBehind(d, a, crowd, parts[0]);
      if Drops(d, a, crowd, parts[0]) {
        AbsentStays(next, a, parts[1..]);
      } else {
        StaysBehindIff(next, a, Joined(crowd, parts[0]), parts[1..]);
      }
    }
  }

  lemma TouchedIsFirst(d: Disk, a: string, removable: bool)
    requires a !in d.dirs
    ensures Behind(DoAll(d, TouchPlan(d, a, removable)), a, [])
  {
    ListAfterTouch(d, a, removable);
  }

  /** Whatever other operations do in parts between the touch and the rename of a creation of `a`, and
      whichever removals fail: the new directory is listed if and only if nothing dropped `a`. */
  lemma RenamedIsListedIff(d: Disk, a: string, removable: bool, parts: seq<Part>)
    requires a !in d.dirs && forall p <- parts :: Beside(p, a)
    ensures var touched := DoAll(d, TouchPlan(d, a, removable));
            a in List(Do(DoParts(touched, parts), AddDir(a))) <==> Stays(touched, a, [], parts)
  {
    TouchedIsFirst(d, a, removable);
    StaysBehindIff(DoAll(d, TouchPlan(d, a, removable)), a, [], parts);
  }

  // ---------------------------------------------------------------------------------------------
  // With at most five names and removals that succeed
  // ---------------------------------------------------------------------------------------------

  /** Nobody deletes `a`, and there are never five names in front of it. */
  predicate Fits(a: string, crowd: seq<string>, parts: seq<Part>)
    decreases |parts|
  {
    parts == [] ||
    (parts[0] != Forget(a) && |Joined(crowd, parts[0])| < KEEP_LRU && Fits(a, Joined(crowd, parts[0]), parts[1..]))
  }

  lemma ShortStays(d: Disk, p: Part)
    requires |List(d)| <= KEEP_LRU && (p.Touch? ==> p.removable)
    ensures |List(DoPart(d, p))| <= KEEP_LRU
    ensures p.Touch? ==> |Front(List(d), p.name)| <= KEEP_LRU + 1
  {
    match p
    case Touch(x, _) =>
      ListAfterTouch(d, x, true);
      RemoveFirstKeeps(List(d), x);
    case Forget(x) => RetainKeeps(List(d), x);
    case _ =>
  }

  lemma {:induction false} FitsIff(d: Disk, a: string, crowd: seq<string>, parts: seq<Part>)
    requires Behind(d, a, crowd) && |List(d)| <= KEEP_LRU
    requires forall p <- parts :: Beside(p, a) && (p.Touch? ==> p.removable)
    ensures Stays(d, a, crowd, parts) <==> Fits(a, crowd, parts)
    decreases |parts|
  {
    if parts != [] {
      var p := parts[0];
      assert Beside(p, a);
      PartBehind(d, a, crowd, p);
      ShortStays(d, p);
      CrowdFits(d, a, crowd, p);
      if !Drops(d, a, crowd, p) {
        FitsIff(DoPart(d, p), a, Joined(crowd, p), parts[1..]);
      }
    }
  }

  lemma CrowdFits(d: Disk, a: string, crowd: seq<string>, p: Part)
    requires Behind(d, a, crowd) && |List(d)| <= KEEP_LRU && Beside(p, a)
    requires p.Touch? ==> |Front(List(d), p.name)| <= KEEP_LRU + 1
    ensures Drops(d, a, crowd, p) <==> p == Forget(a) || |Joined(crowd, p)| >= KEEP_LRU
  {
    match p
    case Touch(x, _) => FrontBehind(crowd, a, List(d), x);
    case Forget(x) => RetainKeeps(crowd, x);
    case _ =>
  }

  // ---------------------------------------------------------------------------------------------
  // Whole operations in between
  // ---------------------------------------------------------------------------------------------

  /** The parts of an uninterrupted operation. */
  function PartsOf(d: Disk, op: Op): seq<Part> {
    match op
    case Exists(name, removable) => if name in d.dirs then [Touch(name, removable)] else []
    case Delete(name, removable) =>
      if name !in d.dirs then [Forget(name)] else if removable then [Remove(name), Forget(name)] else []
    case Create(name, created, renamed, removable) =>
      if name in d.dirs || !created then []
      else [Touch(name, removable)] + if renamed then [Rename(name)] else []
  }

  function Parts(d: Disk, events: seq<Event>): seq<Part>
    decreases |events|
  {
    if events == [] then [] else PartsOf(d, events[0].op) + Parts(After(d, events[0]), events[1..])
  }

  lemma {:induction false} DoPartsAppend(d: Disk, a: seq<Part>, b: seq<Part>)
    ensures DoParts(d, a + b) == DoParts(DoParts(d, a), b)
    decreases |a|
  {
    if a == [] {
      assert a + b == b;
    } else {
      assert (a + b)[0] == a[0] && (a + b)[1..] == a[1..] + b;
      DoPartsAppend(DoPart(d, a[0]), a[1..], b);
    }
  }

  lemma DoOne(d: Disk, p: Part)
    ensures DoParts(d, [p]) == DoPart(d, p)
  {
    assert [p][1..] == [];
  }

  lemma DoTwo(d: Disk, p: Part, q: Part)
    ensures DoParts(d, [p, q]) == DoParts(d, [p] + [q]) == DoPart(DoPart(d, p), q)
  {
    assert [p, q] == [p] + [q];
    DoPartsAppend(d, [p], [q]);
    DoOne(d, p);
    DoOne(DoPart(d, p), q);
  }

  lemma PartsOfCreate(d: Disk, op: Op)
    requires op.Create? && op.name !in d.dirs && op.created
    ensures DoParts(d, PartsOf(d, op)) == DoAll(d, Plan(d, op))
  {
    var touch := TouchPlan(d, op.name, op.removable);
    if op.renamed {
      DoTwo(d, Touch(op.name, op.removable), Rename(op.name));
      DoAllAppend(d, touch, [AddDir(op.name)]);
    } else {
      assert touch + [] == touch;
      assert PartsOf(d, op) == [Touch(op.name, op.removable)];
      DoOne(d, Touch(op.name, op.removable));
    }
  }

  lemma PartsOfDelete(d: Disk, op: Op)
    requires op.Delete?
    ensures DoParts(d, PartsOf(d, op)) == DoAll(d, Plan(d, op))
  {
    if op.name !in d.dirs {
      DoOne(d, Forget(op.name));
    } else if op.removable {
      DoTwo(d, Remove(op.name), Forget(op.name));
      assert Plan(d, op) == [RemoveDir(op.name)] + [SaveList(Retain(List(d), op.name))];
      DoAllAppend(d, [RemoveDir(op.name)], [SaveList(Retain(List(d), op.name))]);
    }
  }

  /** The parts, one after the other, are the operation. */
  lemma PartsAreOp(d: Disk, op: Op)
    ensures DoParts(d, PartsOf(d, op)) == DoAll(d, Plan(d, op))
  {
    match op
    case Exists(name, removable) => if name in d.dirs { DoOne(d, Touch(name, removable)); }
    case Delete(_, _) => PartsOfDelete(d, op);
    case Create(name, created, _, _) => if name !in d.dirs && created { PartsOfCreate(d, op); }
  }

  /** An operation that runs to its end and is no second creation of `a`, whose lock is held. A crash
      would stop the creation of `a` as well. */
  predicate Meanwhile(e: Event, a: string) {
    e.upTo.None? && (e.op.Create? ==> e.op.name != a)
  }

  lemma {:induction false} PartsAreEvents(d: Disk, a: string, events: seq<Event>)
    requires a !in d.dirs && forall e <- events :: Meanwhile(e, a)
    ensures DoParts(d, Parts(d, events)) == AfterAll(d, events)
    ensures forall p <- Parts(d, events) :: Beside(p, a)
    decreases |events|
  {
    if events != [] {
      var first, next := PartsOf(d, events[0].op), After(d, events[0]);
      assert Meanwhile(events[0], a);
      PartsAreOp(d, events[0].op);
      StillNoDirectory(d, a, first);
      PartsAreEvents(next, a, events[1..]);
      DoPartsAppend(d, first, Parts(next, events[1..]));
    }
  }

  lemma {:induction false} StillNoDirectory(d: Disk, a: string, parts: seq<Part>)
    requires a !in d.dirs && forall p <- parts :: Beside(p, a)
    ensures a !in DoParts(d, parts).dirs
    decreases |parts|
  {
    if parts != [] {
      assert Beside(parts[0], a);
      if parts[0].Touch? {
        ListAfterTouch(d, parts[0].name, parts[0].removable);
      }
      StillNoDirectory(DoPart(d, parts[0]), a, parts[1..]);
    }
  }

  /** What a creation does before its rename. */
  lemma CreatePlan(d: Disk, a: string, removable: bool)
    requires a !in d.dirs
    ensures var plan := Plan(d, Create(a, true, true, removable));
            |plan| > 0 && plan[|plan|-1] == AddDir(a) && plan[..|plan|-1] == TouchPlan(d, a, removable)
  {
  }

  lemma RenameListsIff(d: Disk, a: string)
    requires Listed(d)
    ensures Listed(Do(d, AddDir(a))) <==> a in List(d)
  {
    assert a in Do(d, AddDir(a)).dirs;
  }

  /** While a creation of `a` is between its touch and its rename, other operations run: look-ups,
      creations and deletions, whether removals succeed or not. After the rename every directory is
      listed if and only if none of their parts dropped `a`. */
  lemma ListedAfterRenameIff(d: Disk, a: string, removable: bool, events: seq<Event>)
    requires Listed(d) && a !in d.dirs && forall e <- events :: Meanwhile(e, a)
    ensures var plan := Plan(d, Create(a, true, true, removable));
            |plan| > 0
            && var touched := DoAll(d, plan[..|plan|-1]);
               Listed(Do(AfterAll(touched, events), plan[|plan|-1])) <==> Stays(touched, a, [], Parts(touched, events))
  {
    CreatePlan(d, a, removable);
    var touched := DoAll(d, TouchPlan(d, a, removable));
    TouchedIsFirst(d, a, removable);
    TouchedIsListed(d, a, removable);
    PartsAreEvents(touched, a, events);
    StaysBehindIff(touched, a, [], Parts(touched, events));
    NoDirectoryLeaks(touched, events);
    RenameListsIff(AfterAll(touched, events), a);
  }

  lemma TouchedIsListed(d: Disk, a: string, removable: bool)
    requires Listed(d)
    ensures Listed(DoAll(d, TouchPlan(d, a, removable)))
  {
    var plan := TouchPlan(d, a, removable);
    TouchKeepsListed(d, a, removable, |plan|);
    assert plan[..|plan|] == plan;
  }

  /** The same from at most five names and with removals that succeed: every directory is listed if and
      only if `a` was not deleted, and the other names used since its touch and not deleted again were
      fewer than five at any time. */
  lemma ListedWhileFewIff(d: Disk, a: string, events: seq<Event>)
    requires Listed(d) && |List(d)| <= KEEP_LRU && a !in d.dirs
    requires forall e <- events :: Meanwhile(e, a) && (e.op.Delete? || e.op.removable)
    ensures var plan := Plan(d, Create(a, true, true, true));
            |plan| > 0
            && var touched := DoAll(d, plan[..|plan|-1]);
               Listed(Do(AfterAll(touched, events), plan[|plan|-1])) <==> Fits(a, [], Parts(touched, events))
  {
    ListedAfterRenameIff(d, a, true, events);
    CreatePlan(d, a, true);
    var touched := DoAll(d, TouchPlan(d, a, true));
    TouchedIsFirst(d, a, true);
    ShortStays(d, Touch(a, true));
    PartsAreEvents(touched, a, events);
    PartsRemovable(touched, events);
    FitsIff(touched, a, [], Parts(touched, events));
  }

  lemma {:induction false} PartsRemovable(d: Disk, events: seq<Event>)
    requires forall e <- events :: e.op.Delete? || e.op.removable
    ensures forall p <- Parts(d, events) :: p.Touch? ==> p.removable
    decreases |events|
  {
    if events != [] {
      PartsRemovable(After(d, events[0]), events[1..]);
    }
  }

  /** One deletion of `a` in between is enough, also in an empty cache. */
  lemma DeletionBetweenLeaks(a: string)
    ensures var plan := Plan(Disk({}, None), Create(a, true, true, true));
            |plan| == 2
            && !Listed(Do(AfterAll(Do(Disk({}, None), plan[0]), [Event(Delete(a, true), None)]), plan[1]))
  {
    FirstCreate(a);
    var touched := Disk({}, Some([a]));
    assert Retain([a], a) == [];
    assert Plan(touched, Delete(a, true)) == [SaveList([])] && [SaveList([])][1..] == [];
    assert After(touched, Event(Delete(a, true), None)) == Disk({}, Some([]));
    assert [Event(Delete(a, true), None)][1..] == [];
    assert AfterAll(touched, [Event(Delete(a, true), None)]) == Disk({}, Some([]));
    assert a in Do(Disk({}, Some([])), AddDir(a)).dirs;
  }

  // ---------------------------------------------------------------------------------------------
  // Without deletions: counting names
  // ---------------------------------------------------------------------------------------------

  /** The names that an uninterrupted operation uses. */
  function UsedBy(d: Disk, op: Op): seq<string> {
    match op
    case Exists(name, _) => if name in d.dirs then [name] else []
    case Delete(_, _) => []
    case Create(name, created, _, _) => if name !in d.dirs && created then [name] else []
  }

  function Used(d: Disk, events: seq<Event>): seq<string>
    decreases |events|
  {
    if events == [] then [] else UsedBy(d, events[0].op) + Used(After(d, events[0]), events[1..])
  }

  /** A look-up, or a creation of another entry than `a`, that is not interrupted and can evict. */
  predicate UsesOthers(e: Event, a: string) {
    e.upTo.None? && !e.op.Delete? && e.op.removable && (e.op.Create? ==> e.op.name != a)
  }

  lemma ListAfterUse(d: Disk, uses: seq<string>, op: Op)
    requires List(d) == AfterUses(uses) && !op.Delete? && op.removable
    ensures List(DoAll(d, Plan(d, op))) == AfterUses(uses + UsedBy(d, op))
  {
    if UsedBy(d, op) == [] {
      assert uses + [] == uses;
    } else {
      assert (uses + [op.name])[..|uses|] == uses;
      ListAfterTouch(d, op.name, true);
      if op.Create? && op.renamed {
        DoAllAppend(d, TouchPlan(d, op.name, true), [AddDir(op.name)]);
      } else if op.Create? {
        assert TouchPlan(d, op.name, true) + [] == TouchPlan(d, op.name, true);
      }
    }
  }

  /** Only a creation of `a` brings `a` into being. */
  lemma OthersStayOthers(d: Disk, a: string, op: Op)
    requires a !in d.dirs && !op.Delete? && (op.Create? ==> op.name != a)
    ensures a !in DoAll(d, Plan(d, op)).dirs && a !in UsedBy(d, op)
  {
    match op
    case Exists(name, removable) => ListAfterTouch(d, name, removable);
    case Create(name, created, renamed, removable) =>
      ListAfterTouch(d, name, removable);
      if renamed {
        DoAllAppend(d, TouchPlan(d, name, removable), [AddDir(name)]);
      } else {
        assert TouchPlan(d, name, removable) + [] == TouchPlan(d, name, removable);
      }
  }

  lemma ListAfterEvent(d: Disk, uses: seq<string>, a: string, e: Event)
    requires List(d) == AfterUses(uses) && a !in d.dirs && UsesOthers(e, a)
    ensures List(After(d, e)) == AfterUses(uses + UsedBy(d, e.op)) && a !in After(d, e).dirs && a !in UsedBy(d, e.op)
  {
    ListAfterUse(d, uses, e.op);
    OthersStayOthers(d, a, e.op);
  }

  lemma {:induction false} ListAfterAll(d: Disk, uses: seq<string>, a: string, events: seq<Event>)
    requires List(d) == AfterUses(uses) && a !in d.dirs && forall e <- events :: UsesOthers(e, a)
    ensures List(AfterAll(d, events)) == AfterUses(uses + Used(d, events)) && a !in Used(d, events)
    decreases |events|
  {
    if events == [] {
      assert uses + [] == uses;
    } else {
      var d', first, rest := After(d, events[0]), UsedBy(d, events[0].op), Used(After(d, events[0]), events[1..]);
      assert UsesOthers(events[0], a);
      ListAfterEvent(d, uses, a, events[0]);
      ListAfterAll(d', uses + first, a, events[1..]);
      assert Used(d, events) == first + rest;
      assert AfterAll(d, events) == AfterAll(d', events[1..]);
      SumOfUses(uses, first, rest, a);
    }
  }

  lemma SumOfUses(uses: seq<string>, first: seq<string>, rest: seq<string>, a: string)
    ensures (uses + first) + rest == uses + (first + rest)
    ensures a !in first && a !in rest ==> a !in first + rest
  {
  }

  /** Look-ups and creations only, in between: every directory is listed after the rename if and only if
      these have used fewer than five different names. */
  lemma ListedByCountIff(d: Disk, a: string, events: seq<Event>)
    requires Listed(d) && Distinct(List(d)) && |List(d)| <= KEEP_LRU && a !in d.dirs
    requires forall e <- events :: UsesOthers(e, a)
    ensures var plan := Plan(d, Create(a, true, true, true));
            |plan| > 0
            && var touched := DoAll(d, plan[..|plan|-1]);
               Listed(Do(AfterAll(touched, events), plan[|plan|-1]))
               <==> |set x | x in Used(touched, events)| < KEEP_LRU
  {
    CreatePlan(d, a, true);
    TouchedBefore(d, a);
    ListedWhenBusyIff(DoAll(d, TouchPlan(d, a, true)), Reverse(List(d)), a, events);
  }

  lemma TouchedBefore(d: Disk, a: string)
    requires Listed(d) && Distinct(List(d)) && |List(d)| <= KEEP_LRU && a !in d.dirs
    ensures var touched := DoAll(d, TouchPlan(d, a, true));
            Listed(touched) && List(touched) == AfterUses(Reverse(List(d)) + [a]) && a !in touched.dirs
  {
    var plan, uses := TouchPlan(d, a, true), Reverse(List(d));
    SomeUses(List(d));
    ListAfterTouch(d, a, true);
    TouchKeepsListed(d, a, true, |plan|);
    assert plan[..|plan|] == plan;
    assert (uses + [a])[..|uses|] == uses;
  }

  lemma ListedWhenBusyIff(touched: Disk, uses: seq<string>, a: string, events: seq<Event>)
    requires Listed(touched) && List(touched) == AfterUses(uses + [a]) && a !in touched.dirs
    requires forall e <- events :: UsesOthers(e, a)
    ensures Listed(Do(AfterAll(touched, events), AddDir(a))) <==> |set x | x in Used(touched, events)| < KEEP_LRU
  {
    ListAfterAll(touched, uses + [a], a, events);
    StaysIff(uses, a, Used(touched, events));
    NoDirectoryLeaks(touched, events);
    RenameListsIff(AfterAll(touched, events), a);
  }

  /** A whole creation that nothing disturbs. */
  function Whole(name: string): Event {
    Event(Create(name, true, true, true), None)
  }

  lemma WholeCreate(d: Disk, name: string, l: seq<string>)
    requires name !in d.dirs && d.file == Some(l) && name !in l
    requires |l| >= KEEP_LRU ==> l[|l|-1] !in d.dirs
    ensures After(d, Whole(name)) == Disk(d.dirs + {name}, Some(Touched(l, name, true)))
  {
    RemoveFirstKeeps(l, name);
    var touch := TouchPlan(d, name, true);
    assert touch == [SaveList(Touched(l, name, true))];
    DoAllAppend(d, touch, [AddDir(name)]);
  }

  lemma TouchedNew(l: seq<string>, name: string)
    requires name !in l
    ensures |l| < KEEP_LRU ==> Touched(l, name, true) == [name] + l
    ensures |l| == KEEP_LRU ==> Touched(l, name, true) == [name] + l[..KEEP_LRU - 1]
  {
    RemoveFirstKeeps(l, name);
  }

  function WholeAll(names: seq<string>): seq<Event> {
    if names == [] then [] else [Whole(names[0])] + WholeAll(names[1..])
  }

  /** The shortest such run from an empty cache: while `a` is between its touch and its rename, five
      other names are created, `a` falls off the list, and the rename makes an unlisted directory. */
  lemma InterleavedCreatesLeak(a: string, names: seq<string>)
    requires |names| == 5 && a !in names && Distinct(names)
    ensures var plan := Plan(Disk({}, None), Create(a, true, true, true));
            |plan| == 2 && !Listed(Do(AfterAll(Do(Disk({}, None), plan[0]), WholeAll(names)), plan[1]))
  {
    FirstCreate(a);
    assert [] + [a] == [a];
    FallsOff(Disk({}, Some([a])), [], a, names);
  }

  lemma {:induction false} FallsOff(d: Disk, listed: seq<string>, a: string, names: seq<string>)
    requires d.file == Some(listed + [a]) && names != [] && |listed| + |names| == KEEP_LRU
    requires a !in listed && a !in names && a !in d.dirs && Distinct(names)
    requires forall x <- names :: x !in listed && x !in d.dirs
    ensures !Listed(Do(AfterAll(d, WholeAll(names)), AddDir(a)))
    decreases |names|
  {
    var after := CreateOneMore(d, names[0], listed + [a], WholeAll(names[1..]));
    if |names| == 1 {
      assert List(after) == [names[0]] + listed;
      assert a in Do(after, AddDir(a)).dirs;
    } else {
      assert [names[0]] + (listed + [a]) == ([names[0]] + listed) + [a];
      FallsOff(after, [names[0]] + listed, a, names[1..]);
    }
  }

  lemma FirstCreate(name: string)
    ensures Plan(Disk({}, None), Create(name, true, true, true)) == [SaveList([name]), AddDir(name)]
  {
    assert Front([], name) == [name];
    assert TouchPlan(Disk({}, None), name, true) == [SaveList([name])];
  }

  /** One more creation, when the last of five names in the list has no directory. */
  lemma CreateOneMore(d: Disk, name: string, l: seq<string>, rest: seq<Event>) returns (after: Disk)
    requires name !in d.dirs && d.file == Some(l) && name !in l && |l| <= KEEP_LRU
    requires |l| == KEEP_LRU ==> l[|l|-1] !in d.dirs
    ensures after == Disk(d.dirs + {name}, Some(if |l| < KEEP_LRU then [name] + l else [name] + l[..KEEP_LRU - 1]))
    ensures AfterAll(d, [Whole(name)] + rest) == AfterAll(after, rest)
  {
    WholeCreate(d, name, l);
    TouchedNew(l, name);
    after := After(d, Whole(name));
    assert ([Whole(name)] + rest)[1..] == rest;
  }
}
