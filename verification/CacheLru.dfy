/** The least-recently-used list that `cli/src/download_cache.rs` keeps beside its directories. */
module CacheLru {

  const KEEP_LRU := 5

  // ---------------------------------------------------------------------------------------------
  // The list
  // ---------------------------------------------------------------------------------------------

  /** Removes the first occurrence. */
  function RemoveFirst(l: seq<string>, name: string): seq<string> {
    if l == [] then [] else if l[0] == name then l[1..] else [l[0]] + RemoveFirst(l[1..], name)
  }

  function Front(l: seq<string>, name: string): seq<string> {
    [name] + RemoveFirst(l, name)
  }

  function Retain(l: seq<string>, name: string): seq<string> {
    if l == [] then [] else (if l[0] == name then [] else [l[0]]) + Retain(l[1..], name)
  }

  /** `touch` on the list: `gone` says that the last directory does not exist any more afterwards. */
  function Touched(l: seq<string>, name: string, gone: bool): seq<string> {
    var f := Front(l, name);
    if |f| > KEEP_LRU && gone then f[..|f|-1] else f
  }

  ghost predicate Distinct(l: seq<string>) {
    l == [] || (l[0] !in l[1..] && Distinct(l[1..]))
  }

  lemma {:induction false} DistinctPrefix(l: seq<string>, n: nat)
    requires Distinct(l) && n <= |l|
    ensures Distinct(l[..n])
  {
    if n > 0 {
      DistinctPrefix(l[1..], n - 1);
      assert l[..n][1..] == l[1..][..n-1];
    }
  }

  lemma {:induction false} RemoveFirstKeeps(l: seq<string>, name: string)
    ensures forall x :: x in RemoveFirst(l, name) ==> x in l
    ensures forall x | x in l && x != name :: x in RemoveFirst(l, name)
    ensures name in l ==> |RemoveFirst(l, name)| == |l| - 1
    ensures name !in l ==> RemoveFirst(l, name) == l
    ensures Distinct(l) ==> Distinct(RemoveFirst(l, name)) && name !in RemoveFirst(l, name)
  {
    if l != [] {
      assert l == [l[0]] + l[1..];
      RemoveFirstKeeps(l[1..], name);
      assert l[0] != name ==> RemoveFirst(l, name)[1..] == RemoveFirst(l[1..], name);
    }
  }

  lemma {:induction false} RetainKeeps(l: seq<string>, name: string)
    ensures forall x :: x in Retain(l, name) <==> x in l && x != name
    ensures Distinct(l) ==> Distinct(Retain(l, name))
    ensures |Retain(l, name)| <= |l|
  {
    if l != [] {
      assert l == [l[0]] + l[1..];
      RetainKeeps(l[1..], name);
      assert l[0] == name ==> Retain(l, name) == Retain(l[1..], name);
      assert l[0] != name ==> Retain(l, name)[1..] == Retain(l[1..], name);
    }
  }

  /** The first elements of the list are not disturbed by removing a name behind them. */
  lemma {:induction false} RemoveFirstPrefix(l: seq<string>, name: string, k: nat)
    requires k <= |l| && Distinct(l)
    ensures name in l[..k] ==>
              |RemoveFirst(l, name)| >= k - 1 && RemoveFirst(l[..k], name) == RemoveFirst(l, name)[..k-1]
    ensures name !in l[..k] ==> |RemoveFirst(l, name)| >= k - 1 && (k > 0 ==> RemoveFirst(l, name)[..k-1] == l[..k-1])
    ensures name !in l[..k] && k < |l| ==> |RemoveFirst(l, name)| >= k && RemoveFirst(l, name)[..k] == l[..k]
  {
    if k > 0 {
      RemoveFirstPrefix(l[1..], name, k - 1);
      RemoveFirstKeeps(l, name);
      assert l[..k] == [l[0]] + l[1..][..k-1];
      assert l[..k][1..] == l[1..][..k-1];
    } else {
      RemoveFirstKeeps(l, name);
    }
  }

  // ---------------------------------------------------------------------------------------------
  // The list is the five names used last
  // ---------------------------------------------------------------------------------------------

  /** All names ever touched, the last use first. */
  function Recent(uses: seq<string>): seq<string> {
    if uses == [] then [] else Front(Recent(uses[..|uses|-1]), uses[|uses|-1])
  }

  function Take(l: seq<string>, n: nat): seq<string> {
    if |l| <= n then l else l[..n]
  }

  /** The list after some uses when every removal succeeds. */
  function AfterUses(uses: seq<string>): seq<string> {
    if uses == [] then [] else Touched(AfterUses(uses[..|uses|-1]), uses[|uses|-1], true)
  }

  lemma {:induction false} RecentDistinct(uses: seq<string>)
    ensures Distinct(Recent(uses))
  {
    if uses != [] {
      RecentDistinct(uses[..|uses|-1]);
      RemoveFirstKeeps(Recent(uses[..|uses|-1]), uses[|uses|-1]);
      assert Recent(uses)[1..] == RemoveFirst(Recent(uses[..|uses|-1]), uses[|uses|-1]);
    }
  }

  /** The position of the last use, or -1. */
  function LastUse(uses: seq<string>, name: string): int {
    if uses == [] then -1 else if uses[|uses|-1] == name then |uses| - 1 else LastUse(uses[..|uses|-1], name)
  }

  ghost predicate ByLastUse(uses: seq<string>, l: seq<string>) {
    |l| <= 1 || (LastUse(uses, l[0]) > LastUse(uses, l[1]) && ByLastUse(uses, l[1..]))
  }

  lemma {:induction false} RemoveFirstOrdered(uses: seq<string>, l: seq<string>, name: string)
    requires ByLastUse(uses, l)
    ensures ByLastUse(uses, RemoveFirst(l, name))
  {
    if |l| > 1 {
      RemoveFirstOrdered(uses, l[1..], name);
      if l[0] != name {
        assert RemoveFirst(l, name)[1..] == RemoveFirst(l[1..], name);
        assert l[1] == name ==> RemoveFirst(l[1..], name) == l[2..];
      }
    }
  }

  /** Using a name changes the last use of that name only, to the latest position of all. */
  lemma {:induction false} UseExtendsOrder(uses: seq<string>, name: string, l: seq<string>)
    requires ByLastUse(uses, l) && name !in l
    ensures ByLastUse(uses + [name], l)
    ensures l != [] ==> LastUse(uses + [name], l[0]) == LastUse(uses, l[0]) < |uses|
    ensures LastUse(uses + [name], name) == |uses|
  {
    assert (uses + [name])[..|uses|] == uses;
    if l != [] {
      LastUseBound(uses, l[0]);
      UseExtendsOrder(uses, name, l[1..]);
    }
  }

  lemma {:induction false} LastUseBound(uses: seq<string>, x: string)
    ensures -1 <= LastUse(uses, x) < |uses| && (x in uses <==> LastUse(uses, x) >= 0)
  {
    if uses != [] {
      LastUseBound(uses[..|uses|-1], x);
      assert uses == uses[..|uses|-1] + [uses[|uses|-1]];
    }
  }

  /** `Recent` in terms of the uses alone: it holds exactly the used names, each once, and a name
      comes before another exactly when its last use is later. */
  lemma {:induction false} RecentMeaning(uses: seq<string>)
    ensures Distinct(Recent(uses)) && ByLastUse(uses, Recent(uses))
    ensures forall x :: x in Recent(uses) <==> x in uses
  {
    if uses != [] {
      var before, name := uses[..|uses|-1], uses[|uses|-1];
      RecentMeaning(before);
      RecentDistinct(uses);
      RemoveFirstKeeps(Recent(before), name);
      RemoveFirstOrdered(before, Recent(before), name);
      UseExtendsOrder(before, name, RemoveFirst(Recent(before), name));
      assert uses == before + [name];
      assert Recent(uses)[1..] == RemoveFirst(Recent(before), name);
    }
  }

  lemma TouchTakes(r: seq<string>, name: string)
    requires Distinct(r)
    ensures Touched(Take(r, KEEP_LRU), name, true) == Take(Front(r, name), KEEP_LRU)
  {
    RemoveFirstKeeps(r, name);
    if |r| > KEEP_LRU {
      var t, kept := r[..KEEP_LRU], RemoveFirst(r, name);
      DistinctPrefix(r, KEEP_LRU);
      RemoveFirstKeeps(t, name);
      RemoveFirstPrefix(r, name, KEEP_LRU);
      assert Take(Front(r, name), KEEP_LRU) == [name] + kept[..KEEP_LRU-1];
      if name in t {
        assert Touched(t, name, true) == [name] + RemoveFirst(t, name);
      } else {
        assert kept[..KEEP_LRU-1] == t[..KEEP_LRU-1];
        assert Touched(t, name, true) == [name] + t[..KEEP_LRU-1];
      }
    }
  }

  /** After any uses, with removals succeeding, the list is the first five distinct names by last use. */
  lemma {:induction false} ListIsRecency(uses: seq<string>)
    ensures AfterUses(uses) == Take(Recent(uses), KEEP_LRU)
  {
    if uses != [] {
      ListIsRecency(uses[..|uses|-1]);
      RecentDistinct(uses[..|uses|-1]);
      TouchTakes(Recent(uses[..|uses|-1]), uses[|uses|-1]);
    }
  }

  // ---------------------------------------------------------------------------------------------
  // How long a used name stays in the list
  // ---------------------------------------------------------------------------------------------

  lemma {:induction false} RemoveFirstAppend(u: seq<string>, v: seq<string>, x: string)
    ensures RemoveFirst(u + v, x) == if x in u then RemoveFirst(u, x) + v else u + RemoveFirst(v, x)
  {
    if u == [] {
      assert u + v == v;
    } else {
      var s, t := u + v, u[1..];
      assert s[0] == u[0] && s[1..] == t + v;
      if u[0] != x {
        RemoveFirstAppend(t, v, x);
        InRest(u, x);
        assert RemoveFirst(s, x) == [u[0]] + RemoveFirst(t + v, x);
        PushFront(u[0], t, RemoveFirst(t, x), v, RemoveFirst(v, x));
        assert [u[0]] + t == u;
      }
    }
  }

  lemma InRest(u: seq<string>, x: string)
    requires u != [] && u[0] != x
    ensures x in u <==> x in u[1..]
  {
  }

  lemma PushFront(y: string, u: seq<string>, u': seq<string>, v: seq<string>, v': seq<string>)
    ensures [y] + (u' + v) == ([y] + u') + v && [y] + (u + v') == ([y] + u) + v'
  {
  }

  lemma BehindStep(u: seq<string>, a: string, r: seq<string>, x: string)
    requires u + [a] <= r && x != a
    ensures RemoveFirst(u, x) + [a] <= RemoveFirst(r, x)
  {
    var rest := r[|u| + 1..];
    assert r == u + ([a] + rest);
    RemoveFirstAppend(u, [a] + rest, x);
    RemoveFirstAppend([a], rest, x);
    RemoveFirstKeeps(u, x);
    PrefixOfSum(RemoveFirst(u, x), a, rest);
    PrefixOfSum(u, a, RemoveFirst(rest, x));
  }

  lemma PrefixOfSum(u: seq<string>, a: string, rest: seq<string>)
    ensures u + [a] <= u + ([a] + rest)
  {
    assert u + ([a] + rest) == (u + [a]) + rest;
  }

  /** After other uses a name stands right behind the names of these uses. */
  lemma {:induction false} RecentBehind(before: seq<string>, a: string, others: seq<string>)
    requires a !in others
    ensures Recent(others) + [a] <= Recent(before + [a] + others)
  {
    var all := before + [a] + others;
    if others == [] {
      assert all == before + [a] && all[..|all|-1] == before;
    } else {
      var earlier, x := others[..|others|-1], others[|others|-1];
      assert all[..|all|-1] == before + [a] + earlier && all[|all|-1] == x;
      RecentBehind(before, a, earlier);
      BehindStep(Recent(earlier), a, Recent(before + [a] + earlier), x);
      assert Recent(others) + [a] == [x] + (RemoveFirst(Recent(earlier), x) + [a]);
    }
  }

  lemma {:induction false} DistinctCount(l: seq<string>)
    requires Distinct(l)
    ensures |set x | x in l| == |l|
  {
    if l != [] {
      DistinctCount(l[1..]);
      assert (set x | x in l) == (set x | x in l[1..]) + {l[0]};
    }
  }

  lemma {:induction false} DistinctPlace(l: seq<string>, i: nat, j: nat)
    requires Distinct(l) && i < |l| && j < |l| && l[i] == l[j]
    ensures i == j
  {
    if i > 0 && j > 0 {
      DistinctPlace(l[1..], i - 1, j - 1);
    }
  }

  /** Whatever was used before: a used name is still listed if and only if fewer than five different
      names have been used since. */
  lemma StaysIff(before: seq<string>, a: string, others: seq<string>)
    requires a !in others
    ensures a in AfterUses(before + [a] + others) <==> |set x | x in others| < KEEP_LRU
  {
    var all := before + [a] + others;
    var r, k := Recent(all), |Recent(others)|;
    ListIsRecency(all);
    RecentMeaning(all);
    RecentMeaning(others);
    RecentBehind(before, a, others);
    DistinctCount(Recent(others));
    assert (set x | x in Recent(others)) == (set x | x in others);
    assert r[k] == a;
    InFrontIff(r, k, KEEP_LRU);
  }

  lemma InFrontIff(l: seq<string>, k: nat, n: nat)
    requires Distinct(l) && k < |l|
    ensures l[k] in Take(l, n) <==> k < n
  {
    if k < n {
      assert Take(l, n)[k] == l[k];
    }
    if l[k] in Take(l, n) {
      var i :| 0 <= i < |Take(l, n)| && Take(l, n)[i] == l[k];
      DistinctPlace(l, i, k);
    }
  }

  function Reverse(l: seq<string>): seq<string> {
    if l == [] then [] else Reverse(l[1..]) + [l[0]]
  }

  /** Every list of at most five different names is what some uses leave. */
  lemma {:induction false} SomeUses(l: seq<string>)
    requires Distinct(l) && |l| <= KEEP_LRU
    ensures AfterUses(Reverse(l)) == l
  {
    if l != [] {
      SomeUses(l[1..]);
      assert Reverse(l)[..|Reverse(l)|-1] == Reverse(l[1..]);
      RemoveFirstKeeps(l[1..], l[0]);
    }
  }

  /** The list and how many removals have failed after some touches with their outcomes. */
  function AfterTouches(touches: seq<(string, bool)>): (seq<string>, nat) {
    if touches == [] then ([], 0)
    else
      var (l, failures) := AfterTouches(touches[..|touches|-1]);
      var (name, gone) := touches[|touches|-1];
      (Touched(l, name, gone), failures + if gone then 0 else 1)
  }

  /** With failing removals: no duplicates, the touched name stays in front, and the list is longer
      than five by at most the number of failures. */
  lemma {:induction false} FailuresBoundLength(touches: seq<(string, bool)>)
    ensures Distinct(AfterTouches(touches).0)
    ensures |AfterTouches(touches).0| <= KEEP_LRU + AfterTouches(touches).1
    ensures touches != [] ==> AfterTouches(touches).0 != [] && AfterTouches(touches).0[0] == touches[|touches|-1].0
  {
    if touches != [] {
      FailuresBoundLength(touches[..|touches|-1]);
      var f := Front(AfterTouches(touches[..|touches|-1]).0, touches[|touches|-1].0);
      RemoveFirstKeeps(AfterTouches(touches[..|touches|-1]).0, touches[|touches|-1].0);
      assert f[1..] == RemoveFirst(AfterTouches(touches[..|touches|-1]).0, touches[|touches|-1].0);
      DistinctPrefix(f, |f| - 1);
    }
  }
}
