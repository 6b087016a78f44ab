/** Repeated steps over any state, and what they inherit from a single step. */
module Folds {

  function Repeat<S>(f: S -> S, s: S, n: nat): S
    decreases n
  {
    if n == 0 then s else Repeat(f, f(s), n - 1)
  }

  function Fold<S, X>(step: (S, X) -> S, s: S, items: seq<X>): S
    decreases |items|
  {
    if items == [] then s else Fold(step, step(s, items[0]), items[1..])
  }

  lemma {:induction false} RepeatPush<S>(f: S -> S, s: S, n: nat)
    ensures Repeat(f, s, n + 1) == f(Repeat(f, s, n))
    decreases n
  {
    if n > 0 {
      RepeatPush(f, f(s), n - 1);
    }
  }

  lemma {:induction false} RepeatUndone<S(!new)>(f: S -> S, g: S -> S, s: S, n: nat)
    requires forall x :: g(f(x)) == x
    ensures Repeat(g, Repeat(f, s, n), n) == s
    decreases n
  {
    if n > 0 {
      RepeatPush(f, s, n - 1);
      RepeatUndone(f, g, s, n - 1);
    }
  }

  lemma {:induction false} RepeatLinear<S(!new)>(f: S -> S, add: (S, S) -> S, a: S, b: S, n: nat)
    requires forall x, y :: f(add(x, y)) == add(f(x), f(y))
    ensures Repeat(f, add(a, b), n) == add(Repeat(f, a, n), Repeat(f, b, n))
    decreases n
  {
    if n > 0 {
      RepeatLinear(f, add, f(a), f(b), n - 1);
    }
  }

  lemma {:induction false} FoldAppend<S, X>(step: (S, X) -> S, s: S, a: seq<X>, b: seq<X>)
    ensures Fold(step, s, a + b) == Fold(step, Fold(step, s, a), b)
    decreases |a|
  {
    if a == [] {
      assert a + b == b;
    } else {
      assert (a + b)[1..] == a[1..] + b;
      FoldAppend(step, step(s, a[0]), a[1..], b);
    }
  }

  lemma {:induction false} RepeatAdd<S>(f: S -> S, s: S, m: nat, n: nat)
    ensures Repeat(f, s, m + n) == Repeat(f, Repeat(f, s, m), n)
    decreases m
  {
    if m > 0 {
      RepeatAdd(f, f(s), m - 1, n);
    }
  }

  /** A map that commutes with each step commutes with the repetition. */
  lemma {:induction false} RepeatMapped<S(!new), T(!new)>(f: S -> S, g: T -> T, h: S -> T, s: S, n: nat)
    requires forall x :: h(f(x)) == g(h(x))
    ensures h(Repeat(f, s, n)) == Repeat(g, h(s), n)
    decreases n
  {
    if n > 0 {
      RepeatMapped(f, g, h, f(s), n - 1);
    }
  }

  lemma {:induction false} FoldMapped<S(!new), T(!new), X(!new)>(f: (S, X) -> S, g: (T, X) -> T, h: S -> T, s: S,
                                                                 items: seq<X>)
    requires forall a, x :: h(f(a, x)) == g(h(a), x)
    ensures h(Fold(f, s, items)) == Fold(g, h(s), items)
    decreases |items|
  {
    if items != [] {
      FoldMapped(f, g, h, f(s, items[0]), items[1..]);
    }
  }

  lemma FoldPush<S, X>(step: (S, X) -> S, s: S, items: seq<X>, x: X)
    ensures Fold(step, s, items + [x]) == step(Fold(step, s, items), x)
  {
    FoldAppend(step, s, items, [x]);
    assert [x][1..] == [];
  }

  lemma {:induction false} FoldInjective<S(!new), X(!new)>(step: (S, X) -> S, s: S, t: S, items: seq<X>)
    requires forall a, b, x :: step(a, x) == step(b, x) ==> a == b
    requires Fold(step, s, items) == Fold(step, t, items)
    ensures s == t
    decreases |items|
  {
    if items != [] {
      FoldInjective(step, step(s, items[0]), step(t, items[0]), items[1..]);
    }
  }

  function Zip<X>(mix: (X, X) -> X, x: seq<X>, y: seq<X>): seq<X>
    requires |x| == |y|
  {
    seq(|x|, i requires 0 <= i < |x| => mix(x[i], y[i]))
  }

  lemma {:induction false} FoldLinear<S(!new), X(!new)>(step: (S, X) -> S, add: (S, S) -> S, mix: (X, X) -> X,
                                                        a: S, b: S, x: seq<X>, y: seq<X>)
    requires |x| == |y|
    requires forall s, t, u, v :: step(add(s, t), mix(u, v)) == add(step(s, u), step(t, v))
    ensures Fold(step, add(a, b), Zip(mix, x, y)) == add(Fold(step, a, x), Fold(step, b, y))
    decreases |x|
  {
    if x != [] {
      assert Zip(mix, x, y)[1..] == Zip(mix, x[1..], y[1..]);
      FoldLinear(step, add, mix, step(a, x[0]), step(b, y[0]), x[1..], y[1..]);
    }
  }

  // ---------------------------------------------------------------------------------------------
  // Items that stand for lists of smaller items
  // ---------------------------------------------------------------------------------------------

  function FlatMap<X, Y>(f: X -> seq<Y>, items: seq<X>): seq<Y> {
    if items == [] then [] else f(items[0]) + FlatMap(f, items[1..])
  }

  lemma {:induction false} FlatMapAppend<X, Y>(f: X -> seq<Y>, a: seq<X>, b: seq<X>)
    ensures FlatMap(f, a + b) == FlatMap(f, a) + FlatMap(f, b)
  {
    if a == [] {
      assert a + b == b;
    } else {
      FlatMapAppend(f, a[1..], b);
      assert (a + b)[0] == a[0] && (a + b)[1..] == a[1..] + b;
      assert f(a[0]) + (FlatMap(f, a[1..]) + FlatMap(f, b)) == (f(a[0]) + FlatMap(f, a[1..])) + FlatMap(f, b);
    }
  }

  lemma {:induction false} FlatMapLength<X(!new), Y>(f: X -> seq<Y>, items: seq<X>, k: nat)
    requires forall x :: |f(x)| == k
    ensures |FlatMap(f, items)| == k * |items|
  {
    if items != [] {
      FlatMapLength(f, items[1..], k);
    }
  }

  lemma {:induction false} FlatMapInjective<X(!new), Y>(f: X -> seq<Y>, a: seq<X>, b: seq<X>, k: nat)
    requires forall x :: |f(x)| == k
    requires forall x, y :: f(x) == f(y) ==> x == y
    requires |a| == |b| && FlatMap(f, a) == FlatMap(f, b)
    ensures a == b
  {
    if a != [] {
      assert FlatMap(f, a)[..k] == f(a[0]) && FlatMap(f, b)[..k] == f(b[0]);
      assert FlatMap(f, a)[k..] == FlatMap(f, a[1..]) && FlatMap(f, b)[k..] == FlatMap(f, b[1..]);
      FlatMapInjective(f, a[1..], b[1..], k);
      assert a == [a[0]] + a[1..] && b == [b[0]] + b[1..];
    }
  }

  /** Steps made of smaller steps. */
  lemma {:induction false} FoldFlatMap<S(!new), X(!new), Y>(step: (S, X) -> S, small: (S, Y) -> S, f: X -> seq<Y>,
                                                            s: S, items: seq<X>)
    requires forall a, x :: step(a, x) == Fold(small, a, f(x))
    ensures Fold(step, s, items) == Fold(small, s, FlatMap(f, items))
    decreases |items|
  {
    if items != [] {
      FoldAppend(small, s, f(items[0]), FlatMap(f, items[1..]));
      FoldFlatMap(step, small, f, step(s, items[0]), items[1..]);
    }
  }

  // ---------------------------------------------------------------------------------------------
  // Registers that take in bits
  // ---------------------------------------------------------------------------------------------

  /** The lowest `n` bits of `v`, lowest first. */
  function LowBits<S>(low: S -> bool, half: S -> S, v: S, n: nat): (bits: seq<bool>)
    ensures |bits| == n
    decreases n
  {
    if n == 0 then [] else [low(v)] + LowBits(low, half, half(v), n - 1)
  }

  /** Mixing a number in and turning `n` times is taking its bits in one by one. */
  lemma {:induction false} TurnsTakeBits<S(!new)>(turn: S -> S, add: (S, S) -> S, step: (S, bool) -> S,
                                                  low: S -> bool, half: S -> S, c: S, v: S, n: nat)
    requires forall s, w :: turn(add(s, w)) == add(step(s, low(w)), half(w))
    ensures Repeat(turn, add(c, v), n) == add(Fold(step, c, LowBits(low, half, v, n)), Repeat(half, v, n))
    decreases n
  {
    if n > 0 {
      TurnsTakeBits(turn, add, step, low, half, step(c, low(v)), half(v), n - 1);
      assert LowBits(low, half, v, n)[1..] == LowBits(low, half, half(v), n - 1);
    }
  }

  lemma {:induction false} LowBitsAt<S>(low: S -> bool, half: S -> S, v: S, n: nat, i: nat)
    requires i < n
    ensures LowBits(low, half, v, n)[i] == low(Repeat(half, v, i))
    decreases n
  {
    if i > 0 {
      LowBitsAt(low, half, half(v), n - 1, i - 1);
    }
  }

  lemma {:induction false} LowBitsInjective<S(!new)>(low: S -> bool, half: S -> S, v: S, w: S, n: nat)
    requires forall a, b :: low(a) == low(b) && half(a) == half(b) ==> a == b
    requires LowBits(low, half, v, n) == LowBits(low, half, w, n) && Repeat(half, v, n) == Repeat(half, w, n)
    ensures v == w
    decreases n
  {
    if n > 0 {
      assert LowBits(low, half, v, n)[0] == LowBits(low, half, w, n)[0];
      assert LowBits(low, half, v, n)[1..] == LowBits(low, half, w, n)[1..];
      LowBitsInjective(low, half, half(v), half(w), n - 1);
    }
  }

  /** The bits as one number, the first one lowest. */
  function Gathered<S>(cons: (S, bool) -> S, zero: S, bits: seq<bool>): S
    decreases |bits|
  {
    if bits == [] then zero else cons(Gathered(cons, zero, bits[1..]), bits[0])
  }

  /** If taking in some bits ends at zero, and going back is unambiguous along the way, the register
      held just these bits. */
  lemma {:induction false} ZeroedBy<S(!new)>(step: (S, bool) -> S, cons: (S, bool) -> S, zero: S, fits: S -> bool,
                                             d: S, bits: seq<bool>)
    requires forall s, b :: fits(step(s, b)) ==> s == cons(step(s, b), b)
    requires forall k | 0 < k <= |bits| :: fits(Gathered(cons, zero, bits[k..]))
    requires Fold(step, d, bits) == zero
    ensures d == Gathered(cons, zero, bits)
    decreases |bits|
  {
    if bits != [] {
      assert forall k | 0 < k <= |bits[1..]| :: bits[1..][k..] == bits[k + 1..];
      ZeroedBy(step, cons, zero, fits, step(d, bits[0]), bits[1..]);
      assert fits(Gathered(cons, zero, bits[1..]));
    }
  }
}
