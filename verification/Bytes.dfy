/** Little-endian fields in byte strings. */
module Bytes {
  import opened Common

  /** The `i`-th byte of a number, the lowest first. */
  function Digit(v: nat, i: nat): byte
    decreases i
  {
    if i == 0 then (v % 256) as byte else Digit(v / 256, i - 1)
  }

  function LE(v: nat, n: nat): (s: seq<byte>)
    ensures |s| == n
  {
    seq(n, i requires 0 <= i < n => Digit(v, i))
  }

  function ReadLE(s: seq<byte>): nat {
    if s == [] then 0 else s[0] as nat + 256 * ReadLE(s[1..])
  }

  /** How many values `n` bytes can hold. */
  function Range(n: nat): nat {
    if n == 0 then 1 else 256 * Range(n - 1)
  }

  lemma {:induction false} ReadWritten(v: nat, n: nat)
    requires v < Range(n)
    ensures ReadLE(LE(v, n)) == v
    decreases n
  {
    if n > 0 {
      ReadWritten(v / 256, n - 1);
      assert LE(v, n)[1..] == LE(v / 256, n - 1);
    }
  }

  lemma Ranges()
    ensures Range(2) == 0x1_0000 && Range(4) == 0x1_0000_0000
  {
  }

  /** The number in the `n` bytes from `at` on. */
  function Field(s: seq<byte>, at: nat, n: nat): nat
    requires at + n <= |s|
  {
    ReadLE(s[at..at + n])
  }

  /** `part` stands at position `at`. */
  ghost predicate Holds(s: seq<byte>, at: nat, part: seq<byte>) {
    at + |part| <= |s| && s[at..at + |part|] == part
  }

  lemma HoldsBetween(pre: seq<byte>, part: seq<byte>, post: seq<byte>)
    ensures Holds(pre + part + post, |pre|, part)
  {
  }

  lemma HoldsInside(pre: seq<byte>, s: seq<byte>, post: seq<byte>, at: nat, part: seq<byte>)
    requires Holds(s, at, part)
    ensures Holds(pre + s + post, |pre| + at, part)
  {
  }

  lemma HoldsFront(part: seq<byte>, post: seq<byte>)
    ensures Holds(part + post, 0, part)
  {
  }

  lemma HoldsBehind(pre: seq<byte>, s: seq<byte>, at: nat, part: seq<byte>)
    requires Holds(s, at, part)
    ensures Holds(pre + s, |pre| + at, part)
  {
  }

  lemma HoldsWithin(s: seq<byte>, at: nat, part: seq<byte>, k: nat, piece: seq<byte>)
    requires Holds(s, at, part) && Holds(part, k, piece)
    ensures Holds(s, at + k, piece)
  {
    HoldsInside(s[..at], part, s[at + |part|..], k, piece);
    assert s == s[..at] + part + s[at + |part|..];
  }

  lemma HoldsThree(a: seq<byte>, b: seq<byte>, c: seq<byte>)
    ensures var s := a + b + c; Holds(s, 0, a) && Holds(s, |a|, b) && Holds(s, |a| + |b|, c)
  {
  }

  lemma HoldsFour(a: seq<byte>, b: seq<byte>, c: seq<byte>, d: seq<byte>)
    ensures var s := a + b + c + d;
            Holds(s, 0, a) && Holds(s, |a|, b) && Holds(s, |a| + |b|, c) && Holds(s, |a| + |b| + |c|, d)
  {
  }

  lemma HeldField(s: seq<byte>, at: nat, v: nat, n: nat)
    requires Holds(s, at, LE(v, n)) && v < Range(n)
    ensures Field(s, at, n) == v
  {
    ReadWritten(v, n);
  }

  /** `k` blocks of `size` bytes. */
  function Times(size: nat, k: nat): nat {
    if k == 0 then 0 else size + Times(size, k - 1)
  }

  lemma {:induction false} TimesIsProduct(size: nat, k: nat)
    ensures Times(size, k) == size * k
  {
    if k > 0 {
      TimesIsProduct(size, k - 1);
    }
  }

  lemma {:induction false} TimesGrows(size: nat, a: nat, b: nat)
    requires a < b
    ensures Times(size, a) + size <= Times(size, b)
  {
    if a < b - 1 {
      TimesGrows(size, a, b - 1);
    }
  }

  /** A position determines its block and its place in the block. */
  lemma SameBlock(size: nat, a: nat, b: nat, i: nat, j: nat)
    requires i < size && j < size && Times(size, a) + i == Times(size, b) + j
    ensures a == b && i == j
  {
  }

  function Zeros(n: nat): seq<byte> {
    seq(n, _ => 0)
  }

  /** What `writeUInt16LE`, `writeUInt32LE` and `writeInt32LE` do with a value in range. The buffer holds `start`,
    the fields `done` so far, and `left` from `k` on. */
  method WriteLE(buf: array<byte>, v: nat, at: nat, n: nat, ghost start: seq<byte>, ghost done: seq<byte>,
                 ghost left: seq<byte>, ghost k: nat)
    requires k + n <= |left| && buf[..] == start + done + left[k..] && |start| + |done| == at
    modifies buf
    ensures buf[..] == start + (done + LE(v, n)) + left[k + n..]
  {
    ghost var head, tail := start + done, left[k + n..];
    assert buf[..at] == head && buf[at + n..] == tail;
    WriteDigits(buf, v, at, n);
    assert buf[..] == buf[..at] + buf[at..at + n] + buf[at + n..];
  }

  method WriteDigits(buf: array<byte>, v: nat, at: nat, n: nat)
    requires at + n <= buf.Length
    modifies buf
    ensures buf[..at] == old(buf[..at]) && buf[at..at + n] == LE(v, n) && buf[at + n..] == old(buf[at + n..])
  {
    for i := 0 to n
      invariant buf[..at] == old(buf[..at]) && buf[at + n..] == old(buf[at + n..])
      invariant forall j | 0 <= j < i :: buf[at + j] == Digit(v, j)
    {
      buf[at + i] := Digit(v, i);
    }
  }
}
