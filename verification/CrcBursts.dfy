/** What the CRC-32 of `scripts/generate-icons.js` detects: short bursts (section 3.4 of RFC 2083
    prescribes this code for PNG chunks). Proved on the lists of bits of `Crc`. */
module CrcBursts {
  import opened Folds
  import opened Crc

  // ---------------------------------------------------------------------------------------------
  // Linear over xor
  // ---------------------------------------------------------------------------------------------

  lemma HalfLinear(a: Word, b: Word)
    ensures HalfWord(XorWord(a, b)) == XorWord(HalfWord(a), HalfWord(b))
  {
  }

  /** Adding `p` to one side, or to both. */
  lemma XorMoves(a: Word, b: Word, p: Word)
    ensures XorWord(XorWord(a, p), b) == XorWord(XorWord(a, b), p)
    ensures XorWord(a, XorWord(b, p)) == XorWord(XorWord(a, b), p)
    ensures XorWord(XorWord(a, p), XorWord(b, p)) == XorWord(a, b)
  {
  }

  lemma RoundLinear(a: Word, b: Word)
    ensures RoundWord(XorWord(a, b)) == XorWord(RoundWord(a), RoundWord(b))
  {
    HalfLinear(a, b);
    XorMoves(HalfWord(a), HalfWord(b), WordOf(0xEDB88320));
  }

  lemma SumOfFour(a: Word, b: Word, v: Word, w: Word)
    ensures XorWord(XorWord(a, b), XorWord(v, w)) == XorWord(XorWord(a, v), XorWord(b, w))
  {
  }

  function Xor8(v: bv8, w: bv8): bv8 {
    v ^ w
  }

  lemma WordOfXor8(v: bv8, w: bv8)
    ensures WordOf(Xor8(v, w) as bv32) == XorWord(WordOf(v as bv32), WordOf(w as bv32))
  {
    WordOfXor(v as bv32, w as bv32);
    Widened(v, w);
  }

  lemma Widened(v: bv8, w: bv8)
    ensures Xor8(v, w) as bv32 == Xor32(v as bv32, w as bv32)
  {
  }

  lemma TurnsLinear(a: Word, b: Word)
    ensures Repeat(RoundWord, XorWord(a, b), 8) == XorWord(Repeat(RoundWord, a, 8), Repeat(RoundWord, b, 8))
  {
    forall x: Word, y: Word ensures RoundWord(XorWord(x, y)) == XorWord(RoundWord(x), RoundWord(y)) {
      RoundLinear(x, y);
    }
    RepeatLinear(RoundWord, XorWord, a, b, 8);
  }

  lemma UpdateWordLinear(a: Word, b: Word, v: bv8, w: bv8)
    ensures UpdateWord(XorWord(a, b), Xor8(v, w)) == XorWord(UpdateWord(a, v), UpdateWord(b, w))
  {
    WordOfXor8(v, w);
    SumOfFour(a, b, WordOf(v as bv32), WordOf(w as bv32));
    TurnsLinear(XorWord(a, WordOf(v as bv32)), XorWord(b, WordOf(w as bv32)));
  }

  /** The running value is linear in the start value and the message together. */
  lemma MessagesLinear(a: bv32, b: bv32, m: seq<bv8>, n: seq<bv8>)
    requires |m| == |n|
    ensures Fold(Update, Xor32(a, b), Zip(Xor8, m, n)) == Xor32(Fold(Update, a, m), Fold(Update, b, n))
  {
    WordsLinear(WordOf(a), WordOf(b), m, n);
    WordOfFold(a, m);
    WordOfFold(b, n);
    WordOfFold(Xor32(a, b), Zip(Xor8, m, n));
    WordOfXor(a, b);
    WordOfXor(Fold(Update, a, m), Fold(Update, b, n));
    WordOfInjective(Fold(Update, Xor32(a, b), Zip(Xor8, m, n)), Xor32(Fold(Update, a, m), Fold(Update, b, n)));
  }

  lemma WordsLinear(a: Word, b: Word, m: seq<bv8>, n: seq<bv8>)
    requires |m| == |n|
    ensures Fold(UpdateWord, XorWord(a, b), Zip(Xor8, m, n)) == XorWord(Fold(UpdateWord, a, m), Fold(UpdateWord, b, n))
  {
    forall s: Word, t: Word, u, v
      ensures UpdateWord(XorWord(s, t), Xor8(u, v)) == XorWord(UpdateWord(s, u), UpdateWord(t, v))
    {
      UpdateWordLinear(s, t, u, v);
    }
    FoldLinear(UpdateWord, XorWord, Xor8, a, b, m, n);
  }

  // ---------------------------------------------------------------------------------------------
  // Taking in a message bit by bit
  // ---------------------------------------------------------------------------------------------

  const ZERO: Word := seq(32, _ => false)

  function BitWord(b: bool): Word {
    seq(32, i => i == 0 && b)
  }

  function BitStep(c: Word, b: bool): Word {
    RoundWord(XorWord(c, BitWord(b)))
  }

  predicate First(w: Word) {
    w[0]
  }

  function ByteBits(b: bv8): seq<bool> {
    LowBits(First, HalfWord, WordOf(b as bv32), 8)
  }

  /** The bits of a message, the lowest bit of each byte first. */
  function Bits(message: seq<bv8>): (bits: seq<bool>)
    ensures |bits| == 8 * |message|
  {
    FlatMapLength(ByteBits, message, 8);
    FlatMap(ByteBits, message)
  }

  /** The bits of `v` behind the first one. */
  function WithoutFirst(v: Word): Word {
    [false] + v[1..]
  }

  lemma FirstApart(c: Word, v: Word)
    ensures XorWord(c, v) == XorWord(XorWord(c, BitWord(First(v))), WithoutFirst(v))
  {
    var x, y := XorWord(c, BitWord(First(v))), WithoutFirst(v);
    forall i | 0 <= i < 32 ensures XorWord(c, v)[i] == XorWord(x, y)[i] {
      if i > 0 {
        assert x[i] == c[i] && y[i] == v[i];
      } else {
        assert x[0] == (c[0] != v[0]) && !y[0];
      }
    }
  }

  lemma RestShifts(v: Word)
    ensures RoundWord(WithoutFirst(v)) == HalfWord(v)
  {
    assert WithoutFirst(v)[1..] == v[1..];
  }

  lemma RoundSplit(c: Word, v: Word)
    ensures RoundWord(XorWord(c, v)) == XorWord(BitStep(c, First(v)), HalfWord(v))
  {
    FirstApart(c, v);
    RoundLinear(XorWord(c, BitWord(First(v))), WithoutFirst(v));
    RestShifts(v);
  }

  lemma {:induction false} Halves(w: Word, n: nat, i: nat)
    requires i < 32
    ensures Repeat(HalfWord, w, n)[i] == (if i + n < 32 then w[i + n] else false)
    decreases n
  {
    if n > 0 {
      Halves(HalfWord(w), n - 1, i);
    }
  }

  lemma ByteRunsOut(b: bv8)
    ensures Repeat(HalfWord, WordOf(b as bv32), 8) == ZERO
  {
    var left: Word := Repeat(HalfWord, WordOf(b as bv32), 8);
    forall i: nat | i < 32
      ensures !left[i]
    {
      Halves(WordOf(b as bv32), 8, i);
      if i + 8 < 32 {
        WordOfByte(b, i + 8);
      }
    }
  }

  lemma TurnsAreBits(c: Word, v: Word)
    ensures Repeat(RoundWord, XorWord(c, v), 8) ==
      XorWord(Fold(BitStep, c, LowBits(First, HalfWord, v, 8)), Repeat(HalfWord, v, 8))
  {
    forall s: Word, w: Word ensures RoundWord(XorWord(s, w)) == XorWord(BitStep(s, First(w)), HalfWord(w)) {
      RoundSplit(s, w);
    }
    TurnsTakeBits(RoundWord, XorWord, BitStep, First, HalfWord, c, v, 8);
  }

  lemma XorZeroWord(w: Word)
    ensures XorWord(w, ZERO) == w
  {
  }

  lemma UpdateIsBits(c: Word, b: bv8)
    ensures UpdateWord(c, b) == Fold(BitStep, c, ByteBits(b))
  {
    TurnsAreBits(c, WordOf(b as bv32));
    ByteRunsOut(b);
    XorZeroWord(Fold(BitStep, c, ByteBits(b)));
  }

  /** Taking in bytes is taking in their bits. */
  lemma MessageIsBits(c: Word, message: seq<bv8>)
    ensures Fold(UpdateWord, c, message) == Fold(BitStep, c, Bits(message))
  {
    forall a: Word, b ensures UpdateWord(a, b) == Fold(BitStep, a, ByteBits(b)) {
      UpdateIsBits(a, b);
    }
    FoldFlatMap(UpdateWord, BitStep, ByteBits, c, message);
  }

  lemma ByteBitsInjective(a: bv8, b: bv8)
    requires ByteBits(a) == ByteBits(b)
    ensures a == b
  {
    ByteRunsOut(a);
    ByteRunsOut(b);
    forall v: Word, w: Word | First(v) == First(w) && HalfWord(v) == HalfWord(w) ensures v == w {
      assert v == [v[0]] + v[1..] && w == [w[0]] + w[1..];
      assert HalfWord(v)[..31] == v[1..] && HalfWord(w)[..31] == w[1..];
    }
    LowBitsInjective(First, HalfWord, WordOf(a as bv32), WordOf(b as bv32), 8);
    WordOfInjective(a as bv32, b as bv32);
    SameByte(a, b);
  }

  lemma BitsInjective(m: seq<bv8>, n: seq<bv8>)
    requires |m| == |n| && Bits(m) == Bits(n)
    ensures m == n
  {
    forall a, b | ByteBits(a) == ByteBits(b) ensures a == b {
      ByteBitsInjective(a, b);
    }
    FlatMapInjective(ByteBits, m, n, 8);
  }

  // ---------------------------------------------------------------------------------------------
  // Going back from zero
  // ---------------------------------------------------------------------------------------------

  predicate Fits(w: Word) {
    !w[31]
  }

  function Cons(w: Word, b: bool): Word {
    [b] + w[..31]
  }

  /** A round moves the lowest bit to the top, because the polynomial sets the top bit. */
  lemma RoundTop(x: Word)
    ensures RoundWord(x)[31] == x[0]
    ensures !x[0] ==> RoundWord(x) == HalfWord(x)
  {
    PolynomialTop();
  }

  /** A step that leaves the top bit clear has only shifted. */
  lemma BitStepBack(s: Word, b: bool)
    requires Fits(BitStep(s, b))
    ensures s == Cons(BitStep(s, b), b)
  {
    var x := XorWord(s, BitWord(b));
    RoundTop(x);
    ShiftedBack(s, b, x);
  }

  lemma ShiftedBack(s: Word, b: bool, x: Word)
    requires x == XorWord(s, BitWord(b)) && !x[0]
    ensures s == Cons(HalfWord(x), b)
  {
    forall i | 0 <= i < 32
      ensures s[i] == Cons(HalfWord(x), b)[i]
    {
      assert x[i] == (s[i] != BitWord(b)[i]);
    }
  }

  lemma RoundWordInjective(v: Word, w: Word)
    requires RoundWord(v) == RoundWord(w)
    ensures v == w
  {
    RoundTop(v);
    RoundTop(w);
    forall i | 0 <= i < 32
      ensures v[i] == w[i]
    {
      if i > 0 {
        assert RoundWord(v)[i - 1] == RoundWord(w)[i - 1];
      }
    }
  }

  lemma XorWordTwice(a: Word, b: Word)
    ensures XorWord(XorWord(a, b), b) == a
  {
  }

  lemma BitStepInjective(a: Word, b: Word, x: bool)
    requires BitStep(a, x) == BitStep(b, x)
    ensures a == b
  {
    RoundWordInjective(XorWord(a, BitWord(x)), XorWord(b, BitWord(x)));
    XorWordTwice(a, BitWord(x));
    XorWordTwice(b, BitWord(x));
  }

  /** The word of at most 32 bits holds them in order, and zeros above. */
  lemma {:induction false} WordHoldsBits(bits: seq<bool>, i: nat)
    requires |bits| <= 32 && i < 32
    ensures Gathered(Cons, ZERO, bits)[i] == (i < |bits| && bits[i])
    decreases |bits|
  {
    if bits != [] && i > 0 {
      WordHoldsBits(bits[1..], i - 1);
    }
  }

  predicate Differ(a: bool, b: bool) {
    a != b
  }

  lemma BitStepLinear(a: Word, b: Word, x: bool, y: bool)
    ensures BitStep(XorWord(a, b), Differ(x, y)) == XorWord(BitStep(a, x), BitStep(b, y))
  {
    SumOfFour(a, b, BitWord(x), BitWord(y));
    assert BitWord(Differ(x, y)) == XorWord(BitWord(x), BitWord(y));
    RoundLinear(XorWord(a, BitWord(x)), XorWord(b, BitWord(y)));
  }

  lemma DifferenceIsZero(c: Word, x: seq<bool>, y: seq<bool>)
    requires |x| == |y| && Fold(BitStep, c, x) == Fold(BitStep, c, y)
    ensures Fold(BitStep, ZERO, Zip(Differ, x, y)) == ZERO
  {
    forall s: Word, t: Word, u, v
      ensures BitStep(XorWord(s, t), Differ(u, v)) == XorWord(BitStep(s, u), BitStep(t, v))
    {
      BitStepLinear(s, t, u, v);
    }
    FoldLinear(BitStep, XorWord, Differ, c, c, x, y);
    assert XorWord(c, c) == ZERO;
    var d := Fold(BitStep, c, x);
    assert XorWord(d, d) == ZERO;
  }

  /** From one value, different strings of at most 32 bits lead to different values. */
  lemma BurstSeparates(c: Word, x: seq<bool>, y: seq<bool>)
    requires |x| == |y| <= 32 && Fold(BitStep, c, x) == Fold(BitStep, c, y)
    ensures x == y
  {
    var d := Zip(Differ, x, y);
    DifferenceIsZero(c, x, y);
    forall s, b | Fits(BitStep(s, b)) ensures s == Cons(BitStep(s, b), b) {
      BitStepBack(s, b);
    }
    forall k | 0 < k <= |d| ensures Fits(Gathered(Cons, ZERO, d[k..])) {
      WordHoldsBits(d[k..], 31);
    }
    ZeroedBy(BitStep, Cons, ZERO, Fits, ZERO, d);
    forall i: nat | i < |x|
      ensures x[i] == y[i]
    {
      WordHoldsBits(d, i);
      assert d[i] == Differ(x[i], y[i]);
    }
  }

  lemma BitStringsSeparate(c: Word, pre: seq<bool>, x: seq<bool>, y: seq<bool>, post: seq<bool>)
    requires |x| == |y| <= 32 && Fold(BitStep, c, pre + x + post) == Fold(BitStep, c, pre + y + post)
    ensures x == y
  {
    var s := Fold(BitStep, c, pre);
    FoldAppend(BitStep, c, pre + x, post);
    FoldAppend(BitStep, c, pre, x);
    FoldAppend(BitStep, c, pre + y, post);
    FoldAppend(BitStep, c, pre, y);
    forall a: Word, b: Word, v | BitStep(a, v) == BitStep(b, v) ensures a == b {
      BitStepInjective(a, b, v);
    }
    FoldInjective(BitStep, Fold(BitStep, s, x), Fold(BitStep, s, y), post);
    BurstSeparates(s, x, y);
  }

  lemma Splice(x: seq<bool>, s: nat, e: nat)
    requires s <= e <= |x|
    ensures x == x[..s] + x[s..e] + x[e..]
  {
  }

  lemma WindowSeparates(c: Word, x: seq<bool>, y: seq<bool>, s: nat, e: nat)
    requires |x| == |y| && s <= e <= |x| && e <= s + 32
    requires forall k | 0 <= k < |x| && !(s <= k < e) :: x[k] == y[k]
    requires Fold(BitStep, c, x) == Fold(BitStep, c, y)
    ensures x == y
  {
    Splice(x, s, e);
    Splice(y, s, e);
    assert x[..s] == y[..s] && x[e..] == y[e..];
    BitStringsSeparate(c, x[..s], x[s..e], y[s..e], x[e..]);
  }

  lemma SameChecksum(m: seq<bv8>, n: seq<bv8>)
    requires Checksum(m) == Checksum(n)
    ensures Fold(BitStep, WordOf(ALL_ONES), Bits(m)) == Fold(BitStep, WordOf(ALL_ONES), Bits(n))
  {
    XorTwice(Fold(Update, ALL_ONES, m), ALL_ONES);
    XorTwice(Fold(Update, ALL_ONES, n), ALL_ONES);
    WordOfFold(ALL_ONES, m);
    WordOfFold(ALL_ONES, n);
    MessageIsBits(WordOf(ALL_ONES), m);
    MessageIsBits(WordOf(ALL_ONES), n);
  }

  /** Two different messages of the same length that agree outside some 32 consecutive bits never
      have the same checksum. */
  lemma DetectsShortBursts(m: seq<bv8>, n: seq<bv8>, start: nat)
    requires |m| == |n| && m != n
    requires forall k | 0 <= k < 8 * |m| && !(start <= k < start + 32) :: Bits(m)[k] == Bits(n)[k]
    ensures Checksum(m) != Checksum(n)
  {
    var x, y := Bits(m), Bits(n);
    var s := if start <= |x| then start else |x|;
    var e := if s + 32 <= |x| then s + 32 else |x|;
    if Checksum(m) == Checksum(n) {
      SameChecksum(m, n);
      WindowSeparates(WordOf(ALL_ONES), x, y, s, e);
      BitsInjective(m, n);
    }
  }

  /** In bytes: a change inside four consecutive bytes is always seen. */
  lemma DetectsFourBytes(pre: seq<bv8>, x: seq<bv8>, y: seq<bv8>, post: seq<bv8>)
    requires |x| == |y| <= 4 && x != y
    ensures Checksum(pre + x + post) != Checksum(pre + y + post)
  {
    if Checksum(pre + x + post) == Checksum(pre + y + post) {
      SameChecksum(pre + x + post, pre + y + post);
      FlatMapAppend(ByteBits, pre + x, post);
      FlatMapAppend(ByteBits, pre, x);
      FlatMapAppend(ByteBits, pre + y, post);
      FlatMapAppend(ByteBits, pre, y);
      BitStringsSeparate(WordOf(ALL_ONES), Bits(pre), Bits(x), Bits(y), Bits(post));
      BitsInjective(x, y);
    }
  }

  // ---------------------------------------------------------------------------------------------
  // Thirty-two bits is the most
  // ---------------------------------------------------------------------------------------------

  lemma StepOfCons(w: Word, b: bool)
    requires Fits(w)
    ensures BitStep(Cons(w, b), b) == w
  {
    var x := XorWord(Cons(w, b), BitWord(b));
    assert !x[0];
    forall i | 0 <= i < 32
      ensures HalfWord(x)[i] == w[i]
    {
    }
  }

  /** A value is brought to zero by its own bits. */
  lemma {:induction false} OwnBitsGiveZero(bits: seq<bool>)
    requires |bits| <= 32
    ensures Fold(BitStep, Gathered(Cons, ZERO, bits), bits) == ZERO
  {
    if bits != [] {
      WordHoldsBits(bits[1..], 31);
      StepOfCons(Gathered(Cons, ZERO, bits[1..]), bits[0]);
      OwnBitsGiveZero(bits[1..]);
    }
  }

  lemma OneThenWord(p: Word)
    requires BitStep(ZERO, true) == p
    ensures Fold(BitStep, ZERO, [true] + p) == ZERO
  {
    forall i: nat | i < 32 ensures Gathered(Cons, ZERO, p)[i] == p[i] {
      WordHoldsBits(p, i);
    }
    assert Gathered(Cons, ZERO, p) == p;
    OwnBitsGiveZero(p);
    assert ([true] + p)[1..] == p;
  }

  lemma SomeBurstCollides(c: Word, x: seq<bool>)
    requires |x| == 33 && x[0] && Fold(BitStep, ZERO, x) == ZERO
    ensures exists x, y :: |x| == |y| == 33 && x != y && Fold(BitStep, c, x) == Fold(BitStep, c, y)
  {
    var y := seq(33, _ => false);
    SameAfterZero(c, x, y);
    assert !y[0];
  }

  /** Some changes of 33 bits are never seen. */
  lemma LongerBurstsCollide(c: Word)
    ensures exists x, y :: |x| == |y| == 33 && x != y && Fold(BitStep, c, x) == Fold(BitStep, c, y)
  {
    var p := BitStep(ZERO, true);
    OneThenWord(p);
    SomeBurstCollides(c, [true] + p);
  }

  lemma SameAfterZero(c: Word, x: seq<bool>, y: seq<bool>)
    requires |x| == |y| && Fold(BitStep, ZERO, x) == ZERO && forall i | 0 <= i < |y| :: !y[i]
    ensures Fold(BitStep, c, x) == Fold(BitStep, c, y)
  {
    forall s: Word, t: Word, u, v
      ensures BitStep(XorWord(s, t), Differ(u, v)) == XorWord(BitStep(s, u), BitStep(t, v))
    {
      BitStepLinear(s, t, u, v);
    }
    FoldLinear(BitStep, XorWord, Differ, c, ZERO, y, x);
    assert Zip(Differ, y, x) == x;
    XorZeroWord(c);
    XorZeroWord(Fold(BitStep, c, y));
  }
}
