/** The bitwise CRC-32 of `scripts/generate-icons.js`, which guards the chunks of the PNG files. */
module Crc {
  import opened Folds

  const ALL_ONES: bv32 := 0xFFFFFFFF

  /** One turn of the inner loop. */
  function Round(c: bv32): bv32 {
    if c & 1 == 1 then (c >> 1) ^ 0xEDB88320 else c >> 1
  }

  function Xor32(a: bv32, b: bv32): bv32 {
    a ^ b
  }

  /** What one byte does to the running value. */
  function Update(c: bv32, b: bv8): bv32 {
    Repeat(Round, Xor32(c, b as bv32), 8)
  }

  function Checksum(message: seq<bv8>): bv32 {
    Xor32(Fold(Update, ALL_ONES, message), ALL_ONES)
  }

  lemma RoundAsWritten(c: bv32)
    ensures Round(c) == (c >> 1) ^ (if c & 1 == 1 then 0xEDB88320 else 0)
  {
    if c & 1 == 1 {
      assert Round(c) == (c >> 1) ^ 0xEDB88320;
    } else {
      assert Round(c) == c >> 1;
      XorZero(c >> 1);
    }
  }

  lemma XorZero(c: bv32)
    ensures c ^ 0 == c
  {
  }

  /** The body of the outer loop. */
  method TakeByte(crc: bv32, b: bv8) returns (next: bv32)
    ensures next == Update(crc, b)
  {
    next := crc ^ (b as bv32);
    for j := 0 to 8
      invariant next == Repeat(Round, crc ^ (b as bv32), j)
    {
      RepeatPush(Round, crc ^ (b as bv32), j);
      RoundAsWritten(next);
      next := (next >> 1) ^ (if next & 1 == 1 then 0xEDB88320 else 0);
    }
  }

  // ---------------------------------------------------------------------------------------------
  // Each byte maps the running values one to one onto each other
  // ---------------------------------------------------------------------------------------------

  /** Undoes one round: the top bit says whether the polynomial was mixed in. */
  function Unround(d: bv32): bv32 {
    if d & 0x80000000 != 0 then ((d ^ 0xEDB88320) << 1) | 1 else d << 1
  }

  lemma OddRound(c: bv32)
    requires c & 1 == 1
    ensures ((c >> 1) ^ 0xEDB88320) & 0x80000000 != 0 && ((((c >> 1) ^ 0xEDB88320) ^ 0xEDB88320) << 1) | 1 == c
  {
  }

  lemma EvenRound(c: bv32)
    requires c & 1 != 1
    ensures (c >> 1) & 0x80000000 == 0 && (c >> 1) << 1 == c
  {
  }

  lemma TopUnround(d: bv32)
    requires d & 0x80000000 != 0
    ensures var c := ((d ^ 0xEDB88320) << 1) | 1; c & 1 == 1 && (c >> 1) ^ 0xEDB88320 == d
  {
  }

  lemma LowUnround(d: bv32)
    requires d & 0x80000000 == 0
    ensures (d << 1) & 1 != 1 && (d << 1) >> 1 == d
  {
  }

  lemma RoundUndone(c: bv32)
    ensures Unround(Round(c)) == c
  {
    if c & 1 == 1 {
      OddRound(c);
      assert Round(c) == (c >> 1) ^ 0xEDB88320;
    } else {
      EvenRound(c);
      assert Round(c) == c >> 1;
    }
  }

  lemma OddUndone(c: bv32, d: bv32)
    requires c & 1 == 1 && (c >> 1) ^ 0xEDB88320 == d
    ensures Round(c) == d
  {
  }

  lemma EvenUndone(c: bv32, d: bv32)
    requires c & 1 != 1 && c >> 1 == d
    ensures Round(c) == d
  {
  }

  lemma UnroundUndone(d: bv32)
    ensures Round(Unround(d)) == d
  {
    if d & 0x80000000 != 0 {
      TopUnround(d);
      OddUndone(((d ^ 0xEDB88320) << 1) | 1, d);
    } else {
      LowUnround(d);
      EvenUndone(d << 1, d);
    }
  }

  lemma XorTwice(a: bv32, b: bv32)
    ensures Xor32(Xor32(a, b), b) == a
  {
  }

  /** For each byte, every running value has exactly one running value before it. */
  lemma UpdateBijective(d: bv32, b: bv8)
    ensures Update(Xor32(Repeat(Unround, d, 8), b as bv32), b) == d
    ensures forall c :: Update(c, b) == d ==> c == Xor32(Repeat(Unround, d, 8), b as bv32)
  {
    forall c ensures Unround(Round(c)) == c && Round(Unround(c)) == c {
      RoundUndone(c);
      UnroundUndone(c);
    }
    XorTwice(Repeat(Unround, d, 8), b as bv32);
    RepeatUndone(Unround, Round, d, 8);
    forall c | Update(c, b) == d
      ensures c == Xor32(Repeat(Unround, d, 8), b as bv32)
    {
      RepeatUndone(Round, Unround, Xor32(c, b as bv32), 8);
      XorTwice(c, b as bv32);
    }
  }

  // ---------------------------------------------------------------------------------------------
  // Numbers as lists of bits
  // ---------------------------------------------------------------------------------------------

  /** The 32 bits of a number, lowest first. */
  type Word = w: seq<bool> | |w| == 32 witness seq(32, _ => false)

  predicate LowBit(v: bv32) {
    v & 1 == 1
  }

  function Half(v: bv32): bv32 {
    v >> 1
  }

  function WordOf(v: bv32): Word {
    LowBits(LowBit, Half, v, 32)
  }

  lemma SameHalves(v: bv32, w: bv32)
    requires LowBit(v) == LowBit(w) && Half(v) == Half(w)
    ensures v == w
  {
  }

  function XorWord(a: Word, b: Word): Word {
    seq(32, i requires 0 <= i < 32 => a[i] != b[i])
  }

  function HalfWord(w: Word): Word {
    w[1..] + [false]
  }

  function RoundWord(c: Word): Word {
    if c[0] then XorWord(HalfWord(c), WordOf(0xEDB88320)) else HalfWord(c)
  }

  function UpdateWord(c: Word, b: bv8): Word {
    Repeat(RoundWord, XorWord(c, WordOf(b as bv32)), 8)
  }

  lemma XorParts(a: bv32, b: bv32)
    ensures LowBit(Xor32(a, b)) == (LowBit(a) != LowBit(b))
    ensures Half(Xor32(a, b)) == Xor32(Half(a), Half(b))
  {
  }

  lemma HalvesOfXor(a: bv32, b: bv32, n: nat)
    ensures Repeat(Half, Xor32(a, b), n) == Xor32(Repeat(Half, a, n), Repeat(Half, b, n))
  {
    forall x, y ensures Half(Xor32(x, y)) == Xor32(Half(x), Half(y)) {
      XorParts(x, y);
    }
    RepeatLinear(Half, Xor32, a, b, n);
  }

  lemma BitOfXor(a: bv32, b: bv32, i: nat)
    requires i < 32
    ensures WordOf(Xor32(a, b))[i] == (WordOf(a)[i] != WordOf(b)[i])
  {
    LowBitsAt(LowBit, Half, Xor32(a, b), 32, i);
    LowBitsAt(LowBit, Half, a, 32, i);
    LowBitsAt(LowBit, Half, b, 32, i);
    HalvesOfXor(a, b, i);
    XorParts(Repeat(Half, a, i), Repeat(Half, b, i));
  }

  lemma BitsOfXor(a: bv32, b: bv32)
    ensures forall i: nat | i < 32 :: WordOf(Xor32(a, b))[i] == (WordOf(a)[i] != WordOf(b)[i])
  {
    forall i: nat | i < 32 ensures WordOf(Xor32(a, b))[i] == (WordOf(a)[i] != WordOf(b)[i]) {
      BitOfXor(a, b, i);
    }
  }

  lemma XorBitwise(x: Word, y: Word, z: Word)
    requires forall i: nat | i < 32 :: z[i] == (x[i] != y[i])
    ensures z == XorWord(x, y)
  {
  }

  lemma WordOfXor(a: bv32, b: bv32)
    ensures WordOf(Xor32(a, b)) == XorWord(WordOf(a), WordOf(b))
  {
    BitsOfXor(a, b);
    XorBitwise(WordOf(a), WordOf(b), WordOf(Xor32(a, b)));
  }

  lemma ShiftFour(v: bv32)
    ensures Repeat(Half, v, 4) == v >> 4
  {
    assert Repeat(Half, v, 4) == Repeat(Half, Half(v), 3) == Repeat(Half, Half(Half(v)), 2);
    ShiftTwice(v);
    assert Repeat(Half, v >> 2, 2) == Repeat(Half, Half(v >> 2), 1) == Half(Half(v >> 2));
    ShiftTwice(v >> 2);
    ShiftSum(v);
  }

  lemma ShiftTwice(v: bv32)
    ensures Half(Half(v)) == v >> 2
  {
  }

  lemma ShiftSum(v: bv32)
    ensures (v >> 2) >> 2 == v >> 4 && (v >> 4) >> 4 == v >> 8 && (v >> 8) >> 8 == v >> 16 && (v >> 16) >> 16 == 0
  {
  }

  lemma ShiftEight(v: bv32)
    ensures Repeat(Half, v, 8) == v >> 8
  {
    RepeatAdd(Half, v, 4, 4);
    ShiftFour(v);
    ShiftFour(v >> 4);
    ShiftSum(v);
  }

  lemma ShiftSixteen(v: bv32)
    ensures Repeat(Half, v, 16) == v >> 16
  {
    RepeatAdd(Half, v, 8, 8);
    ShiftEight(v);
    ShiftEight(v >> 8);
    ShiftSum(v);
  }

  lemma ShiftOut(v: bv32)
    ensures Repeat(Half, v, 32) == 0
  {
    RepeatAdd(Half, v, 16, 16);
    ShiftSixteen(v);
    ShiftSixteen(v >> 16);
    ShiftSum(v);
  }

  lemma WordOfHalf(v: bv32)
    ensures WordOf(Half(v)) == HalfWord(WordOf(v)) && WordOf(v)[0] == LowBit(v)
  {
    forall i: nat | i < 32
      ensures WordOf(Half(v))[i] == HalfWord(WordOf(v))[i]
    {
      LowBitsAt(LowBit, Half, Half(v), 32, i);
      if i < 31 {
        LowBitsAt(LowBit, Half, v, 32, i + 1);
      } else {
        assert Repeat(Half, Half(v), 31) == Repeat(Half, v, 32);
        ShiftOut(v);
        ZeroIsEven();
      }
    }
  }

  lemma ZeroIsEven()
    ensures !LowBit(0)
  {
  }

  lemma WordOfRound(c: bv32)
    ensures WordOf(Round(c)) == RoundWord(WordOf(c))
  {
    WordOfHalf(c);
    if LowBit(c) {
      assert Round(c) == Xor32(Half(c), 0xEDB88320);
      WordOfXor(Half(c), 0xEDB88320);
    } else {
      assert Round(c) == Half(c);
    }
  }

  lemma WordOfUpdate(c: bv32, b: bv8)
    ensures WordOf(Update(c, b)) == UpdateWord(WordOf(c), b)
  {
    WordOfXor(c, b as bv32);
    forall x ensures WordOf(Round(x)) == RoundWord(WordOf(x)) {
      WordOfRound(x);
    }
    RepeatMapped(Round, RoundWord, WordOf, Xor32(c, b as bv32), 8);
  }

  /** The loop on numbers and the loop on bits agree. */
  lemma WordOfFold(c: bv32, message: seq<bv8>)
    ensures WordOf(Fold(Update, c, message)) == Fold(UpdateWord, WordOf(c), message)
  {
    forall a, b ensures WordOf(Update(a, b)) == UpdateWord(WordOf(a), b) {
      WordOfUpdate(a, b);
    }
    FoldMapped(Update, UpdateWord, WordOf, c, message);
  }

  lemma WordOfInjective(v: bv32, w: bv32)
    requires WordOf(v) == WordOf(w)
    ensures v == w
  {
    ShiftOut(v);
    ShiftOut(w);
    forall a, b | LowBit(a) == LowBit(b) && Half(a) == Half(b) ensures a == b {
      SameHalves(a, b);
    }
    LowBitsInjective(LowBit, Half, v, w, 32);
  }

  /** The eight low bits of a byte's word are its bits; the others are zero. */
  lemma WordOfByte(b: bv8, i: nat)
    requires 8 <= i < 32
    ensures !WordOf(b as bv32)[i]
  {
    LowBitsAt(LowBit, Half, b as bv32, 32, i);
    RepeatAdd(Half, b as bv32, 8, i - 8);
    ShiftEight(b as bv32);
    ShortByte(b);
    HalvesOfZero(i - 8);
    ZeroIsEven();
  }

  lemma ShortByte(b: bv8)
    ensures (b as bv32) >> 8 == 0
  {
  }

  lemma HalfOfZero()
    ensures Half(0) == 0
  {
  }

  lemma {:induction false} HalvesOfZero(n: nat)
    ensures Repeat(Half, 0, n) == 0
  {
    if n > 0 {
      HalfOfZero();
      HalvesOfZero(n - 1);
    }
  }

  lemma SameByte(a: bv8, b: bv8)
    requires a as bv32 == b as bv32
    ensures a == b
  {
  }

  /** The polynomial's top bit is set. */
  lemma PolynomialTop()
    ensures WordOf(0xEDB88320)[31]
  {
    var p: bv32 := 0xEDB88320;
    LowBitsAt(LowBit, Half, p, 32, 31);
    RepeatAdd(Half, p, 8, 23);
    RepeatAdd(Half, p >> 8, 8, 15);
    RepeatAdd(Half, p >> 8 >> 8, 8, 7);
    RepeatAdd(Half, p >> 8 >> 8 >> 8, 4, 3);
    ShiftEight(p);
    ShiftEight(p >> 8);
    ShiftEight(p >> 8 >> 8);
    ShiftFour(p >> 8 >> 8 >> 8);
    var q := p >> 8 >> 8 >> 8 >> 4;
    assert q == 14;
    assert Repeat(Half, q, 3) == Repeat(Half, Half(q), 2) == Repeat(Half, Half(Half(q)), 1) == Half(Half(Half(q)));
    assert Half(q) == 7 && Half(7) == 3 && Half(3) == 1 && LowBit(1);
  }
}
