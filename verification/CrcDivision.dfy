/** The CRC-32 of `scripts/generate-icons.js` as polynomial division: the checksum is the remainder by the
    generator polynomial of section 3.4 of RFC 2083. */
module CrcDivision {
  import opened Folds
  import opened Crc
  import opened CrcBursts

  // ---------------------------------------------------------------------------------------------
  // Long division of polynomials over the two-element field
  // ---------------------------------------------------------------------------------------------

  /** The exponents of the generator polynomial below its leading one, 32. */
  const EXPONENTS := {26, 23, 22, 16, 12, 11, 10, 8, 7, 5, 4, 2, 1, 0}

  /** Its coefficients below the leading one, the highest first. */
  function Generator(): Word {
    seq(32, i => 31 - i in EXPONENTS)
  }

  /** Adds coefficients at the front. */
  function AddFront(bits: seq<bool>, w: seq<bool>): (sum: seq<bool>)
    requires |w| <= |bits|
    ensures |sum| == |bits|
  {
    seq(|bits|, i requires 0 <= i < |bits| => if i < |w| then bits[i] != w[i] else bits[i])
  }

  /** The remainder of a polynomial, given by its coefficients with the highest first: a leading one is
      cancelled by adding the generator below it. */
  function Remainder(bits: seq<bool>): seq<bool>
    decreases |bits|
  {
    if |bits| <= 32 then bits
    else Remainder(if bits[0] then AddFront(bits[1..], Generator()) else bits[1..])
  }

  function Complement(bits: seq<bool>): seq<bool> {
    seq(|bits|, i requires 0 <= i < |bits| => !bits[i])
  }

  /** A message as a polynomial, times the 32nd power, with the first 32 coefficients complemented. */
  function Dividend(bits: seq<bool>): seq<bool> {
    AddFront(bits + seq(32, _ => false), seq(32, _ => true))
  }

  // ---------------------------------------------------------------------------------------------
  // The register divides
  // ---------------------------------------------------------------------------------------------

  /** The bits of `v` are those of its half with one in front. */
  lemma OneBit(bits: seq<bool>, i: nat, v: bv32, w: bv32)
    requires i < |bits| && LowBits(LowBit, Half, w, |bits| - i - 1) == bits[i + 1..]
    requires Half(v) == w && LowBit(v) == bits[i]
    ensures LowBits(LowBit, Half, v, |bits| - i) == bits[i..]
  {
    assert bits[i..] == [bits[i]] + bits[i + 1..];
  }

  lemma GeneratorFrom24(g: Word, v: bv32, w: bv32)
    requires v == 0xED && w == 0x0 && LowBits(LowBit, Half, w, |g| - 32) == g[32..]
    requires g[24] && !g[25] && g[26] && g[27] && !g[28] && g[29] && g[30] && g[31]
    ensures LowBits(LowBit, Half, v, |g| - 24) == g[24..]
  {
    OneBit(g, 31, 0x1, w);
    OneBit(g, 30, 0x3, 0x1);
    OneBit(g, 29, 0x7, 0x3);
    OneBit(g, 28, 0xE, 0x7);
    OneBit(g, 27, 0x1D, 0xE);
    OneBit(g, 26, 0x3B, 0x1D);
    OneBit(g, 25, 0x76, 0x3B);
    OneBit(g, 24, v, 0x76);
  }

  lemma GeneratorFrom16(g: Word, v: bv32, w: bv32)
    requires v == 0xEDB8 && w == 0xED && LowBits(LowBit, Half, w, |g| - 24) == g[24..]
    requires !g[16] && !g[17] && !g[18] && g[19] && g[20] && g[21] && !g[22] && g[23]
    ensures LowBits(LowBit, Half, v, |g| - 16) == g[16..]
  {
    OneBit(g, 23, 0x1DB, w);
    OneBit(g, 22, 0x3B6, 0x1DB);
    OneBit(g, 21, 0x76D, 0x3B6);
    OneBit(g, 20, 0xEDB, 0x76D);
    OneBit(g, 19, 0x1DB7, 0xEDB);
    OneBit(g, 18, 0x3B6E, 0x1DB7);
    OneBit(g, 17, 0x76DC, 0x3B6E);
    OneBit(g, 16, v, 0x76DC);
  }

  lemma GeneratorFrom8(g: Word, v: bv32, w: bv32)
    requires v == 0xEDB883 && w == 0xEDB8 && LowBits(LowBit, Half, w, |g| - 16) == g[16..]
    requires g[8] && g[9] && !g[10] && !g[11] && !g[12] && !g[13] && !g[14] && g[15]
    ensures LowBits(LowBit, Half, v, |g| - 8) == g[8..]
  {
    OneBit(g, 15, 0x1DB71, w);
    OneBit(g, 14, 0x3B6E2, 0x1DB71);
    OneBit(g, 13, 0x76DC4, 0x3B6E2);
    OneBit(g, 12, 0xEDB88, 0x76DC4);
    OneBit(g, 11, 0x1DB710, 0xEDB88);
    OneBit(g, 10, 0x3B6E20, 0x1DB710);
    OneBit(g, 9, 0x76DC41, 0x3B6E20);
    OneBit(g, 8, v, 0x76DC41);
  }

  lemma GeneratorFrom0(g: Word, v: bv32, w: bv32)
    requires v == 0xEDB88320 && w == 0xEDB883 && LowBits(LowBit, Half, w, |g| - 8) == g[8..]
    requires !g[0] && !g[1] && !g[2] && !g[3] && !g[4] && g[5] && !g[6] && !g[7]
    ensures LowBits(LowBit, Half, v, |g| - 0) == g[0..]
  {
    OneBit(g, 7, 0x1DB7106, w);
    OneBit(g, 6, 0x3B6E20C, 0x1DB7106);
    OneBit(g, 5, 0x76DC419, 0x3B6E20C);
    OneBit(g, 4, 0xEDB8832, 0x76DC419);
    OneBit(g, 3, 0x1DB71064, 0xEDB8832);
    OneBit(g, 2, 0x3B6E20C8, 0x1DB71064);
    OneBit(g, 1, 0x76DC4190, 0x3B6E20C8);
    OneBit(g, 0, v, 0x76DC4190);
  }

  lemma GeneratorAt24(g: Word)
    requires g == Generator()
    ensures g[24] && !g[25] && g[26] && g[27] && !g[28] && g[29] && g[30] && g[31]
  {
  }

  lemma GeneratorAt16(g: Word)
    requires g == Generator()
    ensures !g[16] && !g[17] && !g[18] && g[19] && g[20] && g[21] && !g[22] && g[23]
  {
  }

  lemma GeneratorAt8(g: Word)
    requires g == Generator()
    ensures g[8] && g[9] && !g[10] && !g[11] && !g[12] && !g[13] && !g[14] && g[15]
  {
  }

  lemma GeneratorAt0(g: Word)
    requires g == Generator()
    ensures !g[0] && !g[1] && !g[2] && !g[3] && !g[4] && g[5] && !g[6] && !g[7]
  {
  }

  /** The constant of the loop holds the generator's coefficients, the highest in its lowest bit. */
  lemma GeneratorBits()
    ensures WordOf(0xEDB88320) == Generator()
  {
    GeneratorFrom(0xEDB88320, Generator());
  }

  lemma GeneratorFrom(v: bv32, g: Word)
    requires v == 0xEDB88320 && g == Generator()
    ensures WordOf(v) == g
  {
    GeneratorAt24(g);
    GeneratorAt16(g);
    GeneratorAt8(g);
    GeneratorAt0(g);
    GeneratorFrom24(g, 0xED, 0);
    GeneratorFrom16(g, 0xEDB8, 0xED);
    GeneratorFrom8(g, 0xEDB883, 0xEDB8);
    GeneratorFrom0(g, v, 0xEDB883);
    assert g[0..] == g;
  }

  lemma OnesFrom24(g: Word, v: bv32, w: bv32)
    requires v == 0xFF && w == 0x0 && LowBits(LowBit, Half, w, |g| - 32) == g[32..]
    requires g[24] && g[25] && g[26] && g[27] && g[28] && g[29] && g[30] && g[31]
    ensures LowBits(LowBit, Half, v, |g| - 24) == g[24..]
  {
    OneBit(g, 31, 0x1, w);
    OneBit(g, 30, 0x3, 0x1);
    OneBit(g, 29, 0x7, 0x3);
    OneBit(g, 28, 0xF, 0x7);
    OneBit(g, 27, 0x1F, 0xF);
    OneBit(g, 26, 0x3F, 0x1F);
    OneBit(g, 25, 0x7F, 0x3F);
    OneBit(g, 24, v, 0x7F);
  }

  lemma OnesFrom16(g: Word, v: bv32, w: bv32)
    requires v == 0xFFFF && w == 0xFF && LowBits(LowBit, Half, w, |g| - 24) == g[24..]
    requires g[16] && g[17] && g[18] && g[19] && g[20] && g[21] && g[22] && g[23]
    ensures LowBits(LowBit, Half, v, |g| - 16) == g[16..]
  {
    OneBit(g, 23, 0x1FF, w);
    OneBit(g, 22, 0x3FF, 0x1FF);
    OneBit(g, 21, 0x7FF, 0x3FF);
    OneBit(g, 20, 0xFFF, 0x7FF);
    OneBit(g, 19, 0x1FFF, 0xFFF);
    OneBit(g, 18, 0x3FFF, 0x1FFF);
    OneBit(g, 17, 0x7FFF, 0x3FFF);
    OneBit(g, 16, v, 0x7FFF);
  }

  lemma OnesFrom8(g: Word, v: bv32, w: bv32)
    requires v == 0xFFFFFF && w == 0xFFFF && LowBits(LowBit, Half, w, |g| - 16) == g[16..]
    requires g[8] && g[9] && g[10] && g[11] && g[12] && g[13] && g[14] && g[15]
    ensures LowBits(LowBit, Half, v, |g| - 8) == g[8..]
  {
    OneBit(g, 15, 0x1FFFF, w);
    OneBit(g, 14, 0x3FFFF, 0x1FFFF);
    OneBit(g, 13, 0x7FFFF, 0x3FFFF);
    OneBit(g, 12, 0xFFFFF, 0x7FFFF);
    OneBit(g, 11, 0x1FFFFF, 0xFFFFF);
    OneBit(g, 10, 0x3FFFFF, 0x1FFFFF);
    OneBit(g, 9, 0x7FFFFF, 0x3FFFFF);
    OneBit(g, 8, v, 0x7FFFFF);
  }

  lemma OnesFrom0(g: Word, v: bv32, w: bv32)
    requires v == 0xFFFFFFFF && w == 0xFFFFFF && LowBits(LowBit, Half, w, |g| - 8) == g[8..]
    requires g[0] && g[1] && g[2] && g[3] && g[4] && g[5] && g[6] && g[7]
    ensures LowBits(LowBit, Half, v, |g| - 0) == g[0..]
  {
    OneBit(g, 7, 0x1FFFFFF, w);
    OneBit(g, 6, 0x3FFFFFF, 0x1FFFFFF);
    OneBit(g, 5, 0x7FFFFFF, 0x3FFFFFF);
    OneBit(g, 4, 0xFFFFFFF, 0x7FFFFFF);
    OneBit(g, 3, 0x1FFFFFFF, 0xFFFFFFF);
    OneBit(g, 2, 0x3FFFFFFF, 0x1FFFFFFF);
    OneBit(g, 1, 0x7FFFFFFF, 0x3FFFFFFF);
    OneBit(g, 0, v, 0x7FFFFFFF);
  }

  lemma AllOnesBits()
    ensures WordOf(ALL_ONES) == seq(32, _ => true)
  {
    OnesFrom(ALL_ONES, seq(32, _ => true));
  }

  lemma OnesFrom(v: bv32, g: Word)
    requires v == 0xFFFFFFFF && g == seq(32, _ => true)
    ensures WordOf(v) == g
  {
    OnesFrom24(g, 0xFF, 0);
    OnesFrom16(g, 0xFFFF, 0xFF);
    OnesFrom8(g, 0xFFFFFF, 0xFFFF);
    OnesFrom0(g, v, 0xFFFFFF);
    assert g[0..] == g;
  }

  lemma FirstComesOff(c: Word, b: bool, rest: seq<bool>)
    requires |rest| >= 32
    ensures AddFront([b] + rest, c)[0] == (b != c[0]) && AddFront([b] + rest, c)[1..] == AddFront(rest, HalfWord(c))
  {
  }

  lemma BitStepAdds(c: Word, b: bool)
    ensures BitStep(c, b) == if b != c[0] then XorWord(HalfWord(c), Generator()) else HalfWord(c)
  {
    GeneratorBits();
    var x := XorWord(c, BitWord(b));
    assert x[0] == (b != c[0]) && x[1..] == c[1..];
  }

  /** One step of long division is one step of the register. */
  lemma DivisionStep(c: Word, b: bool, rest: seq<bool>)
    requires |rest| >= 32
    ensures var bits := AddFront([b] + rest, c);
            AddFront(rest, BitStep(c, b)) == if bits[0] then AddFront(bits[1..], Generator()) else bits[1..]
  {
    FirstComesOff(c, b, rest);
    BitStepAdds(c, b);
    AddTwice(rest, HalfWord(c), Generator());
  }

  lemma AddTwice(bits: seq<bool>, v: Word, w: Word)
    requires |bits| >= 32
    ensures AddFront(AddFront(bits, v), w) == AddFront(bits, XorWord(v, w))
  {
  }

  /** The register holds the remainder of what it was started with and has taken in. */
  lemma {:induction false} RegisterDivides(c: Word, bits: seq<bool>)
    ensures Remainder(AddFront(bits + ZERO, c)) == Fold(BitStep, c, bits)
    decreases |bits|
  {
    if bits == [] {
      assert AddFront(bits + ZERO, c) == c;
    } else {
      var rest := bits[1..] + ZERO;
      assert bits + ZERO == [bits[0]] + rest;
      DivisionStep(c, bits[0], rest);
      RegisterDivides(BitStep(c, bits[0]), bits[1..]);
    }
  }

  lemma XorOnes(w: Word)
    ensures XorWord(w, WordOf(ALL_ONES)) == Complement(w)
  {
    AllOnesBits();
  }

  /** For every message: multiplied by the 32nd power, with the first 32 coefficients complemented,
      divided by the generator polynomial, and the remainder complemented. */
  lemma ChecksumIsRemainder(message: seq<bv8>)
    ensures WordOf(Checksum(message)) == Complement(Remainder(Dividend(Bits(message))))
  {
    var value := Fold(Update, ALL_ONES, message);
    WordOfXor(value, ALL_ONES);
    XorOnes(WordOf(value));
    WordOfFold(ALL_ONES, message);
    MessageIsBits(WordOf(ALL_ONES), message);
    RegisterDivides(WordOf(ALL_ONES), Bits(message));
    AllOnesBits();
  }

  // ---------------------------------------------------------------------------------------------
  // The method, and its value for the last chunk of every PNG file
  // ---------------------------------------------------------------------------------------------

  lemma EightRounds(c: bv32, c1: bv32, c2: bv32, c3: bv32, c4: bv32, c5: bv32, c6: bv32, c7: bv32, c8: bv32)
    requires Round(c) == c1 && Round(c1) == c2 && Round(c2) == c3 && Round(c3) == c4
    requires Round(c4) == c5 && Round(c5) == c6 && Round(c6) == c7 && Round(c7) == c8
    ensures Repeat(Round, c, 8) == c8
  {
    assert Repeat(Round, c, 8) == Repeat(Round, c1, 7) == Repeat(Round, c2, 6) == Repeat(Round, c3, 5);
    assert Repeat(Round, c3, 5) == Repeat(Round, c4, 4) == Repeat(Round, c5, 3) == Repeat(Round, c6, 2);
    assert Repeat(Round, c6, 2) == Repeat(Round, c7, 1) == Repeat(Round, c8, 0);
  }

  lemma TakesI()
    ensures Update(0xFFFFFFFF, 0x49) == 0x22FDE946
  {
    assert Xor32(0xFFFFFFFF, 0x49) == 0xFFFFFFB6;
    EightRounds(0xFFFFFFB6, 0x7FFFFFDB, 0xD2477CCD, 0x849B3D46, 0x424D9EA3,
                0xCC9E4C71, 0x8BF7A518, 0x45FBD28C, 0x22FDE946);
  }

  lemma TakesE()
    ensures Update(0x22FDE946, 0x45) == 0x992BAC53
  {
    assert Xor32(0x22FDE946, 0x45) == 0x22FDE903;
    EightRounds(0x22FDE903, 0xFCC677A1, 0x93DBB8F0, 0x49EDDC78, 0x24F6EE3C,
                0x127B771E, 0x093DBB8F, 0xE9265EE7, 0x992BAC53);
  }

  lemma TakesN()
    ensures Update(0x992BAC53, 0x4E) == 0x639F4775
  {
    assert Xor32(0x992BAC53, 0x4E) == 0x992BAC1D;
    EightRounds(0x992BAC1D, 0xA12D552E, 0x5096AA97, 0xC5F3D66B, 0x8F416815,
                0xAA18372A, 0x550C1B95, 0xC73E8EEA, 0x639F4775);
  }

  lemma TakesD()
    ensures Update(0x639F4775, 0x44) == 0x51BD9F7D
  {
    assert Xor32(0x639F4775, 0x44) == 0x639F4731;
    EightRounds(0x639F4731, 0xDC7720B8, 0x6E3B905C, 0x371DC82E, 0x1B8EE417,
                0xE07FF12B, 0x9D877BB5, 0xA37B3EFA, 0x51BD9F7D);
  }

  lemma FoldFour(c: bv32, a: bv8, b: bv8, d: bv8, e: bv8)
    ensures Fold(Update, c, [a, b, d, e]) == Update(Update(Update(Update(c, a), b), d), e)
  {
    assert [a, b, d, e] == [] + [a] + [b] + [d] + [e];
    FoldPush(Update, c, [] + [a] + [b] + [d], e);
    FoldPush(Update, c, [] + [a] + [b], d);
    FoldPush(Update, c, [] + [a], b);
    FoldPush(Update, c, [], a);
  }

  lemma EndChunk()
    ensures Checksum([0x49, 0x45, 0x4E, 0x44]) == 0xAE426082
  {
    FoldFour(ALL_ONES, 0x49, 0x45, 0x4E, 0x44);
    TakesI();
    TakesE();
    TakesN();
    TakesD();
    assert Xor32(0x51BD9F7D, 0xFFFFFFFF) == 0xAE426082;
  }

  method Crc32(buf: array<bv8>) returns (checksum: bv32)
    ensures checksum == Checksum(buf[..])
    ensures WordOf(checksum) == Complement(Remainder(Dividend(Bits(buf[..]))))
    ensures buf[..] == [0x49, 0x45, 0x4E, 0x44] ==> checksum == 0xAE426082
  {
    var crc := ALL_ONES;
    for i := 0 to buf.Length
      invariant crc == Fold(Update, ALL_ONES, buf[..i])
    {
      FoldPush(Update, ALL_ONES, buf[..i], buf[i]);
      assert buf[..i + 1] == buf[..i] + [buf[i]];
      crc := TakeByte(crc, buf[i]);
    }
    assert buf[..buf.Length] == buf[..];
    checksum := crc ^ ALL_ONES;
    ChecksumIsRemainder(buf[..]);
    EndChunk();
  }
}
