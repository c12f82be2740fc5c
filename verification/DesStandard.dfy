/** The Data Encryption Standard as FIPS 46-3 writes it, by tables of bit numbers, with bits numbered from
    1 at the left; and the proof that rtu_des.c computes it. */
module DesStandard {
  import opened DesKeys
  import opened DesSpec
  import opened DesTables

  /** Bit `i` of a block of 64 bits. */
  function Bit(p: Pair, i: bv8): Word
    requires 1 <= i <= 64
  {
    if i <= 32 then (p.x >> (32 - i)) & 1 else (p.y >> (64 - i)) & 1
  }

  /** One row of a table of eight columns. */
  function Row8(p: Pair, a: bv8, b: bv8, c: bv8, d: bv8, e: bv8, f: bv8, g: bv8, h: bv8): Word
    requires 1 <= a <= 64 && 1 <= b <= 64 && 1 <= c <= 64 && 1 <= d <= 64
    requires 1 <= e <= 64 && 1 <= f <= 64 && 1 <= g <= 64 && 1 <= h <= 64
  {
    (Bit(p, a) << 7) | (Bit(p, b) << 6) | (Bit(p, c) << 5) | (Bit(p, d) << 4)
    | (Bit(p, e) << 3) | (Bit(p, f) << 2) | (Bit(p, g) << 1) | Bit(p, h)
  }

  function Join(a: Word, b: Word, c: Word, d: Word): Word {
    (a << 24) | (b << 16) | (c << 8) | d
  }

  /** The table IP. */
  function InitialTable(p: Pair): Pair {
    Pair(Join(Row8(p, 58, 50, 42, 34, 26, 18, 10, 2),
              Row8(p, 60, 52, 44, 36, 28, 20, 12, 4),
              Row8(p, 62, 54, 46, 38, 30, 22, 14, 6),
              Row8(p, 64, 56, 48, 40, 32, 24, 16, 8)),
         Join(Row8(p, 57, 49, 41, 33, 25, 17, 9, 1),
              Row8(p, 59, 51, 43, 35, 27, 19, 11, 3),
              Row8(p, 61, 53, 45, 37, 29, 21, 13, 5),
              Row8(p, 63, 55, 47, 39, 31, 23, 15, 7)))
  }

  /** The table of the inverse of IP. */
  function FinalTable(p: Pair): Pair {
    Pair(Join(Row8(p, 40, 8, 48, 16, 56, 24, 64, 32),
              Row8(p, 39, 7, 47, 15, 55, 23, 63, 31),
              Row8(p, 38, 6, 46, 14, 54, 22, 62, 30),
              Row8(p, 37, 5, 45, 13, 53, 21, 61, 29)),
         Join(Row8(p, 36, 4, 44, 12, 52, 20, 60, 28),
              Row8(p, 35, 3, 43, 11, 51, 19, 59, 27),
              Row8(p, 34, 2, 42, 10, 50, 18, 58, 26),
              Row8(p, 33, 1, 41, 9, 49, 17, 57, 25)))
  }

  /** Between the permutations the code keeps both halves turned left by one bit. */
  function Turned(p: Pair): Pair {
    Pair(Left(p.x), Left(p.y))
  }

  /** DES_IP is the table IP. */
  lemma InitialBits(p: Pair)
    ensures InitialPermutation(p) == Turned(InitialTable(p))
  {
  }

  /** DES_FP is the table of the inverse. */
  lemma FinalBits(p: Pair)
    ensures FinalPermutation(Turned(p)) == FinalTable(p)
  {
  }

  // ----- the key schedule ---------------------------------------------------------------------

  /** One row of a table of seven columns. */
  function Row7(p: Pair, a: bv8, b: bv8, c: bv8, d: bv8, e: bv8, f: bv8, g: bv8): Word
    requires 1 <= a <= 64 && 1 <= b <= 64 && 1 <= c <= 64 && 1 <= d <= 64
    requires 1 <= e <= 64 && 1 <= f <= 64 && 1 <= g <= 64
  {
    (Bit(p, a) << 6) | (Bit(p, b) << 5) | (Bit(p, c) << 4) | (Bit(p, d) << 3)
    | (Bit(p, e) << 2) | (Bit(p, f) << 1) | Bit(p, g)
  }

  /** A table of four rows of seven columns. */
  function Rows7(p: Pair, a1: bv8, b1: bv8, c1: bv8, d1: bv8, e1: bv8, f1: bv8, g1: bv8,
                 a2: bv8, b2: bv8, c2: bv8, d2: bv8, e2: bv8, f2: bv8, g2: bv8,
                 a3: bv8, b3: bv8, c3: bv8, d3: bv8, e3: bv8, f3: bv8, g3: bv8,
                 a4: bv8, b4: bv8, c4: bv8, d4: bv8, e4: bv8, f4: bv8, g4: bv8): Word
    requires 1 <= a1 <= 64 && 1 <= b1 <= 64 && 1 <= c1 <= 64 && 1 <= d1 <= 64 && 1 <= e1 <= 64 && 1 <= f1 <= 64 && 1 <= g1 <= 64
    requires 1 <= a2 <= 64 && 1 <= b2 <= 64 && 1 <= c2 <= 64 && 1 <= d2 <= 64 && 1 <= e2 <= 64 && 1 <= f2 <= 64 && 1 <= g2 <= 64
    requires 1 <= a3 <= 64 && 1 <= b3 <= 64 && 1 <= c3 <= 64 && 1 <= d3 <= 64 && 1 <= e3 <= 64 && 1 <= f3 <= 64 && 1 <= g3 <= 64
    requires 1 <= a4 <= 64 && 1 <= b4 <= 64 && 1 <= c4 <= 64 && 1 <= d4 <= 64 && 1 <= e4 <= 64 && 1 <= f4 <= 64 && 1 <= g4 <= 64
  {
    (Row7(p, a1, b1, c1, d1, e1, f1, g1) << 21) | (Row7(p, a2, b2, c2, d2, e2, f2, g2) << 14)
    | (Row7(p, a3, b3, c3, d3, e3, f3, g3) << 7) | Row7(p, a4, b4, c4, d4, e4, f4, g4)
  }

  /** The table PC-1, in two halves of 28 bits; the eighth bit of every byte of the key is left out. */
  function FirstChoice(key: Pair): Pair {
    Pair(Rows7(key, 57, 49, 41, 33, 25, 17, 9, 1, 58, 50, 42, 34, 26, 18, 10, 2, 59, 51, 43, 35, 27, 19, 11, 3, 60, 52, 44, 36),
         Rows7(key, 63, 55, 47, 39, 31, 23, 15, 7, 62, 54, 46, 38, 30, 22, 14, 6, 61, 53, 45, 37, 29, 21, 13, 5, 28, 20, 12, 4))
  }

  /** Bit `i` of the two halves of the key, numbered 1 to 28 and 29 to 56. */
  function KeyBit(k: Pair, i: bv8): Word
    requires 1 <= i <= 56
  {
    if i <= 28 then (k.x >> (28 - i)) & 1 else (k.y >> (56 - i)) & 1
  }

  /** One row of a table of six columns: the key bits that enter one S-box. */
  function KeyRow(k: Pair, a: bv8, b: bv8, c: bv8, d: bv8, e: bv8, f: bv8): Word
    requires 1 <= a <= 56 && 1 <= b <= 56 && 1 <= c <= 56 && 1 <= d <= 56 && 1 <= e <= 56 && 1 <= f <= 56
  {
    (KeyBit(k, a) << 5) | (KeyBit(k, b) << 4) | (KeyBit(k, c) << 3)
    | (KeyBit(k, d) << 2) | (KeyBit(k, e) << 1) | KeyBit(k, f)
  }

  /** The rows of the table PC-2 for the S-boxes 2, 4, 6 and 8. */
  function EvenChoice(k: Pair): Word {
    Join(KeyRow(k, 3, 28, 15, 6, 21, 10), KeyRow(k, 16, 7, 27, 20, 13, 2),
         KeyRow(k, 30, 40, 51, 45, 33, 48), KeyRow(k, 46, 42, 50, 36, 29, 32))
  }

  /** The rows of the table PC-2 for the S-boxes 1, 3, 5 and 7. */
  function OddChoice(k: Pair): Word {
    Join(KeyRow(k, 14, 17, 11, 24, 1, 5), KeyRow(k, 23, 19, 12, 4, 26, 8),
         KeyRow(k, 41, 52, 31, 37, 47, 55), KeyRow(k, 44, 49, 39, 56, 34, 53))
  }

  /** A half of 28 bits turned left by `n` places, as the key schedule does before a round. */
  function TurnHalf(w: Word, n: bv8): Word
    requires n <= 28
  {
    ((w << n) | (w >> (28 - n))) & 0x0FFF_FFFF
  }

  // ----- the cipher function ------------------------------------------------------------------

  /** One row of the table E: six bits of a half. */
  function Spread(r: Word, a: bv8, b: bv8, c: bv8, d: bv8, e: bv8, f: bv8): Word
    requires 1 <= a <= 32 && 1 <= b <= 32 && 1 <= c <= 32 && 1 <= d <= 32 && 1 <= e <= 32 && 1 <= f <= 32
  {
    var p := Pair(r, 0);
    (Bit(p, a) << 5) | (Bit(p, b) << 4) | (Bit(p, c) << 3) | (Bit(p, d) << 2) | (Bit(p, e) << 1) | Bit(p, f)
  }

  /** Addition bit by bit, modulo 2. */
  function Add(a: Word, b: Word): Word {
    a ^ b
  }

  // ----- the S-boxes --------------------------------------------------------------------------

  /** The digit that stands `at` bits up in a row of eight hexadecimal digits. */
  function Digit(row: Word, at: bv8): Word
    requires at <= 28
  {
    (row >> at) & 0xF
  }

  /** Four columns of two rows of an S-box, in the order of the six input bits: the last one chooses the
      row of the pair, the middle four the column. */
  function Upper(a: Word, b: Word): (s: seq<Word>)
    ensures |s| == 8
  {
    hide Digit;
    [Digit(a, 28), Digit(b, 28), Digit(a, 24), Digit(b, 24), Digit(a, 20), Digit(b, 20), Digit(a, 16), Digit(b, 16)]
  }

  /** The four columns after them. */
  function Lower(a: Word, b: Word): (s: seq<Word>)
    ensures |s| == 8
  {
    hide Digit;
    [Digit(a, 12), Digit(b, 12), Digit(a, 8), Digit(b, 8), Digit(a, 4), Digit(b, 4), Digit(a, 0), Digit(b, 0)]
  }

  /** Two rows of an S-box, each given by its left and its right half. */
  function Rows(l0: Word, r0: Word, l1: Word, r1: Word): (s: seq<Word>)
    ensures |s| == 32
  {
    hide Upper, Lower;
    Upper(l0, l1) + Lower(l0, l1) + Upper(r0, r1) + Lower(r0, r1)
  }

  /** An S-box given by its four rows; the first input bit chooses the pair of rows. */
  function Digits(l0: Word, r0: Word, l1: Word, r1: Word, l2: Word, r2: Word, l3: Word, r3: Word): (s: seq<Word>)
    ensures |s| == 64
  {
    hide Rows;
    Rows(l0, r0, l1, r1) + Rows(l2, r2, l3, r3)
  }

  function S1(i: Word): Word {
    Digits(0xE4D1_2FB8, 0x3A6C_5907, 0x0F74_E2D1, 0xA6CB_9538, 0x41E8_D62B, 0xFC97_3A50, 0xFC82_4917, 0x5B3E_A06D)[Six(i)]
  }

  function S2(i: Word): Word {
    Digits(0xF18E_6B34, 0x972D_C05A, 0x3D47_F28E, 0xC01A_69B5, 0x0E7B_A4D1, 0x58C6_932F, 0xD8A1_3F42, 0xB67C_05E9)[Six(i)]
  }

  function S3(i: Word): Word {
    Digits(0xA09E_63F5, 0x1DC7_B428, 0xD709_346A, 0x285E_CBF1, 0xD649_8F30, 0xB12C_5AE7, 0x1AD0_6987, 0x4FE3_B52C)[Six(i)]
  }

  function S4(i: Word): Word {
    Digits(0x7DE3_069A, 0x1285_BC4F, 0xD8B5_6F03, 0x472C_1AE9, 0xA690_CB7D, 0xF13E_5284, 0x3F06_A1D8, 0x945B_C72E)[Six(i)]
  }

  function S5(i: Word): Word {
    Digits(0x2C41_7AB6, 0x853F_D0E9, 0xEB2C_47D1, 0x50FA_3986, 0x421B_AD78, 0xF9C5_630E, 0xB8C7_1E2D, 0x6F09_A453)[Six(i)]
  }

  function S6(i: Word): Word {
    Digits(0xC1AF_9268, 0x0D34_E75B, 0xAF42_7C95, 0x61DE_0B38, 0x9EF5_28C3, 0x704A_1DB6, 0x432C_95FA, 0xBE17_608D)[Six(i)]
  }

  function S7(i: Word): Word {
    Digits(0x4B2E_F08D, 0x3C97_5A61, 0xD0B7_491A, 0xE35C_2F86, 0x14BD_C37E, 0xAF68_0592, 0x6BD8_14A7, 0x950F_E23C)[Six(i)]
  }

  function S8(i: Word): Word {
    Digits(0xD284_6FB1, 0xA93E_50C7, 0x1FD8_A374, 0xC56B_0E92, 0x7B41_9CE2, 0x06AD_F358, 0x21E7_4A8D, 0xFC90_356B)[Six(i)]
  }

  /** The table P. */
  function Permute(w: Word): Word {
    var p := Pair(w, 0);
    Join(Row8(p, 16, 7, 20, 21, 29, 12, 28, 17), Row8(p, 1, 15, 23, 26, 5, 18, 31, 10),
         Row8(p, 2, 8, 24, 14, 32, 27, 3, 9), Row8(p, 19, 13, 30, 6, 22, 11, 4, 25))
  }

  /** Eight outputs of four bits side by side. */
  function Gather(a: Word, b: Word, c: Word, d: Word, e: Word, f: Word, g: Word, h: Word): Word {
    ((a & 0xF) << 28) | ((b & 0xF) << 24) | ((c & 0xF) << 20) | ((d & 0xF) << 16)
    | ((e & 0xF) << 12) | ((f & 0xF) << 8) | ((g & 0xF) << 4) | (h & 0xF)
  }

  /** The cipher function: every S-box is entered with its row of the table E added to its six key bits,
      and the eight outputs side by side are permuted. */
  function CipherFunction(even: Word, odd: Word, r: Word): Word {
    Permute(Gather(
      S1(Add(Spread(r, 32, 1, 2, 3, 4, 5), odd >> 24)), S2(Add(Spread(r, 4, 5, 6, 7, 8, 9), even >> 24)),
      S3(Add(Spread(r, 8, 9, 10, 11, 12, 13), odd >> 16)), S4(Add(Spread(r, 12, 13, 14, 15, 16, 17), even >> 16)),
      S5(Add(Spread(r, 16, 17, 18, 19, 20, 21), odd >> 8)), S6(Add(Spread(r, 20, 21, 22, 23, 24, 25), even >> 8)),
      S7(Add(Spread(r, 24, 25, 26, 27, 28, 29), odd)), S8(Add(Spread(r, 28, 29, 30, 31, 32, 1), even))))
  }

  /** One round on the halves (L, R). */
  function StandardRound(even: Word, odd: Word, p: Pair): Pair {
    Pair(p.y, Add(p.x, CipherFunction(even, odd, p.y)))
  }

  function StandardRounds(sk: seq<Word>, p: Pair): Pair
    decreases |sk|
  {
    if |sk| < 2 then p else StandardRounds(sk[2..], StandardRound(sk[0], sk[1], p))
  }

  /** A block of the standard: IP, the rounds, the halves exchanged, the inverse of IP. */
  function StandardBlock(sk: seq<Word>, block: Pair): Pair {
    FinalTable(Swap(StandardRounds(sk, InitialTable(block))))
  }

  /** The places the halves of the key are turned before round `i`, counted from 0. */
  function Shift(i: nat): bv8 {
    if i == 0 || i == 1 || i == 8 || i == 15 then 1 else 2
  }

  function StandardKeysFrom(i: nat, k: Pair): seq<Word>
    requires i <= 16
    decreases 16 - i
  {
    if i == 16 then []
    else
      var t := Pair(TurnHalf(k.x, Shift(i)), TurnHalf(k.y, Shift(i)));
      [EvenChoice(t), OddChoice(t)] + StandardKeysFrom(i + 1, t)
  }

  /** The sixteen keys of the standard, each in two words of four times six bits. */
  function StandardKeys(key: Pair): seq<Word> {
    StandardKeysFrom(0, FirstChoice(key))
  }

  // ----- the boxes of the code ----------------------------------------------------------------

  /** An output of an S-box in its place among the eight, permuted and turned. */
  function Output(digit: Word, place: bv8): Word
    requires place <= 28
  {
    Left(Permute((digit & 0xF) << place))
  }

  /** The entries of the code's boxes. */
  function UpperEntries(a: Word, b: Word, place: bv8): (s: seq<Word>)
    requires place <= 28
    ensures |s| == 8
  {
    hide Digit, Output;
    [Output(Digit(a, 28), place), Output(Digit(b, 28), place), Output(Digit(a, 24), place), Output(Digit(b, 24), place),
     Output(Digit(a, 20), place), Output(Digit(b, 20), place), Output(Digit(a, 16), place), Output(Digit(b, 16), place)]
  }

  function LowerEntries(a: Word, b: Word, place: bv8): (s: seq<Word>)
    requires place <= 28
    ensures |s| == 8
  {
    hide Digit, Output;
    [Output(Digit(a, 12), place), Output(Digit(b, 12), place), Output(Digit(a, 8), place), Output(Digit(b, 8), place),
     Output(Digit(a, 4), place), Output(Digit(b, 4), place), Output(Digit(a, 0), place), Output(Digit(b, 0), place)]
  }

  function RowEntries(l0: Word, r0: Word, l1: Word, r1: Word, place: bv8): (s: seq<Word>)
    requires place <= 28
    ensures |s| == 32
  {
    hide UpperEntries, LowerEntries;
    UpperEntries(l0, l1, place) + LowerEntries(l0, l1, place) + UpperEntries(r0, r1, place) + LowerEntries(r0, r1, place)
  }

  function Box(l0: Word, r0: Word, l1: Word, r1: Word, l2: Word, r2: Word, l3: Word, r3: Word, place: bv8): (s: seq<Word>)
    requires place <= 28
    ensures |s| == 64
  {
    hide RowEntries;
    RowEntries(l0, r0, l1, r1, place) + RowEntries(l2, r2, l3, r3, place)
  }

  lemma EntriesAt(a: Word, b: Word, place: bv8, i: nat)
    requires place <= 28 && i < 8
    ensures UpperEntries(a, b, place)[i] == Output(Upper(a, b)[i], place)
    ensures LowerEntries(a, b, place)[i] == Output(Lower(a, b)[i], place)
  {
    hide Output, Digit;
    match i case 0 => case 1 => case 2 => case 3 => case 4 => case 5 => case 6 => case _ =>
  }

  /** The entries `s` are the outputs `d` in their place. */
  ghost predicate InPlace(s: seq<Word>, d: seq<Word>, place: bv8)
    requires place <= 28
  {
    |s| == |d| && forall i :: 0 <= i < |s| ==> s[i] == Output(d[i], place)
  }

  lemma RowsInPlace(l0: Word, r0: Word, l1: Word, r1: Word, place: bv8)
    requires place <= 28
    ensures InPlace(RowEntries(l0, r0, l1, r1, place), Rows(l0, r0, l1, r1), place)
  {
    hide Output, Digit, UpperEntries, LowerEntries, Upper, Lower;
    forall i: nat | i < 32 ensures RowEntries(l0, r0, l1, r1, place)[i] == Output(Rows(l0, r0, l1, r1)[i], place) {
      EntriesAt(l0, l1, place, i % 8);
      EntriesAt(r0, r1, place, i % 8);
    }
  }

  lemma BoxInPlace(l0: Word, r0: Word, l1: Word, r1: Word, l2: Word, r2: Word, l3: Word, r3: Word, place: bv8)
    requires place <= 28
    ensures InPlace(Box(l0, r0, l1, r1, l2, r2, l3, r3, place), Digits(l0, r0, l1, r1, l2, r2, l3, r3), place)
  {
    hide Output, RowEntries, Rows;
    RowsInPlace(l0, r0, l1, r1, place);
    RowsInPlace(l2, r2, l3, r3, place);
  }

  lemma Look1(i: Word)
    ensures Look(SB1, i) == Output(S1(i), 28)
  {
    hide Output, Digits, Box;
    Box1();
    BoxInPlace(0xE4D1_2FB8, 0x3A6C_5907, 0x0F74_E2D1, 0xA6CB_9538, 0x41E8_D62B, 0xFC97_3A50, 0xFC82_4917, 0x5B3E_A06D, 28);
  }

  lemma Box1()
    ensures SB1 == Box(0xE4D1_2FB8, 0x3A6C_5907, 0x0F74_E2D1, 0xA6CB_9538, 0x41E8_D62B, 0xFC97_3A50, 0xFC82_4917, 0x5B3E_A06D, 28)
  {
  }

  lemma Look2(i: Word)
    ensures Look(SB2, i) == Output(S2(i), 24)
  {
    hide Output, Digits, Box;
    Box2();
    BoxInPlace(0xF18E_6B34, 0x972D_C05A, 0x3D47_F28E, 0xC01A_69B5, 0x0E7B_A4D1, 0x58C6_932F, 0xD8A1_3F42, 0xB67C_05E9, 24);
  }

  lemma Box2()
    ensures SB2 == Box(0xF18E_6B34, 0x972D_C05A, 0x3D47_F28E, 0xC01A_69B5, 0x0E7B_A4D1, 0x58C6_932F, 0xD8A1_3F42, 0xB67C_05E9, 24)
  {
  }

  lemma Look3(i: Word)
    ensures Look(SB3, i) == Output(S3(i), 20)
  {
    hide Output, Digits, Box;
    Box3();
    BoxInPlace(0xA09E_63F5, 0x1DC7_B428, 0xD709_346A, 0x285E_CBF1, 0xD649_8F30, 0xB12C_5AE7, 0x1AD0_6987, 0x4FE3_B52C, 20);
  }

  lemma Box3()
    ensures SB3 == Box(0xA09E_63F5, 0x1DC7_B428, 0xD709_346A, 0x285E_CBF1, 0xD649_8F30, 0xB12C_5AE7, 0x1AD0_6987, 0x4FE3_B52C, 20)
  {
  }

  lemma Look4(i: Word)
    ensures Look(SB4, i) == Output(S4(i), 16)
  {
    hide Output, Digits, Box;
    Box4();
    BoxInPlace(0x7DE3_069A, 0x1285_BC4F, 0xD8B5_6F03, 0x472C_1AE9, 0xA690_CB7D, 0xF13E_5284, 0x3F06_A1D8, 0x945B_C72E, 16);
  }

  lemma Box4()
    ensures SB4 == Box(0x7DE3_069A, 0x1285_BC4F, 0xD8B5_6F03, 0x472C_1AE9, 0xA690_CB7D, 0xF13E_5284, 0x3F06_A1D8, 0x945B_C72E, 16)
  {
  }

  lemma Look5(i: Word)
    ensures Look(SB5, i) == Output(S5(i), 12)
  {
    hide Output, Digits, Box;
    Box5();
    BoxInPlace(0x2C41_7AB6, 0x853F_D0E9, 0xEB2C_47D1, 0x50FA_3986, 0x421B_AD78, 0xF9C5_630E, 0xB8C7_1E2D, 0x6F09_A453, 12);
  }

  lemma Box5()
    ensures SB5 == Box(0x2C41_7AB6, 0x853F_D0E9, 0xEB2C_47D1, 0x50FA_3986, 0x421B_AD78, 0xF9C5_630E, 0xB8C7_1E2D, 0x6F09_A453, 12)
  {
  }

  lemma Look6(i: Word)
    ensures Look(SB6, i) == Output(S6(i), 8)
  {
    hide Output, Digits, Box;
    Box6();
    BoxInPlace(0xC1AF_9268, 0x0D34_E75B, 0xAF42_7C95, 0x61DE_0B38, 0x9EF5_28C3, 0x704A_1DB6, 0x432C_95FA, 0xBE17_608D, 8);
  }

  lemma Box6()
    ensures SB6 == Box(0xC1AF_9268, 0x0D34_E75B, 0xAF42_7C95, 0x61DE_0B38, 0x9EF5_28C3, 0x704A_1DB6, 0x432C_95FA, 0xBE17_608D, 8)
  {
  }

  lemma Look7(i: Word)
    ensures Look(SB7, i) == Output(S7(i), 4)
  {
    hide Output, Digits, Box;
    Box7();
    BoxInPlace(0x4B2E_F08D, 0x3C97_5A61, 0xD0B7_491A, 0xE35C_2F86, 0x14BD_C37E, 0xAF68_0592, 0x6BD8_14A7, 0x950F_E23C, 4);
  }

  lemma Box7()
    ensures SB7 == Box(0x4B2E_F08D, 0x3C97_5A61, 0xD0B7_491A, 0xE35C_2F86, 0x14BD_C37E, 0xAF68_0592, 0x6BD8_14A7, 0x950F_E23C, 4)
  {
  }

  lemma Look8(i: Word)
    ensures Look(SB8, i) == Output(S8(i), 0)
  {
    hide Output, Digits, Box;
    Box8();
    BoxInPlace(0xD284_6FB1, 0xA93E_50C7, 0x1FD8_A374, 0xC56B_0E92, 0x7B41_9CE2, 0x06AD_F358, 0x21E7_4A8D, 0xFC90_356B, 0);
  }

  lemma Box8()
    ensures SB8 == Box(0xD284_6FB1, 0xA93E_50C7, 0x1FD8_A374, 0xC56B_0E92, 0x7B41_9CE2, 0x06AD_F358, 0x21E7_4A8D, 0xFC90_356B, 0)
  {
  }

  /** The eight outputs may be permuted and turned one by one. */
  lemma Outputs(a: Word, b: Word, c: Word, d: Word, e: Word, f: Word, g: Word, h: Word)
    ensures Mix(Output(h, 0), Output(f, 8), Output(d, 16), Output(b, 24),
                Output(g, 4), Output(e, 12), Output(c, 20), Output(a, 28))
      == Left(Permute(Gather(a, b, c, d, e, f, g, h)))
  {
  }

  /** What the first key word of a round selects. */
  lemma EvenBits(k: Word, r: Word)
    ensures var t := k ^ Left(r);
      && Six(t) == Six(Spread(r, 28, 29, 30, 31, 32, 1) ^ k)
      && Six(t >> 8) == Six(Spread(r, 20, 21, 22, 23, 24, 25) ^ (k >> 8))
      && Six(t >> 16) == Six(Spread(r, 12, 13, 14, 15, 16, 17) ^ (k >> 16))
      && Six(t >> 24) == Six(Spread(r, 4, 5, 6, 7, 8, 9) ^ (k >> 24))
  {
  }

  /** What the second one selects. */
  lemma OddBits(k: Word, r: Word)
    ensures var u := k ^ ((Left(r) << 28) | (Left(r) >> 4));
      && Six(u) == Six(Spread(r, 24, 25, 26, 27, 28, 29) ^ k)
      && Six(u >> 8) == Six(Spread(r, 16, 17, 18, 19, 20, 21) ^ (k >> 8))
      && Six(u >> 16) == Six(Spread(r, 8, 9, 10, 11, 12, 13) ^ (k >> 16))
      && Six(u >> 24) == Six(Spread(r, 32, 1, 2, 3, 4, 5) ^ (k >> 24))
  {
  }

  /** The eight boxes of the code, added up, are those of the standard, permuted and turned. */
  lemma BoxesAreStandard(i1: Word, i2: Word, i3: Word, i4: Word, i5: Word, i6: Word, i7: Word, i8: Word)
    ensures Mix(Look(SB8, i8), Look(SB6, i6), Look(SB4, i4), Look(SB2, i2),
                Look(SB7, i7), Look(SB5, i5), Look(SB3, i3), Look(SB1, i1))
      == Left(Permute(Gather(S1(i1), S2(i2), S3(i3), S4(i4), S5(i5), S6(i6), S7(i7), S8(i8))))
  {
    hide Left, Permute, Output, Gather, Mix, Look, S1, S2, S3, S4, S5, S6, S7, S8;
    Look1(i1); Look2(i2); Look3(i3); Look4(i4);
    Look5(i5); Look6(i6); Look7(i7); Look8(i8);
    Outputs(S1(i1), S2(i2), S3(i3), S4(i4), S5(i5), S6(i6), S7(i7), S8(i8));
  }

  /** DES_ROUND adds the cipher function of the standard, turned like the half it is added to. */
  lemma RoundIsStandard(even: Word, odd: Word, r: Word)
    ensures RoundMask(DES_BOXES, even, odd, Left(r)) == Left(CipherFunction(even, odd, r))
  {
    hide Spread, Add, Left, Permute, Gather, Mix, RoundMask, Look, S1, S2, S3, S4, S5, S6, S7, S8;
    RoundLooks(even, odd, r);
    BoxesAreStandard(
      Add(Spread(r, 32, 1, 2, 3, 4, 5), odd >> 24), Add(Spread(r, 4, 5, 6, 7, 8, 9), even >> 24),
      Add(Spread(r, 8, 9, 10, 11, 12, 13), odd >> 16), Add(Spread(r, 12, 13, 14, 15, 16, 17), even >> 16),
      Add(Spread(r, 16, 17, 18, 19, 20, 21), odd >> 8), Add(Spread(r, 20, 21, 22, 23, 24, 25), even >> 8),
      Add(Spread(r, 24, 25, 26, 27, 28, 29), odd), Add(Spread(r, 28, 29, 30, 31, 32, 1), even));
  }

  /** The entries a round takes. */
  lemma RoundLooks(even: Word, odd: Word, r: Word)
    ensures RoundMask(DES_BOXES, even, odd, Left(r)) ==
      Mix(Look(SB8, Add(Spread(r, 28, 29, 30, 31, 32, 1), even)),
          Look(SB6, Add(Spread(r, 20, 21, 22, 23, 24, 25), even >> 8)),
          Look(SB4, Add(Spread(r, 12, 13, 14, 15, 16, 17), even >> 16)),
          Look(SB2, Add(Spread(r, 4, 5, 6, 7, 8, 9), even >> 24)),
          Look(SB7, Add(Spread(r, 24, 25, 26, 27, 28, 29), odd)),
          Look(SB5, Add(Spread(r, 16, 17, 18, 19, 20, 21), odd >> 8)),
          Look(SB3, Add(Spread(r, 8, 9, 10, 11, 12, 13), odd >> 16)),
          Look(SB1, Add(Spread(r, 32, 1, 2, 3, 4, 5), odd >> 24)))
  {
    hide Spread, Left, Mix, Six;
    EvenBits(even, r);
    OddBits(odd, r);
  }

  /** A round of the code is one of the standard, on halves that are turned and have changed roles. */
  lemma StepIsStandard(even: Word, odd: Word, p: Pair)
    ensures Round(DES_BOXES, even, odd, Swap(Turned(p))) == Swap(Turned(StandardRound(even, odd, p)))
  {
    hide Round, RoundMask, CipherFunction, StandardRound, Turned, Swap, Left;
    RoundIsStandard(even, odd, p.y);
    TurnedStep(DES_BOXES, even, odd, p);
  }

  lemma TurnedStep(sb: Boxes, even: Word, odd: Word, p: Pair)
    requires RoundMask(sb, even, odd, Left(p.y)) == Left(CipherFunction(even, odd, p.y))
    ensures Round(sb, even, odd, Swap(Turned(p))) == Swap(Turned(StandardRound(even, odd, p)))
  {
    hide *;
    RoundOf(sb, even, odd, p);
    StandardOf(even, odd, p);
    TurnedXor(p.x, RoundMask(sb, even, odd, Left(p.y)), CipherFunction(even, odd, p.y));
  }

  lemma RoundOf(sb: Boxes, even: Word, odd: Word, p: Pair)
    ensures Round(sb, even, odd, Swap(Turned(p))) == Pair(Add(Left(p.x), RoundMask(sb, even, odd, Left(p.y))), Left(p.y))
  {
    hide RoundMask, Left;
  }

  lemma StandardOf(even: Word, odd: Word, p: Pair)
    ensures Swap(Turned(StandardRound(even, odd, p))) == Pair(Left(Add(p.x, CipherFunction(even, odd, p.y))), Left(p.y))
  {
    hide CipherFunction, Left;
  }

  lemma TurnedXor(a: Word, m: Word, f: Word)
    requires m == Left(f)
    ensures Add(Left(a), m) == Left(Add(a, f))
  {
    hide Left;
    LeftXor(a, f);
  }

  lemma LeftXor(a: Word, b: Word)
    ensures Left(a ^ b) == Left(a) ^ Left(b)
  {
  }

  lemma {:induction false} RoundsAreStandard(sk: seq<Word>, p: Pair)
    ensures Rounds(DES_BOXES, sk, Swap(Turned(p))) == Swap(Turned(StandardRounds(sk, p)))
    decreases |sk|
  {
    hide Round, StandardRound, Turned, Swap;
    if |sk| >= 2 {
      StepIsStandard(sk[0], sk[1], p);
      RoundsAreStandard(sk[2..], StandardRound(sk[0], sk[1], p));
    }
  }

  /** A block of the code is a block of the standard. */
  lemma BlockIsStandard(sk: seq<Word>, input: seq<Octet>)
    requires |input| == 8
    ensures Crypt(DES_BOXES, sk, input) == PutPair(StandardBlock(sk, GetPair(input)))
  {
    hide InitialPermutation, FinalPermutation, InitialTable, FinalTable, Left, GetPair, PutPair, Rounds, StandardRounds;
    var p := InitialTable(GetPair(input));
    InitialBits(GetPair(input));
    RoundsAreStandard(sk, p);
    FinalBits(Swap(StandardRounds(sk, p)));
  }

  // ----- the key schedule of the code ---------------------------------------------------------

  /** A four-bit digit with its bits eight places apart. */
  function Apart(n: Word): Word {
    ((n & 8) << 21) | ((n & 4) << 14) | ((n & 2) << 7) | (n & 1)
  }

  /** The same from the other end. */
  function ApartBack(n: Word): Word {
    ((n & 1) << 24) | ((n & 2) << 15) | ((n & 4) << 6) | ((n & 8) >> 3)
  }

  lemma HalfTables(n: Word)
    requires n < 16
    ensures LEFT_HALF[n] == Apart(n) && RIGHT_HALF[n] == ApartBack(n)
  {
    match n
    case 0 => case 1 => case 2 => case 3 => case 4 => case 5 => case 6 => case 7 => case 8 =>
    case 9 => case 10 => case 11 => case 12 => case 13 => case 14 => case _ =>
  }

  lemma LeftHalfIs(x: Word)
    ensures LeftHalf(x) == (Apart(x & 0xF) << 3) | (Apart((x >> 8) & 0xF) << 2)
      | (Apart((x >> 16) & 0xF) << 1) | Apart((x >> 24) & 0xF)
      | (Apart((x >> 5) & 0xF) << 7) | (Apart((x >> 13) & 0xF) << 6)
      | (Apart((x >> 21) & 0xF) << 5) | (Apart((x >> 29) & 0xF) << 4)
  {
    hide Apart, ApartBack;
    HalfTables(x & 0xF);
    HalfTables((x >> 8) & 0xF);
    HalfTables((x >> 16) & 0xF);
    HalfTables((x >> 24) & 0xF);
    HalfTables((x >> 5) & 0xF);
    HalfTables((x >> 13) & 0xF);
    HalfTables((x >> 21) & 0xF);
    HalfTables((x >> 29) & 0xF);
  }

  lemma RightHalfIs(y: Word)
    ensures RightHalf(y) == (ApartBack((y >> 1) & 0xF) << 3) | (ApartBack((y >> 9) & 0xF) << 2)
      | (ApartBack((y >> 17) & 0xF) << 1) | ApartBack((y >> 25) & 0xF)
      | (ApartBack((y >> 4) & 0xF) << 7) | (ApartBack((y >> 12) & 0xF) << 6)
      | (ApartBack((y >> 20) & 0xF) << 5) | (ApartBack((y >> 28) & 0xF) << 4)
  {
    hide Apart, ApartBack;
    HalfTables((y >> 1) & 0xF);
    HalfTables((y >> 9) & 0xF);
    HalfTables((y >> 17) & 0xF);
    HalfTables((y >> 25) & 0xF);
    HalfTables((y >> 4) & 0xF);
    HalfTables((y >> 12) & 0xF);
    HalfTables((y >> 20) & 0xF);
    HalfTables((y >> 28) & 0xF);
  }

  /** The left half of the key from the first word, once that is sorted. */
  lemma LeftTable(x: Word)
    ensures ((Apart(x & 0xF) << 3) | (Apart((x >> 8) & 0xF) << 2)
      | (Apart((x >> 16) & 0xF) << 1) | Apart((x >> 24) & 0xF)
      | (Apart((x >> 5) & 0xF) << 7) | (Apart((x >> 13) & 0xF) << 6)
      | (Apart((x >> 21) & 0xF) << 5) | (Apart((x >> 29) & 0xF) << 4)) & 0x0FFF_FFFF
      == Rows7(Pair(x, 0), 29, 21, 13, 5, 25, 17, 9, 1, 30, 22, 14, 6, 26, 18, 10, 2, 31, 23, 15, 7, 27, 19, 11, 3, 32, 24, 16, 8)
  {
  }

  lemma RightTable(y: Word)
    ensures ((ApartBack((y >> 1) & 0xF) << 3) | (ApartBack((y >> 9) & 0xF) << 2)
      | (ApartBack((y >> 17) & 0xF) << 1) | ApartBack((y >> 25) & 0xF)
      | (ApartBack((y >> 4) & 0xF) << 7) | (ApartBack((y >> 12) & 0xF) << 6)
      | (ApartBack((y >> 20) & 0xF) << 5) | (ApartBack((y >> 28) & 0xF) << 4)) & 0x0FFF_FFFF
      == Rows7(Pair(y, 0), 31, 23, 15, 7, 27, 19, 11, 3, 30, 22, 14, 6, 26, 18, 10, 2, 29, 21, 13, 5, 25, 17, 9, 1, 28, 20, 12, 4)
  {
  }

  /** What the exchanges do, as a table. */
  function SortedTable(k: Pair): Pair {
    Pair(Join(Row8(k, 1, 2, 3, 8, 33, 34, 35, 36), Row8(k, 9, 10, 11, 16, 41, 42, 43, 44),
              Row8(k, 17, 18, 19, 24, 49, 50, 51, 52), Row8(k, 25, 26, 27, 32, 57, 58, 59, 60)),
         Join(Row8(k, 5, 6, 7, 4, 37, 38, 39, 40), Row8(k, 13, 14, 15, 12, 45, 46, 47, 48),
              Row8(k, 21, 22, 23, 20, 53, 54, 55, 56), Row8(k, 29, 30, 31, 28, 61, 62, 63, 64)))
  }

  lemma SortedBits(k: Pair)
    ensures Sorted(k) == SortedTable(k)
  {
  }

  lemma ChoiceLeft(k: Pair)
    ensures Rows7(Pair(SortedTable(k).x, 0), 29, 21, 13, 5, 25, 17, 9, 1, 30, 22, 14, 6, 26, 18, 10, 2, 31, 23, 15, 7, 27, 19, 11, 3, 32, 24, 16, 8)
      == FirstChoice(k).x
  {
  }

  lemma ChoiceRight(k: Pair)
    ensures Rows7(Pair(SortedTable(k).y, 0), 31, 23, 15, 7, 27, 19, 11, 3, 30, 22, 14, 6, 26, 18, 10, 2, 29, 21, 13, 5, 25, 17, 9, 1, 28, 20, 12, 4)
      == FirstChoice(k).y
  {
  }

  /** The exchanges and the two tables are the table PC-1. */
  lemma SortedChoice(k: Pair)
    ensures var s := Sorted(k);
      FirstChoice(k) == Pair(
        Rows7(Pair(s.x, 0), 29, 21, 13, 5, 25, 17, 9, 1, 30, 22, 14, 6, 26, 18, 10, 2, 31, 23, 15, 7, 27, 19, 11, 3, 32, 24, 16, 8),
        Rows7(Pair(s.y, 0), 31, 23, 15, 7, 27, 19, 11, 3, 30, 22, 14, 6, 26, 18, 10, 2, 29, 21, 13, 5, 25, 17, 9, 1, 28, 20, 12, 4))
  {
    hide Sorted, SortedTable, Rows7, FirstChoice;
    SortedBits(k);
    ChoiceLeft(k);
    ChoiceRight(k);
  }

  /** The code sorts the key by the table PC-1. */
  lemma HalvesAreStandard(key: seq<Octet>)
    requires |key| == 8
    ensures KeyHalves(key) == FirstChoice(GetPair(key))
  {
    hide GetPair, LeftHalf, RightHalf, FirstChoice, Rows7, Sorted;
    var s := Sorted(GetPair(key));
    SortedChoice(GetPair(key));
    LeftIsTable(s.x);
    RightIsTable(s.y);
  }

  lemma LeftIsTable(x: Word)
    ensures LeftHalf(x) & 0x0FFF_FFFF
      == Rows7(Pair(x, 0), 29, 21, 13, 5, 25, 17, 9, 1, 30, 22, 14, 6, 26, 18, 10, 2, 31, 23, 15, 7, 27, 19, 11, 3, 32, 24, 16, 8)
  {
    hide LeftHalf, Rows7, Apart;
    LeftHalfIs(x);
    LeftTable(x);
  }

  lemma RightIsTable(y: Word)
    ensures RightHalf(y) & 0x0FFF_FFFF
      == Rows7(Pair(y, 0), 31, 23, 15, 7, 27, 19, 11, 3, 30, 22, 14, 6, 26, 18, 10, 2, 29, 21, 13, 5, 25, 17, 9, 1, 28, 20, 12, 4)
  {
    hide RightHalf, Rows7, ApartBack;
    RightHalfIs(y);
    RightTable(y);
  }

  lemma EvenIsStandard(x: Word, y: Word)
    ensures EvenWord(x, y) == EvenChoice(Pair(x, y))
  {
  }

  lemma OddIsStandard(x: Word, y: Word)
    ensures OddWord(x, y) == OddChoice(Pair(x, y))
  {
  }

  lemma TurnIsStandard(i: nat, w: Word)
    ensures Turn(i, w) == TurnHalf(w, Shift(i))
  {
    hide TurnHalf;
    TurnOne(w);
    TurnTwo(w);
  }

  lemma TurnOne(w: Word)
    ensures TurnHalf(w, 1) == ((w << 1) | (w >> 27)) & 0x0FFF_FFFF
  {
  }

  lemma TurnTwo(w: Word)
    ensures TurnHalf(w, 2) == ((w << 2) | (w >> 26)) & 0x0FFF_FFFF
  {
  }

  /** The code's key words are the keys of the standard. */
  lemma {:induction false} KeysFrom(i: nat, k: Pair)
    requires i <= 16
    ensures ScheduleFrom(i, k) == StandardKeysFrom(i, k)
    decreases 16 - i
  {
    hide Turn, TurnHalf, Shift, EvenWord, OddWord, EvenChoice, OddChoice;
    if i < 16 {
      var t := Pair(Turn(i, k.x), Turn(i, k.y));
      TurnIsStandard(i, k.x);
      TurnIsStandard(i, k.y);
      EvenIsStandard(t.x, t.y);
      OddIsStandard(t.x, t.y);
      KeysFrom(i + 1, t);
    }
  }

  lemma ScheduleIsStandard(key: seq<Octet>)
    requires |key| == 8
    ensures Schedule(key) == StandardKeys(GetPair(key))
  {
    hide KeyHalves, FirstChoice, ScheduleFrom, StandardKeysFrom;
    HalvesAreStandard(key);
    KeysFrom(0, KeyHalves(key));
  }

  // ----- the cipher ---------------------------------------------------------------------------

  /** rtu_des.c computes the Data Encryption Standard: a block is enciphered by its sixteen rounds under the
      keys chosen from the key, and deciphered by the same rounds under these keys from the last to the
      first. */
  lemma CipherIsStandard(key: seq<Octet>, block: seq<Octet>)
    requires |key| == 8 && |block| == 8
    ensures Crypt(DES_BOXES, Schedule(key), block) == PutPair(StandardBlock(StandardKeys(GetPair(key)), GetPair(block)))
    ensures Crypt(DES_BOXES, Reversed(Schedule(key)), block)
      == PutPair(StandardBlock(Reversed(StandardKeys(GetPair(key))), GetPair(block)))
  {
    hide Schedule, StandardKeys, StandardBlock, Crypt, GetPair, PutPair, Reversed;
    ScheduleIsStandard(key);
    BlockIsStandard(Schedule(key), block);
    BlockIsStandard(Reversed(Schedule(key)), block);
  }

  /** The bits of a block are numbered from the left of its first octet. */
  lemma FirstOctetFirst(b: seq<Octet>)
    requires |b| == 8
    ensures var p := GetPair(b);
      && p.x >> 24 == b[0] as bv32 && (p.x >> 16) & 0xFF == b[1] as bv32
      && (p.x >> 8) & 0xFF == b[2] as bv32 && p.x & 0xFF == b[3] as bv32
      && p.y >> 24 == b[4] as bv32 && (p.y >> 16) & 0xFF == b[5] as bv32
      && (p.y >> 8) & 0xFF == b[6] as bv32 && p.y & 0xFF == b[7] as bv32
  {
    FourOctets(b[0], b[1], b[2], b[3]);
    FourOctets(b[4], b[5], b[6], b[7]);
    WordIs(b[..4]);
    WordIs(b[4..]);
    hide GetWord;
  }

  lemma WordIs(b: seq<Octet>)
    requires |b| == 4
    ensures GetWord(b) == ((b[0] as bv32) << 24) | ((b[1] as bv32) << 16) | ((b[2] as bv32) << 8) | (b[3] as bv32)
  {
  }

  lemma FourOctets(a: Octet, b: Octet, c: Octet, d: Octet)
    ensures var w := ((a as bv32) << 24) | ((b as bv32) << 16) | ((c as bv32) << 8) | (d as bv32);
      && w >> 24 == a as bv32 && (w >> 16) & 0xFF == b as bv32
      && (w >> 8) & 0xFF == c as bv32 && w & 0xFF == d as bv32
  {
  }

  /** A message of whole blocks is enciphered, and deciphered, by the standard block by block, each block in
      its place. */
  lemma MessageIsStandard(key: seq<Octet>, data: seq<Octet>, i: nat)
    requires |key| == 8 && |data| % 8 == 0 && 8 * i + 8 <= |data|
    ensures var block := GetPair(data[8 * i..8 * i + 8]); var keys := StandardKeys(GetPair(key));
      && CryptBlocks(DES_BOXES, Schedule(key), data)[8 * i..8 * i + 8] == PutPair(StandardBlock(keys, block))
      && CryptBlocks(DES_BOXES, Reversed(Schedule(key)), data)[8 * i..8 * i + 8]
         == PutPair(StandardBlock(Reversed(keys), block))
  {
    hide Schedule, StandardKeys, StandardBlock, Crypt, CryptBlocks, GetPair, PutPair, Reversed;
    CipherIsStandard(key, data[8 * i..8 * i + 8]);
    BlocksAt(DES_BOXES, Schedule(key), data, i);
    BlocksAt(DES_BOXES, Reversed(Schedule(key)), data, i);
  }
}
