/** The block cipher of rtu_des.c on values: permutations, rounds and the block loop. */
module DesSpec {
  import opened DesTables
  import opened Sequences

  type Word = bv32
  type Octet = bv8

  datatype Pair = Pair(x: Word, y: Word)

  datatype Boxes = Boxes(s1: Table, s2: Table, s3: Table, s4: Table, s5: Table, s6: Table, s7: Table, s8: Table)

  const DES_BOXES := Boxes(SB1, SB2, SB3, SB4, SB5, SB6, SB7, SB8)

  function Swap(p: Pair): Pair {
    Pair(p.y, p.x)
  }

  // ----- permutations -------------------------------------------------------------------------

  /** Bits of `x`, 4 places up, change places with bits of `y`. */
  function Exchange4(p: Pair): Pair {
    var t := ((p.x >> 4) ^ p.y) & 0x0F0F_0F0F;
    Pair(p.x ^ (t << 4), p.y ^ t)
  }

  /** Bits of `x`, 16 places up, change places with bits of `y`. */
  function Exchange16(p: Pair): Pair {
    var t := ((p.x >> 16) ^ p.y) & 0x0000_FFFF;
    Pair(p.x ^ (t << 16), p.y ^ t)
  }

  /** Bits of `x`, 2 places up, change places with bits of `y`. */
  function Exchange2(p: Pair): Pair {
    var t := ((p.x >> 2) ^ p.y) & 0x3333_3333;
    Pair(p.x ^ (t << 2), p.y ^ t)
  }

  /** Bits of `x`, 8 places up, change places with bits of `y`. */
  function Exchange8(p: Pair): Pair {
    var t := ((p.x >> 8) ^ p.y) & 0x00FF_00FF;
    Pair(p.x ^ (t << 8), p.y ^ t)
  }

  /** Every second bit changes places. */
  function Mingle(p: Pair): Pair {
    var t := (p.x ^ p.y) & 0xAAAA_AAAA;
    Pair(p.x ^ t, p.y ^ t)
  }

  function Left(w: Word): Word {
    (w << 1) | (w >> 31)
  }

  function Right(w: Word): Word {
    (w << 31) | (w >> 1)
  }

  /** DES_IP. */
  function InitialPermutation(p: Pair): Pair {
    var a := Exchange4(p);
    var b := Exchange16(a);
    var c := Swap(Exchange2(Swap(b)));
    var d := Swap(Exchange8(Swap(c)));
    var e := Mingle(Pair(d.x, Left(d.y)));
    Pair(Left(e.x), e.y)
  }

  /** DES_FP. */
  function FinalPermutation(p: Pair): Pair {
    var e := Mingle(Pair(Right(p.x), p.y));
    var d := Pair(e.x, Right(e.y));
    var c := Swap(Exchange8(Swap(d)));
    var b := Swap(Exchange2(Swap(c)));
    var a := Exchange16(b);
    Exchange4(a)
  }

  lemma ExchangeTwice4(p: Pair)
    ensures Exchange4(Exchange4(p)) == p
  {
  }

  lemma ExchangeTwice16(p: Pair)
    ensures Exchange16(Exchange16(p)) == p
  {
  }

  lemma ExchangeTwice2(p: Pair)
    ensures Exchange2(Exchange2(p)) == p
  {
  }

  lemma ExchangeTwice8(p: Pair)
    ensures Exchange8(Exchange8(p)) == p
  {
  }

  lemma MingleTwice(p: Pair)
    ensures Mingle(Mingle(p)) == p
  {
  }

  lemma Rotations(w: Word)
    ensures Right(Left(w)) == w && Left(Right(w)) == w
  {
  }

  /** Either permutation undoes the other. */
  lemma PermutationsInvert(p: Pair)
    ensures FinalPermutation(InitialPermutation(p)) == p && InitialPermutation(FinalPermutation(p)) == p
  {
    hide Exchange4, Exchange16, Exchange2, Exchange8, Mingle, Left, Right;
    FinalUndoes(p);
    InitialUndoes(p);
  }

  lemma FinalUndoes(p: Pair)
    ensures FinalPermutation(InitialPermutation(p)) == p
  {
    hide Exchange4, Exchange16, Exchange2, Exchange8, Mingle, Left, Right;
    var a := Exchange4(p);
    var b := Exchange16(a);
    var c := Swap(Exchange2(Swap(b)));
    var d := Swap(Exchange8(Swap(c)));
    var f := Pair(d.x, Left(d.y));
    var e := Mingle(f);
    Rotations(e.x);
    MingleTwice(f);
    Rotations(d.y);
    ExchangeTwice8(Swap(c));
    ExchangeTwice2(Swap(b));
    ExchangeTwice16(a);
    ExchangeTwice4(p);
  }

  lemma InitialUndoes(p: Pair)
    ensures InitialPermutation(FinalPermutation(p)) == p
  {
    hide Exchange4, Exchange16, Exchange2, Exchange8, Mingle, Left, Right;
    var f := Pair(Right(p.x), p.y);
    var e := Mingle(f);
    var d := Pair(e.x, Right(e.y));
    var c := Swap(Exchange8(Swap(d)));
    var b := Swap(Exchange2(Swap(c)));
    var a := Exchange16(b);
    ExchangeTwice4(a);
    ExchangeTwice16(b);
    ExchangeTwice2(Swap(c));
    ExchangeTwice8(Swap(d));
    Rotations(e.y);
    MingleTwice(f);
    Rotations(p.x);
  }

  // ----- rounds -------------------------------------------------------------------------------

  /** The last six bits of a word. */
  function Six(i: Word): Word {
    i & 0x3F
  }

  /** The entry of a box that they select. */
  function Look(t: Table, i: Word): Word {
    t[Six(i)]
  }

  function Mix(a: Word, b: Word, c: Word, d: Word, e: Word, f: Word, g: Word, h: Word): Word {
    a ^ b ^ c ^ d ^ e ^ f ^ g ^ h
  }

  /** What DES_ROUND adds to one half, computed from the other half and two key words. */
  function RoundMask(sb: Boxes, k0: Word, k1: Word, x: Word): Word {
    var t := k0 ^ x;
    var u := k1 ^ ((x << 28) | (x >> 4));
    Mix(Look(sb.s8, t), Look(sb.s6, t >> 8), Look(sb.s4, t >> 16), Look(sb.s2, t >> 24),
        Look(sb.s7, u), Look(sb.s5, u >> 8), Look(sb.s3, u >> 16), Look(sb.s1, u >> 24))
  }

  /** One round: the second half takes in the mask of the first, and the halves change roles. */
  function Round(sb: Boxes, k0: Word, k1: Word, p: Pair): Pair {
    Pair(p.y ^ RoundMask(sb, k0, k1, p.x), p.x)
  }

  function Rounds(sb: Boxes, sk: seq<Word>, p: Pair): Pair
    decreases |sk|
  {
    if |sk| < 2 then p else Rounds(sb, sk[2..], Round(sb, sk[0], sk[1], p))
  }

  /** The schedule from its last round to its first. */
  function Reversed(sk: seq<Word>): (r: seq<Word>)
    ensures |r| == |sk| / 2 * 2
    decreases |sk|
  {
    if |sk| < 2 then [] else Reversed(sk[2..]) + sk[..2]
  }

  lemma {:induction false} RoundsConcat(sb: Boxes, a: seq<Word>, b: seq<Word>, p: Pair)
    requires |a| % 2 == 0
    ensures Rounds(sb, a + b, p) == Rounds(sb, b, Rounds(sb, a, p))
    decreases |a|
  {
    hide Round;
    if a == [] {
      assert a + b == b;
    } else {
      assert (a + b)[2..] == a[2..] + b;
      RoundsConcat(sb, a[2..], b, Round(sb, a[0], a[1], p));
    }
  }

  lemma XorTwice(a: Word, m: Word)
    ensures a ^ m ^ m == a
  {
  }

  /** A round undoes itself once the halves have changed places. */
  lemma RoundTwice(sb: Boxes, k0: Word, k1: Word, p: Pair)
    ensures Round(sb, k0, k1, Swap(Round(sb, k0, k1, p))) == Swap(p)
  {
    hide RoundMask;
    XorTwice(p.y, RoundMask(sb, k0, k1, p.x));
  }

  /** The reversed schedule undoes the rounds, whatever the boxes hold. */
  lemma {:induction false} RoundsInvert(sb: Boxes, sk: seq<Word>, p: Pair)
    requires |sk| % 2 == 0
    ensures Rounds(sb, Reversed(sk), Swap(Rounds(sb, sk, p))) == Swap(p)
    decreases |sk|
  {
    hide Round, Swap;
    if sk != [] {
      var q := Round(sb, sk[0], sk[1], p);
      RoundsInvert(sb, sk[2..], q);
      RoundsConcat(sb, Reversed(sk[2..]), sk[..2], Swap(Rounds(sb, sk, p)));
      assert sk[..2][2..] == [];
      RoundTwice(sb, sk[0], sk[1], p);
    }
  }

  lemma {:induction false} ReversedConcat(a: seq<Word>, b: seq<Word>)
    requires |a| % 2 == 0 && |b| % 2 == 0
    ensures Reversed(a + b) == Reversed(b) + Reversed(a)
    decreases |a|
  {
    if a == [] {
      assert a + b == b;
    } else {
      assert (a + b)[2..] == a[2..] + b && (a + b)[..2] == a[..2];
      ReversedConcat(a[2..], b);
      assert Reversed(a + b) == Reversed(a[2..] + b) + a[..2];
      hide Reversed;
      Assoc(Reversed(b), Reversed(a[2..]), a[..2]);
    }
  }

  lemma {:induction false} ReversedTwice(sk: seq<Word>)
    requires |sk| % 2 == 0
    ensures Reversed(Reversed(sk)) == sk
    decreases |sk|
  {
    if sk != [] {
      ReversedConcat(Reversed(sk[2..]), sk[..2]);
      ReversedTwice(sk[2..]);
      assert sk[..2][2..] == [] && sk[..2][..2] == sk[..2];
      assert sk == sk[..2] + sk[2..];
    }
  }

  // ----- blocks -------------------------------------------------------------------------------

  /** GET_UINT32_BE. */
  function GetWord(b: seq<Octet>): Word
    requires |b| == 4
  {
    ((b[0] as bv32) << 24) | ((b[1] as bv32) << 16) | ((b[2] as bv32) << 8) | (b[3] as bv32)
  }

  /** PUT_UINT32_BE. */
  function PutWord(w: Word): (b: seq<Octet>)
    ensures |b| == 4
  {
    [((w >> 24) & 0xFF) as bv8, ((w >> 16) & 0xFF) as bv8, ((w >> 8) & 0xFF) as bv8, (w & 0xFF) as bv8]
  }

  lemma WordBytes(w: Word)
    ensures GetWord(PutWord(w)) == w
  {
  }

  lemma BytesOfWord(a: Octet, b: Octet, c: Octet, d: Octet)
    ensures var w := ((a as bv32) << 24) | ((b as bv32) << 16) | ((c as bv32) << 8) | (d as bv32);
      && ((w >> 24) & 0xFF) as bv8 == a && ((w >> 16) & 0xFF) as bv8 == b
      && ((w >> 8) & 0xFF) as bv8 == c && (w & 0xFF) as bv8 == d
  {
  }

  lemma BytesWord(b: seq<Octet>)
    requires |b| == 4
    ensures PutWord(GetWord(b)) == b
  {
    BytesOfWord(b[0], b[1], b[2], b[3]);
  }

  function GetPair(b: seq<Octet>): Pair
    requires |b| == 8
  {
    Pair(GetWord(b[..4]), GetWord(b[4..]))
  }

  function PutPair(p: Pair): (b: seq<Octet>)
    ensures |b| == 8
  {
    PutWord(p.x) + PutWord(p.y)
  }

  lemma PairBytes(p: Pair, b: seq<Octet>)
    requires |b| == 8
    ensures GetPair(PutPair(p)) == p && PutPair(GetPair(b)) == b
  {
    hide GetWord, PutWord;
    assert PutPair(p)[..4] == PutWord(p.x) && PutPair(p)[4..] == PutWord(p.y);
    WordBytes(p.x);
    WordBytes(p.y);
    BytesWord(b[..4]);
    BytesWord(b[4..]);
    assert b == b[..4] + b[4..];
  }

  /** _des_crypt. */
  function Crypt(sb: Boxes, sk: seq<Word>, input: seq<Octet>): (output: seq<Octet>)
    requires |input| == 8
    ensures |output| == 8
  {
    PutPair(FinalPermutation(Rounds(sb, sk, Swap(InitialPermutation(GetPair(input))))))
  }

  /** Deciphering a block with the reversed schedule undoes enciphering it. */
  lemma CryptInverts(sb: Boxes, sk: seq<Word>, input: seq<Octet>)
    requires |input| == 8 && |sk| % 2 == 0
    ensures Crypt(sb, Reversed(sk), Crypt(sb, sk, input)) == input
  {
    hide InitialPermutation, FinalPermutation, Rounds, GetPair, PutPair, Reversed;
    var p := InitialPermutation(GetPair(input));
    var r := Rounds(sb, sk, Swap(p));
    PairBytes(FinalPermutation(r), input);
    PermutationsInvert(r);
    RoundsInvert(sb, sk, Swap(p));
    PermutationsInvert(GetPair(input));
  }

  /** The block loop of rtu_des_encrypt and rtu_des_decrypt. */
  function CryptBlocks(sb: Boxes, sk: seq<Word>, data: seq<Octet>): (r: seq<Octet>)
    ensures |data| % 8 == 0 ==> |r| == |data|
    decreases |data|
  {
    hide Crypt;
    if |data| < 8 then [] else Crypt(sb, sk, data[..8]) + CryptBlocks(sb, sk, data[8..])
  }

  /** Every block is enciphered on its own, where it stands. */
  lemma {:induction false} BlocksAt(sb: Boxes, sk: seq<Word>, data: seq<Octet>, i: nat)
    requires |data| % 8 == 0 && 8 * i + 8 <= |data|
    ensures CryptBlocks(sb, sk, data)[8 * i..8 * i + 8] == Crypt(sb, sk, data[8 * i..8 * i + 8])
    decreases i
  {
    hide Crypt;
    var c, t := Crypt(sb, sk, data[..8]), data[8..];
    var rest := CryptBlocks(sb, sk, t);
    assert CryptBlocks(sb, sk, data) == c + rest;
    if i == 0 {
      assert (c + rest)[..8] == c;
    } else {
      var j := i - 1;
      BlocksAt(sb, sk, t, j);
      Behind(data[..8], t, 8 * j);
      Behind(c, rest, 8 * j);
      assert data == data[..8] + t;
    }
  }

  lemma Behind(a: seq<Octet>, b: seq<Octet>, n: nat)
    requires |a| == 8 && n + 8 <= |b|
    ensures (a + b)[n + 8..n + 16] == b[n..n + 8]
  {
  }

  /** For every key schedule, every message of whole blocks and any box contents, decryption gives back
      what was encrypted, and encryption what was decrypted. */
  lemma {:induction false} DecryptInverts(sb: Boxes, sk: seq<Word>, data: seq<Octet>)
    requires |data| % 8 == 0 && |sk| % 2 == 0
    ensures CryptBlocks(sb, Reversed(sk), CryptBlocks(sb, sk, data)) == data
    decreases |data|
  {
    hide Crypt, Reversed;
    if data != [] {
      var c := Crypt(sb, sk, data[..8]);
      var rest := CryptBlocks(sb, sk, data[8..]);
      assert (c + rest)[..8] == c && (c + rest)[8..] == rest;
      CryptInverts(sb, sk, data[..8]);
      DecryptInverts(sb, sk, data[8..]);
      assert data == data[..8] + data[8..];
    }
  }

  lemma EncryptInverts(sb: Boxes, sk: seq<Word>, data: seq<Octet>)
    requires |data| % 8 == 0 && |sk| % 2 == 0
    ensures CryptBlocks(sb, sk, CryptBlocks(sb, Reversed(sk), data)) == data
  {
    DecryptInverts(sb, Reversed(sk), data);
    ReversedTwice(sk);
  }
}
