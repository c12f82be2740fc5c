/** The streaming part of cc_md5.c: a 64-byte buffer, a two-word bit count and the padding. `transform`
    is the compression function, about which nothing is assumed. */
module Md5 {
  import opened DigestSpec
  import opened Sequences

  /** A block as the sixteen words handed to the transform, least significant byte first. */
  function Words(b: seq<Byte>): seq<nat>
    requires |b| % 4 == 0
    decreases |b|
  {
    if b == [] then [] else [WordOf(b[..4])] + Words(b[4..])
  }

  /** Word `i` is spelled by the four bytes from 4 * i on. */
  lemma {:induction false} WordsAt(b: seq<Byte>, i: nat)
    requires |b| % 4 == 0 && i < |b| / 4
    ensures |Words(b)| == |b| / 4 && Words(b)[i] == WordOf(b[4 * i..4 * i + 4])
    decreases |b|
  {
    var t := b[4..];
    if |b| > 4 { WordsAt(t, if i == 0 then 0 else i - 1); }
    if i > 0 { assert t[4 * (i - 1)..4 * (i - 1) + 4] == b[4 * i..4 * i + 4]; }
  }

  /** A block's words stand where the block stands. */
  lemma {:induction false} AllWordsAt(bs: seq<seq<Byte>>, i: nat)
    requires (forall b :: b in bs ==> |b| == 64) && i < |bs|
    ensures |AllWords(bs)| == |bs| && AllWords(bs)[i] == Words(bs[i])
    decreases |bs|
  {
    var front := bs[..|bs| - 1];
    if |bs| > 1 { AllWordsAt(front, if i < |front| then i else 0); }
  }

  function AllWords(bs: seq<seq<Byte>>): seq<seq<nat>>
    requires forall b :: b in bs ==> |b| == 64
  {
    if bs == [] then [] else AllWords(bs[..|bs| - 1]) + [Words(bs[|bs| - 1])]
  }

  lemma {:induction false} CutSizes(s: seq<Byte>)
    ensures forall b :: b in Cut(s) ==> |b| == 64
    decreases |s|
  {
    if |s| >= 64 { CutSizes(s[64..]); }
  }

  lemma {:induction false} WordsConcat(a: seq<Byte>, b: seq<Byte>)
    requires |a| % 4 == 0 && |b| % 4 == 0
    ensures Words(a + b) == Words(a) + Words(b)
    decreases |a|
  {
    if a == [] {
      assert a + b == b;
    } else {
      assert (a + b)[..4] == a[..4] && (a + b)[4..] == a[4..] + b;
      WordsConcat(a[4..], b);
      Assoc([WordOf(a[..4])], Words(a[4..]), Words(b));
    }
  }

  lemma AllWordsOne(bs: seq<seq<Byte>>, b: seq<Byte>)
    requires (forall x :: x in bs ==> |x| == 64) && |b| == 64
    ensures AllWords(bs + [b]) == AllWords(bs) + [Words(b)]
  {
    assert (bs + [b])[..|bs|] == bs;
  }

  /** The words read back from the bytes of two words are those words. */
  lemma CountWordsBack(lo: nat, hi: nat)
    requires lo < 0x1_0000_0000 && hi < 0x1_0000_0000
    ensures Words(LittleEndian(lo) + LittleEndian(hi)) == [lo, hi]
  {
    WordBytes(lo);
    WordBytes(hi);
    var a, b := LittleEndian(lo), LittleEndian(hi);
    hide LittleEndian, WordOf;
    WordsConcat(a, b);
    OneWord(a);
    OneWord(b);
  }

  /** The two words hold the number of bits modulo 2^64. */
  ghost predicate Counts(lo: nat, hi: nat, length: nat) {
    && lo < 0x1_0000_0000 && hi < 0x1_0000_0000
    && lo == 8 * length % 0x1_0000_0000 && hi == 8 * length / 0x1_0000_0000 % 0x1_0000_0000
  }

  /** What the low word says about the buffer. */
  lemma LowWord(length: nat)
    ensures 8 * length % 0x1_0000_0000 / 8 % 0x40 == length % 64
  {
    var q := length / 0x2000_0000;
    var r := length % 0x2000_0000;
    assert length == q * 0x2000_0000 + r && 8 * length == q * 0x1_0000_0000 + 8 * r;
    DivBack(q, 8 * r);
    assert 8 * r / 8 == r;
    assert length == q * 0x80_0000 * 64 + r;
    Mod64(q * 0x80_0000, r);
  }

  lemma Mod64(k: nat, r: nat)
    ensures (k * 64 + r) % 64 == r % 64
  {
  }

  lemma DivBack(q: nat, r: nat)
    requires r < 0x1_0000_0000
    ensures (q * 0x1_0000_0000 + r) / 0x1_0000_0000 == q && (q * 0x1_0000_0000 + r) % 0x1_0000_0000 == r
  {
  }

  lemma ModAdd(a: nat, b: nat)
    ensures (a + b) % 0x1_0000_0000 == (a % 0x1_0000_0000 + b) % 0x1_0000_0000
  {
  }

  /** Adding the bits of some more bytes to a two-word count. */
  method AddBits(lo0: nat, hi0: nat, inLen: nat, ghost length: nat) returns (lo: nat, hi: nat)
    requires Counts(lo0, hi0, length) && inLen < 0x1_0000_0000
    ensures Counts(lo, hi, length + inLen)
  {
    var bits := inLen * 8 % 0x1_0000_0000;
    lo, hi := lo0, hi0;
    if (lo + bits) % 0x1_0000_0000 < lo { hi := (hi + 1) % 0x1_0000_0000; }
    lo := (lo + bits) % 0x1_0000_0000;
    hi := (hi + inLen / 0x2000_0000) % 0x1_0000_0000;
    BitsAdd(lo0, hi0, inLen, length);
  }

  /** The carry between the words: the sum of two counts, each split at 2^32. */
  lemma BitsAdd(lo0: nat, hi0: nat, inLen: nat, length: nat)
    requires Counts(lo0, hi0, length) && inLen < 0x1_0000_0000
    ensures var bits := inLen * 8 % 0x1_0000_0000; var carry := if (lo0 + bits) % 0x1_0000_0000 < lo0 then 1 else 0;
      && (lo0 + bits) % 0x1_0000_0000 == 8 * (length + inLen) % 0x1_0000_0000
      && ((hi0 + carry) % 0x1_0000_0000 + inLen / 0x2000_0000) % 0x1_0000_0000
         == 8 * (length + inLen) / 0x1_0000_0000 % 0x1_0000_0000
      && (carry == 0 ==> hi0 % 0x1_0000_0000 == hi0)
  {
    var h, g := 8 * length / 0x1_0000_0000, inLen / 0x2000_0000;
    var bits := inLen * 8 % 0x1_0000_0000;
    assert inLen == g * 0x2000_0000 + inLen % 0x2000_0000;
    DivBack(g, inLen % 0x2000_0000 * 8);
    assert bits == inLen % 0x2000_0000 * 8;
    assert 8 * length == h * 0x1_0000_0000 + lo0;
    var sum := lo0 + bits;
    var carry := if sum < 0x1_0000_0000 then 0 else 1;
    var low := sum - carry * 0x1_0000_0000;
    DivBack(carry, low);
    assert 8 * (length + inLen) == (h + g + carry) * 0x1_0000_0000 + low;
    DivBack(h + g + carry, low);
    ModAdd(h, g + carry);
    ModAdd(hi0 + carry, g);
  }

  type FourWords = w: seq<nat> | |w| == 4 witness [0, 0, 0, 0]

  /** The chaining value may be of any type; `words` gives the four words of it. */
  class Context<H> {
    const transform: (H, seq<nat>) -> H
    const words: H -> FourWords
    const buffer: array<Byte>
    const digest: array<Byte>
    var state: H
    var low: nat
    var high: nat
    ghost const start: H
    ghost var fed: seq<Byte>
    ghost var handed: seq<seq<nat>>

    /** The blocks handed on and the bytes kept are those of the bytes fed so far. */
    ghost predicate Holds(mdi: nat)
      reads this, buffer
    {
      && buffer.Length == 64 && digest.Length == 16 && buffer != digest && mdi < 64 && buffer[..mdi] == Rest(fed)
      && (forall b :: b in Cut(fed) ==> |b| == 64) && handed == AllWords(Cut(fed))
      && state == Fold(transform, start, handed)
    }

    ghost predicate Valid()
      reads this, buffer
    {
      Holds(|fed| % 64) && Counts(low, high, |fed|)
    }

    /** CC_MD5Init. */
    constructor (f: (H, seq<nat>) -> H, h0: H, w: H -> FourWords)
      ensures Valid() && fed == [] && transform == f && start == h0 && words == w && fresh(buffer) && fresh(digest)
    {
      transform, words, state, start := f, w, h0, h0;
      digest := new Byte[16](_ => 0);
      buffer := new Byte[64](_ => 0);
      low, high, fed, handed := 0, 0, [], [];
    }

    /** One call of Transform on sixteen words. */
    method Transform(words: seq<nat>)
      requires state == Fold(transform, start, handed)
      modifies this`state, this`handed
      ensures handed == old(handed) + [words] && state == Fold(transform, start, handed)
    {
      FoldOne(transform, start, handed, words);
      state := transform(state, words);
      handed := handed + [words];
    }

    /** The loop that gathers words from the first bytes of the buffer. */
    method Gather(n: nat) returns (words: seq<nat>)
      requires 4 * n <= buffer.Length
      ensures words == Words(buffer[..4 * n])
    {
      words := [];
      for i := 0 to n
        invariant words == Words(buffer[..4 * i])
      {
        var ii := 4 * i;
        var w := buffer[ii + 3] as int * 0x100_0000 + buffer[ii + 2] as int * 0x1_0000
                 + buffer[ii + 1] as int * 0x100 + buffer[ii] as int;
        WordsConcat(buffer[..ii], buffer[ii..ii + 4]);
        assert buffer[..ii] + buffer[ii..ii + 4] == buffer[..ii + 4];
        OneWord(buffer[ii..ii + 4]);
        words := words + [w];
      }
    }

    /** One byte into the buffer, and the block out when it is full. */
    method Put(b: Byte, mdi0: nat) returns (mdi: nat)
      requires Holds(mdi0)
      modifies this`state, this`handed, this`fed, buffer
      ensures Holds(mdi) && fed == old(fed) + [b]
    {
      CutMore(fed, [b]);
      CutWhole(Rest(fed) + [b]);
      ghost var kept, cut := buffer[..mdi0], Cut(fed);
      buffer[mdi0] := b;
      mdi := mdi0 + 1;
      fed := fed + [b];
      assert buffer[..mdi] == kept + [b];
      if mdi == 0x40 {
        var words := Gather(16);
        Transform(words);
        mdi := 0;
        AllWordsOne(cut, kept + [b]);
      } else {
        assert cut + [] == cut;
      }
    }

    /** CC_MD5Update: however a message is split into calls, the blocks handed on, the bytes kept and
        the bit count are those of the bytes fed so far. */
    method Update(inBuf: seq<Byte>)
      requires Valid() && |inBuf| < 0x1_0000_0000
      modifies this`state, this`low, this`high, this`handed, this`fed, buffer
      ensures Valid() && fed == old(fed) + inBuf
    {
      LowWord(|fed|);
      var mdi := low / 8 % 0x40;
      low, high := AddBits(low, high, |inBuf|, |fed|);
      mdi := PutAll(inBuf, mdi);
    }

    /** The byte loop of CC_MD5Update. */
    method PutAll(inBuf: seq<Byte>, mdi0: nat) returns (mdi: nat)
      requires Holds(mdi0)
      modifies this`state, this`handed, this`fed, buffer
      ensures Holds(mdi) && mdi == |fed| % 64 && fed == old(fed) + inBuf
    {
      hide Words, AllWords, Fold, Cut;
      ghost var before := fed;
      mdi := mdi0;
      assert before + inBuf[..0] == before;
      for i := 0 to |inBuf|
        invariant Holds(mdi) && fed == before + inBuf[..i]
      {
        mdi := Put(inBuf[i], mdi);
        Assoc(before, inBuf[..i], [inBuf[i]]);
        assert inBuf[..i] + [inBuf[i]] == inBuf[..i + 1];
      }
      assert inBuf[..|inBuf|] == inBuf;
      assert mdi == |buffer[..mdi]| == |Rest(fed)| == |fed| % 64;
    }

    /** CC_MD5Final: the blocks handed on, from the first one, are those of the padded
        message with its 64-bit count of bits. */
    method Final()
      requires Valid()
      modifies this`state, this`low, this`high, this`handed, this`fed, buffer, digest
      ensures var padded := Pad(old(fed), BitCountLittle(|old(fed)|));
        && |padded| % 64 == 0 && (forall b :: b in Cut(padded) ==> |b| == 64)
        && handed == AllWords(Cut(padded)) && state == Fold(transform, start, handed)
        && digest[..] == Bytes(LittleEndian, words(Fold(transform, start, handed)))
    {
      hide Words, Fold, Zeros, Cut, LittleEndian;
      ghost var message := fed;
      var in14, in15 := low, high;
      LowWord(|fed|);
      var mdi := low / 8 % 0x40;
      var padLen := if mdi < 56 then 56 - mdi else 120 - mdi;
      PadZerosBy(|fed|);
      Update([0x80] + Zeros(padLen - 1));
      ghost var count := BitCountLittle(|message|);
      Padding(message, count);
      assert fed + count == Pad(message, count);
      assert |fed| % 64 == 56 by { PadWhole(message, count); Before8(|fed|); }
      var block := Gather(14);
      PadWhole(message, count);
      CutSizes(fed + count);
      LastBlock(fed, in14, in15);
      Transform(block + [in14, in15]);
      PutDigest();
    }

    /** The four words of the chaining value, least significant byte first. */
    method PutDigest()
      requires digest.Length == 16
      modifies digest
      ensures digest[..] == Bytes(LittleEndian, words(state))
    {
      var ws := words(state);
      for i := 0 to 4
        invariant digest[..4 * i] == Bytes(LittleEndian, ws[..i])
      {
        BytesMore(LittleEndian, ws, i);
        var p, w := 4 * i, ws[i];
        digest[p], digest[p + 1], digest[p + 2], digest[p + 3] := w % 0x100, w / 0x100 % 0x100, w / 0x1_0000 % 0x100, w / 0x100_0000 % 0x100;
        assert digest[..p + 4] == digest[..p] + LittleEndian(w);
      }
      assert ws[..4] == ws && digest[..16] == digest[..];
    }
  }

  lemma OneWord(b: seq<Byte>)
    requires |b| == 4
    ensures Words(b) == [WordOf(b)]
  {
    assert b[..4] == b && b[4..] == [];
  }

  /** The last block of a message ends with its count. */
  lemma LastBlock(fed: seq<Byte>, lo: nat, hi: nat)
    requires lo < 0x1_0000_0000 && hi < 0x1_0000_0000 && |fed| % 64 == 56
    ensures var count := LittleEndian(lo) + LittleEndian(hi);
      && (forall b :: b in Cut(fed) ==> |b| == 64) && (forall b :: b in Cut(fed + count) ==> |b| == 64)
      && AllWords(Cut(fed + count)) == AllWords(Cut(fed)) + [Words(Rest(fed)) + [lo, hi]]
  {
    hide Words, Cut, LittleEndian;
    var count := LittleEndian(lo) + LittleEndian(hi);
    CountWordsBack(lo, hi);
    WordsConcat(Rest(fed), count);
    CutMore(fed, count);
    CutWhole(Rest(fed) + count);
    CutSizes(fed);
    CutSizes(fed + count);
    AllWordsOne(Cut(fed), Rest(fed) + count);
  }

  lemma Padding(m: seq<Byte>, count: seq<Byte>)
    ensures m + ([0x80] + Zeros(PadZeros(|m|))) + count == Pad(m, count)
  {
    Assoc(m, [0x80], Zeros(PadZeros(|m|)));
  }

  lemma Before8(n: nat)
    requires (n + 8) % 64 == 0
    ensures n % 64 == 56
  {
  }
}
