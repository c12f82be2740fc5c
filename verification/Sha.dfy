/** The streaming part of rtu_sha.c: a 64-byte buffer, a block counter and the padding. `transform` is
    the compression function, about which nothing is assumed. */
module Sha {
  import opened DigestSpec
  import opened Sequences

  /** The bit count rtu_sha1_final computes from the block counter and the bytes in the buffer. */
  function CountWords(nblocks: nat, count: nat): (r: (nat, nat))
    requires nblocks < 0x1_0000_0000 && count < 64
    ensures r.0 < 0x1_0000_0000 && r.1 < 0x1_0000_0000
    ensures r.0 * 0x1_0000_0000 + r.1 == 8 * (64 * nblocks + count)
  {
    var lsb0 := nblocks * 64 % 0x1_0000_0000;
    var msb0 := nblocks / 0x400_0000;
    assert nblocks == msb0 * 0x400_0000 + nblocks % 0x400_0000;
    assert lsb0 == nblocks % 0x400_0000 * 64;
    var t := lsb0 + count;
    assert t < 0x1_0000_0000;
    (msb0 * 8 + t / 0x2000_0000, t * 8 % 0x1_0000_0000)
  }

  /** The count bytes of a message: the block counter has 32 bits. */
  function CountBytes(length: nat): (b: seq<Byte>)
    ensures |b| == 8
  {
    var w := CountWords(length / 64 % 0x1_0000_0000, length % 64);
    BigEndian(w.0) + BigEndian(w.1)
  }

  /** The encoded count is the number of bits exactly when the block counter has not wrapped round; any
      message the standard allows is shorter than 2^61 bytes. */
  lemma CountRight(length: nat)
    requires length < 0x2000_0000_0000_0000
    ensures CountBytes(length) == BitCountBig(length) <==> length < 0x40_0000_0000
  {
    if length < 0x40_0000_0000 { CountSmall(length); } else { CountWrong(length); }
  }

  lemma CountSmall(length: nat)
    requires length < 0x40_0000_0000
    ensures CountBytes(length) == BitCountBig(length)
  {
    var n, c := length / 64, length % 64;
    assert length == 64 * n + c;
    Unwrapped(n);
    var w := CountWords(n, c);
    WordsUnique(8 * length, w.0, w.1);
    hide CountWords, BigEndian;
    Unwrapped(w.0);
  }

  lemma Unwrapped(n: nat)
    requires n < 0x1_0000_0000
    ensures n % 0x1_0000_0000 == n
  {
  }

  lemma WordsUnique(x: nat, hi: nat, lo: nat)
    requires x == hi * 0x1_0000_0000 + lo && lo < 0x1_0000_0000
    ensures x / 0x1_0000_0000 == hi && x % 0x1_0000_0000 == lo
  {
  }

  lemma CountWrong(length: nat)
    requires 0x40_0000_0000 <= length < 0x2000_0000_0000_0000
    ensures CountBytes(length) != BitCountBig(length)
  {
    var w := CountWords(length / 64 % 0x1_0000_0000, length % 64);
    var hi := 8 * length / 0x1_0000_0000;
    assert w.0 < 0x200 <= hi < 0x1_0000_0000;
    Unwrapped(hi);
    hide CountWords, BigEndian;
    if CountBytes(length) == BitCountBig(length) {
      assert BigEndian(w.0) == CountBytes(length)[..4] == BitCountBig(length)[..4] == BigEndian(hi);
      BigEndianUnique(w.0, hi);
    }
  }

  lemma BigEndianUnique(a: nat, b: nat)
    requires a < 0x1_0000_0000 && b < 0x1_0000_0000 && BigEndian(a) == BigEndian(b)
    ensures a == b
  {
    var s, t := BigEndian(a), BigEndian(b);
    assert s[0] == t[0] && s[1] == t[1] && s[2] == t[2] && s[3] == t[3];
    Spelled(a);
    Spelled(b);
  }

  lemma Spelled(w: nat)
    requires w < 0x1_0000_0000
    ensures w == 0x100_0000 * (w / 0x100_0000 % 0x100) + 0x1_0000 * (w / 0x1_0000 % 0x100) + 0x100 * (w / 0x100 % 0x100) + w % 0x100
  {
    WordBytes(w);
  }

  /** The bit count of rtu_sha1_final, in two words with a carry between them. */
  method CountBits(nblocks: nat, count: nat) returns (msb: nat, lsb: nat)
    requires nblocks < 0x1_0000_0000 && count < 64
    ensures (msb, lsb) == CountWords(nblocks, count)
  {
    CountsAre(nblocks, count);
    hide CountWords;
    var t: int, m: int, l: int := nblocks, 0, 0;
    l := t * 64 % 0x1_0000_0000;
    m := t / 0x400_0000;
    Shift6(nblocks);
    Unwrapped(l + count);
    Unwrapped(m * 8);
    t := l;
    l := (l + count) % 0x1_0000_0000;
    if l < t { m := m + 1; }
    t := l;
    l := l * 8 % 0x1_0000_0000;
    m := m * 8 % 0x1_0000_0000;
    m := m + t / 0x2000_0000;
    return m, l;
  }

  lemma CountsAre(n: nat, c: nat)
    requires n < 0x1_0000_0000 && c < 64
    ensures var t := n * 64 % 0x1_0000_0000 + c;
      CountWords(n, c) == (n / 0x400_0000 * 8 + t / 0x2000_0000, t * 8 % 0x1_0000_0000)
  {
  }

  lemma Shift6(t: nat)
    requires t < 0x1_0000_0000
    ensures t * 64 % 0x1_0000_0000 + 64 <= 0x1_0000_0000 && t / 0x400_0000 < 64
  {
    assert t * 64 % 0x1_0000_0000 == t % 0x400_0000 * 64 by {
      assert t == t / 0x400_0000 * 0x400_0000 + t % 0x400_0000;
    }
  }

  /** A whole block fed when no bytes are kept. */
  lemma BlockFed(fed: seq<Byte>, block: seq<Byte>)
    requires Rest(fed) == [] && |block| == 64
    ensures Cut(fed + block) == Cut(fed) + [block] && Rest(fed + block) == []
  {
    CutMore(fed, block);
    CutWhole(block);
    assert Rest(fed) + block == block;
  }

  /** What has been fed, and the next piece of the data. */
  lemma SliceMore(before: seq<Byte>, data: seq<Byte>, from: nat, i: nat, j: nat)
    requires from <= i <= j <= |data|
    ensures before + data[from..i] + data[i..j] == before + data[from..j]
  {
    Assoc(before, data[from..i], data[i..j]);
    assert data[from..i] + data[i..j] == data[from..j];
  }

  type FiveWords = w: seq<nat> | |w| == 5 witness [0, 0, 0, 0, 0]

  /** The chaining value may be of any type; `words` gives the five words of it. */
  class Context<H> {
    const transform: (H, seq<Byte>) -> H
    const words: H -> FiveWords
    const buf: array<Byte>
    var h: H
    var nblocks: nat
    var count: nat
    ghost const start: H
    ghost var fed: seq<Byte>
    ghost var handed: seq<seq<Byte>>

    /** The chaining value is the fold over the blocks handed to the transform. */
    ghost predicate Chained()
      reads this
    {
      buf.Length == 64 && h == Fold(transform, start, handed) && nblocks == |handed| % 0x1_0000_0000
    }

    /** The blocks handed on and the bytes kept are those of the bytes fed so far; a full buffer is a
        block still to be handed on. */
    ghost predicate Valid()
      reads this, buf
    {
      && Chained() && count <= 64
      && if count == 64 then handed + [buf[..]] == Cut(fed) && Rest(fed) == []
         else handed == Cut(fed) && buf[..count] == Rest(fed)
    }

    /** rtu_sha1_init. */
    constructor (f: (H, seq<Byte>) -> H, h0: H, w: H -> FiveWords)
      ensures Valid() && fed == [] && count == 0 && transform == f && start == h0 && words == w && fresh(buf)
    {
      transform, words, h, start := f, w, h0, h0;
      buf := new Byte[64](_ => 0);
      nblocks, count, fed, handed := 0, 0, [], [];
    }

    /** One call of transform. */
    method Transform(data: seq<Byte>)
      requires Chained() && |data| == 64
      modifies this`h, this`nblocks, this`handed
      ensures Chained() && handed == old(handed) + [data]
    {
      FoldOne(transform, start, handed, data);
      h := transform(h, data);
      nblocks := (nblocks + 1) % 0x1_0000_0000;
      handed := handed + [data];
    }

    /** rtu_sha1_write without data. */
    method Flush()
      requires Valid()
      modifies this`h, this`nblocks, this`handed, this`count
      ensures Valid() && count < 64 && fed == old(fed) && (old(count) < 64 ==> count == old(count))
    {
      if count == 64 {
        Transform(buf[..]);
        count := 0;
      }
    }

    /** hd->buf[hd->count++] = b. */
    method Put(b: Byte)
      requires Valid() && count < 64
      modifies this`count, this`fed, buf
      ensures Valid() && count == old(count) + 1 && fed == old(fed) + [b]
    {
      CutMore(fed, [b]);
      CutWhole(Rest(fed) + [b]);
      ghost var kept := buf[..count];
      buf[count] := b;
      count := count + 1;
      fed := fed + [b];
      assert buf[..count] == kept + [b] && buf[..64] == buf[..];
    }

    /** The byte loop of rtu_sha1_write: as much of the data as the buffer takes. */
    method FillBuffer(data: seq<Byte>, from: nat) returns (i: nat)
      requires Valid() && count < 64 && from <= |data|
      modifies this`count, this`fed, buf
      ensures Valid() && from <= i <= |data| && fed == old(fed) + data[from..i]
      ensures i < |data| ==> count == 64
      ensures count == old(count) + (i - from)
    {
      i := from;
      assert fed == fed + data[from..from];
      while i < |data| && count < 64
        invariant Valid() && from <= i <= |data| && fed == old(fed) + data[from..i] && count == old(count) + (i - from)
        decreases |data| - i
      {
        Assoc(old(fed), data[from..i], [data[i]]);
        assert data[from..i] + [data[i]] == data[from..i + 1];
        Put(data[i]);
        i := i + 1;
      }
    }

    /** The block loop of rtu_sha1_write: whole blocks go to the transform without a copy. */
    method WholeBlocks(data: seq<Byte>, from: nat) returns (i: nat)
      requires Valid() && count == 0 && from <= |data|
      modifies this`h, this`nblocks, this`handed, this`fed, this`count
      ensures Valid() && count == 0 && from <= i <= |data| < i + 64 && fed == old(fed) + data[from..i]
    {
      hide Fold, Cut, Rest;
      i := from;
      assert fed == fed + data[from..from];
      while |data| - i >= 64
        invariant Valid() && count == 0 && from <= i <= |data| && fed == old(fed) + data[from..i]
        decreases |data| - i
      {
        ghost var block := data[i..i + 64];
        BlockFed(fed, block);
        SliceMore(old(fed), data, from, i, i + 64);
        Transform(data[i..i + 64]);
        count := 0;
        fed := fed + block;
        i := i + 64;
      }
    }

    /** rtu_sha1_write: however a message is split into calls, the blocks handed on and the bytes kept
        are those of the bytes fed so far. */
    method Write(data: seq<Byte>)
      requires Valid()
      modifies this`h, this`nblocks, this`handed, this`fed, this`count, buf
      ensures Valid() && count < 64 && fed == old(fed) + data
    {
      hide Fold, Cut, Rest;
      Flush();
      var i := 0;
      ghost var before := fed;
      assert before + data[0..0] == before;
      if count > 0 {
        i := FillBuffer(data, 0);
        Flush();
        if i == |data| {
          assert data[0..i] == data;
          return;
        }
      }
      ghost var filled := i;
      assert count == 0 && fed == before + data[0..filled];
      i := WholeBlocks(data, i);
      ghost var whole := i;
      i := FillBuffer(data, i);
      Assoc(before + data[0..filled], data[filled..whole], data[whole..i]);
      assert data[filled..whole] + data[whole..i] == data[filled..i];
      Assoc(before, data[0..filled], data[filled..i]);
      assert i == |data| && data[0..filled] + data[filled..i] == data;
    }

    /** Zeros until the buffer holds `n` bytes. */
    method PutZeros(n: nat)
      requires Valid() && count <= n <= 64
      modifies this`count, this`fed, buf
      ensures Valid() && count == n && fed == old(fed) + Zeros(n - old(count))
    {
      ghost var k := 0;
      assert fed + Zeros(0) == fed;
      while count < n
        invariant Valid() && count == old(count) + k <= n && fed == old(fed) + Zeros(k)
        decreases n - count
      {
        Put(0);
        Assoc(old(fed), Zeros(k), [0]);
        assert Zeros(k) + [0] == Zeros(k + 1);
        k := k + 1;
      }
    }

    /** The end of the padding when the count does not fit the block any more. */
    method ExtraBlock()
      requires Valid() && 56 < count <= 64
      modifies this`h, this`nblocks, this`handed, this`fed, this`count, buf
      ensures Chained() && handed == Cut(fed) && buf[..56] == Rest(fed)
      ensures fed == old(fed) + Zeros(64 - old(count)) + Zeros(56)
    {
      hide Zeros, Fold;
      PutZeros(64);
      Flush();
      forall i | 0 <= i < 56 { buf[i] := 0; }
      assert buf[..56] == Zeros(56);
      assert Rest(fed) == [] && Rest(fed) + Zeros(56) == Zeros(56);
      CutMore(fed, Zeros(56));
      CutWhole(Zeros(56));
      hide Cut;
      fed := fed + Zeros(56);
    }

    /** The padding of rtu_sha1_final up to eight bytes before the end of a block. */
    method PadBuffer()
      requires Valid() && count < 64
      modifies this`h, this`nblocks, this`handed, this`fed, this`count, buf
      ensures Chained() && handed == Cut(fed) && buf[..56] == Rest(fed)
      ensures fed == old(fed) + [0x80] + Zeros(PadZeros(|old(fed)|))
    {
      hide Fold, Cut, Zeros, PadZeros;
      var c := count;
      ghost var before := fed;
      PadZerosBy(|before|);
      assert c == |before| % 64;
      Put(0x80);
      if c < 56 {
        PutZeros(56);
      } else {
        ExtraBlock();
        Assoc(before + [0x80], Zeros(63 - c), Zeros(56));
        ZerosJoin(63 - c, 56);
      }
    }

    /** The 64-bit count at the end of the block. */
    method PutCount(msb: nat, lsb: nat)
      requires buf.Length == 64
      modifies buf
      ensures buf[..56] == old(buf[..56]) && buf[56..] == BigEndian(msb) + BigEndian(lsb)
    {
      buf[56], buf[57], buf[58], buf[59] := msb / 0x100_0000 % 0x100, msb / 0x1_0000 % 0x100, msb / 0x100 % 0x100, msb % 0x100;
      buf[60], buf[61], buf[62], buf[63] := lsb / 0x100_0000 % 0x100, lsb / 0x1_0000 % 0x100, lsb / 0x100 % 0x100, lsb % 0x100;
    }

    /** The five words of the chaining value, most significant byte first, at the start of the buffer. */
    method PutDigest()
      requires buf.Length == 64
      modifies buf
      ensures buf[..20] == Bytes(BigEndian, words(h))
    {
      var ws := words(h);
      for i := 0 to 5
        invariant buf[..4 * i] == Bytes(BigEndian, ws[..i])
      {
        BytesMore(BigEndian, ws, i);
        var p, w := 4 * i, ws[i];
        buf[p], buf[p + 1], buf[p + 2], buf[p + 3] := w / 0x100_0000 % 0x100, w / 0x1_0000 % 0x100, w / 0x100 % 0x100, w % 0x100;
        assert buf[..p + 4] == buf[..p] + BigEndian(w);
      }
      assert ws[..5] == ws;
    }

    /** rtu_sha1_final: the blocks handed on, from the first one, are those of the padded message, and the
        buffer begins with the words of the last chaining value. */
    method Final()
      requires Valid()
      modifies this`h, this`nblocks, this`handed, this`fed, this`count, buf
      ensures fed == Pad(old(fed), CountBytes(|old(fed)|))
      ensures handed == Cut(fed) && Rest(fed) == [] && h == Fold(transform, start, Cut(fed))
      ensures buf[..20] == Bytes(BigEndian, words(Fold(transform, start, Cut(fed))))
    {
      hide Fold, Zeros, PadZeros, CountWords, Cut, BigEndian;
      Flush();
      ghost var message := fed;
      CutCount(fed);
      var msb, lsb := CountBits(nblocks, count);
      PadBuffer();
      ghost var bytes := CountBytes(|message|);
      PutCount(msb, lsb);
      assert buf[..] == buf[..56] + buf[56..];
      CutMore(fed, bytes);
      CutWhole(Rest(fed) + bytes);
      fed := fed + bytes;
      Transform(buf[..]);
      PutDigest();
    }
  }

  lemma {:induction false} CutCount(s: seq<Byte>)
    ensures |Cut(s)| == |s| / 64
    decreases |s|
  {
    if |s| >= 64 { CutCount(s[64..]); }
  }
}
