/** Messages cut into 64-byte blocks, and the padding both digests use (section 5.1.1 of FIPS 180-4,
    sections 3.1 and 3.2 of RFC 1321). The compression function is a parameter. */
module DigestSpec {
  import opened Sequences

  type Byte = x: int | 0 <= x < 0x100

  /** The whole blocks at the start of a message. */
  function Cut(s: seq<Byte>): seq<seq<Byte>>
    decreases |s|
  {
    if |s| < 64 then [] else [s[..64]] + Cut(s[64..])
  }

  /** Block `i` is the bytes from 64 * i on, what is left is the bytes after the last whole block. */
  lemma {:induction false} CutAt(s: seq<Byte>, i: nat)
    ensures |Cut(s)| == |s| / 64 && Rest(s) == s[|s| / 64 * 64..]
    ensures i < |s| / 64 ==> Cut(s)[i] == s[64 * i..64 * i + 64]
    decreases |s|
  {
    if |s| >= 64 {
      var t := s[64..];
      CutAt(t, if i == 0 then 0 else i - 1);
      assert |s| / 64 == 1 + |t| / 64;
      assert t[|t| / 64 * 64..] == s[|s| / 64 * 64..];
      if 0 < i < |s| / 64 { assert t[64 * (i - 1)..64 * (i - 1) + 64] == s[64 * i..64 * i + 64]; }
    }
  }

  /** What is left after the whole blocks. */
  function Rest(s: seq<Byte>): (r: seq<Byte>)
    ensures |r| < 64 && |r| == |s| % 64
    decreases |s|
  {
    if |s| < 64 then s else Rest(s[64..])
  }

  /** The chaining value after some blocks. */
  function Fold<H, B>(f: (H, B) -> H, h: H, bs: seq<B>): H {
    if bs == [] then h else f(Fold(f, h, bs[..|bs| - 1]), bs[|bs| - 1])
  }

  lemma FoldOne<H, B>(f: (H, B) -> H, h: H, bs: seq<B>, b: B)
    ensures Fold(f, h, bs + [b]) == f(Fold(f, h, bs), b)
  {
    assert (bs + [b])[..|bs|] == bs;
  }

  /** The first block is taken first. */
  lemma {:induction false} FoldFirst<H, B>(f: (H, B) -> H, h: H, b: B, bs: seq<B>)
    ensures Fold(f, h, [b] + bs) == Fold(f, f(h, b), bs)
    decreases |bs|
  {
    if bs == [] {
      assert [b] + bs == [] + [b];
      FoldOne(f, h, [], b);
    } else {
      var front, last := bs[..|bs| - 1], bs[|bs| - 1];
      FoldFirst(f, h, b, front);
      assert [b] + bs == ([b] + front) + [last];
      FoldOne(f, h, [b] + front, last);
    }
  }

  /** More bytes only touch what is left: the blocks already cut stay. */
  lemma {:induction false} CutMore(s: seq<Byte>, t: seq<Byte>)
    ensures Cut(s + t) == Cut(s) + Cut(Rest(s) + t) && Rest(s + t) == Rest(Rest(s) + t)
    decreases |s|
  {
    if |s| >= 64 {
      assert (s + t)[..64] == s[..64] && (s + t)[64..] == s[64..] + t;
      CutMore(s[64..], t);
      Assoc([s[..64]], Cut(s[64..]), Cut(Rest(s) + t));
    }
  }

  lemma CutWhole(b: seq<Byte>)
    ensures |b| == 64 ==> Cut(b) == [b] && Rest(b) == []
    ensures |b| < 64 ==> Cut(b) == [] && Rest(b) == b
  {
    if |b| == 64 { assert b[..64] == b && b[64..] == []; }
  }

  /** Feeding a message in pieces cuts the same blocks as feeding it at once. */
  lemma {:induction false} CutPieces(s: seq<Byte>, pieces: seq<seq<Byte>>)
    ensures FeedAll((Cut(s), Rest(s)), pieces) == (Cut(s + Joined(pieces)), Rest(s + Joined(pieces)))
    decreases |pieces|
  {
    if pieces == [] {
      assert s + [] == s;
    } else {
      CutMore(s, pieces[0]);
      CutPieces(s + pieces[0], pieces[1..]);
      Assoc(s, pieces[0], Joined(pieces[1..]));
    }
  }

  function Joined(pieces: seq<seq<Byte>>): seq<Byte> {
    if pieces == [] then [] else pieces[0] + Joined(pieces[1..])
  }

  /** The blocks cut and the bytes kept, after one more piece. */
  function Feed(state: (seq<seq<Byte>>, seq<Byte>), piece: seq<Byte>): (seq<seq<Byte>>, seq<Byte>) {
    (state.0 + Cut(state.1 + piece), Rest(state.1 + piece))
  }

  function FeedAll(state: (seq<seq<Byte>>, seq<Byte>), pieces: seq<seq<Byte>>): (seq<seq<Byte>>, seq<Byte>)
    decreases |pieces|
  {
    if pieces == [] then state else FeedAll(Feed(state, pieces[0]), pieces[1..])
  }

  // ----- padding ------------------------------------------------------------------------------

  function Zeros(n: nat): (z: seq<Byte>)
    ensures |z| == n && forall i :: 0 <= i < n ==> z[i] == 0
  {
    if n == 0 then [] else [0] + Zeros(n - 1)
  }

  /** Zeros up to eight bytes before the end of a block. */
  function PadZeros(length: nat): nat {
    (119 - length % 64) % 64
  }

  lemma ZerosJoin(a: nat, b: nat)
    ensures Zeros(a) + Zeros(b) == Zeros(a + b)
  {
  }

  lemma PadZerosBy(length: nat)
    ensures PadZeros(length) == if length % 64 < 56 then 55 - length % 64 else 119 - length % 64
  {
  }

  function Pad(m: seq<Byte>, count: seq<Byte>): seq<Byte> {
    m + [0x80] + Zeros(PadZeros(|m|)) + count
  }

  /** A padded message is whole blocks, and no shorter padding makes it so. */
  lemma PadWhole(m: seq<Byte>, count: seq<Byte>)
    requires |count| == 8
    ensures |Pad(m, count)| % 64 == 0 && |m| + 9 <= |Pad(m, count)| < |m| + 9 + 64
  {
    var q, r := |m| / 64, |m| % 64;
    assert |Pad(m, count)| == |m| + PadZeros(|m|) + 9;
    hide Pad;
    ZerosNeeded(q, r);
    assert |m| == q * 64 + r;
  }

  lemma ZerosNeeded(q: nat, r: nat)
    requires r < 64
    ensures (119 - r) % 64 == if r < 56 then 55 - r else 119 - r
    ensures (q * 64 + 64) % 64 == 0 && (q * 64 + 128) % 64 == 0
  {
  }

  /** The message, a byte 0x80, zeros, and the count, in this order. */
  lemma PadIs(m: seq<Byte>, count: seq<Byte>, i: nat)
    requires |count| == 8 && i < |Pad(m, count)|
    ensures var n := |Pad(m, count)|;
      Pad(m, count)[i] ==
        if i < |m| then m[i] else if i == |m| then 0x80 else if i < n - 8 then 0 else count[i - (n - 8)]
  {
  }

  /** A 32-bit word from its most significant byte, and from its least significant one. */
  function BigEndian(w: nat): (b: seq<Byte>)
    ensures |b| == 4
  {
    [w / 0x100_0000 % 0x100, w / 0x1_0000 % 0x100, w / 0x100 % 0x100, w % 0x100]
  }

  function LittleEndian(w: nat): (b: seq<Byte>)
    ensures |b| == 4
  {
    [w % 0x100, w / 0x100 % 0x100, w / 0x1_0000 % 0x100, w / 0x100_0000 % 0x100]
  }

  lemma BigEndianValue(w: nat)
    requires w < 0x1_0000_0000
    ensures var b := BigEndian(w);
      0x100_0000 * (b[0] as int) + 0x1_0000 * (b[1] as int) + 0x100 * (b[2] as int) + (b[3] as int) == w
  {
    assert w / 0x100 / 0x100 == w / 0x1_0000 && w / 0x1_0000 / 0x100 == w / 0x100_0000;
  }

  /** Some words in bytes, one after another. */
  function Bytes(endian: nat -> seq<Byte>, ws: seq<nat>): seq<Byte> {
    if ws == [] then [] else Bytes(endian, ws[..|ws| - 1]) + endian(ws[|ws| - 1])
  }

  lemma BytesMore(endian: nat -> seq<Byte>, ws: seq<nat>, i: nat)
    requires i < |ws|
    ensures Bytes(endian, ws[..i + 1]) == Bytes(endian, ws[..i]) + endian(ws[i])
  {
    assert ws[..i + 1][..i] == ws[..i];
  }

  /** The number four bytes spell, least significant first. */
  function WordOf(b: seq<Byte>): nat
    requires |b| == 4
  {
    b[0] as int + 0x100 * (b[1] as int) + 0x1_0000 * (b[2] as int) + 0x100_0000 * (b[3] as int)
  }

  lemma WordBytes(w: nat)
    requires w < 0x1_0000_0000
    ensures WordOf(LittleEndian(w)) == w
  {
    assert w / 0x100 / 0x100 == w / 0x1_0000 && w / 0x1_0000 / 0x100 == w / 0x100_0000;
  }

  /** The 64-bit count of a message's bits, high word first and low word first. */
  function BitCountBig(length: nat): seq<Byte> {
    BigEndian(8 * length / 0x1_0000_0000 % 0x1_0000_0000) + BigEndian(8 * length % 0x1_0000_0000)
  }

  function BitCountLittle(length: nat): seq<Byte> {
    LittleEndian(8 * length % 0x1_0000_0000) + LittleEndian(8 * length / 0x1_0000_0000 % 0x1_0000_0000)
  }

  /** The bytes of word `i` stand at 4 * i. */
  lemma {:induction false} BytesAt(endian: nat -> seq<Byte>, ws: seq<nat>, i: nat)
    requires (forall w: nat :: |endian(w)| == 4) && i < |ws|
    ensures |Bytes(endian, ws)| == 4 * |ws| && Bytes(endian, ws)[4 * i..4 * i + 4] == endian(ws[i])
    decreases |ws|
  {
    var front := ws[..|ws| - 1];
    if |ws| > 1 { BytesAt(endian, front, if i < |front| then i else 0); }
    assert |Bytes(endian, front)| == 4 * |front|;
    if i < |front| {
      assert Bytes(endian, ws)[4 * i..4 * i + 4] == Bytes(endian, front)[4 * i..4 * i + 4];
    }
  }

  /** The number eight bytes spell, most significant first. */
  function Number64(b: seq<Byte>): nat
    requires |b| == 8
  {
    var hi := ((b[0] as int * 256 + b[1] as int) * 256 + b[2] as int) * 256 + b[3] as int;
    (((hi * 256 + b[4] as int) * 256 + b[5] as int) * 256 + b[6] as int) * 256 + b[7] as int
  }

  /** The count bytes are the number of bits modulo 2^64, most significant byte first in SHA-1 and last in
      MD5. */
  lemma BitCountsMean(length: nat)
    ensures var n := 8 * length % 0x1_0000_0000_0000_0000;
      && Number64(BitCountBig(length)) == n
      && var b := BitCountLittle(length); Number64([b[7], b[6], b[5], b[4], b[3], b[2], b[1], b[0]]) == n
  {
    var x := 8 * length;
    var hi, lo := x / 0x1_0000_0000 % 0x1_0000_0000, x % 0x1_0000_0000;
    HalvesMean(x);
    BigEndianValue(hi);
    BigEndianValue(lo);
  }

  lemma HalvesMean(x: nat)
    ensures x % 0x1_0000_0000_0000_0000 == x / 0x1_0000_0000 % 0x1_0000_0000 * 0x1_0000_0000 + x % 0x1_0000_0000
  {
    var q, lo := x / 0x1_0000_0000, x % 0x1_0000_0000;
    var k, hi := q / 0x1_0000_0000, q % 0x1_0000_0000;
    assert x == k * 0x1_0000_0000_0000_0000 + (hi * 0x1_0000_0000 + lo);
    Remainder(k, hi * 0x1_0000_0000 + lo);
  }

  lemma Remainder(k: nat, r: nat)
    requires r < 0x1_0000_0000_0000_0000
    ensures (k * 0x1_0000_0000_0000_0000 + r) % 0x1_0000_0000_0000_0000 == r
  {
  }
}
