/** The small-memory allocator as the C code runs it (rt-thread/src/mem.c, and with 24-bit link fields
    board/lua/lua_mem.c): block headers are linked in place inside the heap. */
module SmallHeap {
  import opened Bytes
  import opened HeapBlocks
  import opened HeapLinks
  import opened Sequences
  import opened SmallHeapSpec
  import opened Wrappers

  const RT_MAGIC: nat := 0x1ea0
  const LUA_MAGIC: nat := 0xde

  /** The bytes the callers may use of the used blocks are the same in both views of the heap. */
  ghost predicate SamePayload(bs: seq<Block>, hdr: nat, s: seq<bv8>, t: seq<bv8>) {
    |s| == |t| &&
    forall b :: b in bs && b.used && b.off + hdr <= b.next <= |s| ==> s[b.off + hdr..b.next] == t[b.off + hdr..b.next]
  }

  /** Every link field holds a value its width can represent. */
  ghost predicate Narrow(mem: Memory, fieldMod: nat) {
    forall o :: o in mem ==> mem[o].next < fieldMod && mem[o].prev < fieldMod
  }

  lemma SmallMod(x: nat, n: nat)
    requires x < n
    ensures x % n == x
  {
  }

  /** A header inside a tiled heap, or the sentinel, holds no byte of a used payload. */
  lemma HeaderApart(bs: seq<Block>, hdr: nat, end: nat, off: nat, b: Block, i: nat)
    requires Tiled(bs, hdr, 0, end) && b in bs && b.off + hdr <= i < b.next
    requires off == end || exists c :: c in bs && c.off == off
    ensures !(off <= i < off + hdr)
  {
    var k :| 0 <= k < |bs| && bs[k] == b;
    TiledAt(bs, k, hdr, 0, end);
    if off != end {
      var c :| c in bs && c.off == off;
      var l :| 0 <= l < |bs| && bs[l] == c;
      if k < l { TiledOrdered(bs, k, l, hdr, 0, end); }
      if l < k { TiledOrdered(bs, l, k, hdr, 0, end); }
    }
  }

  /** Used blocks that two steps leave alone keep their payload over both. */
  lemma SamePayloadBoth(a: seq<Block>, b: seq<Block>, bs: seq<Block>, hdr: nat,
                        s: seq<bv8>, t: seq<bv8>, u: seq<bv8>)
    requires SamePayload(a, hdr, s, t) && SamePayload(b, hdr, t, u) && UsedIn(bs, a) && UsedIn(bs, b)
    ensures SamePayload(bs, hdr, s, u)
  {
  }

  /** Rewriting the header of a block or of the sentinel leaves every used payload as it was. */
  lemma HeaderWritten(bs: seq<Block>, hdr: nat, end: nat, off: nat, s: seq<bv8>, t: seq<bv8>)
    requires Tiled(bs, hdr, 0, end) && Around(off, hdr, s, t)
    requires off == end || exists c :: c in bs && c.off == off
    ensures SamePayload(bs, hdr, s, t)
  {
    forall b | b in bs && b.used && b.off + hdr <= b.next <= |s|
      ensures s[b.off + hdr..b.next] == t[b.off + hdr..b.next]
    {
      forall i | b.off + hdr <= i < b.next ensures s[i] == t[i] { HeaderApart(bs, hdr, end, off, b, i); }
    }
  }

  /** The header writes of a split stay clear of every used payload, the first half included. */
  lemma SplitHeaders(bs: seq<Block>, k: nat, mid: nat, hdr: nat, end: nat,
                     s: seq<bv8>, t: seq<bv8>, u: seq<bv8>, v: seq<bv8>)
    requires k < |bs| && Layout(bs, hdr, end) && Layout(Split(bs, k, mid), hdr, end)
    requires Around(mid, hdr, s, t) && Around(bs[k].off, hdr, t, u)
    requires Around(bs[k].next, hdr, u, v)
    requires hdr > 0
    ensures SamePayload(Split(bs, k, mid), hdr, s, v)
  {
    var cs := Split(bs, k, mid);
    assert cs[k] in cs && cs[k + 1] in cs;
    HeaderWritten(cs, hdr, end, mid, s, t);
    HeaderWritten(cs, hdr, end, bs[k].off, t, u);
    assert bs[k].next == end || exists c :: c in cs && c.off == bs[k].next by {
      TiledAt(cs, k + 1, hdr, 0, end);
      if k + 2 < |cs| { assert cs[k + 2] in cs; } else { TiledBounds(cs, hdr, 0, end); }
    }
    HeaderWritten(cs, hdr, end, bs[k].next, u, v);
  }

  /** The first `len` bytes at `p` are found at `q`, and every used payload other than that of `p` is
      as it was. */
  ghost predicate Moved(h: Heap, p: nat, q: nat, len: nat, s: seq<bv8>, t: seq<bv8>) {
    && |s| == |t| && p + len <= |s| && q + len <= |t| && t[q..q + len] == s[p..p + len]
    && (forall b :: b in h.blocks && b.used && b.off + h.c.hdr != p && b.off + h.c.hdr <= b.next <= |s|
          ==> s[b.off + h.c.hdr..b.next] == t[b.off + h.c.hdr..b.next])
  }

  /** Malloc, copy, free: the bytes arrive and no other live payload changes. */
  lemma MovedPayload(h: Heap, h1: Heap, h3: Heap, p: nat, q: nat, len: nat,
                     s0: seq<bv8>, s1: seq<bv8>, s2: seq<bv8>, s3: seq<bv8>)
    requires Inv(h1) && Movable(h, h1, p, q, len) && |s0| >= h1.End()
    requires forall b :: b in h1.blocks && b.used && b != h1.blocks[BlockOf(h1, p)] ==> b in h3.blocks
    requires len <= SizeAt(h1, p) && len <= SizeAt(h1, q)
    requires SamePayload(h.blocks, h.c.hdr, s0, s1) && Copied(p, q, len, s1, s2)
    requires SamePayload(h3.blocks, h.c.hdr, s2, s3)
    ensures Moved(h, p, q, len, s0, s3)
  {
    hide Tiled, NoFreeNeighbours, UsedBytes, FreeAt, Around;
    var bp := h1.blocks[BlockOf(h1, p)];
    var bq := h1.blocks[BlockOf(h1, q)];
    InHeap(h1, p);
    InHeap(h1, q);
    assert s0[p..p + len] == s1[p..p + len] by { SliceOf(s0, s1, p, bp.next, p + len); }
    assert s2[q..q + len] == s3[q..q + len] by { SliceOf(s2, s3, q, bq.next, q + len); }
    forall b | b in h.blocks && b.used && b.off + h.c.hdr != p && b.off + h.c.hdr <= b.next <= |s0|
      ensures s0[b.off + h.c.hdr..b.next] == s3[b.off + h.c.hdr..b.next]
    {
      OtherPayload(h, h1, h3, b, p, q, len, s0, s1, s2, s3);
    }
  }

  lemma OtherPayload(h: Heap, h1: Heap, h3: Heap, b: Block, p: nat, q: nat, len: nat,
                     s0: seq<bv8>, s1: seq<bv8>, s2: seq<bv8>, s3: seq<bv8>)
    requires Inv(h1) && Movable(h, h1, p, q, len)
    requires forall x :: x in h1.blocks && x.used && x != h1.blocks[BlockOf(h1, p)] ==> x in h3.blocks
    requires len <= SizeAt(h1, q) && Copied(p, q, len, s1, s2)
    requires SamePayload(h.blocks, h.c.hdr, s0, s1) && SamePayload(h3.blocks, h.c.hdr, s2, s3)
    requires b in h.blocks && b.used && b.off + h.c.hdr != p && b.off + h.c.hdr <= b.next <= |s0|
    ensures s0[b.off + h.c.hdr..b.next] == s3[b.off + h.c.hdr..b.next]
  {
    hide Tiled, NoFreeNeighbours, UsedBytes, FreeAt, Around;
    InHeap(h1, q);
    MovedElsewhere(h1, b, q);
    AroundSlice(q, len, s1, s2, b.off + h.c.hdr, b.next);
  }

  lemma MovedNowhere(h: Heap, p: nat, len: nat, s: seq<bv8>)
    requires p + len <= |s|
    ensures Moved(h, p, p, len, s, s)
  {
  }

  /** A shrunk block keeps the bytes it still has room for, and every other payload stays. */
  lemma ShrunkPayload(h: Heap, h': Heap, k: nat, n: nat, s: seq<bv8>, t: seq<bv8>)
    requires k < |h.blocks| && h' == Shrink(h, k, n) && h.blocks[k].off + h.c.hdr + n <= |s|
    requires SamePayload(h'.blocks, h.c.hdr, s, t)
    ensures Moved(h, h.blocks[k].off + h.c.hdr, h.blocks[k].off + h.c.hdr, n, s, t)
  {
    var mid := h.blocks[k].off + h.c.hdr + n;
    var cut := Cut(h, k, n);
    SplitUsedIn(h.blocks, k, mid);
    PlugUsedIn(cut, k + 1);
    assert Block(h.blocks[k].off, mid, true) in h'.blocks;
  }

  /** The payload of a live pointer ends inside the heap. */
  lemma InHeap(h: Heap, p: nat)
    requires Inv(h) && Live(h, p)
    ensures SizeAt(h, p) == h.Payload(h.blocks[BlockOf(h, p)]) && p + SizeAt(h, p) <= h.End()
  {
    TiledAt(h.blocks, BlockOf(h, p), h.c.hdr, 0, h.End());
  }

  /** What a successful malloc gives realloc to work with: the old block as it was and another one
      that is large enough. */
  ghost predicate Movable(h: Heap, h1: Heap, p: nat, q: nat, n: nat) {
    && Live(h, p) && Live(h1, p) && Live(h1, q) && p != q
    && h1.blocks[BlockOf(h1, p)] == h.blocks[BlockOf(h, p)] && h1.c == h.c
    && SizeAt(h1, q) >= n && UsedIn(h.blocks, h1.blocks)
    && h1.blocks[BlockOf(h1, q)] !in h.blocks
  }

  lemma HandsMovable(h: Heap, h1: Heap, k: nat, p: nat, n: nat)
    requires Inv(h) && Shape(h1) && Hands(h, h1, k, n) && !h.blocks[k].used && Live(h, p)
    ensures Movable(h, h1, p, h.blocks[k].off + h.c.hdr, n)
  {
    var q := h.blocks[k].off + h.c.hdr;
    hide Tiled, NoFreeNeighbours, UsedBytes;
    assert Live(h1, p) && h1.blocks[BlockOf(h1, p)] == h.blocks[BlockOf(h, p)] && q != p by {
      HandsKeepLive(h, h1, k, n, p);
    }
    assert Live(h1, q) && SizeAt(h1, q) >= n by { HandsHold(h, h1, k, n); }
    assert h1.blocks[BlockOf(h1, q)] !in h.blocks by {
      var b := h1.blocks[BlockOf(h1, q)];
      if b in h.blocks {
        var i :| 0 <= i < |h.blocks| && h.blocks[i] == b;
        if i < k { TiledOrdered(h.blocks, i, k, h.c.hdr, 0, h.End()); }
        if k < i { TiledOrdered(h.blocks, k, i, h.c.hdr, 0, h.End()); }
      }
    }
  }

  lemma MallocMovable(h: Heap, p: nat, n: nat)
    requires Inv(h) && Live(h, p) && n <= h.m && n % 4 == 0 && Malloc(h, n).1.Some?
    ensures Movable(h, Malloc(h, n).0, p, Malloc(h, n).1.value, n)
  {
    hide Malloc;
    var k := MallocTakes(h, n);
    assert Shape(Malloc(h, n).0) by { MallocKeeps(h, n); }
    RequestExact(h, n);
    HandsMovable(h, Malloc(h, n).0, k, p, Request(h, n));
  }

  lemma RequestExact(h: Heap, n: nat)
    requires ValidSize(h.c, h.m) && n <= h.m && n % 4 == 0
    ensures RtAlign(n) == n && Request(h, n) >= n
  {
  }

  /** A used block other than that of a fresh pointer lies clear of its payload. */
  lemma MovedElsewhere(h1: Heap, b: Block, q: nat)
    requires Inv(h1) && b in h1.blocks && Live(h1, q)
    requires b != h1.blocks[BlockOf(h1, q)]
    ensures b.next <= q || h1.blocks[BlockOf(h1, q)].next <= b.off + h1.c.hdr
  {
    PayloadsApart(h1, q, b);
  }

  /** Two live payloads lie in the heap and apart. */
  lemma LiveApart(h: Heap, p: nat, q: nat)
    requires Inv(h) && Live(h, p) && Live(h, q) && p != q
    ensures p + SizeAt(h, p) <= h.End() && q + SizeAt(h, q) <= h.End()
    ensures p + SizeAt(h, p) <= q || q + SizeAt(h, q) <= p
  {
    InHeap(h, p);
    InHeap(h, q);
    PayloadsApart(h, p, h.blocks[BlockOf(h, q)]);
  }

  /** Following `next` from block `k` reaches block `k + 1`, or the sentinel after the last one. */
  lemma FollowNext(mem: Memory, h: Heap, k: nat, magic: nat)
    requires Shape(h) && Linked(mem, h.blocks, 0, magic) && Sentinel(mem, h.End()) && k < |h.blocks|
    ensures var hd := At(mem, h.blocks[k].off);
      hd.used == h.blocks[k].used && hd.next == h.blocks[k].next == OffsetAt(h, k + 1)
    ensures h.blocks[k].off < h.blocks[k].next <= h.End()
  {
    Neighbours(mem, h.blocks, k, h.c.hdr, h.End(), magic);
  }

  class SmallMem {
    const c: Config
    const m: nat
    const magic: nat
    const bytes: array<bv8>
    var mem: Memory
    var lfree: nat
    var usedMem: int
    var maxMem: int
    ghost var blocks: seq<Block>

    ghost function Abs(): Heap
      reads this
    {
      Heap(c, m, blocks, lfree, usedMem, maxMem)
    }

    ghost predicate Repr()
      reads this
    {
      && ValidSize(c, m) && bytes.Length == m + 2 * c.hdr
      && Layout(blocks, c.hdr, m + c.hdr)
      && Linked(mem, blocks, 0, magic) && Sentinel(mem, m + c.hdr) && Narrow(mem, c.fieldMod)
    }

    ghost predicate Valid()
      reads this
    {
      Repr() && Inv(Abs())
    }

    /** The start of the heap: one free block and the sentinel. */
    constructor (cfg: Config, size: nat, mg: nat)
      requires ValidSize(cfg, size)
      ensures Valid() && fresh(bytes) && c == cfg && m == size && magic == mg
      ensures Abs() == Init(cfg, size) && HintLowest(Abs())
    {
      c, m, magic := cfg, size, mg;
      bytes := new bv8[size + 2 * cfg.hdr];
      mem := map[0 := Header(mg, false, size + cfg.hdr, 0),
                 size + cfg.hdr := Header(mg, true, size + cfg.hdr, size + cfg.hdr)];
      lfree, usedMem, maxMem := 0, 0, 0;
      blocks := [Block(0, size + cfg.hdr, false)];
      new;
      InitEstablishes(c, m);
      assert blocks[1..] == [];
    }

    /** Writing a header field: the link fields hold values below `fieldMod`, so a wider value would be
        cut, and the bytes of the header change in memory, those around it do not. */
    method Write(off: nat, h: Header)
      requires Narrow(mem, c.fieldMod) && off + c.hdr <= bytes.Length
      requires h.next < c.fieldMod && h.prev < c.fieldMod
      modifies this`mem, bytes
      ensures mem == old(mem)[off := h] && Narrow(mem, c.fieldMod)
      ensures Around(off, c.hdr, old(bytes[..]), bytes[..])
    {
      var stored := h.(next := h.next % c.fieldMod, prev := h.prev % c.fieldMod);
      assert stored == h by { SmallMod(h.next, c.fieldMod); SmallMod(h.prev, c.fieldMod); }
      mem := mem[off := stored];
      var image: bv8 := *;
      forall i | off <= i < off + c.hdr { bytes[i] := image; }
    }

    /** plug_holes: join a freed block with its free neighbours. */
    method PlugHoles(cur: nat, ghost k: nat)
      requires Repr() && k < |blocks| && cur == blocks[k].off && !blocks[k].used
      modifies this`mem, this`lfree, this`blocks, bytes
      ensures Repr() && Abs() == SmallHeapSpec.PlugHoles(old(Abs()), k)
      ensures SamePayload(old(blocks), c.hdr, old(bytes[..]), bytes[..])
    {
      ghost var bs0 := blocks;
      ghost var s0 := bytes[..];
      JoinNext(cur, k);
      ghost var s1 := bytes[..];
      JoinPrev(cur, k);
      if k + 1 < |bs0| && !bs0[k + 1].used { MergeUsedIn(bs0, k); }
      SamePayloadBoth(bs0, if k + 1 < |bs0| && !bs0[k + 1].used then Merge(bs0, k) else bs0, bs0, c.hdr,
                      s0, s1, bytes[..]);
    }

    /** The forward half of plug_holes. */
    method JoinNext(cur: nat, ghost k: nat)
      requires Repr() && k < |blocks| && cur == blocks[k].off && !blocks[k].used
      modifies this`mem, this`lfree, this`blocks, bytes
      ensures Repr() && Abs() == PlugForward(old(Abs()), k)
      ensures blocks[k].off == cur && !blocks[k].used
      ensures SamePayload(old(blocks), c.hdr, old(bytes[..]), bytes[..])
    {
      var end := m + c.hdr;
      var nmem := At(mem, cur).next;
      assert cur < nmem && (nmem != end <==> k + 1 < |blocks|) by { Neighbours(mem, blocks, k, c.hdr, end, magic); }
      assert nmem != end ==> nmem == blocks[k + 1].off && At(mem, nmem).used == blocks[k + 1].used
                             && At(mem, nmem).next == blocks[k + 1].next by {
        Neighbours(mem, blocks, k, c.hdr, end, magic);
      }
      if cur != nmem && !At(mem, nmem).used && nmem != end {
        if lfree == nmem { lfree := cur; }
        MergeBlocks(cur, At(mem, nmem).next, k);
      }
    }

    /** The backward half of plug_holes. */
    method JoinPrev(cur: nat, ghost k: nat)
      requires Repr() && k < |blocks| && cur == blocks[k].off && !blocks[k].used
      modifies this`mem, this`lfree, this`blocks, bytes
      ensures Repr() && Abs() == PlugBackward(old(Abs()), k)
      ensures SamePayload(old(blocks), c.hdr, old(bytes[..]), bytes[..])
    {
      var pmem := At(mem, cur).prev;
      assert At(mem, cur).next == blocks[k].next && (pmem != cur <==> k > 0) by {
        Neighbours(mem, blocks, k, c.hdr, m + c.hdr, magic);
      }
      assert k > 0 ==> pmem == blocks[k - 1].off && At(mem, pmem).used == blocks[k - 1].used by {
        Neighbours(mem, blocks, k, c.hdr, m + c.hdr, magic);
      }
      if pmem != cur && !At(mem, pmem).used {
        if lfree == cur { lfree := pmem; }
        MergeBlocks(pmem, At(mem, cur).next, k - 1);
      }
    }

    /** Let the free block at `cur` absorb the free block after it, which ends at `after`. */
    method MergeBlocks(cur: nat, after: nat, ghost k: nat)
      requires Repr() && k + 1 < |blocks| && cur == blocks[k].off && after == blocks[k + 1].next
      modifies this`mem, this`blocks, bytes
      ensures Repr() && blocks == Merge(old(blocks), k)
      ensures SamePayload(old(blocks), c.hdr, old(bytes[..]), bytes[..])
    {
      ghost var end := m + c.hdr;
      ghost var mem0 := mem;
      Relink(cur, after, k, k + 1);
      ghost var bs := Merge(blocks, k);
      assert Linked(mem, bs, 0, magic) by { LinkedMerge(mem0, mem, blocks, 0, k, c.hdr, end, magic); }
      assert Layout(bs, c.hdr, end) by { MergeLayout(blocks, k, c.hdr, end); }
      blocks := bs;
    }

    /** Make `after` follow `cur`: cur->next = after and after->prev = cur. */
    method Relink(cur: nat, after: nat, ghost k: nat, ghost l: nat)
      requires Repr() && k < l < |blocks| && cur == blocks[k].off && after == blocks[l].next
      modifies this`mem, bytes
      ensures mem == old(mem)[cur := At(old(mem), cur).(next := after)]
                             [after := At(old(mem), after).(prev := cur)]
      ensures cur < after && Sentinel(mem, m + c.hdr) && Narrow(mem, c.fieldMod)
      ensures SamePayload(blocks, c.hdr, old(bytes[..]), bytes[..])
    {
      ghost var end := m + c.hdr;
      TiledOrdered(blocks, k, l, c.hdr, 0, end);
      TiledAt(blocks, l, c.hdr, 0, end);
      TiledBounds(blocks, c.hdr, 0, end);
      ghost var s0 := bytes[..];
      Write(cur, At(mem, cur).(next := after));
      ghost var s1 := bytes[..];
      Write(after, At(mem, after).(prev := cur));
      HeaderWritten(blocks, c.hdr, end, cur, s0, s1);
      HeaderWritten(blocks, c.hdr, end, after, s1, bytes[..]);
    }

    /** rt_free. */
    method Free(rmem: Option<nat>)
      requires Valid() && LegalPtr(Abs(), rmem)
      modifies this`mem, this`lfree, this`usedMem, this`blocks, bytes
      ensures Valid() && Abs() == SmallHeapSpec.Free(old(Abs()), rmem)
      ensures SamePayload(blocks, c.hdr, old(bytes[..]), bytes[..])
    {
      if rmem.None? || rmem.value >= m + c.hdr { return; }
      ghost var k := BlockOf(Abs(), rmem.value);
      FreeBlockKeeps(Abs(), k);
      ReleaseBlock(rmem.value - c.hdr, k);
    }

    /** The part of rt_free under the lock. */
    method ReleaseBlock(cur: nat, ghost k: nat)
      requires Valid() && k < |blocks| && cur == blocks[k].off && blocks[k].used
      modifies this`mem, this`lfree, this`usedMem, this`blocks, bytes
      ensures Repr() && Abs() == FreeBlock(old(Abs()), k)
      ensures SamePayload(blocks, c.hdr, old(bytes[..]), bytes[..])
    {
      ghost var h0 := Abs();
      ghost var s0 := bytes[..];
      ClearFlag(cur, k);
      if cur < lfree { lfree := cur; }
      assert At(mem, cur).next == blocks[k].next by { FollowNext(mem, Abs(), k, magic); }
      usedMem := usedMem - (At(mem, cur).next - cur);
      ghost var h1 := Abs();
      assert h1 == ClearUsed(h0, k);
      ghost var s1 := bytes[..];
      PlugHoles(cur, k);
      assert UsedIn(h1.blocks, h0.blocks) by { MarkFreeUsedIn(h0.blocks, k); }
      assert UsedIn(blocks, h1.blocks) by { PlugUsedIn(h1, k); }
      SamePayloadBoth(h0.blocks, h1.blocks, blocks, c.hdr, s0, s1, bytes[..]);
    }

    method ClearFlag(cur: nat, ghost k: nat)
      requires Repr() && k < |blocks| && cur == blocks[k].off && blocks[k].used
      modifies this`mem, this`blocks, bytes
      ensures Repr() && blocks == Mark(old(blocks), k, false)
      ensures SamePayload(old(blocks), c.hdr, old(bytes[..]), bytes[..])
    {
      ghost var end := m + c.hdr;
      Neighbours(mem, blocks, k, c.hdr, end, magic);
      assert At(mem, cur).used && At(mem, cur).magic == magic;
      ghost var mem0 := mem;
      ghost var s0 := bytes[..];
      Write(cur, At(mem, cur).(used := false, magic := 0));
      assert Linked(mem, Mark(blocks, k, false), 0, magic) by {
        LinkedMark(mem0, mem, blocks, 0, k, false, c.hdr, end, magic);
      }
      assert Layout(Mark(blocks, k, false), c.hdr, end) by { MarkLayout(blocks, k, false, c.hdr, end); }
      HeaderWritten(blocks, c.hdr, end, cur, s0, bytes[..]);
      blocks := Mark(blocks, k, false);
    }

    /** Cut block `k` in two at `mid`; the first half is used, the second is free. */
    method SplitAt(cur: nat, mid: nat, stamp: bool, ghost k: nat)
      requires Repr() && k < |blocks| && cur == blocks[k].off && mid % 4 == 0
      requires cur + c.hdr <= mid && mid + c.hdr < blocks[k].next
      modifies this`mem, this`blocks, bytes
      ensures Repr() && blocks == Split(old(blocks), k, mid)
      ensures SamePayload(blocks, c.hdr, old(bytes[..]), bytes[..])
    {
      hide Tiled, Linked, UsedBytes, SamePayload, Split;
      ghost var bs := Split(blocks, k, mid);
      ghost var mem0 := mem;
      assert Layout(bs, c.hdr, m + c.hdr) by { SplitLayout(blocks, k, mid, c.hdr, m + c.hdr); }
      WriteHalves(cur, mid, stamp, k);
      assert Linked(mem, bs, 0, magic) by { LinkedSplit(mem0, mem, blocks, 0, k, mid, c.hdr, m + c.hdr, magic); }
      blocks := bs;
    }

    /** The header writes of a split: the new block between `cur` and what follows it. */
    method WriteHalves(cur: nat, mid: nat, stamp: bool, ghost k: nat)
      requires Repr() && k < |blocks| && cur == blocks[k].off
      requires cur + c.hdr <= mid && mid + c.hdr < blocks[k].next
      requires Layout(Split(blocks, k, mid), c.hdr, m + c.hdr)
      modifies this`mem, bytes
      ensures var after := blocks[k].next;
        var m1 := old(mem)[mid := Header(if stamp then magic else At(old(mem), mid).magic, false, after, cur)]
                          [cur := At(old(mem), cur).(next := mid, used := true, magic := magic)];
        mem == if after == m + c.hdr then m1 else m1[after := At(old(mem), after).(prev := mid)]
      ensures Sentinel(mem, m + c.hdr) && Narrow(mem, c.fieldMod)
      ensures SamePayload(Split(blocks, k, mid), c.hdr, old(bytes[..]), bytes[..])
    {
      hide Tiled, Linked, UsedBytes, SamePayload, Split;
      var end := m + c.hdr;
      var after := At(mem, cur).next;
      assert after == blocks[k].next <= end by { Neighbours(mem, blocks, k, c.hdr, end, magic); }
      ghost var s0 := bytes[..];
      Write(mid, Header(if stamp then magic else At(mem, mid).magic, false, after, cur));
      ghost var s1 := bytes[..];
      Write(cur, At(mem, cur).(next := mid, used := true, magic := magic));
      ghost var s2 := bytes[..];
      if after != end {
        Write(after, At(mem, after).(prev := mid));
      }
      SplitHeaders(blocks, k, mid, c.hdr, end, s0, s1, s2, bytes[..]);
    }

    /** rt_malloc. */
    method Malloc(size: nat) returns (r: Option<nat>)
      requires Valid() && size < WORD
      modifies this`mem, this`lfree, this`usedMem, this`maxMem, this`blocks, bytes
      ensures Valid() && Abs() == SmallHeapSpec.Malloc(old(Abs()), size).0
      ensures r == SmallHeapSpec.Malloc(old(Abs()), size).1
      ensures SamePayload(old(blocks), c.hdr, old(bytes[..]), bytes[..])
    {
      hide SmallHeapSpec.Malloc, Take;
      ghost var h := Abs();
      MallocAt(h, size);
      if size == 0 { return None; }
      var n := RtAlign(size);
      if n > m { return None; }
      if n < c.minSize { n := c.minSize; }
      RequestAligned(h, size);
      var ptr, k := Search(n);
      if ptr.None? { return None; }
      TakeBlock(ptr.value, n, k);
      assert Inv(Abs()) by { MallocKeeps(h, size); }
      return Some(ptr.value + c.hdr);
    }

    /** The loop of rt_malloc: walk from the hint to the first block that can hold `n` bytes. */
    method Search(n: nat) returns (r: Option<nat>, ghost k: nat)
      requires Valid() && n <= m
      ensures k == FindFit(Abs(), n, 0)
      ensures r == if k < |blocks| then Some(blocks[k].off) else None
    {
      var ptr := lfree;
      k := HintIndex(Abs(), n);
      while ptr < m - n
        invariant k <= |blocks| && ptr == OffsetAt(Abs(), k) && ptr >= lfree
        invariant FindFit(Abs(), n, 0) == FindFit(Abs(), n, k)
        decreases |blocks| - k
      {
        FollowNext(mem, Abs(), k, magic);
        var next := At(mem, ptr).next;
        if !At(mem, ptr).used && next - (ptr + c.hdr) >= n {
          assert Candidate(Abs(), blocks[k], n);
          return Some(ptr), k;
        }
        ptr := next;
        k := k + 1;
      }
      SearchEnds(Abs(), n, k);
      return None, |blocks|;
    }

    /** Hand out block `k`: the body of the search loop of rt_malloc. */
    method TakeBlock(cur: nat, n: nat, ghost k: nat)
      requires Valid() && k < |blocks| && cur == blocks[k].off && n % 4 == 0
      requires Candidate(Abs(), blocks[k], n)
      modifies this`mem, this`lfree, this`usedMem, this`maxMem, this`blocks, bytes
      ensures Repr() && Abs() == Take(old(Abs()), k, n)
      ensures SamePayload(old(blocks), c.hdr, old(bytes[..]), bytes[..])
    {
      hide Tiled, Linked, UsedBytes, NoFreeNeighbours, SamePayload, AdvanceHint;
      CarveBlock(cur, n, k);
      assert blocks[k].off == cur;
      MoveHint(cur, k);
    }

    /** Split or use whole, and count the bytes. */
    method CarveBlock(cur: nat, n: nat, ghost k: nat)
      requires Valid() && k < |blocks| && cur == blocks[k].off && n % 4 == 0
      requires Fits(Abs(), blocks[k], n)
      modifies this`mem, this`usedMem, this`maxMem, this`blocks, bytes
      ensures Repr() && blocks == Carve(old(Abs()), k, n)
      ensures Abs() == Raise(old(Abs()).(blocks := blocks), blocks[k].next - blocks[k].off)
      ensures SamePayload(old(blocks), c.hdr, old(bytes[..]), bytes[..])
    {
      hide Tiled, Linked, UsedBytes, NoFreeNeighbours;
      ghost var bs0, s0 := blocks, bytes[..];
      assert At(mem, cur).next == blocks[k].next by { FollowNext(mem, Abs(), k, magic); }
      if At(mem, cur).next - (cur + c.hdr) >= n + c.hdr + c.minSize {
        assert (cur + c.hdr + n) % 4 == 0 by { MidAligned(Abs(), k, n); }
        SplitAt(cur, cur + c.hdr + n, false, k);
        assert UsedIn(bs0, blocks) by { SplitUsedIn(bs0, k, cur + c.hdr + n); }
        usedMem := usedMem + (n + c.hdr);
      } else {
        SetFlag(cur, k);
        usedMem := usedMem + (At(mem, cur).next - cur);
      }
      if maxMem < usedMem { maxMem := usedMem; }
    }

    method SetFlag(cur: nat, ghost k: nat)
      requires Repr() && k < |blocks| && cur == blocks[k].off && !blocks[k].used
      modifies this`mem, this`blocks, bytes
      ensures Repr() && blocks == Mark(old(blocks), k, true)
      ensures At(mem, cur).next == blocks[k].next
      ensures SamePayload(old(blocks), c.hdr, old(bytes[..]), bytes[..])
    {
      ghost var end := m + c.hdr;
      Neighbours(mem, blocks, k, c.hdr, end, magic);
      ghost var mem0 := mem;
      ghost var s0 := bytes[..];
      Write(cur, At(mem, cur).(used := true, magic := magic));
      assert Linked(mem, Mark(blocks, k, true), 0, magic) by {
        LinkedMark(mem0, mem, blocks, 0, k, true, c.hdr, end, magic);
      }
      assert Layout(Mark(blocks, k, true), c.hdr, end) by { MarkLayout(blocks, k, true, c.hdr, end); }
      HeaderWritten(blocks, c.hdr, end, cur, s0, bytes[..]);
      blocks := Mark(blocks, k, true);
    }

    /** When the hint has just been taken, walk to the next free block or to the sentinel. */
    method MoveHint(taken: nat, ghost k: nat)
      requires Repr() && k < |blocks| && blocks[k].off == taken
      modifies this`lfree
      ensures Repr() && Abs() == AdvanceHint(old(Abs()), taken)
    {
      if taken == lfree {
        WalkToFree(k);
      }
    }

    method WalkToFree(ghost i: nat)
      requires Repr() && i < |blocks| && blocks[i].off == lfree
      modifies this`lfree
      ensures Repr() && lfree == OffsetAt(old(Abs()), NextFree(blocks, old(lfree), 0))
    {
      ghost var h := Abs();
      ghost var k := i;
      NextFreeSkips(h, i);
      while At(mem, lfree).used && lfree != m + c.hdr
        invariant k <= |blocks| && lfree == OffsetAt(h, k) && lfree >= h.lfree
        invariant NextFree(blocks, h.lfree, 0) == NextFree(blocks, h.lfree, k)
        decreases |blocks| - k
      {
        FollowNext(mem, h, k, magic);
        lfree := At(mem, lfree).next;
        k := k + 1;
      }
      if k < |blocks| { FollowNext(mem, h, k, magic); }
    }

    /** rt_realloc. */
    method Realloc(rmem: Option<nat>, size: nat) returns (r: Option<nat>)
      requires Valid() && size < WORD && LegalPtr(Abs(), rmem)
      modifies this`mem, this`lfree, this`usedMem, this`maxMem, this`blocks, bytes
      ensures Valid() && Abs() == SmallHeapSpec.Realloc(old(Abs()), rmem, size).0
      ensures r == SmallHeapSpec.Realloc(old(Abs()), rmem, size).1
      ensures rmem.Some? && rmem.value < m + c.hdr && r.Some? ==>
        Moved(old(Abs()), rmem.value, r.value, Min(SizeAt(old(Abs()), rmem.value), RtAlign(size)),
              old(bytes[..]), bytes[..])
      ensures rmem.Some? && r.None? ==> SamePayload(old(blocks), c.hdr, old(bytes[..]), bytes[..])
    {
      var n := RtAlign(size);
      if n > m { return None; }
      if rmem.None? {
        r := Malloc(n);
        return;
      }
      if rmem.value >= m + c.hdr { return rmem; }
      r := Resize(rmem.value, n);
    }

    /** rt_realloc of a live pointer. */
    method Resize(p: nat, n: nat) returns (r: Option<nat>)
      requires Valid() && Live(Abs(), p) && p < m + c.hdr && n <= m && n % 4 == 0
      modifies this`mem, this`lfree, this`usedMem, this`maxMem, this`blocks, bytes
      ensures Valid()
      ensures Abs() == (if SizeAt(old(Abs()), p) == n then old(Abs())
                        else if n + c.hdr + c.minSize < SizeAt(old(Abs()), p)
                        then Shrink(old(Abs()), BlockOf(old(Abs()), p), n)
                        else Relocate(old(Abs()), p, n).0)
      ensures r == (if SizeAt(old(Abs()), p) == n || n + c.hdr + c.minSize < SizeAt(old(Abs()), p)
                    then Some(p) else Relocate(old(Abs()), p, n).1)
      ensures r.Some? ==> Moved(old(Abs()), p, r.value, Min(SizeAt(old(Abs()), p), n), old(bytes[..]), bytes[..])
      ensures r.None? ==> SamePayload(old(blocks), c.hdr, old(bytes[..]), bytes[..])
    {
      hide Relocate, Shrink, Tiled, Linked, UsedBytes, NoFreeNeighbours, Moved, SamePayload, FreeAt;
      var cur := p - c.hdr;
      ghost var k := BlockOf(Abs(), p);
      assert At(mem, cur).next == blocks[k].next by { FollowNext(mem, Abs(), k, magic); }
      assert blocks[k].off + c.hdr <= blocks[k].next by { InHeap(Abs(), p); }
      var size := At(mem, cur).next - cur - c.hdr;
      assert size == SizeAt(Abs(), p) && p + size <= bytes.Length by { InHeap(Abs(), p); }
      if size == n {
        assert Moved(Abs(), p, p, n, bytes[..], bytes[..]) by { MovedNowhere(Abs(), p, n, bytes[..]); }
        return Some(p);
      }
      if n + c.hdr + c.minSize < size {
        ghost var h := Abs();
        ghost var s0 := bytes[..];
        ShrinkInPlace(cur, n, k);
        assert Moved(h, p, p, n, s0, bytes[..]) by { ShrunkPayload(h, Abs(), k, n, s0, bytes[..]); }
        return Some(p);
      }
      r := MoveBlock(p, size, n);
    }

    /** The split branch of rt_realloc. */
    method ShrinkInPlace(cur: nat, n: nat, ghost k: nat)
      requires Valid() && k < |blocks| && cur == blocks[k].off && blocks[k].used && n % 4 == 0
      requires n + c.hdr + c.minSize < blocks[k].next - cur - c.hdr
      modifies this`mem, this`lfree, this`usedMem, this`blocks, bytes
      ensures Valid() && Abs() == Shrink(old(Abs()), k, n)
      ensures SamePayload(blocks, c.hdr, old(bytes[..]), bytes[..])
    {
      hide Tiled, Linked, UsedBytes, NoFreeNeighbours, SamePayload, SmallHeapSpec.PlugHoles;
      ghost var h := Abs();
      ghost var s0 := bytes[..];
      assert (cur + c.hdr + n) % 4 == 0 by { MidAligned(h, k, n); }
      assert At(mem, cur).next == blocks[k].next by { FollowNext(mem, h, k, magic); }
      usedMem := usedMem - ((At(mem, cur).next - cur - c.hdr) - n);
      SplitAt(cur, cur + c.hdr + n, true, k);
      ghost var h1 := Abs();
      assert h1 == Cut(h, k, n);
      ghost var s1 := bytes[..];
      PlugHoles(cur + c.hdr + n, k + 1);
      assert Inv(Abs()) by { ShrinkKeeps(h, k, n); }
      assert UsedIn(blocks, h1.blocks) by { PlugUsedIn(h1, k + 1); }
      SamePayloadBoth(h1.blocks, h1.blocks, blocks, c.hdr, s0, s1, bytes[..]);
    }

    /** The last branch of rt_realloc: a new block, a copy of the bytes that fit, and the old block freed. */
    method MoveBlock(p: nat, oldSize: nat, n: nat) returns (r: Option<nat>)
      requires Valid() && Live(Abs(), p) && p < m + c.hdr && n <= m && n % 4 == 0
      requires oldSize == SizeAt(Abs(), p)
      modifies this`mem, this`lfree, this`usedMem, this`maxMem, this`blocks, bytes
      ensures Valid() && Abs() == Relocate(old(Abs()), p, n).0 && r == Relocate(old(Abs()), p, n).1
      ensures r.None? ==> SamePayload(old(blocks), c.hdr, old(bytes[..]), bytes[..])
      ensures r.Some? ==> Moved(old(Abs()), p, r.value, Min(oldSize, n), old(bytes[..]), bytes[..])
    {
      hide SmallHeapSpec.Malloc, FreeBlock, Moved, Copied, SamePayload, Tiled, Linked, UsedBytes, NoFreeNeighbours, FreeAt;
      ghost var h := Abs();
      ghost var s0 := bytes[..];
      r := Malloc(n);
      ghost var h1 := Abs();
      ghost var s1 := bytes[..];
      if r.None? { return; }
      assert Movable(h, h1, p, r.value, n) by { MallocMovable(h, p, n); }
      var len := if oldSize < n then oldSize else n;
      assert r.value + len <= m + c.hdr && p + len <= m + c.hdr && (r.value + len <= p || p + len <= r.value) by {
        LiveApart(h1, p, r.value);
      }
      CopyBytes(bytes, r.value, p, len);
      ghost var s2 := bytes[..];
      Free(Some(p));
      assert forall b :: b in h1.blocks && b.used && b != h1.blocks[BlockOf(h1, p)] ==> b in blocks by {
        FreeBlockOthers(h1, BlockOf(h1, p));
      }
      MovedPayload(h, h1, Abs(), p, r.value, Min(oldSize, n), s0, s1, s2, bytes[..]);
    }
  }

  /** The two heaps ask for at least a minimal payload between `begin` and `end`, and for offsets their
      links can hold. */
  ghost predicate LargeEnough(c: Config, begin: nat, end: nat) {
    InitSize(c, begin, end).Some? ==> ValidSize(c, InitSize(c, begin, end).value)
  }

  /** Heap initialisation over an address range; nothing when the range cannot hold two headers. */
  method HeapInit(c: Config, magic: nat, begin: nat, end: nat) returns (heap: Option<SmallMem>)
    requires ValidConfig(c) && begin < WORD && end < WORD && LargeEnough(c, begin, end)
    ensures heap.None? <==> InitSize(c, begin, end).None?
    ensures heap.Some? ==>
      && fresh(heap.value) && fresh(heap.value.bytes) && heap.value.Valid() && HintLowest(heap.value.Abs())
      && heap.value.Abs() == Init(c, InitSize(c, begin, end).value) && heap.value.magic == magic
  {
    var beginAlign := RtAlign(begin);
    var endAlign := RtAlignDown(end);
    if endAlign > 2 * c.hdr && endAlign - 2 * c.hdr >= beginAlign {
      var h := new SmallMem(c, endAlign - beginAlign - 2 * c.hdr, magic);
      return Some(h);
    }
    return None;
  }

  /** rt_system_heap_init. */
  method RtSystemHeapInit(begin: nat, end: nat) returns (heap: Option<SmallMem>)
    requires begin < WORD && end < WORD && LargeEnough(RT_HEAP, begin, end)
    ensures heap.None? <==> InitSize(RT_HEAP, begin, end).None?
    ensures heap.Some? ==> heap.value.Valid() && heap.value.Abs() == Init(RT_HEAP, InitSize(RT_HEAP, begin, end).value)
  {
    heap := HeapInit(RT_HEAP, RT_MAGIC, begin, end);
  }

  /** lua_system_heap_init: the 24-bit links hold every offset when the heap is below 2^24 bytes. */
  method LuaSystemHeapInit(begin: nat, end: nat) returns (heap: Option<SmallMem>)
    requires begin < WORD && end < WORD && LargeEnough(LUA_HEAP, begin, end)
    ensures heap.None? <==> InitSize(LUA_HEAP, begin, end).None?
    ensures heap.Some? ==> heap.value.Valid() && heap.value.Abs() == Init(LUA_HEAP, InitSize(LUA_HEAP, begin, end).value)
  {
    heap := HeapInit(LUA_HEAP, LUA_MAGIC, begin, end);
  }
}
