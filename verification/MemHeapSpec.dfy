/** The abstract memory-heap pool (memheap.c): an address-ordered list of blocks and, in the order of
    the free ring, the offsets of the free ones. Every part of a call that runs under the pool's lock
    is one step, so that the calls of several threads interleave between these parts. */
module MemHeapSpec {
  import opened HeapBlocks
  import opened Sequences
  import opened Wrappers

  /** `end` is the offset of the tail block, a used block without payload; `size` is pool_size. A
      header takes 24 bytes, the least payload is 12. */
  datatype Pool = Pool(size: nat, blocks: seq<Block>, free: seq<nat>, available: int, maxUsed: int) {
    function End(): int { size - 24 }
  }

  /** MEMITEM_SIZE. */
  function Payload(b: Block): int {
    b.next - b.off - 24
  }

  predicate ValidSize(size: nat) {
    48 <= size < WORD - 36 && size % 4 == 0
  }

  /** rt_memheap_init on a pool of `size` bytes after alignment. */
  function Init(size: nat): Pool
    requires ValidSize(size)
  {
    Pool(size, [Block(0, size - 24, false)], [0], size - 48, 48)
  }

  /** max_used_size follows the bytes in use. */
  function Note(h: Pool): Pool {
    var used := h.size - h.available;
    h.(maxUsed := if h.maxUsed < used then used else h.maxUsed)
  }

  /** The size that is served: aligned, and at least the minimum. */
  function Request(size: nat): nat {
    var n := RtAlign(size);
    if n < 12 then 12 else n
  }

  function PayloadAt(bs: seq<Block>, off: nat): int {
    var k := IndexOf(bs, off, 0);
    if k < |bs| then Payload(bs[k]) else -1
  }

  /** The first block on the free ring that holds `n` bytes. */
  function FirstFit(bs: seq<Block>, free: seq<nat>, n: nat): (i: nat)
    ensures i <= |free|
    ensures i < |free| ==> PayloadAt(bs, free[i]) >= n
    ensures forall j :: 0 <= j < i ==> PayloadAt(bs, free[j]) < n
  {
    if free == [] || PayloadAt(bs, free[0]) >= n then 0 else 1 + FirstFit(bs, free[1..], n)
  }

  /** Hand out block `k` for `n` bytes: split when the rest can hold a header and a minimal payload. */
  function Take(h: Pool, k: nat, n: nat): Pool
    requires k < |h.blocks|
  {
    var b := h.blocks[k];
    var rest := Without(h.free, b.off);
    if Payload(b) >= n + 24 + 12 then
      Note(h.(blocks := Split(h.blocks, k, b.off + 24 + n), free := [b.off + 24 + n] + rest,
              available := h.available - n - 24))
    else
      Note(h.(blocks := Mark(h.blocks, k, true), free := rest, available := h.available - Payload(b)))
  }

  /** The part of rt_memheap_alloc that runs under the lock: search the free ring and take. */
  function Fetch(h: Pool, size: nat): (Pool, Option<nat>) {
    var n := Request(size);
    var i := FirstFit(h.blocks, h.free, n);
    if i == |h.free| then (h, None)
    else
      var k := IndexOf(h.blocks, h.free[i], 0);
      if k == |h.blocks| then (h, None) else (Take(h, k, n), Some(h.free[i] + 24))
  }

  /** rt_memheap_alloc, when nobody comes between its look at available_size and its lock. */
  function Alloc(h: Pool, size: nat): (Pool, Option<nat>) {
    if Request(size) >= h.available then (h, None) else Fetch(h, size)
  }

  predicate Live(h: Pool, p: nat) {
    var k := IndexOf(h.blocks, p - 24, 0);
    k < |h.blocks| && h.blocks[k].used
  }

  function BlockOf(h: Pool, p: nat): (k: nat)
    requires Live(h, p)
    ensures k < |h.blocks| && h.blocks[k].off + 24 == p && h.blocks[k].used
  {
    IndexOf(h.blocks, p - 24, 0)
  }

  /** The used bit is cleared and the payload counted; the block is on no ring yet. */
  function Released(h: Pool, k: nat): Pool
    requires k < |h.blocks|
  {
    h.(blocks := Mark(h.blocks, k, false), available := h.available + Payload(h.blocks[k]))
  }

  /** Block `k` joins the free block before it, which keeps its place on the free ring. */
  function JoinLeft(h: Pool, k: nat): Pool
    requires 0 < k < |h.blocks|
  {
    h.(blocks := Merge(h.blocks, k - 1), available := h.available + 24)
  }

  /** Block `k` takes in the block after it when that is free. */
  function JoinRight(h: Pool, k: nat): Pool
    requires k < |h.blocks|
  {
    if k + 1 < |h.blocks| && !h.blocks[k + 1].used then
      h.(blocks := Merge(h.blocks, k), free := Without(h.free, h.blocks[k + 1].off), available := h.available + 24)
    else h
  }

  function Insert(h: Pool, off: nat): Pool {
    h.(free := [off] + h.free)
  }

  /** rt_memheap_free of block `k`. */
  function FreeBlock(h: Pool, k: nat): Pool
    requires k < |h.blocks|
  {
    var r := Released(h, k);
    if k > 0 && !h.blocks[k - 1].used then JoinRight(JoinLeft(r, k), k - 1)
    else Insert(JoinRight(r, k), h.blocks[k].off)
  }

  /** The next block is free and large enough to give the missing bytes and stay a block. */
  predicate CanGrow(h: Pool, k: nat, n: nat)
    requires k < |h.blocks|
  {
    && k + 1 < |h.blocks| && !h.blocks[k + 1].used
    && Payload(h.blocks[k + 1]) + Payload(h.blocks[k]) > n + 12
  }

  /** The boundary between block `k` and the free block after it moves up. */
  function Grow(h: Pool, k: nat, n: nat): Pool
    requires k < |h.blocks| && CanGrow(h, k, n)
  {
    var off := h.blocks[k].off;
    Note(h.(blocks := Split(Merge(h.blocks, k), k, off + 24 + n),
            free := [off + 24 + n] + Without(h.free, h.blocks[k + 1].off),
            available := h.available - (n - Payload(h.blocks[k]))))
  }

  /** The part of realloc that cuts block `k` down to `n` bytes; the rest joins a free block after it. */
  function Shrink(h: Pool, k: nat, n: nat): Pool
    requires k < |h.blocks|
  {
    var mid := h.blocks[k].off + 24 + n;
    Insert(JoinRight(Cut(h, k, n), k + 1), mid)
  }

  function Cut(h: Pool, k: nat, n: nat): Pool
    requires k < |h.blocks|
  {
    h.(blocks := Split(h.blocks, k, h.blocks[k].off + 24 + n), available := h.available + (Payload(h.blocks[k]) - n - 24))
  }

  /** realloc leaves a block alone unless a header and more than a minimal payload come free. */
  predicate Shrinks(h: Pool, k: nat, n: nat)
    requires k < |h.blocks|
  {
    n + 24 + 12 < Payload(h.blocks[k])
  }

  predicate LegalPtr(h: Pool, p: Option<nat>) {
    p.Some? ==> Live(h, p.value)
  }

  function Free(h: Pool, p: Option<nat>): Pool
    requires LegalPtr(h, p)
  {
    if p.None? then h else FreeBlock(h, BlockOf(h, p.value))
  }

  function Relocate(h: Pool, p: nat, n: nat): (Pool, Option<nat>) {
    var h1 := Alloc(h, n).0;
    var q := Alloc(h, n).1;
    (if q.Some? && Live(h1, p) then FreeBlock(h1, BlockOf(h1, p)) else h1, q)
  }

  /** rt_memheap_realloc. */
  function Realloc(h: Pool, p: Option<nat>, newsize: nat): (Pool, Option<nat>)
    requires LegalPtr(h, p)
  {
    if newsize == 0 then (Free(h, p), None)
    else if p.None? then Alloc(h, Request(newsize))
    else
      var n, k := Request(newsize), BlockOf(h, p.value);
      if n > Payload(h.blocks[k]) then
        if CanGrow(h, k, n) then (Grow(h, k, n), p) else Relocate(h, p.value, n)
      else if Shrinks(h, k, n) then (Shrink(h, k, n), p) else (h, p)
  }

  // ----- invariant ----------------------------------------------------------------------------

  function FreeExtent(b: Block): int {
    if b.used then 0 else Payload(b)
  }

  /** The payload bytes of the free blocks. */
  function FreeBytes(bs: seq<Block>): int {
    if bs == [] then 0 else FreeExtent(bs[0]) + FreeBytes(bs[1..])
  }

  ghost predicate Shape(h: Pool) {
    ValidSize(h.size) && h.blocks != [] && Tiled(h.blocks, 24, 0, h.End())
  }

  /** The free ring holds exactly the free blocks, each once; block at `x` apart. */
  ghost predicate RingBut(h: Pool, x: int) {
    && NoDup(h.free) && x !in h.free
    && forall off: nat :: off != x ==> (off in h.free <==> FreeAt(h.blocks, off))
  }

  ghost predicate Accounts(h: Pool) {
    h.available == FreeBytes(h.blocks)
  }

  ghost predicate Inv(h: Pool) {
    && Shape(h) && NoFreeNeighbours(h.blocks) && RingBut(h, -1) && Accounts(h)
    && h.maxUsed >= h.size - h.available
  }

  lemma InitEstablishes(size: nat)
    requires ValidSize(size)
    ensures Inv(Init(size))
  {
    var b := Block(0, size - 24, false);
    assert [b][1..] == [] && FreeBytes([b]) == size - 48;
    assert b in [b];
  }

  lemma {:induction false} FreeBytesConcat(a: seq<Block>, b: seq<Block>)
    ensures FreeBytes(a + b) == FreeBytes(a) + FreeBytes(b)
    decreases |a|
  {
    if a == [] {
      assert a + b == b;
    } else {
      assert (a + b)[1..] == a[1..] + b;
      FreeBytesConcat(a[1..], b);
    }
  }

  lemma FreeBytesPair(x: Block, y: Block)
    ensures FreeBytes([x]) == FreeExtent(x) && FreeBytes([x, y]) == FreeExtent(x) + FreeExtent(y)
  {
    assert [x, y] == [x] + [y];
    FreeBytesConcat([x], [y]);
  }

  lemma FreeBytesReplace(bs: seq<Block>, k: nat, mid: seq<Block>, l: nat)
    requires k <= l <= |bs|
    ensures FreeBytes(bs[..k] + mid + bs[l..]) == FreeBytes(bs) - FreeBytes(bs[k..l]) + FreeBytes(mid)
  {
    assert bs == bs[..k] + bs[k..l] + bs[l..];
    FreeBytesConcat(bs[..k] + bs[k..l], bs[l..]);
    FreeBytesConcat(bs[..k], bs[k..l]);
    FreeBytesConcat(bs[..k] + mid, bs[l..]);
    FreeBytesConcat(bs[..k], mid);
  }

  lemma FreeBytesMark(bs: seq<Block>, k: nat, used: bool)
    requires k < |bs|
    ensures FreeBytes(Mark(bs, k, used)) == FreeBytes(bs) - FreeExtent(bs[k]) + FreeExtent(bs[k].(used := used))
  {
    FreeBytesReplace(bs, k, [bs[k].(used := used)], k + 1);
    assert bs[k..k + 1] == [bs[k]];
  }

  lemma FreeBytesSplit(bs: seq<Block>, k: nat, mid: nat)
    requires k < |bs|
    ensures FreeBytes(Split(bs, k, mid)) == FreeBytes(bs) - FreeExtent(bs[k]) + (bs[k].next - mid - 24)
  {
    var two := [Block(bs[k].off, mid, true), Block(mid, bs[k].next, false)];
    FreeBytesReplace(bs, k, two, k + 1);
    FreeBytesPair(two[0], two[1]);
    assert bs[k..k + 1] == [bs[k]];
  }

  lemma FreeBytesMerge(bs: seq<Block>, k: nat)
    requires k + 1 < |bs|
    ensures FreeBytes(Merge(bs, k)) == FreeBytes(bs) - FreeExtent(bs[k]) - FreeExtent(bs[k + 1])
                                       + FreeExtent(Block(bs[k].off, bs[k + 1].next, bs[k].used))
  {
    FreeBytesReplace(bs, k, [Block(bs[k].off, bs[k + 1].next, bs[k].used)], k + 2);
    FreeBytesPair(bs[k], bs[k + 1]);
    assert bs[k..k + 2] == [bs[k], bs[k + 1]];
  }

  lemma {:induction false} FreeBytesBound(bs: seq<Block>, lo: nat, hi: nat)
    requires Tiled(bs, 24, lo, hi)
    ensures FreeBytes(bs) >= 0 && forall b :: b in bs && !b.used ==> Payload(b) <= FreeBytes(bs)
    decreases |bs|
  {
    if bs != [] {
      FreeBytesBound(bs[1..], bs[0].next, hi);
      assert forall b :: b in bs ==> b == bs[0] || b in bs[1..];
    }
  }

  // ----- which offsets are free ---------------------------------------------------------------

  lemma FreeAtBlock(bs: seq<Block>, k: nat, hi: nat)
    requires Tiled(bs, 24, 0, hi) && k < |bs|
    ensures FreeAt(bs, bs[k].off) <==> !bs[k].used
  {
    assert bs[k] in bs;
    if FreeAt(bs, bs[k].off) {
      var b :| b in bs && b.off == bs[k].off && !b.used;
      IndexFinds(bs, b, 24, 0, hi);
      IndexFinds(bs, bs[k], 24, 0, hi);
    }
  }

  /** No block starts inside another one. */
  lemma NothingInside(bs: seq<Block>, k: nat, off: nat, hi: nat)
    requires Tiled(bs, 24, 0, hi) && k < |bs| && bs[k].off < off < bs[k].next
    ensures !FreeAt(bs, off)
  {
    if FreeAt(bs, off) {
      var b :| b in bs && b.off == off && !b.used;
      var i :| 0 <= i < |bs| && bs[i] == b;
      if i < k { TiledOrdered(bs, i, k, 24, 0, hi); }
      if k < i { TiledOrdered(bs, k, i, 24, 0, hi); }
    }
  }

  lemma SplitRing(bs: seq<Block>, k: nat, mid: nat, off: nat, hi: nat)
    requires k < |bs| && Tiled(bs, 24, 0, hi) && Tiled(Split(bs, k, mid), 24, 0, hi)
    ensures FreeAt(Split(bs, k, mid), off) <==> off == mid || (FreeAt(bs, off) && off != bs[k].off)
  {
    SplitFreeAt(bs, k, mid, off);
    FreeAtBlock(Split(bs, k, mid), k, hi);
    FreeAtBlock(bs, k, hi);
  }

  lemma MarkRing(bs: seq<Block>, k: nat, used: bool, off: nat, hi: nat)
    requires k < |bs| && Tiled(bs, 24, 0, hi) && Tiled(Mark(bs, k, used), 24, 0, hi)
    ensures FreeAt(Mark(bs, k, used), off) <==> if off == bs[k].off then !used else FreeAt(bs, off)
  {
    MarkFreeAt(bs, k, used, off);
    FreeAtBlock(Mark(bs, k, used), k, hi);
    FreeAtBlock(bs, k, hi);
  }

  lemma MergeRing(bs: seq<Block>, k: nat, off: nat, hi: nat)
    requires k + 1 < |bs| && !bs[k + 1].used && Tiled(bs, 24, 0, hi) && Tiled(Merge(bs, k), 24, 0, hi)
    ensures FreeAt(Merge(bs, k), off) <==> FreeAt(bs, off) && off != bs[k + 1].off
  {
    var x := Block(bs[k].off, bs[k + 1].next, bs[k].used);
    assert bs == bs[..k] + [bs[k], bs[k + 1]] + bs[k + 2..];
    assert x in Merge(bs, k);
    TiledAt(bs, k, 24, 0, hi);
    TiledAt(bs, k + 1, 24, 0, hi);
    NothingInside(Merge(bs, k), k, bs[k + 1].off, hi);
  }

  // ----- what the steps keep ------------------------------------------------------------------

  lemma UnlinkRing(h: Pool, off: nat)
    requires RingBut(h, -1)
    ensures NoDup(Without(h.free, off))
    ensures forall o: nat :: o in Without(h.free, off) <==> FreeAt(h.blocks, o) && o != off
  {
    WithoutMembers(h.free, off);
  }

  lemma NoDupCons(off: nat, ts: seq<nat>)
    requires NoDup(ts) && off !in ts
    ensures NoDup([off] + ts)
  {
    assert forall j :: 0 < j < |[off] + ts| ==> ([off] + ts)[j] == ts[j - 1];
  }

  lemma TakeSplits(h: Pool, k: nat, n: nat)
    requires Inv(h) && k < |h.blocks| && !h.blocks[k].used && n % 4 == 0 && Payload(h.blocks[k]) >= n + 24 + 12
    ensures Inv(Take(h, k, n))
  {
    var b := h.blocks[k];
    var mid := b.off + 24 + n;
    var h' := Take(h, k, n);
    TiledAt(h.blocks, k, 24, 0, h.End());
    assert Tiled(h'.blocks, 24, 0, h.End()) by { SplitTiled(h.blocks, k, mid, 24, 0, h.End()); }
    assert NoFreeNeighbours(h'.blocks) by { SplitFree(h.blocks, k, mid); }
    assert Accounts(h') by { FreeBytesSplit(h.blocks, k, mid); }
    assert RingBut(h', -1) by {
      NothingInside(h.blocks, k, mid, h.End());
      UnlinkRing(h, b.off);
      NoDupCons(mid, Without(h.free, b.off));
      forall off: nat ensures off in h'.free <==> FreeAt(h'.blocks, off) { SplitRing(h.blocks, k, mid, off, h.End()); }
    }
  }

  lemma TakeWhole(h: Pool, k: nat, n: nat)
    requires Inv(h) && k < |h.blocks| && !h.blocks[k].used && Payload(h.blocks[k]) < n + 24 + 12
    ensures Inv(Take(h, k, n))
  {
    var b := h.blocks[k];
    var h' := Take(h, k, n);
    assert Tiled(h'.blocks, 24, 0, h.End()) by { MarkTiled(h.blocks, k, true, 24, 0, h.End()); }
    assert NoFreeNeighbours(h'.blocks) by { MarkUsed(h.blocks, k); }
    assert Accounts(h') by { FreeBytesMark(h.blocks, k, true); }
    assert RingBut(h', -1) by {
      UnlinkRing(h, b.off);
      forall off: nat ensures off in h'.free <==> FreeAt(h'.blocks, off) { MarkRing(h.blocks, k, true, off, h.End()); }
    }
  }

  lemma TakeKeeps(h: Pool, k: nat, n: nat)
    requires Inv(h) && k < |h.blocks| && !h.blocks[k].used && n % 4 == 0
    ensures Inv(Take(h, k, n))
  {
    if Payload(h.blocks[k]) >= n + 24 + 12 { TakeSplits(h, k, n); } else { TakeWhole(h, k, n); }
  }

  lemma RequestAligned(size: nat)
    ensures Request(size) % 4 == 0 && Request(size) >= 12
  {
  }

  /** An offset on the free ring leads to its block. */
  lemma RingEntry(h: Pool, off: nat)
    requires Inv(h) && off in h.free
    ensures var k := IndexOf(h.blocks, off, 0); k < |h.blocks| && h.blocks[k].off == off && !h.blocks[k].used
  {
    assert FreeAt(h.blocks, off);
    var b :| b in h.blocks && b.off == off && !b.used;
    IndexFinds(h.blocks, b, 24, 0, h.End());
  }

  lemma FetchTakes(h: Pool, size: nat) returns (k: nat)
    requires Inv(h) && Fetch(h, size).1.Some?
    ensures k < |h.blocks| && !h.blocks[k].used && Payload(h.blocks[k]) >= Request(size)
    ensures Fetch(h, size) == (Take(h, k, Request(size)), Some(h.blocks[k].off + 24))
  {
    var i := FirstFit(h.blocks, h.free, Request(size));
    RingEntry(h, h.free[i]);
    k := IndexOf(h.blocks, h.free[i], 0);
  }

  lemma AllocTakes(h: Pool, size: nat) returns (k: nat)
    requires Inv(h) && Alloc(h, size).1.Some?
    ensures k < |h.blocks| && !h.blocks[k].used && Payload(h.blocks[k]) >= Request(size)
    ensures Alloc(h, size) == (Take(h, k, Request(size)), Some(h.blocks[k].off + 24))
  {
    k := FetchTakes(h, size);
  }

  lemma FetchKeeps(h: Pool, size: nat)
    requires Inv(h)
    ensures Inv(Fetch(h, size).0)
  {
    if Fetch(h, size).1.Some? {
      var k := FetchTakes(h, size);
      RequestAligned(size);
      TakeKeeps(h, k, Request(size));
    }
  }

  lemma AllocKeeps(h: Pool, size: nat)
    requires Inv(h)
    ensures Inv(Alloc(h, size).0)
  {
    FetchKeeps(h, size);
  }

  /** What holds while a call under the lock has freed a block, found at `x`, that is on no ring. */
  ghost predicate Loose(h: Pool, x: nat) {
    && Shape(h) && RingBut(h, x) && Accounts(h) && h.maxUsed >= h.size - h.available
    && FreeAt(h.blocks, x)
  }

  lemma ReleasedLoose(h: Pool, k: nat)
    requires Inv(h) && k < |h.blocks| && h.blocks[k].used
    ensures Loose(Released(h, k), h.blocks[k].off) && NoFreeBut(Released(h, k).blocks, k)
  {
    var x := h.blocks[k].off;
    var h' := Released(h, k);
    assert Tiled(h'.blocks, 24, 0, h.End()) by { MarkTiled(h.blocks, k, false, 24, 0, h.End()); }
    assert Payload(h.blocks[k]) >= 0 by { TiledAt(h.blocks, k, 24, 0, h.End()); }
    assert Accounts(h') by { FreeBytesMark(h.blocks, k, false); }
    assert NoFreeBut(h'.blocks, k) by { MarkFree(h.blocks, k); }
    assert !FreeAt(h.blocks, x) by { FreeAtBlock(h.blocks, k, h.End()); }
    forall off: nat ensures FreeAt(h'.blocks, off) <==> off == x || FreeAt(h.blocks, off) {
      MarkRing(h.blocks, k, false, off, h.End());
    }
  }

  lemma JoinLeftKeeps(h: Pool, k: nat)
    requires 0 < k < |h.blocks| && Loose(h, h.blocks[k].off) && NoFreeBut(h.blocks, k)
    requires !h.blocks[k].used && !h.blocks[k - 1].used
    ensures var l := JoinLeft(h, k);
      Shape(l) && RingBut(l, -1) && Accounts(l) && l.maxUsed >= l.size - l.available && NoFreeBut(l.blocks, k - 1)
  {
    var l := JoinLeft(h, k);
    assert Tiled(l.blocks, 24, 0, h.End()) by { MergeTiled(h.blocks, k - 1, 24, 0, h.End()); }
    assert Accounts(l) by {
      FreeBytesMerge(h.blocks, k - 1);
      TiledAt(h.blocks, k - 1, 24, 0, h.End());
    }
    forall off: nat ensures off in l.free <==> FreeAt(l.blocks, off) { MergeRing(h.blocks, k - 1, off, h.End()); }
    assert NoFreeBut(l.blocks, k - 1) by {
      NoFreeParts(h.blocks[..k], k - 1, k);
      assert l.blocks[..k - 1] == h.blocks[..k][..k - 1] && l.blocks[k..] == h.blocks[k + 1..];
    }
  }

  /** The right merge, with the block that takes in the other one on the ring (`x` is -1) or not. */
  lemma JoinRightKeeps(h: Pool, k: nat, x: int)
    requires k < |h.blocks| && !h.blocks[k].used && Shape(h) && RingBut(h, x) && Accounts(h)
    requires h.maxUsed >= h.size - h.available && NoFreeBut(h.blocks, k) && (x == -1 || x == h.blocks[k].off)
    requires k > 0 ==> h.blocks[k - 1].used
    ensures var r := JoinRight(h, k);
      Shape(r) && RingBut(r, x) && Accounts(r) && r.maxUsed >= r.size - r.available && NoFreeNeighbours(r.blocks)
      && FreeAt(r.blocks, h.blocks[k].off)
  {
    var r := JoinRight(h, k);
    if k + 1 < |h.blocks| && !h.blocks[k + 1].used {
      var gone := h.blocks[k + 1].off;
      TiledOrdered(h.blocks, k, k + 1, 24, 0, h.End());
      assert Tiled(r.blocks, 24, 0, h.End()) by { MergeTiled(h.blocks, k, 24, 0, h.End()); }
      assert Accounts(r) by {
        FreeBytesMerge(h.blocks, k);
        TiledAt(h.blocks, k, 24, 0, h.End());
      }
      assert RingBut(r, x) by {
        WithoutMembers(h.free, gone);
        forall off: nat ensures FreeAt(r.blocks, off) <==> FreeAt(h.blocks, off) && off != gone {
          MergeRing(h.blocks, k, off, h.End());
        }
      }
      MergeForward(h.blocks, k);
    }
    NoHole(r.blocks, k);
    FreeAtBlock(r.blocks, k, h.End());
  }

  lemma InsertKeeps(h: Pool, x: nat)
    requires Loose(h, x) && NoFreeNeighbours(h.blocks)
    ensures Inv(Insert(h, x))
  {
    NoDupCons(x, h.free);
  }

  lemma FreeBlockKeeps(h: Pool, k: nat)
    requires Inv(h) && k < |h.blocks| && h.blocks[k].used
    ensures Inv(FreeBlock(h, k))
  {
    hide Tiled, FreeBytes, FreeAt, NoDup;
    var r := Released(h, k);
    ReleasedLoose(h, k);
    if k > 0 && !h.blocks[k - 1].used {
      JoinLeftKeeps(r, k);
      assert k > 1 ==> h.blocks[k - 2].used by { if k > 1 { UsedBefore(h.blocks, k - 1); } }
      JoinRightKeeps(JoinLeft(r, k), k - 1, -1);
    } else {
      JoinRightKeeps(r, k, h.blocks[k].off);
      InsertKeeps(JoinRight(r, k), h.blocks[k].off);
    }
  }

  lemma UsedBefore(bs: seq<Block>, k: nat)
    requires 0 < k < |bs| && NoFreeNeighbours(bs) && !bs[k].used
    ensures bs[k - 1].used
  {
    NoFreeParts(bs, k, k + 1);
  }

  lemma UsedAfter(bs: seq<Block>, k: nat)
    requires k + 1 < |bs| && NoFreeNeighbours(bs) && !bs[k].used
    ensures bs[k + 1].used
  {
    NoFreeParts(bs, k, k + 1);
  }

  lemma CutLoose(h: Pool, k: nat, n: nat)
    requires Inv(h) && k < |h.blocks| && h.blocks[k].used && n % 4 == 0 && Shrinks(h, k, n)
    ensures Loose(Cut(h, k, n), h.blocks[k].off + 24 + n) && NoFreeBut(Cut(h, k, n).blocks, k + 1)
  {
    var mid := h.blocks[k].off + 24 + n;
    var h' := Cut(h, k, n);
    TiledAt(h.blocks, k, 24, 0, h.End());
    assert Tiled(h'.blocks, 24, 0, h.End()) by { SplitTiled(h.blocks, k, mid, 24, 0, h.End()); }
    assert NoFreeBut(h'.blocks, k + 1) by { SplitUsed(h.blocks, k, mid); }
    assert Accounts(h') by { FreeBytesSplit(h.blocks, k, mid); }
    assert !FreeAt(h.blocks, mid) by { NothingInside(h.blocks, k, mid, h.End()); }
    assert !FreeAt(h.blocks, h.blocks[k].off) by { FreeAtBlock(h.blocks, k, h.End()); }
    forall off: nat ensures FreeAt(h'.blocks, off) <==> off == mid || FreeAt(h.blocks, off) {
      SplitRing(h.blocks, k, mid, off, h.End());
    }
  }

  lemma ShrinkKeeps(h: Pool, k: nat, n: nat)
    requires Inv(h) && k < |h.blocks| && h.blocks[k].used && n % 4 == 0 && Shrinks(h, k, n)
    ensures Inv(Shrink(h, k, n))
  {
    hide Tiled, FreeBytes, FreeAt, NoDup;
    var mid := h.blocks[k].off + 24 + n;
    CutLoose(h, k, n);
    JoinRightKeeps(Cut(h, k, n), k + 1, mid);
    InsertKeeps(JoinRight(Cut(h, k, n), k + 1), mid);
  }

  /** The blocks of a grown heap: the merge is undone further up. */
  lemma GrowKeeps(h: Pool, k: nat, n: nat)
    requires Inv(h) && k < |h.blocks| && h.blocks[k].used && n % 4 == 0
    requires CanGrow(h, k, n) && n > Payload(h.blocks[k])
    ensures Inv(Grow(h, k, n))
  {
    var a, b := h.blocks[k], h.blocks[k + 1];
    var mid := a.off + 24 + n;
    var m := Merge(h.blocks, k);
    var h' := Grow(h, k, n);
    TiledAt(h.blocks, k, 24, 0, h.End());
    TiledAt(h.blocks, k + 1, 24, 0, h.End());
    assert Tiled(m, 24, 0, h.End()) by { MergeTiled(h.blocks, k, 24, 0, h.End()); }
    assert Tiled(h'.blocks, 24, 0, h.End()) by { SplitTiled(m, k, mid, 24, 0, h.End()); }
    assert Accounts(h') by {
      FreeBytesMerge(h.blocks, k);
      FreeBytesSplit(m, k, mid);
    }
    assert NoFreeNeighbours(h'.blocks) by { GrowApart(h, k, n); }
    assert RingBut(h', -1) by {
      UnlinkRing(h, b.off);
      NothingInside(m, k, mid, h.End());
      FreeAtBlock(m, k, h.End());
      forall off: nat ensures FreeAt(h'.blocks, off) <==> off == mid || (FreeAt(h.blocks, off) && off != b.off) {
        MergeRing(h.blocks, k, off, h.End());
        SplitRing(m, k, mid, off, h.End());
      }
      assert mid !in Without(h.free, b.off) by { MergeRing(h.blocks, k, mid, h.End()); }
      NoDupCons(mid, Without(h.free, b.off));
    }
  }

  lemma GrowApart(h: Pool, k: nat, n: nat)
    requires k < |h.blocks| && CanGrow(h, k, n) && NoFreeNeighbours(h.blocks)
    ensures NoFreeNeighbours(Grow(h, k, n).blocks)
  {
    var m := Merge(h.blocks, k);
    var mid := h.blocks[k].off + 24 + n;
    assert NoFreeNeighbours(h.blocks[..k]) && NoFreeNeighbours(h.blocks[k + 2..]) by {
      NoFreeParts(h.blocks, k, k + 2);
    }
    var s := Split(m, k, mid);
    assert m[..k] == h.blocks[..k] && m[k + 1..] == h.blocks[k + 2..];
    assert s[..k + 1] == m[..k] + [s[k]];
    assert s[k + 2..] == m[k + 1..];
    assert NoFreeNeighbours(s[..k + 1]) by { NoFreeConcat(h.blocks[..k], [s[k]]); }
    if k + 2 < |h.blocks| { UsedAfter(h.blocks, k + 1); }
    NoHole(s, k + 1);
  }

  // ----- whole runs ---------------------------------------------------------------------------

  /** The parts of calls that run under the lock. An allocation compares its size with available_size
      before it takes the lock; other threads' steps may come in between, so a Get step searches whatever
      available_size is by then. A realloc that moves is a Get and a Release, with steps of other threads
      between them. */
  datatype Action = Get(size: nat) | Release(p: nat) | Enlarge(p: nat, n: nat) | Reduce(p: nat, n: nat)

  /** A pointer given to the pool is live; the sum newsize + 12 stays within a word. */
  predicate Enabled(h: Pool, a: Action) {
    match a
    case Get(_) => true
    case Release(p) => Live(h, p)
    case Enlarge(p, n) => Live(h, p) && n % 4 == 0 && n > Payload(h.blocks[BlockOf(h, p)]) && n + 12 < WORD
    case Reduce(p, n) => Live(h, p) && n % 4 == 0 && n <= Payload(h.blocks[BlockOf(h, p)])
  }

  function Step(h: Pool, a: Action): Pool
    requires Enabled(h, a)
  {
    match a
    case Get(size) => Fetch(h, size).0
    case Release(p) => FreeBlock(h, BlockOf(h, p))
    case Enlarge(p, n) => if CanGrow(h, BlockOf(h, p), n) then Grow(h, BlockOf(h, p), n) else h
    case Reduce(p, n) => if Shrinks(h, BlockOf(h, p), n) then Shrink(h, BlockOf(h, p), n) else h
  }

  lemma StepKeeps(h: Pool, a: Action)
    requires Inv(h) && Enabled(h, a)
    ensures Inv(Step(h, a))
  {
    match a
    case Get(size) => FetchKeeps(h, size);
    case Release(p) => FreeBlockKeeps(h, BlockOf(h, p));
    case Enlarge(p, n) => if CanGrow(h, BlockOf(h, p), n) { GrowKeeps(h, BlockOf(h, p), n); }
    case Reduce(p, n) => if Shrinks(h, BlockOf(h, p), n) { ShrinkKeeps(h, BlockOf(h, p), n); }
  }

  predicate EnabledRun(h: Pool, run: seq<Action>)
    decreases |run|
  {
    run == [] || (Enabled(h, run[0]) && EnabledRun(Step(h, run[0]), run[1..]))
  }

  function Run(h: Pool, run: seq<Action>): Pool
    requires EnabledRun(h, run)
    decreases |run|
  {
    if run == [] then h else Run(Step(h, run[0]), run[1..])
  }

  /** The bytes in use after each step. */
  function Usages(h: Pool, run: seq<Action>): seq<int>
    requires EnabledRun(h, run)
    decreases |run|
  {
    if run == [] then []
    else
      var h' := Step(h, run[0]);
      [h'.size - h'.available] + Usages(h', run[1..])
  }

  /** After any run, however the locked parts of the callers' calls interleave: the blocks tile the
      pool, no two neighbours are free, the free ring holds exactly the free blocks, once each, and
      available_size is the sum of their payloads. */
  lemma {:induction false} RunKeeps(h: Pool, run: seq<Action>)
    requires Inv(h) && EnabledRun(h, run)
    ensures Inv(Run(h, run))
    decreases |run|
  {
    if run != [] {
      StepKeeps(h, run[0]);
      RunKeeps(Step(h, run[0]), run[1..]);
    }
  }

  lemma StepMaximum(h: Pool, a: Action)
    requires Inv(h) && Enabled(h, a)
    ensures var h' := Step(h, a);
      && h'.size == h.size
      && h'.maxUsed == if h.maxUsed < h'.size - h'.available then h'.size - h'.available else h.maxUsed
  {
    StepKeeps(h, a);
  }

  /** max_used_size is the running maximum of the bytes in use. */
  lemma {:induction false} RunMaximum(h: Pool, run: seq<Action>)
    requires Inv(h) && EnabledRun(h, run)
    ensures Run(h, run).maxUsed == Max(h.maxUsed, Usages(h, run))
    decreases |run|
  {
    hide Inv, Enabled, Step;
    if run != [] {
      var h' := Step(h, run[0]);
      StepKeeps(h, run[0]);
      StepMaximum(h, run[0]);
      RunMaximum(h', run[1..]);
      assert Usages(h, run)[1..] == Usages(h', run[1..]);
    }
  }

  // ----- what callers get ---------------------------------------------------------------------

  /** The search under the lock fails exactly when no free block is large enough. */
  lemma FetchFails(h: Pool, size: nat)
    requires Inv(h)
    ensures Fetch(h, size).1.None? <==> forall b :: b in h.blocks && !b.used ==> Payload(b) < Request(size)
  {
    var n := Request(size);
    var i := FirstFit(h.blocks, h.free, n);
    if i < |h.free| {
      RingEntry(h, h.free[i]);
      assert h.blocks[IndexOf(h.blocks, h.free[i], 0)] in h.blocks;
    } else {
      forall b | b in h.blocks && !b.used ensures Payload(b) < n {
        assert FreeAt(h.blocks, b.off);
        assert b.off in h.free;
        IndexFinds(h.blocks, b, 24, 0, h.End());
        var j :| 0 <= j < |h.free| && h.free[j] == b.off;
      }
    }
  }

  /** An allocation on its own fails exactly when no free block is large enough, or when the request is
      not below the bytes available. */
  lemma AllocFails(h: Pool, size: nat)
    requires Inv(h)
    ensures Alloc(h, size).1.None?
       <==> Request(size) >= h.available || forall b :: b in h.blocks && !b.used ==> Payload(b) < Request(size)
  {
    FetchFails(h, size);
  }

  /** The whole payload of a new pool cannot be allocated, though the free block holds it: the search
      would find it, and does when the comparison was made before somebody else's free. */
  lemma WholePoolFails(size: nat)
    requires ValidSize(size) && size >= 60
    ensures var h := Init(size);
      && Payload(h.blocks[0]) == size - 48 == Request(size - 48)
      && Alloc(h, size - 48) == (h, None) && Fetch(h, size - 48).1 == Some(24)
  {
    var h := Init(size);
    assert IndexOf(h.blocks, 0, 0) == 0;
    assert FirstFit(h.blocks, h.free, size - 48) == 0;
  }

  /** The comparison with the bytes available turns a fitting block away only when it is an exact fit
      and no other free block has payload. */
  lemma StrictBound(h: Pool, b: Block, size: nat)
    requires Inv(h) && b in h.blocks && !b.used && Payload(b) >= Request(size)
    ensures Request(size) >= h.available <==> Payload(b) == Request(size) == h.available
  {
    FreeBytesBound(h.blocks, 0, h.End());
  }

  /** The other blocks in use stay as they are, whatever a step does. */
  lemma StepKeepsOthers(h: Pool, a: Action, b: Block)
    requires Inv(h) && Enabled(h, a) && b in h.blocks && b.used
    requires a.Get? || h.blocks[BlockOf(h, a.p)] != b
    ensures b in Step(h, a).blocks
  {
    hide Tiled, FreeBytes, NoFreeNeighbours, NoDup, Note;
    match a
    case Get(size) =>
      if Fetch(h, size).1.Some? {
        var k := FetchTakes(h, size);
        TakeOthers(h, k, Request(size), b);
      }
    case Release(p) => FreeOthers(h, BlockOf(h, p), b);
    case Enlarge(p, n) => if CanGrow(h, BlockOf(h, p), n) { GrowOthers(h, BlockOf(h, p), n, b); }
    case Reduce(p, n) => if Shrinks(h, BlockOf(h, p), n) { ShrinkOthers(h, BlockOf(h, p), n, b); }
  }

  lemma TakeOthers(h: Pool, k: nat, n: nat, b: Block)
    requires k < |h.blocks| && b in h.blocks && b != h.blocks[k]
    ensures b in Take(h, k, n).blocks
  {
    assert h.blocks == h.blocks[..k] + [h.blocks[k]] + h.blocks[k + 1..];
  }

  lemma MergeOthers(bs: seq<Block>, k: nat, b: Block)
    requires k + 1 < |bs| && b in bs && b != bs[k] && b != bs[k + 1]
    ensures b in Merge(bs, k)
  {
    assert bs == bs[..k] + [bs[k], bs[k + 1]] + bs[k + 2..];
  }

  lemma FreeOthers(h: Pool, k: nat, b: Block)
    requires k < |h.blocks| && b in h.blocks && b.used && b != h.blocks[k]
    ensures b in FreeBlock(h, k).blocks
  {
    var r := Released(h, k);
    assert h.blocks == h.blocks[..k] + [h.blocks[k]] + h.blocks[k + 1..];
    assert b in r.blocks;
    if k > 0 && !h.blocks[k - 1].used {
      var l := JoinLeft(r, k);
      MergeOthers(r.blocks, k - 1, b);
      if k < |l.blocks| && !l.blocks[k].used { MergeOthers(l.blocks, k - 1, b); }
    } else if k + 1 < |r.blocks| && !r.blocks[k + 1].used {
      MergeOthers(r.blocks, k, b);
    }
  }

  lemma GrowOthers(h: Pool, k: nat, n: nat, b: Block)
    requires k < |h.blocks| && CanGrow(h, k, n) && b in h.blocks && b.used && b != h.blocks[k]
    ensures b in Grow(h, k, n).blocks
  {
    assert h.blocks == h.blocks[..k] + [h.blocks[k], h.blocks[k + 1]] + h.blocks[k + 2..];
    assert Merge(h.blocks, k)[k + 1..] == h.blocks[k + 2..] && Merge(h.blocks, k)[..k] == h.blocks[..k];
  }

  lemma ShrinkOthers(h: Pool, k: nat, n: nat, b: Block)
    requires k < |h.blocks| && b in h.blocks && b.used && b != h.blocks[k]
    ensures b in Shrink(h, k, n).blocks
  {
    var c := Cut(h, k, n);
    assert h.blocks == h.blocks[..k] + [h.blocks[k]] + h.blocks[k + 1..];
    assert b in c.blocks;
    if k + 2 < |c.blocks| && !c.blocks[k + 2].used { MergeOthers(c.blocks, k + 1, b); }
  }

  /** Another thread's steps leave a caller's pointer live and its block as it was. */
  lemma StepKeepsLive(h: Pool, a: Action, p: nat)
    requires Inv(h) && Enabled(h, a) && Live(h, p) && (a.Get? || a.p != p)
    ensures Live(Step(h, a), p) && Step(h, a).blocks[BlockOf(Step(h, a), p)] == h.blocks[BlockOf(h, p)]
  {
    hide Step, Tiled, RingBut, Accounts, NoFreeNeighbours;
    var b := h.blocks[BlockOf(h, p)];
    assert b in Step(h, a).blocks by { StepKeepsOthers(h, a, b); }
    assert Tiled(Step(h, a).blocks, 24, 0, h.End()) by { StepKeeps(h, a); StepMaximum(h, a); }
    IndexFinds(Step(h, a).blocks, b, 24, 0, h.End());
  }

  /** What a call that returns a pointer promises: a live block with room for the request, and with no more
      than a header and a minimal payload beyond it. */
  ghost predicate Holds(h: Pool, p: nat, n: nat) {
    Live(h, p) && p % 4 == 0 && n <= Payload(h.blocks[BlockOf(h, p)]) <= n + 24 + 12
  }

  lemma HoldsBlock(h: Pool, b: Block, n: nat)
    requires Shape(h) && b in h.blocks && b.used && n <= Payload(b) <= n + 24 + 12
    ensures Holds(h, b.off + 24, n)
  {
    IndexFinds(h.blocks, b, 24, 0, h.End());
    TiledBounds(h.blocks, 24, 0, h.End());
  }

  lemma AllocHolds(h: Pool, size: nat)
    requires Inv(h) && Alloc(h, size).1.Some?
    ensures Holds(Alloc(h, size).0, Alloc(h, size).1.value, Request(size))
    ensures !Live(h, Alloc(h, size).1.value)
  {
    var k := AllocTakes(h, size);
    var h' := Alloc(h, size).0;
    AllocKeeps(h, size);
    assert h'.blocks[k] in h'.blocks;
    HoldsBlock(h', h'.blocks[k], Request(size));
    IndexFinds(h.blocks, h.blocks[k], 24, 0, h.End());
  }

  lemma RequestCovers(size: nat)
    requires 0 < size <= WORD - 16
    ensures size <= 12 ==> Request(size) == 12
    ensures size > 12 ==> size <= Request(size) < size + 4 && Request(size) % 4 == 0
    ensures Request(Request(size)) == Request(size) && Request(size) + 12 < WORD
  {
    RtAlignCovers(size);
  }

  /** rt_memheap_realloc keeps the pool's invariant and returns a block with room for the new size. */
  lemma ReallocKeeps(h: Pool, p: Option<nat>, newsize: nat)
    requires Inv(h) && LegalPtr(h, p) && newsize <= WORD - 16
    ensures Inv(Realloc(h, p, newsize).0)
    ensures var r := Realloc(h, p, newsize);
      r.1.Some? ==> newsize <= Request(newsize) && Holds(r.0, r.1.value, Request(newsize))
  {
    if newsize == 0 {
      if p.Some? { FreeBlockKeeps(h, BlockOf(h, p.value)); }
    } else {
      var n := Request(newsize);
      RequestCovers(newsize);
      RequestAligned(newsize);
      if p.None? {
        AllocKeeps(h, n);
        if Alloc(h, n).1.Some? { AllocHolds(h, n); }
      } else {
        ResizeKeeps(h, p.value, n);
      }
    }
  }

  lemma ResizeKeeps(h: Pool, p: nat, n: nat)
    requires Inv(h) && Live(h, p) && n % 4 == 0 && Request(n) == n
    ensures var k := BlockOf(h, p);
      && (n > Payload(h.blocks[k]) && CanGrow(h, k, n) ==> Inv(Grow(h, k, n)) && Holds(Grow(h, k, n), p, n))
      && (n > Payload(h.blocks[k]) && !CanGrow(h, k, n) ==>
            Inv(Relocate(h, p, n).0)
            && (Relocate(h, p, n).1.Some? ==> Holds(Relocate(h, p, n).0, Relocate(h, p, n).1.value, n)))
      && (n <= Payload(h.blocks[k]) && Shrinks(h, k, n) ==> Inv(Shrink(h, k, n)) && Holds(Shrink(h, k, n), p, n))
      && (n <= Payload(h.blocks[k]) && !Shrinks(h, k, n) ==> Holds(h, p, n))
  {
    hide Grow, Shrink, Relocate, Live, Inv, Shape;
    var k := BlockOf(h, p);
    if n > Payload(h.blocks[k]) {
      if CanGrow(h, k, n) { GrowHolds(h, k, n); } else { RelocateKeeps(h, p, n); }
    } else if Shrinks(h, k, n) {
      ShrinkHolds(h, k, n);
    } else {
      BlockHolds(h, k, n);
    }
  }

  lemma BlockHolds(h: Pool, k: nat, n: nat)
    requires Inv(h) && k < |h.blocks| && h.blocks[k].used && n <= Payload(h.blocks[k]) <= n + 24 + 12
    ensures Holds(h, h.blocks[k].off + 24, n)
  {
    assert h.blocks[k] in h.blocks;
    HoldsBlock(h, h.blocks[k], n);
  }

  lemma GrowHolds(h: Pool, k: nat, n: nat)
    requires Inv(h) && k < |h.blocks| && h.blocks[k].used && n % 4 == 0
    requires n > Payload(h.blocks[k]) && CanGrow(h, k, n)
    ensures Inv(Grow(h, k, n)) && Holds(Grow(h, k, n), h.blocks[k].off + 24, n)
  {
    GrowKeeps(h, k, n);
    hide Tiled, FreeBytes, NoFreeNeighbours, NoDup, FreeAt;
    assert Grow(h, k, n).blocks[k] == Block(h.blocks[k].off, h.blocks[k].off + 24 + n, true);
    BlockHolds(Grow(h, k, n), k, n);
  }

  lemma ShrinkHolds(h: Pool, k: nat, n: nat)
    requires Inv(h) && k < |h.blocks| && h.blocks[k].used && n % 4 == 0 && Shrinks(h, k, n)
    ensures Inv(Shrink(h, k, n)) && Holds(Shrink(h, k, n), h.blocks[k].off + 24, n)
  {
    ShrinkKeeps(h, k, n);
    hide Tiled, FreeBytes, NoFreeNeighbours, NoDup, FreeAt;
    assert Shrink(h, k, n).blocks[k] == Block(h.blocks[k].off, h.blocks[k].off + 24 + n, true);
    BlockHolds(Shrink(h, k, n), k, n);
  }

  /** An allocation leaves a live pointer and its block alone. */
  lemma AllocKeepsLive(h: Pool, size: nat, p: nat)
    requires Inv(h) && Live(h, p)
    ensures var h' := Alloc(h, size).0; Live(h', p) && h'.blocks[BlockOf(h', p)] == h.blocks[BlockOf(h, p)]
  {
    StepKeepsLive(h, Get(size), p);
  }

  lemma RelocateKeeps(h: Pool, p: nat, n: nat)
    requires Inv(h) && Live(h, p) && Request(n) == n
    ensures Inv(Relocate(h, p, n).0)
    ensures Relocate(h, p, n).1.Some? ==> Holds(Relocate(h, p, n).0, Relocate(h, p, n).1.value, n)
  {
    hide Tiled, FreeBytes, NoFreeNeighbours, NoDup, FreeAt, Take, FreeBlock, Alloc;
    var h1 := Alloc(h, n).0;
    AllocKeeps(h, n);
    if Alloc(h, n).1.Some? {
      var q := Alloc(h, n).1.value;
      AllocHolds(h, n);
      AllocKeepsLive(h, n, p);
      FreeBlockKeeps(h1, BlockOf(h1, p));
      StepKeepsLive(h1, Release(p), q);
      var h2 := FreeBlock(h1, BlockOf(h1, p));
      assert h2.blocks[BlockOf(h2, q)] in h2.blocks;
    }
  }

  /** What a search under the lock takes, and what it leaves: the first block on the free ring that is
      large enough. It is cut down to exactly the request when a header and a minimal payload are left
      over, and that rest is first on the ring; otherwise it is handed out whole. Nothing else changes. */
  lemma FetchOutcome(h: Pool, size: nat) returns (i: nat, k: nat)
    requires Inv(h) && Fetch(h, size).1.Some?
    ensures i < |h.free| && k < |h.blocks| && h.blocks[k].off == h.free[i] && !h.blocks[k].used
    ensures Fetch(h, size).1 == Some(h.free[i] + 24)
    ensures forall b, j :: b in h.blocks && 0 <= j < i && b.off == h.free[j] ==> Payload(b) < Request(size)
    ensures var b := h.blocks[k]; var mid := b.off + 24 + Request(size); var h' := Fetch(h, size).0;
      && mid <= b.next
      && if b.next - mid >= 24 + 12 then
           && h'.blocks == h.blocks[..k] + [Block(b.off, mid, true), Block(mid, b.next, false)] + h.blocks[k + 1..]
           && h'.free == [mid] + (h.free[..i] + h.free[i + 1..])
         else
           && h'.blocks == h.blocks[..k] + [Block(b.off, b.next, true)] + h.blocks[k + 1..]
           && h'.free == h.free[..i] + h.free[i + 1..]
  {
    var n := Request(size);
    i := FirstFit(h.blocks, h.free, n);
    RingEntry(h, h.free[i]);
    k := IndexOf(h.blocks, h.free[i], 0);
    FreeRingAt(h, i);
    hide Without;
    forall b, j | b in h.blocks && 0 <= j < i && b.off == h.free[j] ensures Payload(b) < n {
      IndexFinds(h.blocks, b, 24, 0, h.End());
    }
  }

  lemma FreeRingAt(h: Pool, i: nat)
    requires Inv(h) && i < |h.free|
    ensures Without(h.free, h.free[i]) == h.free[..i] + h.free[i + 1..]
  {
    WithoutAt(h.free, h.free[i], i);
  }

  /** What a free leaves: one free block in place of the block and its free neighbours. A free block before
      it keeps its place on the ring; without one the block is first on it. A free block after it leaves
      the ring. */
  lemma ReleaseOutcome(h: Pool, p: nat)
    requires Inv(h) && Live(h, p)
    ensures var k := BlockOf(h, p); var h' := Step(h, Release(p));
      var left := k > 0 && !h.blocks[k - 1].used;
      var right := k + 1 < |h.blocks| && !h.blocks[k + 1].used;
      var ring := if right then Without(h.free, h.blocks[k + 1].off) else h.free;
      var lo, hi := if left then k - 1 else k, if right then k + 1 else k;
      && h'.blocks == h.blocks[..lo] + [Block(h.blocks[lo].off, h.blocks[hi].next, false)] + h.blocks[hi + 1..]
      && h'.free == if left then ring else [h.blocks[k].off] + ring
  {
    hide Inv;
    var k := BlockOf(h, p);
    var r := Released(h, k);
    assert r.blocks == h.blocks[..k] + [h.blocks[k].(used := false)] + h.blocks[k + 1..];
    if k > 0 && !h.blocks[k - 1].used {
      var l := JoinLeft(r, k);
      assert l.blocks == h.blocks[..k - 1] + [Block(h.blocks[k - 1].off, h.blocks[k].next, false)] + h.blocks[k + 1..];
      if k < |l.blocks| && !l.blocks[k].used {
        assert l.blocks[k + 1..] == h.blocks[k + 2..] && l.blocks[..k - 1] == h.blocks[..k - 1];
      }
    } else if k + 1 < |h.blocks| && !h.blocks[k + 1].used {
      assert r.blocks[k + 2..] == h.blocks[k + 2..] && r.blocks[..k] == h.blocks[..k];
    }
  }

  /** Growing in place moves the boundary to the free block after it, which is first on the ring then; it
      happens if and only if more than a minimal payload is left of that block. */
  lemma EnlargeOutcome(h: Pool, p: nat, n: nat)
    requires Inv(h) && Enabled(h, Enlarge(p, n))
    ensures var k := BlockOf(h, p); var mid := h.blocks[k].off + 24 + n; var h' := Step(h, Enlarge(p, n));
      if k + 1 < |h.blocks| && !h.blocks[k + 1].used && h.blocks[k + 1].next - mid - 24 > 12 then
        && h'.blocks == h.blocks[..k] + [Block(h.blocks[k].off, mid, true), Block(mid, h.blocks[k + 1].next, false)]
                        + h.blocks[k + 2..]
        && h'.free == [mid] + Without(h.free, h.blocks[k + 1].off)
      else h' == h
  {
    var k := BlockOf(h, p);
    TiledAt(h.blocks, k, 24, 0, h.End());
    if CanGrow(h, k, n) {
      var m := Merge(h.blocks, k);
      assert m[..k] == h.blocks[..k] && m[k + 1..] == h.blocks[k + 2..];
    }
  }

  /** Shrinking in place cuts the block down to exactly `n` bytes, and the rest with a free block after it is
      one free block, first on the ring; it happens if and only if more than a header and a minimal payload
      come free. */
  lemma ReduceOutcome(h: Pool, p: nat, n: nat)
    requires Inv(h) && Enabled(h, Reduce(p, n))
    ensures var k := BlockOf(h, p); var b := h.blocks[k]; var mid := b.off + 24 + n; var h' := Step(h, Reduce(p, n));
      var right := k + 1 < |h.blocks| && !h.blocks[k + 1].used;
      var hi := if right then k + 1 else k;
      if b.next - mid > 24 + 12 then
        && h'.blocks == h.blocks[..k] + [Block(b.off, mid, true), Block(mid, h.blocks[hi].next, false)] + h.blocks[hi + 1..]
        && h'.free == [mid] + if right then Without(h.free, h.blocks[k + 1].off) else h.free
      else h' == h
  {
    hide Inv, Split, Merge, Without;
    var k := BlockOf(h, p);
    CutRest(h.blocks, k, h.blocks[k].off + 24 + n);
  }

  /** A block split in two, and the second part joined with the block after it. */
  lemma CutRest(bs: seq<Block>, k: nat, mid: nat)
    requires k < |bs|
    ensures var c := Split(bs, k, mid);
      && c == bs[..k] + [Block(bs[k].off, mid, true), Block(mid, bs[k].next, false)] + bs[k + 1..]
      && (k + 1 < |bs| ==>
            && c[k + 2] == bs[k + 1]
            && Merge(c, k + 1)
               == bs[..k] + [Block(bs[k].off, mid, true), Block(mid, bs[k + 1].next, false)] + bs[k + 2..])
  {
    var c := Split(bs, k, mid);
    if k + 1 < |bs| {
      assert c[k + 3..] == bs[k + 2..];
      assert c[..k + 1] == bs[..k] + [Block(bs[k].off, mid, true)];
    }
  }

  /** Which of these realloc is: a free for size zero and an allocation for null, otherwise a growth or a
      shrink in place when the block may grow or is large enough, and a move, or a failure as that of an
      allocation, when it is neither. */
  lemma ReallocCases(h: Pool, p: nat, newsize: nat)
    requires Inv(h) && Live(h, p) && newsize <= WORD - 16
    ensures var n := Request(newsize); var b := h.blocks[BlockOf(h, p)];
      var (h', r) := Realloc(h, Some(p), newsize);
      if newsize == 0 then h' == Step(h, Release(p)) && r.None?
      else if n <= Payload(b) then h' == Step(h, Reduce(p, n)) && r == Some(p)
      else
        && Enabled(h, Enlarge(p, n))
        && if Step(h, Enlarge(p, n)) != h then h' == Step(h, Enlarge(p, n)) && r == Some(p)
           else
             && r == Alloc(h, n).1 && r != Some(p)
             && if r.None? then h' == h
                else Live(Alloc(h, n).0, p) && h' == Step(Alloc(h, n).0, Release(p))
  {
    hide Shrink, Fetch, FreeBlock, Holds, Tiled, FreeBytes, NoFreeNeighbours, NoDup, FreeAt;
    var n, k := Request(newsize), BlockOf(h, p);
    RequestAligned(newsize);
    if newsize > 0 {
      RequestCovers(newsize);
      if n > Payload(h.blocks[k]) {
        if CanGrow(h, k, n) { GrowChanges(h, k, n); }
        else if Alloc(h, n).1.Some? {
          AllocHolds(h, n);
          AllocKeepsLive(h, n, p);
        } else {
          AllocFree(h, n);
        }
      }
    }
  }

  lemma GrowChanges(h: Pool, k: nat, n: nat)
    requires k < |h.blocks| && CanGrow(h, k, n) && n > Payload(h.blocks[k])
    ensures Grow(h, k, n) != h
  {
    assert Grow(h, k, n).available != h.available;
  }

  lemma AllocFree(h: Pool, size: nat)
    requires Alloc(h, size).1.None?
    ensures Alloc(h, size).0 == h
  {
  }

  /** Payloads of different live pointers do not overlap and lie inside the pool. */
  lemma PayloadsApart(h: Pool, p: nat, q: nat)
    requires Inv(h) && Live(h, p) && Live(h, q) && p < q
    ensures p + Payload(h.blocks[BlockOf(h, p)]) <= q - 24 && q + Payload(h.blocks[BlockOf(h, q)]) <= h.End()
    ensures Payload(h.blocks[BlockOf(h, p)]) >= 0
  {
    var i, j := BlockOf(h, p), BlockOf(h, q);
    if i < j { TiledOrdered(h.blocks, i, j, 24, 0, h.End()); }
    if j < i { TiledOrdered(h.blocks, j, i, 24, 0, h.End()); }
    TiledAt(h.blocks, j, 24, 0, h.End());
  }
}
