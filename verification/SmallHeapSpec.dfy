/** The abstract small-memory heap (rt-thread/src/mem.c, board/lua/lua_mem.c): first fit over an
    address-ordered list of blocks, with a lowest-free hint and usage counters. */
module SmallHeapSpec {
  import opened HeapBlocks
  import opened Sequences
  import opened Wrappers

  /** What differs between the two allocators: header size, minimum payload and the width of the
      `next` and `prev` fields. */
  datatype Config = Config(hdr: nat, minSize: nat, fieldMod: nat)

  const RT_HEAP := Config(12, 12, 0x1_0000_0000)
  const LUA_HEAP := Config(8, 8, 0x100_0000)

  predicate ValidConfig(c: Config) {
    c.hdr > 0 && c.hdr % 4 == 0 && c.minSize > 0 && c.minSize % 4 == 0
    && c.minSize <= c.hdr < 0x1000 && c.fieldMod <= WORD
  }

  /** `m` is mem_size_aligned; the sentinel block sits at offset `m + hdr`. A block is named by its
      offset, a payload pointer by the offset just past the header. */
  datatype Heap = Heap(c: Config, m: nat, blocks: seq<Block>, lfree: nat, usedMem: int, maxMem: int) {
    function End(): nat { m + c.hdr }

    function Payload(b: Block): int { b.next - b.off - c.hdr }
  }

  /** The size computation of heap initialisation; None is the reported error. */
  function InitSize(c: Config, begin: nat, end: nat): Option<nat> {
    var b := RtAlign(begin);
    var e := RtAlignDown(end);
    if e > 2 * c.hdr && e - 2 * c.hdr >= b then Some(e - b - 2 * c.hdr) else None
  }

  /** The heap begins at the first aligned address of the range and its two headers and `m` bytes reach its
      end, but for the last bytes that are no whole word; there is none only when the headers do not fit, or
      fit exactly at address zero. */
  lemma InitSizeFills(c: Config, begin: nat, end: nat)
    requires ValidConfig(c) && begin <= WORD - 4 && end < WORD
    ensures var b := RtAlign(begin);
      match InitSize(c, begin, end)
      case Some(m) => begin <= b < begin + 4 && m % 4 == 0 && b + m + 2 * c.hdr <= end < b + m + 2 * c.hdr + 4
      case None => b + 2 * c.hdr > end || (b == 0 && end < 2 * c.hdr + 4)
  {
    RtAlignCovers(begin);
  }

  function Init(c: Config, m: nat): Heap {
    Heap(c, m, [Block(0, m + c.hdr, false)], 0, 0, 0)
  }

  // ----- operations ---------------------------------------------------------------------------

  predicate Fits(h: Heap, b: Block, n: nat) {
    !b.used && h.Payload(b) >= n
  }

  /** What the search of malloc accepts: a fitting block from the hint on, strictly below M - n. */
  predicate Candidate(h: Heap, b: Block, n: nat) {
    b.off >= h.lfree && b.off < h.m - n && Fits(h, b, n)
  }

  function FindFit(h: Heap, n: nat, i: nat): (k: nat)
    requires i <= |h.blocks|
    ensures i <= k <= |h.blocks|
    ensures k < |h.blocks| ==> Candidate(h, h.blocks[k], n)
    ensures forall j :: i <= j < k ==> !Candidate(h, h.blocks[j], n)
    decreases |h.blocks| - i
  {
    if i == |h.blocks| || Candidate(h, h.blocks[i], n) then i else FindFit(h, n, i + 1)
  }

  /** The index of the first free block from index `i` on that is not below `from`. */
  function NextFree(bs: seq<Block>, from: nat, i: nat): (k: nat)
    requires i <= |bs|
    ensures i <= k <= |bs|
    ensures k < |bs| ==> bs[k].off >= from && !bs[k].used
    ensures forall j :: i <= j < k ==> bs[j].off < from || bs[j].used
    decreases |bs| - i
  {
    if i == |bs| || (bs[i].off >= from && !bs[i].used) then i else NextFree(bs, from, i + 1)
  }

  function OffsetAt(h: Heap, k: nat): nat {
    if k < |h.blocks| then h.blocks[k].off else h.End()
  }

  /** The hint after a block has been taken: unchanged unless that block was the hint. */
  function AdvanceHint(h: Heap, taken: nat): Heap {
    if taken == h.lfree then h.(lfree := OffsetAt(h, NextFree(h.blocks, h.lfree, 0))) else h
  }

  function Raise(h: Heap, bytes: int): Heap {
    var u := h.usedMem + bytes;
    h.(usedMem := u, maxMem := if h.maxMem < u then u else h.maxMem)
  }

  /** The blocks after `k` is taken for `n` bytes: split when the rest can hold a header and a minimal
      payload, used whole otherwise. */
  function Carve(h: Heap, k: nat, n: nat): seq<Block>
    requires k < |h.blocks|
  {
    var b := h.blocks[k];
    if h.Payload(b) >= n + h.c.hdr + h.c.minSize then Split(h.blocks, k, b.off + h.c.hdr + n)
    else Mark(h.blocks, k, true)
  }

  /** Count block `k` of the new blocks as used and move the hint off it. */
  function Taken(h: Heap, bs: seq<Block>, k: nat): Heap
    requires k < |bs|
  {
    AdvanceHint(Raise(h.(blocks := bs), bs[k].next - bs[k].off), bs[k].off)
  }

  function Take(h: Heap, k: nat, n: nat): Heap
    requires k < |h.blocks|
  {
    Taken(h, Carve(h, k, n), k)
  }

  function Request(h: Heap, size: nat): nat {
    var a := RtAlign(size);
    if a < h.c.minSize then h.c.minSize else a
  }

  function Malloc(h: Heap, size: nat): (Heap, Option<nat>) {
    if size == 0 || RtAlign(size) > h.m then (h, None)
    else
      var k := FindFit(h, Request(h, size), 0);
      if k == |h.blocks| then (h, None)
      else (Take(h, k, Request(h, size)), Some(h.blocks[k].off + h.c.hdr))
  }

  /** Join block `k` with a free block after it; a hint on the absorbed block moves to `k`. */
  function PlugForward(h: Heap, k: nat): Heap
    requires k < |h.blocks|
  {
    if k + 1 < |h.blocks| && !h.blocks[k + 1].used then
      h.(blocks := Merge(h.blocks, k),
         lfree := if h.lfree == h.blocks[k + 1].off then h.blocks[k].off else h.lfree)
    else h
  }

  /** Join block `k` with a free block before it; a hint on `k` moves to the absorbing block. */
  function PlugBackward(h: Heap, k: nat): Heap
    requires k < |h.blocks|
  {
    if k > 0 && !h.blocks[k - 1].used then
      h.(blocks := Merge(h.blocks, k - 1),
         lfree := if h.lfree == h.blocks[k].off then h.blocks[k - 1].off else h.lfree)
    else h
  }

  function PlugHoles(h: Heap, k: nat): Heap
    requires k < |h.blocks|
  {
    PlugBackward(PlugForward(h, k), k)
  }

  function ClearUsed(h: Heap, k: nat): Heap
    requires k < |h.blocks|
  {
    var b := h.blocks[k];
    h.(blocks := Mark(h.blocks, k, false),
       lfree := if b.off < h.lfree then b.off else h.lfree,
       usedMem := h.usedMem - (b.next - b.off))
  }

  function FreeBlock(h: Heap, k: nat): Heap
    requires k < |h.blocks|
  {
    PlugHoles(ClearUsed(h, k), k)
  }

  function Cut(h: Heap, k: nat, n: nat): Heap
    requires k < |h.blocks|
  {
    var b := h.blocks[k];
    h.(blocks := Split(h.blocks, k, b.off + h.c.hdr + n), usedMem := h.usedMem - (h.Payload(b) - n))
  }

  /** The in-place branch of realloc: cut block `k` down to `n` payload bytes and free the rest. */
  function Shrink(h: Heap, k: nat, n: nat): Heap
    requires k < |h.blocks|
  {
    PlugHoles(Cut(h, k, n), k + 1)
  }

  /** A pointer a caller holds: the payload of a used block. */
  predicate Live(h: Heap, p: nat) {
    var k := IndexOf(h.blocks, p - h.c.hdr, 0);
    k < |h.blocks| && h.blocks[k].used
  }

  function BlockOf(h: Heap, p: nat): (k: nat)
    requires Live(h, p)
    ensures k < |h.blocks| && h.blocks[k].off + h.c.hdr == p && h.blocks[k].used
  {
    IndexOf(h.blocks, p - h.c.hdr, 0)
  }

  /** The payload size of the block of a live pointer. */
  function SizeAt(h: Heap, p: nat): nat {
    if Live(h, p) && h.Payload(h.blocks[BlockOf(h, p)]) >= 0 then h.Payload(h.blocks[BlockOf(h, p)]) else 0
  }

  /** What the C code asks of its callers: a pointer into the heap is one it handed out and did not
      take back. Null and addresses beyond the heap are handled. */
  predicate LegalPtr(h: Heap, p: Option<nat>) {
    p.Some? && p.value < h.End() ==> Live(h, p.value)
  }

  /** rt_free on null, on an address outside the heap (ignored) or on a live pointer. */
  function Free(h: Heap, p: Option<nat>): Heap
    requires LegalPtr(h, p)
  {
    if p.None? || p.value >= h.End() then h else FreeBlock(h, BlockOf(h, p.value))
  }

  /** The last branch of realloc: a new block, and the old one freed when there is one. */
  function Relocate(h: Heap, p: nat, n: nat): (Heap, Option<nat>) {
    var h1 := Malloc(h, n).0;
    var q := Malloc(h, n).1;
    (if q.Some? && Live(h1, p) then FreeBlock(h1, BlockOf(h1, p)) else h1, q)
  }

  /** rt_realloc: the new heap and the returned pointer. */
  function Realloc(h: Heap, p: Option<nat>, newsize: nat): (Heap, Option<nat>)
    requires LegalPtr(h, p)
  {
    var n := RtAlign(newsize);
    if n > h.m then (h, None)
    else if p.None? then Malloc(h, n)
    else if p.value >= h.End() || SizeAt(h, p.value) == n then (h, p)
    else if n + h.c.hdr + h.c.minSize < SizeAt(h, p.value) then (Shrink(h, BlockOf(h, p.value), n), p)
    else Relocate(h, p.value, n)
  }

  // ----- invariant ----------------------------------------------------------------------------

  /** A size heap initialisation can arrive at, for a heap its link fields can address. */
  predicate ValidSize(c: Config, m: nat) {
    ValidConfig(c) && m >= c.minSize && m % 4 == 0 && m + c.hdr < c.fieldMod && m + 2 * c.hdr <= WORD
  }

  ghost predicate Shape(h: Heap) {
    ValidSize(h.c, h.m) && Layout(h.blocks, h.c.hdr, h.End())
  }

  /** The hint names a free block or the sentinel. */
  ghost predicate HintOk(h: Heap) {
    h.lfree == h.End() || FreeAt(h.blocks, h.lfree)
  }

  /** The hint is what its declaration promises: the lowest free block. */
  ghost predicate HintLowest(h: Heap) {
    HintOk(h) && forall off :: FreeAt(h.blocks, off) ==> h.lfree <= off
  }

  ghost predicate Accounts(h: Heap) {
    h.usedMem == UsedBytes(h.blocks) && h.usedMem <= h.maxMem
  }

  ghost predicate Inv(h: Heap) {
    Shape(h) && NoFreeNeighbours(h.blocks) && HintOk(h) && Accounts(h)
  }

  // ----- every step keeps the invariant -------------------------------------------------------

  lemma InitEstablishes(c: Config, m: nat)
    requires ValidSize(c, m)
    ensures Inv(Init(c, m)) && HintLowest(Init(c, m))
  {
    var h := Init(c, m);
    assert h.blocks[0] in h.blocks;
    assert h.blocks[1..] == [] && UsedBytes(h.blocks[1..]) == 0;
  }

  /** A header placed after `n` aligned payload bytes of a block is aligned. */
  lemma MidAligned(h: Heap, k: nat, n: nat)
    requires Shape(h) && k < |h.blocks| && n % 4 == 0
    ensures (h.blocks[k].off + h.c.hdr + n) % 4 == 0
  {
    assert h.blocks[k].off % 4 == 0 by { TiledAt(h.blocks, k, h.c.hdr, 0, h.End()); }
    Multiples4(h.blocks[k].off, h.c.hdr, n);
  }

  lemma Multiples4(a: nat, b: nat, c: nat)
    requires a % 4 == 0 && b % 4 == 0 && c % 4 == 0
    ensures (a + b + c) % 4 == 0
  {
  }

  lemma CarveShape(h: Heap, k: nat, n: nat)
    requires Shape(h) && NoFreeNeighbours(h.blocks)
    requires k < |h.blocks| && Fits(h, h.blocks[k], n) && n % 4 == 0
    ensures Layout(Carve(h, k, n), h.c.hdr, h.End()) && NoFreeNeighbours(Carve(h, k, n))
  {
    var mid := h.blocks[k].off + h.c.hdr + n;
    if h.Payload(h.blocks[k]) >= n + h.c.hdr + h.c.minSize {
      MidAligned(h, k, n);
      SplitLayout(h.blocks, k, mid, h.c.hdr, h.End());
      SplitFree(h.blocks, k, mid);
    } else {
      MarkLayout(h.blocks, k, true, h.c.hdr, h.End());
      MarkUsed(h.blocks, k);
    }
  }

  /** The bytes added to the usage counter are the extent of the block handed out. */
  lemma CarveAccounts(h: Heap, k: nat, n: nat)
    requires k < |h.blocks| && !h.blocks[k].used
    ensures var bs := Carve(h, k, n); UsedBytes(bs) == UsedBytes(h.blocks) + (bs[k].next - bs[k].off)
  {
    var b := h.blocks[k];
    if h.Payload(b) >= n + h.c.hdr + h.c.minSize {
      UsedBytesSplit(h.blocks, k, b.off + h.c.hdr + n);
    } else {
      UsedBytesMark(h.blocks, k, true);
    }
  }

  /** Carving leaves every other free block free, and frees none below the carved one. */
  lemma CarveFree(h: Heap, k: nat, n: nat, off: nat)
    requires k < |h.blocks| && !h.blocks[k].used && h.c.hdr > 0
    ensures off != h.blocks[k].off && FreeAt(h.blocks, off) ==> FreeAt(Carve(h, k, n), off)
    ensures FreeAt(Carve(h, k, n), off) ==> FreeAt(h.blocks, off) || off > h.blocks[k].off
  {
    SplitFreeAt(h.blocks, k, h.blocks[k].off + h.c.hdr + n, off);
    MarkFreeAt(h.blocks, k, true, off);
  }

  /** Moving the hint off a block that has just been used keeps it the lowest free block. */
  lemma AdvanceHintKeeps(h: Heap, taken: nat)
    requires Tiled(h.blocks, h.c.hdr, 0, h.End())
    requires taken != h.lfree ==> HintOk(h)
    ensures HintOk(AdvanceHint(h, taken))
    ensures (forall off :: FreeAt(h.blocks, off) ==> h.lfree <= off) ==> HintLowest(AdvanceHint(h, taken))
  {
    var bs := h.blocks;
    var t := AdvanceHint(h, taken);
    var l := NextFree(bs, h.lfree, 0);
    if taken == h.lfree {
      if l < |bs| { assert bs[l] in bs; }
      if forall off :: FreeAt(bs, off) ==> h.lfree <= off {
        forall off | FreeAt(bs, off) ensures t.lfree <= off { AdvanceHintLeast(h, off, l); }
      }
    }
  }

  lemma AdvanceHintLeast(h: Heap, off: nat, l: nat)
    requires Tiled(h.blocks, h.c.hdr, 0, h.End())
    requires FreeAt(h.blocks, off) && h.lfree <= off && l == NextFree(h.blocks, h.lfree, 0)
    ensures OffsetAt(h, l) <= off
  {
    var b :| b in h.blocks && b.off == off && !b.used;
    var i :| 0 <= i < |h.blocks| && h.blocks[i] == b;
    if l < i { TiledOrdered(h.blocks, l, i, h.c.hdr, 0, h.End()); }
  }

  lemma TakeKeeps(h: Heap, k: nat, n: nat)
    requires Inv(h) && k < |h.blocks| && Candidate(h, h.blocks[k], n) && n % 4 == 0
    ensures Inv(Take(h, k, n))
    ensures HintLowest(h) ==> HintLowest(Take(h, k, n))
  {
    CarveShape(h, k, n);
    CarveAccounts(h, k, n);
    forall o: nat ensures
      && (o != h.blocks[k].off && FreeAt(h.blocks, o) ==> FreeAt(Carve(h, k, n), o))
      && (FreeAt(Carve(h, k, n), o) ==> FreeAt(h.blocks, o) || o > h.blocks[k].off)
    {
      CarveFree(h, k, n, o);
    }
    CarvedKeeps(h, Carve(h, k, n), k);
  }

  /** The counters and the hint after the blocks have become `bs`, in which block `k` is newly used. */
  lemma CarvedKeeps(h: Heap, bs: seq<Block>, k: nat)
    requires Inv(h) && k < |bs|
    requires Layout(bs, h.c.hdr, h.End()) && NoFreeNeighbours(bs)
    requires UsedBytes(bs) == UsedBytes(h.blocks) + (bs[k].next - bs[k].off)
    requires bs[k].off >= h.lfree
    requires forall o: nat :: o != bs[k].off && FreeAt(h.blocks, o) ==> FreeAt(bs, o)
    requires forall o: nat :: FreeAt(bs, o) ==> FreeAt(h.blocks, o) || o > bs[k].off
    ensures Inv(Taken(h, bs, k)) && (HintLowest(h) ==> HintLowest(Taken(h, bs, k)))
  {
    AdvanceHintKeeps(Raise(h.(blocks := bs), bs[k].next - bs[k].off), bs[k].off);
  }

  lemma RequestAligned(h: Heap, size: nat)
    requires ValidConfig(h.c)
    ensures Request(h, size) % 4 == 0 && Request(h, size) >= h.c.minSize
    ensures RtAlign(size) <= h.m && h.c.minSize <= h.m ==> Request(h, size) <= h.m
  {
  }

  lemma MallocKeeps(h: Heap, size: nat)
    requires Inv(h)
    ensures Inv(Malloc(h, size).0)
    ensures HintLowest(h) ==> HintLowest(Malloc(h, size).0)
  {
    RequestAligned(h, size);
    var n := Request(h, size);
    var k := FindFit(h, n, 0);
    if size != 0 && RtAlign(size) <= h.m && k < |h.blocks| {
      TakeKeeps(h, k, n);
    }
  }

  /** What holds between clearing a used flag and plugging the holes around it. */
  ghost predicate Holed(h: Heap, k: nat) {
    && Shape(h) && HintOk(h) && Accounts(h)
    && k < |h.blocks| && !h.blocks[k].used
    && NoFreeBut(h.blocks, k)
  }

  /** Joining two free neighbours keeps the layout, the accounts and the hint. */
  lemma MergeKeeps(h: Heap, k: nat)
    requires Shape(h) && HintOk(h) && Accounts(h)
    requires k + 1 < |h.blocks| && !h.blocks[k].used && !h.blocks[k + 1].used
    ensures var h' := h.(blocks := Merge(h.blocks, k),
                         lfree := if h.lfree == h.blocks[k + 1].off then h.blocks[k].off else h.lfree);
            Shape(h') && HintOk(h') && Accounts(h') && (HintLowest(h) ==> HintLowest(h'))
  {
    var bs := h.blocks;
    assert bs[k].off <= bs[k + 1].off by { TiledOrdered(bs, k, k + 1, h.c.hdr, 0, h.End()); }
    assert Layout(Merge(bs, k), h.c.hdr, h.End()) by { MergeLayout(bs, k, h.c.hdr, h.End()); }
    assert UsedBytes(Merge(bs, k)) == UsedBytes(bs) by { UsedBytesMerge(bs, k); }
    MergeHint(h, k);
  }

  lemma PlugForwardKeeps(h: Heap, k: nat)
    requires Holed(h, k)
    ensures Holed(PlugForward(h, k), k)
    ensures k + 1 < |PlugForward(h, k).blocks| ==> PlugForward(h, k).blocks[k + 1].used
    ensures HintLowest(h) ==> HintLowest(PlugForward(h, k))
  {
    if k + 1 < |h.blocks| && !h.blocks[k + 1].used {
      MergeKeeps(h, k);
      MergeForward(h.blocks, k);
    }
  }

  /** The hint after two free blocks are joined: it follows the absorbed block. */
  lemma MergeHint(h: Heap, k: nat)
    requires HintOk(h) && k + 1 < |h.blocks| && !h.blocks[k].used && !h.blocks[k + 1].used
    requires h.blocks[k].off <= h.blocks[k + 1].off
    ensures var h' := h.(blocks := Merge(h.blocks, k),
                         lfree := if h.lfree == h.blocks[k + 1].off then h.blocks[k].off else h.lfree);
            HintOk(h') && (HintLowest(h) ==> HintLowest(h'))
  {
    var bs := h.blocks;
    MergeFreeAt(bs, k, h.lfree);
    assert bs[k] in bs;
    MergeFreeAt(bs, k, bs[k].off);
    assert Block(bs[k].off, bs[k + 1].next, bs[k].used) in Merge(bs, k);
    forall off | FreeAt(Merge(bs, k), off) ensures FreeAt(bs, off) { MergeFreeAt(bs, k, off); }
  }

  lemma PlugBackwardKeeps(h: Heap, k: nat)
    requires Holed(h, k)
    requires k + 1 < |h.blocks| ==> h.blocks[k + 1].used
    ensures Inv(PlugBackward(h, k))
    ensures HintLowest(h) ==> HintLowest(PlugBackward(h, k))
  {
    if k > 0 && !h.blocks[k - 1].used {
      MergeKeeps(h, k - 1);
      assert NoFreeNeighbours(Merge(h.blocks, k - 1)) by { MergeBackward(h.blocks, k); }
    } else {
      NoHole(h.blocks, k);
    }
  }

  lemma PlugHolesKeeps(h: Heap, k: nat)
    requires Holed(h, k)
    ensures Inv(PlugHoles(h, k))
    ensures HintLowest(h) ==> HintLowest(PlugHoles(h, k))
  {
    PlugForwardKeeps(h, k);
    PlugBackwardKeeps(PlugForward(h, k), k);
  }

  /** Plugging holes neither takes nor gives back a used block. */
  lemma PlugUsedIn(h: Heap, k: nat)
    requires k < |h.blocks| && !h.blocks[k].used
    ensures UsedIn(PlugHoles(h, k).blocks, h.blocks) && UsedIn(h.blocks, PlugHoles(h, k).blocks)
  {
    var f := PlugForward(h, k);
    if k + 1 < |h.blocks| && !h.blocks[k + 1].used { MergeUsedIn(h.blocks, k); }
    if k > 0 && !f.blocks[k - 1].used { MergeUsedIn(f.blocks, k - 1); }
  }

  /** Freeing a block keeps the other used blocks as they are. */
  lemma FreeBlockOthers(h: Heap, k: nat)
    requires k < |h.blocks|
    ensures UsedIn(FreeBlock(h, k).blocks, h.blocks)
    ensures forall b :: b in h.blocks && b.used && b != h.blocks[k] ==> b in FreeBlock(h, k).blocks
  {
    var c := ClearUsed(h, k);
    assert !c.blocks[k].used;
    MarkFreeUsedIn(h.blocks, k);
    PlugUsedIn(c, k);
  }

  lemma ClearUsedHoled(h: Heap, k: nat)
    requires Inv(h) && k < |h.blocks| && h.blocks[k].used
    ensures Holed(ClearUsed(h, k), k)
    ensures HintLowest(h) ==> HintLowest(ClearUsed(h, k))
  {
    var b := h.blocks[k];
    var h1 := ClearUsed(h, k);
    assert Layout(h1.blocks, h.c.hdr, h.End()) by { MarkLayout(h.blocks, k, false, h.c.hdr, h.End()); }
    assert Accounts(h1) by {
      UsedBytesMark(h.blocks, k, false);
      TiledAt(h.blocks, k, h.c.hdr, 0, h.End());
    }
    assert NoFreeBut(h1.blocks, k) by { MarkFree(h.blocks, k); }
    assert HintOk(h1) by { MarkFreeAt(h.blocks, k, false, h.lfree); }
    assert HintLowest(h) ==> HintLowest(h1) by {
      forall off | FreeAt(h1.blocks, off) ensures FreeAt(h.blocks, off) || off == b.off {
        MarkFreeAt(h.blocks, k, false, off);
      }
    }
  }

  lemma FreeBlockKeeps(h: Heap, k: nat)
    requires Inv(h) && k < |h.blocks| && h.blocks[k].used
    ensures Inv(FreeBlock(h, k))
    ensures HintLowest(h) ==> HintLowest(FreeBlock(h, k))
  {
    ClearUsedHoled(h, k);
    PlugHolesKeeps(ClearUsed(h, k), k);
  }

  lemma CutHoled(h: Heap, k: nat, n: nat)
    requires Inv(h) && k < |h.blocks| && h.blocks[k].used && n % 4 == 0
    requires n + h.c.hdr + h.c.minSize < h.Payload(h.blocks[k])
    ensures Holed(Cut(h, k, n), k + 1)
  {
    hide Tiled, UsedBytes, NoFreeNeighbours, NoFreeBut;
    var b := h.blocks[k];
    var mid := b.off + h.c.hdr + n;
    var h1 := Cut(h, k, n);
    assert Layout(h1.blocks, h.c.hdr, h.End()) by {
      MidAligned(h, k, n);
      SplitLayout(h.blocks, k, mid, h.c.hdr, h.End());
    }
    assert Accounts(h1) by { UsedBytesSplit(h.blocks, k, mid); }
    assert NoFreeBut(h1.blocks, k + 1) by { SplitUsed(h.blocks, k, mid); }
    assert HintOk(h1) by { SplitFreeAt(h.blocks, k, mid, h.lfree); }
  }

  lemma ShrinkKeeps(h: Heap, k: nat, n: nat)
    requires Inv(h) && k < |h.blocks| && h.blocks[k].used && n % 4 == 0
    requires n + h.c.hdr + h.c.minSize < h.Payload(h.blocks[k])
    ensures Inv(Shrink(h, k, n))
  {
    CutHoled(h, k, n);
    PlugHolesKeeps(Cut(h, k, n), k + 1);
  }

  lemma LiveBlock(h: Heap, b: Block)
    requires Shape(h) && b in h.blocks && b.used
    ensures Live(h, b.off + h.c.hdr) && h.blocks[BlockOf(h, b.off + h.c.hdr)] == b
  {
    IndexFinds(h.blocks, b, h.c.hdr, 0, h.End());
  }

  /** A payload holds `n` bytes, and is too small to be split for them. */
  predicate Room(c: Config, n: nat, payload: int) {
    n <= payload < (if n < c.minSize then c.minSize else n) + c.hdr + c.minSize
  }

  /** What taking block `k` for `n` bytes does to the blocks: that one is used in place and holds `n`
      bytes but not many more, the others stay as they are. */
  ghost predicate Hands(h: Heap, h': Heap, k: nat, n: nat) {
    && k < |h.blocks| && h'.c == h.c
    && (exists b :: b in h'.blocks && b.used && b.off == h.blocks[k].off && Room(h.c, n, h.Payload(b)))
    && (forall b :: b in h.blocks && b != h.blocks[k] ==> b in h'.blocks)
  }

  lemma TakeHands(h: Heap, k: nat, n: nat)
    requires k < |h.blocks| && Fits(h, h.blocks[k], n) && h.c.hdr + h.c.minSize > 0
    ensures Hands(h, Take(h, k, n), k, n)
  {
    var bs := Carve(h, k, n);
    assert bs[k] in bs;
    assert h.blocks == h.blocks[..k] + [h.blocks[k]] + h.blocks[k + 1..];
  }

  lemma MallocTakes(h: Heap, size: nat) returns (k: nat)
    requires h.c.hdr + h.c.minSize > 0 && Malloc(h, size).1.Some?
    ensures k < |h.blocks| && Candidate(h, h.blocks[k], Request(h, size))
    ensures Malloc(h, size).1 == Some(h.blocks[k].off + h.c.hdr)
    ensures Hands(h, Malloc(h, size).0, k, Request(h, size))
  {
    k := FindFit(h, Request(h, size), 0);
    TakeHands(h, k, Request(h, size));
  }

  lemma HandsKeepLive(h: Heap, h': Heap, k: nat, n: nat, p: nat)
    requires Inv(h) && Shape(h') && Hands(h, h', k, n) && !h.blocks[k].used && Live(h, p)
    ensures Live(h', p) && h'.blocks[BlockOf(h', p)] == h.blocks[BlockOf(h, p)]
    ensures h.blocks[k].off + h.c.hdr != p
  {
    var i := BlockOf(h, p);
    LiveBlock(h', h.blocks[i]);
    if i < k { TiledOrdered(h.blocks, i, k, h.c.hdr, 0, h.End()); }
    else { TiledOrdered(h.blocks, k, i, h.c.hdr, 0, h.End()); }
  }

  /** Malloc does not disturb a live pointer or its block. */
  lemma MallocKeepsLive(h: Heap, size: nat, p: nat)
    requires Inv(h) && Live(h, p)
    ensures Live(Malloc(h, size).0, p)
    ensures Malloc(h, size).0.blocks[BlockOf(Malloc(h, size).0, p)] == h.blocks[BlockOf(h, p)]
    ensures Malloc(h, size).1 != Some(p)
  {
    hide Malloc, Take;
    MallocAt(h, size);
    if Malloc(h, size).1.Some? {
      var k := MallocTakes(h, size);
      assert Shape(Malloc(h, size).0) by { MallocKeeps(h, size); }
      HandsKeepLive(h, Malloc(h, size).0, k, Request(h, size), p);
    }
  }

  lemma RelocateKeeps(h: Heap, p: nat, n: nat)
    requires Inv(h) && Live(h, p)
    ensures Inv(Relocate(h, p, n).0)
  {
    var h1 := Malloc(h, n).0;
    assert Inv(h1) by { MallocKeeps(h, n); }
    if Live(h1, p) { FreeBlockKeeps(h1, BlockOf(h1, p)); }
  }

  lemma ReallocKeeps(h: Heap, p: Option<nat>, newsize: nat)
    requires Inv(h) && LegalPtr(h, p)
    ensures Inv(Realloc(h, p, newsize).0)
  {
    var n := RtAlign(newsize);
    if n <= h.m {
      if p.None? {
        MallocKeeps(h, n);
      } else if p.value < h.End() {
        if SizeAt(h, p.value) != n {
          if n + h.c.hdr + h.c.minSize < SizeAt(h, p.value) { ShrinkKeeps(h, BlockOf(h, p.value), n); }
          else { RelocateKeeps(h, p.value, n); }
        }
      }
    }
  }

  // ----- first fit ----------------------------------------------------------------------------

  /** An exact fit that ends at the sentinel, which the strict bound of the search skips. */
  predicate AtEnd(h: Heap, b: Block, n: nat) {
    h.Payload(b) == n && b.next == h.End()
  }

  /** The strict search bound skips a fitting block only when it is an exact fit that ends at the sentinel. */
  lemma SkippedFit(h: Heap, b: Block, n: nat)
    requires Inv(h) && b in h.blocks && Fits(h, b, n)
    ensures b.off >= h.m - n <==> AtEnd(h, b, n)
  {
    TiledBounds(h.blocks, h.c.hdr, 0, h.End());
  }

  /** In any heap, whatever the hint, malloc fails exactly when the size is zero or above the heap's, or
      every block that fits lies below the hint or is an exact fit at the sentinel. */
  lemma MallocFails(h: Heap, size: nat)
    requires Inv(h)
    ensures Malloc(h, size).1.None? <==>
      size == 0 || RtAlign(size) > h.m
      || forall b :: b in h.blocks && Fits(h, b, Request(h, size)) ==> b.off < h.lfree || AtEnd(h, b, Request(h, size))
  {
    hide Inv, Fits, AtEnd, Take;
    MallocAt(h, size);
    var n := Request(h, size);
    forall b | b in h.blocks ensures Candidate(h, b, n) <==> Fits(h, b, n) && b.off >= h.lfree && !AtEnd(h, b, n) {
      if Fits(h, b, n) { SkippedFit(h, b, n); }
    }
    var k := FindFit(h, n, 0);
    if k < |h.blocks| { assert h.blocks[k] in h.blocks; }
  }

  /** In any heap malloc returns the lowest block at or above the hint that fits and is no exact fit at
      the sentinel. */
  lemma MallocLowest(h: Heap, size: nat)
    requires Inv(h) && Malloc(h, size).1.Some?
    ensures var n := Request(h, size); var p := Malloc(h, size).1.value;
      && (exists b :: b in h.blocks && Fits(h, b, n) && b.off >= h.lfree && !AtEnd(h, b, n) && p == b.off + h.c.hdr)
      && (forall b :: b in h.blocks && Fits(h, b, n) && b.off >= h.lfree && !AtEnd(h, b, n) ==> p <= b.off + h.c.hdr)
  {
    hide Layout, NoFreeNeighbours, HintOk, Accounts, Take, AtEnd;
    MallocAt(h, size);
    var n := Request(h, size);
    var k := FindFit(h, n, 0);
    assert h.blocks[k] in h.blocks;
    SkippedFit(h, h.blocks[k], n);
    forall b | b in h.blocks && Fits(h, b, n) && b.off >= h.lfree && !AtEnd(h, b, n)
      ensures h.blocks[k].off <= b.off
    {
      SkippedFit(h, b, n);
      CandidateAbove(h, b, n);
    }
  }

  lemma CandidateAbove(h: Heap, b: Block, n: nat)
    requires Inv(h) && b in h.blocks && Candidate(h, b, n)
    ensures FindFit(h, n, 0) < |h.blocks| && h.blocks[FindFit(h, n, 0)].off <= b.off
  {
    var i :| 0 <= i < |h.blocks| && h.blocks[i] == b;
    var k := FindFit(h, n, 0);
    if k < i { TiledOrdered(h.blocks, k, i, h.c.hdr, 0, h.End()); }
  }

  /** First fit over the whole heap: the lowest block that fits, exact fits at the sentinel apart. */
  ghost predicate FirstFit(h: Heap, n: nat, r: Option<nat>) {
    match r
    case None => forall b :: b in h.blocks && Fits(h, b, n) ==> AtEnd(h, b, n)
    case Some(p) =>
      && (exists b :: b in h.blocks && Fits(h, b, n) && !AtEnd(h, b, n) && p == b.off + h.c.hdr)
      && (forall b :: b in h.blocks && Fits(h, b, n) && !AtEnd(h, b, n) ==> p <= b.off + h.c.hdr)
  }

  /** Malloc is first fit if and only if no block it could have used lies below the hint; a hint at the
      lowest free block is enough. */
  lemma MallocIsFirstFit(h: Heap, size: nat)
    requires Inv(h) && 0 < size && RtAlign(size) <= h.m
    ensures var n := Request(h, size);
      FirstFit(h, n, Malloc(h, size).1)
      <==> forall b :: b in h.blocks && Fits(h, b, n) && b.off < h.lfree ==> AtEnd(h, b, n)
    ensures HintLowest(h) ==> FirstFit(h, Request(h, size), Malloc(h, size).1)
  {
    hide Malloc, Inv, AtEnd, Request;
    var n := Request(h, size);
    MallocFails(h, size);
    if Malloc(h, size).1.Some? { MallocLowest(h, size); }
    if HintLowest(h) {
      forall b | b in h.blocks && Fits(h, b, n) ensures b.off >= h.lfree { assert FreeAt(h.blocks, b.off); }
    }
  }

  /** The whole payload of a new heap cannot be allocated: it is an exact fit at the sentinel. */
  lemma WholeHeapFails(c: Config, m: nat)
    requires ValidSize(c, m)
    ensures Malloc(Init(c, m), m) == (Init(c, m), None)
  {
    assert RtAlign(m) == m;
    assert FindFit(Init(c, m), m, 1) == 1 && FindFit(Init(c, m), m, 0) == 1;
  }

  lemma HandsHold(h: Heap, h': Heap, k: nat, n: nat)
    requires Inv(h) && Shape(h') && Hands(h, h', k, n)
    ensures var p := h.blocks[k].off + h.c.hdr;
      Live(h', p) && p % 4 == 0 && Room(h.c, n, h'.Payload(h'.blocks[BlockOf(h', p)]))
  {
    var b :| b in h'.blocks && b.used && b.off == h.blocks[k].off && Room(h.c, n, h.Payload(b));
    LiveBlock(h', b);
    MidAligned(h, k, 0);
  }

  /** The block handed out holds the request, and all of it unless the request wraps in alignment; it is
      smaller than one that could be split for it. */
  lemma MallocHolds(h: Heap, size: nat)
    requires Inv(h) && size < WORD && Malloc(h, size).1.Some?
    ensures var h' := Malloc(h, size).0; var p := Malloc(h, size).1.value;
      && Live(h', p) && p % 4 == 0 && h'.Payload(h'.blocks[BlockOf(h', p)]) >= Request(h, size)
      && h'.Payload(h'.blocks[BlockOf(h', p)]) >= h.c.minSize
      && Room(h.c, RtAlign(size), h'.Payload(h'.blocks[BlockOf(h', p)]))
    ensures Request(h, size) >= size <==> size <= WORD - 4
  {
    hide Malloc, Take, Tiled, NoFreeNeighbours, UsedBytes, FreeAt;
    MallocAt(h, size);
    var k := MallocTakes(h, size);
    var h' := Malloc(h, size).0;
    assert Shape(h') by { MallocKeeps(h, size); }
    HandsHold(h, h', k, Request(h, size));
    assert Request(h, size) >= size <==> size <= WORD - 4 by { RequestCovers(h, size); }
  }

  /** What malloc does to the blocks, in any heap: the free block at the pointer returned is used for the
      aligned size or the minimal payload, whichever is larger. It is cut down to exactly that, the rest
      being a free block of its own, when the rest has room for a header and a minimal payload, and is used
      whole otherwise. Every other block stays as it was. */
  lemma MallocBlocks(h: Heap, size: nat) returns (k: nat)
    requires Inv(h) && Malloc(h, size).1.Some?
    ensures k < |h.blocks| && !h.blocks[k].used && Malloc(h, size).1 == Some(h.blocks[k].off + h.c.hdr)
    ensures var n := if RtAlign(size) < h.c.minSize then h.c.minSize else RtAlign(size);
      var b := h.blocks[k]; var mid := b.off + h.c.hdr + n;
      mid <= b.next && Malloc(h, size).0.blocks ==
        h.blocks[..k]
        + (if mid + h.c.hdr + h.c.minSize <= b.next then [Block(b.off, mid, true), Block(mid, b.next, false)]
           else [Block(b.off, b.next, true)])
        + h.blocks[k + 1..]
  {
    hide Inv;
    MallocAt(h, size);
    k := FindFit(h, Request(h, size), 0);
  }

  /** The hint after malloc: as it was, or, when it was the block handed out, the first free block after
      it, or the sentinel. */
  lemma MallocMovesHint(h: Heap, size: nat)
    requires Inv(h) && Malloc(h, size).1.Some?
    ensures var h' := Malloc(h, size).0; var p := Malloc(h, size).1.value;
      if p != h.lfree + h.c.hdr then h'.lfree == h.lfree
      else
        && (h'.lfree == h.End() || FreeAt(h'.blocks, h'.lfree))
        && (forall b :: b in h'.blocks && !b.used && b.off >= h.lfree ==> h'.lfree <= b.off) && h'.lfree >= h.lfree
  {
    hide Malloc, Carve, NoFreeNeighbours, Accounts;
    MallocKeeps(h, size);
    MallocAt(h, size);
    RequestAligned(h, size);
    var k, n := FindFit(h, Request(h, size), 0), Request(h, size);
    CarveShape(h, k, n);
    CarveAt(h, k, n);
    var bs := Carve(h, k, n);
    HintMoved(Raise(h.(blocks := bs), bs[k].next - bs[k].off), bs[k].off);
    hide Tiled, NextFree;
    if h.lfree != h.End() { TiledBounds(h.blocks, h.c.hdr, 0, h.End()); }
  }

  lemma CarveAt(h: Heap, k: nat, n: nat)
    requires k < |h.blocks|
    ensures k < |Carve(h, k, n)| && Carve(h, k, n)[k].off == h.blocks[k].off
  {
  }

  lemma HintMoved(h: Heap, taken: nat)
    requires Tiled(h.blocks, h.c.hdr, 0, h.End())
    ensures var t := AdvanceHint(h, taken);
      if taken != h.lfree then t == h
      else
        && t == h.(lfree := t.lfree) && (h.lfree <= h.End() ==> t.lfree >= h.lfree)
        && forall b :: b in h.blocks && !b.used && b.off >= h.lfree ==> t.lfree <= b.off
  {
    if taken == h.lfree {
      var l := NextFree(h.blocks, h.lfree, 0);
      forall b | b in h.blocks && !b.used && b.off >= h.lfree ensures OffsetAt(h, l) <= b.off {
        assert FreeAt(h.blocks, b.off);
        AdvanceHintLeast(h, b.off, l);
      }
    }
  }

  lemma RequestCovers(h: Heap, size: nat)
    requires ValidConfig(h.c) && h.c.minSize < 0x1000 && 0 < size < WORD
    ensures Request(h, size) >= size <==> size <= WORD - 4
  {
    RtAlignCovers(size);
  }

  /** The last three sizes wrap in alignment: such a malloc does what a malloc of a minimal payload does,
      so the block it hands out, if any, is smaller than the request. */
  lemma MallocWraps(h: Heap, size: nat)
    requires Inv(h) && WORD - 4 < size < WORD
    ensures Malloc(h, size) == Malloc(h, h.c.minSize)
    ensures var (h', r) := Malloc(h, size);
      r.Some? ==> Live(h', r.value) && h'.Payload(h'.blocks[BlockOf(h', r.value)]) < size
  {
    hide Malloc, Layout, NoFreeNeighbours, HintOk, Accounts, Live;
    assert Malloc(h, size) == Malloc(h, h.c.minSize) by { WrappedRequest(h, size); }
    if Malloc(h, size).1.Some? {
      MallocHolds(h, size);
      MallocKeeps(h, size);
      PayloadBelow(Malloc(h, size).0, BlockOf(Malloc(h, size).0, Malloc(h, size).1.value));
    }
  }

  lemma WrappedRequest(h: Heap, size: nat)
    requires ValidSize(h.c, h.m) && WORD - 4 < size < WORD
    ensures Malloc(h, size) == Malloc(h, h.c.minSize)
  {
    hide Take;
    assert RtAlign(size) == 0 && RtAlign(h.c.minSize) == h.c.minSize;
    MallocAt(h, size);
    MallocAt(h, h.c.minSize);
  }

  lemma PayloadBelow(h: Heap, k: nat)
    requires Inv(h) && k < |h.blocks|
    ensures h.Payload(h.blocks[k]) < WORD - 4
  {
    TiledAt(h.blocks, k, h.c.hdr, 0, h.End());
  }

  /** In a new heap it does hand one out, unless the heap holds no more than a minimal payload. */
  lemma MallocWrapsInit(c: Config, m: nat)
    requires ValidSize(c, m)
    ensures Malloc(Init(c, m), 0xFFFF_FFFF).1 == if m > c.minSize then Some(c.hdr) else None
  {
    hide Take;
    var h := Init(c, m);
    assert Request(h, 0xFFFF_FFFF) == c.minSize;
    assert FindFit(h, c.minSize, 1) == 1;
    MallocAt(h, 0xFFFF_FFFF);
  }

  /** Payloads of different live pointers do not overlap, hold no block header and lie inside the heap. */
  lemma PayloadsApart(h: Heap, p: nat, c: Block)
    requires Inv(h) && Live(h, p) && c in h.blocks && c != h.blocks[BlockOf(h, p)]
    ensures var b := h.blocks[BlockOf(h, p)];
      && h.c.hdr <= p && p <= b.next <= h.End()
      && (c.next <= p - h.c.hdr || b.next <= c.off)
  {
    var i := BlockOf(h, p);
    var j :| 0 <= j < |h.blocks| && h.blocks[j] == c;
    if i < j { TiledOrdered(h.blocks, i, j, h.c.hdr, 0, h.End()); }
    else { TiledOrdered(h.blocks, j, i, h.c.hdr, 0, h.End()); }
    TiledAt(h.blocks, i, h.c.hdr, 0, h.End());
  }

  /** A pointer malloc returns passes the range check of free and realloc. */
  lemma LiveBelowEnd(h: Heap, p: nat)
    requires Inv(h) && Live(h, p)
    ensures p < h.End()
  {
    var k := BlockOf(h, p);
    var l := |h.blocks| - 1;
    if k < l {
      TiledOrdered(h.blocks, k, l, h.c.hdr, 0, h.End());
    }
    TiledBounds(h.blocks, h.c.hdr, 0, h.End());
  }

  // ----- the hint and in-place shrinking ------------------------------------------------------

  /** Shrinking block `k` in place keeps the hint at the lowest free block unless the block lies below
      the hint and is not followed by it. */
  lemma ShrinkHint(h: Heap, k: nat, n: nat)
    requires Inv(h) && HintLowest(h) && k < |h.blocks| && h.blocks[k].used && n % 4 == 0
    requires n + h.c.hdr + h.c.minSize < h.Payload(h.blocks[k])
    ensures HintLowest(Shrink(h, k, n)) <==> h.lfree <= h.blocks[k].off || h.lfree == h.blocks[k].next != h.End()
  {
    var b := h.blocks[k];
    var mid := b.off + h.c.hdr + n;
    ShrinkKeeps(h, k, n);
    ShrinkFree(h, k, n);
    if b.off < h.lfree != h.End() {
      assert b.next <= h.lfree by { FreeBeyond(h, k, h.lfree); }
    } else if h.lfree == h.End() {
      TiledAt(h.blocks, k, h.c.hdr, 0, h.End());
    }
  }

  lemma FreeBeyond(h: Heap, k: nat, off: nat)
    requires Shape(h) && k < |h.blocks| && FreeAt(h.blocks, off) && h.blocks[k].off < off
    ensures h.blocks[k].next <= off
  {
    var b :| b in h.blocks && b.off == off && !b.used;
    var i :| 0 <= i < |h.blocks| && h.blocks[i] == b;
    if i < k { TiledOrdered(h.blocks, i, k, h.c.hdr, 0, h.End()); }
    else if k < i { TiledOrdered(h.blocks, k, i, h.c.hdr, 0, h.End()); }
  }

  /** The hint names the block after `k` only when that block is free. */
  lemma HintOnNext(h: Heap, k: nat)
    requires Inv(h) && k < |h.blocks|
    ensures k + 1 < |h.blocks| ==> h.blocks[k + 1].off == h.blocks[k].next != h.End()
    ensures k + 1 == |h.blocks| ==> h.blocks[k].next == h.End()
    ensures h.lfree == h.blocks[k].next != h.End() ==> k + 1 < |h.blocks| && !h.blocks[k + 1].used
  {
    TiledAt(h.blocks, k, h.c.hdr, 0, h.End());
    TiledBounds(h.blocks, h.c.hdr, 0, h.End());
    if k + 1 < |h.blocks| { TiledAt(h.blocks, k + 1, h.c.hdr, 0, h.End()); }
    if h.lfree == h.blocks[k].next != h.End() {
      var b :| b in h.blocks && b.off == h.lfree && !b.used;
      var i :| 0 <= i < |h.blocks| && h.blocks[i] == b;
      if i <= k { TiledAt(h.blocks, i, h.c.hdr, 0, h.End()); }
      if i < k { TiledOrdered(h.blocks, i, k, h.c.hdr, 0, h.End()); }
      if k + 1 < i { TiledOrdered(h.blocks, k + 1, i, h.c.hdr, 0, h.End()); }
    }
  }

  /** The free offsets and the hint after an in-place shrink. */
  lemma ShrinkFree(h: Heap, k: nat, n: nat)
    requires Inv(h) && k < |h.blocks| && h.blocks[k].used
    ensures var mid := h.blocks[k].off + h.c.hdr + n; var s := Shrink(h, k, n);
      && FreeAt(s.blocks, mid) && s.c == h.c && s.m == h.m
      && (forall o: nat :: FreeAt(s.blocks, o) ==> FreeAt(h.blocks, o) || o == mid)
      && s.lfree == if h.lfree == h.blocks[k].next != h.End() then mid else h.lfree
  {
    var mid := h.blocks[k].off + h.c.hdr + n;
    var cut := Split(h.blocks, k, mid);
    assert cut[k].used && cut[k + 1] == Block(mid, h.blocks[k].next, false) && |cut| == |h.blocks| + 1;
    assert k + 1 < |h.blocks| ==> cut[k + 2] == h.blocks[k + 1];
    assert FreeAt(cut, mid) by { SplitFreeAt(h.blocks, k, mid, mid); }
    forall o: nat | FreeAt(cut, o) ensures FreeAt(h.blocks, o) || o == mid { SplitFreeAt(h.blocks, k, mid, o); }
    HintOnNext(h, k);
    if k + 1 < |h.blocks| && !h.blocks[k + 1].used {
      var m := Merge(cut, k + 1);
      assert Shrink(h, k, n).blocks == m;
      assert FreeAt(m, mid) by { assert Block(mid, cut[k + 2].next, false) in m; }
      forall o: nat | FreeAt(m, o) ensures FreeAt(cut, o) { MergeFreeAt(cut, k + 1, o); }
    }
  }

  // ----- whole runs ---------------------------------------------------------------------------

  datatype Op = Alloc(size: nat) | Resize(ptr: Option<nat>, size: nat) | Release(ptr: Option<nat>)

  predicate Legal(h: Heap, op: Op) {
    op.Alloc? || LegalPtr(h, op.ptr)
  }

  function Step(h: Heap, op: Op): Heap
    requires Legal(h, op)
  {
    match op
    case Alloc(size) => Malloc(h, size).0
    case Resize(p, size) => Realloc(h, p, size).0
    case Release(p) => Free(h, p)
  }

  predicate LegalRun(h: Heap, ops: seq<Op>)
    decreases |ops|
  {
    ops == [] || (Legal(h, ops[0]) && LegalRun(Step(h, ops[0]), ops[1..]))
  }

  function Run(h: Heap, ops: seq<Op>): Heap
    requires LegalRun(h, ops)
    decreases |ops|
  {
    if ops == [] then h else Run(Step(h, ops[0]), ops[1..])
  }

  lemma StepKeeps(h: Heap, op: Op)
    requires Inv(h) && Legal(h, op)
    ensures Inv(Step(h, op))
  {
    match op
    case Alloc(size) => MallocKeeps(h, size);
    case Resize(p, size) => ReallocKeeps(h, p, size);
    case Release(p) =>
      if p.Some? && p.value < h.End() { FreeBlockKeeps(h, BlockOf(h, p.value)); }
  }

  /** After any run of calls the blocks tile the heap, no two neighbours are free, the hint is a free
      block or the sentinel and the usage counter is the bytes in use. */
  lemma {:induction false} RunKeeps(h: Heap, ops: seq<Op>)
    requires Inv(h) && LegalRun(h, ops)
    ensures Inv(Run(h, ops))
    decreases |ops|
  {
    if ops != [] {
      StepKeeps(h, ops[0]);
      RunKeeps(Step(h, ops[0]), ops[1..]);
    }
  }

  /** A call that shrinks a block in place below the hint, when the hint is not the block right after it. */
  predicate PassesHint(h: Heap, op: Op)
    requires Legal(h, op)
  {
    op.Resize? && op.ptr.Some? && op.ptr.value < h.End()
    && var n := RtAlign(op.size); var b := h.blocks[BlockOf(h, op.ptr.value)];
      n <= h.m && n + h.c.hdr + h.c.minSize < SizeAt(h, op.ptr.value)
      && b.off < h.lfree && (h.lfree != b.next || b.next == h.End())
  }

  /** The hint stays at the lowest free block if and only if the call does not pass it. */
  lemma StepLowest(h: Heap, op: Op)
    requires Inv(h) && HintLowest(h) && Legal(h, op)
    ensures HintLowest(Step(h, op)) <==> !PassesHint(h, op)
  {
    hide Malloc, Shrink, FreeBlock, HintLowest, Layout, NoFreeNeighbours, HintOk, Accounts;
    match op
    case Alloc(size) => MallocKeeps(h, size);
    case Resize(p, size) =>
      var n := RtAlign(size);
      MallocKeeps(h, n);
      if n <= h.m && p.Some? && p.value < h.End() && SizeAt(h, p.value) != n {
        if n + h.c.hdr + h.c.minSize < SizeAt(h, p.value) {
          ShrinkHint(h, BlockOf(h, p.value), n);
        } else {
          RelocateLowest(h, p.value, n);
        }
      }
    case Release(p) =>
      if p.Some? && p.value < h.End() { FreeBlockKeeps(h, BlockOf(h, p.value)); }
  }

  lemma RelocateLowest(h: Heap, p: nat, n: nat)
    requires Inv(h) && HintLowest(h)
    ensures HintLowest(Relocate(h, p, n).0)
  {
    hide Malloc, FreeBlock, HintLowest;
    MallocKeeps(h, n);
    var h1 := Malloc(h, n).0;
    if Live(h1, p) { FreeBlockKeeps(h1, BlockOf(h1, p)); }
  }

  predicate NeverPassesHint(h: Heap, ops: seq<Op>)
    requires LegalRun(h, ops)
    decreases |ops|
  {
    ops == [] || (!PassesHint(h, ops[0]) && NeverPassesHint(Step(h, ops[0]), ops[1..]))
  }

  /** The hint is the lowest free block after any run in which no call passes it, any run without
      realloc among them. */
  lemma {:induction false} RunKeepsLowest(h: Heap, ops: seq<Op>)
    requires Inv(h) && HintLowest(h) && LegalRun(h, ops)
    ensures (forall op :: op in ops ==> !op.Resize?) ==> NeverPassesHint(h, ops)
    ensures NeverPassesHint(h, ops) ==> HintLowest(Run(h, ops))
    decreases |ops|
  {
    hide Step, Inv, HintLowest;
    if ops != [] {
      StepKeeps(h, ops[0]);
      StepLowest(h, ops[0]);
      if !PassesHint(h, ops[0]) { RunKeepsLowest(Step(h, ops[0]), ops[1..]); }
    }
  }

  /** Realloc to `n` aligned bytes neither leaves the block alone nor shrinks it in place. */
  predicate Moves(h: Heap, p: nat, n: nat) {
    SizeAt(h, p) != n && n + h.c.hdr + h.c.minSize >= SizeAt(h, p)
  }

  /** Both heaps keep the invariant from start-up over any run, the Lua heap as long as it fits its
      24-bit links. */
  lemma HeapRuns(c: Config, begin: nat, end: nat, m: nat, ops: seq<Op>)
    requires (c == RT_HEAP || c == LUA_HEAP) && begin < WORD && end < WORD
    requires InitSize(c, begin, end) == Some(m) && m >= c.minSize && m + c.hdr < c.fieldMod
    requires LegalRun(Init(c, m), ops)
    ensures Inv(Run(Init(c, m), ops))
    ensures (forall op :: op in ops ==> !op.Resize?) ==> HintLowest(Run(Init(c, m), ops))
  {
    InitEstablishes(c, m);
    RunKeeps(Init(c, m), ops);
    RunKeepsLowest(Init(c, m), ops);
  }

  /** The usage right after a call has handed out a block; a moving realloc holds both blocks then. */
  function Peak(h: Heap, op: Op): seq<int>
    requires Legal(h, op)
  {
    match op
    case Alloc(size) => [Malloc(h, size).0.usedMem]
    case Resize(p, size) =>
      var n := RtAlign(size);
      if n <= h.m && (p.None? || (p.value < h.End() && Moves(h, p.value, n)))
      then [Malloc(h, n).0.usedMem] else []
    case Release(_) => []
  }

  function Peaks(h: Heap, ops: seq<Op>): seq<int>
    requires LegalRun(h, ops)
    decreases |ops|
  {
    if ops == [] then [] else Peak(h, ops[0]) + Peaks(Step(h, ops[0]), ops[1..])
  }

  /** max_mem is the running maximum of used_mem over the whole run. */
  lemma {:induction false} RunMaximum(h: Heap, ops: seq<Op>)
    requires Inv(h) && LegalRun(h, ops)
    ensures Run(h, ops).maxMem == Max(h.maxMem, Peaks(h, ops))
    decreases |ops|
  {
    if ops != [] {
      var h' := Step(h, ops[0]);
      StepKeeps(h, ops[0]);
      StepMaximum(h, ops[0]);
      RunMaximum(h', ops[1..]);
      MaxConcat(h.maxMem, Peak(h, ops[0]), Peaks(h', ops[1..]));
    }
  }

  lemma MallocMaximum(h: Heap, size: nat)
    requires Inv(h)
    ensures Malloc(h, size).0.maxMem == Max(h.maxMem, [Malloc(h, size).0.usedMem])
  {
    var u := Malloc(h, size).0.usedMem;
    assert [u][1..] == [] && Max(h.maxMem, [u]) == if h.maxMem < u then u else h.maxMem;
  }

  lemma FreeMaximum(h: Heap, k: nat)
    requires k < |h.blocks|
    ensures FreeBlock(h, k).maxMem == h.maxMem
  {
  }

  lemma ReallocMaximum(h: Heap, p: nat, newsize: nat)
    requires Inv(h) && Live(h, p) && p < h.End()
    ensures Realloc(h, Some(p), newsize).0.maxMem == Max(h.maxMem, Peak(h, Resize(Some(p), newsize)))
  {
    var n := RtAlign(newsize);
    if n <= h.m && Moves(h, p, n) {
      var h1 := Malloc(h, n).0;
      assert h1.maxMem == Max(h.maxMem, [h1.usedMem]) by { MallocMaximum(h, n); }
      assert Live(h1, p) by { MallocKeepsLive(h, n, p); }
      FreeMaximum(h1, BlockOf(h1, p));
    }
  }

  lemma StepMaximum(h: Heap, op: Op)
    requires Inv(h) && Legal(h, op)
    ensures Step(h, op).maxMem == Max(h.maxMem, Peak(h, op))
  {
    match op
    case Alloc(size) => MallocMaximum(h, size);
    case Resize(p, size) =>
      if p.None? { MallocMaximum(h, RtAlign(size)); }
      else if p.value < h.End() { ReallocMaximum(h, p.value, size); }
    case Release(p) =>
      if p.Some? && p.value < h.End() { FreeMaximum(h, BlockOf(h, p.value)); }
  }

  // ----- the search as the C loop runs it -----------------------------------------------------

  lemma FindFitFrom(h: Heap, n: nat, i: nat)
    requires i <= |h.blocks| && forall j :: 0 <= j < i ==> !Candidate(h, h.blocks[j], n)
    ensures FindFit(h, n, 0) == FindFit(h, n, i)
  {
  }

  /** The search may start at the hint. */
  lemma HintIndex(h: Heap, n: nat) returns (i: nat)
    requires Inv(h)
    ensures i <= |h.blocks| && OffsetAt(h, i) == h.lfree && FindFit(h, n, 0) == FindFit(h, n, i)
  {
    if h.lfree == h.End() {
      i := |h.blocks|;
      TiledBounds(h.blocks, h.c.hdr, 0, h.End());
    } else {
      var b :| b in h.blocks && b.off == h.lfree && !b.used;
      i :| 0 <= i < |h.blocks| && h.blocks[i] == b;
      forall j | 0 <= j < i ensures h.blocks[j].off < h.lfree {
        TiledOrdered(h.blocks, j, i, h.c.hdr, 0, h.End());
      }
    }
    FindFitFrom(h, n, i);
  }

  /** The search may stop at the bound. */
  lemma SearchEnds(h: Heap, n: nat, i: nat)
    requires Inv(h) && i <= |h.blocks| && OffsetAt(h, i) >= h.m - n
    ensures FindFit(h, n, i) == |h.blocks|
  {
    forall j | i <= j < |h.blocks| ensures !Candidate(h, h.blocks[j], n) {
      if i < j { TiledOrdered(h.blocks, i, j, h.c.hdr, 0, h.End()); }
    }
  }

  /** The outcome of malloc once the search is over. */
  lemma MallocAt(h: Heap, size: nat)
    ensures size == 0 || RtAlign(size) > h.m ==> Malloc(h, size) == (h, None)
    ensures size != 0 && RtAlign(size) <= h.m ==>
      var k := FindFit(h, Request(h, size), 0);
      if k == |h.blocks| then Malloc(h, size) == (h, None)
      else Malloc(h, size) == (Take(h, k, Request(h, size)), Some(h.blocks[k].off + h.c.hdr))
  {
  }

  /** The walk to the next free block may start at the hint. */
  lemma NextFreeSkips(h: Heap, i: nat)
    requires Shape(h) && i < |h.blocks| && h.blocks[i].off == h.lfree
    ensures NextFree(h.blocks, h.lfree, 0) == NextFree(h.blocks, h.lfree, i)
  {
    forall j | 0 <= j < i ensures h.blocks[j].off < h.lfree {
      TiledOrdered(h.blocks, j, i, h.c.hdr, 0, h.End());
    }
  }
}
