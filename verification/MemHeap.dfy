/** The memory-heap pool as memheap.c runs it: the headers are relinked in place, on the ring of all
    blocks and on the ring of the free ones. */
module MemHeap {
  import opened Bytes
  import opened FreeRing
  import opened HeapBlocks
  import H = HeapLinks
  import opened MemHeapSpec
  import opened Sequences
  import opened Wrappers

  const MAGIC: nat := 0x1ea0_1ea0

  /** The last header: used, closing the ring of all blocks in both directions. */
  ghost predicate Tail(items: H.Memory, bs: seq<Block>, end: nat) {
    var t := H.At(items, end);
    t.used && t.next == 0 && t.prev == H.LastOff(bs, end)
  }

  /** What following the links of block `k` finds; the block before the first and the block after the
      last one is the tail. */
  lemma Neighbours(items: H.Memory, bs: seq<Block>, k: nat, end: nat)
    requires Tiled(bs, 24, 0, end) && H.Linked(items, bs, end, MAGIC) && Tail(items, bs, end) && k < |bs|
    ensures var h := H.At(items, bs[k].off); H.HeaderOf(h, bs[k], if k == 0 then end else bs[k - 1].off, MAGIC)
    ensures k > 0 ==> H.At(items, bs[k - 1].off).used == bs[k - 1].used
    ensures bs[k].off + 24 <= bs[k].next <= end
    ensures k + 1 < |bs| ==> bs[k].next == bs[k + 1].off && H.At(items, bs[k].next).used == bs[k + 1].used
    ensures k + 1 < |bs| ==> H.At(items, bs[k].next).next == bs[k + 1].next
    ensures k + 1 == |bs| ==> bs[k].next == end
    ensures H.At(items, end).used && H.At(items, end).next == 0
  {
    H.LinkedAt(items, bs, end, k, MAGIC);
    TiledAt(bs, k, 24, 0, end);
    if k > 0 {
      H.LinkedAt(items, bs, end, k - 1, MAGIC);
      assert bs[..k][|bs[..k]| - 1] == bs[k - 1];
    }
    if k + 1 < |bs| {
      H.LinkedAt(items, bs, end, k + 1, MAGIC);
      TiledAt(bs, k + 1, 24, 0, end);
    } else {
      TiledBounds(bs, 24, 0, end);
    }
  }

  lemma SplitTail(items0: H.Memory, items1: H.Memory, bs: seq<Block>, k: nat, mid: nat, end: nat)
    requires k < |bs| && Tiled(bs, 24, 0, end) && Tail(items0, bs, end)
    requires H.At(items1, end) == if bs[k].next == end then H.At(items0, end).(prev := mid) else H.At(items0, end)
    ensures Tail(items1, Split(bs, k, mid), end)
  {
    TiledBounds(bs, 24, 0, end);
    if k + 1 < |bs| { TiledAt(bs, k, 24, 0, end); TiledAt(bs, k + 1, 24, 0, end); }
  }

  lemma MergeTail(items0: H.Memory, items1: H.Memory, bs: seq<Block>, k: nat, end: nat)
    requires k + 1 < |bs| && Tiled(bs, 24, 0, end) && Tail(items0, bs, end)
    requires H.At(items1, end) ==
      if bs[k + 1].next == end then H.At(items0, end).(prev := bs[k].off) else H.At(items0, end)
    ensures Tail(items1, Merge(bs, k), end)
  {
    TiledBounds(bs, 24, 0, end);
    if k + 2 < |bs| { TiledAt(bs, k + 1, 24, 0, end); TiledAt(bs, k + 2, 24, 0, end); }
  }

  lemma MarkLast(bs: seq<Block>, k: nat, used: bool, end: nat)
    requires k < |bs|
    ensures H.LastOff(Mark(bs, k, used), end) == H.LastOff(bs, end)
  {
  }

  /** The payload size of a live pointer. */
  function OldSize(h: Pool, p: nat): (n: nat) {
    if Live(h, p) && Payload(h.blocks[BlockOf(h, p)]) >= 0 then Payload(h.blocks[BlockOf(h, p)]) else 0
  }

  /** What realloc of a live pointer comes to. */
  function Resized(h: Pool, p: nat, n: nat): (Pool, Option<nat>)
    requires Live(h, p)
  {
    var k := BlockOf(h, p);
    if n > Payload(h.blocks[k]) then
      if CanGrow(h, k, n) then (Grow(h, k, n), Some(p)) else Relocate(h, p, n)
    else if Shrinks(h, k, n) then (Shrink(h, k, n), Some(p)) else (h, Some(p))
  }

  lemma MergedBlock(bs: seq<Block>, k: nat)
    requires k + 1 < |bs|
    ensures |Merge(bs, k)| == |bs| - 1 && Merge(bs, k)[k] == Block(bs[k].off, bs[k + 1].next, bs[k].used)
  {
  }

  lemma JoinRightRing(h: Pool, k: nat, x: int)
    requires k < |h.blocks| && RingBut(h, x)
    ensures x !in JoinRight(h, k).free
  {
    if k + 1 < |h.blocks| { WithoutMembers(h.free, h.blocks[k + 1].off); }
  }

  /** The offset of the block that is left when the next one gives bytes is new to the free ring. */
  lemma GrowFresh(h: Pool, k: nat, n: nat)
    requires Inv(h) && k < |h.blocks| && CanGrow(h, k, n) && n > Payload(h.blocks[k]) && n % 4 == 0
    ensures var mid := h.blocks[k].off + 24 + n;
      && mid % 4 == 0 && mid !in Without(h.free, h.blocks[k + 1].off)
      && mid + 24 <= h.blocks[k + 1].next
  {
    var mid := h.blocks[k].off + 24 + n;
    TiledAt(h.blocks, k, 24, 0, h.End());
    TiledAt(h.blocks, k + 1, 24, 0, h.End());
    WithoutMembers(h.free, h.blocks[k + 1].off);
    if FreeAt(h.blocks, mid) && mid != h.blocks[k + 1].off {
      if mid > h.blocks[k + 1].off { NothingInside(h.blocks, k + 1, mid, h.End()); }
    }
  }

  class MemHeap {
    const poolSize: nat
    const bytes: array<bv8>
    var items: H.Memory
    var links: Links
    var availableSize: int
    var maxUsedSize: int
    ghost var blocks: seq<Block>
    ghost var free: seq<nat>

    ghost function Abs(): Pool
      reads this
    {
      Pool(poolSize, blocks, free, availableSize, maxUsedSize)
    }

    /** The ring of all blocks. */
    ghost predicate Blocks()
      reads this
    {
      && ValidSize(poolSize) && bytes.Length == poolSize
      && blocks != [] && Tiled(blocks, 24, 0, poolSize - 24)
      && H.Linked(items, blocks, poolSize - 24, MAGIC) && Tail(items, blocks, poolSize - 24)
    }

    ghost predicate Valid()
      reads this
    {
      Blocks() && Ring(links, free) && Inv(Abs())
    }

    /** rt_memheap_init: one free block and the tail. */
    constructor (size: nat)
      requires ValidSize(RtAlignDown(size))
      ensures Valid() && Abs() == Init(RtAlignDown(size)) && fresh(bytes)
    {
      var pool := RtAlignDown(size);
      poolSize := pool;
      bytes := new bv8[pool];
      availableSize, maxUsedSize := pool - 48, 48;
      items := map[0 := H.Header(MAGIC, false, pool - 24, pool - 24),
                   pool - 24 := H.Header(MAGIC, true, 0, 0)];
      links := map[HEAD := FreeLink(0, 0), 0 := FreeLink(HEAD, HEAD)];
      blocks, free := [Block(0, pool - 24, false)], [0];
      new;
      InitEstablishes(pool);
      assert blocks[1..] == [];
      var ks: seq<int> := [HEAD] + free + [HEAD];
      assert ks == [HEAD, 0, HEAD] && ks[1..] == [0, HEAD] && ks[1..][1..] == [HEAD];
      assert Chain(links, ks[1..]);
    }

    // ----- the free ring ----------------------------------------------------------------------

    /** x->next_free->prev_free = x->prev_free; x->prev_free->next_free = x->next_free. */
    method UnlinkFree(x: nat)
      requires NoDup(free) && Ring(links, free) && x in free
      modifies this`links, this`free
      ensures free == Without(old(free), x) && NoDup(free) && Ring(links, free)
    {
      hide NoDup, Ring, Without;
      ghost var m := links;
      ghost var a, b := Sides(free, x);
      RingAt(m, a, x, b);
      var next, prev := At(links, x).next, At(links, x).prev;
      links := links[next := At(links, next).(prev := prev)];
      links := links[prev := At(links, prev).(next := next)];
      RingUnlink(m, links, a, x, b);
      free := a + b;
    }

    /** Link a block behind the free header. */
    method LinkFree(x: nat)
      requires NoDup(free) && Ring(links, free) && x !in free
      modifies this`links, this`free
      ensures free == [x] + old(free) && NoDup(free) && Ring(links, free)
    {
      ghost var m := links;
      RingNth(m, free, 0);
      assert FirstKey(free) != x;
      var first := At(links, HEAD).next;
      links := links[x := FreeLink(first, HEAD)];
      links := links[first := At(links, first).(prev := x)];
      links := links[HEAD := At(links, HEAD).(next := x)];
      RingInsert(m, links, x, free);
      NoDupCons(x, free);
      free := [x] + free;
    }

    // ----- the ring of all blocks -------------------------------------------------------------

    /** Put a new header at `mid` between `cur` and the block after it. Block `cur` ends up used. */
    method SplitItem(cur: nat, mid: nat, ghost k: nat)
      requires Blocks() && k < |blocks| && cur == blocks[k].off && mid % 4 == 0
      requires cur + 24 <= mid && mid + 24 <= blocks[k].next
      modifies this`items, this`blocks
      ensures Blocks() && blocks == Split(old(blocks), k, mid)
    {
      ghost var end, items0, bs := poolSize - 24, items, Split(blocks, k, mid);
      assert bs != [];
      hide Tiled, H.Linked, Split;
      assert Tiled(bs, 24, 0, end) by { SplitTiled(blocks, k, mid, 24, 0, end); }
      Neighbours(items, blocks, k, end);
      var after := H.At(items, cur).next;
      items := items[mid := H.Header(MAGIC, false, after, cur)];
      items := items[after := H.At(items, after).(prev := mid)];
      items := items[cur := H.At(items, cur).(next := mid, used := true, magic := MAGIC)];
      assert H.Linked(items, bs, end, MAGIC) by {
        H.LinkedSplit(items0, items, blocks, end, k, mid, 24, end, MAGIC);
      }
      assert Tail(items, bs, end) by { SplitTail(items0, items, blocks, k, mid, end); }
      blocks := bs;
    }

    /** Let block `cur` end where the free block after it ends; that block's header is given up. */
    method MergeItem(cur: nat, ghost k: nat)
      requires Blocks() && k + 1 < |blocks| && cur == blocks[k].off
      modifies this`items, this`blocks
      ensures Blocks() && blocks == Merge(old(blocks), k)
    {
      ghost var end, items0, bs := poolSize - 24, items, Merge(blocks, k);
      assert bs != [];
      hide Tiled, H.Linked, Merge;
      assert Tiled(bs, 24, 0, end) by { MergeTiled(blocks, k, 24, 0, end); }
      Neighbours(items, blocks, k, end);
      Neighbours(items, blocks, k + 1, end);
      var gone := H.At(items, cur).next;
      var after := H.At(items, gone).next;
      items := items[after := H.At(items, after).(prev := cur)];
      items := items[cur := H.At(items, cur).(next := after)];
      assert H.Linked(items, bs, end, MAGIC) by {
        H.LinkedMerge(items0, items, blocks, end, k, 24, end, MAGIC);
      }
      assert Tail(items, bs, end) by { MergeTail(items0, items, blocks, k, end); }
      blocks := bs;
    }

    /** Set or clear the used bit. */
    method MarkItem(cur: nat, used: bool, ghost k: nat)
      requires Blocks() && k < |blocks| && cur == blocks[k].off
      modifies this`items, this`blocks
      ensures Blocks() && blocks == Mark(old(blocks), k, used)
    {
      ghost var end, items0, bs := poolSize - 24, items, Mark(blocks, k, used);
      assert bs != [];
      hide Tiled, H.Linked, Mark;
      assert Tiled(bs, 24, 0, end) by { MarkTiled(blocks, k, used, 24, 0, end); }
      Neighbours(items, blocks, k, end);
      items := items[cur := H.At(items, cur).(used := used, magic := MAGIC)];
      assert H.Linked(items, bs, end, MAGIC) by {
        H.LinkedMark(items0, items, blocks, end, k, used, 24, end, MAGIC);
      }
      assert H.LastOff(bs, end) == H.LastOff(blocks, end) by { MarkLast(blocks, k, used, end); }
      blocks := bs;
    }

    // ----- allocation -------------------------------------------------------------------------

    /** The free block the loop of rt_memheap_alloc stops at, and its payload size. */
    method Search(n: nat) returns (header: int, freeSize: int, ghost i: nat)
      requires Valid() && n > 0
      ensures i == FirstFit(blocks, free, n)
      ensures i < |free| ==> header == free[i] && freeSize == PayloadAt(blocks, free[i]) >= n
      ensures i == |free| ==> freeSize < n
    {
      RingNth(links, free, 0);
      freeSize, i := 0, 0;
      header := At(links, HEAD).next;
      assert free[0..] == free;
      while header != HEAD && freeSize < n
        invariant i <= |free| && header == if i < |free| then free[i] else HEAD
        invariant freeSize < n ==> FirstFit(blocks, free, n) == i + FirstFit(blocks, free[i..], n)
        invariant freeSize >= n ==> i < |free| && FirstFit(blocks, free, n) == i && freeSize == PayloadAt(blocks, free[i])
        decreases |free| - i, n - freeSize
      {
        freeSize := FreeSize(header);
        if freeSize < n {
          RingNth(links, free, i + 1);
          assert free[i..][1..] == free[i + 1..];
          header := At(links, header).next;
          i := i + 1;
        }
      }
    }

    /** MEMITEM_SIZE of a free block. */
    method FreeSize(off: nat) returns (size: int)
      requires Valid() && off in free
      ensures size == PayloadAt(blocks, off)
    {
      RingEntry(Abs(), off);
      ghost var k := IndexOf(blocks, off, 0);
      Neighbours(items, blocks, k, poolSize - 24);
      size := H.At(items, off).next - off - 24;
    }

    /** max_used_size follows. */
    method NoteUse()
      modifies this`maxUsedSize
      ensures Abs() == Note(old(Abs()))
    {
      if poolSize - availableSize > maxUsedSize { maxUsedSize := poolSize - availableSize; }
    }

    /** rt_memheap_alloc: the comparison before the lock is taken, and the part under it. */
    method Alloc(request: nat) returns (r: Option<nat>)
      requires Valid()
      modifies this`items, this`links, this`availableSize, this`maxUsedSize, this`blocks, this`free
      ensures Valid() && Abs() == MemHeapSpec.Alloc(old(Abs()), request).0
      ensures r == MemHeapSpec.Alloc(old(Abs()), request).1
    {
      hide MemHeapSpec.Fetch, Valid;
      var size := RtAlign(request);
      if size < 12 { size := 12; }
      if size < availableSize {
        r := Fetch(size, request);
        return;
      }
      return None;
    }

    /** The part of rt_memheap_alloc under the lock, whatever available_size is by then. */
    method Fetch(size: nat, ghost request: nat) returns (r: Option<nat>)
      requires Valid() && size == Request(request)
      modifies this`items, this`links, this`availableSize, this`maxUsedSize, this`blocks, this`free
      ensures Valid() && Abs() == MemHeapSpec.Fetch(old(Abs()), request).0
      ensures r == MemHeapSpec.Fetch(old(Abs()), request).1
    {
      ghost var h := Abs();
      FetchKeeps(h, request);
      hide Tiled, H.Linked, FreeBytes, NoFreeNeighbours, Ring, RingBut, Take, FreeAt;
      var header, freeSize;
      ghost var i;
      header, freeSize, i := Search(size);
      if freeSize >= size {
        RingEntry(h, header);
        ghost var k := IndexOf(blocks, header, 0);
        TakeBlock(header, freeSize, size, k);
        return Some(header + 24);
      }
      return None;
    }

    /** Hand out the block that was found. */
    method TakeBlock(header: nat, freeSize: int, size: nat, ghost k: nat)
      requires Valid() && k < |blocks| && header == blocks[k].off && !blocks[k].used && size % 4 == 0
      requires freeSize == Payload(blocks[k])
      modifies this`items, this`links, this`availableSize, this`maxUsedSize, this`blocks, this`free
      ensures Blocks() && Ring(links, free) && Abs() == Take(old(Abs()), k, size)
    {
      hide Tiled, H.Linked, FreeBytes, NoFreeNeighbours, Ring;
      ghost var h := Abs();
      assert header in free by { FreeAtBlock(blocks, k, poolSize - 24); }
      assert blocks[k].off % 4 == 0 by { TiledAt(blocks, k, 24, 0, poolSize - 24); }
      if freeSize >= size + 24 + 12 {
        var rest := header + size + 24;
        assert rest !in free by { NothingInside(blocks, k, rest, poolSize - 24); }
        SplitItem(header, rest, k);
        UnlinkFree(header);
        assert rest !in free by { WithoutMembers(h.free, header); }
        LinkFree(rest);
        availableSize := availableSize - size - 24;
      } else {
        availableSize := availableSize - freeSize;
        UnlinkFree(header);
        MarkItem(header, true, k);
      }
      NoteUse();
    }

    // ----- release ----------------------------------------------------------------------------

    /** rt_memheap_free. */
    method Free(ptr: Option<nat>)
      requires Valid() && LegalPtr(Abs(), ptr)
      modifies this`items, this`links, this`availableSize, this`blocks, this`free
      ensures Valid() && Abs() == MemHeapSpec.Free(old(Abs()), ptr)
    {
      if ptr.None? { return; }
      ghost var k := BlockOf(Abs(), ptr.value);
      FreeBlockKeeps(Abs(), k);
      ReleaseBlock(ptr.value - 24, k);
    }

    /** The part of rt_memheap_free under the lock. */
    method ReleaseBlock(cur: nat, ghost k: nat)
      requires Valid() && k < |blocks| && cur == blocks[k].off && blocks[k].used
      modifies this`items, this`links, this`availableSize, this`blocks, this`free
      ensures Blocks() && Ring(links, free) && Abs() == FreeBlock(old(Abs()), k)
    {
      hide Tiled, H.Linked, FreeBytes, NoFreeNeighbours, Ring, Merge, FreeAt;
      ghost var h := Abs();
      ReleasedLoose(h, k);
      MarkItem(cur, false, k);
      Neighbours(items, blocks, k, poolSize - 24);
      availableSize := availableSize + (H.At(items, cur).next - cur - 24);
      assert Abs() == Released(h, k);
      var prev := H.At(items, cur).prev;
      if !H.At(items, prev).used {
        JoinLeftKeeps(Abs(), k);
        availableSize := availableSize + 24;
        MergeItem(prev, k - 1);
        assert Abs() == JoinLeft(Released(h, k), k);
        MergedBlock(Mark(h.blocks, k, false), k - 1);
        JoinNext(prev, k - 1, -1);
      } else {
        assert !(k > 0 && !h.blocks[k - 1].used);
        JoinNext(cur, k, cur);
        assert cur !in free by { JoinRightRing(Released(h, k), k, cur); }
        LinkFree(cur);
      }
    }

    /** Take in the block after `cur` when that is free. */
    method JoinNext(cur: nat, ghost k: nat, ghost x: int)
      requires Blocks() && k < |blocks| && cur == blocks[k].off && !blocks[k].used
      requires Ring(links, free) && RingBut(Abs(), x) && (x == -1 || x == cur)
      modifies this`items, this`links, this`availableSize, this`blocks, this`free
      ensures Blocks() && Ring(links, free) && NoDup(free) && Abs() == JoinRight(old(Abs()), k)
    {
      hide Tiled, H.Linked, Ring, Merge;
      Neighbours(items, blocks, k, poolSize - 24);
      var next := H.At(items, cur).next;
      if !H.At(items, next).used {
        assert next in free by { FreeAtBlock(blocks, k + 1, poolSize - 24); }
        availableSize := availableSize + 24;
        MergeItem(cur, k);
        UnlinkFree(next);
      }
    }

    // ----- realloc ----------------------------------------------------------------------------

    /** rt_memheap_realloc. The new size plus the minimal payload stays below 2^32. */
    method Realloc(ptr: Option<nat>, newsize: nat) returns (r: Option<nat>)
      requires Valid() && LegalPtr(Abs(), ptr) && newsize <= WORD - 16
      modifies this`items, this`links, this`availableSize, this`maxUsedSize, this`blocks, this`free, bytes
      ensures Valid() && Abs() == MemHeapSpec.Realloc(old(Abs()), ptr, newsize).0
      ensures r == MemHeapSpec.Realloc(old(Abs()), ptr, newsize).1
      ensures r.None? || ptr.None? || r == ptr ==> bytes[..] == old(bytes[..])
      ensures r.Some? && ptr.Some? && r != ptr ==>
        Copied(ptr.value, r.value, OldSize(old(Abs()), ptr.value), old(bytes[..]), bytes[..])
    {
      ghost var h := Abs();
      ReallocKeeps(h, ptr, newsize);
      if newsize == 0 {
        Free(ptr);
        return None;
      }
      RequestCovers(newsize);
      var size := RtAlign(newsize);
      if size < 12 { size := 12; }
      if ptr.None? {
        r := Alloc(size);
        return;
      }
      RequestAligned(newsize);
      r := Resize(ptr.value, size);
    }

    /** rt_memheap_realloc of a live pointer to an aligned size. */
    method Resize(p: nat, n: nat) returns (r: Option<nat>)
      requires Valid() && Live(Abs(), p) && n % 4 == 0 && Request(n) == n
      modifies this`items, this`links, this`availableSize, this`maxUsedSize, this`blocks, this`free, bytes
      ensures Valid() && (Abs(), r) == Resized(old(Abs()), p, n)
      ensures r.None? || r.value == p ==> bytes[..] == old(bytes[..])
      ensures r.Some? && r.value != p ==> Copied(p, r.value, OldSize(old(Abs()), p), old(bytes[..]), bytes[..])
    {
      hide Tiled, H.Linked, FreeBytes, NoFreeNeighbours, Ring, RingBut, FreeAt, Copied, Take, Shrink, Grow, FreeBlock;
      ghost var h := Abs();
      ghost var k := BlockOf(h, p);
      ResizeKeeps(h, p, n);
      Neighbours(items, blocks, k, poolSize - 24);
      var header := p - 24;
      var oldSize := H.At(items, header).next - header - 24;
      assert oldSize == OldSize(h, p);
      if n > oldSize {
        var grown := Enlarge(header, oldSize, n, k);
        if grown { return Some(p); }
        r := MoveBlock(p, oldSize, n);
        return;
      }
      if n + 24 + 12 >= oldSize { return Some(p); }
      Reduce(header, n, k);
      return Some(p);
    }

    /** Grow into the next block when that is free and large enough. */
    method Enlarge(header: nat, oldSize: nat, n: nat, ghost k: nat) returns (grown: bool)
      requires Valid() && k < |blocks| && header == blocks[k].off && blocks[k].used
      requires oldSize == Payload(blocks[k]) && n > oldSize && n % 4 == 0
      modifies this`items, this`links, this`availableSize, this`maxUsedSize, this`blocks, this`free
      ensures grown <==> CanGrow(old(Abs()), k, n)
      ensures Valid() && Abs() == if grown then Grow(old(Abs()), k, n) else old(Abs())
    {
      hide Tiled, H.Linked, FreeBytes, NoFreeNeighbours, Ring, FreeAt;
      ghost var h, end := Abs(), poolSize - 24;
      Neighbours(items, blocks, k, end);
      var next := H.At(items, header).next;
      grown := false;
      if !H.At(items, next).used {
        var nextSize := H.At(items, next).next - next - 24;
        assert nextSize == Payload(blocks[k + 1]);
        if nextSize + oldSize > n + 12 {
          grown := true;
          assert Inv(Grow(h, k, n)) by { GrowKeeps(h, k, n); }
          ShiftBoundary(header, next, n, k);
          availableSize := availableSize - (n - oldSize);
          NoteUse();
        }
      }
    }

    /** Move the boundary between block `k` and the free block after it up to `n` payload bytes. */
    method ShiftBoundary(header: nat, next: nat, n: nat, ghost k: nat)
      requires Valid() && k + 1 < |blocks| && header == blocks[k].off && next == blocks[k + 1].off
      requires blocks[k].used && CanGrow(Abs(), k, n) && n > Payload(blocks[k]) && n % 4 == 0
      modifies this`items, this`links, this`blocks, this`free
      ensures Blocks() && Ring(links, free)
      ensures blocks == Split(Merge(old(blocks), k), k, header + 24 + n)
      ensures free == [header + 24 + n] + Without(old(free), next)
    {
      hide Tiled, H.Linked, FreeBytes, NoFreeNeighbours, Ring;
      ghost var h, end := Abs(), poolSize - 24;
      var mid := header + 24 + n;
      assert next in free by { FreeAtBlock(blocks, k + 1, end); }
      assert mid !in Without(free, next) && mid % 4 == 0 && mid + 24 <= blocks[k + 1].next by { GrowFresh(h, k, n); }
      UnlinkFree(next);
      MergeItem(header, k);
      assert blocks[k] == Block(header, h.blocks[k + 1].next, true) by { MergedBlock(h.blocks, k); }
      SplitItem(header, mid, k);
      LinkFree(mid);
    }

    /** The split branch of realloc. */
    method Reduce(header: nat, n: nat, ghost k: nat)
      requires Valid() && k < |blocks| && header == blocks[k].off && blocks[k].used
      requires Shrinks(Abs(), k, n) && n % 4 == 0
      modifies this`items, this`links, this`availableSize, this`blocks, this`free
      ensures Valid() && Abs() == Shrink(old(Abs()), k, n)
    {
      hide Tiled, H.Linked, FreeBytes, NoFreeNeighbours, Ring, FreeAt, NoDup, NoFreeBut;
      ghost var h := Abs();
      var mid := header + 24 + n;
      assert Inv(Shrink(h, k, n)) by { ShrinkKeeps(h, k, n); }
      CutLoose(h, k, n);
      CutItem(header, n, k);
      JoinNext(mid, k + 1, mid);
      assert mid !in free by { JoinRightRing(Cut(h, k, n), k + 1, mid); }
      LinkFree(mid);
    }

    /** Cut block `k` down to `n` bytes and count what comes free. */
    method CutItem(header: nat, n: nat, ghost k: nat)
      requires Valid() && k < |blocks| && header == blocks[k].off && blocks[k].used
      requires Shrinks(Abs(), k, n) && n % 4 == 0
      modifies this`items, this`availableSize, this`blocks
      ensures Blocks() && Abs() == Cut(old(Abs()), k, n)
    {
      hide Tiled, H.Linked, FreeBytes, NoFreeNeighbours, Ring, FreeAt, NoDup;
      assert blocks[k].off % 4 == 0 by { TiledAt(blocks, k, 24, 0, poolSize - 24); }
      Neighbours(items, blocks, k, poolSize - 24);
      availableSize := availableSize + (H.At(items, header).next - header - 24 - n - 24);
      SplitItem(header, header + 24 + n, k);
    }

    /** The last branch of realloc: a new block, a copy of the bytes that fit, and the old block freed. */
    method MoveBlock(p: nat, oldSize: nat, n: nat) returns (r: Option<nat>)
      requires Valid() && Live(Abs(), p) && Request(n) == n && oldSize == OldSize(Abs(), p) && n > oldSize
      modifies this`items, this`links, this`availableSize, this`maxUsedSize, this`blocks, this`free, bytes
      ensures Valid() && (Abs(), r) == Relocate(old(Abs()), p, n)
      ensures r.None? ==> bytes[..] == old(bytes[..])
      ensures r.Some? ==> r.value != p && Copied(p, r.value, oldSize, old(bytes[..]), bytes[..])
    {
      hide Tiled, H.Linked, FreeBytes, NoFreeNeighbours, Ring, RingBut, FreeAt, Copied, Take, FreeBlock, MemHeapSpec.Alloc;
      ghost var h := Abs();
      TiledAt(blocks, BlockOf(h, p), 24, 0, poolSize - 24);
      r := Alloc(n);
      if r.None? { return; }
      ghost var h1 := Abs();
      AllocHolds(h, n);
      AllocKeepsLive(h, n, p);
      assert Live(h1, p) && Live(h1, r.value) && r.value != p;
      assert Payload(h1.blocks[BlockOf(h1, p)]) == oldSize && Payload(h1.blocks[BlockOf(h1, r.value)]) >= n;
      if p < r.value { PayloadsApart(h1, p, r.value); } else { PayloadsApart(h1, r.value, p); }
      CopyBytes(bytes, r.value, p, if oldSize < n then oldSize else n);
      Free(Some(p));
    }
  }
}
