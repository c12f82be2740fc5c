/** Blocks of an address-ordered heap: the view shared by the small-memory heap (mem.c and lua_mem.c)
    and by the memheap pool (memheap.c). A block starts at offset `off` with a header of `hdr` bytes and
    ends where the next one starts. */
module HeapBlocks {
  const WORD: nat := 0x1_0000_0000

  datatype Block = Block(off: nat, next: nat, used: bool)

  /** RT_ALIGN to four bytes of a 32-bit operand: the addition wraps. */
  function RtAlign(size: nat): nat {
    (size + 3) % 0x1_0000_0000 / 4 * 4
  }

  /** RT_ALIGN_DOWN to four bytes. */
  function RtAlignDown(size: nat): nat {
    size / 4 * 4
  }

  /** The aligned size covers the request except for the last three sizes a 32-bit word can hold. */
  lemma RtAlignCovers(size: nat)
    requires size < WORD
    ensures RtAlign(size) % 4 == 0
    ensures RtAlign(size) >= size <==> size <= WORD - 4
    ensures size <= WORD - 4 ==> RtAlign(size) < size + 4
  {
    if size + 3 < WORD {
      assert (size + 3) % 0x1_0000_0000 == size + 3;
    } else {
      assert (size + 3) % 0x1_0000_0000 == size + 3 - WORD;
    }
  }

  // ----- tiling -------------------------------------------------------------------------------

  /** The blocks cover [lo, hi) in order and without gap, each at an aligned offset and with room for
      its header. */
  ghost predicate Tiled(bs: seq<Block>, hdr: nat, lo: nat, hi: nat) {
    if bs == [] then lo == hi
    else
      && bs[0].off == lo && lo % 4 == 0 && lo + hdr <= bs[0].next
      && Tiled(bs[1..], hdr, bs[0].next, hi)
  }

  function EndOf(bs: seq<Block>, lo: nat): nat {
    if bs == [] then lo else bs[|bs| - 1].next
  }

  lemma {:induction false} TiledConcat(a: seq<Block>, b: seq<Block>, hdr: nat, lo: nat, hi: nat)
    ensures Tiled(a + b, hdr, lo, hi) <==> Tiled(a, hdr, lo, EndOf(a, lo)) && Tiled(b, hdr, EndOf(a, lo), hi)
    decreases |a|
  {
    if a == [] {
      assert a + b == b;
    } else {
      assert (a + b)[1..] == a[1..] + b;
      TiledConcat(a[1..], b, hdr, a[0].next, hi);
      assert EndOf(a[1..], a[0].next) == EndOf(a, lo);
    }
  }

  /** Where block `k` of a tiled list stands, and that its two sides are tiled. */
  lemma TiledAt(bs: seq<Block>, k: nat, hdr: nat, lo: nat, hi: nat)
    requires Tiled(bs, hdr, lo, hi) && k < |bs|
    ensures Tiled(bs[..k], hdr, lo, bs[k].off) && Tiled(bs[k + 1..], hdr, bs[k].next, hi)
    ensures bs[k].off % 4 == 0 && bs[k].off + hdr <= bs[k].next
    ensures lo <= bs[k].off && bs[k].next <= hi
    ensures k + 1 < |bs| ==> bs[k + 1].off == bs[k].next
  {
    assert bs == bs[..k] + bs[k..];
    TiledConcat(bs[..k], bs[k..], hdr, lo, hi);
    assert bs[k..][1..] == bs[k + 1..];
    TiledBounds(bs[..k], hdr, lo, bs[k].off);
    TiledBounds(bs[k + 1..], hdr, bs[k].next, hi);
  }

  lemma {:induction false} TiledBounds(bs: seq<Block>, hdr: nat, lo: nat, hi: nat)
    requires Tiled(bs, hdr, lo, hi)
    ensures lo <= hi
    ensures forall b :: b in bs ==> lo <= b.off && b.off + hdr <= b.next <= hi && b.off % 4 == 0
    ensures bs != [] ==> bs[|bs| - 1].next == hi
    decreases |bs|
  {
    if bs != [] {
      TiledBounds(bs[1..], hdr, bs[0].next, hi);
      assert forall b :: b in bs ==> b == bs[0] || b in bs[1..];
    }
  }

  /** Two blocks at different places of a tiled list do not overlap, headers included. */
  lemma TiledOrdered(bs: seq<Block>, i: nat, j: nat, hdr: nat, lo: nat, hi: nat)
    requires Tiled(bs, hdr, lo, hi) && i < j < |bs|
    ensures bs[i].off + hdr <= bs[i].next <= bs[j].off
  {
    TiledAt(bs, i, hdr, lo, hi);
    TiledBounds(bs[i + 1..], hdr, bs[i].next, hi);
    assert bs[i + 1..][j - i - 1] == bs[j];
  }

  /** Replacing block `k` by blocks that tile the same range keeps the tiling. */
  lemma TiledReplace(bs: seq<Block>, k: nat, mid: seq<Block>, l: nat, hdr: nat, lo: nat, hi: nat)
    requires k < l <= |bs| && Tiled(bs, hdr, lo, hi)
    requires Tiled(mid, hdr, bs[k].off, bs[l - 1].next) && mid != []
    ensures Tiled(bs[..k] + mid + bs[l..], hdr, lo, hi)
  {
    TiledAt(bs, k, hdr, lo, hi);
    TiledAt(bs, l - 1, hdr, lo, hi);
    TiledBounds(bs[..k], hdr, lo, bs[k].off);
    TiledBounds(mid, hdr, bs[k].off, bs[l - 1].next);
    TiledConcat(bs[..k], mid, hdr, lo, bs[l - 1].next);
    assert EndOf(bs[..k] + mid, lo) == mid[|mid| - 1].next;
    TiledConcat(bs[..k] + mid, bs[l..], hdr, lo, hi);
  }

  /** The index of the block at an offset, or the number of blocks. */
  function IndexOf(bs: seq<Block>, off: int, i: nat): (k: nat)
    requires i <= |bs|
    ensures i <= k <= |bs|
    ensures k < |bs| ==> bs[k].off == off
    ensures forall j :: i <= j < k ==> bs[j].off != off
    decreases |bs| - i
  {
    if i == |bs| || bs[i].off == off then i else IndexOf(bs, off, i + 1)
  }

  /** In a tiled list a block is found by its offset. */
  lemma IndexFinds(bs: seq<Block>, b: Block, hdr: nat, lo: nat, hi: nat)
    requires Tiled(bs, hdr, lo, hi) && hdr > 0 && b in bs
    ensures IndexOf(bs, b.off, 0) < |bs| && bs[IndexOf(bs, b.off, 0)] == b
  {
    var i :| 0 <= i < |bs| && bs[i] == b;
    var k := IndexOf(bs, b.off, 0);
    if k < i { TiledOrdered(bs, k, i, hdr, lo, hi); }
  }

  // ----- splitting and joining ----------------------------------------------------------------

  function Split(bs: seq<Block>, k: nat, mid: nat): seq<Block>
    requires k < |bs|
  {
    bs[..k] + [Block(bs[k].off, mid, true), Block(mid, bs[k].next, false)] + bs[k + 1..]
  }

  function Merge(bs: seq<Block>, k: nat): seq<Block>
    requires k + 1 < |bs|
  {
    bs[..k] + [Block(bs[k].off, bs[k + 1].next, bs[k].used)] + bs[k + 2..]
  }

  function Mark(bs: seq<Block>, k: nat, used: bool): seq<Block>
    requires k < |bs|
  {
    bs[..k] + [bs[k].(used := used)] + bs[k + 1..]
  }

  lemma SplitTiled(bs: seq<Block>, k: nat, mid: nat, hdr: nat, lo: nat, hi: nat)
    requires Tiled(bs, hdr, lo, hi) && k < |bs| && mid % 4 == 0
    requires bs[k].off + hdr <= mid && mid + hdr <= bs[k].next
    ensures Tiled(Split(bs, k, mid), hdr, lo, hi)
  {
    TiledAt(bs, k, hdr, lo, hi);
    var two := [Block(bs[k].off, mid, true), Block(mid, bs[k].next, false)];
    assert two[1..] == [two[1]];
    TiledReplace(bs, k, two, k + 1, hdr, lo, hi);
  }

  lemma MergeTiled(bs: seq<Block>, k: nat, hdr: nat, lo: nat, hi: nat)
    requires Tiled(bs, hdr, lo, hi) && k + 1 < |bs|
    ensures Tiled(Merge(bs, k), hdr, lo, hi)
  {
    TiledAt(bs, k, hdr, lo, hi);
    TiledAt(bs, k + 1, hdr, lo, hi);
    TiledReplace(bs, k, [Block(bs[k].off, bs[k + 1].next, bs[k].used)], k + 2, hdr, lo, hi);
  }

  lemma MarkTiled(bs: seq<Block>, k: nat, used: bool, hdr: nat, lo: nat, hi: nat)
    requires Tiled(bs, hdr, lo, hi) && k < |bs|
    ensures Tiled(Mark(bs, k, used), hdr, lo, hi)
  {
    TiledAt(bs, k, hdr, lo, hi);
    TiledReplace(bs, k, [bs[k].(used := used)], k + 1, hdr, lo, hi);
  }

  /** A tiled heap from offset 0 whose last block has payload: its payload pointer is below the end. */
  ghost predicate Layout(bs: seq<Block>, hdr: nat, end: nat) {
    && bs != [] && Tiled(bs, hdr, 0, end)
    && bs[|bs| - 1].off + hdr < bs[|bs| - 1].next
  }

  lemma SplitLayout(bs: seq<Block>, k: nat, mid: nat, hdr: nat, end: nat)
    requires Layout(bs, hdr, end) && k < |bs| && mid % 4 == 0
    requires bs[k].off + hdr <= mid && mid + hdr < bs[k].next
    ensures Layout(Split(bs, k, mid), hdr, end)
  {
    SplitTiled(bs, k, mid, hdr, 0, end);
  }

  lemma MergeLayout(bs: seq<Block>, k: nat, hdr: nat, end: nat)
    requires Layout(bs, hdr, end) && k + 1 < |bs|
    ensures Layout(Merge(bs, k), hdr, end)
  {
    MergeTiled(bs, k, hdr, 0, end);
    TiledAt(bs, k, hdr, 0, end);
  }

  lemma MarkLayout(bs: seq<Block>, k: nat, used: bool, hdr: nat, end: nat)
    requires Layout(bs, hdr, end) && k < |bs|
    ensures Layout(Mark(bs, k, used), hdr, end)
  {
    MarkTiled(bs, k, used, hdr, 0, end);
  }

  // ----- bytes in used blocks -----------------------------------------------------------------

  function Extent(b: Block): int {
    if b.used then b.next - b.off else 0
  }

  function UsedBytes(bs: seq<Block>): int {
    if bs == [] then 0 else Extent(bs[0]) + UsedBytes(bs[1..])
  }

  lemma {:induction false} UsedBytesConcat(a: seq<Block>, b: seq<Block>)
    ensures UsedBytes(a + b) == UsedBytes(a) + UsedBytes(b)
    decreases |a|
  {
    if a == [] {
      assert a + b == b;
    } else {
      assert (a + b)[1..] == a[1..] + b;
      UsedBytesConcat(a[1..], b);
    }
  }

  lemma UsedBytesPair(x: Block, y: Block)
    ensures UsedBytes([x, y]) == Extent(x) + Extent(y)
  {
    assert [x, y] == [x] + [y];
    UsedBytesConcat([x], [y]);
  }

  lemma UsedBytesReplace(bs: seq<Block>, k: nat, mid: seq<Block>, l: nat)
    requires k <= l <= |bs|
    ensures UsedBytes(bs[..k] + mid + bs[l..]) == UsedBytes(bs) - UsedBytes(bs[k..l]) + UsedBytes(mid)
  {
    assert bs == bs[..k] + bs[k..l] + bs[l..];
    UsedBytesConcat(bs[..k] + bs[k..l], bs[l..]);
    UsedBytesConcat(bs[..k], bs[k..l]);
    UsedBytesConcat(bs[..k] + mid, bs[l..]);
    UsedBytesConcat(bs[..k], mid);
  }

  lemma UsedBytesMark(bs: seq<Block>, k: nat, used: bool)
    requires k < |bs|
    ensures UsedBytes(Mark(bs, k, used)) == UsedBytes(bs) - Extent(bs[k]) + Extent(bs[k].(used := used))
  {
    UsedBytesReplace(bs, k, [bs[k].(used := used)], k + 1);
    assert bs[k..k + 1] == [bs[k]];
  }

  lemma UsedBytesSplit(bs: seq<Block>, k: nat, mid: nat)
    requires k < |bs|
    ensures UsedBytes(Split(bs, k, mid)) == UsedBytes(bs) - Extent(bs[k]) + (mid - bs[k].off)
  {
    var two := [Block(bs[k].off, mid, true), Block(mid, bs[k].next, false)];
    UsedBytesReplace(bs, k, two, k + 1);
    UsedBytesPair(two[0], two[1]);
    assert bs[k..k + 1] == [bs[k]];
  }

  /** Joining two free blocks uses and frees no byte. */
  lemma UsedBytesMerge(bs: seq<Block>, k: nat)
    requires k + 1 < |bs| && !bs[k].used && !bs[k + 1].used
    ensures UsedBytes(Merge(bs, k)) == UsedBytes(bs)
  {
    UsedBytesReplace(bs, k, [Block(bs[k].off, bs[k + 1].next, false)], k + 2);
    UsedBytesPair(bs[k], bs[k + 1]);
    assert bs[k..k + 2] == [bs[k], bs[k + 1]];
  }

  // ----- adjacent free blocks -----------------------------------------------------------------

  /** Of any two neighbouring blocks at least one is used. */
  ghost predicate NoFreeNeighbours(bs: seq<Block>) {
    |bs| < 2 || ((bs[0].used || bs[1].used) && NoFreeNeighbours(bs[1..]))
  }

  ghost predicate Joinable(a: seq<Block>, b: seq<Block>) {
    a == [] || b == [] || a[|a| - 1].used || b[0].used
  }

  lemma {:induction false} NoFreeConcat(a: seq<Block>, b: seq<Block>)
    ensures NoFreeNeighbours(a + b) <==> NoFreeNeighbours(a) && NoFreeNeighbours(b) && Joinable(a, b)
    decreases |a|
  {
    if a == [] {
      assert a + b == b;
    } else {
      assert (a + b)[1..] == a[1..] + b;
      NoFreeConcat(a[1..], b);
    }
  }

  /** The three parts around block `k`, and what a replacement of it needs. */
  lemma NoFreeReplace(bs: seq<Block>, k: nat, mid: seq<Block>, l: nat)
    requires k <= l <= |bs| && mid != []
    ensures NoFreeNeighbours(bs[..k] + mid + bs[l..])
       <==> NoFreeNeighbours(bs[..k]) && NoFreeNeighbours(mid) && NoFreeNeighbours(bs[l..])
            && Joinable(bs[..k], mid) && Joinable(mid, bs[l..])
  {
    NoFreeConcat(bs[..k], mid);
    NoFreeConcat(bs[..k] + mid, bs[l..]);
  }

  lemma NoFreeParts(bs: seq<Block>, k: nat, l: nat)
    requires k < l <= |bs|
    ensures NoFreeNeighbours(bs)
       <==> NoFreeNeighbours(bs[..k]) && NoFreeNeighbours(bs[k..l]) && NoFreeNeighbours(bs[l..])
            && Joinable(bs[..k], bs[k..l]) && Joinable(bs[k..l], bs[l..])
  {
    assert bs == bs[..k] + bs[k..l] + bs[l..];
    NoFreeReplace(bs, k, bs[k..l], l);
  }

  /** No two adjacent free blocks, pairs that involve block `x` apart. */
  ghost predicate NoFreeBut(bs: seq<Block>, x: nat)
    requires x < |bs|
  {
    NoFreeNeighbours(bs[..x]) && NoFreeNeighbours(bs[x + 1..])
  }

  /** Cutting a free block in two and using the first half leaves no adjacent free blocks. */
  lemma SplitFree(bs: seq<Block>, k: nat, mid: nat)
    requires k < |bs| && !bs[k].used && NoFreeNeighbours(bs)
    ensures NoFreeNeighbours(Split(bs, k, mid))
  {
    NoFreeParts(bs, k, k + 1);
    var two := [Block(bs[k].off, mid, true), Block(mid, bs[k].next, false)];
    assert two == [two[0]] + [two[1]];
    NoFreeConcat([two[0]], [two[1]]);
    NoFreeReplace(bs, k, two, k + 1);
  }

  lemma MarkUsed(bs: seq<Block>, k: nat)
    requires k < |bs| && NoFreeNeighbours(bs)
    ensures NoFreeNeighbours(Mark(bs, k, true))
  {
    NoFreeParts(bs, k, k + 1);
    NoFreeReplace(bs, k, [bs[k].(used := true)], k + 1);
  }

  lemma MarkFree(bs: seq<Block>, k: nat)
    requires k < |bs| && NoFreeNeighbours(bs)
    ensures NoFreeBut(Mark(bs, k, false), k)
  {
    NoFreeParts(bs, k, k + 1);
    var m := Mark(bs, k, false);
    assert m[..k] == bs[..k] && m[k + 1..] == bs[k + 1..];
  }

  /** Cutting a used block in two can only put the new free half next to a free block. */
  lemma SplitUsed(bs: seq<Block>, k: nat, mid: nat)
    requires k < |bs| && NoFreeNeighbours(bs)
    ensures NoFreeBut(Split(bs, k, mid), k + 1)
  {
    NoFreeParts(bs, k, k + 1);
    var s := Split(bs, k, mid);
    assert s[..k + 1] == bs[..k] + [Block(bs[k].off, mid, true)] && s[k + 2..] == bs[k + 1..];
    NoFreeConcat(bs[..k], [Block(bs[k].off, mid, true)]);
  }

  lemma MergeForward(bs: seq<Block>, k: nat)
    requires k + 1 < |bs| && !bs[k + 1].used && NoFreeBut(bs, k)
    ensures NoFreeBut(Merge(bs, k), k)
    ensures k + 1 < |Merge(bs, k)| ==> Merge(bs, k)[k + 1].used
  {
    var m := Merge(bs, k);
    assert m[..k] == bs[..k] && m[k + 1..] == bs[k + 2..];
    assert bs[k + 1..][1..] == bs[k + 2..];
  }

  lemma MergeBackward(bs: seq<Block>, k: nat)
    requires 0 < k < |bs| && !bs[k - 1].used && NoFreeBut(bs, k)
    requires k + 1 < |bs| ==> bs[k + 1].used
    ensures NoFreeNeighbours(Merge(bs, k - 1))
  {
    NoFreeParts(bs[..k], k - 1, k);
    assert bs[..k][..k - 1] == bs[..k - 1];
    NoFreeReplace(bs, k - 1, [Block(bs[k - 1].off, bs[k].next, bs[k - 1].used)], k + 1);
  }

  lemma NoHole(bs: seq<Block>, k: nat)
    requires k < |bs| && NoFreeBut(bs, k)
    requires k > 0 ==> bs[k - 1].used
    requires k + 1 < |bs| ==> bs[k + 1].used
    ensures NoFreeNeighbours(bs)
  {
    NoFreeParts(bs, k, k + 1);
  }

  // ----- free offsets -------------------------------------------------------------------------

  ghost predicate FreeAt(bs: seq<Block>, off: nat) {
    exists b :: b in bs && b.off == off && !b.used
  }

  lemma MergeFreeAt(bs: seq<Block>, k: nat, off: nat)
    requires k + 1 < |bs| && !bs[k].used && !bs[k + 1].used
    ensures FreeAt(bs, off) && off != bs[k + 1].off ==> FreeAt(Merge(bs, k), off)
    ensures FreeAt(Merge(bs, k), off) ==> FreeAt(bs, off)
  {
    assert bs == bs[..k] + [bs[k], bs[k + 1]] + bs[k + 2..];
    var x := Block(bs[k].off, bs[k + 1].next, bs[k].used);
    assert x in Merge(bs, k) && bs[k] in bs;
  }

  lemma SplitFreeAt(bs: seq<Block>, k: nat, mid: nat, off: nat)
    requires k < |bs|
    ensures FreeAt(bs, off) && (off != bs[k].off || bs[k].used) ==> FreeAt(Split(bs, k, mid), off)
    ensures FreeAt(Split(bs, k, mid), off) ==> FreeAt(bs, off) || off == mid
    ensures FreeAt(Split(bs, k, mid), mid)
  {
    assert bs == bs[..k] + [bs[k]] + bs[k + 1..];
    assert Block(mid, bs[k].next, false) in Split(bs, k, mid);
  }

  lemma MarkFreeAt(bs: seq<Block>, k: nat, used: bool, off: nat)
    requires k < |bs|
    ensures FreeAt(bs, off) && (off != bs[k].off || bs[k].used) ==> FreeAt(Mark(bs, k, used), off)
    ensures FreeAt(Mark(bs, k, used), off) ==> FreeAt(bs, off) || (!used && off == bs[k].off)
    ensures !used ==> FreeAt(Mark(bs, k, used), bs[k].off)
  {
    assert bs == bs[..k] + [bs[k]] + bs[k + 1..];
    assert bs[k].(used := used) in Mark(bs, k, used);
  }

  // ----- used blocks --------------------------------------------------------------------------

  /** Every used block of `bs` is a block of `cs`. */
  ghost predicate UsedIn(bs: seq<Block>, cs: seq<Block>) {
    forall b :: b in bs && b.used ==> b in cs
  }

  lemma MergeUsedIn(bs: seq<Block>, k: nat)
    requires k + 1 < |bs| && !bs[k].used && !bs[k + 1].used
    ensures UsedIn(Merge(bs, k), bs) && UsedIn(bs, Merge(bs, k))
  {
    assert bs == bs[..k] + [bs[k], bs[k + 1]] + bs[k + 2..];
  }

  lemma MarkFreeUsedIn(bs: seq<Block>, k: nat)
    requires k < |bs|
    ensures UsedIn(Mark(bs, k, false), bs)
    ensures forall b :: b in bs && b.used && b != bs[k] ==> b in Mark(bs, k, false)
  {
    assert bs == bs[..k] + [bs[k]] + bs[k + 1..];
  }

  lemma SplitUsedIn(bs: seq<Block>, k: nat, mid: nat)
    requires k < |bs|
    ensures !bs[k].used ==> UsedIn(bs, Split(bs, k, mid))
    ensures forall b :: b in bs && b.used && b != bs[k] ==> b in Split(bs, k, mid)
    ensures Block(bs[k].off, mid, true) in Split(bs, k, mid)
  {
    assert bs == bs[..k] + [bs[k]] + bs[k + 1..];
  }
}
