/** Block headers in memory: how the `next`, `prev` and `used` fields found at the offsets of a heap
    represent its list of blocks, and what rewriting a few of them does. `first` is the `prev` of the
    first block. */
module HeapLinks {
  import opened HeapBlocks

  datatype Header = Header(magic: nat, used: bool, next: nat, prev: nat)

  /** Memory seen through `struct heap_mem` pointers; a header never written reads as zeros. */
  type Memory = map<nat, Header>

  function At(mem: Memory, off: nat): Header {
    if off in mem then mem[off] else Header(0, false, 0, 0)
  }

  predicate HeaderOf(h: Header, b: Block, prev: nat, magic: nat) {
    h.next == b.next && h.used == b.used && h.prev == prev && (b.used ==> h.magic == magic)
  }

  /** The headers of the blocks in order; `prev` is the offset before the first one. */
  ghost predicate Linked(mem: Memory, bs: seq<Block>, prev: nat, magic: nat) {
    bs == [] ||
    (HeaderOf(At(mem, bs[0].off), bs[0], prev, magic) && Linked(mem, bs[1..], bs[0].off, magic))
  }

  /** The last header of the heap counts as used and leads to itself; its `prev` is not maintained. */
  predicate Sentinel(mem: Memory, end: nat) {
    At(mem, end).used && At(mem, end).next == end
  }

  function LastOff(bs: seq<Block>, prev: nat): nat {
    if bs == [] then prev else bs[|bs| - 1].off
  }

  lemma {:induction false} LinkedConcat(mem: Memory, a: seq<Block>, b: seq<Block>, prev: nat, magic: nat)
    ensures Linked(mem, a + b, prev, magic)
       <==> Linked(mem, a, prev, magic) && Linked(mem, b, LastOff(a, prev), magic)
    decreases |a|
  {
    if a == [] {
      assert a + b == b;
    } else {
      assert (a + b)[1..] == a[1..] + b;
      LinkedConcat(mem, a[1..], b, a[0].off, magic);
    }
  }

  lemma LinkedAt(mem: Memory, bs: seq<Block>, first: nat, k: nat, magic: nat)
    requires Linked(mem, bs, first, magic) && k < |bs|
    ensures Linked(mem, bs[..k], first, magic) && Linked(mem, bs[k + 1..], bs[k].off, magic)
    ensures HeaderOf(At(mem, bs[k].off), bs[k], LastOff(bs[..k], first), magic)
  {
    assert bs == bs[..k] + bs[k..];
    LinkedConcat(mem, bs[..k], bs[k..], first, magic);
    assert bs[k..][1..] == bs[k + 1..];
  }

  lemma {:induction false} LinkedFrame(mem: Memory, mem': Memory, bs: seq<Block>, prev: nat, magic: nat)
    requires Linked(mem, bs, prev, magic)
    requires forall b :: b in bs ==> At(mem', b.off) == At(mem, b.off)
    ensures Linked(mem', bs, prev, magic)
    decreases |bs|
  {
    if bs != [] {
      assert bs[0] in bs;
      LinkedFrame(mem, mem', bs[1..], bs[0].off, magic);
    }
  }

  /** Rewriting the headers of blocks k to l - 1 as those of `mid`, and the `prev` field after them,
      replaces these blocks in the list. */
  lemma LinkedReplace(mem: Memory, mem': Memory, bs: seq<Block>, first: nat, k: nat, mid: seq<Block>, l: nat,
                      hdr: nat, end: nat, magic: nat)
    requires Tiled(bs, hdr, 0, end) && hdr > 0 && Linked(mem, bs, first, magic)
    requires k < l <= |bs| && mid != [] && Linked(mem', mid, LastOff(bs[..k], first), magic)
    requires forall o: nat :: o < bs[k].off || o > bs[l - 1].next ==> At(mem', o) == At(mem, o)
    requires l < |bs| ==> At(mem', bs[l].off) == At(mem, bs[l].off).(prev := LastOff(mid, 0))
    ensures Linked(mem', bs[..k] + mid + bs[l..], first, magic)
  {
    assert Linked(mem', bs[..k], first, magic) by {
      LinkedAt(mem, bs, first, k, magic);
      TiledAt(bs, k, hdr, 0, end);
      TiledBounds(bs[..k], hdr, 0, bs[k].off);
      LinkedFrame(mem, mem', bs[..k], first, magic);
    }
    assert Linked(mem', bs[l..], LastOff(mid, 0), magic) by {
      if l < |bs| { LinkedTail(mem, mem', bs, first, l, LastOff(mid, 0), hdr, end, magic); }
    }
    LinkedConcat(mem', bs[..k], mid, first, magic);
    LinkedConcat(mem', bs[..k] + mid, bs[l..], first, magic);
  }

  lemma LinkedTail(mem: Memory, mem': Memory, bs: seq<Block>, first: nat, l: nat, prev: nat, hdr: nat, end: nat, magic: nat)
    requires Tiled(bs, hdr, 0, end) && hdr > 0 && Linked(mem, bs, first, magic)
    requires 0 < l < |bs|
    requires forall o: nat :: o > bs[l - 1].next ==> At(mem', o) == At(mem, o)
    requires At(mem', bs[l].off) == At(mem, bs[l].off).(prev := prev)
    ensures Linked(mem', bs[l..], prev, magic)
  {
    LinkedAt(mem, bs, first, l, magic);
    assert Linked(mem', bs[l + 1..], bs[l].off, magic) by {
      TiledAt(bs, l, hdr, 0, end);
      TiledAt(bs, l - 1, hdr, 0, end);
      TiledBounds(bs[l + 1..], hdr, bs[l].next, end);
      LinkedFrame(mem, mem', bs[l + 1..], bs[l].off, magic);
    }
    assert bs[l..][1..] == bs[l + 1..];
  }

  lemma LinkedMark(mem: Memory, mem': Memory, bs: seq<Block>, first: nat, k: nat, used: bool, hdr: nat, end: nat, magic: nat)
    requires Tiled(bs, hdr, 0, end) && hdr > 0 && Linked(mem, bs, first, magic) && k < |bs|
    requires forall o: nat :: o != bs[k].off ==> At(mem', o) == At(mem, o)
    requires var h := At(mem', bs[k].off); var h0 := At(mem, bs[k].off);
      h.next == h0.next && h.prev == h0.prev && h.used == used && (used ==> h.magic == magic)
    ensures Linked(mem', Mark(bs, k, used), first, magic)
  {
    LinkedAt(mem, bs, first, k, magic);
    TiledAt(bs, k, hdr, 0, end);
    if k + 1 < |bs| { LinkedAt(mem, bs, first, k + 1, magic); }
    LinkedReplace(mem, mem', bs, first, k, [bs[k].(used := used)], k + 1, hdr, end, magic);
  }

  lemma LinkedMerge(mem: Memory, mem': Memory, bs: seq<Block>, first: nat, k: nat, hdr: nat, end: nat, magic: nat)
    requires Tiled(bs, hdr, 0, end) && hdr > 0 && Linked(mem, bs, first, magic) && k + 1 < |bs|
    requires At(mem', bs[k].off) == At(mem, bs[k].off).(next := bs[k + 1].next)
    requires var nx := bs[k + 1].next; At(mem', nx) == At(mem, nx).(prev := bs[k].off)
    requires forall o: nat :: o != bs[k].off && o != bs[k + 1].next ==> At(mem', o) == At(mem, o)
    ensures Linked(mem', Merge(bs, k), first, magic)
  {
    LinkedAt(mem, bs, first, k, magic);
    TiledAt(bs, k, hdr, 0, end);
    TiledAt(bs, k + 1, hdr, 0, end);
    LinkedReplace(mem, mem', bs, first, k, [Block(bs[k].off, bs[k + 1].next, bs[k].used)], k + 2, hdr, end, magic);
  }

  lemma LinkedSplit(mem: Memory, mem': Memory, bs: seq<Block>, first: nat, k: nat, mid: nat, hdr: nat, end: nat, magic: nat)
    requires Tiled(bs, hdr, 0, end) && hdr > 0 && Linked(mem, bs, first, magic) && k < |bs|
    requires bs[k].off < mid < bs[k].next
    requires var h := At(mem', bs[k].off);
      h.next == mid && h.prev == At(mem, bs[k].off).prev && h.used && h.magic == magic
    requires var h := At(mem', mid); h.next == bs[k].next && h.prev == bs[k].off && !h.used
    requires bs[k].next != end ==> At(mem', bs[k].next) == At(mem, bs[k].next).(prev := mid)
    requires forall o: nat :: o != bs[k].off && o != mid && o != bs[k].next ==> At(mem', o) == At(mem, o)
    ensures Linked(mem', Split(bs, k, mid), first, magic)
  {
    LinkedAt(mem, bs, first, k, magic);
    TiledAt(bs, k, hdr, 0, end);
    if k + 1 < |bs| { TiledAt(bs, k + 1, hdr, 0, end); }
    var two := [Block(bs[k].off, mid, true), Block(mid, bs[k].next, false)];
    assert two[1..] == [two[1]];
    assert Linked(mem', [two[1]], bs[k].off, magic) by { assert [two[1]][1..] == []; }
    LinkedReplace(mem, mem', bs, first, k, two, k + 1, hdr, end, magic);
  }

  /** What following the links of block `k` finds. */
  lemma Neighbours(mem: Memory, bs: seq<Block>, k: nat, hdr: nat, end: nat, magic: nat)
    requires Layout(bs, hdr, end) && hdr > 0 && Linked(mem, bs, 0, magic) && Sentinel(mem, end) && k < |bs|
    ensures var h := At(mem, bs[k].off); HeaderOf(h, bs[k], if k == 0 then 0 else bs[k - 1].off, magic)
    ensures k == 0 ==> bs[k].off == 0
    ensures k > 0 ==> bs[k - 1].off < bs[k].off && At(mem, bs[k - 1].off).used == bs[k - 1].used
    ensures bs[k].off < bs[k].next <= end
    ensures k + 1 < |bs| ==> bs[k].next == bs[k + 1].off < end
    ensures k + 1 < |bs| ==> At(mem, bs[k].next).used == bs[k + 1].used && At(mem, bs[k].next).next == bs[k + 1].next
    ensures k + 1 < |bs| ==> bs[k + 1].next <= end
    ensures k + 1 == |bs| ==> bs[k].next == end
  {
    LinkedAt(mem, bs, 0, k, magic);
    TiledAt(bs, k, hdr, 0, end);
    if k > 0 {
      LinkedAt(mem, bs, 0, k - 1, magic);
      TiledOrdered(bs, k - 1, k, hdr, 0, end);
      assert bs[..k][|bs[..k]| - 1] == bs[k - 1];
    }
    if k + 1 < |bs| {
      LinkedAt(mem, bs, 0, k + 1, magic);
      TiledAt(bs, k + 1, hdr, 0, end);
    } else {
      TiledBounds(bs, hdr, 0, end);
    }
  }
}
