/** Where the small-memory heap does not hand out memory it has: concrete heaps, reached from
    initialisation, and what malloc answers in them. */
module SmallHeapFaults {
  import opened HeapBlocks
  import opened SmallHeapSpec
  import opened Wrappers

  lemma OneStep(h: Heap, op: Op)
    requires Legal(h, op)
    ensures LegalRun(h, [op]) && Run(h, [op]) == Step(h, op)
  {
    hide Step;
    assert [op][1..] == [];
  }

  // ----- a hint above a free block ------------------------------------------------------------

  /** Two used blocks and a free one: shrinking the first puts a free block below the hint. */
  function ThreeBlocks(): Heap {
    Heap(RT_HEAP, 300, [Block(0, 100, true), Block(100, 200, true), Block(200, 312, false)], 200, 200, 200)
  }

  /** Two mallocs of 88 bytes lead there from initialisation. */
  lemma ThreeBlocksReached()
    ensures var h := Init(RT_HEAP, 300); var ops := [Alloc(88), Alloc(88)];
      LegalRun(h, ops) && Run(h, ops) == ThreeBlocks()
  {
    hide Step;
    var h := Init(RT_HEAP, 300);
    var ops := [Alloc(88), Alloc(88)];
    TwoBlocksTaken();
    ThreeBlocksTaken();
    OneStep(TwoBlocks(), Alloc(88));
    assert ops[1..] == [Alloc(88)];
  }

  function TwoBlocks(): Heap {
    Heap(RT_HEAP, 300, [Block(0, 100, true), Block(100, 312, false)], 100, 100, 100)
  }

  lemma TwoBlocksTaken()
    ensures Step(Init(RT_HEAP, 300), Alloc(88)) == TwoBlocks()
  {
    hide Take;
    var h := Init(RT_HEAP, 300);
    assert FindFit(h, 88, 0) == 0;
    MallocAt(h, 88);
    assert Take(h, 0, 88) == TwoBlocks() by { TwoBlocksCarved(); }
  }

  lemma TwoBlocksCarved()
    ensures Take(Init(RT_HEAP, 300), 0, 88) == TwoBlocks()
  {
    var bs := TwoBlocks().blocks;
    assert Carve(Init(RT_HEAP, 300), 0, 88) == bs;
    assert NextFree(bs, 0, 1) == 1 && NextFree(bs, 0, 0) == 1;
  }

  lemma ThreeBlocksTaken()
    ensures Step(TwoBlocks(), Alloc(88)) == ThreeBlocks()
  {
    hide Take;
    var h := TwoBlocks();
    assert FindFit(h, 88, 1) == 1 && FindFit(h, 88, 0) == 1;
    MallocAt(h, 88);
    assert Take(h, 1, 88) == ThreeBlocks() by { ThreeBlocksCarved(); }
  }

  lemma ThreeBlocksCarved()
    ensures Take(TwoBlocks(), 1, 88) == ThreeBlocks()
  {
    var bs := ThreeBlocks().blocks;
    assert Carve(TwoBlocks(), 1, 88) == bs;
    assert NextFree(bs, 100, 2) == 2 && NextFree(bs, 100, 1) == 2 && NextFree(bs, 100, 0) == 2;
  }

  lemma ThreeBlocksInv()
    ensures Inv(ThreeBlocks()) && HintLowest(ThreeBlocks())
  {
    hide Run, Inv, HintLowest;
    InitEstablishes(RT_HEAP, 300);
    ThreeBlocksReached();
    RunKeeps(Init(RT_HEAP, 300), [Alloc(88), Alloc(88)]);
    RunKeepsLowest(Init(RT_HEAP, 300), [Alloc(88), Alloc(88)]);
  }

  /** The first block cut down to twelve bytes. */
  lemma ThreeBlocksShrunk()
    ensures Shrink(ThreeBlocks(), 0, 12) == Heap(RT_HEAP, 300,
      [Block(0, 24, true), Block(24, 100, false), Block(100, 200, true), Block(200, 312, false)], 200, 124, 200)
  {
    var h := ThreeBlocks();
    assert Cut(h, 0, 12).blocks ==
      [Block(0, 24, true), Block(24, 100, false), Block(100, 200, true), Block(200, 312, false)];
  }

  /** A concrete heap whose hint stops being the lowest free block after an in-place shrink, so that
      the next malloc passes over the lowest block that fits. */
  lemma ShrinkCanLoseLowest()
    ensures var h := ThreeBlocks();
      && Inv(h) && HintLowest(h) && !HintLowest(Shrink(h, 0, 12))
      && FreeAt(Shrink(h, 0, 12).blocks, 24) && Malloc(Shrink(h, 0, 12), 12).1 == Some(212)
  {
    var h := ThreeBlocks();
    ThreeBlocksInv();
    ShrinkHint(h, 0, 12);
    ShrinkFree(h, 0, 12);
    ThreeBlocksShrunk();
    assert Malloc(Shrink(h, 0, 12), 12).1 == Some(212) by { ThreeBlocksMalloc(Shrink(h, 0, 12)); }
  }

  lemma ThreeBlocksMalloc(s: Heap)
    requires s.c == RT_HEAP && s.m == 300 && s.lfree == 200
    requires s.blocks == [Block(0, 24, true), Block(24, 100, false), Block(100, 200, true), Block(200, 312, false)]
    ensures Malloc(s, 12).1 == Some(212)
  {
    hide Take;
    assert FindFit(s, 12, 3) == 3;
    assert FindFit(s, 12, 2) == 3;
    assert FindFit(s, 12, 1) == 3;
    assert FindFit(s, 12, 0) == 3;
    MallocAt(s, 12);
  }

  // ----- a hint at the sentinel ---------------------------------------------------------------

  /** With the hint at the sentinel every malloc fails, so any number of them leave the heap as it is. */
  lemma {:induction false} NothingBeforeFree(h: Heap, ops: seq<Op>)
    requires Inv(h) && h.lfree == h.End() && forall op :: op in ops ==> op.Alloc?
    ensures LegalRun(h, ops) && Run(h, ops) == h
    ensures forall size: nat :: Malloc(h, size) == (h, None)
    decreases |ops|
  {
    forall size: nat ensures Malloc(h, size) == (h, None) { SentinelHint(h, size); }
    if ops != [] {
      assert ops[0] in ops;
      NothingBeforeFree(h, ops[1..]);
    }
  }

  lemma SentinelHint(h: Heap, size: nat)
    requires Inv(h) && h.lfree == h.End()
    ensures Malloc(h, size) == (h, None)
  {
    hide Malloc;
    MallocAt(h, size);
    TiledBounds(h.blocks, h.c.hdr, 0, h.End());
    MallocFails(h, size);
  }

  /** In a full heap an in-place shrink leaves the hint at the sentinel: the bytes it gives back are free,
      and no malloc finds them until something is freed. */
  lemma ShrinkOfFullHeap(h: Heap, k: nat, n: nat, ops: seq<Op>)
    requires Inv(h) && h.lfree == h.End() && k < |h.blocks| && h.blocks[k].used && n % 4 == 0
    requires n + h.c.hdr + h.c.minSize < h.Payload(h.blocks[k])
    requires forall op :: op in ops ==> op.Alloc?
    ensures var s := Shrink(h, k, n);
      && FreeAt(s.blocks, h.blocks[k].off + h.c.hdr + n)
      && (forall size: nat :: Malloc(s, size) == (s, None))
      && LegalRun(s, ops) && Run(s, ops) == s
  {
    hide Shrink, Run, LegalRun, Malloc, Layout, NoFreeNeighbours, HintOk, Accounts;
    ShrinkKeeps(h, k, n);
    ShrinkFree(h, k, n);
    NothingBeforeFree(Shrink(h, k, n), ops);
  }

  /** The whole heap in one used block. */
  function FullHeap(): Heap {
    Heap(RT_HEAP, 300, [Block(0, 312, true)], 312, 312, 312)
  }

  /** One malloc fills a new heap of 300 bytes; shrunk to twelve bytes, that block leaves 276 free ones,
      and a malloc of any size fails. */
  lemma FullHeapFails()
    ensures LegalRun(Init(RT_HEAP, 300), [Alloc(288)]) && Run(Init(RT_HEAP, 300), [Alloc(288)]) == FullHeap()
    ensures Legal(FullHeap(), Resize(Some(12), 12))
    ensures var s := Step(FullHeap(), Resize(Some(12), 12));
      && s.blocks == [Block(0, 24, true), Block(24, 312, false)] && s.Payload(s.blocks[1]) == 276
      && forall size: nat :: Malloc(s, size) == (s, None)
  {
    hide Malloc, Run, Step, Realloc, Shrink, Inv, LegalRun, FreeAt;
    FullHeapReached();
    assert Inv(FullHeap()) by {
      InitEstablishes(RT_HEAP, 300);
      RunKeeps(Init(RT_HEAP, 300), [Alloc(288)]);
    }
    FullHeapShrunk();
    ShrinkOfFullHeap(FullHeap(), 0, 12, []);
  }

  lemma FullHeapShrunk()
    ensures Legal(FullHeap(), Resize(Some(12), 12))
    ensures Step(FullHeap(), Resize(Some(12), 12)) == Shrink(FullHeap(), 0, 12)
    ensures var s := Shrink(FullHeap(), 0, 12);
      s.blocks == [Block(0, 24, true), Block(24, 312, false)] && s.c == RT_HEAP
  {
    hide Malloc, Relocate;
    assert Live(FullHeap(), 12) && BlockOf(FullHeap(), 12) == 0 && SizeAt(FullHeap(), 12) == 300;
    assert Cut(FullHeap(), 0, 12).blocks == [Block(0, 24, true), Block(24, 312, false)];
  }

  lemma FullHeapReached()
    ensures LegalRun(Init(RT_HEAP, 300), [Alloc(288)]) && Run(Init(RT_HEAP, 300), [Alloc(288)]) == FullHeap()
  {
    hide Step;
    FullHeapTaken();
    OneStep(Init(RT_HEAP, 300), Alloc(288));
  }

  lemma FullHeapTaken()
    ensures Step(Init(RT_HEAP, 300), Alloc(288)) == FullHeap()
  {
    hide Take;
    var h := Init(RT_HEAP, 300);
    assert FindFit(h, 288, 0) == 0;
    MallocAt(h, 288);
    assert Take(h, 0, 288) == FullHeap() by { FullHeapCarved(); }
  }

  lemma FullHeapCarved()
    ensures Take(Init(RT_HEAP, 300), 0, 288) == FullHeap()
  {
    var bs := [Block(0, 312, true)];
    assert Carve(Init(RT_HEAP, 300), 0, 288) == bs;
    assert NextFree(bs, 0, 1) == 1 && NextFree(bs, 0, 0) == 1;
  }
}
