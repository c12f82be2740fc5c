/** Who holds what: the small-memory heap seen by its callers. A caller holds a pointer from the call that
    returned it to the call that takes it back, together with the size it last asked for. */
module SmallHeapHolders {
  import opened HeapBlocks
  import opened SmallHeapSpec
  import opened Wrappers

  // ----- used blocks --------------------------------------------------------------------------

  predicate At(c: Config, b: Block, p: Option<nat>) {
    p == Some(b.off + c.hdr)
  }

  /** The used blocks of `h'` are those of `h` without the one at `gone`, and the one at `got`. */
  ghost predicate Swapped(h: Heap, h': Heap, gone: Option<nat>, got: Option<nat>) {
    && h'.c == h.c
    && (forall b :: b in h.blocks && b.used && !At(h.c, b, gone) ==> b in h'.blocks)
    && (forall b :: b in h'.blocks && b.used ==> (b in h.blocks && !At(h.c, b, gone)) || At(h.c, b, got))
  }

  /** There is a used block at `p`, aligned and with room for `n` payload bytes. */
  ghost predicate Serves(h: Heap, p: nat, n: nat) {
    p % 4 == 0 && exists b :: b in h.blocks && b.used && At(h.c, b, Some(p)) && Room(h.c, n, h.Payload(b))
  }

  lemma SameOffset(bs: seq<Block>, b: Block, c: Block, hdr: nat, hi: nat)
    requires Tiled(bs, hdr, 0, hi) && hdr > 0 && b in bs && c in bs && b.off == c.off
    ensures b == c
  {
    IndexFinds(bs, b, hdr, 0, hi);
    IndexFinds(bs, c, hdr, 0, hi);
  }

  lemma LiveIsBlock(h: Heap, p: nat)
    requires Shape(h)
    ensures Live(h, p) <==> exists b :: b in h.blocks && b.used && At(h.c, b, Some(p))
    ensures Live(h, p) ==> h.blocks[BlockOf(h, p)] in h.blocks
  {
    if b :| b in h.blocks && b.used && At(h.c, b, Some(p)) { LiveBlock(h, b); }
  }

  lemma ServesLive(h: Heap, p: nat, n: nat)
    requires Shape(h) && Serves(h, p, n)
    ensures Live(h, p) && Room(h.c, n, h.Payload(h.blocks[BlockOf(h, p)])) && p % 4 == 0
  {
    var b :| b in h.blocks && b.used && At(h.c, b, Some(p)) && Room(h.c, n, h.Payload(b));
    LiveBlock(h, b);
  }

  lemma TakeSwaps(h: Heap, k: nat, n: nat)
    requires k < |h.blocks| && !h.blocks[k].used
    ensures Swapped(h, Take(h, k, n), None, Some(h.blocks[k].off + h.c.hdr))
  {
    var bs := h.blocks;
    assert bs == bs[..k] + [bs[k]] + bs[k + 1..];
  }

  lemma MallocSwaps(h: Heap, size: nat)
    requires Inv(h)
    ensures var (h', r) := Malloc(h, size);
      && Swapped(h, h', None, r) && (r.Some? ==> !Live(h, r.value) && Serves(h', r.value, Request(h, size)))
  {
    hide Malloc, Take, Layout, NoFreeNeighbours, Accounts, HintOk, Hands;
    MallocAt(h, size);
    if Malloc(h, size).1.Some? {
      TakeSwaps(h, FindFit(h, Request(h, size), 0), Request(h, size));
      MallocServes(h, size);
    }
  }

  lemma MallocServes(h: Heap, size: nat)
    requires Inv(h) && Malloc(h, size).1.Some?
    ensures var p := Malloc(h, size).1.value; !Live(h, p) && Serves(Malloc(h, size).0, p, Request(h, size))
  {
    hide Malloc, Layout, NoFreeNeighbours, Accounts, HintOk;
    var k := MallocTakes(h, size);
    var h', p := Malloc(h, size).0, Malloc(h, size).1.value;
    assert Shape(h') by { MallocKeeps(h, size); }
    HandsHold(h, h', k, Request(h, size));
    LiveIsBlock(h', p);
    if Live(h, p) { HandsKeepLive(h, h', k, Request(h, size), p); }
  }

  lemma FreeSwaps(h: Heap, k: nat)
    requires Inv(h) && k < |h.blocks| && h.blocks[k].used
    ensures Swapped(h, FreeBlock(h, k), Some(h.blocks[k].off + h.c.hdr), None)
  {
    hide UsedBytes, NoFreeNeighbours, PlugForward, PlugBackward;
    var h' := FreeBlock(h, k);
    var c := ClearUsed(h, k);
    FreeBlockOthers(h, k);
    assert Layout(c.blocks, h.c.hdr, h.End()) by { MarkLayout(h.blocks, k, false, h.c.hdr, h.End()); }
    assert UsedIn(h'.blocks, c.blocks) by { PlugUsedIn(c, k); }
    assert c.blocks[k] == h.blocks[k].(used := false);
    forall b | b in h'.blocks && b.used ensures b in h.blocks && b.off != h.blocks[k].off {
      if b.off == h.blocks[k].off { SameOffset(c.blocks, b, c.blocks[k], h.c.hdr, h.End()); }
    }
    assert h'.c == h.c by { PlugConfig(c, k); }
  }

  lemma PlugConfig(h: Heap, k: nat)
    requires k < |h.blocks|
    ensures PlugHoles(h, k).c == h.c && PlugHoles(h, k).m == h.m
  {
  }

  lemma CutSwaps(h: Heap, k: nat, n: nat)
    requires k < |h.blocks| && h.blocks[k].used
    ensures var p := Some(h.blocks[k].off + h.c.hdr); var h1 := Cut(h, k, n);
      && Swapped(h, h1, p, p) && h1.m == h.m
      && Block(h.blocks[k].off, h.blocks[k].off + h.c.hdr + n, true) in h1.blocks
  {
    var bs := h.blocks;
    assert bs == bs[..k] + [bs[k]] + bs[k + 1..];
    SplitUsedIn(bs, k, bs[k].off + h.c.hdr + n);
  }

  lemma ShrinkSwaps(h: Heap, k: nat, n: nat)
    requires Shape(h) && k < |h.blocks| && h.blocks[k].used
    ensures var p := h.blocks[k].off + h.c.hdr;
      Swapped(h, Shrink(h, k, n), Some(p), Some(p)) && Serves(Shrink(h, k, n), p, n)
  {
    hide Layout, Cut, PlugHoles;
    CutRest(h, k, n);
    CutSwaps(h, k, n);
    PlugUsedIn(Cut(h, k, n), k + 1);
    PlugConfig(Cut(h, k, n), k + 1);
    MidAligned(h, k, 0);
  }

  lemma CutRest(h: Heap, k: nat, n: nat)
    requires k < |h.blocks|
    ensures k + 1 < |Cut(h, k, n).blocks| && !Cut(h, k, n).blocks[k + 1].used
  {
  }

  /** A block taken and then another one given back. */
  lemma SwapTwice(h: Heap, h1: Heap, h2: Heap, p: nat, q: nat, n: nat)
    requires Swapped(h, h1, None, Some(q)) && Serves(h1, q, n)
    requires Swapped(h1, h2, Some(p), None) && p != q && h2.m == h1.m
    ensures Swapped(h, h2, Some(p), Some(q)) && Serves(h2, q, n)
  {
  }

  lemma RelocateIs(h: Heap, p: nat, n: nat)
    requires Inv(h) && Live(h, p)
    ensures Malloc(h, n).1.None? ==> Relocate(h, p, n) == (h, None)
    ensures Malloc(h, n).1.Some? ==>
      var h1 := Malloc(h, n).0;
      Inv(h1) && Live(h1, p) && Malloc(h, n).1 != Some(p)
      && Relocate(h, p, n) == (FreeBlock(h1, BlockOf(h1, p)), Malloc(h, n).1)
  {
    hide Malloc, FreeBlock, Inv, Live;
    MallocAt(h, n);
    MallocKeeps(h, n);
    MallocKeepsLive(h, n, p);
  }

  lemma FreeLiveSwaps(h: Heap, p: nat)
    requires Inv(h) && Live(h, p)
    ensures var h' := FreeBlock(h, BlockOf(h, p)); Swapped(h, h', Some(p), None) && h'.m == h.m
  {
    hide Inv, Swapped, PlugHoles;
    var k := BlockOf(h, p);
    FreeSwaps(h, k);
    PlugConfig(ClearUsed(h, k), k);
  }

  lemma RelocateSwaps(h: Heap, p: nat, n: nat)
    requires Inv(h) && Live(h, p)
    ensures var (h', r) := Relocate(h, p, n);
      if r.None? then h' == h
      else Swapped(h, h', Some(p), r) && Serves(h', r.value, Request(h, n))
  {
    hide *;
    RelocateIs(h, p, n);
    MallocSwaps(h, n);
    var h1, r := Malloc(h, n).0, Malloc(h, n).1;
    if r.Some? {
      FreeLiveSwaps(h1, p);
      SwapTwice(h, h1, FreeBlock(h1, BlockOf(h1, p)), p, r.value, Request(h, n));
    }
  }

  // ----- one call -----------------------------------------------------------------------------

  predicate Inside(h: Heap, p: Option<nat>) {
    p.Some? && p.value < h.End()
  }

  /** The pointer a call takes back. */
  function Gone(h: Heap, op: Op): Option<nat>
    requires Legal(h, op)
  {
    match op
    case Alloc(_) => None
    case Resize(p, size) => if Inside(h, p) && Realloc(h, p, size).1.Some? then p else None
    case Release(p) => if Inside(h, p) then p else None
  }

  /** The pointer a call hands out. Realloc gives an address that is not of the heap back as it is. */
  function Got(h: Heap, op: Op): Option<nat>
    requires Legal(h, op)
  {
    match op
    case Alloc(size) => Malloc(h, size).1
    case Resize(p, size) => if p.None? || Inside(h, p) then Realloc(h, p, size).1 else None
    case Release(_) => None
  }

  /** The three branches of realloc on a live pointer. */
  lemma ReallocServes(h: Heap, p: nat, newsize: nat)
    requires Inv(h) && Live(h, p) && p < h.End()
    ensures var (h', r) := Realloc(h, Some(p), newsize);
      if r.None? then h' == h else Swapped(h, h', Some(p), r) && Serves(h', r.value, RtAlign(newsize))
  {
    hide Malloc, Relocate, Shrink, Tiled, NoFreeNeighbours, UsedBytes, FreeAt;
    var n := RtAlign(newsize);
    var k := BlockOf(h, p);
    if n <= h.m {
      PayloadAtLeastZero(h, k);
      if SizeAt(h, p) == n {
        MidAligned(h, k, 0);
        assert h.blocks[k] in h.blocks;
      } else if n + h.c.hdr + h.c.minSize < SizeAt(h, p) {
        ShrinkSwaps(h, k, n);
      } else {
        assert Realloc(h, Some(p), newsize) == Relocate(h, p, n);
        hide *;
        RelocateServes(h, p, n);
      }
    }
  }

  lemma RelocateServes(h: Heap, p: nat, n: nat)
    requires Inv(h) && Live(h, p) && n == RtAlign(n)
    ensures var (h', r) := Relocate(h, p, n);
      if r.None? then h' == h else Swapped(h, h', Some(p), r) && Serves(h', r.value, n)
  {
    hide Malloc, Relocate, Inv, Live, Room;
    RelocateSwaps(h, p, n);
    var (h', r) := Relocate(h, p, n);
    if r.Some? { ServesRequest(h, h', r.value, n); }
  }

  /** A block for the request made for an aligned size serves that size. */
  lemma ServesRequest(h: Heap, h': Heap, p: nat, n: nat)
    requires h'.c == h.c && Serves(h', p, Request(h, n))
    ensures Serves(h', p, RtAlign(n))
  {
    var b :| b in h'.blocks && b.used && At(h'.c, b, Some(p)) && Room(h'.c, Request(h, n), h'.Payload(b));
    assert Room(h'.c, RtAlign(n), h'.Payload(b));
  }

  lemma AlignTwice(size: nat)
    ensures RtAlign(RtAlign(size)) == RtAlign(size)
  {
  }

  /** Realloc of null allocates. */
  lemma ReallocFresh(h: Heap, newsize: nat)
    requires Inv(h)
    ensures var (h', r) := Realloc(h, None, newsize);
      if r.None? then h' == h else Swapped(h, h', None, r) && Serves(h', r.value, RtAlign(newsize))
  {
    hide Malloc, Inv, Serves, RtAlign;
    var n := RtAlign(newsize);
    MallocAt(h, n);
    MallocSwaps(h, n);
    AlignTwice(newsize);
    var (h', r) := Malloc(h, n);
    if r.Some? { ServesRequest(h, h', r.value, n); }
  }

  /** When realloc fails, leaves the block alone, shrinks it in place to exactly the aligned size, and moves
      it: it fails for a size above the heap's, and it moves, or fails as malloc does, unless the block has
      the aligned size already, or has more room than that, a header and a minimal payload. */
  lemma ReallocCases(h: Heap, p: nat, newsize: nat)
    requires Inv(h) && Live(h, p) && p < h.End()
    ensures var n := RtAlign(newsize); var has := h.Payload(h.blocks[BlockOf(h, p)]);
      var (h', r) := Realloc(h, Some(p), newsize);
      if n > h.m then h' == h && r.None?
      else if n == has then h' == h && r == Some(p)
      else if n + h.c.hdr + h.c.minSize < has then
        r == Some(p) && Live(h', p) && h'.Payload(h'.blocks[BlockOf(h', p)]) == n
      else
        && r == Malloc(h, n).1 && r != Some(p)
        && (if r.None? then h' == h else !Live(h', p) && Live(h', r.value))
  {
    hide Malloc, Relocate, Shrink, Layout, NoFreeNeighbours, HintOk, Accounts, FreeAt;
    var n := RtAlign(newsize);
    var k := BlockOf(h, p);
    PayloadAtLeastZero(h, k);
    if n <= h.m && SizeAt(h, p) != n {
      if n + h.c.hdr + h.c.minSize < SizeAt(h, p) { ShrunkTo(h, k, n); } else { MovedAway(h, p, n); }
    }
  }

  lemma ShrunkTo(h: Heap, k: nat, n: nat)
    requires Inv(h) && k < |h.blocks| && h.blocks[k].used && n % 4 == 0
    requires n + h.c.hdr + h.c.minSize < h.Payload(h.blocks[k])
    ensures var p := h.blocks[k].off + h.c.hdr; var h' := Shrink(h, k, n);
      Live(h', p) && h'.Payload(h'.blocks[BlockOf(h', p)]) == n
  {
    hide Layout, Cut, PlugHoles, NoFreeNeighbours, HintOk, Accounts, Live;
    CutRest(h, k, n);
    CutSwaps(h, k, n);
    PlugUsedIn(Cut(h, k, n), k + 1);
    PlugConfig(Cut(h, k, n), k + 1);
    assert Shape(Shrink(h, k, n)) by { ShrinkKeeps(h, k, n); }
    LiveBlock(Shrink(h, k, n), Block(h.blocks[k].off, h.blocks[k].off + h.c.hdr + n, true));
  }

  lemma MovedAway(h: Heap, p: nat, n: nat)
    requires Inv(h) && Live(h, p) && n == RtAlign(n)
    ensures var (h', r) := Relocate(h, p, n);
      && r == Malloc(h, n).1 && r != Some(p)
      && if r.None? then h' == h else !Live(h', p) && Live(h', r.value)
  {
    hide Malloc, Layout, NoFreeNeighbours, HintOk, Accounts, Live, FreeBlock, Swapped;
    RelocateIs(h, p, n);
    RelocateSwaps(h, p, n);
    RelocateKeeps(h, p, n);
    var (h', r) := Relocate(h, p, n);
    if r.Some? {
      ServesLive(h', r.value, Request(h, n));
      GoneNotLive(h, h', p, r.value);
    }
  }

  lemma GoneNotLive(h: Heap, h': Heap, p: nat, q: nat)
    requires Shape(h') && Swapped(h, h', Some(p), Some(q)) && p != q
    ensures !Live(h', p)
  {
    LiveIsBlock(h', p);
  }

  /** Realloc hands out a live, aligned pointer whose block holds the new size, all of it unless the
      alignment wraps; when it fails the heap is as it was. */
  lemma ReallocHolds(h: Heap, p: Option<nat>, newsize: nat)
    requires Inv(h) && LegalPtr(h, p) && (p.None? || Inside(h, p))
    ensures var (h', r) := Realloc(h, p, newsize);
      if r.None? then h' == h
      else
        && Swapped(h, h', p, r) && Live(h', r.value) && r.value % 4 == 0
        && Room(h'.c, RtAlign(newsize), h'.Payload(h'.blocks[BlockOf(h', r.value)]))
    ensures newsize < WORD ==> (RtAlign(newsize) >= newsize <==> newsize <= WORD - 4)
  {
    hide Realloc, RtAlign, Live, Layout, NoFreeNeighbours, HintOk, Accounts, Swapped, Serves;
    if newsize < WORD { RtAlignCovers(newsize); }
    var h', r := Realloc(h, p, newsize).0, Realloc(h, p, newsize).1;
    ReallocKeeps(h, p, newsize);
    if p.None? { ReallocFresh(h, newsize); } else { ReallocServes(h, p.value, newsize); }
    if r.Some? { ServesLive(h', r.value, RtAlign(newsize)); }
  }

  lemma PayloadAtLeastZero(h: Heap, k: nat)
    requires Shape(h) && k < |h.blocks|
    ensures h.Payload(h.blocks[k]) >= 0
  {
    TiledAt(h.blocks, k, h.c.hdr, 0, h.End());
  }

  lemma StepSwaps(h: Heap, op: Op)
    requires Inv(h) && Legal(h, op)
    ensures Swapped(h, Step(h, op), Gone(h, op), Got(h, op))
  {
    hide Malloc, Realloc, FreeBlock, Tiled, NoFreeNeighbours, UsedBytes, FreeAt;
    match op
    case Alloc(size) => MallocSwaps(h, size);
    case Resize(p, size) =>
      if p.None? || Inside(h, p) { ReallocHolds(h, p, size); }
      else { ReallocForeign(h, p, size); }
    case Release(p) => if Inside(h, p) { FreeSwaps(h, BlockOf(h, p.value)); }
  }

  lemma ReallocForeign(h: Heap, p: Option<nat>, size: nat)
    requires p.Some? && !Inside(h, p)
    ensures Realloc(h, p, size).0 == h
  {
  }

  /** A pointer that a call does not take back stays live, with its block as it was. */
  lemma StepKeepsLive(h: Heap, op: Op, p: nat)
    requires Inv(h) && Legal(h, op) && Live(h, p) && Gone(h, op) != Some(p)
    ensures Live(Step(h, op), p)
    ensures Step(h, op).blocks[BlockOf(Step(h, op), p)] == h.blocks[BlockOf(h, p)]
  {
    hide Step, Gone, Got, Tiled, NoFreeNeighbours, UsedBytes, FreeAt;
    StepSwaps(h, op);
    StepKeeps(h, op);
    LiveBlock(Step(h, op), h.blocks[BlockOf(h, p)]);
  }

  // ----- whole runs ---------------------------------------------------------------------------

  /** The pointers held, each with the size last asked for, after a call. */
  function Track(h: Heap, held: map<nat, nat>, op: Op): map<nat, nat>
    requires Legal(h, op)
  {
    var kept := if Gone(h, op).Some? then held - {Gone(h, op).value} else held;
    if Got(h, op).Some? && !op.Release? then kept[Got(h, op).value := op.size] else kept
  }

  function TrackAll(h: Heap, held: map<nat, nat>, ops: seq<Op>): map<nat, nat>
    requires LegalRun(h, ops)
    decreases |ops|
  {
    if ops == [] then held else TrackAll(Step(h, ops[0]), Track(h, held, ops[0]), ops[1..])
  }

  /** The live pointers are those held, and the block of each holds the size last asked for: rounded up
      to four bytes, which covers it except for the last three sizes of a 32-bit word. */
  ghost predicate HeldIsLive(h: Heap, held: map<nat, nat>) {
    && (forall p: nat :: Live(h, p) <==> p in held)
    && (forall p: nat :: p in held ==>
          p % 4 == 0 && Live(h, p) && Room(h.c, RtAlign(held[p]), h.Payload(h.blocks[BlockOf(h, p)])))
  }

  /** A pointer is live after a call if it was handed out, or was live before and not taken back. */
  lemma StepLive(h: Heap, op: Op, p: nat)
    requires Inv(h) && Legal(h, op)
    ensures Live(Step(h, op), p) <==> (Live(h, p) && Gone(h, op) != Some(p)) || Got(h, op) == Some(p)
  {
    if Live(h, p) && Gone(h, op) != Some(p) { StepKeepsLive(h, op, p); }
    if Got(h, op).Some? { GotHolds(h, op); }
    if Live(Step(h, op), p) { StepWasLive(h, op, p); }
  }

  lemma StepWasLive(h: Heap, op: Op, p: nat)
    requires Inv(h) && Legal(h, op) && Live(Step(h, op), p)
    ensures (Live(h, p) && Gone(h, op) != Some(p)) || Got(h, op) == Some(p)
  {
    hide Step, Gone, Got, Live, Layout, NoFreeNeighbours, HintOk, Accounts;
    StepSwaps(h, op);
    StepKeeps(h, op);
    LiveIsBlock(h, p);
    LiveIsBlock(Step(h, op), p);
  }

  lemma StepHeld(h: Heap, held: map<nat, nat>, op: Op)
    requires Inv(h) && Legal(h, op) && HeldIsLive(h, held)
    ensures HeldIsLive(Step(h, op), Track(h, held, op))
  {
    hide Step, Gone, Got, Live, Inv, Room, RtAlign;
    var h', held' := Step(h, op), Track(h, held, op);
    if Got(h, op).Some? { GotHolds(h, op); }
    forall p: nat ensures Live(h', p) <==> p in held' { StepLive(h, op, p); }
    hide Track;
    forall p: nat | p in held'
      ensures p % 4 == 0 && Live(h', p) && Room(h'.c, RtAlign(held'[p]), h'.Payload(h'.blocks[BlockOf(h', p)]))
    {
      StepHeldAt(h, held, op, p);
    }
  }

  lemma StepHeldAt(h: Heap, held: map<nat, nat>, op: Op, p: nat)
    requires Inv(h) && Legal(h, op) && HeldIsLive(h, held) && p in Track(h, held, op)
    ensures var h', held' := Step(h, op), Track(h, held, op);
      p % 4 == 0 && Live(h', p) && Room(h'.c, RtAlign(held'[p]), h'.Payload(h'.blocks[BlockOf(h', p)]))
  {
    hide Step, Gone, Got, Live, Inv, Room, RtAlign;
    StepSwaps(h, op);
    if Got(h, op) == Some(p) { GotHolds(h, op); } else { StepKeepsLive(h, op, p); }
  }

  /** What a call hands out is live and holds what was asked for. */
  lemma GotHolds(h: Heap, op: Op)
    requires Inv(h) && Legal(h, op) && Got(h, op).Some?
    ensures !op.Release?
    ensures var p := Got(h, op).value; var h' := Step(h, op);
      p % 4 == 0 && Live(h', p) && Room(h'.c, RtAlign(op.size), h'.Payload(h'.blocks[BlockOf(h', p)]))
  {
    hide Malloc, Realloc, FreeBlock, Tiled, NoFreeNeighbours, UsedBytes, FreeAt;
    match op
    case Alloc(size) =>
      MallocSwaps(h, size);
      assert Shape(Step(h, op)) by { MallocKeeps(h, size); }
      ServesRequest(h, Step(h, op), Got(h, op).value, size);
      ServesLive(Step(h, op), Got(h, op).value, RtAlign(size));
    case Resize(p, size) => ReallocHolds(h, p, size);
  }

  /** After any run of calls the live pointers are exactly those handed out and not taken back, each is
      aligned, and its block holds the size last asked for. */
  lemma {:induction false} RunHeld(h: Heap, held: map<nat, nat>, ops: seq<Op>)
    requires Inv(h) && LegalRun(h, ops) && HeldIsLive(h, held)
    ensures Inv(Run(h, ops)) && HeldIsLive(Run(h, ops), TrackAll(h, held, ops))
    decreases |ops|
  {
    if ops != [] {
      StepKeeps(h, ops[0]);
      StepHeld(h, held, ops[0]);
      RunHeld(Step(h, ops[0]), Track(h, held, ops[0]), ops[1..]);
    }
  }

  /** From initialisation on, where nothing is held. */
  lemma HeapHeld(c: Config, m: nat, ops: seq<Op>)
    requires ValidSize(c, m) && LegalRun(Init(c, m), ops)
    ensures HeldIsLive(Run(Init(c, m), ops), TrackAll(Init(c, m), map[], ops))
  {
    InitEstablishes(c, m);
    forall p: nat ensures !Live(Init(c, m), p) { LiveIsBlock(Init(c, m), p); }
    RunHeld(Init(c, m), map[], ops);
  }
}
