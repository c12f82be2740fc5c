# RTU terminal: kernel, JSON, calendar and cipher proofs

A Dafny model of the core of the RTU terminal firmware (RT-Thread kernel and the self-contained
algorithms beside it) and proofs about it. Every component comes in two layers. A specification module
(`…Spec`) gives the component as values: a state and its steps, or a function on texts, dates or
messages, and the theorems over all runs and all inputs. A second module gives the code in its own form,
classes whose methods update fields, relink headers, move pointers over buffers and loop, each proved
equal to its step or function.

- **Heaps.** `mem.c` and `lua_mem.c` are one model (`SmallHeapSpec`, `SmallHeap`) over header size,
  minimum payload and link width; `SmallHeapHolders` is what its callers may rely on over whole runs,
  `SmallHeapFaults` the heaps in which it does not hand out memory it has. `memheap.c` is `MemHeapSpec`,
  `FreeRing`, `MemHeap`. Both stand on `HeapBlocks`, the tiling of an address range by blocks, and
  `HeapLinks`, how headers in memory represent it.
- **Kernel objects.** `SchedulerSpec` and `Scheduler`, `ListService`, and for `ipc.c` `Ipc`, `WaitList`,
  `Semaphore`, `MutexSpec` and `Mutex`, `EventSpec` and `Event`, `MailboxSpec` and `Mailbox`,
  `MessageQueueSpec` and `MessageQueue`. `MessageService` is the message queue as its callers see it,
  without nodes and copies, and the proof that every run of the queue is a run of that service. Every region that runs with interrupts disabled is one step,
  and the steps of threads and interrupt handlers interleave freely; the payload copies of the message
  queue, which run with interrupts enabled, are one step per byte. Suspending takes a thread off the
  ready list, resuming unlinks it from its wait list and makes it ready, a timeout does the same with an
  error.
- **cJSON.** `JsonSpec` has the trees, their text and the parser as functions; `JsonRoundTrip` and
  `JsonMinify` the laws, `JsonDocuments` what any text with well-formed strings comes to. `JsonGrammar` is
  the grammar of RFC 8259 and what its texts mean, stated without the parser, and the proof that they are
  read so; `JsonReading` that nothing else is read; `JsonLayout` which syntax the printer writes;
  `JsonParser`, `JsonPrinter`, `JsonBuffer` and `JsonMinify` the loops.
- **Calendar.** `CalendarSpec` counts days one year and one month at a time; `Calendar` is `time.c`.
- **Cipher and digests.** `DesSpec`, `DesKeys`, `DesTables` and `Des` are the code; `DesStandard` is the
  Data Encryption Standard by the tables of FIPS 46-3, and the proof that the code computes it.
  `DigestSpec`, `Sha` and `Md5`.

`unsigned long` is a 32-bit word, as on the target; alignment is to four bytes. Where it matters the
wrap-around is written out: alignment of sizes near 2^32, the seconds of mktime, the block and bit
counters of the digests. Machine words used as sets of flags (event sets, ready bitmaps) are sets of bit
numbers; the cipher works on bit-vectors.

Where the code does not do what its comments or its callers might expect, the model follows the code
and says exactly when:

- An in-place `rt_realloc` can leave `lfree` above a free block (`ShrinkHint`, `ShrinkCanLoseLowest`). In a
  full heap it leaves `lfree` at the end, and every `rt_malloc` fails, though bytes are free, until
  something is freed (`ShrinkOfFullHeap`, `FullHeapFails`). `MallocFails` and `MallocIsFirstFit` say for any
  heap when that happens.
- `rt_malloc` does not find an exact fit at the end of the heap (`SkippedFit`, `WholeHeapFails`), nor
  `rt_memheap_alloc` the only free block when the request is all of it (`StrictBound`, `WholePoolFails`).
- A request of one of the last three sizes of a 32-bit word is served as a minimal block (`MallocWraps`,
  `MallocWrapsInit`).
- In FIFO mode a mutex hand-over does not raise the new owner (`HandOverUrgent`, `FifoInversion`).
- `rtu_sha1_final` encodes a wrong bit count from 2^38 bytes on (`CountRight`).
- With a buffer and formatting, `print_object` returns a pointer that only the outermost call gets right
  (`CloseObject` and `PrintObjectInto` say where it stands, `PrintBuffered` that the outermost one is
  right); no other caller uses it.

- cJSON accepts more than JSON: any character but `u` after a backslash, a `\u` without hexadecimal digits
  and unpaired surrogates (all for nothing), control characters in strings and as white space, a zero before
  other digits, a minus sign or an exponent without digits, and a string that the end of the text closes
  (`ValidSyntax` with `strict` false, `Spells`, `ValueKnown`).

`dafny verify dfyconfig.toml` checks the whole project.

## Model

| member | source | states |
|---|---|---|
| HeapBlocks.RtAlignCovers | software/RTU_Terminal/rt-thread/include/rtdef.h:277 | an aligned size covers the request, and by less than four bytes, except for the last three sizes a 32-bit word can hold, which wrap to zero |
| SmallHeap.HeapInit | software/RTU_Terminal/rt-thread/src/mem.c:211-258 | heap initialisation over an address range: no heap exactly when the range cannot hold two headers, otherwise one free block and the sentinel |
| SmallHeap.RtSystemHeapInit | software/RTU_Terminal/rt-thread/src/mem.c:211-258 | the same with 12-byte headers and 12-byte minimum payload |
| SmallHeap.LuaSystemHeapInit | software/RTU_Terminal/board/lua/lua_mem.c:84-126 | the same with 8-byte bit-field headers, 8-byte minimum payload and 24-bit links of the Lua heap |
| SmallHeap.SmallMem.constructor | software/RTU_Terminal/rt-thread/src/mem.c:240-257 | the first header and the sentinel represent one free block; the hint is that block |
| SmallHeap.SmallMem.Write | software/RTU_Terminal/board/lua/lua_mem.c:18-25 | a header written into fields of limited width is read back unchanged, because every offset fits; bytes around the header keep their value |
| SmallHeap.SmallMem.PlugHoles | software/RTU_Terminal/rt-thread/src/mem.c:136-174 | relinking the headers around a freed block joins it with its free neighbours in the block list, moves the hint with it, and leaves every used payload's bytes alone |
| SmallHeap.SmallMem.JoinNext | software/RTU_Terminal/rt-thread/src/mem.c:145-160 | the forward half of it |
| SmallHeap.SmallMem.JoinPrev | software/RTU_Terminal/rt-thread/src/mem.c:162-173 | the backward half of it |
| SmallHeap.SmallMem.Malloc | software/RTU_Terminal/rt-thread/src/mem.c:274-403 | the search over the links and the header writes compute the abstract malloc; no byte of a used payload changes |
| SmallHeap.SmallMem.Search | software/RTU_Terminal/rt-thread/src/mem.c:307-313 | walking `next` from the hint stops at the first fitting block below the bound, or at none |
| SmallHeap.SmallMem.CarveBlock | software/RTU_Terminal/rt-thread/src/mem.c:318-368 | splitting or using a block whole, with both usage counters |
| SmallHeap.SmallMem.WalkToFree | software/RTU_Terminal/rt-thread/src/mem.c:372-379 | walking `next` from a taken hint stops at the next free block or at the sentinel |
| SmallHeap.SmallMem.Free | software/RTU_Terminal/rt-thread/src/mem.c:533-587 | the header writes of free compute the abstract free; null and addresses beyond the heap are ignored; no byte of another used payload changes |
| SmallHeap.SmallMem.Realloc | software/RTU_Terminal/rt-thread/src/mem.c:414-495 | the abstract realloc; the first min(old, new) bytes arrive at the returned pointer and every other used payload keeps its bytes; when it fails every payload keeps its bytes |
| SmallHeap.SmallMem.ShrinkInPlace | software/RTU_Terminal/rt-thread/src/mem.c:459-483 | the in-place branch of realloc |
| SmallHeap.SmallMem.MoveBlock | software/RTU_Terminal/rt-thread/src/mem.c:486-494 | the moving branch of realloc: malloc, copy, free, in that order |
| SmallHeap.MovedPayload | software/RTU_Terminal/rt-thread/src/mem.c:486-492 | after malloc, copy and free the bytes are at the new place and no other live payload differs |
| SmallHeapSpec.MallocKeeps | software/RTU_Terminal/rt-thread/src/mem.c:293-397 | malloc keeps the layout, the coalescing, the hint and the counters |
| SmallHeapSpec.FreeBlockKeeps | software/RTU_Terminal/rt-thread/src/mem.c:571-585 | so does free |
| SmallHeapSpec.ShrinkKeeps | software/RTU_Terminal/rt-thread/src/mem.c:459-483 | so does shrinking in place, the lowest-hint property apart |
| SmallHeapSpec.ReallocKeeps | software/RTU_Terminal/rt-thread/src/mem.c:423-494 | realloc keeps the layout, the coalescing, the hint and the counters on every path |
| SmallHeapSpec.RunKeeps | software/RTU_Terminal/rt-thread/src/mem.c:136-174 | after any run of malloc, realloc and free the blocks tile the heap in address order with no two free neighbours, the hint is a free block or the sentinel, and used_mem is the sum of the extents of the used blocks |
| SmallHeapSpec.RunKeepsLowest | software/RTU_Terminal/rt-thread/src/mem.c:574-578 | over runs in which no call passes the hint, all runs without realloc among them, the hint is the lowest free block or the sentinel |
| SmallHeapSpec.StepLowest | software/RTU_Terminal/rt-thread/src/mem.c:459-483 | a call keeps the hint lowest if and only if it is not an in-place shrink of a block below the hint, the block that ends at a free hint apart |
| SmallHeapSpec.HeapRuns | software/RTU_Terminal/board/lua/lua_mem.c:129-389 | both heaps, from their initialisation, keep this over any run; the Lua heap as long as its offsets fit 24 bits |
| SmallHeapSpec.MallocIsFirstFit | software/RTU_Terminal/rt-thread/src/mem.c:307-313 | in any heap, whatever the hint: malloc returns the lowest fitting block, exact fits at the sentinel apart, or null when there is none, if and only if no block it could use lies below the hint; a lowest hint is enough |
| SmallHeapSpec.MallocFails | software/RTU_Terminal/rt-thread/src/mem.c:293-313 | in any heap malloc returns null exactly for size zero, a size above the heap's, or when every fitting block lies below the hint or is an exact fit at the sentinel |
| SmallHeapSpec.MallocLowest | software/RTU_Terminal/rt-thread/src/mem.c:307-313 | in any heap malloc returns the lowest fitting block at or above the hint that is no exact fit at the sentinel |
| SmallHeapSpec.WholeHeapFails | software/RTU_Terminal/rt-thread/src/mem.c:308 | in every new heap a malloc of its whole payload fails |
| SmallHeapSpec.SkippedFit | software/RTU_Terminal/rt-thread/src/mem.c:308 | the bound skips a fitting block exactly when it is an exact fit that ends at the sentinel |
| SmallHeapSpec.MallocHolds | software/RTU_Terminal/rt-thread/src/mem.c:290-302 | the pointer returned is aligned, live, and its block holds the request, all of it exactly when the alignment does not wrap, and is smaller than one that could be split for it |
| SmallHeapSpec.MallocBlocks | software/RTU_Terminal/rt-thread/src/mem.c:316-345 | the free block at the pointer is cut to exactly the aligned size, a minimal payload at least, with the rest a free block of its own, when the rest has room for a header and a minimal payload; otherwise it is used whole; every other block stays as it was |
| SmallHeapSpec.MallocMovesHint | software/RTU_Terminal/rt-thread/src/mem.c:370-385 | the hint stays where it was unless its block is handed out; then it is the first free block after it, or the sentinel |
| SmallHeapSpec.InitSizeFills | software/RTU_Terminal/rt-thread/src/mem.c:214-224 | the heap and its two headers reach from the first aligned address of the range to its end, but for less than a word; there is no heap only when the headers do not fit, or fit exactly at address zero |
| SmallHeapSpec.MallocWraps | software/RTU_Terminal/rt-thread/src/mem.c:290-302 | the last three sizes of a 32-bit word wrap in alignment: malloc of one of them does what malloc of a minimal payload does, and the block it hands out is smaller than the request |
| SmallHeapSpec.MallocWrapsInit | software/RTU_Terminal/rt-thread/src/mem.c:290-302 | in a new heap with more than a minimal payload a malloc of 2^32 - 1 bytes succeeds that way |
| SmallHeapSpec.MallocKeepsLive | software/RTU_Terminal/rt-thread/src/mem.c:331-345 | malloc leaves live pointers live and their blocks unchanged, and returns none of them |
| SmallHeapHolders.ReallocHolds | software/RTU_Terminal/rt-thread/src/mem.c:414-495 | the pointer realloc returns is live and aligned and its block holds the new size, all of it exactly when the alignment does not wrap, and is smaller than one that could be split for it; the other used blocks stay; when it fails the heap is as it was |
| SmallHeapHolders.ReallocCases | software/RTU_Terminal/rt-thread/src/mem.c:423-494 | when realloc fails, leaves the block alone, shrinks it in place to exactly the aligned size, and moves it, each by a condition on the two sizes |
| SmallHeapHolders.StepKeepsLive | software/RTU_Terminal/rt-thread/src/mem.c:274-587 | malloc, realloc and free leave every live pointer they do not take back live, with its block as it was |
| SmallHeapHolders.StepLive | software/RTU_Terminal/rt-thread/src/mem.c:274-587 | a pointer is live after a call exactly when the call handed it out, or it was live and the call did not take it back |
| SmallHeapHolders.RunHeld | software/RTU_Terminal/rt-thread/src/mem.c:274-587 | after any run of malloc, realloc and free the live pointers are exactly those handed out and not taken back, each is aligned, and its block holds the size last asked for and is smaller than one that could be split for it |
| SmallHeapHolders.HeapHeld | software/RTU_Terminal/board/lua/lua_mem.c:129-389 | the same from initialisation on, for either heap |
| SmallHeapSpec.PayloadsApart | software/RTU_Terminal/rt-thread/src/mem.c:395-396 | a live payload overlaps no other block, headers included, and lies inside the heap |
| SmallHeapSpec.LiveBelowEnd | software/RTU_Terminal/rt-thread/src/mem.c:547-553 | every pointer handed out passes the range check of free and realloc |
| SmallHeapSpec.ShrinkHint | software/RTU_Terminal/rt-thread/src/mem.c:459-483 | an in-place shrink keeps the hint lowest if and only if the hint is not above the block, or is the block right after it |
| SmallHeapFaults.ShrinkCanLoseLowest | software/RTU_Terminal/rt-thread/src/mem.c:459-483 | a concrete heap in which a shrink loses that, and the next malloc passes over the lowest fitting block |
| SmallHeapFaults.ThreeBlocksReached | software/RTU_Terminal/rt-thread/src/mem.c:274-403 | two mallocs lead to that heap from initialisation |
| SmallHeapFaults.ShrinkOfFullHeap | software/RTU_Terminal/rt-thread/src/mem.c:459-483 | in any heap without a free block an in-place shrink leaves the hint at the sentinel, so every malloc fails from then on, though bytes are free, until something is freed |
| SmallHeapFaults.FullHeapFails | software/RTU_Terminal/rt-thread/src/mem.c:459-483 | a concrete run: one malloc fills the heap, a realloc shrinks it, 276 bytes are free and malloc of any size fails |
| SmallHeapSpec.RunMaximum | software/RTU_Terminal/rt-thread/src/mem.c:347-367 | max_mem is the running maximum of used_mem over the whole run, the moment inside a moving realloc included |
| HeapLinks.LinkedReplace | software/RTU_Terminal/rt-thread/src/mem.c:158-172 | rewriting the headers of some neighbouring blocks and the `prev` after them replaces these blocks in the linked list and nothing else |
| HeapLinks.Neighbours | software/RTU_Terminal/rt-thread/src/mem.c:146-164 | what following `next` and `prev` of any block finds |
| HeapBlocks.TiledOrdered | software/RTU_Terminal/rt-thread/src/mem.c:136-174 | blocks of a tiled list lie at strictly increasing offsets and do not overlap |
| Bytes.CopyBytes | software/RTU_Terminal/rt-thread/src/mem.c:490 | a copy between ranges that do not overlap: the bytes arrive and the rest of the buffer is unchanged |
| MemHeap.MemHeap.constructor | software/RTU_Terminal/rt-thread/src/memheap.c:77-121 | the pool starts as one free block, on the free ring, and the tail block, both rings closed |
| MemHeap.MemHeap.UnlinkFree | software/RTU_Terminal/rt-thread/src/memheap.c:222-226 | unlinking by the two neighbours leaves the ring of the other free blocks |
| MemHeap.MemHeap.LinkFree | software/RTU_Terminal/rt-thread/src/memheap.c:228-232 | linking behind the free header puts the block first on the ring |
| MemHeap.MemHeap.SplitItem | software/RTU_Terminal/rt-thread/src/memheap.c:216-220 | a new header between a block and the next one: the address ring of the split block list |
| MemHeap.MemHeap.MergeItem | software/RTU_Terminal/rt-thread/src/memheap.c:566-578 | giving up the header between two blocks: the address ring of the merged block list |
| MemHeap.MemHeap.Search | software/RTU_Terminal/rt-thread/src/memheap.c:176-187 | the loop stops at the first block in free-ring order that is large enough, or at the header |
| MemHeap.MemHeap.Alloc | software/RTU_Terminal/rt-thread/src/memheap.c:146-288 | relinking computes the abstract allocation and keeps the invariant of both rings |
| MemHeap.MemHeap.Fetch | software/RTU_Terminal/rt-thread/src/memheap.c:167-281 | the part of it under the lock, whatever available_size is by then |
| MemHeap.MemHeap.Free | software/RTU_Terminal/rt-thread/src/memheap.c:499-596 | the same for free, with left and right merge |
| MemHeap.MemHeap.Realloc | software/RTU_Terminal/rt-thread/src/memheap.c:291-496 | the same for realloc on every path; bytes change only in a newly allocated block, whose first bytes are those of the old one |
| MemHeap.MemHeap.Enlarge | software/RTU_Terminal/rt-thread/src/memheap.c:337-406 | growing into the next free block, exactly when it can give the bytes and stay a block |
| MemHeap.MemHeap.Reduce | software/RTU_Terminal/rt-thread/src/memheap.c:423-495 | the split branch of realloc, with right merge |
| MemHeap.MemHeap.MoveBlock | software/RTU_Terminal/rt-thread/src/memheap.c:412-420 | the moving branch of realloc |
| MemHeapSpec.AllocKeeps | software/RTU_Terminal/rt-thread/src/memheap.c:155-270 | allocation keeps the pool's invariant |
| MemHeapSpec.FreeBlockKeeps | software/RTU_Terminal/rt-thread/src/memheap.c:536-592 | so does free, with and without either merge |
| MemHeapSpec.GrowKeeps | software/RTU_Terminal/rt-thread/src/memheap.c:354-397 | so does growing in place |
| MemHeapSpec.ShrinkKeeps | software/RTU_Terminal/rt-thread/src/memheap.c:436-489 | so does shrinking in place |
| MemHeapSpec.ReallocKeeps | software/RTU_Terminal/rt-thread/src/memheap.c:291-496 | realloc keeps the invariant, and the block it returns holds the new size and at most a header and a minimal payload beyond the request |
| MemHeapSpec.ReallocCases | software/RTU_Terminal/rt-thread/src/memheap.c:291-496 | which of these realloc is: a free, a shrink or growth in place, or a move, or the failure of an allocation |
| MemHeapSpec.RunKeeps | software/RTU_Terminal/rt-thread/src/memheap.c:146-596 | after any run of the locked parts of calls, interleaved between threads, allocations whose look at available_size is out of date among them: the blocks tile the pool, no two neighbours are free, the free ring holds exactly the free blocks, once each, and available_size is the sum of their payloads |
| MemHeapSpec.RunMaximum | software/RTU_Terminal/rt-thread/src/memheap.c:241-249 | max_used_size is the running maximum of the pool size minus available_size |
| MemHeapSpec.AllocFails | software/RTU_Terminal/rt-thread/src/memheap.c:162-190 | an allocation on its own fails if and only if the request is not below available_size or no free block is large enough |
| MemHeapSpec.FetchFails | software/RTU_Terminal/rt-thread/src/memheap.c:176-190 | its part under the lock fails if and only if no free block is large enough, whatever available_size was when it was compared |
| MemHeapSpec.StrictBound | software/RTU_Terminal/rt-thread/src/memheap.c:162 | the first of these turns away a large enough block only when it is an exact fit and no other free block has payload |
| MemHeapSpec.WholePoolFails | software/RTU_Terminal/rt-thread/src/memheap.c:162 | in every new pool an allocation of the whole payload fails, which the search under the lock would have served |
| MemHeapSpec.AllocHolds | software/RTU_Terminal/rt-thread/src/memheap.c:155-277 | the pointer returned is new, aligned, live, and its block holds the request and at most a header and a minimal payload beyond it |
| MemHeapSpec.RequestCovers | software/RTU_Terminal/rt-thread/src/memheap.c:155-158 | the size served is the request rounded up to four bytes, and at least the minimal payload |
| MemHeapSpec.FetchOutcome | software/RTU_Terminal/rt-thread/src/memheap.c:176-270 | the search takes the first block on the free ring that is large enough; it is cut to exactly the request, the rest first on the ring, when a header and a minimal payload are left over, and handed out whole otherwise; nothing else changes |
| MemHeapSpec.ReleaseOutcome | software/RTU_Terminal/rt-thread/src/memheap.c:536-592 | a free leaves one free block in place of the block and its free neighbours; the one before keeps its place on the ring, the one after leaves it, and without one before the block is first on the ring |
| MemHeapSpec.EnlargeOutcome | software/RTU_Terminal/rt-thread/src/memheap.c:337-397 | growing happens if and only if more than a minimal payload is left of the free block after it; the boundary moves and the rest is first on the ring |
| MemHeapSpec.ReduceOutcome | software/RTU_Terminal/rt-thread/src/memheap.c:423-489 | shrinking happens if and only if more than a header and a minimal payload come free; the block has exactly the request then, and the rest, joined with a free block after it, is first on the ring |
| MemHeapSpec.StepKeepsLive | software/RTU_Terminal/rt-thread/src/memheap.c:146-596 | no step of another caller changes a live pointer's block |
| MemHeapSpec.PayloadsApart | software/RTU_Terminal/rt-thread/src/memheap.c:277 | live payloads do not overlap and lie inside the pool |
| FreeRing.RingUnlink | software/RTU_Terminal/rt-thread/src/memheap.c:222-226 | changing the two links around an entry removes it from the ring and keeps the rest |
| FreeRing.RingInsert | software/RTU_Terminal/rt-thread/src/memheap.c:228-232 | the four assignments behind the header insert an entry |
| FreeRing.RingNth | software/RTU_Terminal/rt-thread/src/memheap.c:176-187 | following the links from the header visits the free blocks in order and returns |
| ListService.Init | software/RTU_Terminal/rt-thread/include/rtservice.h:51-54 | a node linked to itself is a ring of one |
| ListService.InsertAfter | software/RTU_Terminal/rt-thread/include/rtservice.h:62-69 | the node becomes the second of the ring read from the list head, every other link as before |
| ListService.InsertBefore | software/RTU_Terminal/rt-thread/include/rtservice.h:77-84 | the node becomes the last of the ring read from the list head |
| ListService.Remove | software/RTU_Terminal/rt-thread/include/rtservice.h:90-96 | the other nodes are still a ring in their order, and the node is a ring of its own |
| ListService.InsertAfterRemove | software/RTU_Terminal/rt-thread/include/rtservice.h:62-96 | removing the node that was just inserted after another gives every link its old value |
| ListService.InsertBeforeRemove | software/RTU_Terminal/rt-thread/include/rtservice.h:77-96 | the same for a node inserted before another |
| ListService.IsEmpty | software/RTU_Terminal/rt-thread/include/rtservice.h:102-105 | a list is empty exactly when its ring has no other node |
| ListService.RingRotate | software/RTU_Terminal/rt-thread/include/rtservice.h:90-96 | a ring may be read from any node, so removal works wherever the node stands |
| WaitList.FindPosition | software/RTU_Terminal/rt-thread/src/ipc.c:99-132 | the search loop finds the end of the list, or the place before the first less urgent thread |
| WaitList.SuspendOrdered | software/RTU_Terminal/rt-thread/src/ipc.c:99-132 | inserting by priority keeps the list ordered by priority |
| WaitList.SuspendFifoTies | software/RTU_Terminal/rt-thread/src/ipc.c:116-121 | threads of one priority keep their order of arrival |
| WaitList.SuspendJoins | software/RTU_Terminal/rt-thread/src/ipc.c:99-132 | a thread joins the list as the last of its lane, that is of its priority or of all in arrival order, and the other lanes are as before |
| WaitList.HeadServed | software/RTU_Terminal/rt-thread/src/ipc.c:146-163 | the thread that is resumed was the first of its lane, and in priority order nobody left is more urgent |
| WaitList.RemoveFromLanes | software/RTU_Terminal/rt-thread/src/thread.c:649-650 | unlinking a thread leaves every lane without it, in its order |
| WaitList.RemoveMembers | software/RTU_Terminal/rt-thread/src/thread.c:649-650 | unlinking a thread wherever it stands leaves the others, once each and in order |
| SemaphoreSpec.RunInv | software/RTU_Terminal/rt-thread/src/ipc.c:328-470 | in every reachable state nobody waits while there are units, and the waiting threads are in order |
| SemaphoreSpec.RunConserves | software/RTU_Terminal/rt-thread/src/ipc.c:435-470 | units are neither lost nor made: initial plus released equals left plus granted, to takes that return EOK and to threads that releases resume |
| SemaphoreSpec.TakeOutcome | software/RTU_Terminal/rt-thread/src/ipc.c:328-410 | a take succeeds at once if and only if there is a unit; otherwise it gives up exactly when it may not wait, or joins the list |
| SemaphoreSpec.ReleaseOutcome | software/RTU_Terminal/rt-thread/src/ipc.c:435-470 | a release gives its unit to the thread to be served, in priority order one than which nobody left is more urgent, ties by arrival; without a waiting thread the value grows by one |
| Semaphore.Semaphore.Take | software/RTU_Terminal/rt-thread/src/ipc.c:328-410 | take computes its step: a unit at once, a timeout, or a place on the list |
| Semaphore.Semaphore.Release | software/RTU_Terminal/rt-thread/src/ipc.c:435-470 | release hands its unit to the first waiting thread, or adds it to the value |
| MutexSpec.StepInv | software/RTU_Terminal/rt-thread/src/ipc.c:642-859 | take, nested take, release with hand-over and timeout keep: value 1 exactly when there is no owner and hold is 0; the owner is no waiter; waiters ordered; only the owner runs above its base priority; in priority mode the owner is at least as urgent as every waiter |
| MutexSpec.RunInv | software/RTU_Terminal/rt-thread/src/ipc.c:642-859 | the same in every reachable state |
| MutexSpec.HandOverUrgent | software/RTU_Terminal/rt-thread/src/ipc.c:811-838 | after a hand-over the owner is at least as urgent as every waiter if and only if the head of the list was |
| MutexSpec.FifoInversion | software/RTU_Terminal/rt-thread/src/ipc.c:811-838 | a concrete state in FIFO mode in which a hand-over leaves a more urgent thread waiting |
| MutexSpec.FreeRestoresAll | software/RTU_Terminal/rt-thread/src/ipc.c:809-848 | whenever the mutex is free every thread runs at its base priority |
| MutexSpec.OwnerByBalance | software/RTU_Terminal/rt-thread/src/ipc.c:642-859 | over any run from initialisation the owner is the one thread with more successful takes, hand-overs to it among them, than releases, and hold is by how many; there is no owner when every thread is even |
| MutexSpec.RunNesting | software/RTU_Terminal/rt-thread/src/ipc.c:642-859 | the same from any reachable state on |
| MutexSpec.OwnerKeeps | software/RTU_Terminal/rt-thread/src/ipc.c:800-848 | the mutex leaves its owner exactly at the release that balances the take it became the owner by |
| MutexSpec.TakeOutcome | software/RTU_Terminal/rt-thread/src/ipc.c:666-761 | a take succeeds at once if and only if the mutex is free or the caller's own; otherwise it gives up exactly when it may not wait, or joins the list and the owner runs at the more urgent of the two priorities |
| MutexSpec.ReleaseOutcome | software/RTU_Terminal/rt-thread/src/ipc.c:794-858 | only the owner can release; an inner release changes nothing but the nesting, the outermost one restores the owner's base priority and hands the mutex to the thread to be served, or frees it |
| Mutex.Mutex.Take | software/RTU_Terminal/rt-thread/src/ipc.c:642-761 | take as it updates the fields, priority inheritance included, computes its step and return code |
| Mutex.Mutex.Release | software/RTU_Terminal/rt-thread/src/ipc.c:772-859 | release as it updates the fields, priority restoration and hand-over included, computes its step, its return code and the thread it resumes |
| EventSpec.StepInv | software/RTU_Terminal/rt-thread/src/ipc.c:998-1199 | send, receive, timeout and reset keep that no suspended thread's condition is satisfied by the event set |
| EventSpec.RunInv | software/RTU_Terminal/rt-thread/src/ipc.c:998-1199 | the same in every reachable state, and the list is in order of priority if so flagged |
| EventSpec.ScanLeavesUnsatisfied | software/RTU_Terminal/rt-thread/src/ipc.c:1022-1066 | after one walk over the list, which may wake several threads that clear bits for each other, nobody left is satisfied |
| EventSpec.ScanWakesFairly | software/RTU_Terminal/rt-thread/src/ipc.c:1030-1058 | a woken AND thread gets exactly the set it asked for, a woken OR thread a non-empty part of it, and all bits handed out were set |
| EventSpec.ScanSplits | software/RTU_Terminal/rt-thread/src/ipc.c:1022-1066 | every suspended thread is still on the list or woken, none twice |
| EventSpec.SendOutcome | software/RTU_Terminal/rt-thread/src/ipc.c:1005-1066 | a send of no bits is refused; any other one sets its bits and serves the threads in list order: each by the bits left when the walk comes to it, with the bits it asked for among them, which are cleared if it says so; the others stay in order |
| EventSpec.ScanHandsOut | software/RTU_Terminal/rt-thread/src/ipc.c:1022-1066 | the bits left are those there were without the ones handed to clearing threads, and each woken thread gets all it asked for that no woken thread before it has taken away |
| EventSpec.RecvGets | software/RTU_Terminal/rt-thread/src/ipc.c:1122-1147 | the same for a receive that does not wait |
| EventSpec.RecvOutcome | software/RTU_Terminal/rt-thread/src/ipc.c:1104-1175 | a receive succeeds at once if and only if its condition holds; it gets all requested bits that are set, and exactly the requested ones are cleared with the clear option and none without it; otherwise the set is as it was and it gives up, or joins the list |
| EventSpec.DropAt | software/RTU_Terminal/rt-thread/src/thread.c:649-650 | a thread that times out leaves the list and the others keep their places |
| Event.Event.Send | software/RTU_Terminal/rt-thread/src/ipc.c:998-1077 | the loop over the list, clearing as it goes, computes the walk |
| Event.Event.Walk | software/RTU_Terminal/rt-thread/src/ipc.c:1022-1066 | the loop: kept threads, woken threads and remaining bits are those of the walk from the start |
| Event.Event.Recv | software/RTU_Terminal/rt-thread/src/ipc.c:1093-1199 | receive computes its step, its return code and the bits received, up to the suspension |
| MailboxSpec.StepInv | software/RTU_Terminal/rt-thread/src/ipc.c:1404-1715 | send, receive, retry, abort, timeout and reset keep the mailbox bounded, both lists exact, and no wakeup lost on either side |
| MailboxSpec.RunInv | software/RTU_Terminal/rt-thread/src/ipc.c:1404-1715 | under every interleaving: while receivers are suspended there is no more mail than receivers resumed and not yet back, and while senders are suspended no more free slots than senders resumed and not yet back |
| MailboxSpec.RunConserves | software/RTU_Terminal/rt-thread/src/ipc.c:1404-1677 | first in, first out: over a run without reset, what was in the box followed by the mail that callers passed to the sends that returned EOK, at once or after waiting, is what was fetched followed by what is left |
| MailboxSpec.StepAgrees | software/RTU_Terminal/rt-thread/src/ipc.c:1404-1677 | a suspended call goes on with the mail and the time its caller passed, less the time it has waited |
| MailboxSpec.SendOutcome | software/RTU_Terminal/rt-thread/src/ipc.c:1421-1522 | a send stores the mail its caller passed if and only if there is room, and resumes the receiver to be served; without room it gives up exactly when no time is left, or joins the senders |
| MailboxSpec.RecvOutcome | software/RTU_Terminal/rt-thread/src/ipc.c:1567-1677 | a receive takes the oldest mail if and only if there is any, and resumes the sender to be served; without mail it gives up exactly when no time is left, or joins the receivers |
| MailboxSpec.TimeoutOutcome | software/RTU_Terminal/rt-thread/src/thread.c:646-653 | a suspended thread that times out leaves its list, its call returns the timeout, and nothing else changes |
| MailboxSpec.ResetOutcome | software/RTU_Terminal/rt-thread/src/ipc.c:1694-1715 | a reset empties the mailbox and both lists, and exactly the calls of the suspended threads return the error |
| Mailbox.RingOffsets | software/RTU_Terminal/rt-thread/src/ipc.c:1496-1654 | in_offset is (out_offset + entry) modulo the size |
| Mailbox.RingPut | software/RTU_Terminal/rt-thread/src/ipc.c:1496-1503 | storing at in_offset appends to the mail the ring represents |
| Mailbox.RingGet | software/RTU_Terminal/rt-thread/src/ipc.c:1646-1654 | reading at out_offset takes the oldest mail from it |
| Mailbox.Mailbox.Send | software/RTU_Terminal/rt-thread/src/ipc.c:1404-1522 | the send loop once, on the ring of words, computes its step |
| Mailbox.Mailbox.Receive | software/RTU_Terminal/rt-thread/src/ipc.c:1551-1677 | the receive loop once, on the ring of words, computes its step and the mail returned |
| Mailbox.Mailbox.SendRetry | software/RTU_Terminal/rt-thread/src/ipc.c:1463-1488 | the send loop after a resume: the time is recomputed first, and the return code says whether the mail was stored |
| Mailbox.Mailbox.RecvRetry | software/RTU_Terminal/rt-thread/src/ipc.c:1608-1638 | the same for the receive loop |
| Mailbox.Mailbox.Reset | software/RTU_Terminal/rt-thread/src/ipc.c:1694-1715 | reset as it updates the fields: count and offsets at zero, both lists resumed with an error |
| MessageQueueSpec.StepInv | software/RTU_Terminal/rt-thread/src/ipc.c:1927-2278 | every step of senders, urgent senders, receivers, timeouts and reset, the copies byte by byte, keeps: each pool node is in exactly one of free list, queue, or one thread's hands; queued nodes carry the linked messages in order; no wakeup is lost |
| MessageQueueSpec.RunInv | software/RTU_Terminal/rt-thread/src/ipc.c:1927-2278 | the same under every interleaving |
| MessageQueueSpec.StepPool | software/RTU_Terminal/rt-thread/src/ipc.c:1927-2278 | the division of the pool |
| MessageQueueSpec.StepPayloads | software/RTU_Terminal/rt-thread/src/ipc.c:1961-1979 | no copy disturbs a node that is queued or in another thread's hands |
| MessageQueueSpec.StepWakeups | software/RTU_Terminal/rt-thread/src/ipc.c:1984-1995 | while receivers are suspended there are no more queued messages than receivers resumed and not yet back |
| MessageService.RunRefines | software/RTU_Terminal/rt-thread/src/ipc.c:1927-2278 | every run, byte by byte and interleaved, is with the same return codes a run of a service without nodes and copies: a message is what the caller of the send passed, enters the queue at the end or urgently at the front as that call says, and the receiver that finds it first gets as many of its first bytes as its own call asked for; sends are refused exactly when the message is too large or as many messages as nodes are queued or in hand; resumed receivers, timeouts and resets included |
| MessageService.StepRefines | software/RTU_Terminal/rt-thread/src/ipc.c:1927-2278 | the same for one step and its reply |
| MessageService.FullWhenNoneFree | software/RTU_Terminal/rt-thread/src/ipc.c:1946-1956 | the free list is empty exactly when the messages queued and in the hands of threads are as many as the nodes |
| MessageService.DeliveredFulfils | software/RTU_Terminal/rt-thread/src/ipc.c:2210-2211 | a finished copy begins with the message that was first in the queue when its node was taken |
| MessageService.LinkServes | software/RTU_Terminal/rt-thread/src/ipc.c:1984-1995 | the receiver a message resumes is the one to be served: in priority order nobody left is more urgent, ties by arrival |
| MessageService.WaitJoins | software/RTU_Terminal/rt-thread/src/ipc.c:2144-2163 | a receiver that has to wait joins the list behind those of its lane |
| MessageQueue.MessageQueue.constructor | software/RTU_Terminal/rt-thread/src/ipc.c:1770-1785 | the loop links every pool node into the free list |
| MessageQueue.MessageQueue.SendStart | software/RTU_Terminal/rt-thread/src/ipc.c:1936-1956 | the first region of a send: a node leaves the free list, or the message is too large or the queue full |
| MessageQueue.MessageQueue.SendClear | software/RTU_Terminal/rt-thread/src/ipc.c:1961-1962 | the next pointer of the new node is cleared |
| MessageQueue.MessageQueue.SendCopy | software/RTU_Terminal/rt-thread/src/ipc.c:1963-1964 | one byte of the payload copy, with interrupts enabled |
| MessageQueue.MessageQueue.SendLink | software/RTU_Terminal/rt-thread/src/ipc.c:1966-2000 | the last region of a send: the node is linked and a receiver resumed |
| MessageQueue.MessageQueue.LinkBack | software/RTU_Terminal/rt-thread/src/ipc.c:1968-1982 | linking at the tail through `next`, head, tail and entry stays the chain of the queue |
| MessageQueue.MessageQueue.LinkFront | software/RTU_Terminal/rt-thread/src/ipc.c:2055-2064 | linking an urgent message at the head |
| MessageQueue.MessageQueue.Receive | software/RTU_Terminal/rt-thread/src/ipc.c:2121-2205 | the receive loop once: the head node leaves the queue, or timeout, or suspension |
| MessageQueue.MessageQueue.TakeHead | software/RTU_Terminal/rt-thread/src/ipc.c:2195-2205 | the head leaves the queue, with head, tail and entry |
| MessageQueue.MessageQueue.RecvCopy | software/RTU_Terminal/rt-thread/src/ipc.c:2210-2211 | one byte of the payload copy out |
| MessageQueue.MessageQueue.RecvFinish | software/RTU_Terminal/rt-thread/src/ipc.c:2213-2219 | the node goes back to the free list |
| MessageQueue.MessageQueue.Reset | software/RTU_Terminal/rt-thread/src/ipc.c:2244-2278 | every queued node goes to the free list and every receiver is resumed with an error |
| MessageQueue.MessageQueue.EmptyQueue | software/RTU_Terminal/rt-thread/src/ipc.c:2252-2270 | the loop over the queue moves the nodes one by one |
| SchedulerSpec.StepInv | software/RTU_Terminal/rt-thread/src/scheduler.c:267-402 | insert, remove, change of priority, lock, unlock and schedule keep: each priority's bit is set exactly when its list is not empty, and each ready thread is on the list of its own priority, once; for one bitmap word and for the two-level table |
| SchedulerSpec.RunInv | software/RTU_Terminal/rt-thread/src/scheduler.c:191-402 | the same in every reachable state |
| SchedulerSpec.HighestIsMostUrgent | software/RTU_Terminal/rt-thread/src/scheduler.c:203-211 | the bitmaps name the first non-empty list, in both builds |
| SchedulerSpec.SchedulePicks | software/RTU_Terminal/rt-thread/src/scheduler.c:201-226 | unlocked, schedule picks the head of the most urgent list, and no ready thread is more urgent |
| SchedulerSpec.LockedNeverSwitches | software/RTU_Terminal/rt-thread/src/scheduler.c:201 | while the lock count stays positive no run of calls changes the current thread |
| SchedulerSpec.RunRefines | software/RTU_Terminal/rt-thread/src/scheduler.c:191-402 | any run of either build ends with the lists, lock count and current thread of a scheduler that searches the lists without bitmaps |
| Scheduler.Scheduler.constructor | software/RTU_Terminal/rt-thread/src/scheduler.c:120-147 | initialisation: empty lists, clear bitmaps, unlocked |
| Scheduler.Scheduler.Insert | software/RTU_Terminal/rt-thread/src/scheduler.c:267-305 | the thread goes to the end of its list and its bits are set |
| Scheduler.Scheduler.Remove | software/RTU_Terminal/rt-thread/src/scheduler.c:313-353 | the thread leaves its list and bits of emptied lists and bytes are cleared |
| Scheduler.Scheduler.ChangePriority | software/RTU_Terminal/rt-thread/src/thread.c:485-526 | a ready thread changes its list with its priority |
| Scheduler.Scheduler.Schedule | software/RTU_Terminal/rt-thread/src/scheduler.c:191-258 | switches only when unlocked and the most urgent thread is another one |
| Scheduler.Scheduler.ExitCritical | software/RTU_Terminal/rt-thread/src/scheduler.c:379-401 | only the outermost exit schedules |
| JsonRoundTrip.RoundTrip | software/RTU_Terminal/drivers/cjson/cJSON.c:359-660 | parsing the printed text of any tree, at any depth and in either format, followed by any text, gives the tree and stops at that text, if and only if that text does not continue a number |
| JsonRoundTrip.ParsePrint | software/RTU_Terminal/drivers/cjson/cJSON.c:325-339 | the same for whole documents, with white space around them and with the NUL required or not |
| JsonRoundTrip.NumberRoundTrip | software/RTU_Terminal/drivers/cjson/cJSON.c:98-117 | an integer is read back and reading stops at its end exactly when what follows is no digit, fraction or exponent; after a lone zero only the digits 1 to 9 count |
| JsonRoundTrip.StringRoundTrip | software/RTU_Terminal/drivers/cjson/cJSON.c:194-309 | parsing a quoted string gives the string back |
| JsonRoundTrip.CharsFit | software/RTU_Terminal/drivers/cjson/cJSON.c:199-201 | the buffer length measured for a printed string covers what is written |
| JsonRoundTrip.WellFormedFits | software/RTU_Terminal/drivers/cjson/cJSON.c:199-250 | so it does for any string whose escapes are well formed in the sense of section 7 of RFC 8259, and reading stays inside the text |
| JsonDocuments.DocumentDefined | software/RTU_Terminal/drivers/cjson/cJSON.c:194-251 | so does parsing a whole text, JSON or not, all of whose strings are well formed: it yields a value or a failure and stays inside the text and its buffers |
| JsonGrammar.StringMeans | software/RTU_Terminal/drivers/cjson/cJSON.c:194-251 | every well-formed string is read as what it means by the table of escapes of section 7 of RFC 8259 and UTF-16, and reading stops behind its closing quote |
| JsonGrammar.StringReads | software/RTU_Terminal/drivers/cjson/cJSON.c:194-251 | the same for the text of any pieces: characters, two-character escapes, code units |
| JsonGrammar.NumeralReads | software/RTU_Terminal/drivers/cjson/cJSON.c:90-117 | every numeral, with sign, fraction and exponent, is read as the decimal number it stands for, and reading stops at its end |
| JsonGrammar.Reads | software/RTU_Terminal/drivers/cjson/cJSON.c:359-549 | every value of the grammar of RFC 8259, with any white space, is read as the tree it means, and reading stops at its end |
| JsonGrammar.DocumentReads | software/RTU_Terminal/drivers/cjson/cJSON.c:325-339 | so is every document |
| JsonReading.ValueKnown | software/RTU_Terminal/drivers/cjson/cJSON.c:359-549 | and nothing else is: a text that is accepted is spelled by a piece of that syntax that means the tree returned, with a stated list of liberties, among them a string that the end of the text closes |
| JsonReading.DocumentKnown | software/RTU_Terminal/drivers/cjson/cJSON.c:325-339 | the same for documents |
| JsonReading.StringKnown | software/RTU_Terminal/drivers/cjson/cJSON.c:194-251 | the same for strings |
| JsonReading.NumberKnown | software/RTU_Terminal/drivers/cjson/cJSON.c:90-117 | the same for numbers |
| JsonLayout.PrintLaid | software/RTU_Terminal/drivers/cjson/cJSON.c:378-660 | the printed text of a tree is that of syntax that means the tree: without white space, or with every member of an object on a line of its own behind a tab for each open bracket and brace, a closing brace on a line behind one tab less, a tab after a colon and a blank after a comma in an array |
| JsonLayout.QuoteSpells | software/RTU_Terminal/drivers/cjson/cJSON.c:258-309 | a printed string spells quotes, backslashes and control characters by their escapes, everything else as it is, and means the string |
| JsonLayout.DecimalSpells | software/RTU_Terminal/drivers/cjson/cJSON.c:149-163 | a printed integer is a numeral without leading zeros, fraction or exponent that means it |
| JsonRoundTrip.UnicodeRead | software/RTU_Terminal/drivers/cjson/cJSON.c:218-240 | the escape of any code point, a surrogate pair beyond the first plane, is read as that code point's UTF-8 bytes |
| JsonRoundTrip.Utf8Decodes | software/RTU_Terminal/drivers/cjson/cJSON.c:231-239 | these bytes are well formed, the shortest form, and decode to the code point |
| JsonParser.SkipAt | software/RTU_Terminal/drivers/cjson/cJSON.c:322 | the white-space loop |
| JsonParser.ParseNumberAt | software/RTU_Terminal/drivers/cjson/cJSON.c:98-117 | the digit loops compute the decimal number and where it ends |
| JsonParser.MeasureString | software/RTU_Terminal/drivers/cjson/cJSON.c:199 | the measuring loop computes the length to allocate |
| JsonParser.WriteUtf8 | software/RTU_Terminal/drivers/cjson/cJSON.c:231-239 | the bytes written from the last one down are the UTF-8 bytes |
| JsonParser.ParseStringAt | software/RTU_Terminal/drivers/cjson/cJSON.c:194-251 | measure, allocate and unescape into the buffer, all writes inside it, give the parsed string, which StringMeans says for every well-formed one |
| JsonParser.ParseValueAt | software/RTU_Terminal/drivers/cjson/cJSON.c:359-371 | the dispatch on the first characters computes the parser function, failures included |
| JsonParser.ParseArrayAt | software/RTU_Terminal/drivers/cjson/cJSON.c:408-433 | the loop over elements computes it |
| JsonParser.ParseObjectAt | software/RTU_Terminal/drivers/cjson/cJSON.c:516-549 | the loop over members computes it |
| JsonParser.ParseText | software/RTU_Terminal/drivers/cjson/cJSON.c:325-339 | the entry point computes it |
| JsonPrinter.QuotedSize | software/RTU_Terminal/drivers/cjson/cJSON.c:258-284 | the length counted for a string is exactly the quoted text and its NUL |
| JsonPrinter.WriteQuoted | software/RTU_Terminal/drivers/cjson/cJSON.c:286-308 | the escaping loop writes the quoted text |
| JsonPrinter.PrintValue | software/RTU_Terminal/drivers/cjson/cJSON.c:391-404 | printing with an allocation per node gives the text of the tree as a C string |
| JsonPrinter.PrintNumber | software/RTU_Terminal/drivers/cjson/cJSON.c:149-163 | the two sizes allocated for an integer cover its text |
| JsonPrinter.PrintArray | software/RTU_Terminal/drivers/cjson/cJSON.c:471-512 | the size added up for an array covers what is written, and that is the array's text |
| JsonPrinter.ItemsFit | software/RTU_Terminal/drivers/cjson/cJSON.c:483 | the elements never need more than was added up for them |
| JsonPrinter.PrintObject | software/RTU_Terminal/drivers/cjson/cJSON.c:610-659 | the same for an object |
| JsonPrinter.MembersFit | software/RTU_Terminal/drivers/cjson/cJSON.c:626 | the members never need more than was added up for them |
| JsonPrinter.DecimalShort | software/RTU_Terminal/drivers/cjson/cJSON.c:159-163 | a 32-bit integer has at most eleven characters |
| JsonPrinter.PrintNulFree | software/RTU_Terminal/drivers/cjson/cJSON.c:483 | printed text has no NUL, so strlen measures all of it |
| JsonBuffer.PrintBuffer.Ensure | software/RTU_Terminal/drivers/cjson/cJSON.c:123-138 | ensure makes room for what was asked and keeps everything printed before the offset, whether or not the buffer moves |
| JsonBuffer.PrintBuffer.Update | software/RTU_Terminal/drivers/cjson/cJSON.c:140-146 | update moves the offset to the end of the text just printed |
| JsonBuffer.Pow2Gt | software/RTU_Terminal/drivers/cjson/cJSON.c:119 | the new size is not below the one needed |
| JsonBuffer.PrintValueInto | software/RTU_Terminal/drivers/cjson/cJSON.c:378-389 | printing a node into the buffer appends exactly its text, every write inside the room ensured for it |
| JsonBuffer.PrintArrayInto | software/RTU_Terminal/drivers/cjson/cJSON.c:455-470 | the same for an array |
| JsonBuffer.PrintObjectInto | software/RTU_Terminal/drivers/cjson/cJSON.c:562-609 | the same for an object, and where its returned pointer stands |
| JsonBuffer.CloseObject | software/RTU_Terminal/drivers/cjson/cJSON.c:605-608 | the closing line of a formatted object: the tab loop leaves its counter in the variable the returned pointer is made of |
| JsonBuffer.PrintBuffered | software/RTU_Terminal/drivers/cjson/cJSON.c:347-355 | for every tree, either format and any positive starting size the buffer holds the text that printing without a buffer gives, and the returned pointer is its start |
| JsonMinify.MinifyUnformats | software/RTU_Terminal/drivers/cjson/cJSON.c:740-755 | minifying the formatted text of any tree gives exactly the unformatted text, and the unformatted text is left as it is |
| JsonMinify.ValueMinified | software/RTU_Terminal/drivers/cjson/cJSON.c:740-755 | the same for a value inside a longer text |
| JsonMinify.EscapedRaw | software/RTU_Terminal/drivers/cjson/cJSON.c:751 | no character of a printed string ends it early, and none of it is touched |
| JsonMinify.LineCommentDropped | software/RTU_Terminal/drivers/cjson/cJSON.c:748 | a line comment goes with everything before its line break |
| JsonMinify.BlockCommentDropped | software/RTU_Terminal/drivers/cjson/cJSON.c:749 | a block comment goes up to the first star before a solidus, which may be the star that opens it |
| JsonMinify.MinifyInPlace | software/RTU_Terminal/drivers/cjson/cJSON.c:740-755 | in place, with the write pointer never ahead of the read pointer, the loop computes the minified text of any text whose strings and comments are closed |
| JsonMinify.CopyString | software/RTU_Terminal/drivers/cjson/cJSON.c:751 | the loop over a string literal, escapes included, copies it unchanged |
| Calendar.ClosedForm | software/RTU_Terminal/board/time.c:132-146 | the closed form of the leap correction equals the year-by-year sum of 365 or 366 days for every year from 1970 on |
| Calendar.DaysOfYears | software/RTU_Terminal/board/time.c:132-146 | the statements that compute it |
| Calendar.TableDays | software/RTU_Terminal/board/time.c:5-19 | the cumulative table with the leap day after February counts the days before a month |
| Calendar.Gmtime | software/RTU_Terminal/board/time.c:35-69 | gmtime_r gives the date, week day and day of the year of every 32-bit moment |
| Calendar.FindYear | software/RTU_Terminal/board/time.c:45-53 | the year loop |
| Calendar.FindMonth | software/RTU_Terminal/board/time.c:56-67 | the month search, the 29th of February included |
| Calendar.Mktime | software/RTU_Terminal/board/time.c:128-158 | mktime of a date in range gives its seconds modulo 2^32, the error value before 1970, and fills in week day and day of the year |
| Calendar.RoundTrip | software/RTU_Terminal/board/time.c:37-158 | a moment turned into a date and back is the same moment; a date turned into a moment and back is the same date if and only if it has no leap second and its moment fits 32 bits |
| CalendarSpec.SecondsOfDate | software/RTU_Terminal/board/time.c:37-69 | every moment has a date in range whose seconds, counted day by day, are that moment |
| CalendarSpec.DateOfSeconds | software/RTU_Terminal/board/time.c:91-158 | a date is found again from its seconds exactly when it has no leap second |
| CalendarSpec.NextDay | software/RTU_Terminal/board/time.c:35-69 | one day later the clock shows the same, the date is the next one of the month, or the first of the next month or year, and the day of the week the next one |
| CalendarSpec.FirstDay | software/RTU_Terminal/board/time.c:41-43 | the count starts on Thursday, the first of January 1970, at midnight |
| CalendarSpec.KnownDays | software/RTU_Terminal/board/time.c:41-43 | the first of January 2000 is a Saturday, the 29th of February 2024 a Thursday |
| DesSpec.PermutationsInvert | software/RTU_Terminal/reg/rtu_des.c:203-225 | the initial and the final permutation undo each other |
| DesSpec.RoundsInvert | software/RTU_Terminal/reg/rtu_des.c:227-240 | the reversed schedule undoes any number of rounds, whatever the S-boxes hold |
| DesSpec.CryptInverts | software/RTU_Terminal/reg/rtu_des.c:319-341 | deciphering a block undoes enciphering it |
| DesSpec.DecryptInverts | software/RTU_Terminal/reg/rtu_des.c:355-385 | so it does for messages of any number of whole blocks |
| Des.MessageRoundTrip | software/RTU_Terminal/reg/rtu_des.c:355-385 | for every key, decryption gives back what was encrypted and encryption what was decrypted |
| Des.Context.MainSchedule | software/RTU_Terminal/reg/rtu_des.c:242-305 | the loop over the rounds computes the key words |
| Des.Context.SetKey | software/RTU_Terminal/reg/rtu_des.c:307-317 | the second schedule is the first one reversed round by round |
| DesKeys.TurnsReturn | software/RTU_Terminal/reg/rtu_des.c:268-279 | the turns of the sixteen rounds bring a key half back to where it was |
| DesStandard.EvenIsStandard | software/RTU_Terminal/reg/rtu_des.c:281-291 | the first key word of a round holds the rows of the table PC-2 for the S-boxes 2, 4, 6 and 8, and no other bits |
| DesStandard.OddIsStandard | software/RTU_Terminal/reg/rtu_des.c:293-303 | the second one holds the rows for the S-boxes 1, 3, 5 and 7 |
| DesStandard.HalvesAreStandard | software/RTU_Terminal/reg/rtu_des.c:244-265 | the key is sorted as the table PC-1 says |
| DesStandard.ScheduleIsStandard | software/RTU_Terminal/reg/rtu_des.c:242-305 | the key words are the sixteen keys of FIPS 46-3 |
| DesStandard.RoundIsStandard | software/RTU_Terminal/reg/rtu_des.c:227-240 | a round adds the cipher function of FIPS 46-3: every S-box is entered with its row of the table E added to its key bits, and the entries of the code are the outputs of the standard S-boxes, permuted by the table P and turned |
| DesStandard.CipherIsStandard | software/RTU_Terminal/reg/rtu_des.c:319-341 | for every key and block the code computes the Data Encryption Standard, enciphering and deciphering |
| DesStandard.MessageIsStandard | software/RTU_Terminal/reg/rtu_des.c:355-385 | so it does for every block of a message, each in its place |
| DesStandard.FirstOctetFirst | software/RTU_Terminal/reg/rtu_des.c:319-341 | the bits of a block are numbered from the left of its first octet |
| Des.PermuteIn | software/RTU_Terminal/reg/rtu_des.c:203-212 | the macro DES_IP moves the bits as the table IP of FIPS 46-3 says, and turns both halves by one bit |
| Des.PermuteOut | software/RTU_Terminal/reg/rtu_des.c:215-224 | the macro DES_FP moves the bits of the halves turned back as the table of the inverse says |
| Des.SixteenRounds | software/RTU_Terminal/reg/rtu_des.c:328-335 | the rounds computed with alternating halves |
| Des.CryptBlock | software/RTU_Terminal/reg/rtu_des.c:319-341 | a block is enciphered from one buffer to another, or in place |
| Des.CryptMessage | software/RTU_Terminal/reg/rtu_des.c:355-369 | the block loop, in place or not, enciphers the message in whole blocks, the last one included, touches nothing beyond them and returns what is left of the length, below zero when the message is no whole blocks |
| DigestSpec.CutPieces | software/RTU_Terminal/reg/rtu_sha.c:161-187 | feeding a message in any pieces gives the same blocks and the same bytes kept as feeding it at once |
| DigestSpec.PadWhole | software/RTU_Terminal/reg/rtu_sha.c:218-229 | a padded message is whole blocks, with less than one block more than the count needs |
| DigestSpec.CutAt | software/RTU_Terminal/reg/rtu_sha.c:178-184 | block i is the bytes from 64 * i on, and what is left is the bytes after the last whole block |
| DigestSpec.PadIs | software/RTU_Terminal/reg/rtu_sha.c:218-229 | the padding is the byte 0x80, zeros, and the eight bytes of the count |
| DigestSpec.BitCountsMean | software/RTU_Terminal/sdccp/cc_md5.c:120-136 | the count bytes spell the number of bits modulo 2^64, most significant byte first in SHA-1, last in MD5 |
| DigestSpec.FoldFirst | software/RTU_Terminal/reg/rtu_sha.c:161-187 | the chaining value takes the blocks from the first on |
| DigestSpec.BytesAt | software/RTU_Terminal/reg/rtu_sha.c:240-252 | the bytes of word i of a digest stand at 4 * i |
| Sha.Context.Write | software/RTU_Terminal/reg/rtu_sha.c:161-187 | the blocks handed to the transform and the bytes kept depend only on the concatenation of what was written |
| Sha.Context.WholeBlocks | software/RTU_Terminal/reg/rtu_sha.c:178-184 | whole blocks taken straight from the input are the blocks of the message |
| Sha.Context.Final | software/RTU_Terminal/reg/rtu_sha.c:197-252 | the blocks handed to the transform, from the first to the last, are exactly those of the padded message, and the buffer begins with the words of the last chaining value, most significant byte first |
| Sha.CountBits | software/RTU_Terminal/reg/rtu_sha.c:204-216 | the two words of the bit count, with the carry between them |
| Sha.CountRight | software/RTU_Terminal/reg/rtu_sha.c:204-216 | for a message below 2^61 bytes the encoded count is its number of bits if and only if it is shorter than 2^38 bytes, where the 32-bit block counter wraps |
| Md5.Context.Update | software/RTU_Terminal/sdccp/cc_md5.c:82-114 | the blocks handed to the transform, the bytes kept and the bit count depend only on the concatenation of what was given |
| Md5.AddBits | software/RTU_Terminal/sdccp/cc_md5.c:91-96 | the two-word count with its carry is the number of bits modulo 2^64 |
| Md5.Context.Put | software/RTU_Terminal/sdccp/cc_md5.c:99-112 | a full buffer is handed on as sixteen little-endian words |
| Md5.WordsAt | software/RTU_Terminal/sdccp/cc_md5.c:99-112 | word i of a block is spelled by the four bytes from 4 * i on |
| Md5.Context.Final | software/RTU_Terminal/sdccp/cc_md5.c:120-157 | the blocks handed to the transform are exactly those of the message padded as sections 3.1 and 3.2 of RFC 1321 say, the 64-bit count low word first, and the digest is the words of the last chaining value, least significant byte first |

## Left out

- SmallHeapSpec.ShrinkKeeps: does not claim that the hint stays lowest, which is false; ShrinkHint has the exact condition.
- SmallHeap.HeapInit: asks for a heap of at least a minimal payload below 2^32 bytes (2^24 for the Lua heap) when the range is large enough for two headers; with a smaller one the bound of the malloc loop underflows.
- MemHeap.MemHeap.Realloc: asks that the new size plus the minimal payload stays below 2^32, and the pool 36 bytes below it; beyond that the comparison before growing wraps.
- MemHeap.MemHeap.Alloc: headers are kept apart from the payload bytes, so that a header write changes no payload is the separation of the blocks, not a statement about bytes as in the small heap. Its look at available_size and its locked part run in one go; the steps of MemHeapSpec, which interleave, have the locked part alone.
- MemHeap.MemHeap.SplitItem: sets the used bit of the first half with the split; the code sets it a few lines later under the same lock.
- SmallHeap.SmallMem.Malloc: allocation hooks, debug assertions and the magic check of free are not modelled; the magic number of used headers is. The scheduler lock around the body makes a call one step; a realloc that moves is malloc, copy and free in one go.
- Mutex.Mutex.Take: for a system with a single mutex in which only its code changes priorities, and fewer than 255 nested takes.
- SemaphoreSpec.RunInv: the 16-bit value does not overflow; waits end by release, timeout or reset.
- Event.Event.Send: event sets are sets of bit numbers, so the 32-bit width of the word does not appear; neither does the code path without AND or OR.
- MessageQueueSpec.StepInv: the elapsed time a receiver computes before it waits again is a parameter of the step.
- Mailbox.Mailbox.Send: as in the message queue, elapsed time is a parameter.
- Mailbox.Mailbox.Receive: the endless loop on `RT_ERROR == thread->error` (ipc.c line 1627) has no step, because every error stored in a thread is a negated code and the comparison is with the positive one.
- Scheduler.Scheduler.Schedule: the real context switch, interrupt nesting, stack checks and the 16-bit lock counter's overflow; __rt_ffs is the lowest set bit plus one; some thread, the idle thread at least, is ready.
- Scheduler.Scheduler.Insert: ready lists are sequences here; the ring operations behind them are in ListService.
- JsonParser.ParseArrayAt: siblings are appended to a sequence, so the `next` and `prev` pointers of the nodes are not captured; allocation always succeeds and cJSON_Delete is not part of this model.
- JsonParser.ParseStringAt: asks that the string is one on which the code stays inside the text and its buffer; WellFormedFits shows that well-formed strings are.
- JsonGrammar.Reads: covers the grammar; that every liberty of ValidSyntax is taken, and not only that nothing beyond them is (JsonReading.ValueKnown), is claimed for numbers alone.
- JsonParser.ParseNumberAt: numbers are exact decimals instead of doubles, and the exponent an unbounded integer; printing covers 32-bit integers, not floating point.
- JsonPrinter.PrintArray: the strings of the elements are held as values until they are copied, so freeing them is not captured.
- JsonBuffer.Pow2Gt: that the size is a power of two is not claimed, nor sizes that overflow a 32-bit int.
- Calendar.Mktime: dates in range only, with a day count that fits a word; the normalisation of other dates compares days with the cumulative table. asctime and the clock are left out.
- Des.CryptMessage: the sixteen rounds, written out in the code, are a loop, and the macro variable T is written out.
- Sha.Context.Final: the transform is a parameter and the chaining value any type with a function that gives its words; the same holds for Md5.Context.Final. Nothing is claimed about standard digests.
- Destroying kernel objects (detach and delete), object names, hooks, debug output, and deleting threads that are blocked.
- Sockets, radio and modem drivers, web handlers, configuration, flash, module loading and memory pools: I/O plumbing, or members that add nothing harder.
