# A verified model of the CUBRID base library

This project models six components of the CUBRID database's base library in Dafny and proves what they
are for: the CRC engine, the ring memory pool with out-of-order frees, the area allocator (run by one
thread, and under interleaving), the binary max-heap, the Base64 codec and the bit counts. Code that
updates arrays and fields in place is modelled by classes and methods with loops; every such method is
tied to a function on values, and the theorems are about those functions and about whole runs.

| file | models |
|---|---|
| `Words.dfy`, `Gf2Polynomials.dfy`, `CrcRegister.dfy`, `Crc.dfy` | `src/base/CRC.h` |
| `MemoryPool.dfy` | `src/base/DMRBMemoryPool.cpp` over `src/base/DMRB.hpp` |
| `LockFreeBitmap.dfy`, `AreaPlacement.dfy`, `AreaAllocator.dfy` | `src/base/lockfree_bitmap.cpp`, `src/base/area_alloc.c`, one thread |
| `AreaRuns.dfy` | callers of an area: any sequence of allocations and frees |
| `AreaConcurrency.dfy` | `src/base/area_alloc.c`, any number of threads, one shared access a step |
| `AreaProgress.dfy` | what a thread of the interleaved allocator can do while the others pause |
| `BinaryHeap.dfy` | `src/base/binaryheap.c` |
| `Base64.dfy`, `Base64Text.dfy` | `src/base/base64.c`, and what its texts are, letter by letter |
| `BitCounting.dfy`, `BitScanning.dfy` | `src/base/bit.c` |
| `Arithmetic.dfy`, `Wrappers.dfy` | powers and bitwise and on numbers, facts about products and remainders; optional values |

Main results:

- The table-driven CRC equals the bit-by-bit CRC in all three branches, for every width, type and message;
  both are long division over the two-element field, a checksum is the only word that fits and stands for
  the remainder, and a CRC in parts is the CRC of the whole.
- In every run of commits, returns in any order and resets, the pool refines a ledger of the segments handed
  out and returned, its assertions hold, and the writable span is exactly the cells that no segment occupies.
- Any sequence of allocations and frees on an area leaves live exactly the addresses given out and not taken
  back, as slots that never overlap, and the counters differ from their number by the stray frees only. No block
  is added, and no allocation fails, while fewer elements are live than the blocks hold.
- In every interleaving of allocations, frees and lookups, published cells never change and stay ascending,
  live elements never overlap, a lookup of an element that was ever returned ends with its block, the mutex
  excludes, no access leaves its array and no thread deadlocks. Exactly the entries somebody holds are marked,
  and blocks change only by the insertion of the one-thread model. From every state a thread left alone can take
  any free entry, add a block, free any element, and look any address up.
- Bounded insertion of any sequence into a new heap keeps its k smallest elements; the in-place sort gives an ascending
  permutation.
- Every character of an encoding is the one that section 4 of RFC 4648 gives, bit by bit, in lines of 76, and every
  bit of a decoded byte comes from its letter. Base64 decoding inverts encoding, accepts exactly the well-formed texts, and re-encoding gives the text back
  exactly when its spare bits are zero.
- The parallel sums count one bits for every 32- and 64-bit word, and no sum in them overflows.

Where the code does less than it says or seems to, the model follows the code and states when the promise
holds:

- The header of `CRC.h` says that `Finalize` and `UndoFinalize` always undo each other (lines 558-566). They do
  exactly for values of CRCWidth bits (`Crc.UndoInvertsFinalize`, with an input in `Crc.UndoLosesHighBits`).
- `DMRB::prepare` accepts any capacity that is a multiple of the page size, but the mask places offsets
  in different cells, and `restore` recovers them, exactly when the capacity is a power of two
  (`MemoryPool.PlacementNeedsPowerOfTwo` and `MemoryPool.RestoreNeedsPowerOfTwo`, with three pages in
  `MemoryPool.ThreePagesCollide`).
- The Base64 length of an empty source is -1; every other length is exact (`Base64.EncodeLenIsExact`). A 32-bit
  int holds it up to 1589695686 source bytes (`Base64.EncodeLenFitsInt`).
- `bh_add` marks the heap inconsistent even when it is full and adds nothing (`BinaryHeap.Heap.Add`).
- `area_free` of a slot that is free already answers NO_ERROR and counts a free in the build without
  debugging checks (`AreaRuns.FreeTwice` gives the calls), so the counters match the live slots exactly when
  there was no such stray free (`AreaAllocator.Area.CountersMatch`).
- The leading-zero counts are right for the word zero only, and one too small for every other word
  (`BitScanning.CountLeadingZeros32`, `BitScanning.CountLeadingZeros64`).

## Model

| member | source | states |
|---|---|---|
| Crc.Reflect | src/base/CRC.h:521-532 | The loop reverses the low bits of a word and clears the rest. |
| Crc.Finalize | src/base/CRC.h:544-556 | The final reflection, XOR and mask, as a function of the remainder. |
| Crc.UndoFinalize | src/base/CRC.h:576-590 | The inverse steps, as a function of the CRC. |
| Crc.UndoAfterFinalize | src/base/CRC.h:544-590 | Undoing a finalization gives back the low CRCWidth bits, for every remainder. |
| Crc.UndoInvertsFinalize | src/base/CRC.h:558-590 | Each of the two undoes the other exactly on values that fit in CRCWidth bits. |
| Crc.UndoLosesHighBits | src/base/CRC.h:558-566 | A four-bit CRC in an eight-bit type where the round trip does not give the value back. |
| Crc.ShiftRight | src/base/CRC.h:627-639 | The bit loop of the reflected branch. |
| Crc.ShiftLeft | src/base/CRC.h:656-668 | The bit loop of the other branches. |
| Crc.CalculateRemainder | src/base/CRC.h:603-707 | The three branches over all bytes compute the remainder function that the lemmas below are about. |
| CrcRegister.StepsLinear | src/base/CRC.h:656-668 | Any number of bit steps is linear over XOR. |
| CrcRegister.AbsorbByTable | src/base/CRC.h:720-768 | Eight bit steps are one byte shift XOR the effect, on an empty register, of the byte that leaves. |
| CrcRegister.RunDivides | src/base/CRC.h:642-704 | A run of the register subtracts a multiple of the generator from message and start value. |
| Gf2Polynomials.RemainderUnique | src/base/CRC.h:642-704 | A polynomial has one remainder below the degree of a monic divisor. |
| Crc.HighRunLow | src/base/CRC.h:642-704 | Bits of CRCType above the register never reach it, in both branches that shift left. |
| Crc.LowRunMirror | src/base/CRC.h:619-641 | The reflected loop is the mirror image of the loop that shifts left, on reversed bytes, start and polynomial. |
| Crc.RemainderMirror | src/base/CRC.h:619-704 | The reflected remainder is the mirror image of the other loop's, for every width, over mirrored bytes and start. |
| Crc.RemainderIsRun | src/base/CRC.h:603-707 | In every branch, width and type the CRC bits are a run of one register, the narrow branch included. |
| Crc.RemainderDivides | src/base/CRC.h:603-707 | The CRC bits are the remainder of message times x^width plus start times x^(8n) by the generator. |
| Crc.ChecksumIsTheRemainder | src/base/CRC.h:436-443 | A word is the checksum if and only if it fits and stands for that remainder. |
| Crc.Calculate | src/base/CRC.h:436-443 | Computes the checksum that ChecksumIsTheRemainder characterises. |
| Crc.CalculatePart | src/base/CRC.h:456-465 | Continues a checksum with more data. |
| Crc.MultiPart | src/base/CRC.h:445-465 | Continuing the checksum of a with b is the checksum of a followed by b, for all parameters. |
| Crc.Table.constructor | src/base/CRC.h:328-332 | A new table holds the right entry for every byte. |
| Crc.Table.InitTable | src/base/CRC.h:392-424 | Fills all 256 entries in place. |
| Crc.Table.Lookup | src/base/CRC.h:381-384 | An index wider than a byte is cut to its low eight bits. |
| Crc.EntryIsAbsorb | src/base/CRC.h:392-424 | An entry is the effect of its byte on an empty register. |
| Crc.EntryFits | src/base/CRC.h:392-424 | No entry has a bit above the register, or below the CRC in the narrow branch. |
| Crc.ReflectedEntry | src/base/CRC.h:392-424 | In the reflected branch an entry is that effect over the whole CRCType. |
| Crc.CalculateRemainderByTable | src/base/CRC.h:720-768 | The three table loops compute the table remainder function. |
| Crc.TableAgrees | src/base/CRC.h:603-768 | From any contents the two remainders have the same CRC bits, and equal words when reflected. |
| Crc.CalculateByTable | src/base/CRC.h:477-486 | The table form returns the checksum of the bit-by-bit form. |
| Crc.CalculatePartByTable | src/base/CRC.h:500-511 | The table form continues a checksum as the bit-by-bit form does. |
| MemoryPool.MaskIsMod | src/base/DMRB.hpp:127-134 | Masking by a power of two less one is taking the remainder. |
| MemoryPool.PlacementNeedsPowerOfTwo | src/base/DMRB.hpp:127-171 | The mask separates the offsets of one capacity if and only if the capacity is a power of two. |
| MemoryPool.ThreePagesCollide | src/base/DMRB.hpp:167-171 | Three pages pass the size check, and offsets 0 and 4096 share a cell. |
| MemoryPool.OrderInvertsPlacement | src/base/DMRBMemoryPool.cpp:69-71 | The masked 64-bit arithmetic recovers the logical offset of any segment within one capacity of the tail, through either mapping. |
| MemoryPool.RestoreNeedsPowerOfTwo | src/base/DMRBMemoryPool.cpp:54-71 | Restore recovers every offset that buffer placed if and only if the capacity is a power of two. |
| MemoryPool.CoalesceFollowsLedger | src/base/DMRBMemoryPool.cpp:93-102 | The erase loop advances to the first segment not returned, and what stays parked is what was returned beyond it. |
| MemoryPool.CommitRefines | src/base/DMRBMemoryPool.cpp:133-138 | A commit adds one segment to the ledger. |
| MemoryPool.LiveSegment | src/base/DMRBMemoryPool.cpp:74-85 | A segment that is out lies between tail and head and meets no parked one. |
| MemoryPool.ReturnRefines | src/base/DMRBMemoryPool.cpp:64-105 | A return in any order keeps tail and parked map what the ledger says. |
| MemoryPool.StepIsSafe | src/base/DMRBMemoryPool.cpp:47-145 | Every allowed commit, return or reset meets the assertions and keeps the refinement. |
| MemoryPool.EveryRunIsSafe | src/base/DMRBMemoryPool.cpp:47-145 | The same along every legal run, before and after every event. |
| MemoryPool.DrainedPool | src/base/DMRBMemoryPool.cpp:64-105 | Tail meets head if and only if every segment is back, and then nothing is parked. |
| MemoryPool.ParkedBeyondTail | src/base/DMRBMemoryPool.cpp:64-105 | Every parked key lies strictly between tail and head. |
| MemoryPool.BufferIsClear | src/base/DMRBMemoryPool.cpp:54-62 | The writable span lies inside the double mapping and covers no cell of a segment. |
| MemoryPool.BufferIsComplete | src/base/DMRBMemoryPool.cpp:54-62 | Every cell that no segment covers is in the writable span. |
| MemoryPool.DMRBMemoryPool.constructor | src/base/DMRB.hpp:127-134 | A new pool is empty, and in order exactly when the capacity is a power of two. |
| MemoryPool.DMRBMemoryPool.Reset | src/base/DMRBMemoryPool.cpp:47-52 | Empties the pool. |
| MemoryPool.DMRBMemoryPool.Available | src/base/DMRB.hpp:226-250 | Available and readable bytes make up the capacity. |
| MemoryPool.DMRBMemoryPool.Buffer | src/base/DMRBMemoryPool.cpp:54-62 | Returns exactly the cells that no segment occupies, starting at the head. |
| MemoryPool.DMRBMemoryPool.Commit | src/base/DMRBMemoryPool.cpp:133-138 | Moves the head by the length and nothing else; the new segment starts at the old head and has that length. |
| MemoryPool.DMRBMemoryPool.Consume | src/base/DMRBMemoryPool.cpp:140-145 | Moves the tail. |
| MemoryPool.DMRBMemoryPool.Restore | src/base/DMRBMemoryPool.cpp:64-105 | Takes a segment back; the overlap checks of the debug build hold. |
| MemoryPool.DMRBMemoryPool.Absorb | src/base/DMRBMemoryPool.cpp:93-102 | The erase loop in place equals its recursive form. |
| MemoryPool.DMRBMemoryPool.IsIn | src/base/DMRBMemoryPool.cpp:117-125 | Membership in the double mapping. |
| LockFreeBitmap.Bitmap.constructor | src/base/lockfree_bitmap.cpp:83-122 | All entries are free and the bits beyond the last entry are set. |
| LockFreeBitmap.Bitmap.FindChunk | src/base/lockfree_bitmap.cpp:138-236 | The search round the list finds a word with a free entry, or there is none. |
| LockFreeBitmap.Bitmap.FindSlot | src/base/lockfree_bitmap.cpp:138-236 | Finds the lowest free bit of a word that has one. |
| LockFreeBitmap.Bitmap.NotAllOnes | src/base/lockfree_bitmap.cpp:138-236 | Below the usage threshold some word has a free entry. |
| LockFreeBitmap.Bitmap.GetEntry | src/base/lockfree_bitmap.cpp:138-236 | Fails exactly when the bitmap counts as full; otherwise marks one entry that was free. |
| LockFreeBitmap.Bitmap.FreeEntry | src/base/lockfree_bitmap.cpp:239-275 | Unmarks one entry; a free one stays free. |
| AreaAllocator.AlignSize | src/base/area_alloc.c:152-243 | Element sizes are rounded up to double words. |
| AreaAllocator.AlignCount | src/base/lockfree_bitmap.hpp:89-90 | Entry counts are rounded up to whole words. |
| AreaPlacement.InsertedWhere | src/base/area_alloc.c:642-697 | The block goes to the end of the first blockset that has fewer than 256 blocks and ends below it, else to a new blockset. |
| AreaPlacement.InsertedKeeps | src/base/area_alloc.c:642-697 | Insertion registers exactly the new block and keeps blocksets non-empty, at most 256 long, ascending and apart. |
| AreaPlacement.LastBelow | src/base/area_alloc.c:736-771 | In an ascending blockset of separate blocks only the last block below a pointer can contain it. |
| AreaPlacement.SlotsDisjoint | src/base/area_alloc.c:440-474 | Slots of separate blocks, and different slots of one block, do not overlap. |
| AreaPlacement.SlotIndex | src/base/area_alloc.c:515-588 | The entry index computed from an address is the one the address was made from. |
| AreaAllocator.Area.constructor | src/base/area_alloc.c:152-243 | A new area has one block, one blockset, nothing live, rounded sizes, and the given usage ratio in its bitmaps. |
| AreaAllocator.Area.FindInBlockset | src/base/area_alloc.c:718-771 | The bounds test and binary search of one blockset answer as a scan of it would. |
| AreaAllocator.Area.FindBlock | src/base/area_alloc.c:709-775 | Returns the block that contains the pointer, null if and only if no block does. |
| AreaAllocator.Area.FindRoom | src/base/area_alloc.c:642-675 | Finds the first blockset with room below the block. |
| AreaAllocator.Area.Append | src/base/area_alloc.c:667-675 | Stores a block behind the last one of a blockset. |
| AreaAllocator.Area.Extend | src/base/area_alloc.c:678-696 | Links a new blockset, freshly allocated, that holds one block. |
| AreaAllocator.Area.InsertBlock | src/base/area_alloc.c:642-697 | In place equals insertion on values; fails only when malloc does, and then changes nothing. |
| AreaAllocator.Area.TryBlock | src/base/area_alloc.c:362-474 | One request to a block's bitmap fails exactly when the block is full. |
| AreaAllocator.Area.MoveHint | src/base/area_alloc.c:573-578 | The hint moves exactly from a full block to one that is not. |
| AreaAllocator.Area.Scan | src/base/area_alloc.c:362-474 | Takes a free entry of some block; finds none only when all are full. |
| AreaAllocator.Area.Grow | src/base/area_alloc.c:362-474 | A new block with its first entry taken joins the area; what the area gains is freshly allocated. |
| AreaAllocator.Area.Alloc | src/base/area_alloc.c:362-474 | Returns a slot nobody had; serves from the hint block when it can; adds a block only when all are full, and neither adds one nor fails while fewer elements are live than the blocks hold; fails only when malloc does; counts match, and what the area gains is freshly allocated. |
| AreaAllocator.Area.Locate | src/base/area_alloc.c:515-588 | Accepts exactly the slot starts of registered blocks, and finds their block and entry. |
| AreaAllocator.Area.Free | src/base/area_alloc.c:515-588 | Succeeds exactly on slot starts, frees only that slot, and otherwise changes nothing; counts match. |
| AreaAllocator.Area.CountersMatch | src/base/area_alloc.c:454-459 | Outside server builds allocations less frees are the live slots if and only if no free slot was ever freed. |
| AreaAllocator.LivePointersDisjoint | src/base/area_alloc.c:362-588 | Two live pointers denote slots that do not overlap. |
| AreaAllocator.LiveInside | src/base/area_alloc.c:362-588 | A live pointer denotes a slot behind the header and before the end of one registered block. |
| AreaAllocator.LiveAtLeast | src/base/area_alloc.c:362-474 | Blocks with at least c entries in use each have that many live addresses together. |
| AreaAllocator.Area.RoomyIsNotFull | src/base/area_alloc.c:314 | While fewer elements are live than the blocks hold below their usage ratio, some block is not full. |
| AreaAllocator.Area.RoomyWhenWhole | src/base/area_alloc.c:75-80 | With a ratio of one, that is while any entry is free. |
| AreaRuns.Call | src/base/area_alloc.c:362-588 | One allocation or free: what it does to the live addresses and the counters; an allocation fails only when all blocks are full and malloc gives nothing usable. |
| AreaRuns.Serve | src/base/area_alloc.c:362-588 | Any sequence of calls: live addresses, disjoint slots and counters follow the calls, and no live address is given out or refused. |
| AreaRuns.ServeNew | src/base/area_alloc.c:152-588 | The same from area_create on: allocations plus stray frees equal frees plus live slots. |
| AreaRuns.FreeTwice | src/base/area_alloc.c:515-588 | A slot freed twice outside server builds: no error, nothing live, and one free more than allocations. |
| AreaAllocator.TakenIsNew | src/base/area_alloc.c:362-474 | Taking a free entry adds exactly one live address. |
| AreaAllocator.Cleared | src/base/area_alloc.c:515-588 | Clearing an entry removes exactly its address, or nothing if it was free. |
| AreaConcurrency.FindStepOk | src/base/area_alloc.c:709-775 | Every step of a lookup keeps its distance to the block it aims at. |
| AreaConcurrency.ScanStepOk | src/base/area_alloc.c:362-474 | Every step of an allocation keeps shared memory and other threads' facts. |
| AreaConcurrency.InsertStepOk | src/base/area_alloc.c:642-697 | Every step of the inserter does, between writing a cell and publishing it too. |
| AreaConcurrency.FreeStepOk | src/base/area_alloc.c:515-588 | Every step of a free does. |
| AreaConcurrency.NextKeeps | src/base/area_alloc.c:362-775 | Every step of every thread keeps the invariant and all published cells. |
| AreaConcurrency.InvariantOnRuns | src/base/area_alloc.c:362-775 | The invariant holds in every state of every run: order, hint, marks, holders. |
| AreaConcurrency.PublishedForGood | src/base/area_alloc.c:642-697 | A published cell keeps its block for the rest of the run. |
| AreaConcurrency.LookupsSucceed | src/base/area_alloc.c:709-775 | A lookup that ends has found the block that held its pointer when it began; one made by a free always has. |
| AreaConcurrency.LaterLookupsAim | src/base/area_alloc.c:488-504 | A lookup begun after an element was returned aims at the block of that element, freed or not. |
| AreaConcurrency.LaterLookupsFind | src/base/area_alloc.c:709-775 | A lookup begun after an element was returned, of its address, ends with the block of that element. |
| AreaConcurrency.HeldDisjoint | src/base/area_alloc.c:362-474 | Elements held at the same time never overlap, and lie between the header and the end of their block. |
| AreaConcurrency.ChangesAreInsertions | src/base/area_alloc.c:642-697 | A step that changes the published blocks adds one new block, exactly where insertion on values puts it. |
| AreaConcurrency.MarkedIffOwned | src/base/area_alloc.c:362-588 | In every state an entry of a published block is marked if and only if a caller or a thread holds it. |
| AreaConcurrency.FreeClears | src/base/area_alloc.c:569-571 | The step of a free that clears its entry clears that mark and no other. |
| AreaProgress.CanTake | src/base/area_alloc.c:372-424 | A thread that asks the hint block, a scanned block or the changed hint block can take any free entry of it. |
| AreaProgress.CanAllocate | src/base/area_alloc.c:362-474 | Every run can go on so that an idle thread allocates a given free entry, and nothing else changes. |
| AreaProgress.FirstAllocation | src/base/area_alloc.c:362-474 | From a new area a run leaves any one entry allocated and the blocksets as they were. |
| AreaProgress.CanGrow | src/base/area_alloc.c:409-451 | With the mutex free, every run can go on so that a block at any free address is added and an entry of it allocated. |
| AreaProgress.CanFree | src/base/area_alloc.c:515-588 | Every run can go on so that an idle thread frees a given element, and nothing else changes. |
| AreaProgress.CanLookUp | src/base/area_alloc.c:709-775 | Every run can go on so that an address is looked up and answered by its block, or by none if there is none. |
| AreaProgress.CanMoveHint | src/base/area_alloc.c:573-578 | A thread that finds the hint as it read it can move it to its block. |
| AreaProgress.LookupEnds | src/base/area_alloc.c:709-775 | A lookup left alone ends, from any of its steps. |
| AreaConcurrency.MutualExclusion | src/base/area_alloc.c:409-451 | At most one thread is between locking and unlocking; blocksets are in order and the hint is a registered block in every state. |
| AreaConcurrency.CanMove | src/base/area_alloc.c:362-775 | In a good state no guard on an index or a list end stops a thread. |
| AreaConcurrency.NeverStuck | src/base/area_alloc.c:362-775 | In every run a thread can move, or it waits for the mutex and the holder can. |
| AreaConcurrency.RunsExist | src/base/area_alloc.c:152-243 | From any first block, with any threads, there are runs of every length. |
| BinaryHeap.RootIsMax | src/base/binaryheap.c:57-102 | Heap order makes the root a maximum. |
| BinaryHeap.SiftUpRestores | src/base/binaryheap.c:58-72 | Sifting up mends a heap that is wrong at one element only. |
| BinaryHeap.SiftDownRestores | src/base/binaryheap.c:81-102 | Sifting down mends a heap, or the part built so far, that is wrong below one element only. |
| BinaryHeap.SiftDownKeeps | src/base/binaryheap.c:81-102 | Sifting down keeps the elements. |
| BinaryHeap.SiftUpKeeps | src/base/binaryheap.c:58-72 | Sifting up keeps the elements. |
| BinaryHeap.WithoutRootKeeps | src/base/binaryheap.c:306-332 | Taking out the root keeps the rest and the heap order. |
| BinaryHeap.KeepsTheSmallest | src/base/binaryheap.c:251-272 | After any run from the empty heap the kept and the given-up elements make up the inputs, and no kept one exceeds one given up. |
| BinaryHeap.KeepSmallest | src/base/binaryheap.c:251-272 | Bounded insertion of any sequence into a new heap of capacity k keeps its k smallest elements and gives up the rest. |
| BinaryHeap.SortStep | src/base/binaryheap.c:380-399 | A round of the sort keeps the elements and the partition into heap and sorted part. |
| BinaryHeap.PartitionedIsSorted | src/base/binaryheap.c:380-399 | When one element is left in the heap part, all are ascending. |
| BinaryHeap.Heap.constructor | src/base/binaryheap.c:116-151 | A new heap is empty and consistent. |
| BinaryHeap.Heap.UpHeap | src/base/binaryheap.c:58-72 | The recursion in place equals sifting up on values. |
| BinaryHeap.Heap.DownHeap | src/base/binaryheap.c:81-102 | The recursion in place terminates and equals sifting down on values. |
| BinaryHeap.Heap.Add | src/base/binaryheap.c:186-202 | Appends unless full; the state is inconsistent either way. |
| BinaryHeap.Heap.Insert | src/base/binaryheap.c:211-237 | Keeps the heap consistent and adds exactly the element, or reports a full heap. |
| BinaryHeap.Heap.TryInsert | src/base/binaryheap.c:251-272 | Accepts while there is room, then replaces the maximum exactly when it is greater. |
| BinaryHeap.Heap.BuildHeap | src/base/binaryheap.c:280-297 | Makes a heap of any array, with the same elements. |
| BinaryHeap.Heap.ExtractMax | src/base/binaryheap.c:306-332 | Removes the root, a maximum when the heap is consistent, and keeps the order. |
| BinaryHeap.Heap.ReplaceMax | src/base/binaryheap.c:342-350 | Replaces the root and keeps the order. |
| BinaryHeap.Heap.PeekMax | src/base/binaryheap.c:359-370 | Returns the root, a maximum when the heap is consistent. |
| BinaryHeap.Heap.MoveRootBack | src/base/binaryheap.c:380-399 | One round of the sort in place. |
| BinaryHeap.Heap.ToSortedArray | src/base/binaryheap.c:380-399 | An ascending permutation of a heap, with the original count. |
| Base64.TablesInverse | src/base/base64.c:58-88 | The encoding and the decoding table undo each other. |
| Base64Text.MapIsAlphabet | src/base/base64.c:58-62 | The encoding table is the alphabet of RFC 4648, written out. |
| Base64Text.SpaceCodes | src/base/base64.c:64-88 | The codes skipped are exactly 9 to 13, 32 and 160. |
| Base64Text.LetterCodes | src/base/base64.c:64-88 | The decoding table gives each letter its place in the alphabet, and no other code a place. |
| Base64Text.PlainText | src/base/base64.c:558-606 | Each character holds its six bits of the source, zero beyond the end, and code 61 fills the last four. |
| Base64Text.EncodedText | src/base/base64.c:504-606 | The same for the text in lines: a code 10 after every 76 characters, and the total length. |
| Base64Text.DecodeLaw | src/base/base64.c:154-466 | The text without white space is empty, or accepted exactly when it is a multiple of four letters of which the last one or two may be codes 61. |
| Base64Text.WhiteSpaceIsSkipped | src/base/base64.c:295-325 | White space changes no answer. |
| Base64Text.OtherCodesAreInvalid | src/base/base64.c:154-280 | Any code that is no white space, no letter and no 61 makes the input invalid. |
| Base64Text.DecodedText | src/base/base64.c:339-466 | Every bit of the answer is that bit of its letter, spare bits or not, and padding takes one byte each. |
| Base64.FindBase64 | src/base/base64.c:128-138 | The search returns the value that the decoding table gives. |
| Base64.GetEncodeLen | src/base/base64.c:474-492 | Computes the encoded length. |
| Base64.EncodeLenIsExact | src/base/base64.c:474-492 | The length is exact if and only if the source is not empty, and -1 for the empty one. |
| Base64.EncodeLenFitsInt | src/base/base64.c:474-492 | A 32-bit int holds the length if and only if the source has at most 1589695686 bytes. |
| Base64.LineBreaks | src/base/base64.c:558-606 | Newlines stand exactly after every 76 other characters. |
| Base64.GatherGroup | src/base/base64.c:580-594 | Packs up to three bytes, first on top. |
| Base64.WriteBlock | src/base/base64.c:596-600 | Writes four characters or padding and nothing else. |
| Base64.EncodeLocal | src/base/base64.c:558-606 | Writes exactly the encoding broken into lines, and nothing beyond. |
| Base64.Encode | src/base/base64.c:504-544 | The buffer is the computed length, the encoding and a terminator. |
| Base64.RemoveSpace | src/base/base64.c:295-325 | Copies the characters that are not white space, in order. |
| Base64.MakeChunk | src/base/base64.c:219-227 | The sextets of four characters, zero for padding, and the padding count. |
| Base64.PartitionIntoChunk | src/base/base64.c:154-280 | Succeeds exactly when every chunk passes; then gives the chunks and the decoded length. |
| Base64.FitsIsWellFormed | src/base/base64.c:154-280 | The checks of the loop accept exactly the well-formed texts. |
| Base64.DecodeChunk | src/base/base64.c:339-373 | Writes the bytes of all chunks and nothing beyond. |
| Base64.Decode | src/base/base64.c:389-466 | Empty input, invalid input or the decoded bytes, decided by the stripped text alone. |
| Base64.PlainDecodes | src/base/base64.c:339-606 | Characters encoded without line breaks are well formed and decode to the source. |
| Base64.RoundTrip | src/base/base64.c:389-606 | Decoding an encoding succeeds and gives the source back, for every non-empty source. |
| Base64.EncodedLines | src/base/base64.c:558-606 | No line of an encoding is longer than 76 characters. |
| Base64.PlainOfDecoded | src/base/base64.c:339-606 | Encoding the decoded bytes gives the text back if and only if the spare bits of its last chunk are zero. |
| Base64.Reencode | src/base/base64.c:389-606 | The same for any accepted input, stripped and broken again into lines. |
| BitCounting.PairCounts | src/base/bit.c:306-312 | The first step counts in fields of two bits. |
| BitCounting.NibbleCounts | src/base/bit.c:306-312 | The second step counts in fields of four bits. |
| BitCounting.ByteCounts | src/base/bit.c:306-312 | The third step counts in bytes, without carries. |
| BitCounting.TopByteIsTotal | src/base/bit.c:306-312 | The top byte of the wrapped product is the sum of all bytes. |
| BitCounting.LadderCounts | src/base/bit.c:306-312 | For words of up to eight bytes the four steps give the bit count, and no sum overflows. |
| BitCounting.CountOnes32 | src/base/bit.c:306-312 | Equals the recursive count of one bits. |
| BitCounting.CountOnes64 | src/base/bit.c:453-459 | Equals the recursive count of one bits. |
| BitScanning.OnesComplement | src/base/bit.c:315-318 | A complement has the remaining bits. |
| BitScanning.CountZeros32 | src/base/bit.c:315-318 | 32 less the one bits. |
| BitScanning.CountZeros64 | src/base/bit.c:462-465 | 64 less the one bits. |
| BitScanning.LowestBit | src/base/bit.c:331-339 | A word and its negation share exactly the lowest one bit. |
| BitScanning.MaskBit | src/base/bit.c:341-360 | The test masks hold exactly the positions in the low halves of their fields. |
| BitScanning.CountTrailingZeros32 | src/base/bit.c:321-361 | The position of the lowest one bit, 32 if there is none. |
| BitScanning.CountTrailingZeros64 | src/base/bit.c:468-512 | The position of the lowest one bit, 64 if there is none. |
| BitScanning.CountTrailingOnes32 | src/base/bit.c:364-367 | The position of the lowest zero bit, 32 if there is none. |
| BitScanning.CountTrailingOnes64 | src/base/bit.c:515-518 | The position of the lowest zero bit, 64 if there is none. |
| BitScanning.NarrowOnce | src/base/bit.c:378-403 | A test of the upper half keeps the position of the highest bit. |
| BitScanning.CountLeadingZeros32 | src/base/bit.c:370-409 | The number of leading zeros if and only if the word is zero; one less otherwise. |
| BitScanning.CountLeadingZeros64 | src/base/bit.c:521-565 | The number of leading zeros if and only if the word is zero; one less otherwise. |
| BitScanning.OnesTableCounts | src/base/bit.c:36-51 | The nested macros put the bit count of every index in the table, at every level. |
| BitScanning.ByteTables | src/base/bit.c:40-65 | The tables of 256 entries count the ones and the zeros of every byte. |
| BitScanning.TableTotalIsOnes | src/base/bit.c:36-57 | The table entries of the bytes of a word add up to its bit count. |

## Left out

- CRC: the branchless variant of the bit loops, and the catalogue of named parameter sets.
- CRC: parameters that do not fit in CRCWidth bits, and types of fewer than eight bits; CRCType is any width from eight up.
- The pool: shared memory, mapping and naming in `DMRB::prepare`; that an address means its cell modulo the capacity is the meaning given to addresses here. The thread-safe variant of the buffer is not part of this model.
- MemoryPool.DMRBMemoryPool.Commit: requires that the head stays below 2^64, because the ordered map and the comparison with the tail rely on offsets that do not wrap; a commit of length zero leaves no segment to return.
- MemoryPool.DMRBMemoryPool.Restore: takes segments of the ledger only, as the callers must return what they were given.
- The area allocator: the debugging prefix and the checks of builds with assertions, `area_destroy`, `area_flush`, `area_info`, `area_dump`, the list of areas and its mutex; `area_validate` adds only an error code to the lookup.
- AreaAllocator.Area.Alloc: addresses from malloc are parameters that must overlap no registered block; the usage ratio is a real, so the rounding of a float product is not modelled, and any positive ratio is allowed where the source fixes 1.0, or 0.95 in server builds.
- AreaRuns.Call: an answer of malloc that would overlap a registered block counts as a failure of malloc, which gives no such address.
- AreaConcurrency: a bitmap request is one step, as its compare-and-swap on a word is, and may fail at any time; memory is sequentially consistent; callers free only elements they hold; the counters are not shared state.
- LockFreeBitmap.Bitmap.GetEntry: run by one thread at a time, so the retry after a lost compare-and-swap and the drift of the usage count between threads are not modelled; the style that uses one chunk is not either.
- The heap: a comparator that answers an error, copying of elements by size, allocation failure, and the consistency test used in assertions.
- BinaryHeap.Heap.Insert: requires a consistent or empty heap, as the assertion in the source does.
- Base64.Encode: requires a non-empty source; for an empty one the computed length is -1 and the terminator has no place (`Base64.EncodeLenIsExact`). Allocation failure is not modelled.
- Base64.RemoveSpace: requires one readable cell behind the source, because the loop reads it before it compares the index.
- Base64.Decode: requires one readable cell behind the source too, since it strips white space with the loop above.
- Base64: lengths are unbounded numbers except in `Base64.EncodeLenFitsInt`.
- Bit counts: the 8- and 16-bit trailing and leading counts, and the set, clear and test helpers, which would only add easy members.
