# VisualOS: memory management, paging, scheduling and symbols

VisualOS is an x86_64 kernel with a copy of dlmalloc 2.8.6. This project models its four hard cores and a smaller
one, and proves what each of them promises:

* **dlmalloc**: a heap with boundary tags, small bins as rings, 32 bitwise tries of large chunks with rings of equal
  sizes, two bin maps, a designated victim, a top chunk, segments that grow, join and are added, and directly mapped
  chunks. `HeapChecks` derives what the debug code of malloc.c tests from the invariant `HeapState.Sound`. The main
  result is `Runs.Run`: every run of a program, whatever it does, whatever memory the system gives and whatever is in
  that memory, keeps the heap well formed, treats the blocks as independent buffers that no word of the allocator
  overlaps, loses no memory but the records of the segments, and refuses a request only if nothing that is free has room
  and the system gives no memory.
* **Page frames**: a bitmap with a moving search index (`FrameRuns.Run`, `FrameRuns.LowestExactly`).
* **Page tables**: a tree of tables in frames from the frame allocator, which refines a map from virtual pages to
  frames and a set of writable pages; every operation says exactly when there are enough frames for its tables
  (`AddressSpaces.Run`, `PagingInit.Init`).
* **Scheduler**: three rings shared by any number of processors (`Smp.AlwaysSafe`, `Scheduler.Queues.NextTask`), and
  what one processor does for a waiting task (`RoundRobin.InTurn`).
* **Symbols**: an insertion-sorted index and a binary search (`Symbols.Build`, `Symbols.Resolve`).

`dafny verify dfyconfig.toml` checks everything.

## How the model is laid out

* Memory is kept as one map per field, by address: `head` and `foot` for chunk headers, `Links` for the links of free
  chunks, `tables` for page tables, `next` and `previous` for scheduler nodes. When memory is handed over to the program,
  or a chunk leaves its bin, the words in it leave these maps: from then on the allocator can neither read nor write
  them. The invariant says that no word in these maps lies in a block that the program holds
  (`UserWrites.HeldIsPrivate`), which is why the bytes of the program can be kept in a map of their own.
* dlmalloc is taken in the configuration of its Makefile: 64-bit words, 16-byte alignment, no `MORECORE`, no locks, no
  footers. `mmap` is a parameter: it fails with `MFAIL`, or returns a page-aligned region that overlaps nothing in use and
  may contain anything. (The kernel's own `sys_mmap` passes on NULL when it finds no frames, which malloc.c does not take
  for a failure; that case is not modelled.) The regions lie in a window of 2^40 bytes that may
  start anywhere (`Chunks.WINDOW`), because the order of the tree bins needs sizes below 2^40 (`TreeIndex.BracketsExactly`
  says what happens above).
* Where malloc.c tests for corruption, the model asserts that the test passes: addresses are not below `least_addr`, the
  next chunk lies behind, in-use bits are set and links point back.
* Some operations pass through a state that the source does not write down (a remainder is marked as in use before it
  is disposed of, the designated victim is cleared before it is set again); the state at the end is the same.
* Bytes of the program are a map that only `dlcalloc`, `dlrealloc`, the program's own writes and, outside the buffers,
  the system change.
* Each public call of the frame allocator is one step. In the scheduler, the release half of `scheduler_next_task` and
  each scan of one queue are one step each, and anything may happen in between. The guard at
  `src/kernel/scheduler/scheduler.c:170` masks with a bit number that is zero, so it never skips a queue, and the model
  has no such guard.
* When `pageframe_request` finds no frame for a page table, the source goes on with page 0; the model stops there, and
  says exactly when this happens (`Paging.Built`; `Paging.OutOfFrames` is an input where it does).
* The source and its comments differ where the model follows the code: `bitmap_get` and `bitmap_set` let one index
  behind the range through, the unsigned inner index of the insertion sort never stops at the start, `dlcalloc` does not
  clear mapped chunks, although a system may give memory again that is not clear, and `scheduler_free_task` leaves `first`
  on a node that is gone if it was the first of several.

## Model

| member | source | states |
|---|---|---|
| `Runs.Run` | src/libraries/dlmalloc/malloc.c:4539-4957 | Every run of malloc, calloc, memalign, realloc, free and of writes by the program, against every system that answers mmap honestly and leaves anything whatever in memory that no buffer occupies: at every moment the heap is well formed (tiling, tags, bins, tries, maps, victim, top, segments), the chunks in use are exactly those of the live blocks, one each, and one record of fixed size before the fenceposts of each segment that has them; the live blocks are 16-byte aligned, share no byte with one another or with a head, foot or link of the allocator, and unless mapped their chunk is less than 32 above the padded request; segments change only by the one region that mmap returned for the size that this command asks for, and mappings gain only the region that it returned for a mapping of that size; each command affects the blocks as if they were separate buffers (malloc gives what was in memory, realloc keeps the common prefix, calloc gives zeros unless the chunk is mapped, memalign aligns), and it is refused if and only if nothing that is free has room and the system gives no memory; the last moment is that of the allocator returned |
| `Runs.Step` | src/libraries/dlmalloc/malloc.c:4539-4957 | One command has its effect, or is refused under exactly that condition, uses only memory that it had or that the system gave for it, writes no byte outside the buffers, and keeps the link between the heap and the buffers: every buffer is a held chunk of its own, every held chunk is a buffer, and the bytes are there |
| `Runs.TraceStep` | src/libraries/dlmalloc/malloc.c:4539-4957 | Every command of a run is such a step, with the answers of the system for the moment before it, and what is outside the buffers is left to the system |
| `Runs.MallocMeans` | src/libraries/dlmalloc/malloc.c:4539-4673 | In a run, malloc is refused exactly under the condition in numbers, and then nothing changes; else there is one more buffer of exactly that many bytes, and all others are as they were |
| `Runs.CallocMeans` | src/libraries/dlmalloc/malloc.c:4786-4799 | In a run, calloc is refused exactly if malloc refuses the exact product (2^64 - 1 if it does not fit), else there is one more buffer, of zeros unless mapped |
| `Runs.MemalignMeans` | src/libraries/dlmalloc/malloc.c:4885-4957 | In a run, memalign is refused exactly under the condition in numbers, else there is one more buffer, aligned |
| `Runs.ReallocMeans` | src/libraries/dlmalloc/malloc.c:5180-5223 | In a run, realloc is refused exactly if the size is at least 2^64 - 128, or the chunk cannot be resized in place and malloc refuses; else one buffer changes and its common prefix is kept |
| `Runs.WriteAndReleaseMean` | src/libraries/dlmalloc/malloc.c:4681-4784 | In a run, free takes exactly the one buffer away, and a write changes exactly one byte of one buffer |
| `Runs.ValidIndependent` | src/libraries/dlmalloc/malloc.c:3282-3293 | What the allocator keeps about its chunks implies that the buffers are aligned and disjoint |
| `Runs.ValidOrderly` | src/libraries/dlmalloc/malloc.c:3282-3293 | It also implies that chunks fit their buffers and that no word of the allocator overlaps a buffer |
| `DlMalloc.Malloc` | src/libraries/dlmalloc/malloc.c:4539-4673 | Fails exactly if no free chunk and not the top chunk has room and the system gives no memory, and then changes nothing; otherwise exactly one block is newly held, 16-byte aligned, with at least the bytes asked for and, in a segment, a chunk size from the padded request to less than 32 above it; it is mapped directly exactly if nothing fits, the request is at least 256 KiB and the system gives a mapping; the segments are the same or have grown by exactly the answer to the one call of mmap for this size; the whole heap invariant is kept, by which no chunk is in use but those held and the records before fenceposts; and in numbers: refused if and only if the request is at least 2^64 - 128, or no free chunk has the padded size nb, top is not larger, mmap fails for nb + 96 rounded up to 64 KiB (or that wraps) and no mapping is due (nb below 256 KiB, no top, mmap fails for nb + 63 rounded up to pages, or that wraps); a mapped chunk is exactly the region but for its last 32 bytes; a chunk from a new region is the old top if the region lies right behind it, else the start of the region |
| `DlMalloc.RefusesMeans` | src/libraries/dlmalloc/malloc.c:4569-4669 | When malloc refuses, in numbers, for every heap and every request |
| `DlMalloc.DirectMeans` | src/libraries/dlmalloc/malloc.c:4038-4044 | When a request gets a mapping of its own, in numbers |
| `Allocate.FromFree` | src/libraries/dlmalloc/malloc.c:4569-4662 | dlmalloc before sys_alloc finds room exactly if some free chunk or the top chunk has room; the chunk chosen is the best fit over all bins and the designated victim, except that a small request prefers the designated victim to splitting a binned chunk, and top is used only if nothing else fits; block by block: an exact fit in a small bin comes first, a small request then takes the designated victim if it fits, a large one takes the victim unless a binned chunk is strictly better; afterwards the victim is the remainder if the victim was split or the request was small and at least 32 bytes are left, none if it was used up, and else as before |
| `Allocate.Search` | src/libraries/dlmalloc/malloc.c:4570-4660 | The same for a padded size: bins, then the designated victim, then top |
| `Allocate.TrySmall` | src/libraries/dlmalloc/malloc.c:4570-4622 | The small bins, then the tries: what is returned fits best; nothing is returned only if the designated victim fits or nothing binned does; a remainder of at least 32 bytes becomes the designated victim, and while the victim fits only an exact fit is taken |
| `Allocate.TryLarge` | src/libraries/dlmalloc/malloc.c:4429-4490 | The best fitting binned chunk, unless the designated victim is at least as good, with the wrapping subtraction dvsize - nb, and the victim stays as it is; what is taken is strictly smaller than a victim that fits |
| `Allocate.TryDvOrTop` | src/libraries/dlmalloc/malloc.c:4632-4660 | Splits or exhausts the designated victim if it fits, else splits top if it is larger than the request; the remainder stays the victim if it has at least 32 bytes, else there is none; top moves up by the request |
| `Allocate.Carve` | src/libraries/dlmalloc/malloc.c:4477-4484 | Splitting a free chunk for a request keeps the heap well formed; a remainder below 32 bytes is left in the chunk; a larger one becomes the designated victim or is binned, as the caller asks, and in the latter case the victim stays as it is |
| `Allocate.Padded` | src/libraries/dlmalloc/malloc.c:2222-2231 | request2size: a multiple of 16, at least the request plus overhead, and less than 16 above that unless minimal |
| `DlMalloc.Free` | src/libraries/dlmalloc/malloc.c:4681-4784 | Exactly the block given back is no longer held, and the heap invariant is kept; in a segment it is merged with the free chunk before and the free chunk or top behind it, exactly; what is merged with the designated victim is the victim, with the size of the whole, a victim that goes into top is none any more, and else the victim stays as it is; a mapped block is unmapped and nothing else changes |
| `DlMalloc.HeldPasses` | src/libraries/dlmalloc/malloc.c:4697-4727 | ok_address, ok_inuse, ok_next and ok_pinuse, which dlfree and try_realloc_chunk test, hold of every chunk that the program holds, so that their error branches are not reached |
| `Release.Dispose` | src/libraries/dlmalloc/malloc.c:4358-4424 | dispose_chunk: exactly the given chunk stops being in use; the merged chunk starts at the free chunk before, if any, and ends with the free chunk or top behind; it is the designated victim if and only if it took in the victim and is not top, with exact sizes of victim and top; no two free chunks are adjacent, and tags and bins are right |
| `Release.TakePrevious` | src/libraries/dlmalloc/malloc.c:4700-4719 | Consolidation backward takes the free chunk before out of its bin or out of the designated victim, and tells whether it was the victim |
| `Release.SplitUsed` | src/libraries/dlmalloc/malloc.c:4820-4822 | Two set_inuse calls cut a chunk in use into two chunks in use |
| `DlMalloc.HeldApart` | src/libraries/dlmalloc/malloc.c:2055-2160 | Blocks that the program holds do not overlap, nor does one reach the head word of the next |
| `BlockContents.Calloc` | src/libraries/dlmalloc/malloc.c:4786-4799 | Fails exactly if malloc fails for the exact product, and always if the product exceeds size_t; the bytes of the new block are zero if and only if the chunk is not mapped or the mapping read as zero; no other byte changes |
| `BlockContents.CallocNotZero` | src/libraries/dlmalloc/malloc.c:4797-4798 | malloc(1), malloc(300000), a write, free, calloc(1, 300000): with a system that gives the same place again, calloc returns memory that is not zero |
| `Bytes.ProductChecked` | src/libraries/dlmalloc/malloc.c:4789-4793 | The overflow test with its shortcut for factors below 2^16 yields the exact product if it fits and all ones if and only if it does not |
| `BlockContents.Realloc` | src/libraries/dlmalloc/malloc.c:5180-5223 | In place or moved: only this block changes, it has at least the bytes asked for and, unless mapped, a chunk less than 32 above the padded request, and its first min(old, new) bytes are kept; it fails if and only if the request is too large, or cannot be met in place and malloc fails, and then nothing changes; without a block it is malloc; the block stays where it is if and only if it can be resized there |
| `BlockContents.ResizeInPlace` | src/libraries/dlmalloc/malloc.c:4806-4883 | try_realloc_chunk: for a chunk of size s and padded request nb in a segment it succeeds if and only if nb <= s, or top follows and nb < s + topsize, or a free chunk follows and nb <= s + its size; for a mapped chunk if and only if nb >= 256 and nb + 8 <= s <= nb + 0x20000 |
| `Resize.TryResize` | src/libraries/dlmalloc/malloc.c:4813-4877 | In-place growth into top, the designated victim or the next free chunk, or shrinking: succeeds exactly if there is room, changes only the size of this chunk, to less than 32 above the request; the designated victim and top lose or gain exactly what this chunk takes or gives back |
| `Resize.GrowIntoTop` | src/libraries/dlmalloc/malloc.c:4826-4836 | Extending into top leaves an exact new top |
| `Memalign.Memalign` | src/libraries/dlmalloc/malloc.c:4885-4957 | For alignments up to 2^63: a new block at a multiple of the alignment (rounded up to the least power of two), chunk size from the padded request to 32 above it, with both pieces cut off given back and the heap well formed; mapped chunks are moved inside their mapping and stay large; fails if and only if the request is too large or malloc fails for it with its slack; in numbers: the power of two is at least 32, and it is refused if and only if bytes plus alignment reach 2^64 - 128 or malloc refuses the padded size plus alignment plus 24 |
| `Memalign.AlignChunk` | src/libraries/dlmalloc/malloc.c:4906-4934 | The chunk itself if its memory is aligned, else the aligned spot from 32 to alignment + 16 bytes in, whose leading piece, a whole chunk, is given back; what remains has room for the request |
| `Memalign.Trim` | src/libraries/dlmalloc/malloc.c:4937-4946 | Spare room behind the block is given back, down to exactly the padded request, if and only if it is more than 32 bytes and the chunk is not mapped |
| `Alignment.PowerFor` | src/libraries/dlmalloc/malloc.c:4887-4893 | The least power of two that is not below the alignment, and the alignment itself if it is one |
| `Alignment.LoopEnds` | src/libraries/dlmalloc/malloc.c:4889-4893 | The loop that doubles a until it reaches the alignment ends if and only if the alignment is at most 2^63, because the shift loses the bit |
| `Alignment.AlignedSpot` | src/libraries/dlmalloc/malloc.c:4914-4921 | The masked address is aligned, and at least 32 and at most alignment + 16 bytes into the chunk |
| `Alignment.PowerTest` | src/libraries/dlmalloc/malloc.c:4889-4889 | x & (x - 1) is zero exactly for powers of two |
| `SysAlloc.SysAlloc` | src/libraries/dlmalloc/malloc.c:4032-4238 | Fails exactly if the padded size wraps or the system gives no memory (for a direct mapping and for a segment), and then changes nothing; otherwise the request is served, from a mapping of its own or from a region that joins the heap; from a new region the chunk is the old top if the region lies right behind it, else the start of the region |
| `SysAlloc.SegmentSizeChecked` | src/libraries/dlmalloc/malloc.c:4047-4049 | The test asize <= nb catches every wrap-around of the padding and rounding and refuses nothing else |
| `SysAlloc.MappingSizeChecked` | src/libraries/dlmalloc/malloc.c:3822-3828 | The test mmsize > nb catches every wrap-around and refuses nothing else |
| `SysAlloc.SizesAskedFor` | src/libraries/dlmalloc/malloc.c:4047-4047 | The sizes asked for, in numbers: nb + 96 rounded up to 64 KiB, and nb + 63 rounded up to 4096; refused exactly if these wrap |
| `SysAlloc.DirectMap` | src/libraries/dlmalloc/malloc.c:3821-3850 | mmap_alloc: a chunk with a mapping of its own, disjoint from everything else; least_addr is lowered if need be |
| `SysAlloc.UseRegion` | src/libraries/dlmalloc/malloc.c:4168-4233 | A fresh region, wherever it lies, always leaves room for the request: the allocation succeeds, at the old top if the region lies right behind it and else at the start of the region |
| `SysAlloc.Extend` | src/libraries/dlmalloc/malloc.c:4173-4221 | First segment; growth of the segment of top if and only if the region lies right behind it, which leaves top where it is; else left to prepend_alloc if and only if a segment starts where the region ends; else a new segment that is the new top. The program holds what it held, and least_addr is lowered exactly as in the source |
| `SysAlloc.Append` | src/libraries/dlmalloc/malloc.c:4196-4202 | The segment of top and top itself grow by the region |
| `SysAlloc.Prepend` | src/libraries/dlmalloc/malloc.c:3935-3974 | prepend_alloc: the request from the front of the region, the rest merged with the first chunk of the segment behind it; the rest joins top or the designated victim if that is the first chunk, with exact sizes |
| `SysAlloc.AddSegment` | src/libraries/dlmalloc/malloc.c:3977-4027 | add_segment: in place of the old top there are the segment record, the fenceposts and, if there is room, a free chunk, which is binned; the region is a segment that consists of top; the free chunk exists exactly if the old top had at least 32 bytes |
| `Retire.Fences` | src/libraries/dlmalloc/malloc.c:4004-4014 | The loop writes a fencepost at every word up to the end of the old segment, and at least two |
| `SysAlloc.RecordPlaced` | src/libraries/dlmalloc/malloc.c:3982-3986 | The aligned place for the segment record is the end of top minus its overhead, or top itself if less than a chunk would be left |
| `TrieUnlink.UnlinkLarge` | src/libraries/dlmalloc/malloc.c:3711-3780 | Removes exactly the given chunk in all cases (chained node, chain head, leaf, inner node replaced by its rightmost leaf), keeps order, parent, ring and child links of the trie, and leaves all other chunks alone; a node with a ring is succeeded by the chunk before it on the ring, one without by the leaf that the descent to the right reaches, and the successor gets its parent |
| `TrieUnlink.RightmostLeaf` | src/libraries/dlmalloc/malloc.c:3719-3731 | The inner loop ends at the leaf reached by going right wherever possible, and its slot can be cleared; the links on the way are those of the source: right if there is a right child, else left |
| `TrieUnlink.Relink` | src/libraries/dlmalloc/malloc.c:3745-3777 | The replacement takes over place, parent and children |
| `TrieInsert.InsertLarge` | src/libraries/dlmalloc/malloc.c:3643-3692 | Adds exactly one chunk and keeps the order of the trie: a leaf with a parent if no chunk of its size is there, else on the ring right behind the node of that size; the walk ends |
| `TrieInsert.BitsRemain` | src/libraries/dlmalloc/malloc.c:3657-3683 | Two different sizes of a bin differ in a bit that the shifted key still holds, so that the walk does not run out of bits |
| `Trie.NodeDepth` | src/libraries/dlmalloc/malloc.c:2384-2388 | No node is deeper than the number of bits that tell sizes of the bin apart |
| `TrieSearch.SearchBin` | src/libraries/dlmalloc/malloc.c:4436-4459 | The walk down the bin of the request: best fit so far, and every size not yet excluded lies in the deepest right subtree not taken |
| `TrieSearch.LeastOnLeftmostPath` | src/libraries/dlmalloc/malloc.c:4470-4477 | The least size of a subtree lies on the path that goes left whenever it can |
| `Bins.BestFit` | src/libraries/dlmalloc/malloc.c:4429-4477 | For sizes below 2^40: a chunk of least size at or above the request over all 32 tries, or none exactly if none fits; it is a node of its trie, not a chunk chained to one |
| `Bins.SmallestLarge` | src/libraries/dlmalloc/malloc.c:4500-4515 | The smallest chunk over all tries: the least map bit names the bin, the leftmost path the chunk; it is a node of its trie |
| `Bins.NextTreeBin` | src/libraries/dlmalloc/malloc.c:4460-4468 | left_bits and least_bit name the next non-empty tree bin |
| `Bins.FindSmall` | src/libraries/dlmalloc/malloc.c:4576-4604 | The tests on the shifted small map: a bin that fits without remainder, else the least larger one, else none |
| `Bins.InsertChunk` | src/libraries/dlmalloc/malloc.c:3784-3786 | Exactly one chunk is added, to the bin for its size; map bits are set exactly for non-empty bins |
| `Bins.UnlinkChunk` | src/libraries/dlmalloc/malloc.c:3788-3790 | Exactly one chunk is removed; map bits are set exactly for non-empty bins |
| `Bins.InsertSmall` | src/libraries/dlmalloc/malloc.c:3565-3580 | insert_small_chunk puts the chunk first on the ring of its bin, size / 8, and changes no other bin |
| `Bins.UnlinkSmall` | src/libraries/dlmalloc/malloc.c:3584-3606 | unlink_small_chunk closes the ring, or empties the bin and clears its bit; the other chunks keep their order and no other bin changes |
| `Bins.UnlinkFirstSmall` | src/libraries/dlmalloc/malloc.c:3610-3625 | The first chunk on the ring of a non-empty small bin leaves it, and no other |
| `HeapState.ReplaceDv` | src/libraries/dlmalloc/malloc.c:3629-3638 | replace_dv, which needs a small old designated victim: the new chunk becomes the designated victim and the old one goes to its small bin |
| `TreeIndex.IndexBrackets` | src/libraries/dlmalloc/malloc.c:2832-2844 | For sizes below 2^40 the computed bin satisfies minsize(i) <= S < minsize(i + 1) |
| `TreeIndex.MinSizeMeans` | src/libraries/dlmalloc/malloc.c:2905-2907 | The bins start at 256 and 384 times each power of two |
| `TreeIndex.BracketsExactly` | src/libraries/dlmalloc/malloc.c:2835-2838 | From 2^40 on, where the unsigned int drops high bits, the bin fits the size if and only if the remaining bits happen to name the last bin |
| `TreeIndex.FirstMisplaced` | src/libraries/dlmalloc/malloc.c:2835-2835 | 2^40 is assigned the first bin, which does not fit it |
| `TreeIndex.BinsOrdered` | src/libraries/dlmalloc/malloc.c:2905-2907 | Every size of a lower bin is below every size of a higher bin |
| `TreeIndex.KeyStart` | src/libraries/dlmalloc/malloc.c:2900-2902 | The left shift brings the first bit that tells sizes of the bin apart to the top |
| `BinMaps.LeastBitIndex` | src/libraries/dlmalloc/malloc.c:2925-2942 | x & -x isolates the least set bit, and its index is computed right |
| `BinMaps.LeftBitsAbove` | src/libraries/dlmalloc/malloc.c:2928-2928 | left_bits keeps exactly the bins above |
| `HeapChecks.TraverseSegment` | src/libraries/dlmalloc/malloc.c:3418-3446 | Following the heads through a segment meets every block, each passes its check, no two free chunks are adjacent, and the sizes add up to the size of the segment |
| `HeapChecks.Covered` | src/libraries/dlmalloc/malloc.c:3418-3446 | Every byte of a segment belongs to exactly one block |
| `HeapChecks.FreeChunkChecks` | src/libraries/dlmalloc/malloc.c:3259-3279 | do_check_free_chunk holds of every free chunk: address, size, footer, neighbours in use, and unless it is the designated victim it is in a bin and its neighbours there point back |
| `HeapChecks.InuseChunkChecks` | src/libraries/dlmalloc/malloc.c:3244-3254 | do_check_inuse_chunk holds of every chunk in use in a segment |
| `HeapChecks.MappedChunkChecks` | src/libraries/dlmalloc/malloc.c:3231-3254 | do_check_mmapped_chunk holds of every mapped chunk: not small, whole pages, a fencepost and an empty head behind it |
| `HeapChecks.SmallBinChecks` | src/libraries/dlmalloc/malloc.c:3361-3384 | do_check_smallbin: every chunk of a small bin is a free chunk of the size of the bin, linked to chunks of its size, and followed by a chunk in use |
| `HeapChecks.TreeBinChecks` | src/libraries/dlmalloc/malloc.c:3296-3358 | do_check_treebin and do_check_tree, node by node: index, size bounds of the bin, rings that point back, exactly one chunk of a ring with a parent, parent and child links that agree, and the left child smaller than the right |
| `HeapChecks.BinsCheck` | src/libraries/dlmalloc/malloc.c:3347-3391 | A map bit is set exactly if its bin is not empty, and every binned chunk is a free chunk of the size of its bin |
| `HeapChecks.OneBin` | src/libraries/dlmalloc/malloc.c:3393-3415 | No chunk is in two bins |
| `HeapChecks.DvAndTopCheck` | src/libraries/dlmalloc/malloc.c:3217-3229 | dvsize is exact; top lies in a segment and reaches to its end but for the overhead, its head and the head behind it are right; neither chunk is in a bin |
| `UserWrites.HeldIsPrivate` | src/libraries/dlmalloc/malloc.c:2055-2160 | No head, no foot and no link that the allocator keeps overlaps a byte of a block that the program holds |
| `UserWrites.WritesDoNoHarm` | src/libraries/dlmalloc/malloc.c:2055-2160 | Whatever the program writes to the blocks it holds, every head, foot and link that the allocator keeps is still there |
| `UserWrites.AllocatorWritesOutside` | src/libraries/dlmalloc/malloc.c:2055-2160 | Between two such moments no word that the allocator wrote, changed or dropped lies in the block |
| `Bitmaps.Bitmap.constructor` | src/kernel/memory/bitmap.c:12-16 | The bitmap reads as all free |
| `Bitmaps.Bitmap.Get` | src/kernel/memory/bitmap.c:22-33 | The bit for an index in range, the first bit behind the buffer for the one index that the test lets through, and free beyond; it is the bit that the selector picks from byte index / 8 |
| `Bitmaps.Bitmap.Set` | src/kernel/memory/bitmap.c:35-48 | Changes exactly the bit for the index, if the test lets it through, by setting or clearing the selector in byte index / 8 |
| `Bitmaps.SelectorIs` | src/kernel/memory/bitmap.c:27-28 | The selector is 128 shifted down by index mod 8: most significant bit first |
| `PageFrames.PageFrameAllocator.Manipulate` | src/kernel/memory/pageframe.c:79-84 | Sets the state of one page; succeeds also if nothing changes |
| `PageFrames.PageFrameAllocator.Request` | src/kernel/memory/pageframe.c:86-101 | The first free page from the index on, which it marks and counts; nothing only if there is none; it is the lowest free page, or nothing only because all are used, if and only if no free page lies below the index |
| `PageFrames.PageFrameAllocator.RequestPages` | src/kernel/memory/pageframe.c:102-125 | The search that skips past each page in use finds the least start from the index on whose whole run is free, as the naive scan does |
| `PageFrames.RunFreeMeans` | src/kernel/memory/pageframe.c:105-112 | A run is free exactly if no existing page of it is in use, nor the bit behind the bitmap if it reaches that far |
| `PageFrames.PageFrameAllocator.Free` | src/kernel/memory/pageframe.c:127-141 | Marks exactly the pages as free, counts them, and moves the index back |
| `PageFrames.PageFrameAllocator.Lock` | src/kernel/memory/pageframe.c:143-152 | Marks exactly the pages as used and counts them |
| `PageFrames.FreeFromMeans` | src/kernel/memory/pageframe.c:86-101 | The frames that can still be handed out are the free pages from the index on |
| `PageFrames.RunsStayInside` | src/kernel/memory/pageframe.c:105-112 | With the last page in use, no run found passes the end of the bitmap |
| `PageFrames.FoundInside` | src/kernel/memory/pageframe.c:105-112 | The pages found exist if and only if some run of existing pages from the index on is free |
| `PageFrames.RunsCanPassTheEnd` | src/kernel/memory/bitmap.c:22-25 | Without that, a search can return pages that do not exist, because indices out of range read as free |
| `FrameRuns.Run` | src/kernel/memory/pageframe.c:86-152 | Every run of clients that give back only what they own: no page has two owners, owned pages are marked, the used size is its start plus 4096 per owned page; every request gets the first run from the index on and is refused only if there is none; while only single pages are requested nothing is free below the index |
| `FrameRuns.TransitionMeans` | src/kernel/memory/pageframe.c:86-152 | Each command of a run, page by page: what is handed out was free and is exactly the pages that become used, 4096 bytes each; a request is refused exactly if every run of that length from the index on has a page in use; exactly the pages given back become free |
| `FrameRuns.LowestExactly` | src/kernel/memory/pageframe.c:86-101 | For every bitmap: a single request gets the lowest free page, or is refused only when all are used, if and only if no free page lies below the index; and this stays so if and only if it was so |
| `FrameRuns.NothingLost` | src/kernel/memory/pageframe.c:102-125 | A request leaves no free page below the index if and only if, before the request, no page below the first free run of that length from the index on was free, or no page at all if there is no such run; and the pages handed out start there |
| `FrameRuns.RunsLosePages` | src/kernel/memory/pageframe.c:106-110 | An input for which it does not: the index moves past free pages, which later single requests then miss |
| `PageTables.SamePage` | src/kernel/memory/paging.c:24-35 | Two addresses take the same path through the tables exactly if they agree in the 36 bits of the page number |
| `PageTables.PathSpells` | src/kernel/memory/paging.c:24-35 | The four indices are the 36 bits of the page number, nine bits each, the highest first |
| `PageTables.MappedIs` | src/kernel/memory/paging.c:89-141 | What a walk of the processor finds is decided by the leaf |
| `PageTables.FlagsOnTheWay` | src/kernel/memory/paging.h:16-18 | The processor translates a page if bit 0 of every word on the way is set, and writes to it if bit 1 is set as well; these are the flags that the code sets |
| `PageEntries.SetsFrame` | src/kernel/memory/paging.c:37-41 | The masks write the low forty bits of the address to the frame field and nothing else |
| `PageEntries.GetsFrame` | src/kernel/memory/paging.c:43-45 | The masks read back the frame field |
| `PageEntries.SetsBit` | src/kernel/kernel.h:20-21 | The xor macro SET_BIT changes one of the low twelve flags of an entry and nothing else |
| `PageEntries.GetsBit` | src/kernel/kernel.h:23-24 | GET_BIT reads one flag |
| `PageEntries.FlagsInWord` | src/kernel/memory/paging.h:16-18 | Present is bit 0 and writable is bit 1 of the 64-bit word, for every entry |
| `PageEntries.StoresPresent` | src/kernel/memory/paging.c:105-106 | The word that paging_map_page stores is the old entry with the frame and the present flag, and with all else as it was |
| `Paging.Pager.MapPage` | src/kernel/memory/paging.c:89-141 | Exactly one virtual page translates differently, to the given frame, with its flags kept, whichever of the three lower tables had to be created; table frames still form an unshared tree; it succeeds if and only if at least as many frames are free from the index on as tables are missing on the path, and takes exactly these; the count is of the prefixes of its path that have no table, and of the free pages of the bitmap from the index on |
| `Paging.Pager.Descend` | src/kernel/memory/paging.c:100-110 | One level: the table that an entry leads to, created in a fresh frame if need be, which fails if and only if it is missing and no frame is left; no translation changes |
| `Paging.OutOfFrames` | src/kernel/memory/paging.c:102-107 | With one page left for the top-level table, every mapping fails, and the request whose result the source uses unseen gives page 0, where the top-level table is |
| `Paging.Pager.Map` | src/kernel/memory/paging.c:142-147 | Consecutive pages are mapped to consecutive frames, all others translate as before; succeeds if and only if there are frames for all tables that are missing |
| `Paging.Pager.SetAttribute` | src/kernel/memory/paging.c:159-181 | Changes the flag of exactly the leaves in the range and no translation; taking away writability, or presence itself, takes it away from exactly the pages below the same top-level entries, where writing means bit 1 of the words that the processor reads |
| `Paging.Pager.SetPageAttribute` | src/kernel/memory/paging.c:160-180 | Exactly the four entries on the way to a page change, in one flag, whichever it is and whether they are present or not |
| `TreeEdits.ClearedExactly` | src/kernel/memory/paging.c:159-181 | Taking writability away from pages takes it away from exactly the pages below the same top-level entries, because upper entries are shared |
| `TreeEdits.CanWriteIs` | src/kernel/memory/paging.c:215-217 | While no entry allows writing below one that does not, the leaf alone decides whether a page can be written to |
| `AddressSpaces.Run` | src/kernel/memory/paging.c:89-181 | Every run of mappings and of calls that make mapped pages writable does what a map from pages to frames and a set of pages do; it gets through if and only if there are as many frames as the mappings need tables, and otherwise stops at the first mapping for which there are not |
| `AddressSpaces.NeededMeans` | src/kernel/memory/paging.c:100-134 | The tables that a run needs are those on the way to some page that it maps |
| `AddressSpaces.BudgetMeans` | src/kernel/memory/paging.c:103-103 | What a run can spend are the tables that exist and the free pages from the index on |
| `AddressSpaces.RunSeen` | src/kernel/memory/paging.c:215-217 | After such a run the processor can write to exactly the pages that some call named, and translates exactly the pages that were mapped |
| `AddressSpaces.LastMappingWins` | src/kernel/memory/paging.c:136-140 | A page translates to the frame of the last mapping for it |
| `PagingInit.Init` | src/kernel/memory/paging.c:53-82 | Every page of physical memory translates to itself, every page of the kernel image to its address minus the virtual base, and the pages that can be written to are exactly the usable regions and the writable part of the image; it succeeds if and only if as many frames are free from the index on as these mappings need tables (see the next rows) |
| `PagingInit.InitialisedMeans` | src/kernel/memory/paging.c:53-82 | The same address by address: v below the memory size translates to page v / 4096, an address of the image to itself minus the virtual base, and the processor can write to a page exactly if it is one of a usable region, or of the image from the writable start to the writable end |
| `PagingInit.InitTablesMeans` | src/kernel/memory/paging.c:53-82 | These tables are the top-level one and those on the way to some page of the image, of a usable region or of physical memory |
| `PagingInit.IdentityMap` | src/kernel/memory/paging.c:149-156 | Exactly the pages of the range are mapped to themselves, if and only if there are frames for the tables |
| `PagingInit.MapKernel` | src/kernel/memory/paging.c:62-68 | The image is mapped page by page and exactly its writable part is made writable, if and only if there are frames for the tables |
| `Scheduler.Queues.Enqueue` | src/kernel/scheduler/scheduler.c:77-91 | The node goes to the end of its ring; the links stay one circular doubly linked ring and num its length |
| `Scheduler.Queues.Dequeue` | src/kernel/scheduler/scheduler.c:92-101 | The node leaves its ring, which closes; first is left on a node that is gone, and begins no ring at all, if and only if the node was the first of several |
| `Scheduler.Queues.FreeTask` | src/kernel/scheduler/scheduler.c:130-136 | scheduler_free_task leaves well-formed queues if and only if the node is not the first of several; nothing happens for null and for the idle node |
| `Scheduler.FirstIsLeftBehind` | src/kernel/scheduler/scheduler.c:130-136 | Two tasks of which the first is freed: first still points to it |
| `Scheduler.Queues.AddTask` | src/kernel/scheduler/scheduler.c:109-128 | A new task at the end of the queue that is asked for, whichever it is, and of no other; it carries the number of that queue and is neither locked nor finished |
| `Scheduler.AddedMeans` | src/kernel/scheduler/scheduler.c:109-128 | The same of the abstract step, for every queue |
| `Scheduler.Queues.Release` | src/kernel/scheduler/scheduler.c:145-162 | The queue goes on behind the current task, which is unlocked, or leaves its ring if it is finished, with first valid; the ring is what was behind the task, then what was before it, then the task itself unless it is finished; no other ring changes |
| `Scheduler.Queues.ScanQueue` | src/kernel/scheduler/scheduler.c:164-186 | The first node in ring order that is neither locked nor finished is locked, or there is none, node by node |
| `Scheduler.Queues.NextTask` | src/kernel/scheduler/scheduler.c:140-194 | Of the lowest-numbered queue that has one, the first unlocked, unfinished node; idle if and only if there is none; all before it in line are locked or finished |
| `Smp.AlwaysSafe` | src/kernel/scheduler/scheduler.c:140-194 | In every interleaving of the steps of any number of processors: a task is current on at most one, its lock is set exactly while it is current, finished tasks are still current, and the rings are well formed |
| `Smp.StepSafe` | src/kernel/scheduler/scheduler.c:140-194 | Each step keeps that invariant |
| `Smp.StepMeans` | src/kernel/scheduler/scheduler.c:109-162 | What one step does, ring by ring and flag by flag; no other processor is affected |
| `Smp.Undisturbed` | src/kernel/scheduler/scheduler.c:140-194 | A processor that steps back and scans without interference ends as scheduler_next_task does: the first ready task of the lowest queue that has one is locked and runs, or idle if none is ready, after at most four scans |
| `Smp.Perform` | src/kernel/scheduler/scheduler.c:140-194 | The code on the linked nodes takes a step if and only if the processor is where the step starts (a task may always be added), then it is a step of the machine, and otherwise nothing changes |
| `RoundRobin.RunAlone` | src/kernel/scheduler/scheduler.c:109-194 | One processor from the start of the system, for every sequence of timer ticks, tasks that finish and tasks that arrive: the code on the linked nodes goes through the states of the next rows |
| `RoundRobin.HappensMeans` | src/kernel/scheduler/scheduler.c:109-128 | What an arrival and an end of the current task do, ring by ring and flag by flag |
| `RoundRobin.DispatchMeans` | src/kernel/scheduler/scheduler.c:140-194 | A dispatch leads to the first task in line, of the lowest queue that has one, that is neither locked nor finished, or to idle |
| `RoundRobin.AlwaysSolo` | src/kernel/scheduler/scheduler.c:145-186 | The current task always leads its queue, is the only one that is locked, and only it can be finished |
| `RoundRobin.Served` | src/kernel/scheduler/scheduler.c:150-186 | A waiting task runs exactly when its queue has had as many turns as the task had places to go, whatever arrives, finishes or goes on in other queues |
| `RoundRobin.InTurn` | src/kernel/scheduler/scheduler.c:150-186 | Round robin: with no work of higher priority it runs after exactly that many dispatches |
| `Symbols.Build` | src/kernel/symbols/symbol.c:67-87 | The insertion sort writes inside its map if and only if the first kept symbol is the least or the record before the map is not greater than the least; then the map is the sorted index and the memory before it is untouched; said of the symbol table itself: one record for each symbol with a value, ordered by address and at the same address by its number, and inside exactly if the first symbol with a value is a least one or the record before is not above any |
| `Symbols.IndexSorts` | src/kernel/symbols/symbol.c:67-87 | The index is a sorted permutation of the symbols that have a value |
| `Symbols.InsideMeans` | src/kernel/symbols/symbol.c:75-85 | When the sort stays inside the map, said of the symbol table |
| `Symbols.IndexMeans` | src/kernel/symbols/symbol.c:67-87 | The records of the index are exactly those of the symbols with a value, strictly ordered by address and number |
| `Symbols.InsertSymbol` | src/kernel/symbols/symbol.c:75-85 | The inner loop moves exactly the greater records up by one |
| `Symbols.LeavesTheMap` | src/kernel/symbols/symbol.c:77-77 | A symbol table of two symbols for which the unsigned index leaves the map |
| `Symbols.Resolve` | src/kernel/symbols/symbol.c:94-115 | Reads only records of the map if and only if there are at least two and the address does not lie before the first; then it finds what the linear scan finds |
| `Symbols.Nearest` | src/kernel/symbols/symbol.c:117-124 | The symbol found is the nearest at or before the address of all symbols that have a value |

## Left out

- release_unused_segments (src/libraries/dlmalloc/malloc.c:4244-4288), which dlfree calls after 4095 large frees: segments are never given back in this model.
- sys_trim, mspaces, locks, footers, statistics, inspect_all, the independent_ and bulk_free routines, MORECORE and mremap: mmap_resize keeps a mapped chunk or gives up.
- Corruption and usage-error branches of dlmalloc: the model has assertions in their place, because the invariant excludes them.
- footprint, max_footprint and the trim threshold of malloc_state: no decision modelled here depends on them.
- Paging.Pager.SetAttribute: does not model flags above bit 11, for which SET_BIT shifts an int too far.
- Paging.Pager.Map: is limited to fewer than 2^19 pages, because the source computes the offset in an int.
- paging_set_cache and the PAT set-up: they only set three flags of the leaf.
- pageframe_init, pageframe_reserve and pageframe_unreserve: the reserved size counts pages twice, so no exact account holds for it.
- Byte-level races between frame locking and freeing, which use different mutex bits.
- Timer ticks, context frames and thread identifiers of the scheduler.
- symbol_lookup beyond the index (string tables and sections), and the scan of the ELF section headers.
- process.c, loader.c, interrupt, timer and bus drivers, boot parsing, shell and text output.
