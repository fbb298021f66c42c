# Panda OS in Dafny

Panda OS is a small 32-bit x86 kernel. This project models the parts of it that keep state in hard
invariants, and proves what they promise over every input and every run:

- **Kernel heap.** `HeapSpec` is the heap as a sequence of chunks with an index of holes, `HeapBytes` what headers
  and footers in memory have to say of it and what each operation writes. `KernelHeap` is the allocator as it is
  written, on 2^32 bytes of memory: a class whose methods read and write byte by byte, proved to do both.
  `HeapRuns` is about whole runs of alloc, free and writes into blocks; `HeapReplay` takes the bytes through such
  runs from `create_heap` on and says exactly which of them stop the kernel; `HeapFaults` has runs that go wrong.
  `HeapSearch` is about the order of the index, best fit, and how often a request has to expand the heap.
  `OrderedArrays` is the index itself, `HeapIndex` how full it can get, `HeapPages` what the heap gets from paging,
  and `HeapFrames` the proof that paging gives just that.
- **Frames and page tables.** `Frames` is the bitset, `Paging` the two-level tables, `FrameRuns` and `PageRuns`
  whole runs of `alloc_frame`, `free_frame` and `get_page`, `Boot` the mapping loops, `Clone` the copying of an address space,
  `ForkStack` when that copies the stack. The split
  of an address into table and entry is that of section 4.3 of the Intel SDM, Volume 3A.
- **Tasks.** `Tasks` is the linked list, `RoundRobin` its fairness, `Interleaving` a machine of small steps in
  which the timer may strike whenever interrupts are on, `ForkResults` what fork returns over whole
  interleavings, `SharedStack` a run that shows what they need,
  `Preemption` that a task does not notice the timer, `TaskSteps` the link between list and machine, `MoveStack` the relocation of the stack.
- **Console.** `Console` shows that the framebuffer is the bottom of a terminal that never forgets a line, and
  that printed numbers read back.
- **Ramdisk.** `Ramdisk` is the writer, `Initrd` the reader; `Strings` and `Mem` are the routines below them,
  `Ram` is memory as bytes.

## Where the code and its intent part

The code is modelled as it stands. Where it does less than it is meant to, the exact condition is proved.

- `alloc` enlarges the hole with the highest address when it expands, even if a block lies behind it
  (src/memory/kheap.c:187-215): sound if and only if `GrowClean` (`KernelHeap.Heap.Grow`), and otherwise what it
  returns overlaps that block (`KernelHeap.Heap.Alloc`; `HeapFaults.BlockBehindHole` is such a heap).
- `free` leaves a stale footer when it absorbs a hole with a chunk behind it (312-314), and `contract` masks with
  the page size (84-87), so a hole at the end that starts too high is cut off: sound if and only if `FreeClean`
  (`KernelHeap.Heap.Free`; `HeapFaults.HoleBetweenBlocks` and `HeapFaults.BlockAboveMinimum` are heaps where it is
  not).
- `free` of the last chunk reads magic and is_hole behind the end of the heap (310-311). If the page there never had a
  frame that is a page fault, as on the kernel's own heap after `Alloc` and `Free` of all of it
  (`HeapFaults.WholeHeapFreed`; `Boot.InitialisePaging` leaves the page behind the heap without a frame). `contract`
  leaves the page at the new end with its frame (94-97) and whatever header lies in it, so the ASSERT at 321 can fail
  without any fault of a caller (`HeapFaults.StaleHeaderHalts`). A page that `contract` gave back stays present and
  shows frame 0. `HeapReplay.Replay` says exactly which runs stop.
- `expand` takes frames without asking whether there are any (73-76): its loop has a defined result if and only if
  there are as many as pages that need one (`HeapPages.EnoughFrames`).
- `insert_ordered_array` does not ask for max_size: entry 0x20000 of the index is the magic number of the first header
  (`HeapIndex.FullIndexOverflows`). A heap that cannot grow to 5 MB never gets there (`HeapIndex.RoomInSmallHeap`).
- `fork` relies on its local `parent_task` being copied for the child (src/process/task.c:163 and 186).
  `clone_directory` copies the stack if and only if its tables are not those of the kernel directory
  (`ForkStack.CloneStack`). Booting leaves the kernel directory as the current one (src/memory/paging.c:128), and
  `move_stack` builds the stack in it (52): then parent and child share one stack (`ForkStack.CloneKernelDirectory`),
  and `fork` can return something else than 0 to a child (`SharedStack.ChildTakesParentsBranch`). The results on
  `fork` are for a stack in tables of the task's own.
- The sums of `expand` and its test of the limit are on 32 bits (62-68): the test passes wrongly if and only if the
  true end lies in 2^32 .. 2^32 + max (`KernelHeap.Heap.Expand`, `HeapReplay.OneGigabyte`). So is the sum of a
  request and its overhead (172; `HeapReplay.RequestWraps`).
- An aligned search compares sizes as signed numbers (117-119): `HeapBytes.HugeHoleRefused`.
- The index is sorted when a hole is inserted and not when one changes in place (lines 210, 306, 332):
  `HeapSearch.LeftMergeOrder` and `HeapSearch.GrowOrder` say exactly when the order survives.
- `expand` adds a page to a length that is already a multiple of the page size (63-66).
- `free_frame` passes a frame number where an address is expected (src/memory/paging.c:82 against 28-33): it
  clears bit 0 and nothing else (`FrameRuns.NoFrameTwice`, `FrameRuns.ZeroAfterFree`).
- `first_frame` has no return when all frames are used (42-55); `alloc_frame` is described for the other case.
- The bitset is sized in bytes instead of words (93-94); it is modelled as 128 zeroed words. The memset of a new
  page table uses the size of a directory (202); it is modelled as zeroing the table.
- `strcpy` copies no terminator, and a first byte whatever it is (src/utils/string.c:21-25):
  `Strings.CopiesString`, `Strings.CopyReadsBack`. Node names therefore need cleared storage and non-empty names.
- `monitor_write_dec` counts down in a signed variable (src/screen/monitor.c:186): nothing is printed from 2^31 on.
- `initrd_read` adds its arguments in 32 bits (src/filesystem/initrd.c:19): right if and only if they do not wrap.
- `initrd_readdir` and `initrd_finddir` on the directory dev give the files of the root.

## Model

| member | source | states |
|---|---|---|
| HeapSpec.CarveKeepsInv | src/memory/kheap.c:220-284 | Turning a fitting hole into a block, with or without a remaining hole, keeps the heap invariant: chunks tile the range exactly, no two holes touch, the index lists every hole once and nothing else |
| HeapSpec.GrowKeepsInv | src/memory/kheap.c:177-215 | A clean expansion keeps the invariant, and the chunks then hold a hole for the request (that the search finds one after every expansion, clean or not, is HeapSearch.UnalignedExpandsOnce) |
| HeapSpec.FreeKeepsInv | src/memory/kheap.c:287-350 | A clean free, with merging on both sides and contraction, keeps the invariant |
| HeapSpec.AllocNext | src/memory/kheap.c:170-285 | The state after any allocation, expanded or not, satisfies the invariant |
| HeapSpec.MergedSpan | src/memory/kheap.c:301-324 | The merged hole covers exactly the freed chunk and the holes that touch it |
| HeapSpec.HoleListed | src/utils/ordered_array.c:37-59 | Every hole of the heap is found in the index |
| HeapSpec.IndexedOnce | src/utils/ordered_array.c:37-59 | No hole is in the index twice |
| OrderedArrays.OrderedArray.constructor | src/utils/ordered_array.c:22-31 | A new index is empty and has the capacity asked for |
| OrderedArrays.OrderedArray.Lookup | src/utils/ordered_array.c:61-64 | The entry at a position of the contents |
| OrderedArrays.OrderedArray.Insert | src/utils/ordered_array.c:37-59 | The item goes before the first entry that is not less than it; everything else keeps its order |
| OrderedArrays.OrderedArray.Remove | src/utils/ordered_array.c:66-72 | Exactly the entry at the position disappears, the rest moves up |
| KernelHeap.Heap.constructor | src/memory/kheap.c:136-168 | create_heap: behind the cleared index one hole fills the heap; its header is the magic number at +0, 1 at +4 and its size at +8; nothing else changes, and the whole invariant of memory, index and chunks holds |
| KernelHeap.Heap.FindSmallestHole | src/memory/kheap.c:103-130 | The position of the first listed hole that fits, aligned or not, with the signed comparison of the aligned branch, -1 exactly when none does, whatever the listed holes look like; in a well-formed heap the first fit of the chunks |
| KernelHeap.Heap.Carve | src/memory/kheap.c:220-284 | Memory afterwards byte for byte, also for a hole that is not sound; in a well-formed heap the written headers and footers spell the split of the hole, the index follows, and every byte of every block is unchanged |
| KernelHeap.Heap.PassesTest | src/memory/kheap.c:61-68 | Both ASSERTs for every 32-bit request: the test of the limit passes wrongly if and only if the true new end lies in 2^32 .. 2^32 + max; from 0x1000 on the new size is the next multiple of 0x1000 above the request, modulo 2^32 |
| KernelHeap.Heap.Expand | src/memory/kheap.c:60-79 | Outcome, new end and pages for every 32-bit request, where there are as many free frames as new pages when the test passes |
| KernelHeap.Heap.MapPages | src/memory/kheap.c:70-76 | The pages after alloc_frame on every new page in turn, frame 0 first if it is free |
| KernelHeap.Heap.Grow | src/memory/kheap.c:177-215 | The expansion in bytes, sound holes or not, as long as the highest hole does not grow past 2^32: afterwards the highest listed hole is larger than the request, and exactly the pages from the old end to the new one have become present; what it leaves is sound if and only if there was no hole or the last chunk is one, and then it is the specified growth and no block changes |
| KernelHeap.Heap.EnlargeHole | src/memory/kheap.c:207-215 | The size field and the footer of the hole are rewritten, memory byte for byte |
| KernelHeap.Heap.AddHole | src/memory/kheap.c:198-206 | Without any hole a new one takes the new space and is the only one listed, memory byte for byte |
| KernelHeap.Heap.HighestHole | src/memory/kheap.c:187-196 | The position of the largest address in the index, none only for an empty index |
| KernelHeap.Heap.Locate | src/memory/kheap.c:170-218 | The recursion of alloc ends: at most one expansion for an unaligned request and two for an aligned one, sound holes or not, and then the first hole that fits, or a failed ASSERT on the limit |
| KernelHeap.Heap.Alloc | src/memory/kheap.c:170-285 | alloc without alignment on every well-formed heap: one expansion exactly when no hole fits, a panic exactly when the grown heap would pass its limit (state unchanged then); what it returns overlaps no live block if and only if a hole fitted, none was listed, or the last chunk was one; then state, address and memory are the specified ones and every block's bytes are intact |
| KernelHeap.Heap.Contract | src/memory/kheap.c:81-101 | The heap ends at offset 0x70000 if the requested length has bit 12 set or is below that, and otherwise at the requested length; exactly the pages above the new end lose their frames, the one at the end does not, and all stay present |
| KernelHeap.Heap.Search | src/memory/kheap.c:316-318 | The first position of an address in the index, or its length |
| KernelHeap.Heap.Merge | src/memory/kheap.c:291-324 | After marking and merging, memory and index describe the chunk merged with its neighbouring holes; it stops in a page fault or the ASSERT under the exact condition of free |
| KernelHeap.MergeLeft | src/memory/kheap.c:301-308 | The left merge happens exactly when the chunk before is a hole, whose header then covers both |
| KernelHeap.Heap.MergeRight | src/memory/kheap.c:310-324 | The right merge happens exactly when the chunk behind is a hole, and takes it out of the index; behind the last chunk it is a page fault if nothing was ever mapped there, and the ASSERT if a page that kept its frame, or frame 0 on one given back, looks like a hole |
| KernelHeap.Heap.Settle | src/memory/kheap.c:326-345 | Contraction of a hole that reaches the end, with the clean case as a complete hole and the other case left as the code leaves it |
| KernelHeap.Heap.Free | src/memory/kheap.c:287-350 | free: the holes it leaves are sound if and only if it did not absorb a hole with a chunk behind it and a hole at the end starts at offset at most 0x70000-20; then state and memory are the specified ones, byte for byte, and no other block changes; when the merged hole reaches the end the heap ends where it starts, or at offset 0x70000 if that start is below it or has bit 12 set; after any free the heap can still be searched; null does nothing; it stops the kernel if and only if the last chunk is freed and the page behind the heap never had a frame or what is seen there looks like the header of a hole |
| HeapBytes.BeyondBytes | src/memory/kheap.c:310-321 | When free stops the kernel, in bytes: the last chunk is freed, and the page behind the heap is missing or shows AB 90 38 12 and then a byte that is not zero |
| HeapBytes.TagBytes | src/memory/kheap.c:258-284 | The header of every chunk of a well-formed heap in numbers, and its footer that points back; only a lone hole may lack one |
| HeapBytes.FitsAligned | src/memory/kheap.c:111-119 | Below 2 GB the test for an aligned request says that some page-aligned payload has room in the hole |
| HeapBytes.LayoutSound | src/memory/kheap.c:136-350 | Bytes that match the chunks make every listed hole sound: proper header, footer pointing back, inside the heap, no block inside it |
| HeapBytes.PayloadWrites | src/memory/kheap.c:258-284 | Whatever a client writes into the payload of its block, the allocator's layout survives and no other block changes |
| HeapBytes.StaleFooter | src/memory/kheap.c:310-324 | A right merge into a hole that is not last leaves a footer that points elsewhere, so its hole is not sound |
| HeapBytes.CutOff | src/memory/kheap.c:326-345 | A hole at the end that starts too high is cut off by contract and stays listed beyond the heap |
| HeapBytes.GrowthFits | src/memory/kheap.c:187-215 | However the heap grew, the highest listed hole is larger than the request that failed |
| HeapBytes.GrowthClean | src/memory/kheap.c:187-215 | With no hole or a hole at the end the written bytes spell the specified growth |
| HeapBytes.GrowthUnclean | src/memory/kheap.c:187-215 | Otherwise the grown hole reaches into the block behind it and is not sound |
| HeapBytes.Overlaps | src/memory/kheap.c:177-285 | After such a growth the search finds that hole, and what is allocated in it overlaps a live block |
| HeapBytes.LimitTest | src/memory/kheap.c:63-68 | The 32-bit sums of expand against the true ones |
| HeapBytes.HugeHoleRefused | src/memory/kheap.c:117-119 | A hole of 2 GB or more is refused by every smaller aligned request: why the bound on aligned expansions is for heaps below that |
| HeapRuns.RunKeepsInv | src/memory/kheap.c:136-350 | In every clean run of alloc, free and writes into blocks, from any memory and pages on, every state satisfies the invariant; clean includes that no free stops the kernel and that expansions find their frames |
| HeapRuns.BlocksDisjoint | src/memory/kheap.c:258-284 | Two different chunks, so any two live payloads, never share a byte |
| HeapRuns.StepKeepsBlock | src/memory/kheap.c:170-350 | No step moves or resizes a live block other than the one it frees |
| HeapRuns.RunKeepsBlock | src/memory/kheap.c:170-350 | In every run a block keeps place and size until it is freed itself |
| HeapRuns.AllocatedBlock | src/memory/kheap.c:258-284 | The returned address heads a new live block with room for the request |
| HeapRuns.LifoAlloc | src/memory/kheap.c:170-285 | In a heap of stacked blocks an allocation pushes a block at the top, whatever its size |
| HeapRuns.LifoFree | src/memory/kheap.c:287-350 | Freeing the topmost block pops exactly it |
| HeapRuns.LifoPrefix | src/memory/kheap.c:170-350 | As long as a last-in-first-out run stays above a depth the blocks below it do not change |
| HeapRuns.LifoRestores | src/memory/kheap.c:170-350 | Freeing back to an earlier depth restores the same blocks and the same top, so the next allocation of any size gets the address the earlier one got |
| HeapRuns.LifoShape | src/memory/kheap.c:170-350 | Every state of a last-in-first-out run is a stack of blocks with at most one hole, on top |
| HeapRuns.LifoClean | src/memory/kheap.c:177-345 | A stack of blocks can always be expanded cleanly; freeing its topmost block is sound if and only if that block starts at offset at most 0x70000-20, and stops the kernel if and only if no hole is on top, and nothing was ever mapped behind the heap or what is seen there looks like the header of a hole |
| HeapRuns.Push | src/memory/kheap.c:258-284 | With room to spare an allocation takes exactly the request and its overhead off the hole on top |
| HeapRuns.PushAll | src/memory/kheap.c:226-231 | With too little room for another hole it takes the whole hole |
| HeapRuns.Pop | src/memory/kheap.c:310-335 | Freeing the topmost block below a hole leaves a hole in its place up to the minimum heap size, and never stops the kernel, whatever memory holds |
| HeapRuns.TestHeap | src/kernel.c:137-161 | The expectation b == d of the kernel's own heap check holds on every heap create_heap makes, from any memory on, for a d that is larger than b; the run does not stop the kernel |
| HeapReplay.Perform | src/memory/kheap.c:170-350 | One event on the bytes: it stops the kernel if and only if it is a free that halts; otherwise state, memory and pages are those of the specified step, and blocks neither freed nor written keep their bytes |
| HeapReplay.Replay | src/memory/kheap.c:170-350 | A whole run on the bytes: the kernel stops if and only if some event of the run halts on the memory and pages it meets, and then at the first; otherwise the run's last state, memory and pages, and every byte of every block that was neither freed nor written |
| HeapReplay.FromCreation | src/memory/kheap.c:136-350 | The same for every run that starts with create_heap, with the memory that leaves |
| HeapReplay.OneGigabyte | src/memory/kheap.c:61-68 | The test of expand on the kernel's own heap passes for 1 GB, with a new end that wraps to 0x101000 |
| HeapReplay.RequestWraps | src/memory/kheap.c:172-172 | A request whose sum with the overhead wraps fits every hole, though no chunk is that large |
| HeapFaults.StaleHeaderHalts | src/memory/kheap.c:94-97 | On the kernel's own heap, whatever memory holds: a block of the minimum heap size allocated and freed twice leaves a header behind the end, on a page that keeps its frame, and the second free stops the kernel |
| HeapFaults.WholeHeapFreed | src/memory/kheap.c:310-321 | Allocating the whole heap and freeing it stops the kernel if and only if nothing was ever mapped behind the heap or what is seen there looks like the header of a hole |
| HeapFaults.BlockBehindHole | src/memory/kheap.c:187-215 | A run from create_heap to a heap whose next larger request grows a hole into a block |
| HeapFaults.HoleBetweenBlocks | src/memory/kheap.c:310-314 | A run to a heap in which the next free leaves a stale footer |
| HeapFaults.BlockAboveMinimum | src/memory/kheap.c:81-101 | A run to a heap in which the next free is cut off |
| HeapSearch.NoneFits | src/memory/kheap.c:126-129 | -1 if and only if no hole of the heap is large enough, whatever the order of the index |
| HeapSearch.SmallestFits | src/memory/kheap.c:103-130 | In a sorted index the hole found is a smallest one of those that fit |
| HeapSearch.AllocKeepsSorted | src/memory/kheap.c:254-282 | An allocation without expansion keeps the index sorted by current size |
| HeapSearch.FreeKeepsSorted | src/memory/kheap.c:310-348 | A free without a left merge keeps the index sorted |
| HeapSearch.LeftMergeOrder | src/memory/kheap.c:301-308 | After a left merge the index is sorted if and only if, the absorbed hole apart, none listed after the left hole is smaller than its new size and none before it is larger |
| HeapSearch.LeftMergeLosesOrder | src/memory/kheap.c:306-306 | A heap in which a left merge does lose the order |
| HeapSearch.GrowOrder | src/memory/kheap.c:207-215 | After an expansion the index is sorted if and only if the enlarged hole was the last one listed |
| HeapSearch.RunKeepsSorted | src/utils/ordered_array.c:37-72 | Every run without expansion and left merge keeps the index sorted throughout |
| HeapSearch.RunAllocatesBestFit | src/memory/kheap.c:103-134 | Every allocation of such a run goes into a smallest sufficient hole |
| HeapSearch.UnalignedExpandsOnce | src/memory/kheap.c:177-217 | After any expansion an unaligned request fits, sound holes or not, as long as the highest hole does not grow past 2^32 |
| HeapSearch.AlignedExpandsTwice | src/memory/kheap.c:103-130 | After any two expansions a page-aligned request fits the search as written, sound holes or not, as long as no size reaches 2 GB |
| HeapSearch.AlignedExpandsOnce | src/memory/kheap.c:177-217 | In a heap without holes one expansion is enough if and only if the request with header and footer exceeds a multiple of the page size by at most 12 |
| HeapPages.EnoughFrames | src/memory/kheap.c:73-76 | The loop of expand is defined if and only if the new pages have tables and there are as many free frames as pages without one; that many it takes |
| HeapPages.ExpandedPresent | src/memory/kheap.c:73-76 | Afterwards every page up to the new end is present |
| HeapFrames.FramePage | src/memory/paging.c:57-75 | alloc_frame on the page tables and the bitset is what the heap's loop is taken to do to its pages |
| HeapFrames.FreePage | src/memory/paging.c:77-85 | So is free_frame: the page stays present, and at most frame 0 becomes free |
| HeapIndex.IndexBound | src/utils/ordered_array.c:37-59 | A heap of n bytes has at most (n + 20) / 40 holes |
| HeapIndex.RoomInSmallHeap | src/utils/ordered_array.c:37-59 | In every run in a heap that cannot grow to 5 MB the index has room |
| HeapIndex.FullIndexOverflows | src/utils/ordered_array.c:45-46 | An insertion into a full index writes the magic number of the first header: the layout survives if and only if the entry equals that number |
| HeapIndex.FullIndexExists | src/utils/ordered_array.c:45-46 | A well-formed heap of some 5 MB with a full index |
| Frames.FrameSet.constructor | src/memory/paging.c:93-94 | All 4096 bits start clear |
| Frames.FrameSet.Set | src/memory/paging.c:21-26 | The set of used frames gains exactly the frame of the address |
| Frames.FrameSet.Clear | src/memory/paging.c:28-33 | The set loses exactly the frame of the address |
| Frames.FrameSet.Test | src/memory/paging.c:35-40 | True exactly for used frames |
| Frames.FrameSet.First | src/memory/paging.c:42-55 | The least free frame, none exactly when all are used |
| Paging.Memory.KmallocAP | src/memory/kheap.c:25-37 | The first address from the placement address on that is a multiple of 0x1000, equal to its physical address, at which no table lies yet |
| Paging.Memory.AllocFrame | src/memory/paging.c:57-75 | A page without a frame gets the least free one, with its flags; bits and pages stay consistent and exclusive; the page really holds a frame if and only if it had one or bit 0 was set |
| Paging.Memory.FreeFrame | src/memory/paging.c:77-85 | The page loses its frame, only bit 0 is cleared, the frame itself is never given back; consistency is kept |
| Paging.Memory.GetPage | src/memory/paging.c:147-168 | The two-level directory as a flat map: existing pages keep their contents, the pages of a new table are zero, no other page appears; a new table is entered as its physical address plus present, read-write and user |
| Paging.SamePage | src/memory/paging.c:149-154 | Two addresses reach the same entry if and only if their page numbers agree |
| PageRuns.GetPages | src/memory/paging.c:147-168 | A whole run of get_page with make set: a page exists if and only if it did or its table was visited, existing pages are unchanged and new ones zero, and two calls return the same entry if and only if the page numbers agree |
| Paging.AllocKeepsSound | src/memory/paging.c:69-73 | Giving a page a free frame keeps every held frame marked and exclusive |
| Paging.FreeKeepsSound | src/memory/paging.c:82-83 | Taking a frame away and clearing at most bit 0 keeps that too |
| FrameRuns.StepKeepsSound | src/memory/paging.c:57-85 | Every alloc_frame or free_frame keeps held frames marked and exclusive, and forgets no used frame but 0 |
| FrameRuns.RunKeepsSound | src/memory/paging.c:57-85 | The same over every run |
| FrameRuns.NoFrameTwice | src/memory/paging.c:77-85 | In a whole run no frame but 0 is handed out a second time |
| FrameRuns.ZeroAfterFree | src/memory/paging.c:82-82 | The allocation after a free gets frame 0, the number that means no frame, and marks the page present |
| FrameRuns.Perform | src/memory/paging.c:57-85 | The code on bitset and tables takes exactly the steps of those runs |
| Boot.MakeHeapTable | src/memory/paging.c:105-108 | One table for all heap pages, all of them zero, placed on a page |
| Boot.MapPage | src/memory/paging.c:114-115 | The page gets the next frame in sequence and no other page changes |
| Boot.IdentityMap | src/memory/paging.c:112-117 | The loop ends although its bound moves, and every page it covers maps to itself |
| Boot.MapHeap | src/memory/paging.c:119-122 | The heap pages get the 256 frames behind all identity-mapped ones |
| Boot.InitialisePaging | src/memory/paging.c:105-128 | Every page below the final placement address plus 0x1000 maps to its own number, heap pages to frames distinct from all of these, all of them present, not writable and open to the user, the page behind the heap to none; exactly these frames are used, and the kernel directory is the current one |
| Boot.RoomIsExact | src/memory/paging.c:112-117 | The room asked for at the start is exactly the room the final placement address needs |
| Clone.CopyPagePhysical | src/process/process.s:21-29 | The destination frame gets the 1024 words of the source frame, every other frame is unchanged |
| Clone.CopyFlags | src/memory/paging.c:209-213 | All flags of the source page, with present and user set |
| Clone.ClonePage | src/memory/paging.c:205-218 | One entry: a frame that was free, the same contents, nothing else touched; an entry without a frame stays zero |
| Clone.CloneTable | src/memory/paging.c:199-221 | A new table whose pages with a frame hold fresh frames with equal contents and flags, whose other pages are zero; old tables and used frames are unchanged; exactly as many frames are taken as needed |
| Clone.CloneDirectory | src/memory/paging.c:228-257 | Kernel tables are shared by address, private ones copied into frames no page held, and entered as the copy's physical address plus present, read-write and user; null slots stay null; all existing tables and the contents of all used frames are unchanged; frames stay exclusive |
| ForkStack.TableCopied | src/memory/paging.c:241-255 | The child gets another table in a slot if and only if the slot is in use and not the kernel directory's; otherwise the very same table |
| ForkStack.CloneStack | src/memory/paging.c:228-257 | A page of the stack has the same contents in the child, and a frame of its own if and only if the stack's slot is the task's own |
| ForkStack.CloneKernelDirectory | src/process/task.c:165-165 | Cloning the directory that booting leaves shares every table, the stack's included |
| Tasks.Scheduler.constructor | src/process/task.c:32-38 | One task, current and first, with the current directory |
| Tasks.Scheduler.SwitchTask | src/process/task.c:90-136 | The current task's context is saved, the next in the ring becomes current with its directory and its own saved context is the one jumped to; a lone task or the sentinel changes nothing; the list stays linked with increasing ids |
| Tasks.Scheduler.Enqueue | src/process/task.c:167-179 | The walk to the end appends one task with the next id and an empty context |
| Tasks.Scheduler.GetPid | src/process/task.c:206-208 | The id of the task at the current place of the list |
| RoundRobin.Progress | src/process/task.c:120-126 | How many turns each task has had at any moment since a task was switched to |
| RoundRobin.Fair | src/process/task.c:120-126 | Between two successive turns of a task every other task queued at the first gets exactly one turn, and no task two, in every mix of switches and forks |
| RoundRobin.Perform | src/process/task.c:120-179 | The linked list takes exactly the steps of those runs and keeps its tasks in place |
| TaskSteps.Switch | src/process/task.c:107-155 | The linked list and the small-step machine agree on switch_task: same tasks, contexts, place, address space and jump target after its seven steps |
| TaskSteps.Fork | src/process/task.c:167-179 | They agree on making and linking a child |
| TaskSteps.HalfBuiltIsLost | src/process/task.c:160-171 | If the timer could strike while fork is at work on a child, nine steps of the handler later the kernel runs at the child's zero context: what masking interrupts keeps from happening |
| Interleaving.StepKeepsInv | src/process/task.c:90-204 | With a stack in tables of the task's own, every step of fork, switch_task, the task's own code or the timer keeps the invariant of the machine |
| Interleaving.RunKeepsInv | src/process/task.c:90-204 | It holds in every state of every interleaving that starts with such a stack |
| Interleaving.ResumesLastSaved | src/process/task.c:119-154 | With a stack in tables of the task's own: a switch resumes a task only with the context last saved for it, never the zero context of an unfinished child, in that task's address space |
| ForkResults.StepKeepsHistory | src/process/task.c:158-204 | With a stack in tables of the task's own: every step keeps what is known of the results of fork and of the place where each task stands in it |
| ForkResults.ForkReturns | src/process/task.c:185-203 | With a stack in tables of the task's own: in every run fork returns 0 to a task if and only if that is a child and this is its first result, and each child's id at most once, to that child's parent |
| ForkResults.ChildWasTold | src/process/task.c:186-203 | With a stack in tables of the task's own: a child that runs its own code, or forks, has been told 0 before |
| ForkResults.ChildReturnsZero | src/process/task.c:186-203 | With a stack in tables of the task's own: a child that is resumed for the first time goes on to return 0 |
| SharedStack.ChildTakesParentsBranch | src/process/task.c:183-199 | On a stack in the kernel directory's tables there is a run in which the child reads what its parent left in the shared local, takes the parent's branch, and is not told 0 |
| Interleaving.ForkIsAtomic | src/process/task.c:160-199 | With a stack in tables of the task's own: no interrupt comes between: from the new directory on, exactly eight steps of fork put a complete child at the end of the list |
| Interleaving.SentinelIsNoAddress | src/link.ld:5-5 | With a stack in tables of the task's own: the sentinel is no return address, no jump goes astray, and interrupts are on only at the stated places |
| Preemption.LoneTick | src/process/task.c:97-101 | A tick of a lone task: one step of the handler later the state is what it was before the tick in all its parts, interrupts on included |
| Preemption.HandlerEndsOn | src/process/task.c:97-155 | With a stack in tables of the task's own: every step out of the handler goes back to the place and registers the tick has found, or into the next task at its saved context; interrupts are on after each |
| Preemption.InterruptsOnExactly | src/process/task.c:152-203 | With a stack in tables of the task's own: outside the tasks' own code interrupts are on exactly where fork is about to return and where a jump has led |
| Preemption.StepFrames | src/process/task.c:90-204 | Every step leaves what ticks have put on the stack of each task as it is, but for a tick, which adds one frame for the running task, and a return of the handler, which goes on at that frame and takes it away |
| Preemption.InterruptedGoesOn | src/process/task.c:90-204 | With a stack in tables of the task's own: in every run, whatever other tasks, forks and further ticks come between, an interrupted task goes on at the same place, with the same registers, address space and locals, and with interrupts on |
| Preemption.ReturnsFromTick | src/process/task.c:97-117 | Every return of the handler is the return from a tick that struck the same task, at the same depth |
| Preemption.StepKeepsMemory | src/process/task.c:158-204 | While a task has a frame of the handler on its stack no step changes a local in its address space |
| MoveStack.MapPages | src/process/task.c:49-53 | Every word of the new stack and of the page at its top is in a mapped page |
| MoveStack.CopyStack | src/process/task.c:70-70 | The words of the old stack in the new place, nothing else changed |
| MoveStack.Relocate | src/process/task.c:75-83 | Each word of the new stack that lies strictly inside the old one, aligned or not, is shifted once, every other word is unchanged |
| MoveStack.MoveStack | src/process/task.c:47-87 | Both registers are moved by 4 * (new top - top); every word v copied becomes v + 4 * (new top - top) if it lies strictly between the old stack pointer and the old top, and stays v otherwise; the old stack is intact, and all written words are mapped |
| MoveStack.ChainMoves | src/process/task.c:67-83 | Following the base pointers on the new stack visits exactly the old chain, shifted |
| Console.Monitor.constructor | src/screen/monitor.c:21-22 | A cleared screen with the default colour |
| Console.Monitor.Clear | src/screen/monitor.c:108-119 | The screen shows a blank terminal, cursor at the top left |
| Console.Monitor.Scroll | src/screen/monitor.c:44-61 | Scrolling the framebuffer is starting a new line of the terminal and looking at its last 25 lines: row k shows what row k+1 did, the last row blanks |
| Console.Monitor.PutChar | src/screen/monitor.c:63-103 | What each character does to cursor and cells: backspace blanks the cell before the cursor and steps back, a tab goes to the next multiple of 8, newline and return to the start of the next line, a printable character stores code and attribute and advances, any other does nothing, and past the last row all rows move up; and after every character the framebuffer is the bottom 25 lines of the unbounded terminal fed the same character |
| Console.Monitor.WriteString | src/screen/monitor.c:124-130 | The same for every string up to its terminator |
| Console.Monitor.WriteColor | src/screen/monitor.c:132-140 | The same in another colour, which is restored |
| Console.PutKeepsHistory | src/screen/monitor.c:63-103 | A character changes at most the cursor's line and adds at most one line |
| Console.WriteKeepsHistory | src/screen/monitor.c:124-130 | Lines that have left the screen never change again |
| Console.Monitor.WriteHex | src/screen/monitor.c:147-177 | For every 32-bit n the prefix and hex digits without leading zero that parse back to n |
| Console.HexCharacters | src/screen/monitor.c:163-170 | The digits are 0 to 9 and then a to f |
| Console.Monitor.WriteDec | src/screen/monitor.c:179-207 | At most ten digits, without leading zero, that parse back to n if and only if n is below 2^31; from there on nothing is written |
| Console.Backwards | src/screen/monitor.c:186-196 | The digits of n, last one first, inside the buffer |
| Console.DecDigits | src/screen/monitor.c:198-204 | The same digits reversed parse to n |
| Strings.Strlen | src/utils/string.c:39-44 | The length of the string in the buffer |
| Strings.Strcmp | src/utils/string.c:4-19 | 0 if and only if the two strings are equal |
| Strings.Strcpy | src/utils/string.c:21-25 | The first byte and all up to the next zero are copied, the terminator is not, the rest of the buffer stays |
| Strings.CopiesString | src/utils/string.c:21-25 | What is copied is the source string if and only if that is not empty |
| Strings.CopyReadsBack | src/utils/string.c:21-25 | The copy reads back as the source string if and only if the buffer had a zero behind it |
| Mem.Memmove | src/utils/mem.c:17-34 | For every overlap the destination gets the original source bytes and every other byte is unchanged, through both loops |
| Mem.Memcpy | src/utils/mem.c:6-10 | The bytes from the source address on, addresses wrapping at 32 bits |
| Mem.Memcmp | src/utils/mem.c:36-47 | 0 if and only if equal, otherwise the difference of the first bytes that differ |
| Ram.Memset | src/utils/mem.c:12-15 | The range holds the value, nothing else changes |
| Ramdisk.DataDisjoint | create_initrd.c:20-34 | File data overlaps neither other file data nor the header table, and lies inside the image |
| Ramdisk.WriteHeader | create_initrd.c:25-37 | One table entry holds magic, name, offset and length, and no other entry changes |
| Ramdisk.WriteTable | create_initrd.c:17-38 | The table of 64 entries describes every file at its offset |
| Ramdisk.CreateImage | create_initrd.c:14-50 | The written image holds the count, the table and all file data at the offsets the table names |
| Ramdisk.ImageFormat | create_initrd.c:8-48 | The image in numbers: header i at 4 + 76*i with 0xBF, the name at +1, offset at +68 and length at +72; the data from 4868 on, one file behind the other |
| Ramdisk.Loaded | src/filesystem/initrd.c:54-57 | The image means the same wherever it is put in memory |
| Initrd.Initrd.constructor | src/filesystem/initrd.c:54-107 | Every header offset becomes an address, every node gets name, length and inode of its file, and file data is unchanged |
| Initrd.Initrd.Read | src/filesystem/initrd.c:14-24 | Exactly the slice asked for clipped to the file, nothing beyond its end; the length is right if and only if offset plus size does not wrap |
| Initrd.Initrd.Readdir | src/filesystem/initrd.c:26-41 | The static entry holds exactly the entry of the listing, terminated; nothing changes past the end; directory dev has no entry 0 |
| Initrd.Initrd.Finddir | src/filesystem/initrd.c:43-52 | dev from the root, otherwise the first file of that name, nothing if and only if there is none |
| Initrd.ListRoot | src/filesystem/initrd.c:26-52 | Listing the root gives dev, then every file in order and once, each with the inode of its own node, then ends; looking up each listed name gives the entry listed if and only if no earlier one has the same name |
| Initrd.LookupListed | src/filesystem/initrd.c:43-52 | Looking up a listed name gives the listed file if and only if no earlier entry has the same name |
| Initrd.NameCopied | src/filesystem/initrd.c:92-92 | A non-empty name copied into cleared node storage reads back |
| Initrd.RoundTrip | create_initrd.c:14-50 | Writing the image of any files, loading it anywhere, initialising and reading any file at any place gives that slice of that file |

## Left out

- The placement of page-aligned blocks in `alloc` (src/memory/kheap.c:233-252): the written expression does not compute the intended address. Aligned requests appear only in how often they expand the heap.
- KernelHeap.Heap.Alloc: described for requests whose sum with the overhead does not wrap, that do not meet the failing family of expand's limit test, and that find a frame for every new page; HeapReplay.RequestWraps, HeapReplay.OneGigabyte and HeapPages.EnoughFrames are about the others. After an allocation that overlaps a block only the overlap is stated.
- KernelHeap.Heap.Locate: aligned requests below 2 GB in heaps below 2 GB; HeapBytes.HugeHoleRefused shows why.
- KernelHeap.Heap.Free: described for null and for payloads of live blocks, with one free slot left in the index (HeapIndex.FullIndexOverflows is about a full one); the two ASSERTs on magic numbers then hold. Other pointers are not modelled.
- KernelHeap.Heap.constructor: the index is an object of its own and not part of the bytes of memory; its memory is cleared and never written through it. Heap ranges start at one page or above, so that the bytes before the first header exist.
- KernelHeap.Heap.Expand: pages without a table are not mapped; making one in the middle of expand would call alloc again.
- KernelHeap.Heap.MergeRight: what frame 0 holds is an input, and address translation is that of the tables, without stale entries of the TLB. The bytes inside the heap are flat memory: a page that contract gave back and expand maps again would come with other bytes in its holes.
- Paging.Memory.KmallocAP: once the heap is up its blocks are a supply of distinct addresses with physical addresses, not taken from KernelHeap.
- Paging.Memory.AllocFrame: a page without a frame needs a free one, because the source has no defined result otherwise.
- Boot.InitialisePaging: asks for room for the heap's 256 frames as well as for the identity mapping; starts with the frame bitset and the kernel directory already placed and zeroed.
- Clone.CloneDirectory: the copy runs with enough heap blocks and free frames, and with the bit of frame 0 set, as after booting.
- Tasks.Scheduler.SwitchTask: the path on which tasking is not initialised, and loading CR3.
- Interleaving.StepKeepsInv: clone_directory and kmalloc are single steps inside fork; the locals of fork stand for the stack's memory; the stack of a task is the place it goes back to; switch_task runs only from the timer handler, and the way from it back through the interrupt stub is one step.
- MoveStack.MoveStack: words and word numbers instead of bytes, memcpy word by word, mapped pages as a set; stack pointers are word-aligned, the stacks do not overlap and the size is a multiple of the page size.
- Mem.Memcpy: the destination is a buffer of the caller's outside the memory read.
- Ramdisk.CreateImage: files that cannot be opened, and 64 or more files; bytes of the table that are never written are arbitrary.
- Initrd.Initrd.constructor: node fields other than name, length and inode, and the nodes of the directories themselves.
- Console.Monitor.PutChar: the hardware cursor.
- 32-bit wrap-around of process ids and of the heap's size fields beyond the conditions stated.
- Keyboard, timer, GDT and IDT, interrupt stubs, port I/O, panic, the page fault printer and boot code: hardware plumbing.
- `src/filesystem/fs.c`, `strcat`, `destroy_ordered_array`: dispatch, unused or empty.
