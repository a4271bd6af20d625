# FOS kernel: memory management, blocking and scheduling

A Dafny model of the FOS teaching kernel's memory-management stack and of its blocking and scheduling
protocol, with proofs of what they keep over every run. `dafny verify dfyconfig.toml` checks all of it.
`Machine.dfy` holds the page size and the word size, `Wrappers.dfy` an option type and sequences without repetitions.

## The block allocator

* `Memory.dfy` is a 4 GB byte memory with unaligned little-endian words. `Ram` keeps, as ghosts, the same contents
  as a byte sequence and as a word at every address; a store states which bytes and which words it may change.
* `FreeList.dfy` is the list macros of `inc/queue.h` on cells that lie in that memory. Each macro is split into its
  stores and the step of the abstract list they make.
* `BlockLayout.dfy` is the heap seen as a sequence of blocks (tiling, coalescing, first and best fit, placing,
  releasing); `BoundaryTags.dfy` says how memory spells such a sequence with headers and footers, and
  `HeapSteps.dfy` what each group of stores does to it, as lemmas on values.
* `BlockAllocator.dfy` is the allocator: class `Heap` reads and writes headers, footers and list links only through
  `Ram`. Its sizes are multiples of 2, so tags and links may be unaligned. Fresh pages hold arbitrary bytes. Growing
  the heap writes the new block's footer four bytes short; `Shape(|blocks| - 1)` is the state in which that last
  footer is garbage, `Outgrown` what makes it harmless, and the recursive call repairs it. `Allocates` and
  `Reallocates` are relations between arenas (blocks, break, free frames); every method is proved against them on bytes.
* `HeapRuns.dfy` proves what whole runs keep and what one call undoes, on those relations.

Sizes above 2 KB never reach the allocator (`kern/mem/kheap.c:127`, `lib/uheap.c:35`); the model asks for that.
The break and the free frames appear twice: here as two counters, in the kernel heap as mapped pages.
`KernelRuns.dfy` couples the two.

## Frames, pages and what is built on them

* `FrameManager.dfy` is the frame table, the free frame list and the two-level page tables, read as one map from
  directory and page to entry. `Sound` says that a managed frame's reference count is the number of entries naming it.
  `managed` is what `initialize_paging` ever puts on the free list; frames of the kernel image and the I/O hole are not counted.
  Entries that name a frame are present, with lemmas for what goes wrong when one is not and when a counter wraps.
* `Extents.dfy` and `KernelHeap.dfy` are the kernel's page allocator: runs of pages, whose lengths are kept only as
  marks in page table entries, and the list of free extents. Addresses of pages are page numbers.
* `KernelRuns.dfy` puts the two allocators of the kernel heap together: one break, one count of free frames, and the
  nodes of the extent list in live blocks of the block allocator. A call of `kmalloc` or `kfree` is one step: the list is
  only read by these calls, so the node a `kfree` asks for may be requested after the list has been extended.
* `PageFile.dfy` is the disk page file over the same two-level map; `Shares.dfy` is the shared objects. The page file
  keeps, as a ghost, the frames that `pf_free_env` has lost.

## Locks and scheduling

* `Spinlock.dfy` is a transition system at the grain of single memory accesses: `pushcli`, `popcli`, the spin on
  `xchg`, and the two reads of `holding_spinlock`, on any number of CPUs.
* `Scheduler.dfy` is the process queues and the scheduling calls; `Sleeplock.dfy` puts the statements of
  `acquire_sleeplock`, `sleep`, `wakeup_all` and `release_sleeplock`, the dispatch loop, clock interrupts and the
  scheduling calls together into one transition system over any number of CPUs, environments and locks. Taking a spinlock is one step there.
  A call that runs entirely under the queue lock is one step too. `SleeplockCalls.dfy` says what a finished call has
  achieved, what it waits for and how long it takes, and how an environment's status changes; `RoundRobin.dfy` adds
  starvation and deadlock.
  `sched` hands the CPU to the scheduler with the queue lock held. `env_free` returns at once in this kernel
  (`kern/proc/user_environment.c:463-467`), so an environment that is killed while ready keeps its status; the model
  remembers it as an orphan.

## Numbers as text

* `Numerals.dfy` is `strtol`, `ltostr` and `printnum`. `strtol` resembles section 7.22.1.4 of ISO/IEC 9899:2011, but
  differs from it where the code does; among other things it skips spaces and tabs only, knows the hexadecimal prefix
  only with a lower-case x and takes it even without a digit after it, leaves the end after blanks and sign when there
  is no digit, and does not detect overflow. The model follows the code.

## Where the code falls short of its promises

* A size above 0xFFFFF000 is rounded to no pages at all: `PagesAreEnough` is the exact condition; `Kmalloc` states that nothing is mapped then.
* A seventeenth bit of a reference count is lost: `MappedSound` holds exactly while the count is below 65535.
* An entry that names a frame without being present loses a reference when it is mapped over: `AbsentEntryLeaks`;
  changing permissions keeps the books exactly when no such entry is made: `PermissionsSound`.
* A shared object maps `size / 4096` pages, which cover its size exactly when it is a whole number of pages: `PagesCoverSize`.
* A shared object for which there are too few frames stays in the list without them: `CreateSharedObject` keeps the
  invariant exactly otherwise. Its 65536th attachment wraps a frame's counter: `AttachLimit`; `CounterWraps` shows such a state.
* `sched_exit_env` on a NEW environment reaches an assertion: `SchedExitEnv` returns false exactly there.
* `sched_kill_env` takes a ready environment out of its queue and leaves its status READY: `KilledReadyWitness` is such a
  run. Status and place agree after a kill exactly when the victim was not ready (`KillAgrees`), and in every state of
  every run exactly for the environments that were never killed while ready (`StatusSaysWhere`).
* `pf_free_env` and `pf_calculate_allocated_pages` stop at USER_TOP, while pages may be added up to KERNEL_BASE: frames
  from there on are lost, and their pages not counted. `FreeIsComplete` and `CountIsComplete` say that this is exact;
  `PageAboveWitness` is such a file.
* `kfree` may need a node for a new extent, and writes through NULL when the block heap is full and at its limit:
  `StepKeepsWhole` says that this is exact, and `StarvedWitness` is such a state.
* `realloc_block_FF` cuts off a tail in front of which less than a whole block is left (`CutIsExact`), and overwrites the links
  of the free block it grows into, before they are read, when it grows by less than 16 bytes (`GrowthSparesLinks`).
  Both conditions are in `WellBehaved`. When it shrinks by less than 16 bytes it reads the payload word at `va + new_size + 4`
  as a header and does harm when that word is even: `Quiet` asks that it is odd.
* `ltostr` of the least long writes a minus sign and characters below '0', which `strtol` reads as no number: `LeastLongIsLost`;
  the round trip holds exactly for every other long: `LToStrRoundTrip`.

## Model

| member | source | states |
|---|---|---|
| Memory.Ram.Write | lib/dynamic_allocator.c:232-240 | a word store at any byte address changes four bytes, and no word that does not meet them |
| Memory.Ram.MemCpy | lib/string.c:124-136 | the destination holds the source's bytes; nothing else changes |
| FreeList.BlockList.constructor | inc/queue.h:191-195 | an empty list |
| FreeList.BlockList.InsertAfter | inc/queue.h:202-213 | the new member stands right after the given one in a list whose links, ends and size stay consistent; only the cells of three neighbours change |
| FreeList.BlockList.InsertBefore | inc/queue.h:220-234 | the same, before the given member |
| FreeList.BlockList.InsertHead | inc/queue.h:240-249 | the new member is the first |
| FreeList.BlockList.InsertTail | inc/queue.h:255-264 | the new member is the last |
| FreeList.BlockList.Remove | inc/queue.h:270-283 | exactly that member is gone and the rest keep their order and links |
| FreeList.LinkIn | inc/queue.h:202-264 | what any insertion macro stores makes memory spell the longer list |
| FreeList.LinkOut | inc/queue.h:270-283 | what the removal macro stores makes memory spell the shorter list |
| BlockLayout.FirstFitIsFirst | lib/dynamic_allocator.c:209-257 | the first-fit index is the lowest fitting block, and there is none exactly when nothing fits |
| BlockLayout.BestFitIsBest | lib/dynamic_allocator.c:358-386 | the best-fit index is the smallest fitting block, lowest on ties |
| BlockLayout.FitIsUnique | lib/dynamic_allocator.c:209-257 | no other block has that property |
| BlockLayout.FreeVasSorted | lib/dynamic_allocator.c:485-507 | the free list of a tiled heap is in strictly increasing address order, a whole block apart |
| BoundaryTags.LinksKept | lib/dynamic_allocator.c:230-246 | rewriting tags leaves the list threaded through free payloads intact |
| BoundaryTags.LiveByCells | lib/dynamic_allocator.c:244-246 | writing list links changes no byte of a live payload |
| HeapSteps.SplitSpells | lib/dynamic_allocator.c:230-240 | the four tag stores of a split turn memory into the split layout, even when the old footer was garbage |
| HeapSteps.ReleaseSpells | lib/dynamic_allocator.c:475-538 | the tag stores of each merge case spell the released layout; a wrong footer survives only where it was |
| HeapSteps.GrowSpells | lib/dynamic_allocator.c:281-302 | after growth memory spells one more used block, whose footer alone is not trusted |
| HeapSteps.GrownPick | lib/dynamic_allocator.c:259-311 | when nothing fitted before, the last block alone serves the request after growth, and is split |
| BlockAllocator.Heap.constructor | lib/dynamic_allocator.c:90-137 | one free block between two sentinels, its size rounded to even and at least 24 |
| BlockAllocator.InitialSizeIsLeast | lib/dynamic_allocator.c:94-103 | the rounded size is the least that is even, at least 24 and at least the size asked for |
| BlockAllocator.Heap.Take | lib/dynamic_allocator.c:217-254 | a fitting free block is used whole or split, also right after growth, and the invariant holds again with every footer right |
| BlockAllocator.Heap.FreeUsed | lib/dynamic_allocator.c:452-540 | the four merge cases, on a heap whose last footer may be wrong |
| BlockAllocator.Heap.FreeBlock | lib/dynamic_allocator.c:452-540 | the block is released and merged, every other live payload is unchanged; NULL and free blocks change nothing |
| BlockAllocator.Heap.SearchFirstFit | lib/dynamic_allocator.c:209-257 | the list walk finds the lowest fitting block, or nothing fits |
| BlockAllocator.Heap.SearchBestFit | lib/dynamic_allocator.c:350-386 | the list walk, with its early exit on a perfect fit, finds the best fit |
| BlockAllocator.Heap.Extend | lib/dynamic_allocator.c:259-302 | one page more and freed at once, live payloads untouched; or nothing changes |
| BlockAllocator.Heap.Sbrk | kern/mem/kheap.c:59-109 | the old break, or failure exactly beyond the limit or without frames |
| BlockAllocator.Heap.AllocBlockFF | lib/dynamic_allocator.c:171-317 | the outcome `Allocates` describes, with the heap sound and every live byte kept |
| BlockAllocator.Heap.AllocBlockBF | lib/dynamic_allocator.c:322-447 | the same for best fit |
| BlockAllocator.Heap.AllocBlock | lib/dynamic_allocator.c:38-60 | the strategy chosen |
| BlockAllocator.GrewAllocates | lib/dynamic_allocator.c:259-311 | serving a request from the grown heap is serving it from the old one: the heap grows once at most |
| BlockAllocator.Heap.ReallocBlockFF | lib/dynamic_allocator.c:545-723 | the outcome `Reallocates` describes; the first min(old payload, new size) bytes are found at the returned address, other live bytes are unchanged, and a failure changes nothing |
| BlockAllocator.Heap.Shrink | lib/dynamic_allocator.c:635-654 | a tail of 16 bytes or more is cut off, freed and merged |
| BlockAllocator.Heap.Absorb | lib/dynamic_allocator.c:672-682 | the whole next free block is taken |
| BlockAllocator.Heap.Slide | lib/dynamic_allocator.c:683-704 | the block grows by 16 bytes or more into the next free block, whose rest stays free |
| BlockAllocator.Heap.Move | lib/dynamic_allocator.c:708-719 | allocate, copy, free; NULL leaves the old block and its bytes |
| BlockAllocator.GrowthSparesLinks | lib/dynamic_allocator.c:683-704 | growing into a split block stores over the links of the free block before they are read, exactly when it grows by less than 16 bytes |
| BlockAllocator.RelocateKept | lib/dynamic_allocator.c:708-719 | the copied bytes are still there after the old block is freed |
| HeapRuns.ReleaseIsMerge | lib/dynamic_allocator.c:475-538 | the four cases of free_block do exactly what freeing the block and merging every run of free blocks would do |
| HeapRuns.MergeIsCoalesced | lib/dynamic_allocator.c:475-538 | that merge leaves no two free neighbours |
| HeapRuns.FreeUndoesAlloc | lib/dynamic_allocator.c:217-254 | freeing a block just allocated restores blocks, free list, break and frames exactly when the heap did not grow |
| HeapRuns.AllocHasOutcome | lib/dynamic_allocator.c:171-317 | every request has an outcome |
| HeapRuns.AllocIsDetermined | lib/dynamic_allocator.c:171-317 | and only one |
| HeapRuns.NullMeansFull | lib/dynamic_allocator.c:272-275 | NULL on a positive size means exactly that every free block is smaller than the size and 8 bytes more, and the heap cannot grow; then nothing changed |
| HeapRuns.TotalIsLeast | lib/dynamic_allocator.c:179-182 | the adjusted size is the least that is even, at least 16, and 8 more than the request |
| HeapRuns.RequestServed | lib/dynamic_allocator.c:209-275 | the block with room at the lowest address serves the request, or the smallest and of those the lowest; the heap grows exactly when no block has room |
| HeapRuns.PlaceIsLeast | lib/dynamic_allocator.c:217-254 | the request gets the front of its block and no more than it must: what is left is nothing or a whole free block |
| HeapRuns.ResizedIsLeast | lib/dynamic_allocator.c:611-706 | so does a reallocation in place; the block moves exactly when neither it nor it and the free block behind it have room |
| HeapRuns.AllocIsolated | lib/dynamic_allocator.c:217-254 | the returned payload lies in the heap, has the requested bytes, shares none with a live block, and is the only new live block |
| HeapRuns.ReallocExchanges | lib/dynamic_allocator.c:611-719 | a successful reallocation exchanges one live block for one with room at the returned address, and no other changes |
| HeapRuns.CutIsExact | lib/dynamic_allocator.c:635-654 | cutting off a tail keeps the heap well formed exactly when at least 16 bytes stay in front of it |
| HeapRuns.RunsKeepTheHeap | lib/dynamic_allocator.c:171-723 | after any run of allocations, frees and reallocations the heap tiles into even blocks of at least 16 bytes with no free neighbours, and break plus free frames is constant |
| HeapRuns.RunsKeepLiveBlocks | lib/dynamic_allocator.c:171-723 | after any run the live blocks are those handed out and not given up, unmoved |
| FrameManager.SetEntryIsUpdate | kern/mem/memory_manager.c:235-280 | writing through directory and table changes one entry of the map and no other |
| FrameManager.FramesArePartitioned | kern/mem/memory_manager.c:146-224 | every managed frame is free, in transit or mapped, and only one of these |
| FrameManager.MappedSound | kern/mem/memory_manager.c:357-406 | mapping, remapping and mapping again keep counts and free list, exactly unless a 16-bit count wraps |
| FrameManager.NewEntryBits | kern/mem/memory_manager.c:397-400 | the new entry is present, has the bits asked for, and keeps the three software bits |
| FrameManager.MappedRecords | kern/mem/memory_manager.c:380-394 | the frame has one reference more, in sixteen bits, and knows its page; a frame mapped there before loses one |
| FrameManager.CounterWraps | kern/mem/memory_manager.c:391-403 | a sound state with a frame at 65535 references exists, and its next mapping is not sound |
| FrameManager.UnmappedSound | kern/mem/memory_manager.c:456-478 | unmapping keeps them and clears the entry but for its software bits |
| FrameManager.UnmappedRecords | kern/mem/memory_manager.c:456-478 | one reference less and no address; at the last one the frame heads the free list |
| FrameManager.AllocatedSound | kern/mem/memory_manager.c:146-188 | so does allocating a frame |
| FrameManager.AbsentEntryLeaks | kern/mem/memory_manager.c:380-394 | mapping over an entry that names another frame keeps that frame's count exactly when the entry is present |
| FrameManager.PermissionsSound | kern/mem/paging_helpers.c:10-33 | changing low bits keeps the books exactly when no frame-bearing entry becomes absent |
| FrameManager.NewTableSound | kern/mem/memory_manager.c:288-326 | a new empty table changes no entry and no count |
| FrameManager.Manager.constructor | kern/mem/memory_manager.c:54-119 | the first state is sound: every frame outside the reserved ranges is free, once |
| FrameManager.Manager.AllocateFrame | kern/mem/memory_manager.c:146-188 | the first free frame, cleared and in transit |
| FrameManager.Manager.DecrementReferences | kern/mem/memory_manager.c:194-224 | one reference less; the last one puts the cleared frame at the head of the free list |
| FrameManager.Manager.MapFrame | kern/mem/memory_manager.c:376-406 | the entry names the frame, keeps its software bits, and another frame that was there loses a reference |
| FrameManager.Manager.UnmapFrame | kern/mem/memory_manager.c:456-478 | the entry names no frame; nothing happens where there was none |
| FrameManager.Manager.GetFrameInfo | kern/mem/memory_manager.c:418-441 | the frame the map's entry names, 0 for none |
| FrameManager.Manager.GetPagePermissions | kern/mem/paging_helpers.c:35-53 | the low twelve bits, -1 without a table |
| FrameManager.Manager.SetPagePermissions | kern/mem/paging_helpers.c:10-33 | bits are set, then cleared, in one entry |
| Extents.CoverDeterminesList | kern/mem/kheap.c:311-407 | free pages determine the list: one sorted, maximally coalesced way to write them |
| Extents.RejoinedWith | kern/mem/kheap.c:311-407 | the merge, for each of the four ways freed pages touch their neighbours, covers exactly the old and the freed pages, sorted and coalesced |
| KernelHeap.PagesAreEnough | kern/mem/kheap.c:152-153 | rounding gives enough pages exactly for sizes up to 0xFFFFF000 |
| KernelHeap.Heap.constructor | kern/mem/kheap.c:13-57 | the first state is good |
| KernelHeap.Heap.Sbrk | kern/mem/kheap.c:59-109 | the next pages are mapped in order, or nothing changes, exactly beyond the limit or without frames |
| KernelHeap.Heap.Kmalloc | kern/mem/kheap.c:130-226 | first fit over extents; the run's pages are mapped to the first free frames and marked at both ends; failure changes nothing |
| KernelHeap.Heap.FindExtent | kern/mem/kheap.c:162-192 | the lowest extent with enough pages gives up its first ones |
| KernelHeap.Heap.UnmapRun | kern/mem/kheap.c:260-299 | the walk over marks unmaps exactly the run's pages, whatever lies beside it |
| KernelHeap.Heap.AddExtent | kern/mem/kheap.c:311-407 | the extents cover the freed pages too, sorted and coalesced |
| KernelHeap.Heap.Kfree | kern/mem/kheap.c:236-407 | the run, all of it and nothing else, is taken back; an unmapped page is reported and nothing changes |
| KernelHeap.KmallocGood | kern/mem/kheap.c:150-226 | kmalloc keeps: extents cover exactly the blank pages, every other page is held once and lies in one run, marked at its ends |
| KernelHeap.KfreeGood | kern/mem/kheap.c:236-407 | kfree keeps the same |
| KernelHeap.SbrkGood | kern/mem/kheap.c:59-109 | sbrk keeps the same |
| KernelHeap.BlockPageBits | kern/mem/kheap.c:59-109 | every page of blocks is present and writable, for the kernel only |
| KernelHeap.RunPageBits | kern/mem/kheap.c:211-217 | so is every page of a run; bit 9 marks the first and the last page of a run of two or more, and no other |
| KernelHeap.KfreeUndoesKmalloc | kern/mem/kheap.c:150-407 | kfree after kmalloc restores extents, page tables and frame records, and returns exactly the frames taken, in opposite order |
| KernelHeap.TranslationRoundTrip | kern/mem/kheap.c:418-471 | there and back gives the address with its offset, for every mapped heap address; 0 exactly for unmapped pages |
| KernelHeap.TranslationIsInjective | kern/mem/kheap.c:418-443 | no two mapped heap addresses share a physical address |
| KernelHeap.FreeFramesTranslateToZero | kern/mem/kheap.c:448-458 | an unreferenced or free frame gives 0 |
| KernelHeap.OnlyMappedAddress | kern/mem/kheap.c:448-471 | a physical address has one mapped heap address at most, which is the one returned; frames that nothing names give 0 |
| KernelHeap.Heap.KheapPhysicalAddress | kern/mem/kheap.c:418-443 | 0 exactly for an unmapped heap page; otherwise the same offset in the frame its entry names, from which kheap_virtual_address leads back |
| KernelHeap.Heap.KheapVirtualAddress | kern/mem/kheap.c:448-471 | the one mapped heap address that translates to this physical address, if there is one; 0 for a frame nothing names |
| KernelHeap.Heap.CreatePageTable | kern/mem/memory_manager.c:288-326 | one heap page becomes an empty table; the heap stays good and every entry but that page's reads the same |
| KernelHeap.Heap.MapFrame | kern/mem/memory_manager.c:357-406 | mapping outside the heap, with the missing table made first, keeps the heap |
| KernelHeap.Heap.UnmapFrame | kern/mem/memory_manager.c:456-478 | unmapping outside the heap keeps the heap |
| KernelRuns.StepKeepsWhole | kern/mem/kheap.c:113-407 | kmalloc and kfree, of blocks and of pages, keep both allocators good, agreeing on break and free frames, with a live block for the node of every extent, exactly unless a kfree that needs a node finds the block heap full and at its limit |
| KernelRuns.RunsKeepWhole | kern/mem/kheap.c:113-407 | so does every run in which that does not happen |
| KernelRuns.StarvedWitness | kern/mem/kheap.c:328-333 | a good state in which it happens, and what follows is not good |
| KernelRuns.FirstNode | kern/mem/kheap.c:137-150 | the first page request, once its node is allocated, starts such a run |
| KernelRuns.EverySizeIsServed | kern/mem/kheap.c:127-135 | sizes up to 2 KB go to the block allocator, all others to the page allocator |
| KernelRuns.AllocatorsApart | kern/mem/kheap.c:113-407 | page requests leave every caller's block as it was, block requests every run of pages |
| KernelRuns.FramesConserved | kern/mem/kheap.c:113-407 | free frames, pages of blocks and pages of runs add up to the same after every call |
| PageFile.FramesAreNotShared | kern/disk/pagefile_manager.c:237-266 | no disk frame backs two pages, and none that backs a page is free |
| PageFile.ClaimedSound | kern/disk/pagefile_manager.c:110-134 | giving a page a frame keeps free frames plus used pages of all environments constant |
| PageFile.ReleasedSound | kern/disk/pagefile_manager.c:427-444 | taking it away does too |
| PageFile.FreeIsComplete | kern/disk/pagefile_manager.c:446-502 | all of an environment's frames are free afterwards exactly when it had no page at or above USER_TOP; the others back its old pages still |
| PageFile.CountIsComplete | kern/disk/pagefile_manager.c:564-601 | the pages below USER_TOP are all its pages exactly when it has none above |
| PageFile.PageAboveWitness | kern/disk/pagefile_manager.c:237-266 | a sound file with a page at USER_TOP, which is not counted |
| PageFile.PagesOfAddresses | kern/disk/pagefile_manager.c:285-286 | the page numbers at which the page file stops, and those that may be added by an update, are the addresses of USER_TOP, KERNEL_BASE, the user heap and the user stack |
| PageFile.Store.constructor | kern/disk/pagefile_manager.c:75-88 | every frame but 0 is free |
| PageFile.Store.AllocateDiskFrame | kern/disk/pagefile_manager.c:110-134 | the first free frame, or 0 |
| PageFile.Store.FreeDiskFrame | kern/disk/pagefile_manager.c:136-145 | the frame is free; 0 is ignored |
| PageFile.Store.MakeTable | kern/disk/pagefile_manager.c:147-205 | a missing directory or table is made, and every page reads the same |
| PageFile.Store.AddEnvPage | kern/disk/pagefile_manager.c:237-266 | the page holds the data and no other page changes; failure exactly when the page is new and the file full |
| PageFile.Store.UpdateEnvPage | kern/disk/pagefile_manager.c:268-374 | the same for an update; a new page only in the user heap or on the stack |
| PageFile.Store.ReadEnvPage | kern/disk/pagefile_manager.c:393-425 | what the last add or update wrote, or that there is none |
| PageFile.Store.RemoveEnvPage | kern/disk/pagefile_manager.c:427-444 | the page is gone, its frame free, no other page changes |
| PageFile.Store.CalculateAllocatedPages | kern/disk/pagefile_manager.c:564-601 | the number of the environment's pages below USER_TOP, which is that of all its pages exactly when none is above |
| PageFile.Store.FreeEnv | kern/disk/pagefile_manager.c:446-502 | exactly the frames below USER_TOP are free again, those above are lost, no other environment's page changes |
| Shares.IdsDiffer | kern/mem/shared_memory_manager.c:97-118 | no two objects have the same ID or the same owner and name |
| Shares.ReferencesAgree | kern/mem/shared_memory_manager.c:262-309 | each stored frame's reference count is the object's |
| Shares.PagesCoverSize | kern/mem/shared_memory_manager.c:183-184 | the mapped pages cover the size exactly when it is a whole number of pages |
| Shares.EveryPlaceReaches | kern/mem/shared_memory_manager.c:224-290 | wherever an object is attached, user code can read its frames in order, and write them exactly at its creator's place or when the object is writable |
| Shares.AttachLimit | kern/mem/shared_memory_manager.c:286-308 | an object can be attached once more exactly while it has fewer than 65535 references |
| Shares.AllShares.GetShare | kern/mem/shared_memory_manager.c:132-153 | the object with that owner and name, if there is one |
| Shares.AllShares.CreateSharedObject | kern/mem/shared_memory_manager.c:159-244 | refused exactly when the name is taken; fresh frames mapped in order, present, for the user and writable, stored with one reference, exactly when there are enough; without them the object stays listed with none, which breaks the invariant |
| Shares.AllShares.GetSharedObject | kern/mem/shared_memory_manager.c:253-313 | the stored frames mapped in the same order, present, for the user, and with the write bit exactly when the object is writable; one reference more |
| Shares.AllShares.FreeSharedObject | kern/mem/shared_memory_manager.c:356-433 | the pages are unmapped and one reference gone; at the last one the object is unlisted and its frames are free |
| Shares.FreeKeeps | kern/mem/shared_memory_manager.c:387-433 | detaching one object leaves every other as it was |
| Spinlock.StepInv | kern/conc/spinlock.c:28-77 | every memory access of every CPU keeps the invariant |
| Spinlock.OneHolder | kern/conc/spinlock.c:28-77 | a spinlock has one holder at most over all CPUs, and is marked exactly while held |
| Spinlock.NestingCounts | kern/cpu/cpu.c:81-100 | between calls ncli is the number of locks held; interrupts are off while it is positive, and as before otherwise |
| Spinlock.CheckIsExact | kern/conc/spinlock.c:114-121 | holding_spinlock is exact for its caller, although it reads two fields at different times |
| Spinlock.ReleasePops | kern/cpu/cpu.c:91-100 | popcli at the end of a release never panics and restores the interrupt flag at the last one |
| Spinlock.AcquireAchieves | kern/conc/spinlock.c:28-49 | in every run, acquire_spinlock returns with the lock, which then names this CPU, and with no other; it panics exactly when the CPU had it already |
| Spinlock.ReleaseAchieves | kern/conc/spinlock.c:52-77 | release_spinlock returns without the lock, and panics exactly when the CPU did not have it |
| Spinlock.AccessProgress | kern/conc/spinlock.c:28-77 | every access brings its call nearer to its end, unless another CPU holds the lock it spins on |
| Spinlock.CallIsShort | kern/conc/spinlock.c:28-77 | a call takes eleven accesses at most that are not spent waiting |
| Scheduler.ArrivalsQueueBehind | kern/cpu/sched_helpers.c:50-71 | an arrival gets ahead of nobody |
| Scheduler.ArrivalWaitsForAll | kern/cpu/sched_helpers.c:50-71 | and waits for exactly those who were there |
| Scheduler.RemovalHelps | kern/cpu/sched_helpers.c:76-84 | a removal sets nobody back |
| Scheduler.RunAllKeepsOrder | kern/cpu/sched_helpers.c:531-544 | sched_run_all keeps creation order, behind those already ready |
| Scheduler.NewcomersAreLast | kern/cpu/sched_helpers.c:50-57 | whichever queue an environment enters, it is the last to leave it |
| Scheduler.ProcessQueues.Remove | kern/cpu/sched_helpers.c:76-84 | the walk removes that member |
| Scheduler.ProcessQueues.SchedNewEnv | kern/cpu/sched_helpers.c:190-202 | the environment is NEW and in the new queue |
| Scheduler.ProcessQueues.SchedInsertReady | kern/cpu/sched_helpers.c:129-158 | it is READY and last in line |
| Scheduler.ProcessQueues.SchedRunEnv | kern/cpu/sched_helpers.c:276-304 | a new environment becomes ready, and a stopped scheduler is started exactly then; any other number changes nothing |
| Scheduler.ProcessQueues.SchedRunAll | kern/cpu/sched_helpers.c:531-552 | every new environment becomes ready, in order; the call panics exactly when the scheduler had not stopped |
| Scheduler.ProcessQueues.SchedExitEnv | kern/cpu/sched_helpers.c:309-382 | a ready or the running environment moves to the exit queue; a new one reaches the assertion |
| Scheduler.ProcessQueues.SchedKillEnv | kern/cpu/sched_helpers.c:389-474 | the environment leaves whichever of the three queues it is in; the call panics exactly when it is in none and runs here, or nothing runs here |
| Scheduler.ProcessQueues.SchedExitAllReadyEnvs | kern/cpu/sched_helpers.c:640-657 | all ready environments are in the exit queue |
| Scheduler.ProcessQueues.WakeupOne | kern/conc/channel.c:64-83 | the longest asleep becomes ready |
| Scheduler.ProcessQueues.WakeupAll | kern/conc/channel.c:94-108 | all sleepers become ready, the longest asleep first in line |
| Sleeplock.StepInv | kern/conc/sleeplock.c:37-67 | every step of every CPU keeps the invariant |
| Sleeplock.MutualExclusion | kern/conc/sleeplock.c:37-67 | in every run one environment at most has a lock; while the guard is free pid names it |
| Sleeplock.NoLostWakeup | kern/conc/channel.c:33-108 | nobody waits in the channel of a free lock, and nobody is blocked elsewhere |
| Sleeplock.CheckIsExact | kern/conc/sleeplock.c:27-34 | holding_sleeplock tells its caller the truth |
| Sleeplock.OneQueue | kern/cpu/sched_helpers.c:129-253 | an environment is in one queue at most, once |
| Sleeplock.KillAgrees | kern/cpu/sched_helpers.c:389-445 | after a kill the victim's status agrees with its place exactly when it was not ready; a ready one stays READY in no queue |
| Sleeplock.KilledReadyWitness | kern/cpu/sched_helpers.c:407-428 | a run of three actions from a first state to such an environment |
| Sleeplock.OrphansWereKilled | kern/cpu/sched_helpers.c:389-445 | the environments left so are exactly those that were killed while ready |
| Sleeplock.StatusSaysWhere | kern/cpu/sched.c:85-142 | in every run, between critical sections of the queue lock, the status says which queue, or CPU, holds the environment, exactly unless it was killed while ready |
| Sleeplock.SleeperIsOff | kern/conc/channel.c:94-107 | a wakeup finds only environments that have left their CPU |
| Sleeplock.PickInv | kern/cpu/sched.c:85-142 | a dispatch keeps the invariant |
| Sleeplock.WakeInv | kern/conc/channel.c:94-107 | a wakeup keeps the invariant |
| Sleeplock.BlockInv | kern/conc/channel.c:33-55 | going to sleep keeps the invariant |
| SleeplockCalls.AcquireAchieves | kern/conc/sleeplock.c:37-54 | in every run, acquire_sleeplock returns with the lock, marked and naming the caller, besides the locks it had; it leaves by the early check only if the caller had it |
| SleeplockCalls.ReleaseAchieves | kern/conc/sleeplock.c:56-68 | release_sleeplock returns without the lock; if the caller had it, it is free and its channel empty; it leaves early only if the caller did not have it |
| SleeplockCalls.BusyMeansSleep | kern/conc/channel.c:33-55 | a caller that finds the lock busy is in its channel when it drops the guard; one that finds it free has it and is out of the call |
| SleeplockCalls.SleepersInLine | kern/conc/channel.c:94-108 | a sleeper is never set back, and leaves the channel only as the longest asleep, to be READY and last in line for a CPU |
| SleeplockCalls.WaitsForHolder | kern/conc/sleeplock.c:37-68 | a statement cannot go on exactly when it takes a spinlock that another holds |
| SleeplockCalls.CallIsShort | kern/conc/sleeplock.c:37-68 | a call takes eight statements at most, six more for each time it blocks, one for each sleeper it wakes |
| SleeplockCalls.LifeCycle | kern/cpu/sched_helpers.c:190-445 | the ten changes of status there are, and what brings each about |
| SleeplockCalls.GoneForGood | kern/cpu/sched_helpers.c:309-382 | an environment that has exited or was killed never gets a CPU again |
| SleeplockCalls.OrphansNeverRun | kern/cpu/sched_helpers.c:407-428 | neither does one that was killed while ready |
| SleeplockCalls.SchedulingCallsFind | kern/cpu/sched_helpers.c:276-445 | which environments can be created, started, made to exit or killed, by their status |
| SleeplockCalls.RunningMay | kern/cpu/sched.c:275-304 | a running environment may always call, and yield or exit whenever no spinlock is in the way |
| RoundRobin.NoStarvation | kern/cpu/sched.c:275-304 | an environment with m others ahead sees at most m dispatches while it waits, whatever else happens |
| RoundRobin.HowToLeave | kern/cpu/sched.c:275-304 | it leaves the ready queue only when dispatched in its turn, made to exit or killed |
| RoundRobin.StepAhead | kern/cpu/sched_helpers.c:50-71 | no step sets a waiting environment back, and every dispatch of another brings it forward |
| RoundRobin.NoDeadlock | kern/conc/channel.c:33-108 | in every state of every run some CPU can go on |
| Numerals.StrToL | lib/string.c:183-227 | value and end of the number, by blanks, sign, prefix and digits |
| Numerals.ReadsParts | lib/string.c:183-227 | after blanks, one sign and the prefix that settles the base, strtol returns the number of the digits up to the first that is none, negated after a minus sign and cut to 32 bits, and where they end |
| Numerals.EveryStringReads | lib/string.c:183-227 | every string can be read so, for every base argument |
| Numerals.DigitValues | lib/string.c:206-215 | digits, and letters in either case, have their values up to 35, and nothing else has one |
| Numerals.ReadsNumerals | lib/string.c:183-227 | every number a long can hold is read to the end from its numeral after 0x, after 0, or in decimal when the base argument is 0, and in the base given otherwise; after any blanks and either sign |
| Numerals.LToStr | lib/string.c:230-269 | the decimal numeral and a NUL, nothing else written; for the least long the characters the code makes of negative digits |
| Numerals.ReverseInPlace | lib/string.c:254-264 | the digits are reversed and nothing else moves |
| Numerals.PrintNum | lib/printfmt.c:39-53 | the padded numeral is appended to the output |
| Numerals.PrintedLength | lib/printfmt.c:39-53 | exactly max(width, digits) characters |
| Numerals.DigitCount | lib/printfmt.c:39-53 | the number of digits is the least that the base allows |
| Numerals.DigitTable | lib/printfmt.c:52 | the digits are those of the table |
| Numerals.LToStrRoundTrip | lib/string.c:183-269 | strtol undoes ltostr, reading all of it, exactly for every long but the least |
| Numerals.LeastLongIsLost | lib/string.c:230-269 | ltostr of the least long is read as no number at all |
| Numerals.LeastLongText | lib/string.c:230-269 | its text is a minus sign and its digits, each as far below '0' as it should be above |
| Numerals.StrToLUndoesPrintNum | lib/printfmt.c:39-53 | strtol undoes printnum in bases 2 to 16, padded with zeros or spaces, for every value a long can hold |

## Left out

- BlockAllocator.Heap.AllocBlockFF: the lazy first initialization is not modelled; the heap is initialized by its constructor.
- BlockAllocator.Heap.AllocBlockBF: the same.
- BlockAllocator.Heap.constructor: a size of 0, for which the source leaves the allocator uninitialized, is not a heap and is excluded.
- BlockAllocator.Heap.ReallocBlockFF: requests on which the source damages the heap are excluded by `WellBehaved` and `Quiet`, whose conditions are named above; a call on a block that is already free (`lib/dynamic_allocator.c:565-606`), which no caller owns, is too.
- BlockAllocator.Heap.AllocBlock: next fit and worst fit are stubs.
- FrameManager.Manager.AllocateFrame: page buffering is not modelled, and neither is the panic without a free frame, which the model excludes.
- KernelHeap.Heap.Kmalloc: nodes of the extent list are values in this class; their allocation is in KernelRuns, on the same relations but not on the bytes of the nodes. The list exists from the start instead of from the first call.
- KernelHeap.Heap.Kfree: the same; a mapped address where no run starts, from which the source unmaps part of another caller's run, is excluded.
- KernelHeap.Heap.MapFrame: the frame is none of the heap's own and has fewer than 65535 references; `MappedSound` says what happens at the limit.
- BlockAllocator.Heap.Sbrk: the frames are a counter here; KernelHeap.Heap.Sbrk maps the pages, and KernelRuns couples the two.
- KernelHeap.Heap.constructor: the panics for too large a size or too few frames are preconditions.
- PageFile.Store.UpdateEnvPage: the temporary mapping through which the page is read is not modelled.
- PageFile.Store.MakeTable: kernel heap exhaustion is not modelled, nor are the disk copies of page tables.
- PageFile.Store.AddEnvPage: disk errors are not modelled.
- Shares.AllShares.CreateSharedObject: with enough frames the pages asked for are vacant, as the user heap sees to; page tables that are missing, or freed when empty, are not modelled.
- Shares.AllShares.GetSharedObject: only vacant addresses, and fewer than 65535 attachments, the limit `AttachLimit` shows to be exact.
- Shares.AllShares.FreeSharedObject: only a listed object, at a place where it is attached if it has pages; the source reads an uninitialized variable for an unknown ID.
- Sleeplock.StepInv: killing the running environment has no step, since it panics in this kernel (`SchedKillEnv`); sched_kill_all and interrupts other than the clock's are not modelled.
- Spinlock.StepInv: interrupt handlers that run between the steps of another call are not modelled; sched's saving of intena across a context switch is not either.
- krealloc, user-heap marking, page faults, working sets and LRU lists, LIST_CONCAT, console, disk driver and command prompt are not modelled.
