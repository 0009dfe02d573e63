# The CosinusOS kernel's memory, threads and rings in Dafny

This project models the parts of the CosinusOS kernel whose correctness is a matter of shared state: page tables with
copy-on-write fork, the physical frame manager, the buddy, slab and heap allocators, the allocator of virtual ranges,
the areas of a process, program loading, message queues with the scheduler, and the rings of the USB host controller.
Objects that the kernel updates in place are classes whose methods follow the code branch by branch; what their results
mean is stated over plain values (sets of blocks, sequences of spans, maps of tables) and proved as lemmas.

## How it is built

* **Page tables** (`PageTables`, `Vmm`, `Boot`). Memory is a map from table frames to 512 entries. A ghost node per table
  records its level, one entry that points to it, and whether it hangs below a slot that is its root's own. Third-level
  tables that are not may be shared by any slots of any roots, and aliased within one, as the tables that the kernel
  boots with are (`Boot.BootIsOk`). `Sees` says when two slots lead to the same table; `vmap` and `vunmap` are proved to
  change exactly the pages that are seen through the slot, through table creation, the split of a 2 MB page, and the
  release of emptied tables, and `Vmm.OnePageExactly` says when that is one page. `Vmm.UnmapExactly` says what the
  release leaves of shared tables. Which flags an entry gets, and which it keeps, is stated bit by bit of the entries
  that a walk meets (`Vmm.Way`), and so is the answer of `valid_user`.
* **Copy-on-write** (`CowState`, `FrameUses`, `CopyOnWrite`, `HugeFault`, `Fork`, `Teardown`, `EagerCopy`). One
  invariant, `CowState.Sound`, says that the count of every frame that user code maps below private slots is at least
  the number of entries that map it (or is pinned at 65535), that a writable entry is the only one for its frame, and
  that no mapped frame is free. `AllCounted` says that the counts are exact. Fork and teardown are specified for every
  root, shared slots and huge pages included (`Fork.IsFork`, `Teardown.TornDown`), down to the number of references that
  each frame gets or loses (`PageTables.Uses`); `FrameUses` relates that number to owners.
  * Every fork keeps the invariant (`Fork.CloneUserP4`), and the counts exactly under a stated condition
    (`Fork.ForkCountsExactly`). The child's new tables belong to its slot alone if the copied ones did to the parent's.
  * A teardown keeps the invariant exactly if it spares the others (`Teardown.SoundExactly`), as the teardown of a root
    that owns its upper slots does (`Teardown.OwnSpares`).
  * `EagerCopy.Run` shows that after starting, mapping, remapping, forking, writing, unmapping and ending of processes,
    in any order, from the state that the kernel boots to (`Boot.Start`), each process reads and may write what it could
    had every fork copied all pages at once. A process whose end would not spare the others must not end; while slots
    are shared `Run` stops before an end, and `EagerCopy.Step` goes on where the state allows it.
  * `HugeFault` is the branch of the write fault for 2 MB pages, for any root and any tables.
* **Frames** (`Words`, `Pmm`). The bitmap with its search hint against the set of free frames.
* **Kernel heap** (`BuddyBlocks`, `BuddyLists`, `Buddy`, `Slab`, `KernelHeap`). The buddy's free blocks are the unique
  coalesced decomposition of its free pages, which is why trusting the bitmap in the coalescing step is sound. The slab
  takes its pages from the buddy, and the heap's books of live allocations balance both; pages that a release by the
  smaller order leaves behind are accounted for as lost.
* **Virtual ranges** (`VSpans`, `Valloc`). The bump pointer and the free array are a function of the set of live pages.
* **Processes** (`VmaTable`, `VmaSearch`, `Vma`, `UserPages`, `UserRange`, `Elf`). Areas and their pages run over the
  same page tables: which pages user code sees, in this and in every other root, is what `vmap` and `vunmap` leave. Ends
  of areas and sums of the search wrap at 2^64; the search is a step function over any table whatsoever, with the exact
  condition under which it ends. Areas stay sorted and disjoint, guard pages unmapped, exactly where stated.
* **Threads** (`Sched`, `Ipc`) and the **USB rings** (`Xhci`) as step systems.

Running out of frames is a kernel panic: methods report it (`OutOfMemory`, `Exhausted`, `NoMemory`, `Stopped`, `halted`)
and promise that no frame was free; nothing runs afterwards. Physical addresses of tables and pages are frame numbers.

## Where the code does not do what is wanted of it

Each of these is kept in the model as the code has it. The members named state what goes wrong, on which inputs, and
when it does not.

* `boot.asm:45-50` leads the top-level slots 0 and 256 to one table of huge pages, and `vmm.rs:125-132, 313-319` copy
  both into every root, although slots from 256 on are treated as a process's own.
  * A page mapped through slot 0 changes at its alias, too (`Boot.AliasChanges`); a mapping changes one page of a root
    exactly if no other slot of that root leads to the same table (`Vmm.OnePageExactly`).
  * A fork takes the write access to the first gigabyte from every root (`Boot.ForkTakesKernelWrites`); it leaves
    others' rights alone exactly if nobody shares a writable page below a slot that it clones (`Fork.RightsExactly`).
  * A fork counts the frames below slots that are not the process's own although no owner is added: the counts stay
    exact exactly if no frame that counts is mapped or covered there (`Fork.ForkCountsExactly`), which user pages in the
    first gigabyte are (`Boot.ForkOvercounts`). Such a frame is not freed when its last owner goes.
  * A teardown frees frames of the first gigabyte that are in use, the kernel's root among them
    (`Boot.TeardownFreesUsed`, `Boot.TeardownHurtsKernel`). Other roots stand exactly if no table that their walks pass
    lies below an upper slot of the root or loses its last reference (`Teardown.TeardownExactly`). That nobody leads to
    its upper slots is not enough: a process forks, another one is made, the child ends, and the new root is free
    (`Boot.ChildEndFreesRoot`, `Teardown.ForkSpawnExit`). Slots of its own are (`Teardown.OwnSpares`,
    `Teardown.SparesStand`).
* `vmm.rs:478-499` decides by the count of the first frame of a 2 MB page whether the page is copied
  (`HugeFault.HandleHugeFault`). Each frame of a copied page loses a reference: the invariant is kept exactly if each
  can spare one (`HugeFault.CopySoundExactly`). Free frames count once, so that after a fork a page of free frames
  is taken for a shared one; where the run of 512 frames that is taken for the copy lies in the page itself, its frames
  are mapped and free at once (`HugeFault.OverlapFrees`).
* `vmm.rs:332-339` shares slots 0 to 255 between parent and child. A later change shows in the other one exactly if the
  page lies there and the parent had the slot (`Fork.LaterChangesShow`, `Fork.LowerHalfIsOne`); the heap is such a place
  (`Vma.HeapIsShared`), and so is every address without bit 47 (`Vma.ClonedByBit47`).
* `vmm.rs:389-395` marks read-only pages copy-on-write, too. A store to a page after a fork is accepted; that is the
  answer before the fork exactly if the page was writable or marked (`Fork.ForkedPagesAreMarked`).
* `vmm.rs:147` drops no reference when it maps over a page. All counts stay what their owners are exactly if no user page
  was mapped there (`CopyOnWrite.MapFresh`, `CowState.ForgetSound`).
* `vmm.rs:298-306` accepts a buffer whose end wraps to or below its own first page without looking at it. A buffer that
  ends inside the last page is refused, or the loop goes round for ever, exactly if user code may use every page
  (`Vmm.AddressSpaces.ValidBuf`). `valloc.rs:185-197` accepts wrapped ends likewise (`Valloc.VAddrSpace.Contains`).
* `vmm.rs:207-216` gives back a third-level table of the lower half that became empty. A root still leads to it then
  exactly if another slot has the table, too (`Vmm.UnmapExactly`). So when parent or child unmaps a page after a fork,
  the other one is left with a freed table exactly if it was the last page below a slot that they share
  (`Fork.ForkUnmapFrees`), as the only page below a slot is (`Vmm.AddressSpaces.Vmap`, `Fork.LonePageFrees`).
* `vma.rs:205-221` and `82-85` add in 64 bits, over tables into which a fixed hint enters any area.
  * The search runs for ever exactly if it comes to an area in its way that ends in the last page, and to one again
    from address 0 (`VmaSearch.SearchEnds`, `Vma.AddressSpace.FindFreeRange`). One area over everything does that
    (`VmaSearch.WholeSpaceHangs`), a lone page at the top does not (`VmaSearch.LonePageIsNoHarm`).
  * Otherwise a place that it answers is the first fit exactly if the search did not go back to 0 and the sum at the
    place does not wrap, and if it answers none there is none (`VmaSearch.AnswerMeans`). The place lies below the start
    exactly if the search went back and found it there (`VmaSearch.AnswerBelow`, `VmaSearch.BackBelowTheStart`). The
    answer is the first fit whenever neither the start nor the rounded end of an area misleads the sum and no area ends
    in the last page (`VmaSearch.HonestIsFirstFit`).
  * Where all areas end below the top, only the start can mislead (`VmaSearch.BelowTheTop`, `Vma.PlaceIsGood`), as it
    does for 2^64 - 2^20 bytes on a fresh space (`Vma.HugeSizeMisleads`): an area is entered that ends below its start.
* `vma.rs:262-310` returns 0 both for a failure and for an area placed at 0, which happens exactly if the search comes to
  0, at its start or by going back, and finds room there (`VmaSearch.AnswerZero`, `Vma.PlaceAtZero`). It starts at 0
  exactly if hint and shift, in 64 bits, add up to less than a page (`Vma.StartsAtZero`, `Vma.AreaAtZero`).
* `vma.rs:285-303` maps an area at once whatever its guard flag says (`Vma.EagerIsShown`), and an area 2^48 above a page
  at that page (`Vma.HighAreaIsSeenBelow`). What another process maps fills a guard area exactly if one of its pages
  shows the range (`Vma.GuardFilledByOthers`).
* `vma.rs:339-406`: a heap that shrinks to nothing leaves an empty area behind; with an empty heap a negative increment
  empties whatever area covers the heap's start; a first growth into another area, or with a full table, leaves the
  table wrong (`Vma.AddressSpace.Sbrk`, `Vma.EmptyHeapAreaStays`, `Vma.OtherAreaEmptied`).
* `slab.rs:34` follows two links instead of one: each `pop` drops a slot for good, and a list of one slot makes it read
  through a null pointer. Of a fresh page every other slot is ever served (`Slab.SlabClass.Exhaust`, `Slab.HalfIsServed`).
  So `free_count` counts dropped slots too: `free_count` plus live slots is `slab_count` times slots per page, but the
  list has fewer entries than that count says. After the null read nothing is claimed, although the code goes on with
  what it finds at address 0 as the head of the list: `Slab.SlabClass.Pop` and `KernelHeap.KernelHeap.DoAlloc` report a
  fault, and no result of this project speaks of a heap in which one was reported.
* `kernel_heap.rs:163` releases by size alone what was cut for the larger of size and alignment. The pages in between
  are lost exactly for layouts that are over-aligned for their size (`KernelHeap.KernelHeap.Release`,
  `KernelHeap.ReleasableExactly`, `KernelHeap.OveralignedIsNotReleasable`).
* `buddy.rs:94-99` caps the order, so exactly requests above 2 MB get a block that is too short (`Buddy.ServedLength`).
* `valloc.rs:126-132` adds in 64 bits: a request of about 2^52 pages wraps around and is served without any page
  (`Valloc.VAddrSpace.Alloc`, `Valloc.WrapMisleads`); requests within the window never do (`Valloc.NeverMisled`).
* `pmm.rs:94-95` counts frames that the bitmap has no bits for (`Pmm.FrameManager.CountIsExact`).
* `user.rs:55-59`: a segment whose rounded end passes 2^64 is reported as loaded with nothing mapped (`Elf.MapElfSegment`).
* `threading.rs:287-300`: when no thread is ready, the one that just went to sleep or died runs again
  (`Sched.RunsTheRunnable`, `Sched.DeadThreadRuns`). So a timed sleep ends early, with its alarm left behind, exactly if
  a call before its tick finds nobody else to run (`Sched.SleepsOn`, `Sched.SleepsUntil`). A thread that is marked as
  running without being the current one stays marked (`Sched.OneRuns`).
* `syscall_api.rs:293` adds in 64 bits: a sleep whose end wraps around ends at once, or never (`Ipc.Threads.Sleep`).
* `vmm.rs:111-116` splits a huge page into pieces that user code may not use, whatever the flags of the whole
  (`Vmm.AddressSpaces.SplitHuge`).
* `xhci.rs:258-262, 279-280` push control words whose cycle bit is already set; in every second lap of the ring such
  entries are invisible to the controller (`Xhci.PresetBitMatches`, `Xhci.PresetBitHides`). With 255 entries
  outstanding, a controller that still stands at the link entry is lapped (`Xhci.LappedAtTheLink`).
* `frame.rs:65-68` would wrap a count of 0 to the pinned value (`Pmm.DecRef`); under `CowState.Sound` no mapped frame has
  count 0.

## Model

| member | source | states |
|---|---|---|
| BuddyBlocks.FullyFreeIsOneBlock | src/kernel/src/allocator/buddy.rs:181-191 | with eager coalescing, a block all of whose pages are free lies inside one single free block |
| BuddyBlocks.CanonicalIsMaximal | src/kernel/src/allocator/buddy.rs:163-191 | a block is a free block exactly if it is fully free and its parent is not, or it has the top order |
| BuddyBlocks.CanonicalIsUnique | src/kernel/src/allocator/buddy.rs:163-191 | the set of free blocks is a function of the set of free pages |
| BuddyBlocks.FreeBuddyIsABlock | src/kernel/src/allocator/buddy.rs:181-191 | a buddy whose pages are all free is itself a node of the list of that order, so coalescing may trust the bitmap |
| BuddyBlocks.NoLargeBlock | src/kernel/src/allocator/buddy.rs:163-179 | no list from an order on has a node exactly if no aligned run of that order's length is entirely free |
| BuddyLists.LinkedPush | src/kernel/src/allocator/buddy.rs:130-138 | pushing a node in front keeps all doubly linked lists well linked |
| BuddyLists.LinkedRemove | src/kernel/src/allocator/buddy.rs:151-161 | unlinking a node anywhere keeps all lists well linked |
| Buddy.SizeToOrder | src/kernel/src/allocator/buddy.rs:93-99 | the smallest order whose block is long enough, or the top order when none is |
| Buddy.FlipIsBuddy | src/kernel/src/allocator/buddy.rs:101-105 | exclusive or with the block length moves an offset to the buddy's offset |
| Buddy.BuddyStatus | src/kernel/src/allocator/buddy.rs:101-191 | for a used block, the region bound and the bitmap together say yes exactly when the buddy is a listed free block |
| Buddy.BuddyAllocator.Init | src/kernel/src/allocator/buddy.rs:53-77 | for any page count that the bitmap has bits for, ragged tails included, all pages are free and filed as the unique coalesced set of blocks |
| Buddy.BuddyAllocator.BitmapSetFree | src/kernel/src/allocator/buddy.rs:107-112 | the bits of exactly the block's pages become free |
| Buddy.BuddyAllocator.BitmapSetUsed | src/kernel/src/allocator/buddy.rs:114-119 | the bits of exactly the block's pages become used |
| Buddy.BuddyAllocator.BitmapIsFree | src/kernel/src/allocator/buddy.rs:121-128 | yes exactly if every page of the block is free |
| Buddy.BuddyAllocator.FreePush | src/kernel/src/allocator/buddy.rs:130-138 | the block joins lists, bitmap and byte count together |
| Buddy.BuddyAllocator.FreePop | src/kernel/src/allocator/buddy.rs:140-149 | the first block of the order leaves lists, bitmap and byte count together |
| Buddy.BuddyAllocator.FreeRemove | src/kernel/src/allocator/buddy.rs:151-161 | a block anywhere in its list leaves lists, bitmap and byte count together |
| Buddy.BuddyAllocator.FindList | src/kernel/src/allocator/buddy.rs:163-170 | the smallest order with a nonempty list that can serve the request |
| Buddy.BuddyAllocator.AllocOrder | src/kernel/src/allocator/buddy.rs:163-179 | null exactly if no aligned run of that length is free; else a block that was wholly free is cut out and the rest stays coalesced |
| Buddy.BuddyAllocator.FreeCoalesce | src/kernel/src/allocator/buddy.rs:181-191 | the block's pages become free, and the blocks are again the unique coalesced set |
| Buddy.BuddyAllocator.OrderForSize | src/kernel/src/allocator/buddy.rs:93-99 | the loop computes the smallest sufficient order with the cap |
| Buddy.BuddyAllocator.Alloc | src/kernel/src/allocator/buddy.rs:79-84 | complete and exact: null only when no aligned run is free; otherwise a wholly free block disjoint from all live ones becomes live |
| Buddy.BuddyAllocator.Free | src/kernel/src/allocator/buddy.rs:86-91 | the block of the order of the size becomes free; of a live block that was cut with a larger order the rest is lost; null or size 0 changes nothing |
| Buddy.BuddyAllocator.AllocThenFree | src/kernel/src/allocator/buddy.rs:79-91 | allocating and giving straight back restores the free blocks exactly if nothing was served or the two orders agree; otherwise the remaining pages are lost |
| Buddy.BuddyAllocator.Drain | src/kernel/src/allocator/buddy.rs:53-91 | giving back all live blocks in any order frees every page that was not lost |
| Buddy.DrainedIsInitial | src/kernel/src/allocator/buddy.rs:53-77 | two coalesced states of a region with everything free have the same blocks |
| Buddy.TakeAndReturn | src/kernel/src/allocator/buddy.rs:163-191 | a block taken out and put back leaves the same set of free blocks |
| Buddy.ServedLength | src/kernel/src/allocator/buddy.rs:93-99 | the block is long enough exactly for requests up to 2 MB, and shorter than twice the request or page |
| Buddy.ReleaseOrder | src/kernel/src/allocator/buddy.rs:79-99 | ordering by max(size, align) and by size agree exactly if the alignment fits the size's own block or both are capped |
| Buddy.FirstPart | src/kernel/src/allocator/buddy.rs:86-105 | the block of a smaller order at the same address is the first part of the larger one, and the two differ by exactly the difference of their lengths |
| Slab.ClassFor | src/kernel/src/allocator/slab.rs:89-95 | the first class whose slots are long enough, or none above 512 bytes |
| Slab.SlabClass.Pop | src/kernel/src/allocator/slab.rs:30-37 | serves the first slot and drops the second; null on an empty list, a null read on a list of one; the partition into listed, live and dropped slots stays |
| Slab.SlabClass.Push | src/kernel/src/allocator/slab.rs:39-45 | the slot becomes the head of the linked list |
| Slab.SlabClass.PopulateFromPage | src/kernel/src/allocator/slab.rs:47-55 | the page is cut into as many slots as it holds; they come first on the list, slot i at the page plus i sizes, and belong to no other page |
| Slab.SlabClass.Exhaust | src/kernel/src/allocator/slab.rs:30-37 | popping until nothing comes serves every other slot, and ends in a null read when the count is odd |
| Slab.HalfIsServed | src/kernel/src/allocator/slab.rs:30-37 | of n listed slots n/2 are served, those at even positions |
| Slab.FreshPageServesHalf | src/kernel/src/allocator/slab.rs:30-55 | half of the slots of a fresh page are ever served |
| Slab.SlabAllocator.FindClass | src/kernel/src/allocator/slab.rs:89-95 | the search loop finds the class that ClassFor names |
| Slab.SlabAllocator.Alloc | src/kernel/src/allocator/slab.rs:97-110 | a slot of the class that was not live, from the list or from a fresh buddy page; null only without a class or without list and page |
| Slab.SlabAllocator.Free | src/kernel/src/allocator/slab.rs:112-116 | the slot leaves the live slots of its class; null or an oversized request changes nothing |
| KernelHeap.KernelHeap.constructor | src/kernel/src/allocator/kernel_heap.rs:39-45 | the fresh heap has balanced books and all pages free |
| KernelHeap.KernelHeap.DoAlloc | src/kernel/src/allocator/kernel_heap.rs:118-149 | exactly when nothing comes; up to 512 bytes aligned to no more than the size a slot of the smallest class is served, else a block of the smallest order for size and alignment; a served address is new; a refusal by the gate undoes the allocation exactly if the block comes back whole, and loses its remaining pages otherwise |
| KernelHeap.KernelHeap.FallBack | src/kernel/src/allocator/kernel_heap.rs:126-128 | when the slab has nothing the buddy has nothing either, so the fallback never yields a block |
| KernelHeap.KernelHeap.Release | src/kernel/src/allocator/kernel_heap.rs:142-164 | the allocator that served an address takes it back; pages are lost exactly if the layout is over-aligned for its size |
| KernelHeap.KernelHeap.DoDealloc | src/kernel/src/allocator/kernel_heap.rs:151-164 | a live allocation leaves the books and they still balance, with pages lost exactly if the layout is over-aligned; a refusing gate halts |
| KernelHeap.ServedWhere | src/kernel/src/allocator/kernel_heap.rs:118-134 | every live allocation is, by its size and alignment, a live slot of the smallest class or a live block of the smallest order |
| KernelHeap.ReleasableExactly | src/kernel/src/allocator/kernel_heap.rs:118-164 | exactly which layouts get their whole block back: by alignment against the block of the size |
| KernelHeap.OveralignedIsNotReleasable | src/kernel/src/allocator/kernel_heap.rs:130-163 | eight bytes aligned to two pages are cut as two pages and given back as one |
| KernelHeap.FootprintHolds | src/kernel/src/allocator/kernel_heap.rs:118-134 | the slot or block holds max(size, align) bytes exactly for requests up to 2 MB |
| KernelHeap.LiveAllocationsApart | src/kernel/src/allocator/kernel_heap.rs:118-164 | no two live allocations, slots or blocks, share a byte |
| KernelHeap.LiveAllocationsAligned | src/kernel/src/allocator/kernel_heap.rs:118-149 | every live allocation has the alignment asked for when the heap base has it |
| Pmm.FrameManager.Init | src/kernel/src/mm/pmm.rs:81-101 | every managed frame but the first is free, and counted once |
| Pmm.FrameManager.MarkUsed | src/kernel/src/mm/pmm.rs:61-66 | the frame leaves the free set; the count and the hint stay right |
| Pmm.FrameManager.MarkFree | src/kernel/src/mm/pmm.rs:69-75 | the frame joins the free set; the count and the hint stay right |
| Pmm.FrameManager.ScanWords | src/kernel/src/mm/pmm.rs:121-135 | the lowest free frame whose bit lies in the given words, if any |
| Pmm.FrameManager.AllocNoLock | src/kernel/src/mm/pmm.rs:113-138 | the lowest free frame of all, whatever the hint; out of memory exactly if no frame is free |
| Pmm.FrameManager.NoneLeft | src/kernel/src/mm/pmm.rs:113-138 | nothing free from the hint on means nothing free at all, so the second pass never finds anything |
| Pmm.FrameManager.LowestFree | src/kernel/src/mm/pmm.rs:113-138 | the lowest free frame from the hint on is the lowest of all |
| Pmm.FrameManager.AllocHuge | src/kernel/src/mm/pmm.rs:159-187 | the first aligned run of 512 free frames past the first 2 MB, counted once each; 0 exactly if there is none |
| Pmm.FrameManager.FreeNoLock | src/kernel/src/mm/pmm.rs:190-195 | a managed frame becomes free; any other address is ignored |
| Pmm.FrameManager.FreeHuge | src/kernel/src/mm/pmm.rs:207-214 | the managed frames among the 512 become free; an unaligned address is ignored |
| Pmm.FrameManager.CountIsExact | src/kernel/src/mm/pmm.rs:94-95 | the count is the number of free frames exactly if memory has no more frames than the bitmap has bits |
| Pmm.FrameManager.FrameInit | src/kernel/src/mm/frame.rs:49-53 | the count of a managed frame becomes 1 and no other changes |
| Pmm.FrameManager.FrameInc | src/kernel/src/mm/frame.rs:37-45 | one more, pinned at 65535, although the addition itself wraps |
| Pmm.FrameManager.FrameDec | src/kernel/src/mm/frame.rs:57-72 | one less unless pinned; the frame becomes free exactly when its count was 1 |
| Pmm.FrameManager.PinnedStays | src/kernel/src/mm/frame.rs:34-72 | over any run of taking frames, sharing, dropping and giving back other frames, a count at 65535 stays there and its frame stays used |
| VSpans.RepresentationIsUnique | src/kernel/src/valloc.rs:103-238 | equal sets of live pages have equal bump pointers and free lists |
| VSpans.FirstFitIsLowest | src/kernel/src/valloc.rs:107-123 | the front of the first region that is long enough is the lowest run of free pages |
| VSpans.NoFitMeansTop | src/kernel/src/valloc.rs:126-132 | when no region is long enough every free run starts at or above the bump pointer |
| VSpans.LiveCount | src/kernel/src/valloc.rs:207-211 | live pages are the pages below the bump pointer less those of the regions |
| Valloc.VAddrSpace.FreeRemove | src/kernel/src/valloc.rs:216-222 | removes one region and keeps the others in order |
| Valloc.VAddrSpace.Coalesce | src/kernel/src/valloc.rs:224-238 | merging all touching neighbours makes the representation canonical and changes no live page |
| Valloc.VAddrSpace.Alloc | src/kernel/src/valloc.rs:103-133 | lowest-address first fit, complete: None exactly if no run of that length is free in the window, except in the wrapped case, where nothing becomes live |
| Valloc.VAddrSpace.Free | src/kernel/src/valloc.rs:136-183 | exactly the given live pages are freed, unless the array is full and they do not end at the bump pointer |
| Valloc.VAddrSpace.GiveBackTop | src/kernel/src/valloc.rs:140-157 | lowering the bump pointer absorbs the region below and restores the canonical form |
| Valloc.VAddrSpace.Contains | src/kernel/src/valloc.rs:185-197 | yes exactly if every byte of a nonempty range lies in a live page, when its end does not wrap; what a wrapped end makes of the answer, exactly |
| Valloc.VAddrSpace.UsedPages | src/kernel/src/valloc.rs:207-211 | the exact number of live pages |
| Valloc.VAddrSpace.Reset | src/kernel/src/valloc.rs:199-204 | no page is live |
| Valloc.VAddrSpace.AllocThenFree | src/kernel/src/valloc.rs:103-183 | giving a fresh allocation back restores the identical state exactly if the live set is restored, that is, while the array has room |
| Valloc.NeverMisled | src/kernel/src/valloc.rs:126-132 | requests no longer than the window never meet the wrapped sum |
| Valloc.WrapMisleads | src/kernel/src/valloc.rs:126-132 | 2^52 pages are answered with the bump pointer, which does not move |
| PageTables.OnePath | src/kernel/src/mm/vmm.rs:252-275 | below the top level a last-level table is reached along one path only |
| PageTables.Hit | src/kernel/src/mm/vmm.rs:252-275 | two walks end in the same entry exactly if they differ in the top-level slot at most and both slots lead to the same table |
| PageTables.OneTop | src/kernel/src/mm/vmm.rs:252-275 | a slot marked as the root's own leads to a table that no other slot of any root leads to |
| PageTables.LeafStep | src/kernel/src/mm/vmm.rs:147-147 | storing a last-level entry changes translation, user access and write access of its own page and nothing else, shared and aliased tables included |
| PageTables.GrowStep | src/kernel/src/mm/vmm.rs:95-121 | linking in a new table, empty or made of the pieces of a huge page, changes no translation |
| PageTables.PruneStep | src/kernel/src/mm/vmm.rs:207-216 | taking out an empty table changes no translation |
| PageTables.UserOkTranslates | src/kernel/src/mm/vmm.rs:279-296 | what `valid_user` accepts translates |
| Vmm.PageFromPath | src/kernel/src/mm/vmm.rs:144-147 | the page number is the four indices read as digits of base 512, the top level first |
| Vmm.PathIsPage | src/kernel/src/mm/vmm.rs:144-147 | below 2^48 two addresses have the same indices exactly if they lie on one page |
| Vmm.FillStands | src/kernel/src/mm/vmm.rs:107-116 | the 512 pieces translate as the huge page did |
| Vmm.AddressSpaces.Goc | src/kernel/src/mm/vmm.rs:95-121 | the entry leads to a table afterwards, found, made or split; bit by bit which flags it has; a new table is empty, or holds the 512 pieces, writable and not for user code; nothing that was there translates differently; new tables come from free frames, and only out of frames does it fail |
| Vmm.AddressSpaces.SplitHuge | src/kernel/src/mm/vmm.rs:111-116 | the child maps the 512 pieces of the huge page in order, each present and writable, without user and copy-on-write bit |
| Vmm.AddressSpaces.Vmap | src/kernel/src/mm/vmm.rs:138-151 | exactly the pages that are seen through the slot change, in every root and at every alias, to the given frame; the entry where the walk ends has exactly the flags asked for, those on the way are writable, for user code exactly if asked for or so before, and lose nothing; refused exactly for unaligned addresses or a null root; below an empty slot of the lower half it is the only page |
| Vmm.WaysStay | src/kernel/src/mm/vmm.rs:138-151 | every other small page that any root maps keeps its entry, flags and all, and the entries on its way lose neither write nor user bit |
| Vmm.WayExact | src/kernel/src/mm/vmm.rs:95-121 | the three entries on the way have the flags that they had, if they led anywhere, with those asked for |
| Vmm.OnePageExactly | src/kernel/src/mm/vmm.rs:138-151 | a page that gets a new translation is the only one of a root to change exactly if no other slot of that root leads to the same table |
| Vmm.PrivateIsAlone | src/kernel/src/mm/vmm.rs:138-151 | a slot that is the root's own meets that condition in every root |
| Vmm.OnlyPageAddresses | src/kernel/src/mm/vmm.rs:252-275 | the same per address: frame plus offset on the page, the old answer everywhere else |
| Vmm.AddressSpaces.PtEmpty | src/kernel/src/mm/vmm.rs:172-174 | yes exactly if all 512 entries are zero |
| Vmm.AddressSpaces.ClearLeaf | src/kernel/src/mm/vmm.rs:198-205 | the entry is zeroed and its frame loses one reference |
| Vmm.AddressSpaces.Reclaim | src/kernel/src/mm/vmm.rs:208-213 | a table goes back to the frame manager and the entry that led to it is cleared |
| Vmm.AddressSpaces.ReclaimEmpty | src/kernel/src/mm/vmm.rs:207-216 | from the last level up, exactly the tables on the way that have become empty go back, the third one below the lower half only, whoever shares them |
| Vmm.AddressSpaces.Vunmap | src/kernel/src/mm/vmm.rs:177-218 | the exact new state for any root, shared tables included; where no shared table becomes empty and no page table is mapped, exactly this page stops translating, wherever it is seen, its frame loses a reference, no emptied table is left on the way, and slots stay as they were |
| Vmm.UnmapExactly | src/kernel/src/mm/vmm.rs:177-218 | unmapping leaves every top-level entry and the table it leads to, unless it was the last page below a slot of the lower half; then slot and table go, and some root still leads to the freed table exactly if the slot was shared |
| Vmm.AddressSpaces.VirtToPhys | src/kernel/src/mm/vmm.rs:252-275 | the translation, for any root: read off the entries on the way, the frame or the 2 MB page and the offset in it |
| Vmm.AddressSpaces.ValidUser | src/kernel/src/mm/vmm.rs:279-296 | yes exactly if the three upper entries are present with the user bit, and the third is huge or the last one is present with the user bit, for any root |
| Vmm.AddressSpaces.ValidBuf | src/kernel/src/mm/vmm.rs:298-306 | unless the end lies inside the last page, yes exactly if it lies at or below the first page or user code may use everything between; so for a buffer that does not wrap, every byte; with an end inside the last page never yes, and for ever exactly if user code may use all there is |
| Boot.BootIsOk | boot.asm:45-80 | the tables the kernel boots with meet what all results ask of page tables and counts, and have slot 256 as their only upper slot |
| Boot.BootMaps | boot.asm:40-83 | which address each address below 2^48 goes to at the boot tables, and that user code may use none of them |
| Boot.BootSlotsKept | src/kernel/src/mm/vmm.rs:125-132 | so it is for every root that is copied from one with these tables |
| Boot.Start | src/kernel/src/mm/vmm.rs:125-132 | from the boot tables the kernel's own root is made, with all their slots, and the state is one that runs of processes begin in, with exact counts and slot 256 shared |
| Boot.MirrorSharesLow | src/kernel/src/mm/vmm.rs:125-132 | every root copied from one with these slots has them, too |
| Boot.AliasChanges | src/kernel/src/mm/vmm.rs:138-151 | with these slots a page mapped through slot 0 changes at its alias in slot 256, of every such root |
| Boot.ForkTakesKernelWrites | src/kernel/src/mm/vmm.rs:341-382 | with these slots a fork marks the huge pages of the first gigabyte for every root, the kernel's included, so that rights of others are taken |
| Boot.TeardownFreesUsed | src/kernel/src/mm/vmm.rs:420-435 | with these slots a teardown frees every frame of the first gigabyte whose count is 1, whoever uses it |
| Boot.TeardownHurtsKernel | src/kernel/src/mm/vmm.rs:410-451 | so a kernel root in that gigabyte is freed while it is still walked |
| Boot.ChildEndFreesRoot | src/kernel/src/mm/vmm.rs:410-451 | with these slots: after a fork and the making of another process in the first gigabyte the end of the child frees the new root, although nobody leads to what the child gives back |
| Boot.ForkOvercounts | src/kernel/src/mm/vmm.rs:362-382 | with these slots a fork leaves the count of a user page in the first gigabyte too high, unless it is pinned |
| CowState.GrowSound | src/kernel/src/mm/vmm.rs:95-121 | making tables keeps counts, owners and exclusiveness |
| CowState.StoreSound | src/kernel/src/mm/vmm.rs:147-147 | a fresh frame mapped where nothing was has that one owner, and its count of 1 is right |
| CowState.ClearSound | src/kernel/src/mm/vmm.rs:198-205 | one owner less is one reference less, and the frame is free when it was the last and not pinned |
| CowState.ForgetSound | src/kernel/src/mm/vmm.rs:147-147 | overwriting an entry leaves its frame a reference that no owner has: counts stay at least the number of owners |
| CowState.ReplaceSound | src/kernel/src/mm/vmm.rs:147-147 | a fresh frame in place of whatever was mapped keeps exclusiveness, and exact counts if nothing was |
| CowState.ShrinkSound | src/kernel/src/mm/vmm.rs:207-216 | giving back empty tables keeps counts, owners and exclusiveness |
| CowState.ShareSound | src/kernel/src/mm/vmm.rs:389-395 | one owner more is one reference more or a pinned count, and no owner may write |
| CowState.OwnSound | src/kernel/src/mm/vmm.rs:510-512 | giving the only owner write access keeps exclusiveness |
| CopyOnWrite.LeafServesOne | src/kernel/src/mm/vmm.rs:325-406 | below a root's own slots an entry serves one page of one address space |
| CopyOnWrite.WriteSolo | src/kernel/src/mm/frame.rs:75-78 | writing a frame with a single owner is seen at that one page only |
| CopyOnWrite.MapFresh | src/kernel/src/mm/vma.rs:427-432 | the page reads as zeroes and no other page of any address space changes, also over a mapped page; every count stays what its owners are exactly if no user page was mapped there |
| CopyOnWrite.UnmapUser | src/kernel/src/mm/vmm.rs:177-218 | the page is gone from one address space only, its entry owns no frame any more, and a frame nobody else maps is free unless pinned |
| CopyOnWrite.FrameCowCopy | src/kernel/src/mm/frame.rs:84-102 | a fresh frame with the same contents and count 1, and one reference less to the old one |
| CopyOnWrite.HandleCowFault | src/kernel/src/mm/vmm.rs:458-525 | refused exactly if the page is absent or not marked; otherwise nobody reads anything different, the entry is writable and unmarked with its other flags kept, and it keeps its frame exactly if its count was at most 1 |
| HugeFault.HandleHugeFault | src/kernel/src/mm/vmm.rs:478-499 | for a 2 MB page of any root: refused exactly if it is not marked; opened in place exactly if its first frame is counted once at most; otherwise copied to the first free run, or refused exactly if there is none; the exact new state |
| HugeFault.MovedMeans | src/kernel/src/mm/vmm.rs:490-493 | frame by frame: each old frame loses a reference, each new one is counted once, and a frame that is both ends up free |
| HugeFault.StoredOnly | src/kernel/src/mm/vmm.rs:484-494 | a new entry for a huge page changes where exactly those walks end that are seen through the slot and lie in the page |
| HugeFault.CopySoundExactly | src/kernel/src/mm/vmm.rs:486-494 | the copy keeps the invariant exactly if every frame of the old page can spare a reference, and then exact counts stay exact |
| HugeFault.InPlaceSound | src/kernel/src/mm/vmm.rs:482-484 | opening the page in place neither makes nor breaks the invariant |
| HugeFault.CopyReads | src/kernel/src/mm/vmm.rs:486-494 | on 2 MB boundaries the copy reads as the page did wherever it is seen, and everything else as before, but what was mapped to frames of the run that was taken |
| HugeFault.CopyKeepsViews | src/kernel/src/mm/vmm.rs:486-494 | user code below private slots reads and may write what it could |
| HugeFault.OverlapFrees | src/kernel/src/mm/vmm.rs:487-493 | a frame of the run that was taken is mapped by the new entry, and free as well exactly if it lies in the old page |
| CopyOnWrite.UserStore | src/kernel/src/mm/user.rs:178-216 | a write by user code is seen by the writer alone; refused exactly if the page is not there for user code or neither writable nor marked |
| Fork.ClonePt | src/kernel/src/mm/vmm.rs:384-396 | every user page of a last-level table is shared with one reference more, kernel pages are copied over |
| Fork.CloneTable | src/kernel/src/mm/vmm.rs:350-398 | everything below a table has a counterpart that maps the same frames, huge pages included; entries that lead to tables are present, writable and for user code on both sides; every frame gets as many references as it is mapped there; kernel pages are as they were |
| Fork.IncAll | src/kernel/src/mm/vmm.rs:362-372 | each of the 512 frames of a huge page gets one reference more |
| Fork.CloneUserP4 | src/kernel/src/mm/vmm.rs:325-406 | for any root, whoever shares its slots: a new root whose upper half is a copy and whose lower half has the parent's very entries; in both, what leads to tables of the upper half is for user code and writable; every frame gets exactly as many references as it is mapped or covered below the cloned slots; counts stay at least the number of owners, and writable pages exclusive |
| Fork.ForkIsCopy | src/kernel/src/mm/vmm.rs:325-406 | the child translates and reads every page as the parent did, nobody else reads or translates anything different, and parent and child may write, after a fault, all they see |
| Fork.ForkUsable | src/kernel/src/mm/vmm.rs:343-396 | after a fork `valid_user` accepts, for parent and child, exactly those pages of the upper half, small or huge, whose own entries had the user bit |
| Fork.ForkEnds | src/kernel/src/mm/vmm.rs:374-396 | bit by bit, what parent and child have where the parent had a page: user pages and huge pages lose the write bit and are marked, and all other bits and the frame are as before; kernel pages are as they were |
| Fork.ChildIsAlone | src/kernel/src/mm/vmm.rs:341-398 | no slot but its own leads to what an upper slot of the child leads to |
| Fork.ForkCountsExactly | src/kernel/src/mm/vmm.rs:362-396 | with exact counts before, a fork leaves them exact exactly if no frame that counts is mapped or covered below a slot that is not the root's own, but by a count that gets pinned; own slots suffice |
| Fork.ForkRights | src/kernel/src/mm/vmm.rs:341-396 | exactly the user pages and huge pages below cloned slots change, to marked and not writable, and they do so in every root and through every slot that leads there |
| Fork.RightsExactly | src/kernel/src/mm/vmm.rs:325-406 | a fork leaves everybody else's rights alone exactly if nobody else shares a writable page below a slot that it clones; private slots suffice |
| Fork.ForkedPagesAreMarked | src/kernel/src/mm/vmm.rs:389-395 | after a fork the user pages of both are marked, not writable and both own their frame; a store to them is accepted, which is the answer before the fork exactly if the page was writable or marked |
| Fork.ForkSees | src/kernel/src/mm/vmm.rs:332-341 | right after a fork a slot of the child and one of the parent lead to the same table exactly below slot 256 |
| Fork.LaterChangesShow | src/kernel/src/mm/vmm.rs:332-341 | a later change of a page by one of the two shows in the other exactly if the page lies below slot 256 and the parent had the slot when it forked |
| Fork.LowerHalfIsOne | src/kernel/src/mm/vmm.rs:332-341 | below slot 256 both walk to the same tables and entries, so that a store by one is read by the other |
| Fork.ForkUnmapFrees | src/kernel/src/mm/vmm.rs:177-218 | when parent or child unmaps a page after a fork, the other one's slot is left with a freed table exactly if it was the last page below a slot of the lower half |
| Fork.LonePageFrees | src/kernel/src/mm/vmm.rs:177-218 | so it is for the only page below such a slot when the process forked |
| Fork.NewUserP4 | src/kernel/src/mm/vmm.rs:313-319 | a new root with all the kernel's slots, aliases and huge pages included; counts and exclusiveness hold |
| Fork.VmmInit | src/kernel/src/mm/vmm.rs:125-132 | the kernel's own root with all the slots that it booted with |
| Fork.MirrorReads | src/kernel/src/mm/vmm.rs:313-319 | the new root translates everything as the old one, and no other root reads anything different |
| Fork.MirrorSees | src/kernel/src/mm/vmm.rs:313-319 | whatever slot the old root has is one with the new root's: what changes below it changes for both |
| Teardown.FreeUserP4 | src/kernel/src/mm/vmm.rs:410-451 | for any root: exactly the tables below its upper half go, and every frame loses exactly as many references as it is mapped there, huge pages included; null and the kernel's root are ignored |
| Teardown.DropHuge | src/kernel/src/mm/vmm.rs:427-432 | each of the 512 frames of a huge page loses one reference |
| FrameUses.UsesAreOwners | src/kernel/src/mm/vmm.rs:420-445 | below a table of an own slot, how often a frame is mapped is how many owners it has there |
| FrameUses.OwnUsesAreOwners | src/kernel/src/mm/vmm.rs:420-445 | the same for all own slots of a root together |
| FrameUses.ForeignUses | src/kernel/src/mm/vmm.rs:362-396 | a frame is mapped more often below the upper half than owners say exactly if a page or a huge page below a slot that is not the root's own maps it |
| Teardown.LostIsAll | src/kernel/src/mm/vmm.rs:410-451 | what is given back is all that hangs below it, and hangs nowhere else, exactly if no other root leads to the upper slots |
| Teardown.GiveUp | src/kernel/src/mm/vmm.rs:410-451 | for any root: the invariant is kept exactly if the others are spared; then nobody else's translation, contents or rights change, exact counts stay exact, and frames nobody maps any more are free unless pinned |
| Teardown.SoundExactly | src/kernel/src/mm/vmm.rs:410-451 | a teardown keeps the invariant exactly if nobody else leads to the tables that go, no table is a frame that loses its last reference, and every frame that somebody else owns has references enough |
| Teardown.OwnSpares | src/kernel/src/mm/vmm.rs:410-451 | a root whose upper slots are its own spares the others |
| Teardown.SparesStand | src/kernel/src/mm/vmm.rs:410-451 | where the others are spared, no walk of theirs passes a freed frame |
| Teardown.NoWayIn | src/kernel/src/mm/vmm.rs:410-451 | no entry that is left leads to a table that was given back |
| Teardown.HugeFrees | src/kernel/src/mm/vmm.rs:427-432 | a teardown frees every frame with count 1 that a huge page below the upper half covers, whoever uses it |
| Teardown.TeardownExactly | src/kernel/src/mm/vmm.rs:410-451 | for any root: no walk of another root passes a freed frame afterwards exactly if no table that such a walk passes is managed and lies below an upper slot of the root, or loses its last reference |
| Teardown.ForkSpawnExit | src/kernel/src/mm/vmm.rs:410-451 | an input: a process with a huge page below an upper slot forks, a process is made whose root that page covers, and the end of the child frees that root, although nobody leads to the child's upper slots |
| EagerCopy.Step | src/kernel/src/mm/vmm.rs:325-525 | each operation (new process, map, fork, write, unmap, end) does to every process what it does to eagerly copied spaces, in contents and in write access, with any shared slots; an end must spare the others; without mapping over a page, exact counts stay exact exactly unless a fork overcounts |
| EagerCopy.Run | src/kernel/src/mm/vmm.rs:325-525 | the same over any sequence of operations, forks from the booted kernel included; a run ends early only when no frame is free, or before the end of a process while slots are shared |
| EagerCopy.EndsAreHarmless | src/kernel/src/mm/vmm.rs:410-451 | without shared slots every end of a process spares the others, so that runs go on |
| EagerCopy.InitialState | src/kernel/src/mm/vmm.rs:313-319 | where runs begin: a kernel root without user pages in its own slots, with no process, whatever slots it shares |
| UserPages.MapZeros | src/kernel/src/mm/vma.rs:285-303 | exactly the pages of an aligned range, at all their aliases and in every root that shares them, read as fresh zeroes, and each is mapped with the flags asked for; every root sees what it saw and what is or shows a page of the range; an unaligned range costs frames and maps nothing |
| UserPages.UnmapRange | src/kernel/src/mm/vma.rs:325-330 | exactly the pages of the range, wherever they are seen, are gone for user code; all others are as before |
| UserPages.ShownByOthers | src/kernel/src/mm/vmm.rs:138-151 | when a range is mapped through any root, another root sees exactly the pages that it saw before and those that are or show a page of the range |
| UserPages.PathAbove | src/kernel/src/mm/vmm.rs:144-147 | an address and the one 2^48 above it have the same indices |
| Elf.PageFilled | src/kernel/src/mm/user.rs:64-74 | what is copied into a zeroed page is that page's part of the image, first and last page included |
| Elf.LoadPage | src/kernel/src/mm/user.rs:59-78 | one fresh frame with its part of the image, mapped at that page with the flags given, wherever the page is seen, and nowhere else |
| Elf.MapElfSegment | src/kernel/src/mm/user.rs:43-80 | every touched page holds its part of the image and is mapped with the flags given, no page that does not show one of them translates differently, no used frame was written; nothing is mapped exactly when the segment is empty or its end wraps |
| Elf.SegmentReads | src/kernel/src/mm/user.rs:43-80 | byte i reads as the file's byte below filesz and as zero from there to memsz |
| VmaTable.RoundDown | src/kernel/src/mm/vma.rs:205-221 | with page-aligned areas the least candidate that fits is the least address that fits |
| VmaTable.InsertedContents | src/kernel/src/mm/vma.rs:176-188 | the insertion keeps all areas and adds one |
| VmaTable.InsertedOk | src/kernel/src/mm/vma.rs:176-188 | an area that meets no other, by the code's own test, keeps the table sorted and disjoint |
| VmaTable.RemovedHas | src/kernel/src/mm/vma.rs:190-202 | removing one area keeps the others, sorted and disjoint |
| VmaTable.OverlapPlain | src/kernel/src/mm/vma.rs:82-85 | for ranges and areas that do not wrap the code's 64-bit test is the plain one |
| VmaSearch.SearchEnds | src/kernel/src/mm/vma.rs:205-221 | for any table, size and start: the search runs for ever exactly if it comes to an area in its way that ends in the last page, and to one again from address 0; otherwise it stops with a stated answer |
| VmaSearch.AnswerMeans | src/kernel/src/mm/vma.rs:205-221 | for any table: a place that is answered is the first fit exactly if the search did not go back to 0 and the sum at the place does not wrap, and meets no area by the code's own test; if none is answered there is none |
| VmaSearch.AnswerBelow | src/kernel/src/mm/vma.rs:205-221 | the answer lies below the start exactly if the search went back to 0 and found a place there |
| VmaSearch.HonestIsFirstFit | src/kernel/src/mm/vma.rs:205-221 | the answer is the first fit wherever areas end, if neither the start nor the rounded end of an area misleads the sum and no area ends in the last page |
| VmaSearch.BelowTheTop | src/kernel/src/mm/vma.rs:205-221 | where all areas end below the top the answer is the first fit exactly if the start does not mislead the sum, and wraps otherwise |
| VmaSearch.AnswerZero | src/kernel/src/mm/vma.rs:205-221 | the answer is 0 exactly if the search comes to 0, at its start or by going back, and page 0 is free for it |
| VmaSearch.WholeSpaceHangs | src/kernel/src/mm/vma.rs:205-221 | an input: one area into the last page that is in every way; no search past the first test ends |
| VmaSearch.LonePageIsNoHarm | src/kernel/src/mm/vma.rs:205-221 | an input: one page that ends in the last page, high above the top, is in no way |
| VmaSearch.BackBelowTheStart | src/kernel/src/mm/vma.rs:205-221 | an input: the search goes back and answers 0, below its start, which is not the first fit |
| Vma.AddressSpace.FindVma | src/kernel/src/mm/vma.rs:161-168 | the first area that contains the address, if any |
| Vma.AddressSpace.HasOverlap | src/kernel/src/mm/vma.rs:170-174 | yes exactly if some used area meets the range, with sums that wrap at 2^64 |
| Vma.AddressSpace.AddVma | src/kernel/src/mm/vma.rs:176-188 | swapping down puts the area in its place by base; refused exactly if the table is full |
| Vma.AddressSpace.RemoveVma | src/kernel/src/mm/vma.rs:190-202 | the first area with that base goes and the others keep their order |
| Vma.AddressSpace.FindFreeRange | src/kernel/src/mm/vma.rs:205-221 | for any table: never ends exactly if the search goes back to 0 twice, and otherwise answers what the search answers |
| Vma.AddressSpace.InTheWay | src/kernel/src/mm/vma.rs:209-217 | the first used area that meets the range, with sums that wrap at 2^64 |
| Vma.AddressSpace.ChooseBase | src/kernel/src/mm/vma.rs:266-276 | for any table: a fixed hint as it is; otherwise what the search answers from a page-aligned shifted start, or never |
| Vma.AddressSpace.InitAslr | src/kernel/src/mm/vma.rs:226-256 | a guard page and right above it the stack, 8 MB together, at most 256 pages below the top; the stack is filled on demand, for user code to write and not to execute; an empty heap and a place for mappings in their ranges, whatever the random offsets; in order exactly if the guard page was not mapped before |
| Vma.AddressSpace.MmapAnon | src/kernel/src/mm/vma.rs:262-311 | which place is chosen and when none, and exactly when it is 0; the size is rounded up to whole pages; base, size and rights of the new area; it meets no other by the code's test, and its pages read as zeroes and have its rights, or are left to faults; the table stays in order exactly if the place is page aligned and its end does not wrap |
| Vma.PlaceIsGood | src/kernel/src/mm/vma.rs:205-276 | without areas that end in the last page, a place that is not fixed is the first fit exactly if its end does not wrap; so it is if neither start nor area ends mislead the sum, and with all areas below the top exactly if the shifted start does not |
| Vma.HugeSizeMisleads | src/kernel/src/mm/vma.rs:262-276 | on a fresh space, with any shift, a request of 2^64 - 2^20 bytes misleads the search, and the area that is placed ends below its base |
| Vma.PlaceAtZero | src/kernel/src/mm/vma.rs:262-310 | for any table an area lands at 0, the value that also says failure, exactly if the search starts at 0 or goes back there, and page 0 is free for it |
| Vma.StartsAtZero | src/kernel/src/mm/vma.rs:270-272 | the search starts at 0 exactly if hint and shift, added in 64 bits, lie in page 0 |
| Vma.AreaAtZero | src/kernel/src/mm/vma.rs:262-310 | concrete cases: a hint inside page 0 without a shift, and one in the last page shifted by one, on an empty table |
| Vma.EagerIsShown | src/kernel/src/mm/vma.rs:285-303 | every page of an area that is mapped at once is seen by user code, whatever its guard flag says |
| Vma.HighAreaIsSeenBelow | src/kernel/src/mm/vmm.rs:138-151 | an area mapped at once 2^48 above a page is seen at that page |
| Vma.GuardFilledByOthers | src/kernel/src/mm/vma.rs:285-303 | after a range was mapped through any root, by mmap, sbrk or a fault, the guard areas of another one are still bare exactly if none of their pages is or shows a page of the range |
| Vma.AddressSpace.Munmap | src/kernel/src/mm/vma.rs:314-334 | exactly the matching area goes and exactly its pages, wherever they are seen; the heap stays exact exactly if it was not the heap |
| Vma.AddressSpace.Sbrk | src/kernel/src/mm/vma.rs:339-406 | the heap is to end at the first page boundary at or above the old end plus the increment, and at 0 at least; exactly which pages read as zeroes, for user code to write and not to execute, or are gone; it stops short only where another area is; what becomes of the table, and that the address space stays in order exactly under the stated conditions |
| Vma.AddressSpace.GrowHeap | src/kernel/src/mm/vma.rs:354-386 | grows up to the first page another area covers; the heap stays exact exactly if it existed or its first page was free just when the table had room |
| Vma.AddressSpace.ShrinkHeap | src/kernel/src/mm/vma.rs:387-403 | the heap stays exact exactly if it keeps a page, or was empty and no area covers its start |
| Vma.AddressSpace.HandleDemandFault | src/kernel/src/mm/vma.rs:413-440 | maps the one page, with write, user and no-execute bit as its area says, exactly if an area that contains the address is filled on demand and no guard by type or flag |
| Vma.ClonedByBit47 | src/kernel/src/mm/vmm.rs:332-339 | an address of 48 bits is in a slot that forks clone exactly if bit 47 is set |
| Vma.HeapIsShared | src/kernel/src/mm/vmm.rs:332-339 | a change at the start of the heap by parent or child after a fork shows in the other one, when the parent had the slot |
| Vma.EmptyHeapAreaStays | src/kernel/src/mm/vma.rs:399-402 | a concrete heap of one page that shrinks to nothing leaves an improper area |
| Vma.OtherAreaEmptied | src/kernel/src/mm/vma.rs:399-402 | a concrete area at the start of an empty heap loses its size |
| UserRange.FindFreeUserRange | src/kernel/src/mm/user.rs:136-157 | over the page walk itself: the lowest page-aligned address from the start on where no page is there for user code, None exactly if there is none |
| UserRange.IsMapped | src/kernel/src/mm/user.rs:160-170 | the page walk and the user check together say whether user code has the page |
| Sched.Scheduler.WakeSleepers | src/kernel/src/threading.rs:278-285 | a blocked thread whose alarm is set stays as it is before that tick, and is ready with its alarm cleared from then on; no other thread changes |
| Sched.Scheduler.FindNext | src/kernel/src/threading.rs:287-292 | the closest ready thread in cyclic order, or the current one when nobody is ready |
| Sched.NextIsUnique | src/kernel/src/threading.rs:287-292 | which thread comes next is a function of the states and the current thread |
| Sched.Scheduler.Schedule | src/kernel/src/threading.rs:275-302 | the chosen thread runs; of the others, due sleepers are ready, the one that ran is ready, and the rest is as it was; alarms that have come are cleared, and a tick is counted |
| Sched.RunsTheRunnable | src/kernel/src/threading.rs:287-300 | the chosen thread is ready or running exactly if somebody is ready or the current one runs |
| Sched.DeadThreadRuns | src/kernel/src/threading.rs:287-300 | with nobody ready a dead current thread is run again |
| Sched.OneRuns | src/kernel/src/threading.rs:299-302 | afterwards exactly the chosen thread is marked as running exactly if before no thread but the current one was |
| Sched.SleepsOn | src/kernel/src/threading.rs:275-302 | before its tick a call leaves a sleeper asleep exactly unless it has the processor and nobody else is ready or due: then it runs on, with its alarm still set |
| Sched.SleepsUntil | src/kernel/src/threading.rs:275-302 | over any calls, with anything between them: a thread asleep until a tick is asleep after every call before that tick exactly if none of them found nobody else to run, and then the first call at or after it wakes it |
| Sched.Closer | src/kernel/src/threading.rs:287-292 | each call brings a ready thread strictly closer in cyclic order or runs it |
| Sched.DistanceIsSteps | src/kernel/src/threading.rs:287-292 | the cyclic distance is the number of steps from the one thread to the other |
| Sched.BoundedWaiting | src/kernel/src/threading.rs:275-302 | a thread that stays ready runs after at most as many calls as its cyclic distance |
| Sched.LessThanARound | src/kernel/src/threading.rs:287-292 | for any thread but the current one that distance is at most 63 |
| Ipc.MsgQueue.Len | src/kernel/src/ipc.rs:35-43 | the number of waiting messages; 0 and 15 are exactly the empty and the full test |
| Ipc.MsgQueue.Push | src/kernel/src/ipc.rs:45-58 | appends; refused exactly when 15 messages wait |
| Ipc.MsgQueue.Pop | src/kernel/src/ipc.rs:60-73 | takes the oldest message; nothing exactly when the queue is empty |
| Ipc.Threads.Send | src/kernel/src/ipc.rs:80-114 | which error when, the fault for a bad buffer included; an accepted message is appended to what the receiver was sent and wakes it |
| Ipc.Threads.KSend | src/kernel/src/ipc.rs:160-180 | accepted exactly for a live receiver with room; sent as from 0; a receiver that sleeps is woken, no other state changes |
| Ipc.Threads.Recv | src/kernel/src/ipc.rs:116-140 | a fault for a bad buffer; the oldest message if there is one; otherwise a refusal, or sleep with an empty queue |
| Ipc.Threads.Sleep | src/kernel/src/syscall_api.rs:286-297 | no ticks, no sleep; otherwise the running thread is asleep until the sum, in 64 bits |
| Ipc.Threads.Yield | src/kernel/src/threading.rs:275-302 | scheduling loses no message and puts nobody to sleep |
| Ipc.ReceivedIsPrefix | src/kernel/src/ipc.rs:35-73 | what a thread received is the beginning of what was accepted for it, with at most 15 messages between |
| Xhci.Ring.constructor | src/kernel/src/usb/xhci.rs:53-59 | the empty ring matches a controller at its start, link entry included |
| Xhci.Ring.Push | src/kernel/src/usb/xhci.rs:60-72 | writes one entry with its words and with the lap's bit or-ed in, hands the finished lap's bit to the link, whose target stays, and returns the entry's address |
| Xhci.PushAppends | src/kernel/src/usb/xhci.rs:60-72 | a push with the right bit and with room appends to what is outstanding, across the end of the ring |
| Xhci.ReadsOldest | src/kernel/src/usb/xhci.rs:52-73 | a controller that follows the link and toggles reads exactly the oldest outstanding entry, or nothing when there is none |
| Xhci.ReadsOutstanding | src/kernel/src/usb/xhci.rs:52-73 | n looks at the ring yield the n oldest outstanding entries in order, or all of them |
| Xhci.Exchange | src/kernel/src/usb/xhci.rs:52-73 | over any interleaving of pushes and reads, what was read followed by what is outstanding is what was pushed |
| Xhci.PresetBitMatches | src/kernel/src/usb/xhci.rs:256-280 | an entry gets the lap's bit exactly if its control word leaves the bit clear or the lap's bit is set |
| Xhci.PresetBitHides | src/kernel/src/usb/xhci.rs:256-280 | otherwise the ring is to the controller as if nothing had been pushed: however often it looks, it reads what was outstanding before and no more |
| Xhci.LappedAtTheLink | src/kernel/src/usb/xhci.rs:66-70 | the 255th outstanding entry makes a controller that stands at the link see nothing |
| Xhci.EvtRing.Pop | src/kernel/src/usb/xhci.rs:85-91 | the oldest event posted, or none exactly when nothing is outstanding, across any number of laps |

## Left out

- Vmm.AddressSpaces.Vunmap: not on a page that is part of a huge one, which the code takes for a page table; and that the tree stays in order is claimed where no page table is mapped as a page and no shared third-level table becomes empty (`Vmm.Unmappable`).
- CopyOnWrite.MapFresh: for slots that are the root's own; `UserPages.MapZeros` covers any slot, without counts.
- CopyOnWrite.UnmapUser: what is mapped there is a user page or nothing; a kernel page would lose a reference that nobody counts.
- CopyOnWrite.HandleCowFault: small pages, where a marked page is a user page below a slot that is the root's own, as the clone leaves it; `HugeFault.HandleHugeFault` is the branch for 2 MB pages. Small pages below shared slots are not modelled there.
- HugeFault.HandleHugeFault: where the run that is taken overlaps the page itself, the copy reads the page as it was; the bytes that the copy of overlapping memory leaves are not modelled.
- CopyOnWrite.UserStore: writes whole pages, and checks the user and write bits of the last entry only, not those above it.
- EagerCopy.Run: stops before the end of a process while upper slots are shared, since whether that spares the others depends on the counts (`Teardown.SoundExactly`); `EagerCopy.Step` takes such an end where it does. User pages lie below slots that are not shared; unmapping is for user code's pages.
- `vmap_huge` and `vunmap_huge`: making and removing 2 MB pages; translating, splitting, cloning and dropping them is modelled.
- Locks, interrupts and TLB flushes: every kernel operation is one step. The code's `frame_dec` frees a frame through `mm_free_phys`, which takes the lock that `vunmap`, `vunmap_huge` and `free_user_p4` already hold, and `handle_cow_fault` calls `mm_alloc_huge` under it; the model uses the form without the lock.
- Vma.AddressSpace.MmapAnon: after an area mapped at once above 2^47 only the table is claimed to be in order, since its pages may lie on a guard page (`Vma.HighAreaIsSeenBelow`).
- Vma.AddressSpace.Munmap: the pages of the area can be unmapped (`UserPages.CanUnmap`), which huge pages on the way or a shared table that becomes empty would prevent.
- Vma.AddressSpace.Sbrk: the same for the pages given back; and the new end stays two pages below 2^64.
- Vma.AddressSpace.InitAslr: starts from an empty table.
- Vma: the statistics in `mapped_pages` are not kept. RDRAND and the shift register are replaced by an arbitrary value. Halting stands for the panic of a kernel out of frames, after which no branch runs.
- UserRange.FindFreeUserRange: the sum of start and size does not wrap; its only caller passes a constant and at most 4 MB.
- Buddy.BuddyAllocator.Init: regions up to the 8256 pages that the bitmap has bits for; the kernel's heap has 8192.
- KernelHeap.KernelHeap.DoDealloc: the Ada gates are a parameter, and the payload written to live slots is not modelled.
- `realloc`, `alloc_zeroed` and heap statistics: they would add only easy members.
- Valloc.VAddrSpace.Free: freed ranges are live, as the callers must ensure.
- Ipc: the answer of `valid_buf` is a parameter; message slots keep their queue when a thread number is used again.
- Sched: context switch, stacks, page table roots and the scheduler's lock; a call that finds the lock taken does nothing.
- Xhci.Exchange: pushes only while there is room, which the driver does not check.
- `legacy_mem_alloc`, the swap stubs and the fault dispatcher's demand branch: the pieces they call are modelled.
- `mm/slab.rs`, `mm/heap.rs` and `userspace_loader.rs`: `allocator/slab.rs` and `map_elf_segment` are the versions that hold together.
- Device drivers, user interface, plugins, foreign-language parts, ring policy and audit: no hard state.
