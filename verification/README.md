# Kernel model in Dafny

This project models the memory management, synchronisation, scheduling and a few smaller
algorithms of a small x86-64 kernel, and proves what they promise. `dafny verify dfyconfig.toml`
checks it all.

Imperative code is modelled by classes and methods over the same state (page descriptors in an
array, lists as sequences, a fixed stack of addresses), each method proved against functions or
predicates on its state; the theorems are lemmas about those. Protocols of several tasks are
transition systems, with theorems about every run. Each public entry point runs as one step: the
locks inside the allocators are not modelled, the queue lock of the semaphore is.

| part | files |
|---|---|
| physical pages | `Windows` (block arithmetic), `BuddyState` (invariants and steps), `BuddyTheorems` (what they mean for free pages), `Buddy` (the allocator) |
| slabs and the kernel heap | `SlabState` (chains, lists, stack), `SlabBlocks` (addresses and blocks), `Slab` (a cache on the page allocator), `KMalloc` (sixteen caches) |
| semaphore | `Semaphore` |
| copy-on-write | `Walk` (the table loops), `PageTables` (four levels of tables) and `TableRefinement` (why one map of entries can stand for them), `CowState` (frames, entries and the machine that copies eagerly), `CopyOnWrite` (fork, faults, exit), `CowRuns` (whole runs) |
| tasks | `TaskState` (steps and runs), `Tasks` (fork, exit, wait, schedule) |
| screen | `Layers` (what map and picture should be), `FrameBuffer` (map and compositor) |
| timers | `TimerState` (queue and history), `Timers` |
| calendar | `Calendar` |
| printer and scanner | `Numbers`, `Formats` (what formats mean), `Stdio` |
| lists | `Lists` (rings of nodes: prepending, appending and `Without` of the sequences the other modules use) |
| general | `Sets`, `Arithmetic` |

## What the code does not do as its own comments or callers suppose

- The nested page-table loops miss pages of an area that crosses a 2 MiB boundary from a start
  not aligned to it (`Walk.VisitsAllIff`, `Walk.TwoPagesAcrossABoundary`); a forked child reads zero
  there (`CowRuns.ForkLosesPage`).
- An area without write permission accepts the first store to a page and refuses the same store
  after a fork (`CowRuns.ReadOnlyArea`).
- The page tables of an address space are never given back: the page of a table is referenced once for its allocation and once for
  each entry, so clearing the last entry leaves one reference (`PageTables.PageTables.ClearPTEEntry`).
- The semaphore is not fair: the task that joined its queue last is woken first (`Semaphore.NewestIsWoken`).
- Size classes above 8192 bytes exist but can never be served (`KMalloc.LargeClassesNeedTooMuch`).
- The layer map numbers only the layers that meet the refreshed rectangle, so it is wrong wherever
  a lower layer does not (`Layers.RankRightIff`, `Layers.SideBySideMisnumbered`); and a span that
  does not reach a multiple of four overwrites every column (`Layers.SpanColumns`, `Layers.ShortSpan`).
- A timer callback that arms itself again each time keeps the interrupt from ending if and only if its
  timeout is due at once, which is the case for a timeout between minus the tick count and zero
  (`TimerState.NeverEndsIff`, `TimerState.DueAtOnceIff`). Arming such a timer finitely often is harmless
  (`Timers.TimerQueue.TimeInterrupt`).
- Reading a number of ten digits overflows an `int`, which C leaves undefined; up to nine digits it does
  not (`Numbers.InRangeIff`). If overflow wraps around, no printed number of ten digits is read back
  (`Numbers.DigitsRoundTripIff`); a compiler may also make it come out right.

## Model

| member | source | states |
|---|---|---|
| `Windows.AndBuddy` | src/memory/buddy.c:100-101 | clearing bit k of a page number with `index & (index ^ (1 << k))` gives the lower of the page and its buddy, for every page and every order |
| `Windows.BuddyOfHead` | src/memory/buddy.c:96-101 | the buddy of a block head heads a block of the same order, and the lower of the two heads the block of the next order that holds both |
| `BuddyState.PageIsBuddyExact` | src/memory/buddy.c:35-41 | asked about the buddy of a block in hand, the test of count, flags and data is true exactly if the buddy heads a free block of that order: tags left inside merged blocks never deceive it |
| `BuddyState.MergeKeepsHolding` | src/memory/buddy.c:96-106 | one round of merging keeps tiling, descriptors, lists and the block in hand exact |
| `BuddyState.ReleaseKeepsCore` | src/memory/buddy.c:107-112 | queueing a block whose buddy is not free keeps all invariants, in particular that no two free buddies of one order exist below the top |
| `BuddyState.SplitKeepsCore` | src/memory/buddy.c:138-145 | queueing the upper half of a block in hand keeps all invariants; the two halves never look mergeable to later frees |
| `BuddyTheorems.BuddyInside` | src/memory/memory.c:37-39 | whatever the page count, a block that leaves out the last page, which initialisation never frees, has its buddy inside the page map |
| `BuddyTheorems.FreeRunIsOneBlock` | src/memory/buddy.c:93-106 | in every valid state a wholly free aligned run not inside a larger block is one free block, never a heap of unmerged pieces |
| `BuddyTheorems.FreeBlocksDependOnFreePagesOnly` | src/memory/buddy.c:91-112 | a block is free exactly if its pages are free and no larger aligned run around it is: the free blocks are a function of the set of free pages, not of history |
| `BuddyTheorems.SameFreePagesSameLists` | src/memory/buddy.c:91-112 | two valid states with the same free pages hold the same blocks on every list |
| `BuddyTheorems.FreeUndoesAlloc` | src/memory/buddy.c:76-151 | allocating a block and freeing it again restores the lists of all orders up to their sequence, and the free page count |
| `BuddyTheorems.ListedMeansFreeRun` | src/memory/buddy.c:122-131 | a block on any list from the requested order on yields a free run of that order |
| `BuddyTheorems.EmptyListsMeanNoFreeRun` | src/memory/buddy.c:122-150 | empty lists from the requested order on mean that no aligned run of that size is wholly free anywhere |
| `BuddyTheorems.MisalignedIff` | src/memory/buddy.c:166-168 | the alignment test on the physical address of a page rejects it exactly if the page does not head a window of that order |
| `BuddyTheorems.NoneMisaligned` | src/memory/buddy.c:166-168 | no block on a list from the requested order on is ever rejected for alignment |
| `BuddyTheorems.BelowLimitIff` | src/memory/buddy.c:206-208 | a block whose first address passes the limit lies wholly below 2^max for every such block exactly if 12 + order <= max |
| `BuddyTheorems.EarlierHeadPasses` | src/memory/buddy.c:206-224 | the head found for a large block passes the limit that any free run below it passes, so the search misses nothing |
| `Buddy.BuddySystem.constructor` | src/memory/buddy.c:43-74 | for every page count the page map starts as single referenced pages with empty lists, a valid state |
| `Buddy.BuddySystem.Feed` | src/memory/memory.c:39-42 | feeding a usable range page by page makes exactly its pages free, whatever blocks they merge into |
| `Buddy.BuddySystem.FreePages` | src/memory/buddy.c:76-114 | one reference less; a reserved page is refused, a page of the page cache handed to it; the last reference makes exactly the pages of the block free, merged as far as possible, clears the flags of the page given if it merges, tags the head of the result, queues it last and changes no other block, tag or list entry |
| `Buddy.BuddySystem.ReferencePage` | include/memory/buddy.h:60-64 | one reference more and nothing else, so that a block survives all but the last of its frees |
| `BuddyState.FreedIsReleased` | src/memory/buddy.c:89-112 | the state after a free, as a function down to every tag, is valid, frees exactly the pages of the block and takes each absorbed buddy off its list |
| `Buddy.BuddySystem.MergeBuddies` | src/memory/buddy.c:93-106 | the merge loop leaves exactly the state that merging as long as the tags allow, up to the top order, leaves |
| `Buddy.BuddySystem.AllocPages` | src/memory/buddy.c:116-151 | fails exactly if no aligned run of that size is wholly free, without any change; otherwise takes the front of the first non-empty list and splits it, the upper halves queued |
| `Buddy.BuddySystem.AllocAlignedPages` | src/memory/buddy.c:153-190 | fails exactly as `allocPages` does and otherwise takes the front of the same list: the alignment test never rejects anything |
| `Buddy.AllocatorsAgree` | src/memory/buddy.c:116-190 | from one state `allocPages` and `allocAlignedPages` give the same page and leave the same state, down to the tags inside the block |
| `BuddyState.CarveKeepsValid` | src/memory/buddy.c:127-146 | taking a listed block and splitting it, as a function of the state, keeps it valid and makes exactly the front part used |
| `Buddy.BuddySystem.AllocDMAPages` | src/memory/buddy.c:192-229 | fails exactly if no free run starts below the limit; the block lies wholly below 2^max when 12 + order <= max |
| `Buddy.BuddySystem.SplitBlock` | src/memory/buddy.c:138-145 | the loop leaves exactly the state that splitting down to the requested order leaves, each upper half queued and tagged |
| `Semaphore.StepKeepsInv` | src/task/semaphore.c:7-42 | every atomic step of any task keeps the lock discipline, the count identity and the wake-up invariant |
| `Semaphore.StepKeepsCount` | src/task/semaphore.c:13-37 | fast path, slow path, retry and release keep count == 1 - holders - in flight - sleepers, also inside the lock with the sleepers folded in |
| `Semaphore.RunInv` | src/task/semaphore.c:7-96 | the invariant holds in every state of every run of any number of tasks |
| `Semaphore.MutualExclusion` | src/task/semaphore.c:13-39 | in no reachable state do two tasks hold the semaphore |
| `Semaphore.CountIdentity` | src/task/semaphore.c:21-30 | outside the queue lock count == 1 - holders - in flight - sleepers with sleepers 0 or 1 |
| `Semaphore.SomebodyWillLook` | src/task/semaphore.c:22-39 | no lost wake-up: with no holder and a non-empty queue some task is in flight, awake in the queue, or about to wake the head |
| `Semaphore.SomebodyGetsThrough` | include/task/waitqueue.h:51-83 | no deadlock: from any such state the contending tasks alone can bring one of them to hold the semaphore |
| `Semaphore.QuietMeansInitial` | include/task/semaphore.h:19-25 | once every task is outside, count, sleepers, queue and lock are as initialisation left them |
| `Semaphore.SleepsUntilWoken` | src/task/semaphore.c:32-36 | a task that goes to sleep has no move until it is woken as the head of the queue by another task, or from elsewhere |
| `Semaphore.QueueNewestFirst` | include/task/waitqueue.h:46-58 | in every run the queue holds its tasks in the order of joining, the newest first |
| `Semaphore.NewestIsWoken` | include/task/waitqueue.h:46-58 | in every run whoever gives the semaphore up or passes it on wakes, of all tasks in the queue, the one that joined last: waiting longer earns nothing |
| `Walk.Walk` | src/memory/paging.c:564-619 | the four nested table loops visit, in increasing order and once each, exactly the pages whose table digits are not below those of the area's start |
| `Walk.VisitsAllIff` | src/memory/paging.c:322-356 | the loops visit every page of an area exactly if no table boundary is crossed inside it, or the start is aligned to that table |
| `Walk.MissedPage` | src/memory/paging.c:343-345 | if the condition fails, a named page of the area is never visited |
| `Walk.TwoPagesAcrossABoundary` | src/memory/paging.c:578-587 | two pages around a 2 MiB boundary: the second one is missed |
| `PageTables.TranslateIsLeaf` | src/memory/paging.c:187-226 | the look-up through four tables finds, for every address space and page, the entry in the one table that covers the page |
| `PageTables.PageTables.AllocPML4E` | src/memory/paging.c:36-47 | a new address space has no entries, and no other one changes |
| `PageTables.PageTables.Alloc` | src/memory/paging.c:49-101 | a table that is missing is made and linked in; no page of any address space is mapped differently |
| `PageTables.PageTables.SetPTEEntry` | src/memory/paging.c:103-115 | exactly the entry of one page of one address space changes, and the table's references follow |
| `PageTables.PageTables.ClearPTEEntry` | src/memory/paging.c:228-252 | exactly that entry goes; the table's page keeps the reference of its allocation, so tables are never given back |
| `PageTables.PageTables.MapPage` | src/memory/paging.c:694-744 | after a fault all four tables exist and exactly the faulting page is mapped |
| `PageTables.PageTables.Fork` | src/memory/paging.c:563-620 | over four levels of tables, made for the child as pages need them and skipped where the parent has none, exactly the pages the loops reach are shared |
| `TableRefinement.ForkRefines` | src/memory/paging.c:563-620 | if the tables hold what a flat map of entries holds, they do so after fork's loops over them and over the map |
| `TableRefinement.SetRefines` | src/memory/paging.c:103-115 | setting an entry of the tables is setting it in the flat map |
| `TableRefinement.ClearRefines` | src/memory/paging.c:228-252 | clearing an entry of the tables is taking it out of the flat map |
| `TableRefinement.TranslateReadsMap` | src/memory/paging.c:187-226 | the processor's look-up reads the flat map |
| `CowState.OnlyMapping` | src/memory/paging.c:751-755 | a frame with count 1 has a single mapping, so the shortcut of the fault handler disturbs nobody |
| `CowState.ShareKeepsFrames` | src/memory/paging.c:606-612 | sharing an entry at fork keeps every count equal to the number of mappings and leaves no writable mapping of a shared frame |
| `CowState.CopyKeepsFrames` | src/memory/paging.c:756-765 | the copy of a fault moves one mapping: both counts stay exact and the copy is the only mapping of its frame |
| `CowState.ClearKeepsFrames` | src/memory/paging.c:350-351 | unmapping an entry lowers the count; the frame goes exactly with its last mapping |
| `CowState.CopyKeepsView` | src/memory/paging.c:756-765 | copying a shared page changes what no address space reads |
| `CopyOnWrite.Memory.constructor` | src/memory/paging.c:25-32 | the machine starts without frames, mappings and address spaces, which reads as the empty eager machine |
| `CopyOnWrite.Memory.NewSpace` | src/memory/paging.c:516-530 | an address space without a parent reads as an empty one |
| `CopyOnWrite.Memory.ShareSpace` | src/memory/paging.c:509-515 | sharing adds a reference and changes nothing that is read |
| `CopyOnWrite.Memory.MMap` | src/memory/paging.c:472-491 | the new area is linked in behind its predecessor and what any page reads stays, so its own pages read as zeros |
| `CopyOnWrite.Memory.Fork` | src/memory/paging.c:505-625 | what every space reads afterwards is what it would read had fork copied each page into the child |
| `CopyOnWrite.Memory.ForkArea` | src/memory/paging.c:563-620 | the loops over one area share every present page they visit and no other |
| `CopyOnWrite.Memory.Exit` | src/memory/paging.c:631-655 | a space with other references stays; the last exit removes its pages and changes nothing other spaces read |
| `CopyOnWrite.Memory.UnmapArea` | src/memory/paging.c:315-356 | exactly the present pages that the loops visit are unmapped and dereferenced |
| `CopyOnWrite.Memory.LookForVirtualMemoryArea` | src/memory/paging.c:269-283 | the index of the last area that ends at or below the address, none if there is no such area |
| `CopyOnWrite.Memory.FindArea` | src/memory/paging.c:673-683 | the area that holds the address, or the fault that no area does |
| `CopyOnWrite.Memory.PageFault` | src/memory/paging.c:657-767 | an address outside all areas faults and changes nothing; an absent page becomes a private page of zeros; a protected one becomes writable without a change in what is read |
| `CopyOnWrite.Memory.WriteFault` | src/memory/paging.c:748-766 | after the fault the entry is writable, its frame mapped only once, and every space reads what it read before |
| `CopyOnWrite.Memory.Load` | src/memory/paging.c:738-747 | a load returns the byte the eager machine would return, 0 in an untouched page |
| `CopyOnWrite.Memory.Store` | src/memory/paging.c:709-767 | a store changes the byte in this address space and in no other, exactly as on the eager machine |
| `CowRuns.Issue` | src/memory/paging.c:505-767 | each operation takes the machine to what eager copying would give and answers the same |
| `CowRuns.EagerRecalls` | src/memory/paging.c:505-767 | the eager machine answers every run as its operations alone call for: who exists and with which areas, and for a load the last byte stored there in its own space or, before the fork, in the one it was forked from, 0 if there was none |
| `CowRuns.Replay` | src/memory/paging.c:505-767 | any interleaving of forks, shares, mappings of writable and read-only areas, loads, stores and exits is answered throughout as if every fork had copied every page, as long as stores go to writable areas; stated on the operations too: a load that is served gets the last byte stored there in its own space or, before the fork, in the space it was forked from, and 0 if there was none |
| `CowRuns.ReadOnlyArea` | src/memory/paging.c:744-750 | in an area without write permission the first store succeeds and the same store fails after a fork: why stores of a run go to writable areas |
| `CowRuns.ForkLosesPage` | src/memory/paging.c:563-620 | in every area that crosses a table boundary it is not aligned to, some page is not shared by fork: the child reads zero where eager copying gives it the page of its parent |
| `CowRuns.ReadOnlyPage` | src/memory/paging.c:744-750 | the same from the empty machine, with one page |
| `SlabState.FreshChain` | src/memory/slab.c:68-73 | the descriptors of a new slab form one chain through all indices in order, with the end mark behind the last |
| `SlabState.ChainFrame` | src/memory/slab.c:183-184 | writing the descriptor of an object in use leaves the free chain alone |
| `SlabState.TakeKeepsInv` | src/memory/slab.c:144-148 | taking the object `nextFree` names keeps every chain, count and list exact, and the object was in no other place |
| `SlabState.GiveKeepsInv` | src/memory/slab.c:183-187 | giving an object back makes it the front of its slab's chain and keeps everything else exact |
| `SlabState.EndMeansFull` | src/memory/slab.c:151 | `nextFree` is the end mark exactly if all objects of the slab are in use |
| `SlabState.LimitKeepsOneFree` | src/memory/slab.c:189-193 | a slab is only kept as free while no other free slab exists: two would exceed the limit of free objects |
| `SlabState.DropSlabKeepsInv` | src/memory/slab.c:80-89 | a destroyed slab has no object in client hands or on the local stack |
| `SlabState.FlushOneDestroysIff` | src/memory/slab.c:186-195 | a flushed object takes its slab with it exactly if it was the last in use there and 288 objects were free before |
| `SlabState.FlushOneKeepsInv` | src/memory/slab.c:176-195 | one flushed object leaves the stack and nothing else; chains, lists, counts stay exact |
| `SlabState.LastInFirstOut` | src/memory/slab.c:183-195 | the object flushed last is the first to be taken again: its slab comes first on its list, and taking undoes the flush on the chain |
| `SlabState.GaveBackOnTop` | src/memory/slab.c:216-227 | an object that comes back is on top of the stack, which lost its top sixteen if it held eighty |
| `SlabState.RoundKeepsOrder` | src/memory/slab.c:133-154 | the free slab is only used once all slabs that were partial are full |
| `SlabBlocks.FindOrder` | src/memory/slab.c:98-112 | the least order whose block holds 32 bytes of `struct Slab`, 256 descriptors of 4 bytes and 256 objects, 11 if none does |
| `SlabBlocks.ObjectInsideBlock` | src/memory/slab.c:98-114 | every object lies behind the 32 bytes of `struct Slab` and the 256 descriptors of 4 bytes, and before the end of its block |
| `SlabBlocks.AddressLeadsBack` | src/memory/slab.c:178-181 | from the address of an object, its page's links give the slab and the cache and the division gives its index |
| `SlabBlocks.ForeignBlocksSurvive` | src/memory/slab.c:59-66 | whatever one cache does with pages, the blocks and page links of the other caches stay |
| `SlabBlocks.ReturnedIfConserved` | src/memory/slab.c:37-46 | if no page gets lost between the free pages and the slabs of a cache, then exactly the pages of the slabs that are gone became free |
| `SlabBlocks.OutsideCallKeepsBlocks` | src/memory/buddy.c:76-151 | whatever other users of the page allocator do with blocks that are no slabs, every cache keeps its blocks and page links |
| `SlabAllocator.LocalSlabCache.Push` | src/memory/slab.c:224 | the address goes on top of the stack |
| `SlabAllocator.LocalSlabCache.Pop` | src/memory/slab.c:209 | the last address pushed comes off |
| `SlabAllocator.SlabCache.constructor` | src/memory/slab.c:91-120 | a cache without slabs, objects or stack entries |
| `SlabAllocator.SlabCache.AllocSlab` | src/memory/slab.c:48-78 | succeeds exactly if the page allocator has a free run of the slab's order; the new slab's objects are all free, exactly its pages are taken, other caches' pages are untouched |
| `SlabAllocator.SlabCache.TakeFrom` | src/memory/slab.c:143-149 | objects leave one slab until it is full or the batch is done |
| `SlabAllocator.SlabCache.FillStack` | src/memory/slab.c:130-155 | sixteen objects, or all free ones if there are fewer, go to the stack, those of partial slabs first |
| `SlabAllocator.SlabCache.RefillCache` | src/memory/slab.c:122-163 | the retry happens at most once; nothing is served only if no object is free and no free run exists |
| `SlabAllocator.SlabCache.FlushTop` | src/memory/slab.c:176-195 | the top object finds its slab by its address and goes back to it; an emptied slab is destroyed or listed by the limit |
| `SlabAllocator.SlabCache.FlushLocalCache` | src/memory/slab.c:165-200 | exactly the top sixteen objects leave the stack, none of the others changes hands; all pages of the slabs destroyed are free, and no other page became free |
| `SlabAllocator.SlabCache.DestroySlab` | src/memory/slab.c:80-89 | the slab's pages lose their mark; the free pages are those of before and the pages of its block, and their number grows by 2^order |
| `SlabAllocator.SlabCache.AllocByCache` | src/memory/slab.c:202-214 | the object handed out was in nobody's hands; the last one freed comes first; nothing only if stack, slabs and page allocator have nothing left, and then nothing changes; no page is taken but those of new slabs |
| `SlabAllocator.SlabCache.FreeByCache` | src/memory/slab.c:216-227 | the object leaves client hands and tops the stack, which first loses its top sixteen if it holds eighty; all pages of slabs destroyed on the way are free, and no other page became free |
| `KMalloc.ObjectsApart` | src/memory/slab.c:144-148 | objects in use never overlap, whether of one slab, one cache or two |
| `KMalloc.HeadersApart` | src/memory/slab.c:53-57 | no object in use touches the 32 bytes of `struct Slab` of any slab or the 4 bytes of any of its descriptors |
| `KMalloc.LargeClassesNeedTooMuch` | src/memory/slab.c:103-112 | the classes above 8192 bytes, and only those, need a slab larger than the largest block |
| `KMalloc.Heap.constructor` | src/memory/kmalloc.c:33-45 | sixteen empty caches, one for each size |
| `KMalloc.Heap.Kmalloc` | src/memory/kmalloc.c:47-57 | the first class that is large enough serves the request, no other cache changes and no page is taken but those of new slabs; sizes above 8192 are never served, smaller ones unless that class and the page allocator have nothing left |
| `KMalloc.Heap.Kfree` | src/memory/kmalloc.c:59-75 | the cache found through the page of the address is the one that handed the object out, and only it changes; all pages of slabs destroyed on the way are free, and no other page became free |
| `KMalloc.Heap.AllocPagesOutside` | src/memory/buddy.c:116-151 | other users can take pages at any time: the heap stays in order and no cache changes |
| `KMalloc.Heap.FreePagesOutside` | src/memory/buddy.c:76-114 | other users can drop references to their own blocks: the heap stays in order and no cache changes |
| `KMalloc.Heap.ClientsApart` | src/memory/kmalloc.c:47-57 | in every state of the heap, live objects of any two classes occupy disjoint bytes |
| `KMalloc.Heap.ClientsApartFromHeaders` | src/memory/kmalloc.c:47-57 | in every state of the heap live objects avoid `struct Slab` and every descriptor of every slab |
| `Layers.TopIsTopmost` | src/video/framebuffer.c:81-127 | the topmost layer covers the pixel and no layer above it does |
| `Layers.PaintShowsTop` | src/video/framebuffer.c:141-176 | painting all layers in order shows the pixel of the topmost one |
| `Layers.RankRightIff` | src/video/framebuffer.c:96-126 | the number written for a layer is its index exactly if every layer below it meets the refreshed rectangle, because skipped layers are not counted |
| `Layers.SpanColumns` | src/video/framebuffer.c:107-122 | the three loops with their unsigned arithmetic write exactly the columns of the span if it reaches a multiple of four, and every column there is otherwise |
| `Layers.ShortSpan` | src/video/framebuffer.c:107-122 | the span of columns 1 and 2 overwrites column 3 |
| `Layers.SideBySideMisnumbered` | src/video/framebuffer.c:96-103 | a third layer beside the second gets the second one's number |
| `FrameBuffer.Screen.constructor` | src/video/framebuffer.c:324-371 | the main layer covers the screen, is black, and the map names it everywhere |
| `FrameBuffer.Screen.FillSpan` | src/video/framebuffer.c:107-122 | exactly the pixels of a span that reaches a multiple of four change, though written singly and four at a time |
| `FrameBuffer.Screen.RefreshMap` | src/video/framebuffer.c:73-129 | each pixel of the rectangle gets the number of its topmost layer among those that meet it, no pixel outside changes |
| `FrameBuffer.Screen.CreateLayer` | src/video/framebuffer.c:569-598 | a white layer of the given place and size comes on top; a right map stays right exactly if it overlaps all layers below |
| `FrameBuffer.Screen.MoveLayer` | src/video/framebuffer.c:600-648 | the layer moves to the place given, or by it with sums of 32 bits; a move to the last column or row or beyond is refused without a change; otherwise a right map stays right exactly if no layer is skipped in the refreshed areas |
| `FrameBuffer.Screen.RefreshRow` | src/video/framebuffer.c:145-176 | copying runs of one layer four pixels at a time writes the same pixels as one by one, up to the next group of four |
| `FrameBuffer.Screen.Refresh` | src/video/framebuffer.c:131-180 | where the map is right, the rectangle, rounded up to groups of four pixels, shows what painting all layers in order would show, and nothing else changes |
| `TaskState.ScheduleKeepsInv` | src/task/task.c:207-262 | after a pass of the scheduler the running task is runnable and every other runnable task is queued once |
| `TaskState.ForkKeepsInv` | src/task/task.c:317-331 | the child is on its parent's list and on the run queue |
| `TaskState.AdoptKeepsExiting` | src/task/task.c:379-386 | moving a child to its grandparent keeps lists and parent pointers in agreement and every sleeper with a child to wait for |
| `TaskState.WakeParentEndsExit` | src/task/task.c:388-392 | waking the parent under the family lock leaves no sleeper with a zombie to reap, including children just handed over |
| `TaskState.ExitExits` | src/task/task.c:355-392 | an exit leaves a zombie with its code and no children, its parent with all of them, the last one in front, and awake if it waited; nothing else about any task changes, and the front of the queue runs next |
| `TaskState.WaitWaits` | src/task/task.c:398-444 | a pass of the wait loop takes the first matching zombie off the list and passes on its code; it sleeps exactly if there is a matching child, none has exited and it may wait |
| `TaskState.BlockKeepsInv` | src/task/task.c:402-438 | a task only goes to sleep in the wait loop with a living child to wait for and its flag set |
| `TaskState.StepKeepsInv` | src/task/task.c:207-587 | every step of the running task keeps family tree, run queue and wait invariants |
| `TaskState.NoSleeperMissesZombie` | src/task/task.c:378-443 | in every reachable state a task asleep in the wait loop has a living matching child, no matching zombie, and its flag set |
| `TaskState.RunnableIsQueued` | src/task/task.c:231-250 | in every reachable state a task that is neither running nor idle is on the run queue exactly if it is runnable, and once |
| `TaskState.ParentsAlive` | src/task/task.c:379-386 | in every reachable state a task's parent is alive and lists it once |
| `TaskState.ReapedForGood` | src/task/task.c:412-432 | a reaped task never comes back, so its exit code is delivered once |
| `TaskState.ExitCodeArrives` | src/task/task.c:365-432 | in every run, whoever reaps a task gets the code it exited with, also after the task was handed to its grandparent |
| `TaskState.OnlyExitedAreReaped` | src/task/task.c:365-432 | in every run, only a task that exited earlier is reaped, and the code delivered is the one of that exit |
| `TaskState.YieldsGoRound` | src/task/task.c:207-262 | yielding turns the running task and the run queue by one place each time, so everybody in the queue runs in its order and nobody is left out |
| `Tasks.Kernel.DoSchedule` | src/task/task.c:207-262 | one pass: the head of the run queue, else the task itself, else the idle task |
| `Tasks.Kernel.WakeUpTask` | src/task/task.c:566-587 | a sleeping task becomes runnable and is queued in front once; others are refused with -22 and nothing changes |
| `Tasks.Kernel.DoFork` | src/task/task.c:286-353 | a new pid; the child is runnable, first in the queue and first on its parent's list, and no other task changes |
| `Tasks.Kernel.DoExit` | src/task/task.c:355-396 | the caller is a zombie with its exit code; all children pass to the parent, which is woken if it waits, before the next task runs |
| `Tasks.Kernel.DoWaitPID` | src/task/task.c:398-444 | the first matching zombie is reaped and its exit code returned; without one the task sleeps, times out or has no such child, exactly as its children and the flag say |
| `TimerState.ArmKeepsInv` | src/time/time.c:80-99 | insertion keeps the queue sorted by deadline, ties in the order of arming |
| `TimerState.PopKeepsInv` | src/time/time.c:28-36 | firing the first due timer keeps the firing order and the fate of every timer exact |
| `TimerState.FiresOnceOnTime` | src/time/time.c:17-41 | between interrupts a timer not cancelled has fired exactly if its tick has come: once, in the interrupt of its deadline; or, if it was armed too late for that, in the running interrupt when a callback armed it and in the next one otherwise |
| `TimerState.FiresInDeadlineOrder` | src/time/time.c:22-37 | timers armed in time fire in deadline order, ties as armed |
| `TimerState.DueAtOnceIff` | src/time/time.c:60-69 | with the 64-bit deadline, a timer is due as it is armed exactly if its timeout is not positive and does not reach back beyond tick 0, or if the sum overflows |
| `TimerState.NeverEndsIff` | src/time/time.c:22-37 | when callbacks arm their timer again each time, something is due after every number of rounds exactly if that timeout is due at once |
| `TimerState.NeverEnds` | src/time/time.c:22-37 | in tick 3 timeout 0 keeps the interrupt from ending; timeout -5, or arming again only once, does not |
| `Timers.TimerQueue.AddTimer` | src/time/time.c:60-99 | the timer, with the deadline of ticks + timeout at 64 bits, goes in front of the first later one |
| `Timers.TimerQueue.RemoveTimer` | src/time/time.c:101-114 | a queued timer is cancelled, any other call changes nothing |
| `Timers.TimerQueue.RunCallback` | src/time/time.c:28-36 | a callback arms exactly the timers it asks for, with these deadlines and in this order, and cancels exactly those it names that have not fired |
| `Timers.TimerQueue.TimeInterrupt` | src/time/time.c:17-41 | if from some firing on no callback arms a timer that is due at once, the loop ends; all it fires fires in this tick, and nothing due is left; what is armed and cancelled is what the callbacks of these firings ask for |
| `Calendar.DaysOfYearsClosed` | src/time/rtc.c:32-33 | the sum of the year lengths from 1970 in closed form |
| `Calendar.DaysOfMonthsClosed` | src/time/rtc.c:32 | the sum of the month lengths is 367 m / 12 up to the shift that puts the leap day last |
| `Calendar.MktimeIsSecondsSinceEpoch` | src/time/rtc.c:25-34 | for every date from 1970 on that the 16-bit year holds, the closed form with its 8-bit month equals the seconds counted by years, months and days |
| `Calendar.MktimeCountsSeconds` | src/time/rtc.c:25-34 | successive seconds map to successive integers across all month, year, century and 400-year boundaries |
| `Calendar.MktimeOfEpoch` | src/time/rtc.c:25-34 | the epoch is zero |
| `Numbers.NumberOfDigits` | user/lib/stdio.c:189-192 | the digits printed mean the number |
| `Numbers.NineDigitsRead` | user/lib/stdio.c:276-280 | up to nine digits are read as what they mean |
| `Numbers.InRangeIff` | user/lib/stdio.c:276-280 | the computation stays in the range of an int exactly for nine digits and fewer; for more its result is undefined in C |
| `Numbers.TenDigitsMisread` | user/lib/stdio.c:276-280 | if overflow wraps around, a ten-digit number is never read back: its first digit gets the wrong weight |
| `Numbers.DigitsRoundTripIff` | user/lib/stdio.c:189-280 | if overflow wraps around, printing and reading digits gives the number back exactly if it is below 10^9 |
| `Formats.ScanPrintedInt` | user/lib/stdio.c:258-285 | `%d` reads back what `%d` printed and stops there, for nine digits with any sign, if no digit follows |
| `Formats.ScanSignedInt` | user/lib/stdio.c:258-285 | up to nine digits are read behind blanks, a `+`, a `-` or no sign, and more blanks: `+` changes nothing |
| `Formats.RoundTrip` | user/lib/stdio.c:165-309 | `vsscanf` on the output of `vsprintf` stores all arguments again and returns their number, for every format of `%d`, `%s`, `%c` and literals in which a number is not followed by a digit, a word is followed by a blank or the end, and a blank character does not follow a literal blank |
| `Formats.ScanCounts` | user/lib/stdio.c:219-309 | the answer is -1 or the number of values stored |
| `Formats.ScanMismatch` | user/lib/stdio.c:248-253 | the answer is -1 at a literal that the text does not go on with, not even behind blanks |
| `Stdio.FormatInt` | user/lib/stdio.c:182-200 | the digits written backwards into the scratch buffer are the decimal form |
| `Stdio.Vsprintf` | user/lib/stdio.c:165-217 | the buffer holds what the format means, a final zero, and is unchanged behind it |
| `Stdio.ReadInt` | user/lib/stdio.c:258-285 | blanks, sign, blanks and digits are consumed and valued as the format semantics says |
| `Stdio.MatchLiteral` | user/lib/stdio.c:248-253 | a literal matches at once or after blanks |
| `Stdio.Vsscanf` | user/lib/stdio.c:219-309 | return value and stored values are what the format semantics says, with all failure returns; the answer is -1 or the number of values |
| `Lists.InitList` | include/core/list.h:59-64 | a list head alone is a ring |
| `Lists.ListAdd` | include/core/list.h:39-42 | the node comes first among the members of the ring |
| `Lists.ListAddTail` | include/core/list.h:44-47 | the node comes last among the members of the ring |
| `Lists.ListDelete` | include/core/list.h:49-57 | the other nodes stay a ring in their order, and the members behind the head are those of the sequence `Without` the node; the node becomes a ring of its own |
| `Lists.ListEmpty` | include/core/list.h:66-69 | true exactly for a ring without members |

## Left out

- Buddy.BuddySystem.FreePages: the answer of the page cache for its own pages is a parameter; callers free a block with the order they allocated it with and only reference block heads, as all callers in the kernel do.
- Buddy.BuddySystem.Feed: the map of usable ranges and where the kernel ends are left to the caller; a range ends before the last page, as every range of the initialisation does.
- The locks of the page and slab allocators, per-processor caches and interrupts inside them: each call is one step.
- Semaphore: the interruptible variant, which has no caller; the initial count is 1 as initialised; counts are unbounded integers.
- CowRuns.Replay: anonymous areas only, and stores to a mapped address only where its area allows them, because `CowRuns.ReadOnlyArea` shows that the claim fails otherwise; areas are whole pages and satisfy the condition of `Walk.VisitsAllIff`, because `CowRuns.ForkLosesPage` shows that fork loses a page of any other.
- CopyOnWrite.Memory.PageFault: allocation of pages and tables succeeds; file-backed pages and translation buffers are not modelled.
- PageTables.PageTables.AllocPML4E: the entries for the kernel, the same in every address space, are left out, and so are failures to allocate a table; of the loops that unmap an area, `PageTables.PageTables.ClearPTEEntry` is the innermost call, their order is that of `Walk.Walk`.
- CopyOnWrite.Memory.MMap: the search for a free place is not modelled; the area fits between its neighbours.
- CopyOnWrite.Memory.Fork: allocation failures and the wait of vfork are not modelled.
- SlabAllocator.SlabCache.FreeByCache: the object was handed out by this cache and not freed since, as callers must see to; pages are identified with their numbers and cache pointers with ids.
- KMalloc.Heap.Kmalloc: the caches for cache descriptors themselves and their destruction are not modelled; a size is any natural number.
- FrameBuffer.Screen.RefreshMap: rows and columns instead of row * width + column; layers lie inside the screen and spans reach a multiple of four, the condition of `Layers.SpanColumns`.
- FrameBuffer.Screen.CreateLayer: memory for the layer is available; the optional refresh of the screen after creating or moving is `FrameBuffer.Screen.Refresh`, called separately.
- FrameBuffer.Screen.Refresh: 32 bits per pixel; the rectangle, rounded up to groups of four pixels, ends inside the row, as a wider write would go to another row; drawing text and rectangles is not modelled.
- TaskState.NoSleeperMissesZombie: one processor, no interrupt between setting the state and switching away, and cleanup in exit that does not block, so a pass of exit or wait is one step; pending signals are a free choice.
- Tasks.Kernel.DoFork: allocation succeeds; memory, files and signals of a task are not part of it. Tasks.Kernel.DoWaitPID does not store to user memory.
- Timers.TimerQueue.AddTimer: a timer is not armed while it is still queued; each arming has a number of its own. Deadlines have 64 bits; the tick counter itself does not wrap.
- Timers.TimerQueue.TimeInterrupt: callbacks are arbitrary sequences of arming and cancelling; what else they do is not modelled.
- Calendar: reading the clock chip and its conversion from BCD.
- Stdio.Vsprintf: the least 32-bit integer has no absolute value there and is excluded, as are formats that end in a lone `%` and arguments of the wrong kind. Stdio.Vsscanf: values are returned in order instead of stored through pointers.
- Formats.RoundTrip: numbers have at most nine digits; for more, reading overflows (`Numbers.InRangeIff`). Words are not empty and hold no blank, as `%s` reads no other.
- Radix tree, page cache, RCU, ring buffer, dentry cache, signal frames, drivers, file systems, the loader and user programs.
