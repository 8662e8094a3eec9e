# mini-os: verified models of the kernel core

This project models the parts of the mini-os kernel where the state is hardest to
keep straight, and proves what those parts are for. Each model follows the C code
branch by branch: structures that the kernel updates in place are classes, its
loops are loops with invariants, and every failure path is a result value.

| area | files | main result |
|---|---|---|
| virtual memory | `PageTable`, `Accounting`, `TreeWalk`, `ForkWalk`, `FlatView`, `VmaList`, `Eager`, `Spaces`, `Slots`, `ForkExit`, `TreeCount`, `Vm` | copy-on-write refines a machine that copies every page at fork, event by event over all runs and all out-of-memory points; reference counts are exact and the page pool is conserved |
| page allocator | `BuddyMath`, `BuddyBlocks`, `Buddy` | `alloc_pages` fails only when no aligned run is free; the free lists are determined by the set of free pages |
| kmalloc | `SlabPages`, `Slab` | live objects never overlap and every page comes back, on top of the buddy allocator |
| red-black tree | `RbShape`, `RbTree` | insertion fix-up restores the red-black conditions and the order; iteration visits exactly that order |
| run queues | `Sched` | no task runs on two CPUs, lists and counters agree, zombies stay off the queues, pulls balance, every queued task gets its turn |
| signals | `Signal` | how every call ends is a function of the signal state, justified by a signal that came; a handler's return restores registers, stack pointer and mask after any run of nested signals; interrupted calls restart exactly once or report EINTR |
| file names | `Paths`, `Ramfs`, `Dcache`, `Namei` | over every run of system calls with any path strings the dentry cache agrees with ramfs, ramfs stays a tree, and an inode exists exactly while it has a name, is open, or was led to by a successful unlink, which never puts its reference |
| pipes | `Pipe` | every run reports what a bounded queue reports; freed exactly once |
| shared | `Basics` | the page size, optional values and lists without repetition |

How to read the larger models:

- **Virtual memory.** `Eager` is the reference machine: address spaces that own
  their pages, with an ordinary map from page slots to bytes. `Vm` is the kernel:
  three-level tables in page frames, `_refcount`, shared read-only leaves. `Spaces.Abs`
  reads an eager state out of a kernel state; every operation of `Vm` is proved to be a
  step of `Eager` between the two readings, and `Vm.Run` puts the steps together. An event
  no caller issues in the given state (`Eager.Applicable`) has the outcome `Skipped`.
- **Buddy allocator.** A free or allocated block is a pair of order and first page.
  The arrays and lists of the kernel are tied to a set of such blocks.
- **Red-black tree.** The heap of `Node` objects is tied to a pure tree by `Spells`;
  a position in it is a pair of a surrounding context (`Hole`) and a subtree.
- **File names.** `Ramfs.ListsOk` ties the directory lists to one map from
  (directory, name) to inode; `Dcache.DcOk` says every cached dentry stands for an
  entry of that map. Path strings are parsed by `Paths.Split`. `Namei.Step` says what one
  call does: its error, the names afterwards, the reference counts and the open files.
  `stray` collects the references that are taken and never put.
- **Signals.** `Signalled` is `do_signal` as a function of pending set, mask, actions and stack
  pointer. A `Snap` is the user context and memory with the frames there and the signal state,
  and `Step` says what one event makes of it. A run is
  polite when the program neither writes over live frames nor moves the stack pointer above them.

Facts the proofs brought out, all stated in the code below:

- `free_pages` takes a block back exactly when `mem_start` is aligned to the size
  of the block (`FreeHonoured`, `AllocThenFree`); a pool of four pages at page 1 never gets
  a block of two pages back (`UnalignedPoolLeaks`). `kfree` of a large block inherits this.
- `kmalloc` returns fewer bytes than asked for exactly when adding the header wraps
  around 64 bits or the size exceeds the largest order (`Alloc`, `LargeEnough`); a request
  for 2^64 - 1 bytes gets one page (`WrapsToOnePage`).
- `do_munmap` has no upper limit. From 2^39 on the walk reaches the slots of lower
  addresses: unmapping the page at 2^39 + a takes the page of a away under its VMA
  (`SweptAway`). The call drops exactly its range if and only if no page of the range
  aliases a page in memory outside it (`SweepIsDrop`, `Munmap`).
- When the end of a `do_munmap` range wraps around 64 bits, the VMA list stays sorted if
  and only if no VMA reaches across both ends (`TornUnsorted`); `WrapTears` is an input where it
  does not. `do_mmap` with MAP_FIXED takes such a range for an empty one (`EmptyExactly`) and
  refuses it only after it has erased it, with the same consequence (`DoMmap`).
- `map_page` over a slot that names a page keeps the counts exact if and only if the slot was
  empty: the page it named is never put (`MapPage`, `FilledOver`).
- `path_resolve` counts the slash of a base "/", so in the root directory a relative path can
  be too long where the same path with a slash in front is not. This happens exactly when the
  first component other than "." has 254 characters and what follows stays there or leaves
  by ".." for something that fits (`RelativeFromRoot`, `LongestName`).
- A successful `do_unlink` never puts the reference it took: `ramfs_inode_unlink` clears the
  field the final `iput` reads. A file that is created, closed and unlinked keeps its inode for
  good (`UnlinkLeaks`); through a symbolic link it is the target that keeps the reference
  (`TargetKeepsReference`). i_count is the number of open files after a run if and only if no
  unlink in the run succeeded (`BalancedExactly`).
- `do_unlink` follows symbolic links to decide whether it may remove the name (`UnlinkOfLink`): a
  link to a directory gives EISDIR (`LinkToDirectoryStays`) and a dangling link ENOENT
  (`DanglingStays`).
- A pull whose choice has become stale by the time of the migration lowers the sum of squared
  loads exactly when the source list is still longer by two (`PullAmid`).

## Model

| member | source | states |
|---|---|---|
| `VirtualMemory.Vm.Run` | mm/mmap.c:32-1118 | for any sequence of events (fork, exit, loads, stores, mmap, munmap, mprotect) the outcomes are those of a run of the machine that copies every page at fork through the same events, and the final memory is that machine's; the page pool is conserved, and wholly free once no address space is left |
| `VirtualMemory.PageAccounting` | mm/mmap.c:32-65 | in every reachable state `_refcount` of a data page is the number of leaf entries naming it over all address spaces, and a hardware-writable leaf names a page with count 1 |
| `VirtualMemory.PageOwner` | mm/mmap.c:540-594 | every page in use is a table of a live address space or named by one of its leaves |
| `VirtualMemory.NothingLeaks` | mm/mmap.c:579-594 | when the last address space is gone no page is in use and the allocator holds the whole pool |
| `VirtualMemory.Vm.Perform` | mm/mmap.c:32-1118 | each operation is one step of the reference machine and conserves the page pool |
| `VirtualMemory.Vm.Fork` | kernel/fork.c:162-194 | dup_mm gives the child a copy of every byte the parent sees, or fails and leaves all spaces as they were; with the structures allocated it fails exactly when there are fewer free pages than tables to copy |
| `VirtualMemory.Vm.DupLevel` | mm/mmap.c:607-674 | the copied subtree shares every page read-only with exact counts; it fails exactly when there are fewer free pages than tables below, and then the copy is gone and only write permission of parent leaves was lost |
| `TreeCount.CostTurn` | mm/mmap.c:628-671 | the tables reached through one more entry, and what is still to come |
| `VirtualMemory.Vm.DupEntry` | mm/mmap.c:628-671 | one entry of the table copy, including the roll-back when an allocation below fails |
| `VirtualMemory.Vm.ShareEntry` | mm/mmap.c:651-669 | the page gets one more reference and the same read-only entry goes into parent and child |
| `VirtualMemory.Vm.FreeLevel` | mm/mmap.c:540-568 | freeing a table subtree puts every page below once and frees every table below, and nothing else changes |
| `VirtualMemory.Vm.MmPut` | mm/mmap.c:579-594 | one user less; with the last one the space disappears, its pages go back to the pool, and every other space reads what it read before |
| `VirtualMemory.Vm.MmAlloc` | kernel/fork.c:129-160 | a new empty space, or no change |
| `VirtualMemory.Vm.Load` | mm/mmap.c:1063-1118 | a load or fetch returns the byte the eager machine holds, zeros on first touch, or faults exactly when the VMA forbids it; it runs out of memory only with at most two pages free |
| `VirtualMemory.Vm.Store` | mm/mmap.c:1015-1118 | a store changes that byte of that space only, whoever shares the page; it runs out of memory only with at most two pages free |
| `VirtualMemory.Vm.CowFault` | mm/mmap.c:1015-1061 | a COW fault changes no byte of any space, fails with EFAULT exactly when the leaf is no COW candidate or the VMA is not writable, and leaves a writable private leaf; ENOMEM only when no page is free |
| `VirtualMemory.Vm.CowBreak` | mm/mmap.c:1044-1061 | a sharer gets a writable private copy and puts the shared page, and no space reads anything new |
| `VirtualMemory.Vm.DemandFault` | mm/mmap.c:1102-1118 | first touch maps a zero page with the permissions of the VMA, or changes nothing |
| `VirtualMemory.Vm.ReadFault` | mm/mmap.c:1063-1118 | read and fetch faults: EFAULT exactly when not permitted or already mapped |
| `VirtualMemory.Vm.WriteFault` | mm/mmap.c:1063-1118 | write faults: served only with a writable leaf, bytes unchanged on a mapped page |
| `VirtualMemory.Vm.Translate` | mm/mmap.c:379-402 | the walk finds exactly the leaf of the address, which permits no more than its VMA |
| `VirtualMemory.Vm.PteAt` | mm/mmap.c:379-402 | l3_slot on three levels is a lookup in the flat map of leaves |
| `VirtualMemory.Vm.GetOrCreate` | mm/mmap.c:519-538 | the child table exists afterwards or nothing but unused tables changed |
| `VirtualMemory.Vm.MapPage` | mm/mmap.c:704-723 | success sets exactly that slot; failure means at most one page was free and leaves the flat map and the page in hand; the counts stay exact if and only if the slot was empty or the call failed |
| `Spaces.FilledOver` | mm/mmap.c:704-723 | filling a slot that names a page breaks the accounting |
| `VirtualMemory.Vm.UnmapPage` | mm/mmap.c:759-795 | exactly that slot is emptied and its page put; bytes elsewhere stay |
| `VirtualMemory.Vm.Munmap` | mm/mmap.c:797-822 | for any address and length: the invariant survives unless the end wraps round a VMA, and exactly then not; the VMAs of the range and every page its addresses walk to go; this is what munmap means if and only if no address of the range aliases a page in memory outside it |
| `VirtualMemory.Vm.Mmap` | mm/mmap.c:924-954 | at a chosen place the new VMA replaces the range with MAP_FIXED, is added otherwise; old bytes never show through |
| `VirtualMemory.Vm.DoMmap` | mm/mmap.c:899-954 | in 64-bit arithmetic: refused, no room, an empty range, or a mapping at the chosen place with the new mmap_base; the invariant survives exactly unless an empty range tore the list |
| `VirtualMemory.Vm.ChangePteProt` | mm/mmap.c:409-432 | one leaf takes the new permissions, but stays read-only while its page is shared |
| `VirtualMemory.Vm.ProtectPages` | mm/mmap.c:434-443 | after the loop every leaf of the range agrees with its VMA again and no byte changed |
| `VirtualMemory.Vm.Mprotect` | mm/mmap.c:478-517 | protection of exactly the range changes, or the address-to-flags map is unchanged |
| `VirtualMemory.Vm.PutPage` | mm/page_alloc.c:257-273 | the page is freed exactly when no leaf names it any more |
| `VirtualMemory.Vm.GetPage` | mm/page_alloc.c:249-255 | one more reference is owed by the caller |
| `TreeWalk.FreedChild` | mm/mmap.c:553-557 | freeing the table under one entry composes with the entries freed before it |
| `TreeWalk.FreedAll` | mm/mmap.c:540-568 | when all entries are done the whole subtree is gone |
| `ForkWalk.CopyBegins` | mm/mmap.c:607-619 | an empty new table is a copy of no entries |
| `ForkWalk.CopyShares` | mm/mmap.c:651-669 | sharing one leaf extends the copy by one entry |
| `ForkWalk.CopyLinks` | mm/mmap.c:635-650 | hanging in a copied child table extends the copy by one entry |
| `ForkWalk.CopyGivesUp` | mm/mmap.c:642-646 | freeing a half-made copy gives back every reference and table it had taken |
| `ForkWalk.SharedExclusive` | mm/mmap.c:32-65 | after a copy no writable leaf names a shared page |
| `ForkWalk.AbandonedExclusive` | mm/mmap.c:32-65 | the same after an abandoned copy |
| `ForkExit.ForkGood` | kernel/fork.c:162-194 | the system after fork is consistent and reads as the eager copy |
| `ForkExit.AbandonGood` | kernel/fork.c:162-194 | the system after a failed fork reads as before |
| `ForkExit.ExitGood` | mm/mmap.c:579-594 | the system after mm_put reads as before without that space |
| `Slots.CowCopied` | mm/mmap.c:1044-1061 | replacing a shared page by a private copy keeps what every space reads |
| `Slots.CowReuse` | mm/mmap.c:1037-1042 | making the only leaf writable again keeps what every space reads |
| `Slots.UnmapDone` | mm/mmap.c:797-822 | erasing the VMAs and clearing page by page leaves a consistent system without the pages the range walks to |
| `Eager.SweepIsDrop` | mm/mmap.c:797-822 | unmap_page on every page of a range takes exactly the pages of the range if and only if no page of it at or above 2^39 shares its slot with a page in memory outside |
| `Eager.SweptAway` | mm/mmap.c:797-822 | munmap of the page at 2^39 + a empties the mapped slot of a while every VMA stays |
| `FlatView.VaOfSlot` | mm/mmap.c:379-402 | below 2^39 the three indices determine the page address |
| `FlatView.SlotOfVa` | mm/mmap.c:379-402 | and every slot is the slot of its address |
| `FlatView.SlotAliases` | mm/mmap.c:379-402 | two addresses share a slot exactly when their page numbers agree modulo 2^27 |
| `FlatView.TableAdded` | mm/mmap.c:519-538 | a new intermediate table aliases no other and keeps the tree well linked |
| `VmaList.Mm.FindVma` | mm/mmap.c:73-83 | the first VMA that ends above the address; it decides what the address maps to |
| `VmaList.Mm.InsertVma` | mm/mmap.c:101-125 | succeeds exactly when the range is non-empty and clear, and then adds exactly it |
| `VmaList.Mm.EraseRange` | mm/mmap.c:211-262 | removes exactly the range; fails only when a VMA must be split, and then changes nothing; the list stays sorted unless the range is wrapped and a VMA reaches across |
| `VmaList.EraseAt` | mm/mmap.c:211-262 | the erased list maps an address as before outside the range and to nothing inside |
| `VmaList.EraseSorted` | mm/mmap.c:211-262 | erasing keeps the list sorted, disjoint and without empty intervals |
| `VmaList.TornUnsorted` | mm/mmap.c:211-262 | for a wrapped range the list is unchanged and sorted exactly when no VMA reaches across both ends |
| `VmaList.WrapTears` | mm/mmap.c:797-822 | a mapping and a length for which munmap leaves two overlapping VMAs, and which mmap takes for an empty range |
| `VmaList.InsertAt` | mm/mmap.c:101-125 | insertion changes the map on exactly the new interval |
| `VmaList.InsertSorted` | mm/mmap.c:101-125 | insertion keeps the list sorted and disjoint |
| `VmaList.SplitAt` | mm/mmap.c:445-460 | splitting a VMA changes no address |
| `VmaList.ProtectAt` | mm/mmap.c:478-517 | mprotect changes the protection of exactly the addresses in the range |
| `VmaList.ProtectSorted` | mm/mmap.c:478-517 | mprotect keeps the list sorted and disjoint |
| `VmaList.Mm.SplitVma` | mm/mmap.c:445-460 | the VMA becomes two at the given address, or the list stays |
| `VmaList.Mm.Covered` | mm/mmap.c:462-476 | true exactly when every address of the range is mapped |
| `VmaList.Mm.Mprotect` | mm/mmap.c:478-517 | ENOMEM for a hole; a failure after the first split leaves the map unchanged |
| `VmaList.Mm.FindUnmappedArea` | mm/mmap.c:264-285 | the loop computes the search in 64-bit arithmetic |
| `VmaList.SearchFirst` | mm/mmap.c:264-285 | where no sum wraps, the search finds the lowest page-aligned address at or above mmap_base where the length fits, or 0 when there is none |
| `VmaList.EmptyExactly` | mm/mmap.c:914-930 | a range is empty exactly when the length is 0 or rounds to 0, or its end is not below 2^64 |
| `VmaList.Mm.MmapAnywhere` | mm/mmap.c:919-954 | mmap without MAP_FIXED takes the place found and never fails for overlap; an empty range is refused and nothing changes |
| `VmaList.Mm.MmapFixed` | mm/mmap.c:899-954 | MAP_FIXED replaces what was there; its errors and what they leave, with the exact condition under which an empty range tears the list |
| `BuddyAllocator.PageAllocator.AllocPages` | mm/page_alloc.c:198-221 | NULL exactly when no aligned run of 2^order pool pages is entirely free; else a block that was free and now has one owner |
| `BuddyAllocator.PageAllocator.FreePages` | mm/page_alloc.c:223-247 | an accepted block leaves the allocated set, any other call changes nothing |
| `BuddyAllocator.PageAllocator.BuddyFree` | mm/page_alloc.c:118-137 | merging upwards restores a partition in which no two buddies are both free |
| `BuddyAllocator.PageAllocator.SplitBlock` | mm/page_alloc.c:106-115 | splitting down leaves the wanted block in hand and its halves on the lists |
| `BuddyAllocator.PageAllocator.FreeListAdd` | mm/page_alloc.c:68-75 | lists and block_order[] spell the set of free blocks with the new one |
| `BuddyAllocator.PageAllocator.FreeListRemove` | mm/page_alloc.c:77-90 | and without the removed one |
| `BuddyAllocator.PageAllocator.FreeListPop` | mm/page_alloc.c:92-104 | the popped block was free and is now in hand |
| `BuddyAllocator.PageAllocator.constructor` | mm/page_alloc.c:139-168 | the pool starts as one free block of the largest order that fits |
| `BuddyAllocator.PageAllocator.GetPage` | mm/page_alloc.c:249-255 | one more owner |
| `BuddyAllocator.PageAllocator.PutPage` | mm/page_alloc.c:257-273 | the last owner returns the page |
| `BuddyAllocator.PageAllocator.FreeHonoured` | mm/page_alloc.c:51-61 | free_pages accepts an allocated block exactly when mem_start is aligned to its size |
| `BuddyAllocator.UnalignedPoolLeaks` | mm/page_alloc.c:51-61 | a pool of four pages starting at page 1: an order-1 block allocated and freed is still allocated |
| `BuddyAllocator.AllocThenFree` | mm/page_alloc.c:139-247 | on a new pool of any size and place, for any order: allocation succeeds exactly when the order fits, and freeing brings the block back exactly when mem_start is aligned to it |
| `BuddyAllocator.PageAllocator.LiveApart` | mm/page_alloc.c:198-247 | allocated blocks are disjoint page ranges |
| `BuddyAllocator.PageAllocator.AllReturned` | mm/page_alloc.c:118-168 | with nothing allocated the lists hold the one block they began with |
| `BuddyAllocator.LiveDecidesFree` | mm/page_alloc.c:68-168 | the allocated blocks determine the free blocks |
| `BuddyAllocator.RoomIff` | mm/page_alloc.c:198-221 | some list of sufficient order is non-empty exactly when an aligned run is entirely free |
| `BuddyBlocks.Canonical` | mm/page_alloc.c:118-137 | a block is on the lists exactly when it is entirely free and its parent is not |
| `BuddyBlocks.FreePagesDecide` | mm/page_alloc.c:118-137 | the set of free pages alone determines the free blocks |
| `BuddyBlocks.Swallowed` | mm/page_alloc.c:118-137 | an entirely free aligned run lies inside one free block |
| `SlabAllocator.Kmalloc.Alloc` | mm/slub.c:186-198 | NULL exactly when neither a slab nor the page allocator has room; else a new object distinct from all live ones, which holds the requested bytes unless the size wraps or exceeds the largest order |
| `SlabAllocator.Kmalloc.Kfree` | mm/slub.c:256-273 | exactly this object stops being live; pages are lost only where free_pages refuses the block; a pointer into a page without a slab changes nothing |
| `SlabAllocator.Kmalloc.CacheAlloc` | mm/slub.c:200-227 | NULL exactly when no slab of the cache has room and no page is free |
| `SlabAllocator.Kmalloc.CacheFree` | mm/slub.c:229-254 | the slab list after a free, including the return of an empty slab |
| `SlabAllocator.Kmalloc.SlabCreate` | mm/slub.c:70-103 | a new slab whose free list holds every slot of the page once |
| `SlabAllocator.Kmalloc.Carve` | mm/slub.c:95-100 | the loop links exactly the objects of the page |
| `SlabAllocator.Kmalloc.SlabDestroy` | mm/slub.c:105-109 | the slab leaves the partial list and its page goes back |
| `SlabAllocator.Kmalloc.PartialUnlink` | mm/slub.c:50-62 | removes the slab from the list, wherever it is |
| `SlabAllocator.Kmalloc.AllocLarge` | mm/slub.c:130-156 | NULL exactly when no block of the order picked is free; else a block of that order |
| `SlabAllocator.Kmalloc.FreeLarge` | mm/slub.c:158-163 | the block goes back, or stays allocated when free_pages refuses it |
| `SlabAllocator.Kmalloc.Disjoint` | mm/slub.c:24-103 | two live objects never overlap |
| `SlabAllocator.Kmalloc.Inside` | mm/slub.c:24-48 | a live object lies behind its header and inside the pages of its slab |
| `SlabAllocator.Kmalloc.AllFreed` | mm/slub.c:229-273 | with nothing live no slab is left and the page allocator holds only what others allocated |
| `SlabAllocator.Kmalloc.Run` | mm/slub.c:186-273 | for any sequence of requests and returns each request is met exactly when there is room, by a new object; what is live at the end is what was live before and what the caller still holds, and a pool aligned for all its orders loses no page |
| `SlabAllocator.LargeEnough` | mm/slub.c:130-143 | when the order picked for a large request is enough |
| `SlabAllocator.WrapsToOnePage` | mm/slub.c:130-143 | sizes within a header of 2^64 get one page |
| `SlabAllocator.CacheFor` | mm/slub.c:111-128 | the smallest cache whose objects are large enough |
| `SlabPages.TakenOk` | mm/slub.c:214-224 | taking the first free object keeps free lists, counts and the partial list exact |
| `SlabPages.GivenOk` | mm/slub.c:241-252 | giving an object back keeps them exact |
| `SlabPages.FreshOk` | mm/slub.c:70-103 | a new slab on the partial list keeps them exact |
| `SlabPages.ObjectsApart` | mm/slub.c:24-43 | slots of a page do not overlap and spare the header |
| `RbTree.InsertColor` | lib/rbtree.c:60-116 | on a red-black tree with one red leaf linked in: terminates with a red-black tree, correct parent pointers, the same nodes in the same order |
| `RbTree.FixStep` | lib/rbtree.c:62-112 | one turn of the loop moves the only violation upwards and keeps order and nodes |
| `RbTree.RotateLeft` | lib/rbtree.c:20-38 | the six pointer writes turn the tree at x to the left |
| `RbTree.RotateRight` | lib/rbtree.c:40-58 | the six pointer writes turn the tree at y to the right |
| `RbTree.SameNodes` | lib/rbtree.c:20-58 | a rotation keeps nodes and in-order sequence |
| `RbTree.First` | lib/rbtree.c:257-268 | the first node in order, NULL exactly for the empty tree |
| `RbTree.Next` | lib/rbtree.c:270-285 | the successor in order, NULL exactly at the last node |
| `RbTree.Walk` | lib/rbtree.c:257-285 | rb_first and repeated rb_next enumerate the in-order sequence |
| `RbShape.RecolouredFixing` | lib/rbtree.c:74-80 | recolouring moves the violation to the grandparent and keeps black heights |
| `RbShape.RotatedFixing` | lib/rbtree.c:88-90 | the outer rotation removes the violation and keeps black heights |
| `RbShape.TurnedFixing` | lib/rbtree.c:82-86 | the inner rotation turns the inner case into the outer one |
| `Scheduler.Scheduler.Run` | kernel/sched/core.c:99-534 | for any sequence of steps on any number of CPUs each step changes lists, current tasks, cpu fields and states as Next says of it; they stay coherent with the counters throughout, and a zombie stays one and is never queued again |
| `Scheduler.RunsOnOneCpu` | kernel/sched/core.c:402-534 | no task is current on two CPUs |
| `Scheduler.OnOneQueue` | kernel/sched/core.c:107-263 | a task is on at most one run list, once, the one its cpu field names |
| `Scheduler.QueuedRuns` | kernel/exit.c:67-91 | only runnable tasks are queued |
| `Scheduler.Scheduler.TryPull` | kernel/sched/core.c:371-400 | with nothing in between: pulls exactly when some CPU has two tasks more; conserves the total, empties no list, strictly lowers the sum of squared loads |
| `Scheduler.Scheduler.PullAmid` | kernel/sched/core.c:371-400 | with any steps of other CPUs between its sections: lists stay coherent, the total is conserved by the migration, and the sum of squares falls exactly when the source is still longer by two |
| `Scheduler.MovedLoad` | kernel/sched/core.c:185-263 | one migration changes the sum of squares by -2(source - destination - 1) |
| `Scheduler.Scheduler.MigrateTask` | kernel/sched/core.c:185-263 | when it succeeds, and exactly which list and counter change |
| `Scheduler.Scheduler.FindBusiest` | kernel/sched/core.c:309-347 | the CPU with the greatest load, if it exceeds the own load by more than one |
| `Scheduler.Scheduler.PickMigratable` | kernel/sched/core.c:350-369 | finds a task other than the current one whenever the list has two |
| `Scheduler.Scheduler.PickNext` | kernel/sched/core.c:402-421 | the successor of the current task on its list, or idle for an empty list |
| `Scheduler.Scheduler.Switch` | kernel/sched/core.c:492-534 | an empty list first takes a task from a list with two, then the next task by round robin; a CPU idles only when no other CPU has two tasks |
| `Scheduler.Fair` | kernel/sched/core.c:402-421 | on a list of n tasks each is reached within n successors, and n successors come back to the start |
| `Scheduler.Scheduler.Rounds` | kernel/sched/core.c:492-534 | k switches on a CPU advance its current task k places round its list |
| `Scheduler.Scheduler.SwitchUntil` | kernel/sched/core.c:492-534 | every task of the list is current after at most as many switches as there are tasks |
| `Scheduler.Scheduler.EnqueueCpu` | kernel/sched/core.c:107-141 | a task not on a list becomes runnable at the end of that one, on that CPU; coherent exactly when it is not current on another CPU |
| `Scheduler.Scheduler.Enqueue` | kernel/sched/core.c:143-152 | a cpu field out of range is replaced by the calling CPU first |
| `Scheduler.Scheduler.Dequeue` | kernel/sched/core.c:154-183 | the task leaves its list and the counter follows |
| `Scheduler.Scheduler.WakeUp` | kernel/fork.c:252-263 | the task is runnable and queued |
| `Scheduler.Scheduler.BlockCurrent` | kernel/sched/core.c:99-105 | the current task leaves its list; also prepare_to_wait and do_exit |
| `Scheduler.Scheduler.ResumeCurrent` | kernel/sched/wait.c:81-89 | the current task is runnable and queued again |
| `Signals.Task.Run` | kernel/signal.c:64-591 | any run of events is a run of the snapshot machine with the same deliveries and return values, up to the event that ends the task, which is a step of it as well; SIGKILL and SIGSTOP are never blocked and SIGCONT is never pending with a stop signal in any of its states |
| `Signals.Nesting` | kernel/signal.c:220-488 | at any depth: after a delivery, any polite run that never falls below the new frame, and the matching return, the interrupted context and the outer frames are back exactly |
| `Signals.Task.Perform` | kernel/signal.c:64-591 | what each event does to context, memory, frames, pending signals and actions, and how it ends, also when the task does not survive it |
| `Signals.Task.Sigreturn` | kernel/sys.c:366-375 | SIGSEGV exactly without a readable frame; at the innermost frame, registers, stack pointer and mask are back exactly, or the next handler of the action table interrupts that very context |
| `Signals.Task.RtSigreturn` | kernel/signal.c:468-488 | whatever lies at sp is restored, never blocking SIGKILL or SIGSTOP; an intact frame gives back its context |
| `Signals.Task.Syscall` | kernel/sys.c:377-398 | how the call ends and what is pending then; what the interrupted context holds: the result, the same call one instruction back, or EINTR, with the mask from before a sigsuspend; asleep exactly when no signal the sigsuspend waits for came |
| `Signals.Task.Answer` | kernel/sys.c:382-398 | the end do_signal decides on; do_signal and the restart at exit together apply the restart exactly once |
| `Signals.RestartInvisible` | kernel/signal.c:279-298 | -ERESTARTSYS shows up only as the argument of a call that is made again |
| `Signals.Task.DoSignal` | kernel/signal.c:330-388 | the loop ends as Signalled says, with its pending set; a caught signal pushes a frame for exactly the interrupted context |
| `Signals.SignalledJustified` | kernel/signal.c:330-388 | do_signal ends with a signal that was pending or arrived during a stop, is not blocked and no longer pending, and whose action is just that; with none only when none is ready |
| `Signals.SignalledSpends` | kernel/signal.c:330-388 | every signal no longer pending took effect or was cancelled by a stop signal or SIGCONT |
| `Signals.Task.TakeSignal` | kernel/signal.c:340-387 | one turn of the loop is one step of Signalled, for killing, stopping, ignored and caught signals |
| `Signals.Task.HandleSignal` | kernel/signal.c:300-325 | the mask a handler runs under and the mask its frame keeps |
| `Signals.Task.SetupFrame` | kernel/signal.c:220-253 | one more intact frame for exactly the interrupted context, or no change |
| `Signals.NextPending` | kernel/signal.c:149-167 | SIGKILL, then SIGSTOP, then the lowest ready signal; 0 exactly when none is ready |
| `Signals.Task.Queue` | kernel/signal.c:64-87 | stop signals and SIGCONT cancel each other |
| `Signals.Task.HandleCall` | kernel/signal.c:426-591 | sigaction, sigprocmask, sigsuspend and sigpending with their size and pointer checks: masks, actions, results, and what is pending when a sigsuspend stops waiting |
| `Signals.PushNested` | kernel/signal.c:220-253 | a new frame below sp overwrites no older frame |
| `Signals.FrameReads` | kernel/signal.c:468-488 | the words of an intact frame read back as its context |
| `Signals.MaskRoundTrip` | include/linux/signal.h:20-22 | a mask stored as a word reads back as the same set of signals |
| `Paths.PathResolve` | fs/namei.c:213-281 | on any two strings: the loop computes the character stack |
| `Paths.ResolveNames` | fs/namei.c:213-281 | from a canonical base the character stack is the list of names under the length limit |
| `Paths.LimitedIff` | fs/namei.c:233-270 | the limit is hit exactly when some directory on the way has a path that does not fit; else the result is the lexical fold |
| `Paths.RelativeFromRoot` | fs/namei.c:213-281 | in the root directory a relative path resolves like the same path with a slash in front, except exactly for the squeezed ones, which are too long |
| `Paths.ResolveCanonical` | fs/namei.c:213-281 | a result is the canonical path of the fold, has no empty or dot components, fits, and resolves to itself |
| `Paths.LimitedFold` | fs/namei.c:233-270 | within the limit the components are those of the lexical fold |
| `Paths.SplitShow` | fs/namei.c:213-281 | splitting a canonical path gives back its components |
| `Paths.LongestName` | fs/namei.c:264-267 | at the root the longest name resolves by its absolute path but is too long as a relative one |
| `Paths.ParentName` | fs/namei.c:351-401 | on any string: what the loops split off |
| `Paths.ParentNames` | fs/namei.c:351-401 | on a canonical path that is the parent path and the last component, nothing for the root |
| `Namei.FileSystem.DLookup` | fs/dcache.c:134-196 | on a canonical path the inode or absence that ramfs_lookup finds, attaching dentries only |
| `Namei.FileSystem.RamLookup` | fs/ramfs.c:670-728 | the loop follows names, dots and parents from the root |
| `Namei.WalkFollows` | fs/ramfs.c:670-728 | on a canonical path ramfs_lookup follows the names only |
| `Namei.FileSystem.DentryPath` | fs/dcache.c:198-249 | the path of the names that lead to the dentry, nothing exactly when it does not fit |
| `Namei.FileSystem.LookupOfPath` | fs/dcache.c:134-249 | d_lookup_path of dentry_path(d) is d |
| `Namei.FileSystem.GetName` | fs/namei.c:305-346 | the canonical path of the string, from the root or from the path of the task's directory, or the error |
| `Namei.UserPathMeaning` | fs/namei.c:305-346 | that path is the lexical fold of the components of the string; ENOENT exactly for the empty string, and too long exactly when the string or a directory on the way does not fit or the string is squeezed in the root directory |
| `Namei.FileSystem.Run` | fs/namei.c:403-867 | for any sequence of mkdir, mknod, unlink, rmdir, chdir, symlink, link, rename, open and close with any strings each call does what Step says of it; ramfs stays a tree, the cache agrees with it, every cwd is a live dentry; in every state i_count is the number of open files and stray references, and an inode exists exactly while it is the root, has a name, is open or has a stray reference |
| `Namei.FileSystem.Syscall` | fs/namei.c:305-867 | one call with any strings: its error, the names, the reference counts and the open files afterwards |
| `Namei.LiveNow` | fs/inode.c:14-47 | with i_count equal to the number of open files and stray references, an inode exists exactly while it is the root, has a name, is open or has a stray reference |
| `Namei.StrayExactly` | fs/namei.c:473-509 | over any run the stray references are one for each successful unlink, to the inode it led to |
| `Namei.BalancedExactly` | fs/namei.c:473-509 | i_count is the number of open files after a run if and only if no unlink in it succeeded |
| `Namei.UnlinkLeaks` | fs/namei.c:473-509 | a file created, closed and unlinked: its inode stays with i_count 1, without a name or an open file |
| `Namei.TargetKeepsReference` | fs/namei.c:473-509 | unlink of a link to a file: the file keeps the reference |
| `Namei.UnlinkOfLink` | fs/namei.c:473-509 | unlink of a link asks about its target: nothing there is ENOENT, a directory EISDIR |
| `Namei.DanglingStays` | fs/namei.c:473-509 | a dangling link in an empty file system cannot be unlinked |
| `Namei.LinkToDirectoryStays` | fs/namei.c:473-509 | nor can a link to a directory |
| `Namei.FileSystem.Open` | fs/open.c:145-246 | one more open file on what the path leads to or on a new file; every failure gives its reference back |
| `Namei.FileSystem.Close` | fs/open.c:25-43 | exactly that reference goes, and the inode with it when nothing else holds it |
| `Namei.FileSystem.Make` | fs/namei.c:403-471 | mkdir and mknod: the exact error, or exactly one new name for one new inode |
| `Namei.FileSystem.Unlink` | fs/namei.c:473-509 | the exact error, or exactly this name of a file goes and the inode the path leads to keeps one reference more; no other count changes |
| `Namei.FileSystem.Rmdir` | fs/namei.c:511-528 | the exact error, or exactly the name of an empty directory goes; no reference is taken or lost; a directory that is not empty moves to the head of its list |
| `Namei.FileSystem.Link` | fs/namei.c:584-639 | the exact error, or one more name for the file the old path leads to; no reference is taken or lost |
| `Namei.FileSystem.Symlink` | fs/namei.c:748-780 | the exact error, also for a target that is too long, or a new symbolic link under exactly this name; no reference is taken or lost |
| `Namei.FileSystem.Rename` | fs/namei.c:669-728 | the exact error, or the name moves, replacing an empty or file target; two names of one file stay; no reference is taken or lost |
| `Namei.FileSystem.RenameDents` | fs/ramfs.c:567-651 | the checks of rename in their order, among them that a directory is not moved below itself |
| `Namei.FileSystem.IsAbove` | fs/ramfs.c:606-613 | the ancestor loop terminates and decides whether the target lies below the source |
| `Namei.FileSystem.Chdir` | fs/namei.c:849-867 | the task's cwd becomes the dentry at that path |
| `Namei.FileSystem.DDrop` | fs/dcache.c:92-129 | tasks in the dropped directory move to its parent |
| `Namei.FileSystem.Child` | fs/dcache.c:181-192 | the cached child or a new dentry for what ramfs has; nothing exactly when ramfs has nothing |
| `Namei.FileSystem.Iput` | fs/inode.c:14-47 | an inode is freed exactly when it has no name and no other user |
| `Namei.FileSystem.RemoveName` | fs/ramfs.c:389-438 | exactly one name goes; an inode without names and users is freed, and no other |
| `Namei.FileSystem.NewInode` | fs/ramfs.c:209-318 | a new inode with one name |
| `Namei.FileSystem.VfsLookup` | fs/namei.c:21-81 | a reference on what up to eight links lead to, or none; on a path that names no link, what the names lead to |
| `Namei.FileSystem.FollowLinks` | fs/namei.c:47-78 | the loop with absolute and relative targets computes the chase of at most eight lookups |
| `Namei.ChaseEnds` | fs/namei.c:47-78 | a chase ends at an inode that exists and is not a link, whatever the targets say |
| `Ramfs.CreatedTree` | fs/ramfs.c:286-351 | a new entry keeps the tree: one name per directory, in its parent, below it in rank |
| `Ramfs.LinkedTree` | fs/ramfs.c:440-467 | a hard link keeps nlink equal to the number of names |
| `Ramfs.UnlinkedTree` | fs/ramfs.c:389-438 | removing a name keeps the tree and the link counts |
| `Ramfs.MovedTree` | fs/ramfs.c:567-651 | a rename that passes the ancestor check makes no cycle |
| `Ramfs.EvictedTree` | fs/inode.c:14-22 | freeing an inode without names and users leaves no dangling entry |
| `Ramfs.FindRemove` | fs/ramfs.c:389-411 | after the removal of the first match the name is gone and all others stay, as names are unique |
| `Ramfs.RequeuedOk` | fs/ramfs.c:538-541 | an entry removed and added again at the head of its list keeps lists and tree |
| `Ramfs.OneName` | fs/ramfs.c:286-318 | a directory has one name, in its parent |
| `Dcache.OneDentry` | fs/dcache.c:134-196 | a directory has at most one dentry |
| `Dcache.AttachOk` | fs/dcache.c:65-72 | a new dentry keeps cache and names in agreement |
| `Dcache.DropOk` | fs/dcache.c:121-129 | dropping a dentry without children keeps the agreement |
| `Dcache.MoveOk` | fs/dcache.c:109-119 | d_move after a rename keeps the agreement, with everything below the directory |
| `Dcache.NoKids` | fs/dcache.c:121-129 | a file or empty directory has no cached children, so a freed dentry leaves no orphan |
| `Pipe.Pipe.Run` | fs/pipe.c:40-183 | any sequence of reads, writes, dups and closes reports what the bounded queue reports and ends as it ends; bytes written are bytes read followed by the ring |
| `Pipe.InOrder` | fs/pipe.c:40-150 | over any run of the queue what the reads returned followed by what is left is what was there followed by what the writes accepted, and it never holds more than its size |
| `Pipe.Pipe.Read` | fs/pipe.c:40-94 | the oldest bytes; end of file exactly when the write end is gone and the ring is empty; when it would sleep, restart or report EAGAIN |
| `Pipe.Pipe.Write` | fs/pipe.c:96-150 | as many bytes as fit, appended; EPIPE exactly when the read end is gone; when it would sleep, restart or report EAGAIN |
| `Pipe.Pipe.Drain` | fs/pipe.c:78-89 | the copy loop takes the oldest bytes in order |
| `Pipe.Pipe.Fill` | fs/pipe.c:134-145 | the copy loop appends the bytes in order |
| `Pipe.Pipe.Fput` | fs/open.c:25-43 | the pipe is freed exactly once, when both ends are gone |
| `Pipe.Pipe.GetFile` | fs/open.c:19-23 | one more reference to an end |

## Left out

- VirtualMemory.Vm.AddVma: `kmalloc` of a VMA or of the mm structure may fail at any time here; its pages are not those of the page tables.
- VirtualMemory.Vm.DoMmap: `mmap_base` and the limit below the stack are parameters, MAP_ANONYMOUS is set, and VMA ends and `mmap_base` are page-aligned, so rounding them up does not wrap.
- BuddyAllocator.PageAllocator.FreePages: the caller passes the order the block was allocated with; the source has no record of it to check.
- Namei.FileSystem.GetName: paths relative to a directory descriptor (`ramfs_inode_path`) are not modelled.
- Namei.FileSystem.Open: `/proc`, O_TRUNC and descriptor numbers; one entry of `files` is a struct file until its last reference goes.
- Scheduler.Scheduler.Switch: choosing the next task and `set_current` are one step although the kernel drops the lock in between; time slices are not modelled.
- Pipe.Pipe.Read: one attempt is atomic, as with interrupts masked on one CPU; the NULL checks are left out.
- SlabAllocator.Kmalloc.Kfree: not for a pointer into a slab that is no live object there, nor for a page that still carries the magic number of a destroyed slab; object sizes are the powers of two of the seven kmalloc caches.
- `do_brk`, ELF loading and `exec`: they add no new page-table operation, and `do_brk` can shrink a heap VMA that was split.
- `rb_erase`: deletion is not modelled.
- Concurrent callers of the page tables and of the buddy allocator, which take no lock: operations are atomic.
- TLB and cache maintenance, TTBR and DAIF registers, context-switch assembly.
- Wait queues beyond their effect on the run queues, `wait4`, and the reaping of zombies.
- File contents, directory reading, `/proc`, device nodes beyond their existence, permissions.
- `kill` and process groups: a signal is queued to one task.
- Drivers, interrupts, timekeeping, the initial RAM disk.
