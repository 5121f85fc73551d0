# A verified model of a small kernel's memory, locks and files

The kernel runs on one 32-bit x86 processor. This project models the parts of it whose state only makes
sense across several functions, and proves in Dafny what those functions keep between them:

- the buddy allocator of page frames (`Bits`, `Seqs`, `Blocks`, `BuddySpec`, `BuddyTheorems`, `BuddyLists`, `Buddy`);
- regions, copy-on-write fork, the two page-fault handlers and the teardown on exec (`Vma`, `CowSpec`,
  `CowTheorems`, `CowRuns`, `CopyOnWrite`), and how their frames are the buddy allocator's pages (`UserFrames`);
- the scheduler's lists and the blocking primitives: semaphore, recursive mutex, condition variable and
  writer-preferring read-write lock (`Sched`, `SyncSpec`, `SyncPlaces`, `SyncFrame`, `SyncLocks`,
  `SyncTheorems`, `SyncRuns`, `SyncExits`, `SyncWaits`, `SyncGuarantees`, `SyncHandoffs`, `SyncKernel`);
- file contents on disk: direct sectors, the indirect table, the inode table and the block bitmap (`Bitmap`,
  `FsLayout`, `FsWriting`, `FsFlush`, `FsBytes`, `FsFiles`);
- the small-block allocator (`Kmalloc`), the intrusive list (`LinkedList`), the keyboard's ring (`LineRing`)
  and path printing and resolution (`Paths`, `PathLaws`). `Options` holds what several of them share.

`dafny verify dfyconfig.toml` checks everything. Code that changes things in place is a class or an
array-changing method, proved against functions on values; the theorems are about those functions.

How to read it:

- A section that runs with interrupts off is one step. On one CPU nothing else runs during it.
- The kernel's `ASSERT`s are preconditions or assertions that the model discharges. Where a `PANIC` depends on
  resources (no free block, no free sector) the method returns a flag, and says exactly when it is set.
- Ghost state records history or ownership that the kernel does not store: which blocks are allocated, who is
  inside a lock, what a thread's `task_tag` is linked into.
- Disk contents, the bytes of a page brought in from a file, the page frame an allocation hands out and the
  uninitialised padding of an inode record are parameters.

## What the proofs turned up

Where the code does less than its comments or assertions say, the model follows the code, gives a concrete
case, and states exactly when the intended behaviour is had.

- `buddy_init` passes its assertions exactly from 4096 pages (16 MiB) on (`Buddy.PoolSizesFacts`).
- The check after copying a shared page holds exactly with two sharers
  (`CowTheorems.CopyCheckIffTwoSharers`, `CowRuns.CopyCheckFailsForThree`).
- `exec_mmap` leaves exact reference counts exactly when every mapped page lies in exactly one region
  (`CowTheorems.TeardownExactIffCovered`), and frees no frame that is still mapped exactly when none lies in two
  (`CowTheorems.TeardownSafeIffAtMostOnce`). Its comparison with the last address released does not stop a page
  that two regions share from being released twice (`CowRuns.SharedPageIsReleasedTwice`), and `do_mmap` lets a
  program have such regions (`CowRuns.RegionsOfProgram`): its frame can be free while another process maps it
  (`CowRuns.FreedWhileMapped`).
- `page_not_present` accepts first touches below a region's start. They do not change what anybody reads
  (`CowRuns.RunRefinesEagerCopy` covers them), but the frame is lost: no exec gives it back, nor anything else
  (`CowRuns.StrayTouchLeaks`, `CowRuns.LostStaysLost`, with a case in `CowRuns.OnePageLeaks`). They are the only
  steps that make counts inexact (`CowRuns.StepKeepsExact`, `CowRuns.InsideRunsStayExact`).
- `do_mmap` keeps the regions in order exactly when the addresses asked for are free, not before the first region
  and not next to another (`Vma.MmapOrderedIffFits`); otherwise it may map a range twice
  (`CowRuns.OverlapIsMapped`), because its search leaves the address one region short (`Vma.SearchIsFirstRoom`).
- The assertion in `rwlock_write_release` fails for a writer that met no contention
  (`SyncGuarantees.UncontendedWriterTripsIt`); it holds exactly when some writer has had to wait since a writer
  last left without another waiting (`SyncGuarantees.WriteReleaseAssertIffContended`).
- `kmalloc` above 2032 bytes gets enough pages exactly when the page count is a power of two
  (`Kmalloc.LargeFitsIffPowerOfTwo`, `Kmalloc.LargeOverflows`).
- `ioqueue_getline` returns the number of stored bytes exactly when the whole line fits
  (`LineRing.ReturnedIsStoredIffFits`, `LineRing.CutLineIsMiscounted`). Once the ring is full without a newline,
  no Enter arrives and its reader stays blocked exactly as long as no key is a backspace
  (`LineRing.FullRingStaysBlocked`).
- `strncmp` compares one character more than asked; it is equality of names only because `parse_path` has cut
  the path there (`Paths.StrncmpIsEquality`, `Paths.UncutNameIsMissed`).
- `get_inode_pos` never finds a record that straddles two sectors (`FsLayout.RecordsDoNotStraddle`).

## Model

| member | source | states |
|---|---|---|
| Blocks.SplitTile | kernel/buddy.c:44-49 | replacing a block by its two halves keeps a set of blocks an exact tiling of the pool |
| Blocks.MergeTiles | kernel/buddy.c:83-89 | replacing two buddies by their parent keeps the tiling |
| Blocks.FreeRunIsInOneBlock | kernel/buddy.c:36-37 | in a tiling without free buddies, an aligned wholly free run lies inside one free block of at least its order |
| Blocks.BuddyAddress | kernel/buddy.c:85-87 | flipping bit `order` of a block's index gives its buddy's, clearing it the parent's |
| BuddyTheorems.AllocKeepsInv | kernel/buddy.c:36-54 | an allocation hands out an aligned, wholly free block of the pool that nobody had, and keeps tiling, counters, pair bits and maximal merging |
| BuddyTheorems.ReleaseKeepsInv | kernel/buddy.c:80-91 | a last release keeps the same invariant with the block no longer allocated; the buddy it deletes is always on its list |
| BuddySpec.PairIndex | kernel/buddy.c:43-47 | the bit index of every block of a pool, taken from its global page index, is inside that pool's bitmap |
| BuddyTheorems.PanicIffNoRun | kernel/buddy.c:36-57 | the PANIC is reached iff the pool has no aligned, wholly free run of the requested order |
| BuddyTheorems.FreeRunServes | kernel/buddy.c:36-54 | whenever such a run exists the request is served |
| BuddyLists.AllocTakesLeast | kernel/buddy.c:36-57 | a request is served from the first list, from its order up, that is not empty: its head is handed out, and each list below it down to the order then holds exactly one upper half; PANIC iff all these lists are empty |
| BuddyLists.AllocTakes | kernel/buddy.c:36-54 | in blocks: no free block is of an order between, and afterwards the free blocks are the old ones without the one taken plus the upper half of each split |
| BuddyLists.ReleaseMerges | kernel/buddy.c:80-91 | a released block merges with its buddy for as long as the buddy is free and no further; each buddy leaves its list, the whole goes to the front of its own, all other lists stay |
| BuddyTheorems.ReleaseUndoesAlloc | kernel/buddy.c:36-91 | releasing the block just allocated restores every free list, in order, every counter and every bit below MAX_ORDER |
| BuddyTheorems.AllReleased | kernel/buddy.c:83-91 | with nothing allocated the free blocks are the initial MAX_ORDER blocks and the lower lists are empty |
| BuddyTheorems.InitialInv | kernel/buddy.c:151-180 | the state left by buddy_init satisfies the invariant for any pool with lo twice at most hi |
| BuddyTheorems.EveryRun | kernel/buddy.c:24-93 | after every sequence of allocations and releases from the initial state free and allocated blocks tile the pool, nr_free counts each list, the bit looked up for any block below MAX_ORDER is set iff exactly one of it and its buddy is free, no two buddies are free, and with nothing allocated all is back in whole blocks |
| Buddy.PoolSizesFacts | kernel/buddy.c:145-150 | both pools are non-empty iff there are at least 4096 pages; together they take all whole blocks, and the kernel's is a fourth of them, rounded down |
| Buddy.Pool.constructor | kernel/buddy.c:152-165 | the loop over the whole blocks builds the initial free areas |
| Buddy.Pool.FindList | kernel/buddy.c:36-55 | the searching loop finds the least order whose list is not empty |
| Buddy.Pool.CutBlock | kernel/buddy.c:44-49 | the splitting loop, in place, leaves the areas the recursive split gives |
| Buddy.Pool.Allocate | kernel/buddy.c:36-57 | the whole search, pop and split, in place: serves the head of the first list from the order up that is not empty, with one upper half left on each list below, or panics iff all are empty; keeps the invariant |
| Buddy.Pool.MergeUp | kernel/buddy.c:83-91 | the merging loop, in place, leaves the areas the recursive release gives |
| Buddy.Pool.PutBlock | kernel/buddy.c:80-91 | releasing an allocated block, in place, merges it as far as its buddies are free and keeps the invariant |
| Buddy.PageAllocator.constructor | kernel/buddy.c:139-183 | two disjoint pools cover the page descriptors and nothing is allocated |
| Buddy.PageAllocator.AllocPages | kernel/buddy.c:24-60 | one pool changes: the page served is the head of its first list from the order up that is not empty, one upper half is left on each list below, PANIC iff all are empty; the page gets count 1 and its order, the other pool and all other pages stay |
| Buddy.PageAllocator.AddReference | kernel/fork.c:53 | a further reference on an allocated page keeps the allocator valid |
| Buddy.PageAllocator.FreePages | kernel/buddy.c:63-93 | the count goes down by one; the block goes back to the pool its index belongs to iff that was the last reference; the order assertion holds |
| Buddy.PageAllocator.AllocThenFree | kernel/buddy.c:24-93 | an allocation followed by a free restores the pool |
| CowTheorems.ForkKeepsInv | kernel/fork.c:41-61 | after fork each frame's count is the number of entries mapping it, writable entries are alone on their frame, pooled frames are unmapped |
| CowTheorems.ForkEntry | kernel/fork.c:41-61 | the child has the parent's entries, on the same frames, and both are read-only; nobody else's entry changes |
| CowTheorems.ForkReads | kernel/fork.c:41-61 | parent and child read what they would after copying every page at once |
| CowTheorems.TouchKeepsInv | kernel/memory.c:274-319 | mapping a fresh frame keeps counts exact |
| CowTheorems.TouchReads | kernel/memory.c:274-319 | a first touch adds exactly that page's contents to what the process reads |
| CowTheorems.ProtectFaultKeepsInv | kernel/memory.c:322-343 | the write fault keeps counts exact, whether it copies or only restores the permission |
| CowTheorems.ProtectFaultReads | kernel/memory.c:332-343 | the write fault changes nothing any process reads |
| CowTheorems.ProtectFaultCopiesIffShared | kernel/memory.c:332-343 | the write fault takes and fills a new frame iff another entry maps the old one; the entry becomes writable and no other entry, count or pooled frame changes |
| CowTheorems.WriteCorrect | kernel/memory.c:322-343 | a user store, fault included, changes one byte of one process's page and nothing else that any process reads |
| CowTheorems.CopyCheckIffTwoSharers | kernel/memory.c:332-339 | the assertion after the copy holds iff the frame had exactly two sharers |
| CowTheorems.TeardownExactIffCovered | kernel/exec.c:77-124 | after teardown counts and pool are exact iff every mapped page of the process was in exactly one region |
| CowTheorems.TeardownSafeIffAtMostOnce | kernel/exec.c:77-124 | teardown leaves every mapped frame counted at least once per entry and out of the pool iff no mapped page of the process was in two regions |
| CowRuns.StepCorrect | kernel/fork.c:41-61 | each fork, first touch that page_not_present lets pass, store or exec keeps frames safely shared and does to the readable memory what the eager step does |
| CowRuns.StepBytes | kernel/fork.c:41-61 | byte by byte: after fork the child reads what the parent read, after a first touch its page reads the given content, after a store one address of one process reads the value, after exec the process reads nothing; all else reads as before |
| CowRuns.RunRefinesEagerCopy | kernel/fork.c:41-61 | over every run of forks, accepted first touches, stores and execs that meet no page twice the address spaces read as under eager copying, and no mapped frame is undercounted, pooled or writable while shared |
| CowRuns.StepKeepsExact | kernel/memory.c:284-316 | a step keeps the counts exact, for now and for the teardowns to come, iff it is no first touch of a page outside every region or in several |
| CowRuns.RunKeepsCountsExact | kernel/exec.c:77-124 | over every run without such touches each frame is counted once per entry and pooled iff unmapped |
| CowRuns.InsideRunsStayExact | kernel/memory.c:284-316 | while programs first touch only addresses inside their regions, and no two regions share a page, every count is exact in every run |
| CowRuns.UnmappedIsSafe | kernel/buddy.c:139-183 | with nothing mapped and all frames in the pool the world is a start for both theorems |
| CowRuns.StrayTouchLeaks | kernel/memory.c:284-316 | an accepted first touch on a page no region has leaves, after the next exec, a frame with one reference, no entry and outside the pool |
| CowRuns.LostStaysLost | kernel/exec.c:77-124 | no run ever gives such a frame back, whatever the number of its references |
| CowRuns.OnePageLeaks | kernel/memory.c:284-316 | a program that has just started can make such a touch between its text and its stack |
| CowRuns.RegionsOfProgram | kernel/exec.c:217-237 | do_mmap makes text and data regions that share a page, and the stack |
| CowRuns.OverlapIsMapped | kernel/vma.c:56-91 | do_mmap accepts a range that lies inside a region |
| CowRuns.SharedPageIsReleasedTwice | kernel/exec.c:91-107 | with a text and a data region sharing a mapped page teardown takes two references for its one entry, and pools the frame iff at most one other entry maps it |
| CowRuns.FreedWhileMapped | kernel/exec.c:91-107 | a run of exec, a touch of that page and fork ends with two processes sharing it; exec by one then puts the frame in the pool while the other maps it |
| CowRuns.CopyCheckFailsForThree | kernel/memory.c:339 | one process forked twice and then storing fails the assertion after the copy |
| CopyOnWrite.Memory.CopyMm | kernel/fork.c:47-77 | the two nested loops, in place, produce the forked address space and all reference counts |
| CopyOnWrite.Memory.FindRegion | kernel/vma.c:10-22 | the loop finds the first region that ends above the address: it does, and none before it |
| Vma.FindVmaIsFirst | kernel/vma.c:10-22 | if region i ends above the address and none before it does, region i is found |
| Vma.FindVmaFinds | kernel/vma.c:10-22 | nothing is found iff no region ends above the address, and else a first one that does exists |
| Vma.InRegionIffInside | kernel/memory.c:326-327 | with regions in order, the region found starts at or below the address iff some region has the address |
| Vma.FileOffsetIsPageStep | kernel/memory.c:294 | from its start on, a region reads its file a multiple of a page behind its offset, at the last such place not behind the address, the same for all addresses of a page step |
| Vma.FileOffsetBelowStart | kernel/memory.c:294 | below its start, the least number of whole pages before its offset that reaches down to the address, wrapping around before the file's beginning |
| Vma.AcceptsIff | kernel/memory.c:278-307 | anonymous memory is accepted anywhere in user space, file memory iff in addition the page step starts no later than the file's end |
| Vma.HasPageIffAddress | kernel/exec.c:91-107 | a page is one of a region's pages iff some address of the region lies on it |
| CopyOnWrite.Memory.PageNotPresent | kernel/memory.c:274-319 | stops iff the address is outside user space, past every region, or on a page step, counted from the start of the first region that ends above it, which starts behind the end of the region's file; otherwise maps one fresh writable frame with the given content |
| CopyOnWrite.Memory.DoMmap | kernel/vma.c:41-93 | the search for a gap, in place, ends as specified, and stops iff the specification has no result |
| Vma.FittingIsMapped | kernel/vma.c:56-91 | a range that is free and apart from all regions is mapped where it was asked for, and the regions stay in order |
| Vma.MmapOrderedIffFits | kernel/vma.c:63-83 | whenever do_mmap succeeds the regions stay in order iff the range was such |
| Vma.SearchIsFirstRoom | kernel/vma.c:63-67 | with regions in order the search stops at the first region with room behind it, but has moved its address only behind the region before that one |
| Vma.FreeIsMappedIffApart | kernel/vma.c:68-83 | of the free ranges behind the first region do_mmap refuses exactly those that touch a region |
| CopyOnWrite.Memory.PageProtectFault | kernel/memory.c:322-346 | stops iff the first region that ends above the address starts above it too, with regions in order iff no region has the address; otherwise, in place, equals the specified fault, keeps the invariant and what everybody reads |
| CopyOnWrite.Memory.UserStore | kernel/memory.c:322-346 | a store changes the byte at its address for its process and no byte of anybody else; through a read-only entry it ends iff, with regions in order, some region has the address |
| CopyOnWrite.Memory.ExecMmap | kernel/exec.c:77-124 | the loops over regions and page tables, in place, equal the specified teardown, exact iff covered |
| CopyOnWrite.Memory.FreeRegion | kernel/exec.c:91-107 | one region's loop releases exactly the mapped pages of the region's page range, whatever the last address released |
| CopyOnWrite.Memory.ClearTables | kernel/exec.c:114-122 | the last loop empties the directory and with it every entry of the process |
| UserFrames.PooledIsFree | kernel/buddy.c:36-57 | a frame is in copy-on-write's pool iff its page lies in a free block of the user pool |
| UserFrames.GetFrame | kernel/buddy.c:24-60 | alloc_pages for one user page fails iff that pool is empty; else it gives a frame of it, with count 1 |
| UserFrames.ShareFrame | kernel/fork.c:53 | one more reference keeps allocator and frames in agreement |
| UserFrames.FreeFrame | kernel/buddy.c:63-93 | free_page on a frame in use is the release copy-on-write counts on |
| UserFrames.FreeLastEntry | kernel/buddy.c:63-93 | when the only entry of a frame goes, its page lies in a free block of the user pool again |
| UserFrames.FreeRegions | kernel/exec.c:89-112 | exec_mmap's releases, on the allocator itself, are all of pages in use and leave it as teardown says |
| Sched.DispatchKeeps | kernel/kthread.c:143-154 | handing the CPU to the first ready thread, or the idle one, keeps one place per thread |
| Sched.PreemptOrder | kernel/kthread.c:130-154 | runner and ready list together are the old ready list followed by the old runner, which is now READY; nothing else changes |
| Sched.RoundRobin | kernel/kthread.c:123-155 | k preemptions turn the line of runner and ready list k places |
| Sched.ForkOrder | kernel/fork.c:117-119 | the new thread runs and the parent is last in line |
| Sched.CreateOrder | kernel/kthread.c:99-112 | the runner stays and the new thread is last in line |
| Sched.AsideOrder | kernel/kthread.c:143-154 | with the runner gone the first in line runs, or the idle thread if there is none |
| SyncHandoffs.TickAndYieldTurn | kernel/kthread.c:114-155 | a timer tick and thread_yield run the first in line and put the runner last |
| SyncHandoffs.NewThreadsLine | kernel/fork.c:117-119 | do_fork runs the child at once with the parent last; kthread_create puts the new thread last |
| SyncHandoffs.ExitAndParkLine | kernel/kthread.c:123-155 | sys_exit and the idle thread's thread_block run the first in line, or the idle thread |
| Sched.BlockKeeps | kernel/kthread.c:30-36 | joining a wait list and blocking keeps it, and changes that list only by adding the thread at its end |
| Sched.WakeAllKeeps | kernel/sync.c:185-187 | draining a wait list keeps it and leaves that list empty |
| Sched.UnblockKeeps | kernel/kthread.c:38-43 | unblocking a thread popped by a releaser keeps it |
| Sched.CreateKeeps | kernel/kthread.c:99-112 | adding a new thread to the ready list keeps it |
| Sched.WakeHeadTags | kernel/sync.c:36-37 | popping and unblocking the first sleeper leaves no task_tag linked twice |
| SyncKernel.Kernel.Schedule | kernel/kthread.c:123-155 | the code, in place: a running thread goes to the end of the ready list, the first of that list runs, or the idle thread if it is empty |
| SyncHandoffs.BlockSleeps | kernel/kthread.c:30-36 | a thread that has joined a list and blocks is the last on it, BLOCKED and off the CPU, and the next ready thread, or the idle one, runs |
| SyncKernel.Kernel.ThreadYield | kernel/kthread.c:114-121 | the first of the ready list with the running thread put at its end runs, the rest stay in order |
| SyncExits.ExitIsForGood | kernel/exit.c:16-23 | in every run a thread that has exited never runs again |
| SyncExits.GoneIsUser | kernel/exit.c:16-23 | and in every reachable state it was in none of the lock operations |
| SyncKernel.Kernel.DoFork | kernel/fork.c:117-119 | the child runs next, the parent is last in the ready list |
| SyncKernel.Kernel.DrainAndUnblock | kernel/sync.c:185-187 | the loop that pops and unblocks ends as the recursive wake-all |
| SyncKernel.Kernel.SemaTryWait | kernel/sync.c:54-64 | succeeds iff the count was positive, else leaves it as it was |
| SyncKernel.Kernel.Move | kernel/sync.c:31-266 | any enabled step of code is the step of the model, keeps the whole invariant, meets the asserts in its way, and pushes no task_tag that is linked already |
| SyncHandoffs.SemaWaitSleepsIffEmpty | kernel/sync.c:42-52 | sema_wait goes on iff the count is positive, else its caller is the last sleeper and the next ready thread, or the idle one, runs |
| SyncHandoffs.SemaPostWakesFirst | kernel/sync.c:35-37 | the pop of sema_post makes exactly the first sleeper ready, last in line |
| SyncTheorems.SemaPostOk | kernel/sync.c:31-34 | after the increment of sema_post the count still balances with the sleepers and the pops to come |
| SyncHandoffs.AcquireNestsIffInside | kernel/sync.c:79-89 | mutex_acquire counts deeper without trying the flag iff its caller is inside |
| SyncHandoffs.XchgTakesIffFree | kernel/sync.c:92-102 | a round of mutex_acquire takes the flag iff nobody has it, and then nobody is inside; else its caller is the last sleeper |
| SyncHandoffs.ReleaseUnlocksIffOutermost | kernel/sync.c:110-131 | mutex_release takes one level off, and starts giving the lock back iff it was the last |
| SyncHandoffs.UnlockHandsOver | kernel/sync.c:117-131 | the flag is given back and, in the same thread's next step, exactly the first sleeper is ready |
| SyncHandoffs.CondWaitHandsOver | kernel/sync.c:148-158 | cond_wait makes exactly the first sleeper of the mutex ready iff its caller was inside once, and then its caller is the last waiter |
| SyncHandoffs.SignalsWake | kernel/sync.c:170-190 | cond_signal makes exactly the first waiter ready, if there is one, cond_broadcast all of them in their order |
| SyncHandoffs.ReaderEntersIff | kernel/sync.c:200-214 | a reader gets in iff no writer is inside and ready_write is clear, else it is the last sleeping reader |
| SyncHandoffs.WriterEntersIff | kernel/sync.c:233-246 | a writer gets in iff nobody is inside, else it is the last sleeping writer and ready_write is set |
| SyncHandoffs.ReaderHandsOver | kernel/sync.c:216-231 | the last reader out wakes exactly the first writer, or if there is none the first reader; other readers wake nobody |
| SyncHandoffs.WriterHandsOver | kernel/sync.c:248-266 | a leaving writer wakes exactly the next writer, or if there is none all readers in their order and clears ready_write |
| SyncPlaces.StepKeepsPlaces | kernel/sync.c:31-266 | every step keeps program counters and thread lists in agreement |
| SyncFrame.StepFrame | kernel/sync.c:31-266 | every step leaves locks and wait lists of other kinds alone |
| SyncRuns.StepKeepsInv | kernel/sync.c:31-266 | every step keeps places, semaphore accounting, mutex and read-write lock invariants together |
| SyncRuns.InitialInv | kernel/kthread.c:157-178 | the state after thread_init with freshly initialised locks satisfies them |
| SyncRuns.EveryRun | kernel/kthread.c:114-155 | they hold in every state of every run from boot |
| SyncGuarantees.OnePlacePerThread | kernel/kthread.c:17-155 | in every reachable state a thread is on at most one list and its state field says where: the one running thread on the CPU, every ready one on the ready list, every blocked one on the wait list its code put it on, or in the hands of the one releaser about to wake it, or the idle thread |
| SyncGuarantees.SemaphoreAccounting | kernel/sync.c:31-64 | the wait list is as long as the count is negative plus the posts between increment and pop |
| SyncWaits.HistoryIsTrue | kernel/sync.c:31-64 | in every run the counters kept with a semaphore are the first count, the calls of sema_post, and the waits that have returned or whose thread has been woken |
| SyncWaits.WaitsArePaid | kernel/sync.c:31-64 | in every run the waits that have returned, those about to, the sleepers and the count add up to the first count and the posts; no more waits return than that |
| SyncGuarantees.AssertsHold | kernel/sync.c:36-252 | in every reachable state the pop of sema_post finds a thread, mutex_release finds the flag set and repeat positive, cond_wait's caller is not queued, readers and writers release with the right count |
| SyncGuarantees.InsideIsHolder | kernel/sync.c:79-132 | a thread nested d > 0 deep in a mutex is the only one inside, is the holder of a taken lock, and repeat is d |
| SyncGuarantees.MutexSafe | kernel/sync.c:79-132 | a holder means a taken lock; outside the lock's code the holder's depth is repeat; sleepers mean a taken lock, or a thread about to retry that is running, ready, or unblocked by its releaser's next step |
| SyncGuarantees.DepthIsMine | kernel/sync.c:79-132 | no step changes another thread's nesting depth |
| SyncGuarantees.AcquireReturnsOwning | kernel/sync.c:79-108 | in every run the first return from mutex_acquire finds the caller the holder, one level deeper |
| SyncGuarantees.CondWaitLetsGo | kernel/sync.c:148-158 | the mutex is released iff it was held once, and the caller is on the condition's list and off the CPU in the same step |
| SyncGuarantees.CondWaitReturnsOwning | kernel/sync.c:148-165 | in every run the first return from cond_wait finds the caller the holder at its old depth |
| SyncGuarantees.WaitersStep | kernel/sync.c:148-190 | only waits, signals and broadcasts on a condition change its list: at the end, at the front, wholly; whoever leaves is ready |
| SyncGuarantees.SignalsReachInOrder | kernel/sync.c:170-179 | a waiter with p others ahead is still waiting, p - s from the front, after s signals, for every s up to p |
| SyncGuarantees.NextSignalWakes | kernel/sync.c:170-179 | and signal p + 1 takes it off the list and makes it ready |
| SyncGuarantees.RwSafe | kernel/sync.c:200-266 | count is -1 with one writer or the number of readers; no sleeping reader or writer is forgotten: the lock is busy, or a woken writer is running or ready to try again; ready_write implies a writer queued, woken in that way, or inside |
| SyncGuarantees.NoNewReader | kernel/sync.c:207-231 | while a writer is queued no step of any kind lets a reader in |
| SyncGuarantees.ReadyWriteIsHistory | kernel/sync.c:238-263 | in every run ready_write is set iff a writer has had to wait since a writer last left with none waiting |
| SyncGuarantees.WriteReleaseAssertIffContended | kernel/sync.c:248-252 | the count half of the assertion always holds, the whole of it iff writers have contended in that sense |
| SyncGuarantees.UncontendedWriterTripsIt | kernel/sync.c:238-252 | from boot one write_acquire followed by write_release fails it |
| Bitmap.WordBit | lib/kernel/bitmap.c:46-51 | bit i of a 32-bit word of the map is bit i % 8 of its byte i / 8, whatever follows the map in memory |
| Bitmap.FullWord | lib/kernel/bitmap.c:49 | a word equal to -1 has no clear bit, so it may be skipped |
| Bitmap.Bitmap.Init | lib/kernel/bitmap.c:7-20 | exactly the bits from size to the end of the last byte are set |
| Bitmap.Bitmap.Set | lib/kernel/bitmap.c:23-31 | one bit set, no other bit changed |
| Bitmap.Bitmap.Reset | lib/kernel/bitmap.c:33-40 | one bit cleared, no other bit changed |
| Bitmap.Bitmap.Scan | lib/kernel/bitmap.c:42-70 | the least clear bit, and PANIC iff there is none |
| Bitmap.Bitmap.ScanSet | lib/kernel/bitmap.c:147-157 | the least clear bit becomes set |
| Bitmap.Bitmap.IsSet | lib/kernel/bitmap.c:171-175 | reads the bit |
| Bitmap.Bitmap.Reverse | lib/kernel/bitmap.c:179-192 | flips one bit and returns its new value |
| FsLayout.PutGetWords | fs/file.c:86-140 | a table of sector numbers written as little-endian words reads back the same |
| FsLayout.RecordRoundTrip | fs/inode.c:35-98 | the fields inode_sync writes are the fields inode_open reads |
| FsLayout.RecordsDoNotStraddle | fs/inode.c:18-24 | two_sec is never set |
| FsLayout.RecordWritten | fs/inode.c:43-51 | writing a record makes that record read back and changes no other sector |
| FsLayout.OtherRecord | fs/inode.c:43-51 | writing a record leaves every other inode's record as it was |
| FsBytes.RecordPlace | fs/inode.c:18-24 | sector and offset of a record are 64 * no bytes from the start of the inode table, inside one sector |
| FsBytes.RecordIsPartOfTable | fs/inode.c:82-98 | record no is bytes 64 * no to 64 * no + 64 of the inode table's sectors read as one sequence |
| FsBytes.RecordFields | include/fs/inode.h:21-27 | mode at byte 2, size at 4, flags at 8 and the 13 sector numbers from 12 on, little-endian |
| FsBytes.RecordWrittenBytes | fs/inode.c:43-51 | writing a record changes these 64 bytes and no other byte of the partition |
| FsBytes.RecordWrittenInTable | fs/inode.c:43-51 | the inode table as one sequence gets the 64 bytes spliced in at 64 * no |
| FsBytes.FileByte | fs/file.c:164-204 | byte q of a file in order is byte q % 512 of the sector whose number is word q / 512 of the record's table, or from 12 on word q / 512 - 12 of the sector the record's last number names |
| FsBytes.SyncedBits | fs/inode.c:166-184 | block b is marked in use on disk by bit b % 8 of byte b / 8 of the bitmap's sectors |
| FsLayout.GrowSlot | fs/file.c:103-118 | putting a clear block in an empty slot keeps all sector numbers, over all files, distinct and marked in use |
| FsWriting.SectorsOfGoodFiles | fs/file.c:98-118 | in a partition that is in order a file has sector k iff k * 512 < i_size and the indirect table iff i_size > 6144, each marked in use, and no two places of any files share one |
| FsWriting.SpliceReadsBack | fs/file.c:72-151 | the written bytes are at their place and no other old byte has changed |
| FsWriting.SpliceInTwo | fs/file.c:72-151 | two consecutive writes are one write of both |
| FsWriting.SectorWritten | fs/file.c:120-128 | one round's read, copy and write carries the spliced content c bytes on |
| FsWriting.StrangersUntouched | fs/file.c:115-124 | a sector in use that is not this file's is not written |
| FsWriting.Finished | fs/file.c:132-147 | once table and record show the new slots and size, the file reads as wanted, every other file as before, and no block is shared |
| FsFlush.TableFlushed | fs/file.c:138-141 | after the flush, or without it when no slot of the table changed, the disk shows every sector of the file |
| FsFlush.WriteDone | fs/file.c:98-147 | loop, table flush and inode flush together turn the file on disk into the spliced content |
| FsFiles.Partition.BlockAlloc | fs/inode.c:153-160 | the least clear block of the data area, marked in memory and on disk; panics iff none is clear |
| FsFiles.Partition.BitmapSync | fs/inode.c:166-184 | writes the sector of the bitmap that holds the bit |
| FsFiles.Partition.InodePos | fs/inode.c:18-24 | the record of inode no starts 64 * no bytes behind the start of the inode table, and never straddles two sectors |
| FsFiles.Partition.InodeSync | fs/inode.c:30-53 | the 64 bytes from 64 * no behind the start of the inode table on show the inode's mode, size, flags and sector numbers in their places, and no other byte changes |
| FsFiles.Partition.InodeOpen | fs/inode.c:59-110 | returns the open inode if there is one, else a new one at the front of the list; its fields are those the 64 bytes at 64 * no in the inode table show |
| FsFiles.Partition.LoadTable | fs/file.c:101-110 | brings in the indirect table, or allocates an empty one and asks for its flush |
| FsFiles.Partition.FindBlock | fs/file.c:99-121 | the file has the wanted sector afterwards, allocated if it was missing, and the flush flag is set whenever a table slot changed |
| FsFiles.Partition.WriteSectors | fs/file.c:98-131 | the loop finishes, with the content spliced, iff the clear blocks cover the sectors and table still to allocate |
| FsFiles.Partition.FileWrite | fs/file.c:72-151 | content on disk becomes old[..pos] + src + old[pos+n..], other files and foreign sectors stay, open inodes stay true copies, no block is shared; panics iff there are too few clear blocks |
| FsFiles.Partition.FileRead | fs/file.c:156-204 | returns exactly the file's bytes from pos on, as many as wanted or up to the file's end |
| FsFiles.Partition.WriteThenRead | fs/file.c:72-204 | reading where one has just written gives the written bytes |
| Kmalloc.BlockInside | kernel/memory.c:190-193 | every block of every size is behind the 32-byte descriptor and inside its page |
| Kmalloc.BlocksFillPage | kernel/memory.c:183-193 | blocks stand side by side from byte 32 of the page on, and no further one would fit; every size class is larger than those before it |
| Kmalloc.BlocksApart | kernel/memory.c:190-193 | two blocks of a page do not overlap |
| Kmalloc.LiveBlocksApart | kernel/memory.c:168-210 | any two blocks in use are disjoint, as large as asked for, inside their pages and clear of the descriptors |
| Kmalloc.Membership | kernel/memory.c:243-260 | kfree finds the page on the full list iff nothing remains, else on the part list, and remain reaches count iff this was the last block in use |
| Kmalloc.Heap.SizeIndex | kernel/memory.c:168-174 | the smallest size class that fits |
| Kmalloc.Heap.CutPage | kernel/memory.c:189-193 | the list of all blocks of a new page, without repeats |
| Kmalloc.Heap.ServingPage | kernel/memory.c:177-207 | a new page iff every page of that size is full, else the first of the part list, which moves to the end of the full list with its last block |
| Kmalloc.Heap.Kmalloc | kernel/memory.c:146-211 | a block nobody has, of the smallest size that fits: the first free block of the first page with one left, or the first of a new page, taken iff every page of that size is full; everything else in use stays |
| Kmalloc.Heap.Kfree | kernel/memory.c:228-267 | exactly that block is no longer in use: it goes to the end of its page's list and a full page to the end of the part list; the page goes back iff no other block of it is in use |
| Kmalloc.Heap.KmallocThenKfree | kernel/memory.c:146-267 | freeing what was just allocated leaves the same blocks in use |
| Kmalloc.LargeOrder | kernel/memory.c:153-158 | the loop counts how often the page count can be halved |
| Kmalloc.Pages4KIsLeast | kernel/memory.c:152 | the page count is the least that holds the block and its descriptor |
| Kmalloc.LargeFitsIffPowerOfTwo | kernel/memory.c:152-159 | a large request fits its pages iff the page count is a power of two |
| Kmalloc.LargeOverflows | kernel/memory.c:152-159 | 9000 bytes need three pages and get two |
| LinkedList.List.PushBack | lib/kernel/list.c:42-65 | appends; pushing the only element again changes nothing |
| LinkedList.List.PushFront | lib/kernel/list.c:238-254 | prepends |
| LinkedList.List.PopFront | lib/kernel/list.c:98-122 | removes and returns the first element, or null; the new head's prev still points at it |
| LinkedList.List.Delete | lib/kernel/list.c:181-209 | removes that element and keeps the links of the rest |
| LinkedList.List.Find | lib/kernel/list.c:211-223 | true iff the element is on the list |
| LinkedList.List.ListForward | lib/kernel/list.c:131-153 | swaps the element with the one before it and keeps all links |
| LinkedList.ForwardedSwaps | lib/kernel/list.c:131-153 | moving forward loses and repeats nothing, and doing it to the other element undoes it |
| LinkedList.WithoutAt | lib/kernel/list.c:181-209 | deleting an element is cutting out its one place |
| LineRing.RingPush | device/ioqueue.c:39-41 | storing at tail and moving it on appends to the queue the indices describe |
| LineRing.RingDropLast | device/ioqueue.c:74-76 | moving tail back drops the last character |
| LineRing.RingSkip | device/ioqueue.c:109-122 | setting head to the k-th character drops it and those before it |
| LineRing.IoQueue.constructor | device/ioqueue.c:6-14 | an empty queue of the given capacity |
| LineRing.IoQueue.PutChar | device/ioqueue.c:36-50 | appends, or drops the character when size - 1 are waiting |
| LineRing.IoQueue.GetChar | device/ioqueue.c:20-34 | blocks iff empty, else takes the first character |
| LineRing.IoQueue.PopBackChar | device/ioqueue.c:71-79 | drops the last character, if any |
| LineRing.IoQueue.HasLine | device/ioqueue.c:96-106 | the scan finds a newline iff one is waiting |
| LineRing.IoQueue.CopyLine | device/ioqueue.c:108-115 | stores the line cut to count characters and nothing past it |
| LineRing.IoQueue.GetLine | device/ioqueue.c:85-126 | blocks iff no newline is waiting; else delivers the first line cut to count and removes exactly up to and including its newline |
| LineRing.ReturnedIsStoredIffFits | device/ioqueue.c:81-125 | the whole line is stored and its length is the result iff it is shorter than count or count is -1; else exactly count characters of it are stored and the result is one more |
| LineRing.CutLineIsMiscounted | device/ioqueue.c:108-125 | "ab" and Enter read with count 1 return 2 and store one character |
| LineRing.KeyAtTheEnd | device/keyboard.c:81-85 | a backspace takes exactly the last character; any other key adds itself at the end, if there is room |
| LineRing.BackspaceUndoesKey | device/keyboard.c:81-85 | a key and then a backspace change nothing iff there was room for the key |
| LineRing.FullRingStaysBlocked | device/keyboard.c:81-85 | with the ring full and no newline in it, no Enter arrives at any point of a sequence of keys iff none of them is a backspace |
| LineRing.TypeThenRead | device/ioqueue.c:36-106 | after any keys ioqueue_getline is blocked iff no newline is left of what they typed |
| Paths.StrncmpIsEquality | lib/fizzstr.c:74-82 | with the second name cut at its end the comparison is 0 iff the whole names are equal |
| Paths.UncutNameIsMissed | lib/fizzstr.c:74-82 | without the cut even the right name compares as different |
| PathLaws.StrncmpAtDifference | lib/fizzstr.c:74-82 | the result is the difference at the first place, place n included, where the strings differ or end |
| Paths.Strchr | lib/fizzstr.c:84-90 | the first such character before the NUL, or none |
| Paths.Strlen | lib/fizzstr.c:56-63 | the length below 100, else -1 |
| Paths.StrncmpAt | lib/fizzstr.c:74-82 | the loop computes the recursive comparison without leaving either string |
| Paths.SearchDentry | fs/dir.c:37-58 | the cached child with exactly that name, with "." and ".." the directory itself and its parent |
| Paths.Prepend | fs/dir.c:282-287 | writes a piece directly in front, changing nothing else |
| Paths.GetPath | fs/dir.c:289-301 | writes exactly the path of the dentry in front of the buffer position, and ends because each step goes one level up |
| Paths.CutComponent | fs/dir.c:262-270 | cuts and measures one component |
| Paths.WalkPath | fs/dir.c:259-277 | the loop leads where the path leads, reports the last directory and component looked up, and cuts exactly the slashes it passed |
| Paths.ParsePath | fs/dir.c:236-279 | resolves from the root, the working directory or an open directory; refuses an open file that is no directory |
| Paths.WalkIsLastLookup | fs/dir.c:259-277 | the result is the reported last component looked up in the reported directory |
| PathLaws.LookupMeans | fs/dir.c:37-58 | "." leads to the directory, ".." to its parent, the root's being the root, any other name to the one child so called, or nowhere iff there is none |
| PathLaws.WalkShort | fs/dir.c:259-272 | the empty path stays, a single name is looked up, and a path with an empty component leads nowhere |
| PathLaws.WalkJoins | fs/dir.c:259-272 | a path behind another is resolved from where the first leads |
| PathLaws.LastIsReached | fs/dir.c:259-277 | the component reported is the first that is missing or that no other follows, and the directory reported is where the path before it leads |
| PathLaws.SlashesInPrinted | fs/dir.c:289-301 | a printed path has one slash for each level below the root |
| Paths.PathRoundTrip | fs/dir.c:236-301 | resolving the printed path of any cached dentry gives that dentry |
| Paths.PathsDiffer | fs/dir.c:289-301 | different dentries print different paths |
| Paths.PrintThenParse | fs/dir.c:236-325 | printing into a buffer and parsing that buffer in place finds the dentry |

## Left out

- Boot code, descriptor tables, port I/O, console, keyboard decoding, shell and user programs.
- The TLB, and kernel-mode stores into user buffers: the processor does not enforce write protection there after a fork (comment at kernel/fork.c:23), so copy-on-write is about user stores only.
- The page directory's kernel half and the frames of the page tables themselves; `sys_exit` releasing memory (it does not).
- CopyOnWrite.Memory.PageNotPresent: the page's bytes and the size of the region's file are parameters, because reading them is a file_read.
- CowRuns.RunRefinesEagerCopy: needs execs that meet no mapped page in two regions of the process, for the reason CowRuns.FreedWhileMapped shows; regions without a common page are enough (CowRuns.DisjointCovers).
- CopyOnWrite.Memory.PageProtectFault: where no region ends above the address the kernel follows a null pointer; the model stops.
- Posts and signals from interrupt handlers: every operation is made by the running thread.
- Scheduling priorities and time slices: the timer may preempt at any step outside an interrupts-off section.
- `slock_lock`, which only yields until it gets the flag, and the `destory` checks.
- Fairness and liveness: who is woken and in which order ready threads run is proved (Sched.RoundRobin); that a lock is ever given back is not.
- SyncHandoffs.ReaderEntersIff: one round of the loop, because the thread is off the CPU between two rounds; SyncRuns.EveryRun covers whole runs. The same goes for SyncHandoffs.WriterEntersIff and SyncHandoffs.XchgTakesIffFree.
- SyncHandoffs.BlockSleeps: says nothing of the freed process descriptor of an exited thread.
- FsFiles.Partition.FileWrite: says nothing of the state when the kernel panics for want of a block; console and screen files are another branch of the source and not part of this model.
- FsFiles.Partition.FileRead: keyboard files are not part of this model; positions are unbounded integers, so an overflowing pos + count is not modelled.
- FsFiles.Partition.BitmapSync: without the source's assertion, which divides the bit index by the bytes of a sector instead of its bits (fs/inode.c:172).
- FsFiles.Partition.InodeOpen: without the assertion that the inode's bit is set and without the inode's lock; inode_close, inode_alloc and the inode bitmap are not part of this model.
- One buffer used as bytes and as words: the data half and the table half of the 1024-byte buffer are two variables.
- Directory contents: `dir_write` through the indirect table and the on-disk search of `search_dentry`. The table is written back there only when newly created (fs/dir.c:135-171). Directories' sectors appear only as blocks in use.
- `partition_format`, whose final loop clears one bit too many (fs/fs.c:125-129), and mounting: a mounted partition is given, with its spare bitmap bits set.
- Two threads inside file operations at once: the file model is sequential.
- Kmalloc.Heap.Kmalloc: the page it cuts up is a parameter, not tied to the buddy allocator's kernel pool.
- Preemption inside `kmalloc` and `kfree`, which is possible (kernel/memory.c:208-210): they are modelled one at a time. Requests above 2032 bytes are modelled up to the order they ask for.
- `list_backward`, `list_pop_back`, `list_insert_front`, `insert_in_order` and `bitmap_scan_series`, which leave or rely on inconsistent links or counts and are not used by the rest.
- The buffer size of `ioqueue_init`, which asks for one byte less than the ring uses, and the missing initialisation of its line condition; the ring's lock and signals.
- Paths.SearchDentry: a name that is not cached is missing, and reference counts of dentries are not part of this model.
- Paths.ParsePath: paths shorter than 65536 characters, so that a component's length fits the 16-bit length the search takes.
- Paths.GetPath: the buffer is large enough for the path, which the source does not check.
