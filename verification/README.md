# ucore, verified

A Dafny model of the kernel algorithms of ucore (`lab7_src`, the x86 teaching kernel) and of
`mksfs`, the file system image builder, with proofs of what they are for. Code that changes
objects in place is modelled by classes whose methods change fields and arrays in the same
order; each such method is proved against plain values (trees, sequences, maps), and the
properties are then lemmas about those values or invariants that every method keeps. Threads
that interleave are modelled as step functions on a state with one program counter per thread,
and the results hold for every run.

- **Philosophers** (`PhilosopherRing`, `Semaphores`, `SemPhilosophers`, `MonitorPhilosophers`):
  dining philosophers for any ring size and any number of meals, on semaphores and on the
  Hoare-style monitor. Every access to shared state is a step, and a step of up or down is one
  atomic section. For every run: no two neighbours eat, nobody is deadlocked, a grant is never
  lost, and every run ends, with everybody fed.
- **Kernel semaphores** (`SemaphoreKernel`): the wait queues, with killing, timed sleep,
  waiting for a child and exit in between.
- **Timed sleep** (`TimedSleep`): the sleeping threads and the timer list together: nobody sleeps
  on in `do_sleep` once its time is up.
- **Scheduling** (`SkewTree`, `SkewHeap`, `StrideFairness`, `Shares`, `Scheduler`, `FairScheduling`): the
  pointer skew heap with parent links refines a tree; the 32-bit wrap-around comparison is the
  true order of unbounded strides; from the start of the kernel on, or from any strides inside one
  window, CPU shares stay within BIG_STRIDE and nobody starves, so that how often processes are
  picked goes by their priorities; the heap costs amortised logarithmic time; the run queue holds exactly the processes it should.
- **Timers** (`Rings`, `Timers`): the list of relative times fires as absolute deadlines would.
- **Memory** (`FreeBlocks`, `Slob`, `Kmalloc`, `FirstFit`, `PageTable`, `Vmas`, `ForkMemory`,
  `DemandPaging`): the SLOB list, kmalloc and kfree; the first-fit page allocator; two-level page
  tables with reference counts; the list of memory areas; what fork makes of both, and how it
  cleans up without memory; demand paging with FIFO swapping.
- **Processes** (`Pids`, `Processes`): pid allocation, the links between parents, children and
  siblings, the hash index, and fork, exit and wait, with no lost wakeup.
- **mksfs** (`Mksfs`): block numbers, the block index of a file, the free map, and reading back
  the finished image.

`Basics` holds what several modules need.

`dafny verify dfyconfig.toml` checks everything.

## What the code does that its comments do not say

- `cond_wait` would do an up on the integer `next_count` when a signaller waits
  (lab7_src/kern/sync/monitor.c:66). It never does: the branch is unreachable
  (`CondWaitIsClean`).
- A priority above BIG_STRIDE gives a pass of 0. A running process with such a priority and a
  minimal stride is picked again and again (`ZeroPassKeepsRunning`).
- The pass is rounded down. So the picks of two processes stay within a constant of the ratio of
  their priorities only if BIG_STRIDE leaves the same over when it is divided by either; for
  priorities 1 and 2, say, the gap exceeds every bound, though very slowly (`BoundedIffSameRest`,
  `SharesByPriority`).
- Strides that do not lie in one window of BIG_STRIDE can be further apart than 2^31, as when a
  process that starts at 0 (lab7_src/kern/process/proc.c:140) meets one at 2^31 + 1; then the
  comparison is wrong (`CompExact`).
- `kmalloc` of 4080 to 4087 bytes takes the small path and stops at the assertion in
  `slob_alloc` (`KmallocSmall`).
- `kmalloc(0)` asks for one unit, and the block after `slobfree` gives it, whatever that is
  (`AllocForZero`). It is the variable `arena` exactly when the search begins there. Then that unit
  is handed out; it stays on the list when there is nothing else on it, and leaves it otherwise.
  The arena is what kept the list from shrinking to a single block. When that happens, taking a
  part of the block leads `slobfree` out of the list (`TakeBlock`), so that a search for more than
  is left never ends (`NeverBack`), and a block that ends where the only block begins is put back
  with the units of that block in the list twice (`SlobFree`).
- A pointer of `kmalloc(0)` at the end of a page can be where big pages start. `kfree` of it frees
  the big pages (`Kfree`); with one byte or more that cannot be (`SmallIsNotLarge`).
- `find_order` does not round up. The pages are too small exactly for sizes strictly between
  4096 * 2^k and 4097 * 2^k with k > 0, and for sizes from 2^31 on, which become negative
  (`BigTooSmall`).
- When a frame is wanted and no page is resident, `swap_out` goes on with a victim that was
  never set; that happens exactly when no frame is free and the FIFO is empty
  (`DemandPaging.Paging.AllocPage`). A page of an area that may be written but not read can be
  read exactly while it is resident (`RefusalIsStatic`).
- `mm_map` looks up the start of the new range only. A range that overlaps an area further on
  passes this test and stops the kernel in `insert_vma_struct` (`MmMap`).
- `copy_range` copies the present pages only: what the parent has swapped out is not copied
  (`CopyComplete`). When it is out of frames for a page, it stops at an assertion, and it returns
  -E_NO_MEM when it is out of frames for a page table (`CopyRange`). `exit_range` frees the last
  page table whole (`ExitRange`), without a look at what is in it (`FreeNeedsUnmapped`).
- `swap_out` frees the victim's frame without a look at who else maps it; the reference counts need
  that nobody does (`EvictNeedsSoleUser`).
- `alloc_cache_block` files a new index block under hash 0, and nothing is harmed, because
  `update_cache` never searches (`UpdateCache`).

## Model

| member | source | states |
|---|---|---|
| SemPhilosophers.NeighboursNeverBothEat | lab7_src/kern/sync/check_sync.c:24-70 | in no state that any run reaches do two neighbours eat, by the state array or by where they are |
| SemPhilosophers.HungryHasEatingNeighbour | lab7_src/kern/sync/check_sync.c:24-52 | whoever is HUNGRY while the mutex is free has an EATING neighbour |
| SemPhilosophers.MutexExcludes | lab7_src/kern/sync/check_sync.c:34-52 | at most one philosopher is between down and up of the mutex, and its count is 0 exactly when one is |
| SemPhilosophers.NoDeadlock | lab7_src/kern/sync/check_sync.c:34-70 | when no philosopher can move, each has quit |
| SemPhilosophers.EveryRunFeedsAll | lab7_src/kern/sync/check_sync.c:54-70 | under any scheduler a run has at most n * (TIMES + 1) * 28 steps, and when it cannot go on everybody has eaten exactly TIMES times |
| SemPhilosophers.StepKeepsInv | lab7_src/kern/sync/check_sync.c:24-70 | every step of every philosopher keeps the invariant: one holder of the mutex, its queue, each state entry and fork semaphore by program counter, and no hungry philosopher with free forks forgotten |
| PhilosopherRing.NeighboursAreMacros | lab7_src/kern/sync/check_sync.c:8-9 | LEFT and RIGHT are neighbours on a ring and undo each other |
| MonitorPhilosophers.OnePermission | lab7_src/kern/sync/monitor.c:26-72 | in every reachable state mutex.value + next.value + the sum of all cv[i].sem.value + the number of threads active in the monitor is 1 |
| MonitorPhilosophers.NeighboursNeverBothEat | lab7_src/kern/sync/check_sync.c:110-176 | in no reachable state do two neighbours eat |
| MonitorPhilosophers.SignalIsDelivered | lab7_src/kern/sync/check_sync.c:110-155 | when a neighbour has granted the forks and is about to signal, the philosopher is counted on its condition variable and on its way to waiting there; when it has granted them to itself nobody is |
| MonitorPhilosophers.CondWaitIsClean | lab7_src/kern/sync/monitor.c:51-72 | cond_wait is never entered with next_count > 0, so line 66 is never reached, and who returns from it is EATING and never waits again |
| MonitorPhilosophers.NoDeadlock | lab7_src/kern/sync/monitor.c:26-72 | when no philosopher can move, each has quit |
| MonitorPhilosophers.EveryRunFeedsAll | lab7_src/kern/sync/check_sync.c:158-176 | under any scheduler a run has at most n * (TIMES + 1) * 60 steps, and when it cannot go on everybody has eaten exactly TIMES times |
| MonitorPhilosophers.ReachedStep | lab7_src/kern/sync/check_sync.c:110-176 | every step keeps the invariant that places the one permission, the occupant and every condition variable, and uses up budget |
| SemaphoreKernel.Kernel.Up | lab7_src/kern/sync/sem.c:16-30 | up hands the unit to the head of the queue or adds it to the count, the assertion on the woken thread's wait_state holds, and nobody else changes |
| SemaphoreKernel.Kernel.WakeupWait | lab7_src/kern/sync/wait.c:80-87 | the head of the queue leaves it, is runnable without a wait state, and knows that up woke it |
| SemaphoreKernel.Kernel.Down | lab7_src/kern/sync/sem.c:32-45 | down takes a unit at once exactly when the count is positive, and otherwise sleeps at the end of the queue |
| SemaphoreKernel.Kernel.DownReturns | lab7_src/kern/sync/sem.c:47-65 | when the thread runs again it is out of the queue and was woken by up, so the assertion of down holds |
| SemaphoreKernel.Kernel.TryDown | lab7_src/kern/sync/sem.c:67-76 | succeeds exactly when the count is positive, and then takes one unit |
| SemaphoreKernel.Kernel.WaitCurrentSet | lab7_src/kern/sync/wait.c:114-121 | the thread sleeps at the end of the queue |
| SemaphoreKernel.Kernel.Kill | lab7_src/kern/process/proc.c:783-797 | do_kill marks a process, tells a second call so, and wakes it only from an interruptible wait: one on a semaphore stays asleep and queued |
| SemaphoreKernel.Kernel.Nap | lab7_src/kern/process/proc.c:926-943 | do_sleep and do_wait put the caller to sleep outside all semaphore queues |
| SemaphoreKernel.Kernel.TimerFires | lab7_src/kern/schedule/sched.c:158-165 | the assertion about the sleeper of a timer holds; the warning comes exactly when something else woke it first |
| SemaphoreKernel.Kernel.Exit | lab7_src/kern/process/proc.c:492-519 | a process that exits wakes its parent exactly when that waits for a child, and init exactly when it waits for one and a zombie child is handed to it; no other process changes state |
| SemaphoreKernel.Kernel.WakeupProc | lab7_src/kern/schedule/sched.c:58-76 | the process becomes runnable and, unless it was, waits for nothing any more |
| SemaphoreKernel.Kernel.Conservation | lab7_src/kern/sync/sem.c:16-54 | the initial value plus the ups is the count plus the threads that were granted a unit and are about to return plus the units taken up; each unit given out is taken up once, by the thread it was given to; units go to the calls of down in their order; while somebody is queued the count is 0 |
| SemaphoreKernel.Kernel.OneQueue | lab7_src/kern/sync/wait.c:80-121 | a queued thread is asleep and on one queue only |
| Semaphores.DownLists | lab7_src/kern/sync/sem.c:32-45 | down by a new thread keeps the queue a list of exactly the waiting threads, once each, empty while the count is positive |
| Semaphores.UpLists | lab7_src/kern/sync/sem.c:16-30 | up keeps the queue a list of exactly the waiting threads, once each, and whom it wakes was waiting |
| FairScheduling.KeepScheduling | lab7_src/kern/schedule/sched.c:78-100 | from any state in which the queue is in order and the strides of everything schedule() can pick from lie in one window of BIG_STRIDE, with idle, one of them or a thread that goes to sleep running: after any number of calls those strides, counted by the fields runs and priority without wrap-around, again lie in one window, the queue is in order in it, and if no priority is above BIG_STRIDE and the calls are more than Turns, every process has run |
| FairScheduling.KeepFresh | lab7_src/kern/schedule/sched.c:78-100 | when idle runs and the queue holds fresh processes of any priorities, then after any number of calls of schedule() the field runs goes by the field priority: of two processes the one with the higher priority has not run less often by twice the other's priority or more, if that one's is at most BIG_STRIDE, and runs of either times priority of the other differ by at most the product of the priorities, plus one part in BIG_STRIDE of that product times the larger runs; after more than Turns calls everybody has run, unless a priority is above BIG_STRIDE |
| FairScheduling.FairFromStart | lab7_src/kern/process/proc.c:871-903 | from the start of the kernel, with idle and any number of forked processes of any priorities: after any number of calls of schedule() the field runs goes by the field priority: of two processes the one with the higher priority has not run less often by twice the other's priority or more, if that one's is at most BIG_STRIDE, and runs of either times priority of the other differ by at most the product of the priorities, plus one part in BIG_STRIDE of that product times the larger runs; after more than Turns calls everybody has run, unless a priority is above BIG_STRIDE |
| FairScheduling.Describe | lab7_src/kern/schedule/sched.c:78-100 | whatever processes schedule() can pick from, a numbered state of StrideFairness stands for their fields and the pointer heap |
| FairScheduling.WakeInWindow | lab7_src/kern/schedule/sched.c:58-76 | a process that is woken with a stride inside the window joins what schedule() can pick from and leaves the queue in order in the window |
| FairScheduling.Schedule | lab7_src/kern/schedule/sched.c:78-100 | schedule() on the pointer heap is one step of the numbered processes of StrideFairness |
| FairScheduling.NamedRemove | lab7_src/libs/skew_heap.h:69-85 | removal does the same to the heap of processes and to that of their numbers |
| StrideFairness.WindowAndFairness | lab7_src/kern/schedule/default_sched.c:11-24 | in every run that starts with strides inside one window, the strides, counted without wrap-around from where they were, differ by at most BIG_STRIDE at the end, the field is that value wrapped, and the signed 32-bit comparison is their true order |
| StrideFairness.StartFits | lab7_src/kern/schedule/default_sched.c:11-24 | strides inside one window and a heap in order are all the invariant needs, whatever runs says |
| StrideFairness.PickedAgain | lab7_src/kern/schedule/default_sched.c:123-155 | if no priority is above BIG_STRIDE, every process is picked among any Turns + 1 consecutive picks of a run, Turns being the sum of 2 * BIG_STRIDE / pass over the processes |
| StrideFairness.RunFrom | lab7_src/kern/schedule/sched.c:78-100 | from each of its states on, a run is again one that starts with all strides in one window and the heap in order |
| StrideFairness.CompExact | lab7_src/kern/schedule/default_sched.c:15-24 | for unbounded strides less than 2^32 apart, the comparison of the earlier with the later one is right exactly when they are at most 2^31 apart, that of the later with the earlier exactly when they are less than 2^31 apart |
| StrideFairness.EveryPickIsMinimum | lab7_src/kern/schedule/default_sched.c:123-155 | every process picked in a run that starts inside one window has the smallest unbounded stride |
| StrideFairness.ScheduleKeepsInv | lab7_src/kern/schedule/sched.c:78-100 | schedule() keeps wrapped strides, window and heap order, the window moving up to the picked stride |
| StrideFairness.ZeroPassKeepsRunning | lab7_src/kern/schedule/default_sched.c:123-155 | the pass is 0 exactly for priorities above BIG_STRIDE, and then a running process with a minimal stride is picked again with the same stride |
| StrideFairness.PassIs | lab7_src/kern/schedule/default_sched.c:148-151 | a number is the pass of a priority exactly when the priority fits that many times into BIG_STRIDE and not once more, priority 0 counting as 1 |
| StrideFairness.PickedOften | lab7_src/kern/schedule/default_sched.c:123-155 | if no priority is above BIG_STRIDE, every process is picked k times among any k times Turns + 1 consecutive picks |
| Shares.SharesByPriority | lab7_src/kern/schedule/default_sched.c:123-155 | in every run from equal strides, in counts of picks and priorities alone: the process with the higher priority has more picks than the other one less twice the other's priority, if that is at most BIG_STRIDE; picks times the other's priority differ by at most the product of the priorities times 1 + the larger count / BIG_STRIDE; and that gap is known to within a constant |
| Shares.BoundedIffSameRest | lab7_src/kern/schedule/default_sched.c:123-155 | the picks of two processes stay within some constant of the ratio of their priorities, over all runs from equal strides, if and only if BIG_STRIDE leaves the same remainder divided by either priority |
| SkewTree.CompIsOrder | lab7_src/kern/schedule/default_sched.c:15-24 | inside a window of BIG_STRIDE the signed difference of two words is the difference of their distances from its start |
| SkewTree.AmortisedCost | lab7_src/libs/skew_heap.h:29-85 | starting empty, m insertions and root removals on at most n entries call skew_heap_merge at most m * (3 + 4 * bits(n)) times |
| SkewTree.MergeCost | lab7_src/libs/skew_heap.h:29-59 | the calls of one merge and the rise in right-heavy entries are paid for by the binary digits of the two sizes |
| SkewTree.BitsIsLogarithm | lab7_src/libs/skew_heap.h:29-59 | the binary digits of a size, which bound the cost of a merge, exceed k exactly from 2^k on |
| SkewTree.MergeItems | lab7_src/libs/skew_heap.h:29-59 | merging loses and duplicates no entry |
| SkewTree.MergeHeap | lab7_src/libs/skew_heap.h:29-59 | merging two heaps in one window gives a heap in it |
| SkewTree.RemoveItems | lab7_src/libs/skew_heap.h:69-85 | removing any entry removes it and nothing else |
| SkewTree.RemoveHeap | lab7_src/libs/skew_heap.h:69-85 | removing any entry keeps heap order and the window |
| SkewHeap.MergeHeaps | lab7_src/libs/skew_heap.h:29-59 | the left, right and parent links become those of the merged tree, with as many calls as the cost model counts |
| SkewHeap.InsertHeap | lab7_src/libs/skew_heap.h:61-67 | the links become those of the tree with the entry inserted |
| SkewHeap.RemoveFromHeap | lab7_src/libs/skew_heap.h:69-85 | for any entry of the heap, the links become those of the tree without it, every entry knowing its parent |
| SkewHeap.Proc.constructor | lab7_src/kern/process/proc.c:136-141 | a new process has stride and priority 0 and no links |
| Scheduler.Scheduler.Schedule | lab7_src/kern/schedule/sched.c:78-100 | the root of the heap, the current process put back in if it can run, runs next, idle if there is none; the amount d by which its stride rises, round the end of a word, is such that d times its priority is at most BIG_STRIDE and d + 1 times its priority is more, priority 0 counting as 1; the process that ran gets a time slice if it needs one, nobody else's stride, runs or slice changes; the heap holds exactly the other runnable processes |
| Scheduler.Scheduler.WakeupProc | lab7_src/kern/schedule/sched.c:58-76 | the process is runnable and, unless it was or is current, inserted in the heap, which again holds exactly the runnable processes but current and idle |
| Scheduler.Scheduler.SleepAndBeWoken | lab7_src/kern/schedule/sched.c:58-100 | a process woken between going to sleep and calling schedule() runs on or is in the heap, once |
| Scheduler.Scheduler.Enqueue | lab7_src/kern/schedule/default_sched.c:62-84 | the heap gets the process, proc_num stays its size, and its time slice is in range, the old one if that was |
| Scheduler.Scheduler.Dequeue | lab7_src/kern/schedule/default_sched.c:94-109 | the heap loses the process and proc_num stays its size |
| Scheduler.Scheduler.PickNext | lab7_src/kern/schedule/default_sched.c:123-155 | the root is picked and its stride raised where it stands, by the largest d for which d times the priority is at most BIG_STRIDE, priority 0 counting as 1; nobody else's changes |
| Scheduler.Scheduler.TakeNext | lab7_src/kern/schedule/sched.c:88-91 | changing the root's key in place is harmless, since that root leaves the heap next |
| Scheduler.Scheduler.CandidateItems | lab7_src/kern/schedule/sched.c:84-91 | what schedule() picks from is every runnable process but idle, once each |
| Scheduler.Scheduler.SleepCurrent | lab7_src/kern/process/proc.c:933-937 | a process that goes to sleep leaves the queue right: it was not in it |
| Scheduler.Scheduler.ExitCurrent | lab7_src/kern/process/proc.c:492-493 | a process that becomes a zombie leaves the run queue right: it was not in it |
| Timers.FiresOnTime | lab7_src/kern/schedule/sched.c:103-176 | a timer added with value T and not deleted fires on exactly the T-th later call of run_timer_list |
| Timers.Timers.Run | lab7_src/kern/schedule/sched.c:103-176 | over any sequence of additions, deletions and ticks the list of relative times is the set of absolute deadlines, and each tick fires exactly the timers that are due, in the order of their addition |
| Timers.Timers.AddTimer | lab7_src/kern/schedule/sched.c:103-123 | the timer goes after all that are due no later, and no other deadline changes |
| Timers.Timers.DelTimer | lab7_src/kern/schedule/sched.c:126-143 | exactly that timer leaves, no other deadline changes, and the addition does not overflow; one that is not in the list is ignored |
| Timers.Timers.RunTimerList | lab7_src/kern/schedule/sched.c:146-176 | the timers that are due leave and fire in list order, the rest have one tick less, and the first of them has ticks left |
| Timers.StaysArmed | lab7_src/kern/schedule/sched.c:103-176 | a timer that is neither deleted nor due stays armed with its deadline |
| TimedSleep.Sleepers.DoSleep | lab7_src/kern/process/proc.c:931-939 | the caller sleeps, its timer is in the list with a deadline of time ticks from now, and every other sleeper keeps its timer and deadline |
| TimedSleep.Sleepers.Tick | lab7_src/kern/schedule/sched.c:146-176 | run_timer_list wakes exactly those who sleep in do_sleep and have their time up, the assertion about each holds, and nobody else changes |
| TimedSleep.Sleepers.SleepReturns | lab7_src/kern/process/proc.c:939-943 | when the thread runs again its timer is not in the list any more, also if it was woken early, and all others keep theirs |
| TimedSleep.Sleepers.NobodyOversleeps | lab7_src/kern/process/proc.c:927-943 | whoever is asleep in do_sleep has a timer of its own in the list, and its time is not up yet |
| TimedSleep.Sleepers.Kill | lab7_src/kern/process/proc.c:783-797 | do_kill wakes a thread in do_sleep early, and its timer stays until the thread runs |
| TimedSleep.ArmedTick | lab7_src/kern/schedule/sched.c:146-176 | after a tick every sleeper that was not woken still has its timer in the list, and those woken are those whose deadline has come |
| Rings.Ring.Link | lab7_src/libs/list.h:141-146 | __list_add puts the node between two neighbours of the ring |
| Rings.Ring.Delete | lab7_src/libs/list.h:91-94 | list_del takes the node out and closes the ring |
| Rings.Ring.DeleteInit | lab7_src/libs/list.h:102-106 | list_del_init also leaves the node linked to itself |
| Kmalloc.Heap.Kmalloc | lab7_src/kern/mm/kmalloc.c:218-252 | for every size: it gives the unit after arena exactly for 0 bytes when the search begins at arena, and then the list may have lost it; otherwise every unit of the arena and of the pages it ever got stays in exactly one free or live block, and every big allocation on pages of its own; what it gives is new and what was given stays; a small block has just the units that hold the bytes asked for and 8 more, the record of a big one just those that hold its 12 bytes; at most one page joins the list, and only when no free block has that many bytes; a small request fails exactly when none has and there is no page, a big one exactly when no run of 2^order pages is left once its record has its units; it stops exactly for 4080 to 4087 bytes |
| Kmalloc.Heap.Kfree | lab7_src/kern/mm/kmalloc.c:255-280 | a small block goes back to the list and a big one's pages to the page allocator with its record; where big pages start it is always they that go; nothing else changes; null does nothing |
| Kmalloc.Heap.SmallIsNotLarge | lab7_src/kern/mm/kmalloc.c:262-278 | the pointer of a small allocation of one byte or more is never where big pages start |
| Kmalloc.Heap.KmallocSmall | lab7_src/kern/mm/kmalloc.c:224-227 | the small path, from 0 bytes on, stops exactly when the size plus 16 bytes reaches a page, fails exactly when no free block has 8 bytes more than asked for and there is no page, gives a block with just the units that hold those bytes, and gives the unit after arena exactly for 0 bytes when the search begins at arena |
| Kmalloc.Heap.KmallocBig | lab7_src/kern/mm/kmalloc.c:229-246 | a request of a page or more fails exactly when no run of 2^order pages is left once its record has its units; no page is lost between the page allocator, the list and the big allocations |
| Kmalloc.Heap.GetPages | lab7_src/kern/mm/kmalloc.c:234-246 | fails exactly when there is no run of 2^order free pages; the pages are recorded at the head of bigblocks, or the record is freed again |
| Kmalloc.Heap.FreeBig | lab7_src/kern/mm/kmalloc.c:266-273 | one record is unlinked, its pages and its node are free, the others stay in order |
| Kmalloc.FindOrder | lab7_src/kern/mm/kmalloc.c:210-216 | the loop counts halvings until 4096 is reached |
| Kmalloc.BigTooSmall | lab7_src/kern/mm/kmalloc.c:210-246 | the pages hold less than was asked for exactly for sizes strictly between 4096 * 2^k and 4097 * 2^k, k > 0, and from 2^31 on |
| Kmalloc.OrderTooSmall | lab7_src/kern/mm/kmalloc.c:210-216 | find_order gives too few pages for n bytes exactly when n lies strictly between 4096 * 2^k and 4097 * 2^k for some k > 0 |
| Kmalloc.AllocPartition | lab7_src/kern/mm/kmalloc.c:98-151 | taking a block from the list and a page makes it a new live block and keeps the partition of all memory |
| Kmalloc.FreePartition | lab7_src/kern/mm/kmalloc.c:153-185 | giving a live block back keeps the partition |
| Slob.FreeList.SlobAlloc | lab7_src/kern/mm/kmalloc.c:98-151 | the first block that fits, going round from slobfree, gives its first units, just as many as hold the bytes asked for; a page is fetched exactly when no free block has that many bytes; null comes exactly when there is no page then; the unit of arena is what it gives exactly when at most 8 bytes are asked for and the search begins there, and then the list loses it unless it is all there is |
| Slob.UnitsHold | lab7_src/kern/mm/kmalloc.c:66-67 | a block of u units holds the bytes asked for and no unit too many exactly when u is the number that the source computes |
| Slob.FreeList.Search | lab7_src/kern/mm/kmalloc.c:107-136 | one round of the search loop ends, at the first block that fits or back at slobfree when none does |
| Slob.FreeList.AllocFromPage | lab7_src/kern/mm/kmalloc.c:136-149 | after a page joined the list the second round succeeds |
| Slob.FreeList.AllocForZero | lab7_src/kern/mm/kmalloc.c:98-151 | a request of one unit gets it from the block after slobfree, whatever its size; the arena stays free exactly when another block gives it or the list has no other; the unit given is still on the list exactly when it is the arena and all there is |
| Slob.FreeList.TakeBlock | lab7_src/kern/mm/kmalloc.c:123-134 | the four writes take the units from the circular list and leave it linked, sorted and coalesced, slobfree being the block before; when a part of the only block is taken, slobfree is that part, outside the list, and leads to the rest, which leads to itself |
| Slob.NeverBack | lab7_src/kern/mm/kmalloc.c:106-136 | from a slobfree outside a list of one block, every further step of the search is at that block and never at slobfree |
| Slob.FreeList.Grab | lab7_src/kern/mm/kmalloc.c:111-136 | a block that fits gives its first units and no header outside the list changes, if it is not the arena; the arena stays free exactly if it is not taken or all there is |
| Slob.FreeList.SlobFree | lab7_src/kern/mm/kmalloc.c:153-185 | the block goes back where its address belongs and merges with the blocks it touches; the list stays circular, sorted, with one descent and no two adjacent blocks; only when the block ends where the only block begins, the list has both, and the units of the latter twice; null does nothing |
| Slob.FreeList.FindPlace | lab7_src/kern/mm/kmalloc.c:166-168 | the search of slob_free ends, at the block before the place |
| Slob.Place | lab7_src/kern/mm/kmalloc.c:166-168 | one of the two tests of the search in slob_free holds exactly at the block after which the freed one belongs |
| Slob.FreeList.AddPage | lab7_src/kern/mm/kmalloc.c:142-148 | a fresh page joins the list, which then has a block of at least a page |
| FreeBlocks.TakeOk | lab7_src/kern/mm/default_pmm.c:97-113 | taking units from the front of a block keeps order and gaps and removes exactly those units |
| FreeBlocks.PutOk | lab7_src/kern/mm/default_pmm.c:126-171 | putting a block back keeps order and gaps, merging on either side, and adds exactly its units |
| FreeBlocks.Canonical | lab7_src/kern/mm/default_pmm.c:116-171 | two fully merged lists that hold the same units are the same list |
| FirstFit.FirstFit.Alloc | lab7_src/kern/mm/default_pmm.c:83-114 | the lowest block that is large enough gives its first n pages, no reference count changes, and null comes exactly when none is |
| FirstFit.FirstFit.Free | lab7_src/kern/mm/default_pmm.c:116-171 | the pages go back to their place, merged with the block below, above, both or none; nr_free stays the sum of the sizes and the page flags record the list |
| FirstFit.FirstFit.SearchPlace | lab7_src/kern/mm/default_pmm.c:142-170 | the search loop ends with the block where it belongs |
| FirstFit.AllocThenFree | lab7_src/kern/mm/default_pmm.c:83-171 | freeing what was just allocated restores the free list |
| FirstFit.FirstFit.InitMemmap | lab7_src/kern/mm/default_pmm.c:68-81 | any region of reserved pages becomes the last block and loses the reserved flag and its references; the list stays in order with gaps exactly when the region lies above the last block and does not touch it |
| FirstFit.AppendCoalesced | lab7_src/kern/mm/default_pmm.c:68-81 | default_init_memmap leaves the list in order with gaps exactly when its region starts above the last block without touching it |
| PageTable.Mmu.ExitMmap | lab7_src/kern/mm/vmm.c:212-225 | exactly the page tables that the areas reach go, with what they map; what becomes free is those tables and the frames that lose their last user |
| PageTable.GoneExactly | lab7_src/kern/mm/vmm.c:212-225 | after exit_mmap nothing of the address space is left, and every frame that only it mapped is free, exactly when its areas reach all its page tables |
| PageTable.Mmu.CopyRange | lab7_src/kern/mm/pmm.c:488-536 | the child gets each present page of the range in a frame of its own with equal contents and permissions, and every other page of every address space is as it was; into a child without pages in the range the copy is complete exactly when there are as many free frames as there are present pages and missing page tables, and frames only move from the free ones to the child; it ends early only with no frame free, at a present page whose copy does not exist: with -E_NO_MEM exactly when the child has no page table for that page and else at the assertion; into such a child the pages before it fit and it does not |
| PageTable.CopyComplete | lab7_src/kern/mm/pmm.c:499-531 | the range of the child equals that of the parent, page by page, exactly when the parent has none of its pages swapped out |
| PageTable.Mmu.SwapOut | lab7_src/kern/mm/swap.c:99-112 | a page that only one entry maps becomes a swap entry and its frame is free |
| PageTable.EvictNeedsSoleUser | lab7_src/kern/mm/swap.c:99-112 | turning a page into a swap entry and freeing its frame keeps the reference counts right exactly when no other page maps the frame |
| PageTable.Mmu.UnmapRange | lab7_src/kern/mm/pmm.c:448-464 | exactly the present entries of the range go, and exactly the frames that lose their last user become free |
| PageTable.Mmu.ExitRange | lab7_src/kern/mm/pmm.c:466-480 | exactly the page tables that the range reaches are freed, the last one whole, when nothing in them is present |
| PageTable.FreeNeedsUnmapped | lab7_src/kern/mm/pmm.c:472-479 | freeing a page table keeps the reference counts right exactly when nothing in it is present |
| PageTable.Mmu.GetPte | lab7_src/kern/mm/pmm.c:364-403 | a missing page table is made, cleared and counted, exactly when asked for and a frame is free; no page is mapped by it |
| PageTable.TableOfPage | lab7_src/kern/mm/mmu.h:203-207 | two pages have the same page table exactly when they are in one address space and in one aligned group of 1024 pages, and the same entry number exactly when they are a multiple of 1024 apart |
| PageTable.Mmu.PageInsert | lab7_src/kern/mm/pmm.c:555-574 | the page maps the frame with the permission; the frame it mapped before is freed exactly if this was its last user and it is another; it fails exactly without memory for a page table |
| PageTable.Mmu.RemovePte | lab7_src/kern/mm/pmm.c:421-446 | a present entry goes, and its frame is freed exactly if this was its last user |
| PageTable.WriteRefines | lab7_src/kern/mm/pmm.c:364-403 | writing one entry of one table changes one page of one address space of the flat map |
| PageTable.SetRefs | lab7_src/kern/mm/pmm.c:421-446 | after an entry is replaced each count is again the number of present entries that name the frame |
| PageTable.LastUser | lab7_src/kern/mm/pmm.c:421-446 | the count falls to 0 exactly when the replaced entry was the only one |
| Vmas.Mm.FindVma | lab7_src/kern/mm/vmm.c:75-101 | whatever mmap_cache holds, the answer is the area that holds the address, or none if none does |
| Vmas.OneVmaAt | lab7_src/kern/mm/vmm.c:75-101 | at most one area of a sorted list holds an address, so the answer of find_vma is the only one |
| Vmas.Mm.InsertVma | lab7_src/kern/mm/vmm.c:112-143 | the list stays sorted and disjoint with the area in it; the assertions fail exactly when it is empty or overlaps one |
| Vmas.Mm.MmMap | lab7_src/kern/mm/vmm.c:159-188 | the area starts at the page of addr and ends after the page of the last byte, or at 0 where that end is no 32-bit word, so that without wrap-around it holds every byte asked for and no page without one; over that area, when it succeeds, refuses, runs out of memory and stops the kernel, each exactly |
| Vmas.Mm.DupVma | lab7_src/kern/mm/vmm.c:194-203 | one round of the loop of dup_mmap puts the area in front of those copied before, and fails exactly without memory for it |
| ForkMemory.DupMmap | lab7_src/kern/mm/vmm.c:190-210 | into a child without pages each of the three ends comes exactly when it should: success when every area gets memory and there are as many free frames as the areas have present pages and the child lacks page tables for them; -E_NO_MEM when an area gets no memory after all later ones were copied, or the last frame is gone when a page of a new page table is reached; the assertion of copy_range when the first page that no longer fits lies in a page table that the child has from an earlier page or from the last free frame; on success the child has the areas of the parent and, in them, fresh copies of the present pages, and no other page of any address space changed; when it ends early the child has the areas from the last one on, and copies in them only |
| ForkMemory.CopyMm | lab7_src/kern/process/proc.c:344-373 | for a new page directory each of the three ends comes exactly when it should, told by areas, present pages, page tables and free frames before the call: success, the panic of the assertion in copy_range, and -E_NO_MEM, after which exit_mmap of what the child got gives back all page tables, all mappings and exactly the free frames of before, and nobody's pages have other contents |
| ForkMemory.CopyArea | lab7_src/kern/mm/vmm.c:204-207 | copying one more area extends the copy, its cost and what the child holds, or fails at a page that is told, with nothing free: for the page tables when the child has none for that page, and else at the assertion |
| ForkMemory.RunsOutOnce | lab7_src/kern/mm/vmm.c:190-210 | there is at most one page at which the free frames suffice for all pages copied before it and not for it |
| ForkMemory.TableOrPage | lab7_src/kern/mm/pmm.c:499-511 | at that page it is the frame for a page table that is missing, or there is a page table and the frame for the page is missing, never both |
| ForkMemory.AsBefore | lab7_src/kern/process/proc.c:367-369 | when the page tables, pages and frames of the child are gone, the flat map, the page directories and the set of free frames are those of before the fork |
| Vmas.UserMemCheck | lab7_src/kern/mm/vmm.c:518-543 | succeeds exactly when every byte of the range is user memory in an area with the permission and, for a write, outside the first page of a stack; without an address space, exactly when the range is kernel memory |
| DemandPaging.Paging.Run | lab7_src/kern/mm/swap.c:82-134 | over any run of loads, stores, faults, evictions and frame use, each load gives the byte that the latest access to that address read or wrote; page tables are only made for the aligned groups of 1024 pages that are accessed; as long as the frames that kernel code holds at most and one for each such group are fewer than all frames, no allocation fails for want of a page to evict |
| DemandPaging.RunFromStart | lab7_src/kern/mm/pmm.c:155-175 | from an empty address space on, if every page has a slot on the swap device and kernel code leaves more frames than there are aligned groups of 1024 pages accessed, every run goes on to its end, however many pages it touches |
| DemandPaging.OneTablePerGroup | lab7_src/kern/mm/mmu.h:203-204 | pages find the same page table exactly when they are in the same aligned group of 1024 |
| DemandPaging.Paging.Touch | lab7_src/kern/mm/vmm.c:391-516 | a load or store with its faults does to the pages what it would do to plain memory; it makes at most one page table, that of the group of 1024 pages around the address |
| DemandPaging.Paging.DoPgfault | lab7_src/kern/mm/vmm.c:391-516 | refused exactly without permission; otherwise the page is mapped, with the contents it had if it had any, and no other page changes; at most the page table of its group of 1024 pages is new |
| DemandPaging.Paging.SwapOut | lab7_src/kern/mm/swap.c:82-117 | the oldest resident page v moves to slot v + 1 and its frame is free, unseen by the process, unless the device has no such slot; the FIFO lists exactly the resident pages with the address that maps each |
| DemandPaging.Paging.SwapIn | lab7_src/kern/mm/swap.c:121-138 | a fresh frame gets the contents of the page |
| DemandPaging.Paging.MapPage | lab7_src/kern/mm/vmm.c:480-482 | page_insert and swap_map_swappable make the page resident and youngest |
| DemandPaging.Paging.Reclaim | lab7_src/kern/mm/pmm.c:155-175 | the loop of alloc_pages ends with a free frame, and fails exactly with nothing free and an empty FIFO, or a victim without a slot |
| DemandPaging.Paging.AllocPage | lab7_src/kern/mm/pmm.c:155-175 | alloc_page fails exactly with nothing free and an empty FIFO, or a victim without a slot; else the frame it gives is in nobody else's hands |
| DemandPaging.RefusalIsStatic | lab7_src/kern/mm/vmm.c:403-421 | whether an access is refused depends on paging only for reads of pages that may be written but not read: they succeed exactly while resident |
| DemandPaging.TransparentStep | lab7_src/kern/mm/swap.c:82-138 | one more event keeps the run transparent and the latest byte of every address remembered |
| Pids.PidAllocator.GetPid | lab7_src/kern/process/proc.c:189-222 | the pid is free, and if it is larger than the last one given out, every pid between the two is in use, otherwise every pid above the last one and every pid below it; the cached interval stays clear, also once the process is in the list; the restarts end |
| Pids.PidAllocator.ExitKeeps | lab7_src/kern/process/proc.c:189-222 | a process that leaves keeps the interval clear |
| Pids.FreePid | lab7_src/kern/process/proc.c:191-192 | with at most MAX_PROCESS processes some pid is free |
| Processes.ProcessTable.DoFork | lab7_src/kern/process/proc.c:396-467 | the child is the newest of its parent, first of proc_list and in the hash index; its pid is the first free one after the last given out, all those passed on the way being pids of processes; no other process changes its pid, parent or state; it fails exactly at MAX_PROCESS or without memory and changes nothing then |
| Processes.ProcessTable.DoExit | lab7_src/kern/process/proc.c:492-519 | all children go to init, in reverse order before its own, and a zombie has none; the parent stops waiting, and init does if a zombie is among the children; the exit code is kept and nobody else's place changes |
| Processes.ProcessTable.DoWait | lab7_src/kern/process/proc.c:722-780 | exactly a zombie child that is waited for, the newest if any will do, leaves the table, the list, the index and its family, and its exit code is given; the caller sleeps exactly when there are such children and none is a zombie, and fails exactly when there is none or the pointer is bad |
| Processes.ProcessTable.WaitsForSomething | lab7_src/kern/process/proc.c:731-762 | no wakeup is lost: whoever sleeps in do_wait has a child that it waits for, and none of those is a zombie |
| Processes.ProcessTable.OnlyInitLeft | lab7_src/kern/process/proc.c:859-863 | when init has no children left and idle no other, init has no links, is alone in proc_list, and nr_process is 2, as init_main asserts |
| Processes.ProcessTable.Rooted | lab7_src/kern/process/proc.c:162-187 | the parents of every process lead to idle, so that no process is its own ancestor |
| Processes.ProcessTable.FindProc | lab7_src/kern/process/proc.c:263-275 | finds the process of proc_list with that pid, or none exactly if there is none |
| Processes.ProcessTable.LinkChild | lab7_src/kern/process/proc.c:162-171 | the writes of set_links, one after the other, change the links as PushFamily says and nothing else |
| Processes.ProcessTable.UnlinkChild | lab7_src/kern/process/proc.c:174-187 | the writes of remove_links, one after the other, change the links as UnlinkFamily says and nothing else |
| Processes.PushFamily | lab7_src/kern/process/proc.c:162-171 | the writes of set_links put the child in front of the chain of cptr and optr of its parent, yptr being the inverse of optr |
| Processes.UnlinkFamily | lab7_src/kern/process/proc.c:174-187 | the writes of remove_links take any child out of the chain of its parent, which stays linked both ways |
| Processes.ForkTree | lab7_src/kern/process/proc.c:162-171 | a new child keeps all families: each chain lists exactly the processes whose parent it is, and a zombie has none |
| Processes.ReapTree | lab7_src/kern/process/proc.c:174-187 | freeing a zombie child keeps all families: each chain lists exactly the processes whose parent it is |
| Processes.AdoptOk | lab7_src/kern/process/proc.c:503-518 | one round of handing children to init keeps all families but that of the process that exits, whose chain lists the children it still has |
| Processes.ProcessTable.constructor | lab7_src/kern/process/proc.c:871-903 | idle and init, the child of idle with pid 1, the last pid given out |
| Mksfs.Sfs.AppendBlock | ucore_OldDriver2/tools/mksfs.c:397-426 | block k of each file is the k-th appended, through the direct, indirect and double indirect blocks, whatever its number; no other file changes; it fails exactly for a file of maximal size or without blocks for its index |
| Mksfs.PutLookup | ucore_OldDriver2/tools/mksfs.c:397-426 | the new block is found at its index and every earlier one where it was |
| Mksfs.FirstIndirect | ucore_OldDriver2/tools/mksfs.c:409-414 | the first indirect block makes room and hides no block |
| Mksfs.FirstDouble | ucore_OldDriver2/tools/mksfs.c:415-422 | the double indirect block and the first block that it names make room and hide no block |
| Mksfs.NextSub | ucore_OldDriver2/tools/mksfs.c:415-422 | each further block that the double indirect block names makes room and hides no block |
| Mksfs.Sfs.UpdateCache | ucore_OldDriver2/tools/mksfs.c:382-395 | a field that is 0 gets a new block, any other is the cached block already, so the search is never done |
| Mksfs.Sfs.AllocIno | ucore_OldDriver2/tools/mksfs.c:173-180 | block numbers are given out once each, in range, and unused_blocks is ninos - next_ino; it ends the program exactly when none is left |
| Mksfs.Sfs.AddFile | ucore_OldDriver2/tools/mksfs.c:201-212 | a new file has no blocks, and a block of its own for its inode; it ends the program exactly when none is left |
| Mksfs.Sfs.AppendData | ucore_OldDriver2/tools/mksfs.c:516-531 | data appended to a file goes to a block that nothing else has; every number given out is one inode, one index block or one data block; it fails exactly for a file of maximal size or when the blocks for the data and its index are not there |
| Mksfs.Sfs.Close | ucore_OldDriver2/tools/mksfs.c:312-349 | the free map, the super block, the cached index blocks and the inodes are flushed to their numbers, and no data block is overwritten |
| Mksfs.Sfs.ReadsBack | ucore_OldDriver2/tools/mksfs.c:288-349 | whoever reads the finished image through inode, indirect and double indirect blocks finds in block k of each file the k-th data written to it |
| Mksfs.Sfs.FreeIsUnused | ucore_OldDriver2/tools/mksfs.c:312-331 | in the finished image a bit of the free map is clear exactly for the super block, the free map itself, and the inodes, index blocks and data blocks of the files |
| Mksfs.Sfs.FreeMap | ucore_OldDriver2/tools/mksfs.c:312-349 | bit k of the flushed bitmap is set exactly when next_ino <= k < ninos |
| Mksfs.CreateSfs | ucore_OldDriver2/tools/mksfs.c:223-254 | the image has at most SFS_MAX_NBLKS blocks, the root inode at block 1, and the first free one after super block, root and a free map of just as many blocks as take one bit for each block; it fails exactly when none is left for files |

## Left out

- SemaphoreKernel.Kernel.Exit: is told whether a zombie child is handed to init; Processes.ProcessTable.DoExit hands the children over.
- SemaphoreKernel.Kernel.WakeupProc: does not enqueue the process, which Scheduler.Scheduler.WakeupProc does.
- Processes.ProcessTable.DoExit: does not model the release of the address space, which is PageTable.Mmu.ExitMmap.
- Processes.ProcessTable.DoWait: is one round of the loop; the sleep between rounds is SemaphoreKernel.Kernel.Nap and Scheduler.Scheduler.SleepCurrent.
- StrideFairness.WindowAndFairness: is for a fixed set of processes with fixed priorities; FairScheduling.WakeInWindow adds one whose stride is in the window, but a new process starts at 0 and a sleeper keeps its old stride, and beyond a distance of 2^31 the order is lost, as StrideFairness.CompExact says. lab6_set_priority while a run goes on is not modelled.
- SkewTree.AmortisedCost: counts insertions and root removals only; removing inner entries is not bounded.
- DemandPaging.Paging.Run: is for the one swappable address space that alloc_pages knows.
- Slob.FreeList.SlobAlloc: does not model alignment, which kmalloc never asks for.
- FirstFit.FirstFit.Free: the sentinel page of the list head is node 0, below all pages, as it is in memory.
- PageTable.Mmu.SwapOut: requires that no other page maps the frame; EvictNeedsSoleUser says that the reference counts need it.
- SemaphoreKernel.Kernel.WakeupWait: is for the head of a queue, with deletion, as up calls it; the queue is a sequence without links.
- PageTable.Mmu.ExitRange: requires that nothing in the page tables it frees is present; FreeNeedsUnmapped says that the reference counts need it.
- PageTable.Mmu.ExitMmap: requires that present pages outside the areas are not in page tables that the areas reach, for the same reason.
- Timers.Timers.RunTimerList: does not wake the processes of the timers, which is TimedSleep.Sleepers.Tick, or count the time slice of the current one.
- Kmalloc.Heap.Kmalloc: takes any run of free pages that is long enough; which one the page allocator chooses is FirstFit.FirstFit.Alloc. After a request of 0 bytes took the arena from a longer list, what later calls do is stated of their parts only, by Slob.FreeList.TakeBlock, Slob.NeverBack and Slob.FreeList.SlobFree.
- Kmalloc.Heap.AllocPages: gives up when no page is free; alloc_pages evicts first when a single page is asked for (DemandPaging.Paging.Reclaim), so "there is no page" in the rows of Slob and Kmalloc means that none is free.
- PageTable.Mmu.AllocPage: gives up when no frame is free, without the eviction of alloc_pages; "no frame free" in the rows of PageTable and ForkMemory does not count what eviction could free.
- ForkMemory.CopyMm: begins with a new page directory; mm_create, setup_pgdir, put_pgdir and mm_destroy, and sharing with CLONE_VM, are not modelled. Stopped is the panic of an assertion, after which nothing is cleaned up.
- Pids.PidAllocator.GetPid: takes the pids of proc_list as a sequence; Processes.ProcessTable keeps the list itself.
- Mksfs.Sfs.AppendBlock: does not model the hash chains of the caches, and a cached block is its entries, not bytes.
- Mksfs.Sfs.Close: is for an image on which every write succeeds; data is written as a value, not as bytes.
- Port I/O, interrupts, the TLB, the IDE disk, the console, the clock and context switches: interrupt save and restore is an atomic section, and a swap slot is a map entry that never fails.
- The kernel half of the page directory, large pages, and the accessed and dirty bits of page table entries.
- The free list of DemandPaging and PageTable is a set of frames; FirstFit is the allocator of one kind of request that stands for it.
- Time slices counted by stride_proc_tick, and the list variant of the run queue that USE_SKEW_HEAP switches off.
- execve and the ELF loader, trapframes, system calls, user programs, the MIPS trees, and the file system of the kernel.
- Directory entries, links and the walk over host directories in mksfs.
- ksize, slob_allocated, kallocated and the printing of page tables: reporting only.
