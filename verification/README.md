# Verified models of the concurrent, memory and numeric programs

This project models six programs of the repository and proves what they are for. Every operation that changes
state is a method proved against a specification function or predicate; the theorems are about those.

* **MINIX memory allocator** (`minix/alloc.c`). `FreeLists` is the theory of address-ordered lists of free blocks,
  shared by both allocators. `HoleTable.dfy` (modules `SlotLists` and `HoleTables`) is the array of slots threaded
  into two linked lists, with `holes_sanity_f` as its invariant. `HoleRuns` has the theorems over whole runs: table
  capacity, canonical form, independence of the order of frees. `PageRanges` is the coalescing page allocator and the
  all-or-nothing scatter allocator on top of it.
* **Thread pool** (`pthreads/thr_pool.c`). `ThreadPool` is the monitor protocol, one step for each region in which
  `pool_mutex` is held; `ThreadPoolProofs` has its invariants; `ThreadPoolSize` how the pool grows and
  shrinks and what a worker does in each turn; `ThreadPoolLiveness` that a pool left alone works off
  its jobs; `ThreadPoolDestroy` when a destroy completes. `PoolLists` are the linked job queue and active list, and
  `ThreadPoolMonitor` the code of each region on them, proved equal to its step. `PoolRing` is the circular list of all
  pools.
* **Gram matrix and Gauss-Jordan reduction** (`sefdm/algorythms/test.list.152.c`). `Linear`, `Gram`, `GaussJordan` and
  `GramReduction` have the algebra over exact reals, `Inversion` the loops over tables that alias. The end result: the
  reduction of what `correlate` builds succeeds exactly on linearly independent columns.
* **Work crew** (`pthreads/pthread_cancel/`). `Crew` is the protocol of producers, consumers, responders and main;
  `CrewProofs` and `CrewResults` have conservation of nodes and the shutdown; `LinkedQueue` is the linked list of
  `queue.c` over the nodes of `LinkedNodes`, and `CrewMonitor` the code of each region on three such lists, proved
  equal to its step.
* **Bounded buffer** (`pthreads/pc-9.c`). `BoundedBuffer` is the ring with its flags, `ProducerConsumer` the monitor.
* **Distributed matrix product** (`PVM/pvm_mm.master.c`, `MPI/matrix_mult.c`) and **nibble codec** (`hide.c`).

Threads interleave in atomic steps: a region between taking a mutex and releasing it (by unlock or by a wait), or a
call made outside any mutex, such as a signal, a broadcast or a join. Wakeups follow POSIX.1 (IEEE Std 1003.1, System
Interfaces, `pthread_cond_wait` and `pthread_cond_signal`): a signal wakes at least one sleeper if there is one, and any
sleeper may wake spuriously. Where threads are, and which jobs and nodes went where, is ghost state of the classes.

Where the code departs from its comments, or from what a caller would expect, the model follows the code:

* Freeing a block that `alloc_mem` aligned to 64 KB does not restore the holes: the clicks withheld behind it are never
  given back (`HoleRuns.AllocThenFree`, `HoleRuns.AlignedLoss`).
* `correlate` announces `A' * A` but computes its transpose (`Gram.CommentMatchesIff`, `Gram.CommentFails`).
* `invert` divides by the real part of the pivot before conditioning, not after, so a pivot that is not real becomes
  one only in the cases of `GaussJordan.NormalizesToOne`; `GaussJordan.MissesIdentity` is an input where it does not.
  For Hermitian input every pivot is real.
* `queue_put` and `queue_get` form a stack (`LinkedQueue.ArrivalOrderIff`).
* `thr_pool_destroy` called with jobs queued behind active ones sleeps until a spurious wakeup, and completes in all
  other cases (`ThreadPoolDestroy.DestroyCompletesIff`, `ThreadPoolDestroy.StarvationReached`).
* A `thr_pool_destroy` that completes with jobs queued frees the pool under threads that are still in `thr_pool_wait`
  (`ThreadPoolDestroy.SleeperLeftIff`, `ThreadPoolDestroy.SleeperReached`).
* The consumer of `pc-9.c` has no end, so the join on it does not return (`ProducerConsumer.MainNeverPast`).
* The last assert of `sanitycheck` (`minix/alloc.c:415`) compares a sum with one of its terms; the property it is after,
  ranges that do not touch, is the one that is proved.

## Model

| member | source | states |
|---|---|---|
| FreeLists.CanonicalUnique | minix/alloc.c:151-160 | the sorted, gapped list of holes is determined by the set of free clicks: two such lists of the same set are equal |
| FreeLists.FitsIffFree | minix/alloc.c:193-196 | in such a list a run of n > 0 clicks is free exactly when one single hole contains it, so looking at holes one by one misses nothing |
| FreeLists.EndNotFree | minix/alloc.c:158-159 | the click just after a hole is never free |
| FreeLists.TotalIsCount | minix/alloc.c:422-441 | the sum of sizes that `memstats` computes is the number of free units |
| FreeLists.TookTotal | minix/alloc.c:547-553 | taking a block out lowers the total by exactly its length |
| FreeLists.GaveTotal | minix/alloc.c:621-627 | putting a block back raises the total by exactly its length |
| SlotLists.UnlinkSlot | minix/alloc.c:312-319 | moving element k of the hole list to the free slots leaves two disjoint, null-terminated chains that use every slot, and changes no other order |
| SlotLists.LinkSlot | minix/alloc.c:264-294 | the converse: the first free slot becomes element k of the hole list and both chains stay well formed and complementary |
| SlotLists.EverySlotOnOneList | minix/alloc.c:141-149 | a slot is on the hole list or on the free list, never on both and never on neither |
| HoleTables.HoleTable.DelSlot | minix/alloc.c:301-320 | removes exactly hole k and returns its slot to the free slots, whether or not it is the first |
| HoleTables.HoleTable.Absorb | minix/alloc.c:339-341 | two touching neighbours become one hole over both, in the lower slot |
| HoleTables.HoleTable.Merge | minix/alloc.c:325-354 | after both attempts the list is sorted and strictly gapped again and stands for the same clicks, if only the holes around the given one may touch |
| HoleTables.HoleTable.FindPlace | minix/alloc.c:284-289 | the position found splits the holes into lower and not lower bases |
| HoleTables.HoleTable.FindFit | minix/alloc.c:192-220 | the first hole that is long enough holds the lowest-addressed run of that length; none is found exactly when no hole has room |
| HoleTables.HoleTable.FreeMem | minix/alloc.c:246-296 | a block disjoint from free memory is added, exactly it, and the canonical form kept; it fails exactly when it is not empty and every slot is in use |
| HoleTables.HoleTable.AllocMem | minix/alloc.c:167-241 | NO_MEM exactly when nothing fits, and then nothing changes; the panic inside realignment exactly when every slot is in use, the lowest fit starts off an alignment boundary, and the click behind it is free; else exactly the lowest fit is taken, less what realignment gives back |
| HoleTables.HoleTable.Realign | minix/alloc.c:228-237 | returns the next multiple of `align_clicks` and gives back exactly the clicks before it; fails exactly when there are such clicks and no slot for them |
| HoleTables.HoleTable.MemInit | minix/alloc.c:359-402 | the holes stand for exactly the disjoint chunks, in canonical form, and the table suffices when it has a slot per chunk |
| HoleTables.FirstFitIsLowest | minix/alloc.c:194-216 | the first hole of sufficient length starts the lowest fitting run of clicks |
| HoleTables.BiteKeeps | minix/alloc.c:197-202 | biting n clicks off the front of a hole, and deleting it when used up, removes exactly those clicks from the free set |
| HoleTables.NoFitIffAllShort | minix/alloc.c:194-220 | nothing fits exactly when every hole is too short |
| HoleTables.AlignUpMultiple | minix/alloc.c:228-237 | the realigned base is a multiple and moves by less than one unit of alignment |
| HoleRuns.HoleEnd | minix/alloc.c:189-202 | every hole ends where an allocated (or withheld) block begins or where an initial chunk ends |
| HoleRuns.HolesBounded | minix/alloc.c:264-265 | over every run of allocations and frees of whole blocks, the holes never outnumber the outstanding blocks, the clicks withheld by alignment as one block each, and the initial chunks |
| HoleRuns.InvRun | minix/alloc.c:167-296 | over every run, holes, blocks handed out and blocks withheld stay disjoint and together make up the initial chunks |
| HoleRuns.FreeStep | minix/alloc.c:246-296 | each real call that frees an outstanding block is a step of such a run, and cannot find the table full while outstanding blocks, blocks withheld by alignment and chunks together are fewer than the slots |
| HoleRuns.AllocStep | minix/alloc.c:167-241 | each real allocation is a step of such a run and returns the requested block; its realignment cannot find the table full under the same condition |
| HoleRuns.NoMemExactly | minix/alloc.c:223-224 | NO_MEM means exactly that no run of that many consecutive clicks is free |
| HoleRuns.AllocatedMeaning | minix/alloc.c:228-240 | the block comes from the lowest free run; with alignment the result is a multiple and between 1 and `align_clicks` extra clicks are withheld |
| HoleRuns.AllocThenFree | minix/alloc.c:179-237 | freeing a block just allocated restores the identical list of (base, length) pairs exactly when it was asked for without alignment |
| HoleRuns.AlignedLoss | minix/alloc.c:179-182 | a concrete aligned request whose withheld clicks are not restored by freeing it |
| HoleTables.RestOfHole | minix/alloc.c:201-202 | a hole is used up exactly when the click behind the piece taken is not free |
| HoleRuns.FreedSet | minix/alloc.c:264-294 | freeing blocks one after the other adds exactly their clicks and keeps the canonical form |
| HoleRuns.OrderOfFreesIrrelevant | minix/alloc.c:264-294 | freeing the same blocks in any two orders ends in the identical list of holes |
| PageRanges.PageAllocator.MemStats | minix/alloc.c:422-441 | node count, page count and the largest range |
| PageRanges.PageAllocator.AllocPages | minix/alloc.c:446-556 | ranges stay sorted, disjoint and apart; the pages granted are cut off the end of the highest range that would do, or of the lowest for a low-memory request; all of the request, or all of a smaller range if any block will do; NO_MEM exactly when no range would do or that one fails the test of the low-memory flags; one node fewer exactly when a range is used up |
| PageRanges.PageAllocator.ChosenMeans | minix/alloc.c:465-494 | the scan finds, of the ranges that would do, the highest, or the lowest for a low-memory request |
| PageRanges.PageAllocator.LowEnoughMeans | minix/alloc.c:477-485 | the test of the flags is that the start of the range plus the whole request passes a boundary |
| PageRanges.PageAllocator.TryGrant | minix/alloc.c:914-914 | one attempt in the midst of an allocation: what it grants, what it leaves of the request, and when it is refused |
| PageRanges.PageAllocator.FreePages | minix/alloc.c:561-628 | exactly the freed pages are added, merged on both sides; the node count changes by one minus the number of neighbours it touches |
| PageRanges.PageAllocator.AddRange | minix/alloc.c:578-600 | the first half: the pages are added at the right place, and only the range below can touch the new or grown one |
| PageRanges.PageAllocator.MergeDown | minix/alloc.c:602-618 | the second half: restores the strict gaps with one range fewer exactly when the lower neighbour touches |
| PageRanges.PageAllocator.FreeMemList | minix/alloc.c:957-970 | every listed block becomes free again and nothing else does |
| PageRanges.PageAllocator.Grab | minix/alloc.c:913-919 | the inner loop: a piece no larger than asked for; one batch comes back after every refused attempt and after nothing else, until one brings nothing; so nothing is reclaimed for a request that the free ranges supply, and a request for any block without low-memory flags fails only when nothing is left to give |
| PageRanges.PageAllocator.AllocMemInList | minix/alloc.c:891-952 | all or nothing: disjoint, non-empty pieces that were free (or came back during the call) and add up to the request, or everything free again, and the identical ranges when nothing came back; list nodes run out only when there are fewer than pages (none, if contiguous); without contiguity and low-memory flags, and with nodes enough, it succeeds exactly when free plus reclaimable pages are enough; for any flags, when the successive grants of the free ranges add up it succeeds with exactly those and reclaims nothing, and with nothing to reclaim only then |
| PageRanges.PageAllocator.GrantListOrdered | minix/alloc.c:908-944 | the pieces of a scattered request run in the list from low to high addresses, or from high to low for a low-memory request |
| PageRanges.ReclaimIsAll | minix/alloc.c:916-919 | when no batch is empty, all that can come back counts as reclaimable |
| PageRanges.PageAllocator.SuppliesContiguous | minix/alloc.c:473-494 | a contiguous request without low-memory flags is supplied exactly when one range has that many pages |
| PageRanges.PageAllocator.SuppliesScattered | minix/alloc.c:905-944 | a scattered one exactly when that many pages are free in all |
| PageRanges.InsertedRange | minix/alloc.c:583-596 | the position of a new range, whether its lower neighbour touches it, and that its upper neighbour does not |
| PageRanges.GrownRange | minix/alloc.c:578-581 | changing the key of the upper neighbour in place keeps the order, and says whether the lower neighbour now touches |
| PageRanges.MergeLow | minix/alloc.c:607-617 | absorbing the range into its lower neighbour restores the strict gaps and keeps the pages; without a touching neighbour there is nothing to do |
| ThreadPoolProofs.InvStep | pthreads/thr_pool.c:91-222 | every mutex-held region of every thread keeps the invariant: counters, active list, jobs, POOL_WAIT, destruction, and one awake worker per queued job while any worker sleeps |
| ThreadPoolProofs.InvReached | pthreads/thr_pool.c:259-390 | so it holds in every state that any interleaving reaches from a new pool, spurious wakeups and linger timeouts included |
| ThreadPoolProofs.StrandedIffNoWorkers | pthreads/thr_pool.c:165-196 | a queued job lacks a live worker off `pool_workcv` exactly when there is no worker at all |
| ThreadPoolProofs.StrandsIff | pthreads/thr_pool.c:331-341 | a region leaves jobs without any worker exactly when `pthread_create` fails: on a submission to a pool with no worker, or when the last worker exits inside a job with jobs queued |
| ThreadPoolProofs.WorkersRemain | pthreads/thr_pool.c:94-102 | with worker creation succeeding, jobs are never queued in a pool without workers |
| ThreadPoolProofs.NoStrandedJob | pthreads/thr_pool.c:331-341 | with worker creation succeeding, in every reachable state of a pool not being destroyed a non-empty queue implies a live worker that is not asleep on `pool_workcv` |
| ThreadPoolProofs.WaitReturnsWhenDone | pthreads/thr_pool.c:348-357 | `thr_pool_wait` returns only in a state in which every job submitted so far is finished |
| ThreadPoolProofs.SleepingWaiterIsExpected | pthreads/thr_pool.c:106-113 | a waiter asleep and not yet notified implies POOL_WAIT set and something queued or active, so no wakeup is lost |
| ThreadPoolProofs.EachJobOnce | pthreads/thr_pool.c:188-196 | a submitted job is queued, held by exactly one active worker, or finished, and only one of these |
| ThreadPoolProofs.LingerKeepsMinimum | pthreads/thr_pool.c:211-218 | a worker that leaves without destruction leaves at least `pool_minimum` workers and no queued job |
| ThreadPoolDestroy.FreedPoolIsEmpty | pthreads/thr_pool.c:379-388 | when `thr_pool_destroy` goes on to free the pool, no worker is alive and the active list is empty |
| ThreadPoolDestroy.DestroyStarves | pthreads/thr_pool.c:378-382 | a call of destroy falls into a sleep with jobs queued exactly when it finds jobs both active and queued |
| ThreadPoolDestroy.StarvedForever | pthreads/thr_pool.c:106-113 | over every run, new calls included, nothing but a spurious wakeup ends that sleep |
| ThreadPoolDestroy.StarvationReached | pthreads/thr_pool.c:360-382 | a concrete run of a pool of one thread that gets there: two submissions and a destroy |
| ThreadPoolDestroy.DestroySleepEnds | pthreads/thr_pool.c:378-386 | with an empty queue, whatever the destroyer sleeps on is still to be signalled by a live worker |
| ThreadPoolDestroy.RankDecreases | pthreads/thr_pool.c:91-104 | during a destroy every step that is neither a new call nor a spurious wakeup lowers a variant |
| ThreadPoolDestroy.RestIs | pthreads/thr_pool.c:378-386 | a destroy that cannot go on has freed the pool or starves |
| ThreadPoolDestroy.DestroyCompletesIff | pthreads/thr_pool.c:360-390 | every run of such steps is bounded, and all that cannot go on have freed the pool exactly when at the call no job is active or no job is queued |
| ThreadPoolDestroy.WaitersLeft | pthreads/thr_pool.c:350-356 | a destroy with jobs queued leaves in `thr_pool_wait` exactly the waiters that had not returned at the call, and those asleep stay asleep |
| ThreadPoolDestroy.SleeperLeftIff | pthreads/thr_pool.c:379-390 | a destroy can free the pool with a given waiter asleep exactly when at the call no job is active, some job is queued, and the waiter is asleep, or awake with a worker left to end first |
| ThreadPoolDestroy.SleeperReached | pthreads/thr_pool.c:379-390 | a concrete run that comes to such a call: one submission and one wait |
| ThreadPoolLiveness.RankDecreases | pthreads/thr_pool.c:155-219 | in a pool left alone every step, linger timeouts and exits inside jobs included, lowers a variant |
| ThreadPoolLiveness.RestIsDone | pthreads/thr_pool.c:165-196 | a pool left alone that cannot go on has worked off its queue, finished all jobs and returned every waiter |
| ThreadPoolLiveness.WorksOff | pthreads/thr_pool.c:348-357 | from every state reached with creation succeeding, a pool left alone comes to rest after a bounded number of steps, with all jobs finished, every `thr_pool_wait` returned, and no worker above the minimum left |
| ThreadPoolSize.SubmissionGrows | pthreads/thr_pool.c:337-341 | after a submission one worker more is alive exactly when creation succeeds, none is idle, and fewer than the maximum were alive |
| ThreadPoolSize.FirstSubmissions | pthreads/thr_pool.c:337-341 | k submissions to a new pool before any worker runs start k workers, or the maximum |
| ThreadPoolSize.ExitReplaces | pthreads/thr_pool.c:94-102 | a worker that ends inside a job is replaced exactly when jobs are queued, the pool is not being destroyed, and creation succeeds |
| ThreadPoolSize.TurnIs | pthreads/thr_pool.c:165-218 | a worker that gets the mutex exits exactly in a destroyed pool, or without work, with workers to spare and its linger time over; it takes the first job whenever there is one; else it sleeps, with a timeout exactly when there are workers to spare |
| ThreadPoolSize.WaiterRousedIff | pthreads/thr_pool.c:106-113 | a worker's step wakes a sleeping waiter exactly when it leaves nothing queued and nothing running |
| ThreadPoolSize.DestroyerRousedIff | pthreads/thr_pool.c:95-97 | a worker's step wakes the destroyer that waits for the workers exactly when it was the last one |
| ThreadPoolSize.SteadyReached | pthreads/thr_pool.c:171-182 | in every reachable pool not being destroyed, workers sleep without a timeout only when the minimum needs them all |
| PoolLists.JobQueue.Append | pthreads/thr_pool.c:331-335 | the job becomes the last of the linked list from `pool_head` to `pool_tail` |
| PoolLists.JobQueue.Take | pthreads/thr_pool.c:188-194 | the first job is unlinked, and the tail cleared with the last one |
| PoolLists.ActiveList.Push | pthreads/thr_pool.c:195-196 | the worker's entry becomes the first of the linked active list |
| PoolLists.ActiveList.Remove | pthreads/thr_pool.c:126-133 | the walk along `active_next` unlinks the first entry of the thread and no other |
| ThreadPoolMonitor.ThrPool.constructor | pthreads/thr_pool.c:280-288 | a new pool is the initial state of the protocol |
| ThreadPoolMonitor.ThrPool.FinishJob | pthreads/thr_pool.c:118-136 | the walk over the linked active list takes exactly the calling worker out, and waiters are notified if that leaves nothing to do |
| ThreadPoolMonitor.ThrPool.AwaitWork | pthreads/thr_pool.c:169-184 | the inner wait loop sleeps, or leaves with work, destruction or a timeout |
| ThreadPoolMonitor.ThrPool.WorkerThread | pthreads/thr_pool.c:155-219 | the main loop over the linked lists, from taking the mutex to the next release of it, is the step of the protocol |
| ThreadPoolMonitor.ThrPool.Dispatch | pthreads/thr_pool.c:188-197 | moves the first job of the linked queue to the worker and its entry to the front of the active list |
| ThreadPoolMonitor.ThrPool.LeaveLoop | pthreads/thr_pool.c:185-220 | from the end of the wait loop: exit, dispatch, or one more round, in exactly the cases of the protocol |
| ThreadPoolMonitor.ThrPool.ReturnFromJob | pthreads/thr_pool.c:203-219 | the return of a job function followed by the loop up to the next wait, job or exit |
| ThreadPoolMonitor.ThrPool.ExitFromJob | pthreads/thr_pool.c:203-220 | `pthread_exit` inside a job runs both cleanups in one region |
| ThreadPoolMonitor.ThrPool.Submit | pthreads/thr_pool.c:317-345 | `thr_pool_queue` on the linked job queue is the step of the protocol, keeps the whole invariant, and adds a worker exactly when creation succeeds, nobody is idle, and the maximum is not reached |
| ThreadPoolMonitor.ThrPool.StartWait | pthreads/thr_pool.c:348-357 | `thr_pool_wait` up to its first wait; if it returns at once, every job submitted is finished |
| ThreadPoolMonitor.ThrPool.ResumeWait | pthreads/thr_pool.c:352-356 | the same after a wakeup |
| ThreadPoolMonitor.ThrPool.StartDestroy | pthreads/thr_pool.c:365-386 | sets POOL_DESTROY, wakes all idle workers, then enters the two wait loops in order; if it goes on to free the pool, no worker and no active job is left |
| ThreadPoolMonitor.ThrPool.ResumeDestroy | pthreads/thr_pool.c:379-386 | either wait loop after a wakeup, with the same guarantee when it goes on |
| PoolRing.PoolList.Create | pthreads/thr_pool.c:259-314 | rejects exactly the bad bounds; else the new pool is linked in as the last of the ring |
| PoolRing.PoolList.LinkLast | pthreads/thr_pool.c:300-310 | forw and back stay mutually inverse and circular with the pool appended |
| PoolRing.PoolList.CloseGap | pthreads/thr_pool.c:398-401 | in a ring with others the two stores leave a circular ring without the pool |
| PoolRing.PoolList.Unlink | pthreads/thr_pool.c:391-402 | the ring without this pool is circular again, in the same order, and NULL exactly when it was the last |
| PoolRing.PoolList.Destroy | pthreads/thr_pool.c:391-402 | over any interleaving of creates and destroys the ring is the pools created and not destroyed, in order of creation |
| PoolRing.SurvivorsDrop | pthreads/thr_pool.c:391-402 | destroying one pool takes it out of the order of creation and moves no other |
| PoolRing.NextAndBack | pthreads/thr_pool.c:301-310 | forw goes one place on and from the last pool to the first, and back undoes it |
| PoolRing.SurvivorsIn | pthreads/thr_pool.c:299-311 | the ring contains exactly the pools that were created and not destroyed, each once |
| Gram.Correlate | sefdm/algorythms/test.list.152.c:263-297 | the three loops fill the new table with the Gram entries of the columns |
| Gram.GramHermitian | sefdm/algorythms/test.list.152.c:278-287 | entry (j, i) is the conjugate of entry (i, j) |
| Gram.GramDiagonal | sefdm/algorythms/test.list.152.c:278-287 | the diagonal is real and not negative |
| Gram.GramPositive | sefdm/algorythms/test.list.152.c:263-297 | the quadratic form is a sum of squared magnitudes, hence real and not negative, for every vector |
| Gram.CommentMatchesIff | sefdm/algorythms/test.list.152.c:265-268 | the comment announces A' * A; what is computed is its transpose, and equals it exactly in the entries whose two columns have cross sum zero |
| Gram.CommentFails | sefdm/algorythms/test.list.152.c:265-268 | two concrete columns for which the entry computed is not the one announced |
| GaussJordan.PivotRowLaw | sefdm/algorythms/test.list.152.c:755-825 | for any matrix: left of the pivot the new pivot row is only conditioned, from it on the conditioned row is the real part of the old pivot times the new one, unless the pivot has magnitude one |
| GaussJordan.OtherRowsLaw | sefdm/algorythms/test.list.152.c:864-934 | for any matrix: the other rows keep what is left of the pivot, and from it on old pivot column times new pivot row, added back, gives the old matrix |
| GaussJordan.StepKeeps | sefdm/algorythms/test.list.152.c:742-939 | if columns before r are identity columns and the block from r on is Hermitian, step r clears column r and leaves the rest Hermitian; the pivot is real |
| GaussJordan.ReducesToIdentity | sefdm/algorythms/test.list.152.c:742-939 | for every Hermitian input the loop ends at the identity, unless some pivot is zero |
| GaussJordan.NormalizesToOne | sefdm/algorythms/test.list.152.c:755-819 | a pivot becomes one exactly when it is real, has magnitude one, or has its squared magnitude equal to its real part: the code divides by the real part of the unconditioned pivot |
| GaussJordan.IdentityIff | sefdm/algorythms/test.list.152.c:742-939 | for every matrix on which no division by zero occurs, the result is the identity exactly when each pivot is of that kind |
| GaussJordan.MissesIdentity | sefdm/algorythms/test.list.152.c:799-809 | on the single entry 1 + i the loop ends at 2 instead of 1 |
| GaussJordan.StepKernel | sefdm/algorythms/test.list.152.c:825-939 | a step on Hermitian input is a row operation: it changes no solution of the homogeneous system |
| GaussJordan.RegularIff | sefdm/algorythms/test.list.152.c:742-939 | a Hermitian matrix reduces without a division by zero exactly when each of its leading blocks is nonsingular |
| GramReduction.GramKernel | sefdm/algorythms/test.list.152.c:263-297 | the Gram matrix annihilates a vector exactly when the columns combined with its conjugate vanish |
| GramReduction.GramReducesIff | sefdm/algorythms/test.list.152.c:742-939 | the reduction of the matrix `correlate` builds meets no zero pivot exactly when the columns are linearly independent, and then ends at the identity |
| Inversion.CopyTable | sefdm/algorythms/test.list.152.c:662-671 | a fresh table with the same entries |
| Inversion.CopyRowFromTable | sefdm/algorythms/test.list.152.c:460-480 | copies the row and nothing else |
| Inversion.CopyRowToTable | sefdm/algorythms/test.list.152.c:482-504 | overwrites that row only |
| Inversion.GetColumnFromTable | sefdm/algorythms/test.list.152.c:506-517 | the column by row index |
| Inversion.TableSub | sefdm/algorythms/test.list.152.c:135-165 | entrywise difference, also when the result table is the first operand |
| Inversion.NormalizePivotRow | sefdm/algorythms/test.list.152.c:755-819 | conditions and divides the copied row in place; a division by zero is due exactly when it reports failure |
| Inversion.Subtrahend | sefdm/algorythms/test.list.152.c:845-893 | products of pivot column and pivot row, zero left of the pivot and in its row |
| Inversion.Pass | sefdm/algorythms/test.list.152.c:742-939 | one pass computes the step, also with A and Aprime the same table |
| Inversion.Reduce | sefdm/algorythms/test.list.152.c:662-939 | the loop on a copy of its input computes all steps, and fails exactly when a division by zero is due; the input stays as it is |
| Inversion.CorrelateAndReduce | sefdm/algorythms/test.list.152.c:1000-1026 | composition: succeeds exactly on linearly independent columns and then returns the identity |
| CrewProofs.InvStep | pthreads/pthread_cancel/workcrew.c:59-189 | every region, signal, broadcast and join of every thread keeps the invariant of the crew |
| CrewProofs.InvReached | pthreads/pthread_cancel/workcrew.c:250-267 | so it holds in every state reached from the start, for any roster of threads and any interleaving |
| CrewProofs.FlowStep | pthreads/pthread_cancel/workcrew.c:74-113 | each step moves a node one stage on, so that every stage has seen it as often as all later ones together |
| CrewProofs.ExitStep | pthreads/pthread_cancel/workcrew.c:82-86 | a cleanup node is put once, and then is in the queue, in the hands of main, or joined |
| CrewProofs.RunHeard | pthreads/pthread_cancel/workcrew.c:96-111 | no thread step leaves work in a queue with all of its threads asleep, although the signals come after the unlocks |
| CrewResults.OnePlace | pthreads/pthread_cancel/workcrew.c:104-147 | in every reachable state an allocated node is in exactly one of work queue, hands of a consumer, job queue, hands of a responder, freed; no other node is anywhere |
| CrewResults.HandledOnce | pthreads/pthread_cancel/workcrew.c:74-113 | a freed node was handled by exactly one consumer and exactly one responder, and freed once |
| CrewResults.HolderIsRecorded | pthreads/pthread_cancel/workcrew.c:74-105 | the thread that holds a node is the one, and the only one, whose number is written in it |
| CrewResults.NoStall | pthreads/pthread_cancel/workcrew.c:96-100 | an active queue with work and a thread to serve it always has a thread about to look at it or to signal it |
| CrewResults.NobodyBlocked | pthreads/pthread_cancel/workcrew.c:261-262 | from the broadcast on the work queue on no consumer is blocked, and after both broadcasts nobody is |
| CrewResults.ExitsOnce | pthreads/pthread_cancel/workcrew.c:82-86 | each thread enqueues its cleanup node at most once, exactly once when it has ended, and is joined at most once, after that |
| CrewResults.JoinsAll | pthreads/pthread_cancel/workcrew.c:161-189 | `join_threads` ends with `numthreads` 0 and returns the number created; the structures are destroyed only when every thread has ended and was joined exactly once |
| CrewResults.NothingLost | pthreads/pthread_cancel/workcrew.c:258-265 | at the end every allocated node was freed or is still in one of the two queues |
| CrewResults.TurnIs | pthreads/pthread_cancel/workcrew.c:67-152 | a thread that gets the mutex of its queue leaves its loop exactly when the queue is inactive; else a producer allocates six nodes, and the others sleep exactly on an empty queue or take its front |
| CrewResults.NoWorkAfterStop | pthreads/pthread_cancel/workcrew.c:71-72 | after the shutdown no node is allocated or taken in any run |
| CrewResults.RankDecreases | pthreads/pthread_cancel/workcrew.c:161-189 | after shutdown every step that is no spurious wakeup lowers a variant |
| CrewResults.Progress | pthreads/pthread_cancel/workcrew.c:161-189 | after shutdown some such step is possible until the structures are destroyed |
| CrewResults.ShutdownCompletes | pthreads/pthread_cancel/workcrew.c:258-265 | so every run after shutdown is bounded, and one that cannot go on has joined all threads and destroyed the structures |
| CrewMonitor.WorkCrew.constructor | pthreads/pthread_cancel/workcrew.c:225-244 | initialize_structs gives the initial state |
| CrewMonitor.WorkCrew.PutBatch | pthreads/pthread_cancel/workcrew.c:136-146 | the for loop puts exactly six new nodes to the front of the linked work queue, the last one first |
| CrewMonitor.WorkCrew.Produce | pthreads/pthread_cancel/workcrew.c:134-152 | the region of a producer on the linked work queue is its step, and keeps the whole invariant |
| CrewMonitor.WorkCrew.TakeWork | pthreads/pthread_cancel/workcrew.c:104-105 | the front node of the linked work queue is unlinked and gets the number of its consumer, overwriting none |
| CrewMonitor.WorkCrew.Consume | pthreads/pthread_cancel/workcrew.c:96-106 | the region of a consumer is its step: it sleeps, leaves with the node in hand, or leaves the loop |
| CrewMonitor.WorkCrew.PutJob | pthreads/pthread_cancel/workcrew.c:108-110 | the node in hand, which no queue holds, becomes the front of the linked job queue |
| CrewMonitor.WorkCrew.PassOn | pthreads/pthread_cancel/workcrew.c:108-110 | handing over is the step of the consumer, and keeps the invariant of both linked queues |
| CrewMonitor.WorkCrew.TakeJob | pthreads/pthread_cancel/workcrew.c:74-75 | the front node of the linked job queue is unlinked and gets the number of its responder, overwriting none |
| CrewMonitor.WorkCrew.Respond | pthreads/pthread_cancel/workcrew.c:66-76 | the region of a responder is its step |
| CrewMonitor.WorkCrew.PutExit | pthreads/pthread_cancel/workcrew.c:82-84 | the cleanup node, which is not in the linked cleanup queue, becomes its front |
| CrewMonitor.WorkCrew.PutCleanup | pthreads/pthread_cancel/workcrew.c:117-119 | the end of a thread is its step, and keeps the invariant of all three linked queues |
| CrewMonitor.WorkCrew.CreateOrStop | pthreads/pthread_cancel/workcrew.c:190-224 | one round of creation, or the deactivation of the work queue after the last one |
| CrewMonitor.WorkCrew.NextToJoin | pthreads/pthread_cancel/workcrew.c:165-182 | one round of the wait of `join_threads`: the node it unlinks is the cleanup node of the thread joined next |
| LinkedQueue.Queue.Init | pthreads/pthread_cancel/queue.c:28-31 | an empty list with no tail |
| LinkedQueue.Queue.Put | pthreads/pthread_cancel/queue.c:43-49 | the node becomes the first of the linked list; the tail stays NULL once it is |
| LinkedQueue.Queue.Get | pthreads/pthread_cancel/queue.c:50-57 | NULL exactly when empty; else the first node is unlinked and the rest is unchanged |
| LinkedQueue.AfterPutsAt | pthreads/pthread_cancel/queue.c:43-57 | after any number of puts the contents are the arrivals in reverse order, before what was there |
| LinkedQueue.ArrivalOrderIff | pthreads/pthread_cancel/queue.c:43-57 | the queue is first-in first-out only with at most one node |
| BoundedBuffer.Fifo.Init | pthreads/pc-9.c:143-163 | an empty ring |
| BoundedBuffer.Fifo.Add | pthreads/pc-9.c:176-189 | appends one element to the sequence the ring stands for, with wrap-around and flags right |
| BoundedBuffer.Fifo.Del | pthreads/pc-9.c:191-203 | removes and returns the oldest element |
| BoundedBuffer.Fifo.FlagsMeanLength | pthreads/pc-9.c:181-200 | `full` exactly when the ring holds its capacity, `empty` exactly when nothing |
| BoundedBuffer.WindowPush | pthreads/pc-9.c:178-183 | writing the slot at the tail extends the window by that element |
| BoundedBuffer.WindowPop | pthreads/pc-9.c:193-197 | advancing the head drops the first element |
| ProducerConsumer.InvReached | pthreads/pc-9.c:80-131 | the invariant of the monitor in every reachable state |
| ProducerConsumer.FifoOrder | pthreads/pc-9.c:88-98 | consumed and buffered values together are the produced ones in order, and the buffer never exceeds its size |
| ProducerConsumer.SleepsForAReason | pthreads/pc-9.c:115-123 | a consumer blocked on a non-empty buffer implies the producer is at its pending signal; a blocked producer implies a full buffer; never are both blocked |
| ProducerConsumer.StopsIff | pthreads/pc-9.c:88-131 | only spurious wakeups are left exactly when everything is consumed, the producer has ended and been joined, and the consumer sleeps with main waiting for it |
| ProducerConsumer.RunsDrain | pthreads/pc-9.c:88-131 | every run without spurious wakeups is bounded and comes to rest exactly there |
| ProducerConsumer.MainNeverPast | pthreads/pc-9.c:62-63 | in no run does main get past its second join; once all is consumed and the producer has ended, nothing changes but the sleep of the consumer |
| ProducerConsumer.Program.ProducerRegion | pthreads/pc-9.c:89-95 | the producer's region over the real ring is the step of the monitor |
| ProducerConsumer.Program.ConsumerRegion | pthreads/pc-9.c:116-123 | the consumer's region, its signal included, is the step of the monitor |
| MatrixProduct.Partition | PVM/pvm_mm.master.c:66-89 | the loop deals out the blocks given by quotient and remainder |
| MatrixProduct.PartitionFromOne | MPI/matrix_mult.c:140-156 | counting workers from one gives the same blocks |
| MatrixProduct.BlocksMeet | PVM/pvm_mm.master.c:73-88 | each block begins where the one before it ends |
| MatrixProduct.BlocksSpan | PVM/pvm_mm.master.c:66-68 | the blocks begin at row 0 and end with the last row |
| MatrixProduct.BlocksEven | PVM/pvm_mm.master.c:73-73 | sizes differ by at most one |
| MatrixProduct.BlocksPartition | PVM/pvm_mm.master.c:66-89 | every row of the matrix is in exactly one block, and no other row is in any |
| MatrixProduct.Worker | MPI/matrix_mult.c:198-203 | the loops compute the product of the rows received |
| MatrixProduct.WorkerTask | MPI/matrix_mult.c:186-209 | a worker's reply is its block of rows of the whole product |
| MatrixProduct.ProductOfBlock | MPI/matrix_mult.c:198-203 | the product of a block of rows is that block of the product |
| MatrixProduct.UnitRow | MPI/matrix_mult.c:200-203 | a row that is one in column j and zero elsewhere yields row j of b |
| MatrixProduct.RowsCombine | MPI/matrix_mult.c:200-203 | a combination of rows yields the combination of their products; with the unit rows this determines the product |
| MatrixProduct.Gather | PVM/pvm_mm.master.c:91-98 | every row some reply covers ends as in the table all replies agree with, in whatever order they are unpacked |
| MatrixProduct.Master | PVM/pvm_mm.master.c:66-98 | for every number of rows and workers and every order of arrival the result is the sequential product |
| NibbleCodec.Encode | hide.c:17-28 | the loop with its carry computes the nibble shift |
| NibbleCodec.Decode | hide.c:30-42 | the loop computes the inverse shift; an empty file decodes to an empty one |
| NibbleCodec.RoundTrip | hide.c:17-42 | for every byte sequence decoding what was encoded gives it back, and the encoding is one byte longer |
| NibbleCodec.EncodedHalfBytes | hide.c:21-27 | the half-bytes of the encoding are a zero, those of the file in order, and a zero |
| NibbleCodec.UnshiftShifted | hide.c:21-41 | the same round trip from any carry on |
| NibbleCodec.ImageIff | hide.c:17-42 | a file is an encoding exactly when its first byte has a zero upper half and its last a zero lower half, and exactly then encoding what was decoded gives it back |

## Left out

- The AVL tree of page ranges is an address-ordered sequence; its balancing is not part of this model.
- `PAF_CLEAR`, `mem_low` and `mem_high`, the DMA table, the debug bitmap, and the branch of `alloc_mem` and `free_mem` for `vm_paged`.
- The address guarantee of the flags for memory below 1 MB and 16 MB: the test is on the start of a range while the block is cut from its end; `PageAllocator.AllocPages` says exactly what is tested.
- The refusal of a physical address of zero by the last loop of `alloc_mem_in_list`.
- `free_yielded` is not part of this model; it appears as a sequence of batches of blocks that come back one call at a time.
- Clicks, pages and counters are unbounded naturals; overflow of C integers is not modelled.
- `merge` is split into its two attempts, and a free slot is popped from its list when it is linked, not before the search for its place.
- The main loop of `worker_thread` appears as the at most two rounds it makes between releases of the mutex.
- Signal masks, cancellation states, thread attributes, the freeing of memory, and failures of `malloc`; failing thread creation is modelled for the pool only.
- Cancellation of active workers by `thr_pool_destroy`: a cancelled job ends like one that calls `pthread_exit`, at any time.
- Submissions to a pool that is being destroyed are allowed by the safety results; completion of a destroy is stated without them.
- Tables of `sefdm` are arrays, not lists of nodes per column; numbers are exact reals, so nothing is said about rounding; a division by zero stops the model where the program would go on with infinities.
- The augment half of `invert`, and `table_mult`, `modulate`, `swap` and `divide`, which do not compute what their comments name.
- The job and producer numbers in work nodes (those of consumers and responders are modelled), the release of freed nodes to the heap, the unlock of a mutex that is not held (`workcrew.c:116`), printing and sleeping.
- Work still queued when the crew is shut down is not claimed to be processed: `NothingLost` says where it is.
- Termination of the three monitors is about runs without spurious wakeups, since those can go on for ever.
- Transport of messages in PVM and MPI, and the pointers sent in place of matrices in `MPI/matrix_mult.c`; messages are values.
- Other programs of the repository (schedulers, cellular automata, user interfaces, the other allocators and copies of the crew) are not part of this model; they change single fields, share their logic with the programs above, or do not build.
