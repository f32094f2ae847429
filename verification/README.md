# Proofs about OS/161

This project models the parts of OS/161 whose correctness cannot be seen from one function: its two heap
allocators, the thread system with the semaphores and locks on top of it, three concurrent protocols that use them,
the printf formatter with atoi, the random number generators, and the free map that mksfs writes and the kernel
loads. `dafny verify dfyconfig.toml` checks all of it.

How the components are modelled:

- Code that changes data in place is a class or a method with loops, proved against a function or a relation on
  values: the user-level heap (`MallocHeap`, against `Malloc` and `HeapLayout`), the kernel heap (`Kheap`, against
  `Subpages`), the ring buffer and the growable array (`Queue`, `Array`), the thread lists (`Threads.ThreadSystem`, on
  that ring buffer and those arrays), the pid table (`Pids.PidTable`), the generators (`Random.Generator`,
  `Pseudorand.Softc`), the bitmaps (`Bitmap`, `WordBits`, `Mksfs`, `Sfs`), the formatter and parser (`Snprintf`, against `Format`;
  `Atoi`).
- Concurrent code is a machine whose steps are what cannot be interrupted: an interrupts-off section (`Threads`,
  `Synch`), one update of the pid table (`Pids`), or one access of a shared variable (`Stoplight`, `CatMouse`).
  A run is any sequence of steps of any number of threads, and the properties are about every run.
- Heap memory of the user-level allocator is a sequence of 8-byte units seen through the bit-fields of `struct
  mheader`; headers and user data share it, so data can look like a header. Memory of the kernel heap is a map from
  word addresses to words. 32-bit wrap-around is written out wherever the code depends on it.
- Outside calls are parameters: `sbrk` grants or refuses and hands out memory holding anything; `alloc_kpages` gives
  an unused aligned page or 0; `kmalloc` for queue growth grants or refuses; `random()` in `catsem.c` gives any
  number; thread and process numbers are unused ones.

Where the code does not do what it might be expected to do, the project keeps the code and states exactly when it does:

- `malloc` rounds correctly if and only if `size + 15` fits in 32 bits (`Malloc.RoundUpIff`). The seven largest sizes
  are served as 0; for the eight below them adding the header wraps to 0, and if `sbrk(0)` succeeds the block returned
  has its header above the heap (`MallocHeap.Heap.Malloc`). A pointer that `malloc` returned is refused by `free` if
  and only if it is an empty block at the heap top (`Malloc.AtTopIff`).
- The intersection is free of deadlock when entering the first region (take the lock, test the region ahead, set the
  flag or release and retry) is one step (`StoplightRuns.EveryMaximalRunEnds`). As written, with every access a step of
  its own, it can deadlock if and only if there is a straight or left-turning car from each side, or two left-turning
  ones from one side with a straight or left-turning one from each of the two sides after the next, or two
  left-turning ones from each of two opposite sides (`StoplightDeadlock.DeadlockIff`); with any other cars everybody
  gets through (`StoplightDeadlock.FineRunsEnd`).
- `setstate` of the active array is harmless if and only if the draws since word 0 was written are a multiple of the
  degree (`Random.SetActiveHarmlessIff`). The comment at os161/lib/libc/random.c:344-345 says it always is; the code
  reads the word before it updates it.
- A number printed with `%d` is read back by `atoi` if and only if the field was not filled with zeros on the right,
  or the number is 0 (`Atoi.RoundTripIff`).
- `mksfs` reports a map written if and only if it has at most 32 blocks, the volume has 0 or at least 3 and the disk
  takes the map (`Mksfs.Maker.WriteBitmap`). For 2^32-4095 blocks and more the number of map blocks wraps around to 0: nothing is
  reported and no map is written (`SfsLayout.WrapsIff`).
- The assertion in `V` fails exactly when the count has reached 2^31-1 (`Synch.NoAssertFails`).
- `freePid` lets a pid at the end of the table and one past it through its range test; when each of its four outcomes
  happens is stated (`Pids.PidTable.FreePid`).
- A live pid is given out again only once: the boot thread has pid 0 without a slot, so the first process forked gets
  it too (`Pids.PidsFresh`, `Pids.FirstForkSharesPid`).
- `waitpid` means to let only the parent wait, but compares pid numbers. It refuses no parent; a thread it lets
  through is the parent if and only if it is older than the process waited for and the boot thread did not fork that
  process (`Pids.ParentIff`, with runs that fail in `Pids.StrangerWaits` and `Pids.FirstWaits`).
- `sfs_balloc` leaves a block marked that it could not clear and did not hand out, exactly when the lowest free block
  cannot be written (`Sfs.Volume.Take`).
- A thread switch or a wakeup trips its assertion exactly when the list it adds to has no room and there is no memory
  (`Threads.ThreadSystem.Stash`, `Threads.ThreadSystem.Wakeup`).
- `no_hole_in_array` answers whether there is a hole, the opposite of its name (`Pids.PidTable.NoHole`); its caller
  uses it the right way round.

## Model

| member | source | states |
|---|---|---|
| `Malloc.RunKeepsInv` | os161/lib/libc/malloc.c:265-514 | in every run of malloc, free and stores into live blocks the headers tile the heap exactly and never describe two free neighbours; that the headers written agree with the layout in both directions is part of each step here and shown of the code by MallocHeap.Heap.Malloc and MallocHeap.Heap.Free |
| `Malloc.RunKeepsBlock` | os161/lib/libc/malloc.c:282-301 | in every run a live block that is neither freed nor written to keeps its place, its length and every unit of its data, although headers around it move and freed memory is wiped |
| `Malloc.MallocGives` | os161/lib/libc/malloc.c:337-403 | what malloc hands out is at least as large as asked, was not live before, is the lowest free block that fits, and lies beyond the old top only if none fits; it fails only if none fits |
| `Malloc.MallocCarves` | os161/lib/libc/malloc.c:267-372 | a block that fits is cut down to exactly the units asked for when two or more are over, the rest being a free block right behind it up to where the block ended; otherwise it is handed out whole; every other block stays as it was |
| `Malloc.MallocGrows` | os161/lib/libc/malloc.c:382-403 | when no block fits the heap grows by exactly the units asked for and a header, and no block changes |
| `Malloc.FreeEnds` | os161/lib/libc/malloc.c:457-514 | exactly the freed block goes out of use, and the layout is then the only one with those blocks in use and no two free neighbours |
| `Malloc.FreeWipes` | os161/lib/libc/malloc.c:413-422 | the freed block and the headers that vanish hold 0xdeadbeef afterwards, and no other data is written |
| `Malloc.StoreWrites` | os161/lib/libc/malloc.c:346-371 | a client store changes that unit alone and no block |
| `HeapLayout.LayoutUnique` | os161/lib/libc/malloc.c:427-451 | the blocks in use and the heap top determine the layout |
| `Malloc.FreeUndoesMalloc` | os161/lib/libc/malloc.c:425-514 | freeing at once a block that was carved from a free one restores all sizes and in-use marks |
| `Malloc.LiveDisjoint` | os161/lib/libc/malloc.c:346-403 | the data of two blocks are disjoint, 8-byte aligned and inside the heap |
| `Malloc.RoundUpIff` | os161/lib/libc/malloc.c:329-330 | rounding covers the request and leaves room for a header exactly when size + 15 fits in 32 bits; the result is always a multiple of 8 |
| `Malloc.RoundUpWraps` | os161/lib/libc/malloc.c:329-330 | exactly the seven largest sizes wrap to 0, and exactly for the eight below them the header wraps |
| `Malloc.AtTopIff` | os161/lib/libc/malloc.c:473-476 | a block's data pointer is at or past the heap top, where free() refuses it, if and only if the block is empty and the last |
| `Malloc.EmptyAtTop` | os161/lib/libc/malloc.c:473-476 | malloc(0) on the empty heap hands out such a pointer |
| `HeapLayout.ReleaseTiles` | os161/lib/libc/malloc.c:498-508 | freeing any block of a coalesced tiling, with one merge upward and one downward, gives a coalesced tiling of the same heap |
| `HeapLayout.ReleaseUndoesCarve` | os161/lib/libc/malloc.c:277-301 | a split and the merges of the matching free cancel, at every place and for every size |
| `HeapLayout.CarveTiles` | os161/lib/libc/malloc.c:265-302 | handing out part of a free block keeps the tiling and creates no two free neighbours |
| `MallocHeap.Heap.constructor` | os161/lib/libc/malloc.c:121-178 | the heap starts empty at the break rounded up to 8 |
| `MallocHeap.Init` | os161/lib/libc/malloc.c:121-178 | exactly when the first call ends the program: no break, a break of 0, or an unaligned one that cannot be moved up in place; otherwise an empty heap |
| `MallocHeap.Heap.Split` | os161/lib/libc/malloc.c:265-302 | rewrites exactly the three headers of a split when two units are left over, and nothing otherwise; its internal-error exits are not taken |
| `MallocHeap.Heap.TryMerge` | os161/lib/libc/malloc.c:425-451 | joins two free neighbours in memory, wiping the header that vanishes, and reports a corrupt heap exactly when the two offsets differ |
| `MallocHeap.Heap.Malloc` | os161/lib/libc/malloc.c:307-403 | for every 32-bit size the walk over the headers in memory takes a first-fit allocation step of the layout for the rounded size, or fails; the header is written above the heap exactly when adding it to the rounded size wraps and sbrk grants nothing more; no "Heap corrupt" or internal-error exit is reachable |
| `MallocHeap.Heap.Free` | os161/lib/libc/malloc.c:456-514 | exactly the live pointers below the top are freed, as a free step of the layout; NULL is ignored, other pointers are reported and change nothing, and no corruption exit is reachable |
| `MallocHeap.Heap.Deadbeef` | os161/lib/libc/malloc.c:411-420 | overwrites exactly the given units |
| `MallocHeap.SplitDescribes` | os161/lib/libc/malloc.c:282-301 | after the writes of a split the headers in memory describe the split layout |
| `MallocHeap.MergeDescribes` | os161/lib/libc/malloc.c:425-451 | after the writes of a merge the headers in memory describe the merged layout |
| `Stoplight.EveryRunSafe` | os161/kern/asst1/stoplight.c:109-193 | at the finest interleaving, for any cars, a region's flag is up exactly while one car is in it, that car holds the region's lock, and no step about to be taken panics or fails an assertion |
| `Stoplight.Exclusive` | os161/kern/asst1/stoplight.c:425-525 | no two cars are ever in the same region |
| `Stoplight.NoPanic` | os161/kern/asst1/stoplight.c:811-860 | the "occupied by other thread" panics and the region assertions are unreachable, whatever car moves next |
| `StoplightRuns.EveryMaximalRunEnds` | os161/kern/asst1/stoplight.c:130-193 | with entry as one step, which sets the flag or releases the lock and retries: in every run at most three straight or left-turning cars are inside, runs of moves are at most 378 per car long, and one that cannot be extended has all cars through and counted by CarsWait; each car has then driven its whole way |
| `StoplightRuns.AtMostThree` | os161/kern/asst1/stoplight.c:141-159 | every step keeps at most three straight or left-turning cars inside |
| `StoplightRuns.StepProgress` | os161/kern/asst1/stoplight.c:1316-1319 | at either grain every move, the retries among them, lowers a bound on the moves left, and CarsWait counts the cars that are through |
| `StoplightRuns.BusyRun` | os161/kern/asst1/stoplight.c:130-193 | at either grain no run of moves is longer than 378 per car, although cars go back and try again |
| `StoplightRuns.StuckOnlyInRing` | os161/kern/asst1/stoplight.c:130-193 | at any grain, if no car can move all are through or four cars wait for each other in a ring |
| `StoplightRuns.RingStays` | os161/kern/asst1/stoplight.c:130-193 | the ring is never left |
| `StoplightDeadlock.DeadlockIff` | os161/kern/asst1/stoplight.c:109-193 | with every access a step of its own, some run ends in the ring if and only if the cars include one of three patterns of sides and turns, which can be read off before they start |
| `StoplightDeadlock.FineRunsEnd` | os161/kern/asst1/stoplight.c:109-193 | with every access a step of its own, every run of moves is finite, and for all other cars one that cannot be extended has all cars through and counted by CarsWait; each car has then driven its whole way |
| `StoplightDeadlock.CarsDeadlock` | os161/kern/asst1/stoplight.c:130-155 | cars of each of the three patterns, whatever other cars there are, can be driven into the ring |
| `StoplightDeadlock.RingCars` | os161/kern/asst1/stoplight.c:448-470 | the cars of a ring make one of the three patterns, because a car behind one of its own side turns left and its test found the region ahead empty |
| `StoplightDeadlock.BehindRun` | os161/kern/asst1/stoplight.c:448-518 | in every run a car that came in behind one of its own side waiting for its third region turns left, and no car waits in its second region where it tested |
| `StoplightDeadlock.DeadlockExamples` | os161/kern/asst1/stoplight.c:109-193 | four straight cars and two pairs of opposite left-turning ones can deadlock; a pair of which one goes straight, with no car from the next side, cannot |
| `StoplightDeadlock.AtomicIsFine` | os161/kern/asst1/stoplight.c:141-159 | the one-step entry, successful or not, is four undisturbed steps of the fine machine |
| `Stoplight.WayLeadsThere` | os161/kern/asst1/stoplight.c:948-1020 | the turn chosen for a destination ends in the region next to it |
| `StoplightWays.EveryCarDrives` | os161/kern/asst1/stoplight.c:109-900 | in every run at either grain the flags a car raises and lowers are the beginning of its way, and when it is through all of it: from its side through one, two or three regions counter-clockwise, each entered before the one behind is left |
| `StoplightWays.FlagIffInside` | os161/kern/asst1/stoplight.c:109-900 | in every run a region's flag is up exactly while some car has entered the region and not left it, and that car holds the region's lock |
| `Subpages.RunKeepsInv` | os161/kern/lib/kheap.c:351-541 | in every run each listed page's free list visits distinct aligned blocks of the page and not all of them, the all-pages list is the disjoint union of the per-size lists, and the blocks in use are exactly those handed out and not returned |
| `Subpages.KfreeUndoesKmalloc` | os161/kern/lib/kheap.c:373-460 | freeing what was just allocated restores free-list order, counts, both page lists and the page references, also when a fresh page was made and is given back |
| `Subpages.KmallocServes` | os161/kern/lib/kheap.c:353-460 | a request is served from a page of the smallest type that fits, by a block that was not in use, with no other change of use; a new page is used, at the lowest unused reference, only when no page of the type has space; it fails only without a reference or page for a new one |
| `Subpages.KfreeLive` | os161/kern/lib/kheap.c:508-535 | freeing a block ends its use and that of no other, also when its page is given back |
| `Subpages.KfreeFinds` | os161/kern/lib/kheap.c:478-506 | the search over all pages finds the page of every block in use |
| `Subpages.KfreeIff` | os161/kern/lib/kheap.c:482-505 | for every address: not a subpage allocation if and only if it is on no page, misplaced if and only if it is on a page off its block grid, and otherwise that block of that page is freed |
| `Subpages.LiveDisjoint` | os161/kern/lib/kheap.c:381-407 | two blocks in use do not overlap |
| `Subpages.SomeLive` | os161/kern/lib/kheap.c:529-535 | every listed page has a block in use |
| `Kheap.SubpageAllocator.constructor` | os161/kern/lib/kheap.c:105-109 | the zeroed static data represent the empty allocator |
| `Kheap.SubpageAllocator.BlockTypeOf` | os161/kern/lib/kheap.c:333-349 | the loop finds the smallest size class that fits and panics exactly when none does |
| `Kheap.SubpageAllocator.SubpageKmalloc` | os161/kern/lib/kheap.c:353-460 | on linked page references and free lists threaded through the blocks: the new state represents the allocator after the allocation, the address is its result, and no word of a block in use is written |
| `Kheap.SubpageAllocator.SubpageKfree` | os161/kern/lib/kheap.c:465-541 | the new state represents the allocator after the free; -1 exactly for an address on no page, panic exactly for one off the block grid of its page; otherwise the use of that block ends and no other, it is wiped, and its page goes back to free_kpages exactly when nothing on it is in use any more; no word of another block in use is written |
| `Kheap.SubpageAllocator.Store` | os161/kern/lib/kheap.c:67-69 | a client's write into a block it holds breaks no free list, although these are kept in the same memory, and changes nobody else's data |
| `Kheap.SubpageAllocator.FormatPage` | os161/kern/lib/kheap.c:435-451 | the words written into a fresh page chain all its blocks, highest first |
| `Kheap.SubpageAllocator.RemovePage` | os161/kern/lib/kheap.c:308-331 | the two pointer-to-pointer loops take the reference off both lists and keep the order of the rest |
| `Kheap.SubpageAllocator.AllocPageRef` | os161/kern/lib/kheap.c:111-135 | on the words of the bitmap: claims the lowest reference that no listed page uses, or none |
| `Kheap.SubpageAllocator.FreePageRef` | os161/kern/lib/kheap.c:137-149 | on the words of the bitmap: clears the bit of that reference only, and the assertion that it was set holds |
| `WordBits.LowestClear` | os161/kern/lib/kheap.c:123-130 | the mask shifted along a word that is not all ones stops at the lowest clear bit, and the assertion after the loop is not reached |
| `WordBits.FirstClear` | os161/kern/lib/kheap.c:118-134 | skipping full words finds the lowest clear bit of all, or that there is none |
| `WordBits.FlagChanges` | os161/kern/lib/kheap.c:138-149 | changing bit j % 32 of word j / 32 changes flag j alone |
| `Kheap.SubpageAllocator.FreeBlock` | os161/kern/lib/kheap.c:508-535 | pushes the block on its page's chain and drops the page exactly when all its blocks are free |
| `Kheap.MkpabReadsBack` | os161/kern/lib/kheap.c:79-83 | page address and block type packed into one word are read back unchanged |
| `Queue.Ring.AddTail` | os161/kern/lib/queue.c:91-109 | appends to the queued sequence through wrap-around and growth, fails only when full without memory, and then changes nothing |
| `Queue.Ring.RemHead` | os161/kern/lib/queue.c:111-122 | takes the oldest element |
| `Queue.Ring.Grow` | os161/kern/lib/queue.c:17-52 | moves the elements in order to a larger buffer; the q_grow/q_addtail recursion ends and no re-adding grows again |
| `Queue.Ring.Refill` | os161/kern/lib/queue.c:44-47 | the copy loop rebuilds the same sequence from the old ring |
| `Queue.Ring.Preallocate` | os161/kern/lib/queue.c:71-83 | the sequence is unchanged and success means room for n slots |
| `Queue.FullIff` | os161/kern/lib/queue.c:91-100 | the ring test for "full" is true exactly when one slot is left |
| `Array.Guys.Preallocate` | os161/kern/lib/array.c:42-65 | room for n with the contents unchanged, or an error that changes nothing |
| `Array.Guys.SetSize` | os161/kern/lib/array.c:67-89 | only growing past max can fail; what is kept is kept in order; the storage is dropped exactly when an array with room for more than 16 is emptied |
| `Array.Guys.Add` | os161/kern/lib/array.c:99-114 | appends, and can fail only when num has reached max |
| `Array.Guys.SetGuy` | os161/kern/lib/array.c:91-97 | replaces that element only |
| `Array.Guys.Remove` | os161/kern/lib/array.c:116-127 | takes out that element and keeps the order of the rest |
| `Array.AddsNeedNoMemory` | os161/kern/thread/thread.c:534-549 | with room for n made beforehand, adding up to n in all cannot fail |
| `Threads.EveryRunSafe` | os161/kern/thread/thread.c:601-693 | in every run from boot each thread is at most once in one of current, run queue, sleepers and zombies, the live ones number numthreads, the assertions of thread_exit and exorcise hold, and no zombie is dispatched |
| `Threads.RunConserves` | os161/kern/thread/thread.c:534-572 | no run loses a thread or makes one up: alive plus exits equals alive before plus forks, thread by thread |
| `Threads.Accounted` | os161/kern/thread/thread.c:603-659 | in every run each thread that was there or was forked is alive, a zombie or destroyed, each once; zombies go exactly when a thread comes back that has run before |
| `Threads.ServedInTurn` | os161/kern/thread/scheduler.c:87-118 | a thread with k others ahead on the run queue becomes current by exactly the (k+1)-th following return of scheduler(), whatever happens in between |
| `Threads.MovesUp` | os161/kern/thread/scheduler.c:87-118 | a waiting thread moves up one place per return of scheduler() and by nothing else |
| `Threads.WakeMeans` | os161/kern/thread/thread.c:786-816 | a wakeup wakes only sleepers on its address, leaves none of them asleep, or wakes one if told to |
| `Threads.WakeupMeans` | os161/kern/thread/thread.c:786-816 | all who sleep on the address join the end of the run queue in the order they went to sleep, or only the first of them, and the others sleep on in order |
| `Threads.WakeupEnds` | os161/kern/thread/thread.c:786-816 | after a wakeup of all nobody sleeps on the address and who did can run |
| `Threads.StepKeepsInv` | os161/kern/thread/thread.c:601-693 | every step keeps each thread in one place and numthreads right |
| `Threads.ThreadSystem.constructor` | os161/kern/thread/thread.c:221-264 | empty lists with storage of their own and the boot thread running satisfy the invariant |
| `Threads.ThreadSystem.Fork` | os161/kern/thread/thread.c:534-572 | after the three preallocations and the addition to the ring buffer the lists are those of a fork step and all three have room for all threads; a failure at any of them leaves all lists as they were |
| `Threads.ThreadSystem.Stash` | os161/kern/thread/thread.c:603-659 | adding to the ring buffer or to a growable array is a yield, sleep or exit step that keeps each thread in one place, nothing while the scheduler waits; the assertion that it succeeded fails exactly when the list has no room and there is no memory, and so never for a thread that goes to sleep after a fork |
| `Threads.ThreadSystem.Dispatch` | os161/kern/thread/thread.c:663-693 | taking the head of the ring buffer and emptying the zombie array is a dispatch step; what is destroyed is never the thread that runs |
| `Threads.ThreadSystem.Exorcise` | os161/kern/thread/thread.c:117-133 | destroys all zombies, none of them current, and shrinking the array cannot fail |
| `Threads.ThreadSystem.Wakeup` | os161/kern/thread/thread.c:786-816 | the loop that removes from the array it walks and adds to the ring buffer is a wakeup step, skipping and repeating no sleeper; its assertion fails exactly when the ring cannot hold all that are woken and there is no memory |
| `Threads.RunCode` | os161/kern/thread/thread.c:534-816 | with memory granted or refused at every step, the code runs the machine without the forks that returned an error, up to a failed assertion if there is one, which needs a refused request; with memory it does any run of the machine, so that what is shown of every run, first come first served among it, holds of ring buffer and arrays |
| `Synch.NoLostWakeups` | os161/kern/thread/synch.c:63-96 | in every run a thread asleep on a semaphore or lock means its count is 0; a lock's count and holders make 1, so no two threads hold it |
| `Synch.CountBalances` | os161/kern/thread/synch.c:63-96 | in every run a semaphore's count is its initial value plus the completed Vs minus the completed Ps |
| `Synch.LockBalances` | os161/kern/thread/synch.c:141-174 | in every run a lock's count is what it was plus the releases less the completed acquisitions, and a thread holds it as often as it did plus its acquisitions less its releases |
| `Synch.ReleaseOpens` | os161/kern/thread/synch.c:161-174 | after lock_release, and after the release in cv_wait, the lock is free, held by nobody, and nobody sleeps on it; all who did can run |
| `Synch.TestTakes` | os161/kern/thread/synch.c:64-84 | P and lock_acquire go to sleep on the object at a count of 0; otherwise the call returns, the count is one less and a lock is held by the caller |
| `Synch.TestSignal` | os161/kern/thread/synch.c:234-260 | cv_wait goes to sleep while there is no signal; otherwise it takes the signal and goes on to get the lock back |
| `Synch.VOpens` | os161/kern/thread/synch.c:87-96 | V raises the count by one and leaves nobody asleep on the semaphore |
| `Synch.SignalWakes` | os161/kern/thread/synch.c:265-297 | cv_signal lets the longest sleeper run, cv_broadcast all of them; the signal is up after either |
| `Synch.CallBegins` | os161/kern/thread/synch.c:64-84 | a call that has begun is tested before anything else of that thread, and beginning it changes nothing |
| `Synch.CanCall` | os161/kern/thread/synch.c:141-174 | an idle thread can begin a call, a holder can release and wait, a waiting thread can always test |
| `Synch.ThreadActs` | os161/kern/thread/thread.c:603-659 | what the thread system does by itself changes no object |
| `Synch.NoAssertFails` | os161/kern/thread/synch.c:140-175 | in any run in which only holders release no assertion in P, lock_acquire, lock_release or cv_wait fails, and the one in V fails exactly when the count has reached 2^31-1 |
| `Synch.StepKeepsInv` | os161/kern/thread/synch.c:233-262 | every step keeps this, among them the release and reacquisition of the lock inside cv_wait |
| `Random.Drive` | os161/lib/libc/random.c:353-442 | any sequence of random() and setstate() calls on any arrays, on the pointers and words themselves: what comes out while an array is active is, in order, what its generator gives alone |
| `Random.Interleaving` | os161/lib/libc/random.c:353-442 | the same for generators as values, with the state each is left in |
| `Random.DrawsSeries` | os161/lib/libc/random.c:413-442 | the n-th number drawn is the upper 31 bits of the n-th new term of x[n] = x[n-deg] + x[n-sep] modulo 2^32 started with the state words |
| `Random.ShiftRegister` | os161/lib/libc/random.c:427-439 | the two cycling pointers make a shift register |
| `Random.AdvanceInjective` | os161/lib/libc/random.c:427-439 | no two states step to the same state |
| `Random.SeededAtStart` | os161/lib/libc/random.c:156-168 | srandom leaves the rear pointer where it began |
| `Random.SeededDraws` | os161/lib/libc/random.c:230-247 | what is drawn after srandom is the series that starts with the seed words, sep words in, without its first 10 * deg new terms |
| `Random.SeedsFollow` | os161/lib/libc/random.c:239-241 | the seed words are the congruential sequence from the seed |
| `Random.CongruentialIs` | os161/lib/libc/random.c:239-241 | that sequence multiplies by 1103515245 and adds 12345 modulo 2^32 |
| `Random.SmallestDraws` | os161/lib/libc/random.c:420-424 | the smallest generator draws its word times 1103515245 plus 12345 modulo 2^31 and keeps it |
| `Random.PlusIs` | os161/lib/libc/random.c:427-431 | words are added modulo 2^32 |
| `Random.KindFits` | os161/lib/libc/random.c:299-318 | initstate picks the largest generator whose words fit in the bytes given; degrees and separations are those of the trinomials |
| `Random.SetActiveHarmlessIff` | os161/lib/libc/random.c:339-371 | setstate of the active array changes nothing if and only if the draws since its word 0 was written are a multiple of the degree |
| `Random.SetActiveRewinds` | os161/lib/libc/random.c:364-371 | a concrete array where one draw and then setstate gives a number not due |
| `Random.SetActive` | os161/lib/libc/random.c:353-394 | the code does that to the active array |
| `Random.Generator.constructor` | os161/lib/libc/random.c:199-216 | the static variables describe the generator stored in the initial table |
| `Random.Generator.Next` | os161/lib/libc/random.c:413-442 | is one step of the generator; the front pointer stays sep after the rear one and both never wrap on one call |
| `Random.Generator.Srandom` | os161/lib/libc/random.c:230-247 | the state is the congruential seeds run ten times round |
| `Random.Generator.Setstate` | os161/lib/libc/random.c:353-394 | the generator becomes the one stored in the array given, and the old array stores the old generator |
| `Random.Generator.Initstate` | os161/lib/libc/random.c:281-332 | null exactly below 8 bytes; otherwise the array holds the freshly seeded largest generator that fits, and the old array stores the old one |
| `Format.NumberMeans` | os161/lib/libc/__printf.c:213-308 | the text of every numeric conversion is a field of the right prefix and of digits of base 8, 10 or 16 that read as the argument's magnitude, with its sign for %d |
| `Format.DigitsMean` | os161/lib/libc/__printf.c:404-424 | the digits of any number in any base, read positionally, give the number back |
| `Format.NoLeadingZero` | os161/lib/libc/__printf.c:400-424 | digits have no leading zero; 0 is "0" |
| `Format.FieldWidth` | os161/lib/libc/__printf.c:336-369 | a field is as wide as asked, or as its text if that is longer |
| `Format.TakesInParts` | os161/lib/libc/__printf.c:535-553 | the text of a format in two parts is the text of the first and that of the second with the arguments left, whatever state the first ends in |
| `Format.RendersPieces` | os161/lib/libc/__printf.c:462-553 | any format of text, %% and fields renders to the meanings of its pieces one after the other, each field taking the next argument and no other |
| `Format.TakesPiece` | os161/lib/libc/__printf.c:462-530 | each of d, o, u, p, x, s and c, with any modifiers, takes one argument and renders its number, its characters or "(null)", or its character, in the field; %% takes none and renders one % |
| `Format.OtherLetter` | os161/lib/libc/__printf.c:462-530 | a letter that is no conversion is printed itself in the field and takes no argument |
| `Format.ModifiersMean` | os161/lib/libc/__printf.c:150-211 | # and - count wherever they stand, the width is the number the digits spell, and a zero before it asks for zeros to fill |
| `Format.FieldLooks` | os161/lib/libc/__printf.c:331-376 | where prefix and body stand in a field and what fills it, for each alignment and fill |
| `Format.PlainText` | os161/lib/libc/__printf.c:468-475 | a format without % is its own text |
| `Format.RendersNumber` | os161/lib/libc/__printf.c:463-528 | the state machine fed any modifiers between % and d prints one field with the flags they add up to |
| `Format.WidthRead` | os161/lib/libc/__printf.c:177-206 | the digits of any width, read one by one, give that width |
| `Format.NumberFits` | os161/lib/libc/__printf.c:54 | every 32-bit number in base 8, 10 or 16 has at most 11 digits, so that the buffer of 12 holds it with its NUL |
| `Snprintf.Pf.Convert` | os161/lib/libc/__printf.c:383-432 | the loop that fills the buffer from the right gives the positional notation and stores only inside the buffer |
| `Snprintf.Pf.PrintStuff` | os161/lib/libc/__printf.c:330-369 | sends prefix, body and padding in the order of the field's flags |
| `Snprintf.Pf.Modifier` | os161/lib/libc/__printf.c:149-206 | updates the flags; its assertion on the character holds |
| `Snprintf.Pf.GetNum` | os161/lib/libc/__printf.c:213-308 | fetches magnitude, sign, base and prefix, also for the smallest int |
| `Snprintf.Pf.Send` | os161/lib/libc/__printf.c:461-528 | one character of the format sends the text and leaves the state the format's meaning says |
| `Snprintf.Pf.SendAll` | os161/lib/libc/__printf.c:535-553 | a whole format sends its whole text and counts it |
| `Snprintf.Snp.Send` | os161/lib/libc/snprintf.c:44-64 | the buffer holds the beginning of all that was sent, and behind it what it held before |
| `Snprintf.Vsnprintf` | os161/lib/libc/snprintf.c:69-112 | returns the length L of the whole text, stores exactly its first min(len-1, L) characters and a NUL (section 7.19.6.12 of ISO C99), leaves the rest of the buffer, and touches nothing for length 0 |
| `Snprintf.PrintThenParse` | os161/lib/libc/snprintf.c:69-112 | printing any int with any modifiers and reading it back with atoi gives the same int if and only if no zeros were added on the right or it is 0 |
| `Atoi.Atoi` | os161/lib/libc/atoi.c:20-72 | the loops compute the value of blanks, sign and digits modulo 2^32 taken as an int |
| `Atoi.ParseMeans` | os161/lib/libc/atoi.c:21-72 | for every text: blanks and tabs before it, a plus sign and whatever follows the digits change nothing; the value is the number the digits spell, negated after a minus sign, brought to 32 bits |
| `Atoi.Parts` | os161/lib/libc/atoi.c:21-72 | every text is blanks, a sign or none, digits or none, and a tail |
| `Atoi.WrappedMeans` | os161/lib/libc/atoi.c:21-72 | the result is the int congruent to the value modulo 2^32 |
| `Atoi.RoundTripIff` | os161/lib/libc/atoi.c:20-72 | the text of %d with any flags is read back as the same int if and only if it was not filled with zeros on the right, or the int is 0 |
| `Atoi.LeftZeroExample` | os161/lib/libc/__printf.c:365-368 | %-03d of 7 is not read back as 7 |
| `Bitmap.Map.constructor` | os161/kern/lib/bitmap.c:30-64 | all bits of the map are clear and the leftover ones set |
| `Bitmap.Map.Alloc` | os161/kern/lib/bitmap.c:72-94 | sets the lowest clear bit and no other, fails exactly when all are set; both assertions hold |
| `Bitmap.Map.Mark` | os161/kern/lib/bitmap.c:107-118 | sets that bit and no other |
| `Bitmap.Map.Unmark` | os161/kern/lib/bitmap.c:120-131 | clears that bit and no other |
| `Bitmap.Map.Test` | os161/kern/lib/bitmap.c:134-142 | tells whether the bit is set |
| `Mksfs.Maker.DoAllocBit` | os161/sbin/mksfs/mksfs.c:75-84 | sets that bit and no other; its assertion fails exactly when it was set |
| `Mksfs.Maker.WriteBitmap` | os161/sbin/mksfs/mksfs.c:86-114 | exactly when each of the four outcomes happens for every 32-bit size and any bad blocks; the map written marks exactly superblock, root inode, map and off-the-end bits, and no other block is written |
| `Sfs.MapRead` | os161/kern/fs/sfs/sfs_fs.c:39-73 | the map in memory is the map blocks of the disk in order; an error exactly when one of them cannot be read |
| `Sfs.MapWrite` | os161/kern/fs/sfs/sfs_fs.c:39-73 | a later read gives back the map as it is in memory; an error exactly when a map block cannot be written; no other block is written |
| `Sfs.Mount` | os161/kern/fs/sfs/sfs_fs.c:281-294 | the map is loaded as the disk holds it, whatever it shows; if it shows certain data blocks in use, the volume has exactly those in use; mounting fails exactly when the map cannot be read |
| `Sfs.Make` | os161/sbin/mksfs/mksfs.c:86-114 | on every volume of at least 3 blocks with at most 32 map blocks, the map mksfs writes shows nothing in use but what is reserved, and it fails exactly when a map block cannot be written |
| `Sfs.Remount` | os161/kern/fs/vfs/vfslist.c:508-521 | sync, unmount and mount keep exactly the same blocks in use although a clean map is not written; a dirty map that cannot be written leaves the volume mounted; the assertion that the map is clean at unmounting holds |
| `Sfs.Volume.Sync` | os161/kern/fs/sfs/sfs_fs.c:126-133 | after it the disk holds the map, although it writes only a dirty one; it fails, leaving the map dirty, exactly when a dirty map cannot be written; no other block is written |
| `Sfs.Volume.Take` | os161/kern/fs/sfs/sfs_vnode.c:60-78 | gives the lowest data block of the volume that is not in use, cleared on the disk, with no other block written; ENOSPC exactly when all are in use; an error with the block left in use exactly when it cannot be cleared; the panic is not reached |
| `Sfs.Volume.Alloc` | os161/kern/lib/bitmap.c:72-94 | marks the lowest data block of the volume that is not in use; fails exactly when all are |
| `Sfs.Volume.Give` | os161/kern/fs/sfs/sfs_vnode.c:83-89 | ends the use of that block only and makes the map dirty |
| `Sfs.MakeMountServe` | os161/kern/fs/sfs/sfs_fs.c:281-294 | from making the volume through mounting it to any sequence of requests, with remounts in between and any bad data blocks: every answer is the lowest data block not held at that moment, or no space exactly when all are held; the volume is made exactly when no map block is bad |
| `SfsLayout.WrapsIff` | os161/kern/include/kern/sfs.h:15-25 | a volume that is not empty has no map block if and only if it has 2^32-4095 blocks or more |
| `SfsLayout.MapFits` | os161/kern/include/kern/sfs.h:15-25 | otherwise the map has a bit for every block and less than one block of bits too many |
| `SfsLayout.Partition` | os161/kern/include/kern/sfs.h:15-25 | every bit of the map is either reserved or a data block inside the volume; data blocks are all but superblock, root inode and map |
| `Pids.EveryRunSafe` | os161/kern/thread/process.c:88-176 | in every run no step uses a NULL slot, a slot past the end or a freed node; a waitpid that returned gave the code the process with that pid passed to _exit; no exit is consumed twice |
| `Pids.SaidOnce` | os161/kern/userprog/sys__exit.c:19-32 | the code recorded for a process is the one of its only _exit and never changes |
| `Pids.WaitKeepsProcess` | os161/kern/userprog/sys_waitpid.c:23-66 | a wait keeps to the process that held the pid when it began, and the pid is given to no other while it lasts |
| `Pids.WaitReturns` | os161/kern/userprog/sys_waitpid.c:50-64 | in every run a waitpid gets past P exactly when its process has exited and it has not done so before, and then returns with slot and node freed |
| `Pids.PidsFresh` | os161/kern/thread/process.c:104-153 | a new process never gets the pid of a live one of the table, and gets the boot thread's pid if and only if it is the first |
| `Pids.FirstForkSharesPid` | os161/kern/thread/thread.c:70-71 | the first process forked has the boot thread's pid |
| `Pids.OneWaiter` | os161/kern/userprog/sys_waitpid.c:42-46 | no two threads wait for the same process |
| `Pids.ParentIff` | os161/kern/userprog/sys_waitpid.c:41-46 | in every run the parent test refuses no parent, and a thread it lets through is the parent if and only if it was forked before the process waited for and the boot thread did not fork that process |
| `Pids.StrangerWaits` | os161/kern/userprog/sys_waitpid.c:41-46 | a run in which a thread that got the pid of an exited parent may wait for its child |
| `Pids.FirstWaits` | os161/kern/userprog/sys_waitpid.c:41-46 | a run in which the first process may wait for another child of the boot thread |
| `Pids.PidTable.NoHole` | os161/kern/thread/process.c:70-85 | answers true exactly when there is a hole |
| `Pids.PidTable.FindProcessId` | os161/kern/thread/process.c:88-102 | the lowest hole, or the length |
| `Pids.FullIff` | os161/kern/thread/process.c:111-114 | pids run out exactly when all 256 slots are taken |
| `Pids.PidTable.AllocatePid` | os161/kern/thread/process.c:104-153 | exactly when each outcome happens: EAGAIN when all 256 slots are taken, the panic and the error when there is no memory, otherwise the lowest hole is filled and nothing else changes |
| `Pids.PidTable.FreePid` | os161/kern/thread/process.c:155-176 | exactly when each outcome happens: a pid out of range, the failing assertion for the two past the end that pass the test, the panic for an empty slot, otherwise that slot is emptied and its node freed |
| `CatMouse.EveryRunSafe` | os161/kern/asst1/catsem.c:194-250 | for any cats, mice, bowls, rounds and interleaving no assertion fails, those eating are of one kind, each at a bowl of its own that bears its mark, and the counters are the numbers of marks and of those eating |
| `CatMouse.AllDoneClean` | os161/kern/asst1/catsem.c:302-357 | when all are done every bowl is free and both counters are 0 |
| `CatMouse.StepKeepsInv` | os161/kern/asst1/catsem.c:194-250 | every access of a shared variable keeps the relation between marks, counters, the mutex and where the threads are |
| `CatMouseRuns.MovesBounded` | os161/kern/asst1/catsem.c:194-250 | apart from looking again at a barred bowl, the threads of any run make at most a number of moves fixed by their number and rounds, although attempts are given up and repeated |
| `CatMouseRuns.NeverStuck` | os161/kern/asst1/catsem.c:302-357 | in every run, as long as not all are done, some thread can move at once or after one look |
| `CatMouseRuns.StepProgress` | os161/kern/asst1/catsem.c:204-224 | every move lowers a bound on the moves left, a given-up attempt being paid for by another thread's eating, and looking does not raise it |
| `CatMouseMeals.EveryoneEats` | os161/kern/asst1/catsem.c:194-250 | in every run a cat or mouse that is done has, in each of its rounds, marked a bowl, said that it starts and that it ends eating, and freed that bowl |
| `CatMouseMeals.RunFeeds` | os161/kern/asst1/catsem.c:194-250 | at every moment it has had a meal for each round done and a part of the next |
| `CatMouseMeals.ChoosesAny` | os161/kern/asst1/catsem.c:197 | random() chooses the bowl and any can be chosen |
| `Pseudorand.Softc.Random` | os161/kern/dev/generic/pseudorand.c:20-39 | the seed becomes 16807 times itself modulo 2^31-1, stays in 1..2^31-2, and the result is in 0..2^31-3 |
| `Pseudorand.Softc.Randoms` | os161/kern/dev/generic/pseudorand.c:20-39 | after any number of calls the seed is the first one times that power of 16807 modulo 2^31-1, and so is each number on the way |
| `Pseudorand.Schrage` | os161/kern/dev/generic/pseudorand.c:26-31 | the split into hi and lo gives the residue exactly with every intermediate inside signed 32 bits |
| `Pseudorand.NextUndone` | os161/kern/dev/generic/pseudorand.c:15-18 | multiplying by 1407677000 undoes a step, so that no step leads to 0 |
| `Pseudorand.NextInjective` | os161/kern/dev/generic/pseudorand.c:15-18 | distinct seeds never step to the same seed |

## Left out

- MallocHeap.Heap.Free: demands a pointer that is aligned and does not have user data that looks like an in-use header in front of it, because the code cannot tell such a pointer from a live one.
- Kheap.SubpageAllocator.SubpageKfree: demands that a block is not free already, because the code does not detect a double free.
- Queue.Ring.Grow: demands a size of at most 2^30, because doubling beyond that overflows an int.
- Threads.ThreadSystem.Fork: demands fewer than 2^28 threads, so that the ring buffer's size stays an int. It is not shown that a switch never allocates: the ring needs one slot more than is preallocated and emptying a large zombie array drops its storage.
- Random.Generator.Setstate: demands an array that initstate made; garbage in word 0 is not modelled.
- Snprintf.Pf.SendAll: field widths and the character count are unbounded numbers, and an argument missing or of the wrong type reads as 0 or "(null)", where C leaves it open.
- Bitmap.Map.Mark: demands a clear bit inside the map, as the source asserts; the same for Bitmap.Map.Unmark with a set bit.
- Condition variables: that the thread woken by a signal is the one that takes it is not claimed, since all waiters share one flag.
- Scheduling is not assumed to be fair: that a thread which looks at a barred bowl or flag gives way in the end is left to the scheduler.
- The initial table of random.c is not shown to be what initstate(1, ..., 128) would make.
- Kills of faulting processes, which free a pid on their own, and the panic shutdown of the thread system.
- Large kernel allocations, the coremap, paging, address spaces and swapping.
- Device drivers, the console, the VFS layer, SFS files and directories, the user programs and the host compatibility code.
