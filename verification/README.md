# Verified models of the x64BareBones kernel and its disk and image tools

The project models the stateful cores of the kernel and of two host tools in Dafny, and proves
what they keep over whole runs.

| files | what they model |
|---|---|
| `MyMath.dfy`, `Bitmap.dfy`, `PageAllocator.dfy`, `AllocatorRuns.dfy`, `ProcessHeap.dfy`, `Heaps.dfy` | the page allocator over its bitmap of 32-bit words, one process's heap on top of it, and all heaps together |
| `Sync.dfy`, `ProdCons.dfy` | semaphores, mutexes and their wait lists; the shell's producer/consumer program as an interleaved step system over them |
| `Scheduling.dfy`, `SchedulerRuns.dfy`, `SchedulerKills.dfy`, `SchedulerRing.dfy` | the two-level round-robin scheduler: on values, over runs, with kills, and as linked nodes walked by loops |
| `KernelRuns.dfy`, `KernelIdle.dfy`, `KernelCalls.dfy`, `KernelResume.dfy`, `KernelHang.dfy` | scheduler and wait lists together; what keeps process 0 going; the semaphore and mutex calls on the linked scheduler; blocked threads that go on; two runs that hang |
| `ProdConsKernel.dfy`, `ProdConsResumed.dfy` | the producer/consumer program run by that scheduler, and a run of it that goes wrong |
| `BmfsDirectory.dfy`, `BmfsFiles.dfy`, `BmfsCreate.dfy`, `BmfsRuns.dfy`, `BmfsOverlap.dfy`, `BmfsFull.dfy`, `BmfsVolume.dfy` | the BMFS utility: placement of extents, the disk as a map from names to bytes, and the code that patches the directory in place |
| `Pipe.dfy`, `PipeNames.dfy`, `PipeTable.dfy`, `PipeKernel.dfy` | pipes: the ring buffer, the names, all pipes together over runs, and whom they put to sleep and wake on the scheduler |
| `Image.dfy` | the module packer, the loader and memcpy |
| `Options.dfy`, `Sequences.dfy`, `Bytes.dfy`, `Statuses.dfy` | shared types: options, bytes, thread and process states |

Code that changes state is a class or a method with loops, proved equal to a specification
function; lemmas then say what holds of that function over every run.

What the models take for granted, and how they treat C:

- A system call is one atomic step (interrupt gates, `Kernel/interruptions.c:56`); `insertItem`
  and `removeItem` are two user steps each. Calls are made by the current thread of the current
  process, in whatever state it is.
- A blocked thread can go on. The process switch does not pick a thread anew
  (`Kernel/scheduler.c:42-63`), so a thread that blocks on the last tick of its process goes on
  when the process does (`YieldReplacesExactly`, `ComesBack`, `BlockedThreadIsResumed`), and so
  does one whose blocked process is woken for another thread (`WakeLeavesStaleExactly`). A call
  can then block a thread that waits already; so can a read of an empty pipe, which blocks a
  thread of the pipe's receiver, numbered like the caller's, whatever it waits for
  (`Kernel/pipefs.c:72-77`). Threads and wait lists stay in agreement exactly as long as no call
  does that (`CallKeepsOkExactly`, `KernelStaysWellFormed`). Where every process has one thread
  only the pipe read can do it (`OneThreadIsNeverResumedBlocked`).
- The results that assume process 0 can always be switched to (without it the search for a process
  need not end) get this from what the calls do: process 0 is init, which makes none
  (`Kernel/kernel.c:336-345`), so only a read of an empty pipe to it can block it
  (`CallKeepsIdleExactly`, `KernelNeverStops`).
- A woken thread just continues. So the mutex does not exclude under contention
  (`ExclusionFails`), and the producer/consumer theorems rest on the two semaphores and on each
  index having one owner.
- Pages from the allocator are taken to be zero, ids passed to semaphore and mutex calls to
  exist, and allocations inside list code to succeed.
- C arithmetic is written out where it matters: truncating division, the wrap of the page count
  to int, 64-bit subtraction and its cut to int in the sort comparator, 32-bit pid parsing.

Where a promise does not hold of the code, the model keeps the code and the project proves when
it holds:

- `PagesCoverRequest`: above INT_MAX pages, the page count wraps and too little is reserved.
- `MapFitsExactly`: the allocator's map can end past its region, because map words are budgeted
  as bytes.
- `SemaphoreSafety`: false for a negative start; `PassedIsBounded` is the bound for every start.
- `UnblockKeepsOkExactly`: a wake-up for another cause than the thread's own can leave a ready
  process with nothing to run, and then the scheduler never returns. Two runs from boot get
  there: one by a resumed thread that blocks again (`ResumedThreadHangs`), one by the pipe read
  above (`PipeReadHangs`). When no call blocks a thread that waits already it cannot happen
  (`KernelStaysWellFormed`, `KernelNeverStops`).
- `RemovedIsPrefixOfInserted`: the program can take an item nobody stored, when its consumer is
  resumed while it waits (`ResumedConsumerTakesNothing`; on the scheduler, from boot,
  `ProgramTakesNothing`). `MoveKeepsInvExactly` and `ProgramOnScheduler` have the condition.
- `ActKeepsOwnSleepsExactly`: a read of an empty pipe by a process other than the receiver puts to
  sleep a thread that did not read, and does not block the reader. `BytesWakeExactly`: accepted
  bytes do not reach a reader whose process is blocked for another cause.
- `BlockingKeepsCountExactly`: blocking a dead process leaves it in the ring, not counted.
- `CreateIsSafeExactly`: create() can place a file over another one, because past an unused
  record it measures from the deleted file's end (`FilesCanOverlap`); without an end marker it
  counts no files at all, and reusing record 0 then cuts off all the others
  (`ReuseOfFirstRecordLosesFiles`, and the run in `FullDirectoryLosesFiles`). The file system's
  description (`BareMetal File System.md:52`) says unused records are ignored; the model follows
  the code.

Verify with `dafny verify dfyconfig.toml`.

## Model

| member | source | states |
|---|---|---|
| `MyMath.DivCeilIsCeiling` | x64barebones/Kernel/include/myMath.h:7-15 | DIV_CEIL is the true ceiling of x/y for every sign of x and every y other than 0, although C division truncates |
| `MyMath.ConversionsKeepLowBits` | x64barebones/Kernel/memoryManager.c:68 | Conversion to int and to uint64_t keeps the value modulo 2^32 and 2^64; with their ranges this determines them |
| `Bitmap.BitAfterSet` | x64barebones/Kernel/include/bitmap.h:21-29 | In one signed 32-bit word, OR with the set mask makes exactly the masked bit read 1; every other bit reads as before, the sign bit included |
| `Bitmap.BitAfterReset` | x64barebones/Kernel/include/bitmap.h:21-31 | AND with the reset mask makes exactly the masked bit read 0 |
| `Bitmap.WordSetAffectsOnlyItsBit` | x64barebones/Kernel/include/bitmap.h:15-31 | Of all positions in one sector, setting p makes p unavailable and no other |
| `Bitmap.WordResetAffectsOnlyItsBit` | x64barebones/Kernel/include/bitmap.h:15-31 | Of all positions in one sector, resetting p makes p available and no other |
| `Bitmap.SetBit` | x64barebones/Kernel/bitmap.c:3-9 | Over the whole map, a position is available afterwards exactly when it was and is not the one set |
| `Bitmap.ResetBit` | x64barebones/Kernel/bitmap.c:11-17 | Over the whole map, a position is available afterwards exactly when it was or is the one reset |
| `PageAllocator.FirstFitIsLeast` | x64barebones/Kernel/memoryManager.c:67-93 | Naive first fit, the reference for allocate: the least start of a long enough free run, and none exactly when there is no such run |
| `PageAllocator.LeastIsFirstFit` | x64barebones/Kernel/memoryManager.c:67-93 | Conversely, a free run with none starting before it is the one first fit names |
| `PageAllocator.PagesCoverRequest` | x64barebones/Kernel/memoryManager.c:68 | The page count kept in an int is the ceiling, and covers the request, if and only if the request is at most INT_MAX pages |
| `PageAllocator.HugeRequestTakesNoPages` | x64barebones/Kernel/memoryManager.c:68 | A concrete request (16 TiB) whose page count wraps to 0: whatever is in use, it is granted at block 0 and takes no page |
| `PageAllocator.SpaceForIncreases` | x64barebones/Kernel/memoryManager.c:27-51 | The space budgeted for n blocks grows by at least a page with every block |
| `PageAllocator.EnoughSpace` | x64barebones/Kernel/memoryManager.c:46-51 | enoughSpace holds exactly when the blocks, a pointer and one byte per map word fit the region |
| `PageAllocator.GetBlocksAmount` | x64barebones/Kernel/memoryManager.c:27-44 | Both loops end, and the result is the largest n whose budget n*4096 + 8 + ceil(n/32) fits the region |
| `PageAllocator.BlockCountIs` | x64barebones/Kernel/memoryManager.c:27-44 | Which block count the two loops arrive at, from the whole pages and the spare bytes of the region |
| `PageAllocator.MapFitsExactly` | x64barebones/Kernel/memoryManager.c:46-61 | For every region that holds a page, the map of 4-byte words ends inside it if and only if its spare bytes pass a test on the region size alone |
| `PageAllocator.LargeMapsNeverFit` | x64barebones/Kernel/memoryManager.c:46-61 | In regions of 172 MiB and more the map always ends past the region |
| `PageAllocator.MapCanOverrun` | x64barebones/Kernel/memoryManager.c:46-61 | A concrete region (65 pages and 11 bytes) whose map ends past the region |
| `PageAllocator.MissRulesOutProbedStretch` | x64barebones/Kernel/memoryManager.c:73-81 | A used block found while probing rules out every start inside the probed stretch |
| `PageAllocator.MemoryManager.constructor` | x64barebones/Kernel/memoryManager.c:11-61 | Initialisation takes the largest block count that fits and starts with every block free |
| `PageAllocator.MemAllocatorInit` | x64barebones/Kernel/memoryManager.c:11-25 | Returns 0 and initialises nothing exactly when the region holds no page; otherwise every block starts free and the block count is the largest that fits |
| `PageAllocator.MemoryManager.Probe` | x64barebones/Kernel/memoryManager.c:74-78 | The inner loop stops with a wholly free stretch, or at the first used block |
| `PageAllocator.MemoryManager.Scan` | x64barebones/Kernel/memoryManager.c:69-88 | The skipping scan finds exactly what naive first fit finds, for every page count an int can hold, negative ones included |
| `PageAllocator.MemoryManager.Allocate` | x64barebones/Kernel/memoryManager.c:67-93 | Returns the address of the first fit and marks exactly its blocks, or NULL and changes nothing when there is no fit |
| `PageAllocator.MemoryManager.Reserve` | x64barebones/Kernel/memoryManager.c:95-101 | Marks exactly the blocks of the range |
| `PageAllocator.MemoryManager.Deallocate` | x64barebones/Kernel/memoryManager.c:107-121 | Frees exactly the blocks of the range, or refuses and changes nothing when it ends past the last block |
| `AllocatorRuns.AllocateKeepsWellFormed` | x64barebones/Kernel/memoryManager.c:67-93 | An allocation keeps live extents disjoint, in range, off the baseline, and the used set their union |
| `AllocatorRuns.DeallocateKeepsWellFormed` | x64barebones/Kernel/memoryManager.c:107-121 | So does a deallocation of any live extent |
| `AllocatorRuns.RunsAllocateDisjointly` | x64barebones/Kernel/memoryManager.c:67-121 | After any run: live allocations pairwise disjoint and in range; a block is used exactly when one live allocation owns it; the used count is the sum of the sizes |
| `AllocatorRuns.DeallocateUndoesAllocate` | x64barebones/Kernel/memoryManager.c:67-121 | Freeing what was just allocated gives back the same pool |
| `AllocatorRuns.Replay` | x64barebones/Kernel/memoryManager.c:67-121 | The real bitmap refines the pool over any list of requests: bit k is set exactly when one live allocation owns block k |
| `ProcessHeap.IntSizesDoNotWrap` | x64barebones/Kernel/process.c:63-79 | No int byte count, even a negative one turned into uint64_t, makes the page count wrap |
| `ProcessHeap.AppendKeepsPool` | x64barebones/Kernel/process.c:63-79 | Linking a node at the end of the heap list is two allocations, and keeps all extents disjoint |
| `ProcessHeap.RemoveKeepsPool` | x64barebones/Kernel/process.c:87-99 | Freeing node i frees its data blocks and its own page and nothing else |
| `ProcessHeap.Process.Pmalloc` | x64barebones/Kernel/process.c:63-79 | Returns the first fit, appends one node, and keeps every heap block disjoint from the others and from the baseline |
| `ProcessHeap.Process.Pfree` | x64barebones/Kernel/process.c:82-85 | Removes the first node with that address; an unknown address changes nothing |
| `ProcessHeap.Process.PfreeR` | x64barebones/Kernel/process.c:87-99 | The recursive walk removes exactly that node and frees exactly its blocks |
| `ProcessHeap.Process.FreeHeap` | x64barebones/Kernel/process.c:101-109 | The allocator is back to exactly the blocks in use before the heap existed |
| `ProcessHeap.HeapConservation` | x64barebones/Kernel/process.c:63-109 | Pages in use are the baseline plus, for each node, one page and the pages of its data |
| `Heaps.SplitPool` | x64barebones/Kernel/process.c:63-109 | A set of live extents is well formed if and only if one heap is beside all the others, and the others are on their own |
| `Heaps.OneHeapChanges` | x64barebones/Kernel/process.c:63-99 | What one process does to its heap leaves all heaps disjoint |
| `Heaps.HeapLeaves` | x64barebones/Kernel/process.c:101-109 | When one heap is freed the others stay well formed |
| `Heaps.OutsideGrows` | x64barebones/Kernel/memoryManager.c:67-93 | Any other allocation meets no heap |
| `Heaps.FreeingKeepsHeapsExactly` | x64barebones/Kernel/memoryManager.c:107-121 | Freeing any blocks keeps all heaps well formed, the blocks now outside fewer, if and only if no block freed belongs to a heap |
| `Heaps.Heaps.Pmalloc` | x64barebones/Kernel/process.c:63-79 | One process's pmalloc appends a node to its own heap and leaves every other heap as it was |
| `Heaps.Heaps.Pfree` | x64barebones/Kernel/process.c:82-99 | One process's pfree removes the first such node of its own heap and leaves every other heap as it was |
| `Heaps.Heaps.FreeHeap` | x64barebones/Kernel/process.c:101-109 | Frees exactly the blocks of that heap, the others and all other allocations untouched |
| `Heaps.Heaps.Allocate` | x64barebones/Kernel/memoryManager.c:67-93 | The kernel's own allocations in between return the first fit, which joins the blocks outside the heaps, and change no heap |
| `Heaps.Heaps.Deallocate` | x64barebones/Kernel/memoryManager.c:107-121 | The kernel's own deallocations in between (list nodes: mutex.c:109, semaphores.c:118) free exactly their range; all heaps stay well formed if and only if it meets none of them |
| `Heaps.HeapsConserve` | x64barebones/Kernel/process.c:63-109 | With any number of processes and other allocations and deallocations in between: pages in use are those outside the heaps plus, for each node of each heap, one page and the pages of its data |
| `Sync.SemaphoreAccount` | x64barebones/Kernel/semaphores.c:30-53 | Over any run status = start + ups - downs, and no one waits at or above zero |
| `Sync.SemaphoreSafety` | x64barebones/Kernel/semaphores.c:30-122 | The downs made and no longer on the wait list never exceed start + ups, in every run of any number of threads and although Up wakes all waiters, if and only if start >= 0 |
| `Sync.PassedIsBounded` | x64barebones/Kernel/semaphores.c:30-122 | For every start, negative ones included, the downs made and no longer on the wait list never exceed start + ups, or 0 if that is negative |
| `Sync.StepKeepsCount` | x64barebones/Kernel/semaphores.c:89-122 | A call that does not block a thread that waits already keeps, for each thread: on one wait list once if blocked, on none otherwise |
| `Sync.StepKeepsAgreementExactly` | x64barebones/Kernel/semaphores.c:89-122 | Any call by any thread, blocked or not, keeps this for all threads if and only if it does not block a thread that waits already |
| `Sync.RunAgreesExactly` | x64barebones/Kernel/mutex.c:28-113 | In every state of a run: blocked exactly when on exactly one wait list, once, with waiters only at a locked mutex or a semaphore below zero; if and only if no call of the run blocks a thread that waits already |
| `Sync.NoLostWakeup` | x64barebones/Kernel/mutex.c:102-113 | Whoever is blocked after such a run waits at a semaphore still below zero or a mutex still locked |
| `KernelRuns.WakeWaitersEffect` | x64barebones/Kernel/semaphores.c:111-122 | Draining a list of threads that really wait wakes exactly those, at thread and process level, and keeps the scheduler well formed |
| `KernelRuns.CallKeepsOkExactly` | x64barebones/Kernel/scheduler.c:155-191 | Any call by the current thread, blocked or not, ends; it keeps the scheduler well formed and the wait lists in agreement with it if and only if it blocks no thread that waits already; nothing is assumed about wake-ups |
| `KernelRuns.DownKeepsOkExactly` | x64barebones/Kernel/semaphores.c:37-109 | A down keeps them if and only if it does not block or its caller does not wait already |
| `KernelRuns.LockKeepsOkExactly` | x64barebones/Kernel/mutex.c:33-100 | A mutexDown keeps them if and only if the mutex is free or the caller does not wait already |
| `KernelRuns.BlockSelfKeepsOkExactly` | x64barebones/Kernel/systemCalls.c:38-49 | A thread that blocks itself for another cause keeps them if and only if it does not wait already |
| `KernelRuns.PipeBlockKeepsOkExactly` | x64barebones/Kernel/pipefs.c:72-77 | Blocking a thread for an empty pipe keeps wait lists and states in agreement if and only if the thread is on no wait list |
| `KernelRuns.KernelStaysWellFormed` | x64barebones/Kernel/scheduler.c:29-58 | From boot, while process 0 can be switched to: every call ends and every state of the run is well formed if and only if no call blocks a thread that waits already; then every unblocked process has a thread to run, and a thread is blocked for a semaphore or mutex exactly when it is on exactly one wait list, once |
| `KernelIdle.CallKeepsIdleExactly` | x64barebones/Kernel/scheduler.c:155-166 | A call leaves process 0 one that can be switched to if and only if it does not block the last of its threads that is ready |
| `KernelIdle.KernelNeverStops` | x64barebones/Kernel/kernel.c:336-345 | From boot, with no hypothesis on states: if no call blocks a thread that waits already or a thread of init, every call ends and every state of the run is well formed |
| `KernelRuns.BlockedWaitsForSomething` | x64barebones/Kernel/mutex.c:102-113 | Who is blocked in the scheduler waits at a semaphore still below zero or a mutex still locked |
| `KernelRuns.NoLostProcessWakeup` | x64barebones/Kernel/scheduler.c:147-177 | In such a run, when the threads of a process block only themselves and for one cause, the process is blocked only if none of its threads could run; if the cause is the mutex, each of its threads waits at something still closed |
| `KernelRuns.CallsAreSyncSteps` | x64barebones/Kernel/semaphores.c:30-122 | The calls on the scheduler, by whichever thread is current, are the atomic steps on thread states that the producer/consumer program is proved over |
| `KernelResume.YieldReplacesExactly` | x64barebones/Kernel/scheduler.c:194-205 | A blocked thread that yields leaves its process to another thread if and only if there are ticks left or the process is blocked; otherwise the process can be switched to again and goes on in the blocked thread |
| `KernelResume.SwitchResumesExactly` | x64barebones/Kernel/scheduler.c:42-63 | The process switch resumes a blocked thread if and only if the current thread of the chosen process is blocked |
| `KernelResume.WakeLeavesStaleExactly` | x64barebones/Kernel/scheduler.c:147-177 | A wake-up that makes a blocked process ready leaves it with a blocked thread to go on in if and only if its current thread is blocked and not the one woken |
| `KernelResume.OneThreadIsNeverResumedBlocked` | x64barebones/Userland/SampleCodeModule/systemCalls.c:5-111 | From boot, where every process has one thread and yields after a blocking call, as the user library does: no blocked thread ever makes a call, and every state is well formed |
| `KernelResume.ComesBack` | x64barebones/Kernel/scheduler.c:42-63 | From any state: a ready process that was switched away from is current again within the bound of BoundedWaiting, and goes on in the thread it left, in whatever state, with all other processes only switched |
| `KernelHang.BlockedThreadIsResumed` | x64barebones/Kernel/scheduler.c:42-63 | A run from boot of harmless calls by running threads, with no pipe read, that ends in a RUNNING process whose current thread waits for a semaphore |
| `KernelHang.ResumedThreadHangs` | x64barebones/Kernel/scheduler.c:258-281 | A run from boot without any pipe read after which nextThread never returns: the resumed thread reads the keyboard, the other one waits, and raising the semaphore makes the process ready with nothing to run |
| `KernelHang.PipeReadHangs` | x64barebones/Kernel/pipefs.c:72-77 | Another such run, in which the second state comes from a pipe read by process 0 and the resumed thread makes no call |
| `KernelCalls.Synchronization.CreateSemaphore` | x64barebones/Kernel/semaphores.c:11-28 | Appends a semaphore with the given status and no waiters; ids count up |
| `KernelCalls.Synchronization.CreateMutex` | x64barebones/Kernel/mutex.c:9-26 | Appends an unlocked mutex with no waiters; ids count up |
| `KernelCalls.Synchronization.SemaphoreUp` | x64barebones/Kernel/semaphores.c:30-35 | On the linked scheduler: one more, and all waiters and their processes woken once the count is not negative |
| `KernelCalls.Synchronization.UnlockSemaphoreProcess` | x64barebones/Kernel/semaphores.c:111-122 | The draining loop ends, wakes every waiter, and empties the list |
| `KernelCalls.Synchronization.SemaphoreDown` | x64barebones/Kernel/semaphores.c:37-109 | On the linked scheduler: one less, and the current thread, blocked or not, queued and blocked when below zero, its process too if no thread is ready; all stays well formed if and only if it blocks no thread that waits already |
| `KernelCalls.Synchronization.WaitAtSemaphore` | x64barebones/Kernel/semaphores.c:89-109 | Queues the current thread in front of the waiters and blocks it |
| `KernelCalls.Synchronization.MutexUp` | x64barebones/Kernel/mutex.c:28-31 | Wakes all waiters and their processes and leaves the mutex unlocked for whoever comes; the loop of lines 102-113 ends |
| `KernelCalls.Synchronization.WaitAtMutex` | x64barebones/Kernel/mutex.c:81-100 | Queues the current thread in front of the waiters and blocks it |
| `KernelCalls.Synchronization.MutexDown` | x64barebones/Kernel/mutex.c:33-100 | Locks a free mutex; at a locked one queues and blocks the current thread, blocked or not, its process too if no thread is ready; all stays well formed if and only if it blocks no thread that waits already |
| `KernelCalls.StartKernel` | x64barebones/Kernel/kernel.c:398-401 | Adding init to the empty linked scheduler gives the state from which all runs start |
| `ProdCons.MoveKeepsInvExactly` | x64barebones/Userland/SampleCodeModule/shell.c:256-309 | Every step of producer, consumer or any other thread keeps the invariant tying counters, wait lists, indices and buffer if and only if it is not a step, or a change of state, of one of the two while it waits |
| `ProdCons.FollowKeepsInvExactly` | x64barebones/Userland/SampleCodeModule/shell.c:256-309 | The invariant holds in every state of an interleaving if and only if neither of the two moves while it waits |
| `ProdCons.ProducerHasRoom` | x64barebones/Userland/SampleCodeModule/shell.c:268-271 | A producer past its down has a free slot even when it does not hold the mutex |
| `ProdCons.ConsumerHasItem` | x64barebones/Userland/SampleCodeModule/shell.c:287-290 | A consumer past its down has an item even when it does not hold the mutex |
| `ProdCons.CharOf` | x64barebones/Userland/SampleCodeModule/shell.c:261 | The cast to char: between -128 and 127, and congruent modulo 256 |
| `ProdCons.RemovedIsPrefixOfInserted` | x64barebones/Userland/SampleCodeModule/shell.c:244-309 | In every interleaving in which neither moves while it waits, the items removed are, in order, a prefix of those inserted; 0 to 100 are in the buffer; the k-th inserted is k as a char: k itself up to 127, congruent modulo 256 after that |
| `ProdCons.ResumedConsumerTakesNothing` | x64barebones/Userland/SampleCodeModule/shell.c:287-290 | Without that: the consumer, blocked by its first down and resumed, removes an item although none was inserted |
| `ProdCons.NeverDeadlocks` | x64barebones/Userland/SampleCodeModule/shell.c:256-298 | In every state of such an interleaving the producer or the consumer does not wait |
| `ProdCons.LockedHasOwnerInside` | x64barebones/Kernel/mutex.c:28-44 | In every state of such an interleaving a locked mutex has an unblocked thread in the critical section |
| `ProdCons.ExclusionFails` | x64barebones/Kernel/mutex.c:33-37 | A reachable state in which both threads are inside the critical section |
| `ProdCons.ItemBuffer.InsertItem` | x64barebones/Userland/SampleCodeModule/shell.c:300-303 | On the globals, insertItem is the two producer steps in order |
| `ProdCons.ItemBuffer.RemoveItem` | x64barebones/Userland/SampleCodeModule/shell.c:305-309 | On the globals, removeItem is the two consumer steps, and returns the item they record |
| `ProdConsKernel.ProgramFits` | x64barebones/Userland/SampleCodeModule/shell.c:256-298 | On the scheduler, with any ids for the program's objects: whenever one of the two threads is current, blocked or not, its next step is possible, and the kernel's objects and thread states stay those of the program |
| `ProdConsKernel.OnNoOtherList` | x64barebones/Kernel/semaphores.c:89-109 | The two threads are on no wait list but the program's own, however many others there are |
| `ProdConsKernel.ActKeepsExactly` | x64barebones/Userland/SampleCodeModule/shell.c:256-309 | Among the calls of all other threads and the scheduler's: an act keeps kernel and program in order if and only if the thread of the program that acts does not wait, or the call of another blocks no thread that waits |
| `ProdConsKernel.ProgramOnScheduler` | x64barebones/Userland/SampleCodeModule/shell.c:229-309 | The program's runs on the scheduler, among any other processes: they are interleavings of ProdCons, removed is a prefix of inserted, at most 100 are in between and one thread does not wait, as long as no thread of it acts while it waits; for the invariant this is exact |
| `ProdConsResumed.ProgramTakesNothing` | x64barebones/Userland/SampleCodeModule/shell.c:229-298 | A run from boot, harmless until the program is loaded, in which the process switch resumes the waiting consumer and it takes an item nobody inserted |
| `Scheduling.FirstReadyIsNearest` | x64barebones/Kernel/scheduler.c:52-55 | The search ends at the READY node nearest in ring order, and finds one exactly when there is one |
| `Scheduling.SwitchLeavesDead` | x64barebones/Kernel/scheduler.c:42-57 | A switch never makes a dead process current |
| `SchedulerRuns.StepKeepsOk` | x64barebones/Kernel/scheduler.c:29-58 | Any admissible event finds the loops it enters terminating, and keeps the scheduler well formed |
| `SchedulerRuns.YieldCallsExactly` | x64barebones/Kernel/scheduler.c:194-205 | A yield changes nothing if and only if neither the current process nor its current thread is blocked or dead; otherwise it is runScheduler with no tick left, for the process or only for its threads |
| `SchedulerRuns.ThreadCheckKeepsOk` | x64barebones/Kernel/scheduler.c:258-281 | The thread switch of a process with a usable thread ends and keeps at most its current thread RUNNING |
| `SchedulerRuns.ThreadCheckExactly` | x64barebones/Kernel/scheduler.c:258-281 | A thread check counts a tick, or makes the nearest READY thread current and RUNNING and a RUNNING one READY; nothing else of the process changes |
| `SchedulerRuns.BlockThreadExactly` | x64barebones/Kernel/scheduler.c:155-166 | Blocking a thread ends its turn; the process is blocked too, and the quantum over, if and only if no other thread of it is READY, RUNNING ones not counting; nothing else changes |
| `SchedulerRuns.BlockKeepsOk` | x64barebones/Kernel/scheduler.c:155-166 | Blocking a thread keeps it: a process left without a ready thread is blocked |
| `SchedulerRuns.UnblockAllKeepsOk` | x64barebones/Kernel/scheduler.c:179-191 | Waking all threads of a cause keeps it |
| `SchedulerRuns.UnblockKeepsOkExactly` | x64barebones/Kernel/scheduler.c:147-177 | A single wake-up keeps it if and only if the thread, or not the process, is blocked for that cause, or another thread can run |
| `SchedulerRuns.SchedulerStaysWellFormed` | x64barebones/Kernel/scheduler.c:29-58 | From boot, while pid 0 is never blocked and nothing is killed: every search ends, only the current process and current threads are RUNNING, every unblocked process has a thread to run |
| `SchedulerRuns.SwitchBringsNearer` | x64barebones/Kernel/scheduler.c:45-57 | A switch makes a ready process current or strictly shrinks its distance; it cannot skip it |
| `SchedulerRuns.BudgetShrinks` | x64barebones/Kernel/scheduler.c:29-58 | Every event other than a new process keeps the bound on the calls left, each call using one up |
| `SchedulerRuns.BoundedWaiting` | x64barebones/Kernel/scheduler.c:29-58 | With n processes, one that stays READY becomes current within (n-1)*(QUANTUM+1) calls of runScheduler, whatever the others do |
| `SchedulerRuns.ThreadCheckBringsNearer` | x64barebones/Kernel/scheduler.c:258-281 | A thread check uses up budget: it counts a tick, or brings the waiting thread strictly nearer, never skipping it |
| `SchedulerRuns.BoundedThreadWaiting` | x64barebones/Kernel/scheduler.c:258-281 | With n threads in a process, one that stays ready becomes current within (n-1)*(THREAD_QUANTUM+1) thread checks of that process, whatever blocks and wakes |
| `SchedulerKills.UnlinkingBringsNearer` | x64barebones/Kernel/scheduler.c:122-138 | Taking a node out of the ring brings every waiting place no further from the current one |
| `SchedulerKills.CallUsesBudget` | x64barebones/Kernel/scheduler.c:29-58 | Every event, a kill included, keeps the bound on the calls left, each call using one up |
| `SchedulerKills.BoundedWaitingWithKills` | x64barebones/Kernel/scheduler.c:29-138 | With n processes, one that stays READY becomes current within (n-1)*(QUANTUM+1) calls of runScheduler although killed processes leave the ring on the way, the current one included |
| `SchedulerRing.FindReadyThread` | x64barebones/Kernel/scheduler.c:276-279 | The walk ends at the nearest ready thread |
| `SchedulerRing.SwitchThread` | x64barebones/Kernel/scheduler.c:267-281 | nextThread, without dead threads, computes the specified thread switch |
| `SchedulerRing.AllThreadsAreBlocked` | x64barebones/Kernel/scheduler.c:343-354 | True exactly when no thread is READY |
| `SchedulerRing.UnblockAllThreadsOf` | x64barebones/Kernel/scheduler.c:179-191 | One pass over the thread ring wakes every thread blocked for the cause, and the process with the first |
| `SchedulerRing.LinkedInKeepsRingOk` | x64barebones/Kernel/scheduler.c:78-85 | Linking behind the head keeps pid 0 first, pid 1 last and pids distinct |
| `SchedulerRing.KillKeepsRingOk` | x64barebones/Kernel/scheduler.c:90-97 | Marking a process DEAD keeps the ring, with queueSize one below the node count |
| `SchedulerRing.BlockingKeepsCountExactly` | x64barebones/Kernel/scheduler.c:140-145 | Blocking a process keeps queueSize equal to the nodes that are not dead if and only if the process is not the dead one |
| `SchedulerRing.BypassingMakesCircle` | x64barebones/Kernel/scheduler.c:122-138 | Once bypassed, the remaining nodes are one circle with the same head |
| `SchedulerRing.UnlinkedKeepsRingOk` | x64barebones/Kernel/scheduler.c:122-138 | Without the dead node the ring is well formed and has queueSize nodes |
| `SchedulerRing.Scheduler.GetProcessWithPid` | x64barebones/Kernel/scheduler.c:108-120 | The walk from the second node round to the head finds the node with that pid, or none |
| `SchedulerRing.Scheduler.AddProcessToQueue` | x64barebones/Kernel/scheduler.c:72-88 | Links the node behind the head of the circle, or alone; currentProcess stays on its node |
| `SchedulerRing.Scheduler.AddProcess` | x64barebones/Kernel/scheduler.c:65-70 | The new process gets the next pid and one ready thread, and is linked in second: on the state, the scheduler event of that name |
| `SchedulerRing.NewThreadIsSecond` | x64barebones/Kernel/threads.c:25-28 | The new thread is second in the ring, READY and with its number; the others are as they were, in order, and the current thread is the same one |
| `SchedulerRing.Scheduler.AddThreadToProcess` | x64barebones/Kernel/threads.c:9-50 | On the linked process: that thread, and its number returned; on the state, the scheduler event of that name; -1 and no change for an unknown pid |
| `SchedulerRing.Scheduler.RemoveProcess` | x64barebones/Kernel/scheduler.c:90-97 | pids 0 and 1 are refused; otherwise the process becomes DEAD and queueSize drops |
| `SchedulerRing.Scheduler.RemoveDeadProcess` | x64barebones/Kernel/scheduler.c:122-138 | Unlinks exactly the dead node, keeps the order of the rest, and ends with as many nodes as queueSize although the loop bound was already lowered |
| `SchedulerRing.Scheduler.FindReadyProcess` | x64barebones/Kernel/scheduler.c:52-55 | The walk finds the nearest READY process, even from a node just unlinked |
| `SchedulerRing.Scheduler.BlockProcess` | x64barebones/Kernel/scheduler.c:140-145 | Blocks that process alone and ends the quantum |
| `SchedulerRing.Scheduler.BlockThread` | x64barebones/Kernel/scheduler.c:155-166 | The linked code computes the specified block |
| `SchedulerRing.Scheduler.UnblockProcess` | x64barebones/Kernel/scheduler.c:147-153 | Only a process blocked for that very cause becomes READY |
| `SchedulerRing.Scheduler.UnblockThread` | x64barebones/Kernel/scheduler.c:168-177 | The linked code computes the specified wake-up |
| `SchedulerRing.Scheduler.UnblockAllThreads` | x64barebones/Kernel/scheduler.c:179-191 | The linked code computes the specified wake-up of all |
| `SchedulerRing.Scheduler.ThreadCheck` | x64barebones/Kernel/scheduler.c:258-281 | The linked code computes the specified thread check |
| `SchedulerRing.Scheduler.RunScheduler` | x64barebones/Kernel/scheduler.c:29-58 | The linked code computes the specified step, a dead process pending or not, and ends |
| `SchedulerRing.Scheduler.SwitchProcess` | x64barebones/Kernel/scheduler.c:42-57 | At the end of a quantum: the dead node leaves the ring, the nearest ready process becomes current and RUNNING |
| `SchedulerRing.KilledGivesWay` | x64barebones/Kernel/scheduler.c:194-205 | A killed process that is still current and yields leaves the ring, a READY process becomes current and RUNNING, and the others are as they were |
| `SchedulerRing.Scheduler.YieldSwitch` | x64barebones/Kernel/scheduler.c:194-205 | On the linked nodes: nothing happens when neither the current process nor its thread is blocked or dead; otherwise runScheduler with no tick left, for the process or only for its threads; a killed current process leaves the ring and another is current |
| `BmfsDirectory.FirstFree` | x64barebones/Bootloader/BMFS/bmfs.c:633-655 | first_free_entry is the first record holding no file, and none exactly when all 64 hold one |
| `BmfsDirectory.CmpComparesStarts` | x64barebones/Bootloader/BMFS/bmfs.c:595-606 | Cut down to an int, the 64-bit difference still orders starting blocks below 2^31 |
| `BmfsDirectory.SortedCopy` | x64barebones/Bootloader/BMFS/bmfs.c:595-659 | Sorting by the comparator keeps the records, puts live ones first in order of start, and keeps their extents apart |
| `BmfsDirectory.ScanLive` | x64barebones/Bootloader/BMFS/bmfs.c:661-683 | Among the live records the gap scan is a first fit; it goes past them only when nothing fits |
| `BmfsDirectory.ScanUnused` | x64barebones/Bootloader/BMFS/bmfs.c:661-683 | Past them it succeeds exactly when some unused record leaves room above its own end |
| `BmfsDirectory.PlaceWithEndMarker` | x64barebones/Bootloader/BMFS/bmfs.c:619-689 | With an end marker: the lowest gap that fits; with no gap, it fails if and only if no unused record has room above it |
| `BmfsDirectory.PlaceWithoutEndMarker` | x64barebones/Bootloader/BMFS/bmfs.c:619-689 | Without one no file is counted: block 1, whatever is there |
| `BmfsFiles.FoundOnDisk` | x64barebones/Bootloader/BMFS/bmfs.c:720-749 | Every extent lies past block 0 and on the disk |
| `BmfsFiles.ReadTakesBytes` | x64barebones/Bootloader/BMFS/bmfs.c:739-744 | read returns FileSize bytes of the medium from StartingBlock * 2 MiB on |
| `BmfsFiles.WritePutsBytes` | x64barebones/Bootloader/BMFS/bmfs.c:775-792 | A write longer than the reserved blocks is refused; otherwise its bytes lie from StartingBlock * 2 MiB on, no other byte of the medium changes, and of the directory only the size |
| `BmfsFiles.WriteSparesEnds` | x64barebones/Bootloader/BMFS/bmfs.c:752-797 | No write touches the first block, which holds the directory, or the last one |
| `BmfsFiles.OthersLeaveMedium` | x64barebones/Bootloader/BMFS/bmfs.c:608-819 | create, delete and format change no byte of the medium outside the directory |
| `BmfsFiles.DeleteMarksRecord` | x64barebones/Bootloader/BMFS/bmfs.c:800-819 | delete overwrites the first byte of the name in one record and nothing else |
| `BmfsFiles.DeleteRemovesOne` | x64barebones/Bootloader/BMFS/bmfs.c:800-819 | delete removes one name and leaves what read returns for every other |
| `BmfsFiles.WriteReplacesOne` | x64barebones/Bootloader/BMFS/bmfs.c:752-797 | A write that fits is what read then returns; other files and block 0 are unchanged; one that does not fit changes nothing |
| `BmfsFiles.FormatEmpties` | x64barebones/Bootloader/BMFS/bmfs.c:258-268 | After format no name is found, and all 64 records are blank |
| `BmfsCreate.CreateKeepsFormed` | x64barebones/Bootloader/BMFS/bmfs.c:608-717 | create keeps names unique and every extent inside blocks 1 to num_blocks-2, safe or not |
| `BmfsCreate.CreateReservesEnough` | x64barebones/Bootloader/BMFS/bmfs.c:613-618 | After a successful create(name, maxsize) the record has room for maxsize MiB, less than a block more, and size 0 |
| `BmfsCreate.CreateTouchesTwoRecords` | x64barebones/Bootloader/BMFS/bmfs.c:691-704 | create fills the first free record, may make the next one the end marker, and changes no other |
| `BmfsCreate.CreateIsSafeExactly` | x64barebones/Bootloader/BMFS/bmfs.c:608-717 | create adds one empty file, disjoint from and invisible to the rest, if and only if the condition Safe on the directory, the size and the disk holds |
| `BmfsCreate.ReuseOfFirstRecordLosesFiles` | x64barebones/Bootloader/BMFS/bmfs.c:691-704 | In a full directory whose record 0 is unused, a successful create makes every other file vanish |
| `BmfsFull.FullDirectoryLosesFiles` | x64barebones/Bootloader/BMFS/bmfs.c:621 | A run from format (64 creates, one delete, one create) that ends with 63 files not found any more, on any disk of 66 blocks or more |
| `BmfsOverlap.FilesCanOverlap` | x64barebones/Bootloader/BMFS/bmfs.c:681-682 | A run from format (two creates, two deletes, two creates on ten blocks) after which two files share a block |
| `BmfsRuns.StepRefines` | x64barebones/Bootloader/BMFS/bmfs.c:608-819 | Each command acts on the map of names to bytes as create, write, delete or format should |
| `BmfsRuns.RunRefinesMap` | x64barebones/Bootloader/BMFS/bmfs.c:608-819 | Over any run of safe commands the disk refines that map, and the first and the last block keep their bytes |
| `BmfsRuns.WrittenBytesSurvive` | x64barebones/Bootloader/BMFS/bmfs.c:720-819 | After a successful write, read returns exactly those bytes across any safe creates and any writes and deletes of other files |
| `BmfsRuns.CreatedFileTakesItsSize` | x64barebones/Bootloader/BMFS/bmfs.c:608-797 | After a successful create(name, maxsize) and any safe commands that do not remove the file, a write of up to maxsize MiB is what read then returns |
| `BmfsRuns.RunsWithoutDeleteAreSafe` | x64barebones/Bootloader/BMFS/bmfs.c:608-717 | Runs without deletes are safe throughout, up to and past a full directory |
| `BmfsVolume.FindFile` | x64barebones/Bootloader/BMFS/bmfs.c:203-229 | The loop finds the first live record of that name before the end marker, or none |
| `BmfsVolume.CountEntries` | x64barebones/Bootloader/BMFS/bmfs.c:633-655 | The loop finds the number of records before the end marker, 0 if there is none, and the first free one |
| `BmfsVolume.SortByStartingBlock` | x64barebones/Bootloader/BMFS/bmfs.c:657-659 | The prefix of the copy is sorted in place, the rest untouched |
| `BmfsVolume.FindGap` | x64barebones/Bootloader/BMFS/bmfs.c:661-683 | The loop computes the specified scan and ends |
| `BmfsVolume.Volume.Create` | x64barebones/Bootloader/BMFS/bmfs.c:608-717 | The in-place code computes the specified new directory and reports success exactly then; on success a record has the name, size 0 and room for maxsize MiB |
| `BmfsVolume.Volume.Read` | x64barebones/Bootloader/BMFS/bmfs.c:720-749 | The bytes copied are FileSize bytes from StartingBlock * 2 MiB on, or none if there is no such file |
| `BmfsVolume.Volume.Write` | x64barebones/Bootloader/BMFS/bmfs.c:752-797 | The byte loop and the size patch compute the specified disk and directory: the bytes lie from StartingBlock * 2 MiB on and no other byte changes |
| `BmfsVolume.Volume.Delete` | x64barebones/Bootloader/BMFS/bmfs.c:800-819 | Overwrites the first byte of the name, in that record alone |
| `BmfsVolume.Volume.Format` | x64barebones/Bootloader/BMFS/bmfs.c:258-268 | Blanks all 64 records |
| `Pipe.RepresentationInvariant` | x64barebones/Kernel/pipefs.c:41-96 | Slots from read to write, going round, are non-zero and all others zero; equal pointers mean full or empty by the byte there |
| `Pipe.ContentsAreDetermined` | x64barebones/Kernel/pipefs.c:66-89 | What is buffered can be read off the bytes and the two pointers |
| `Pipe.PipeNode.constructor` | x64barebones/Kernel/pipefs.c:15-31 | A new pipe is empty |
| `Pipe.PipeNode.Write` | x64barebones/Kernel/pipefs.c:41-64 | Accepts min(length, free space) bytes of the string, in order, and wakes the readers once for each |
| `Pipe.PipeNode.Read` | x64barebones/Kernel/pipefs.c:66-89 | Hands over everything buffered in order; on an empty pipe hands over nothing and blocks |
| `PipeNames.ValueOfDigits` | x64barebones/Kernel/pipefs.c:129-140 | Parsing what itoa prints gives the number back, 0 (printed as nothing) included |
| `PipeNames.ReceiverOfName` | x64barebones/Kernel/pipefs.c:119-140 | The receiver parsed from a name is the one it was made with, for every pair of pids |
| `PipeNames.NamesAreDecimal` | x64barebones/Kernel/pipefs.c:119-127 | The pair 12 and 305 is named 12-305, and the pair 0 and 7 is named -7 |
| `PipeNames.NameIsInjective` | x64barebones/Kernel/pipefs.c:119-127 | Two pid pairs with the same name are the same pair |
| `PipeNames.DigitsFit` | x64barebones/Kernel/myStdLib.c:22-30 | A number below 10^k prints as at most k digits |
| `PipeNames.IntLength` | x64barebones/Kernel/myStdLib.c:22-30 | The number of digits printed |
| `PipeNames.Itoa` | x64barebones/Kernel/myStdLib.c:3-20 | Leaves the digits and a terminator at that place, and an empty string for 0 |
| `PipeNames.CreateName` | x64barebones/Kernel/pipefs.c:119-127 | The buffer holds the terminated name, and 50 bytes are enough |
| `PipeNames.GetReceiverPid` | x64barebones/Kernel/pipefs.c:129-140 | Both loops end at the dash and the terminator, and compute the specified value in 32-bit arithmetic |
| `PipeNames.EqualName` | x64barebones/Kernel/pipefs.c:111-117 | True exactly when the two C strings are equal |
| `PipeTable.NameFindsPair` | x64barebones/Kernel/pipefs.c:98-140 | Looking a pair's name up gives that pair's oldest pipe, never one of another pair |
| `PipeTable.StepConserves` | x64barebones/Kernel/pipefs.c:41-96 | For each pair of processes, one call neither loses nor invents nor reorders bytes |
| `PipeTable.PipesAreFifo` | x64barebones/Kernel/pipefs.c:41-96 | Over any run of opens, writes and reads by all processes: bytes handed from a to b, then those buffered, are those buffered at first and the accepted prefixes in order |
| `PipeTable.Pipes.DoPipe` | x64barebones/Kernel/pipefs.c:9-39 | Appends an empty pipe whose name is that of the pair |
| `PipeTable.Pipes.GetPipe` | x64barebones/Kernel/pipefs.c:98-109 | For any string, finds the oldest pipe of that name, or none |
| `PipeTable.Pipes.WriteToPipe` | x64barebones/Kernel/pipefs.c:41-64 | For an unknown name does nothing; otherwise changes the pipe of that name as specified and no other, and wakes the receiver the name was made for |
| `PipeTable.Pipes.ReadFromPipe` | x64barebones/Kernel/pipefs.c:66-89 | For an unknown name does nothing; otherwise hands over what the pipe held and empties it, and exactly when it held nothing puts to sleep the thread of the receiver that has the number of the caller's thread |
| `PipeKernel.WakingTwiceIsOnce` | x64barebones/Kernel/pipefs.c:58-60 | Waking all the receiver's threads once for every byte has the effect of waking them once |
| `PipeKernel.BytesWakeExactly` | x64barebones/Kernel/pipefs.c:52-63 | When a pipe takes bytes every thread of the receiver that slept at a pipe is ready; the process can be switched to if and only if it could before or was blocked for a pipe, so a reader is left asleep exactly when its process is blocked for another cause |
| `PipeKernel.ActKeepsOwnSleepsExactly` | x64barebones/Kernel/pipefs.c:72-77 | Every thread asleep at a pipe is asleep by its own read, after an act as before, if and only if the act is not a read of an empty pipe by a process other than the receiver |
| `PipeKernel.ForeignReadStrands` | x64barebones/Kernel/pipefs.c:72-77 | Such a read puts a thread of the receiver to sleep although bytes wait for it in another pipe, and lets the reader go on |
| `PipeKernel.NobodySleepsOverBytes` | x64barebones/Kernel/pipefs.c:41-89 | Over every run from boot of pipe calls and kernel calls: whoever sleeps at a pipe was put to sleep by a read of a pipe to its process that is still empty; and every sleeper is its own reader throughout if and only if there is no such read |
| `Image.Le32RoundTrip` | x64barebones/Toolchain/ModulePacker/main.c:101-107 | A size written in the header is read back modulo 2^32, and unchanged if and only if it is below 2^32 |
| `Image.WordRoundTrip` | x64barebones/Kernel/lib.c:33-38 | Loading and storing a 32-bit word moves its four bytes unchanged |
| `Image.LeastByteFirst` | x64barebones/Toolchain/ModulePacker/main.c:101-107 | A size lies in the header with its least significant byte first |
| `Image.WriteFile` | x64barebones/Toolchain/ModulePacker/main.c:109-119 | The chunked copy appends the whole source, also when its size is a multiple of the chunk |
| `Image.BuildImage` | x64barebones/Toolchain/ModulePacker/main.c:52-84 | The image is the kernel, the module count, and each module behind its size |
| `Image.CopyWords` | x64barebones/Kernel/lib.c:29-39 | The word loop copies exactly the bytes of the range |
| `Image.CopyBytes` | x64barebones/Kernel/lib.c:40-47 | So does the byte loop |
| `Image.Memcpy` | x64barebones/Kernel/lib.c:14-50 | Aligned or not, the destination gets the source bytes and nothing else changes |
| `Image.LoadModule` | x64barebones/Kernel/moduleLoader.c:19-43 | One module is copied to its target and the cursor ends behind it |
| `Image.LoadModules` | x64barebones/Kernel/moduleLoader.c:9-17 | From the payload of an image, every module ends up byte for byte at its target, for any number of modules, and no other memory changes |

## Left out

- PageAllocator.GetBlocksAmount: does not model regions above INT_MAX pages, because blocksAmount is an int; MemoryManager covers regions below 2 GiB, where the byte offset of a block fits an int.
- ProcessHeap.Process.Pmalloc: does not model a failed allocation; the source then links a node with address NULL, or writes through NULL.
- Sync.SemaphoreAccount: does not model 32-bit wrap-around of the status, because it takes 2^31 calls.
- ProdCons.RemovedIsPrefixOfInserted: does not model overflow of the item counter `aux`, nor `cant` and the printing.
- ProdCons.NeverDeadlocks: does not cover interleavings in which a thread moves while it waits, which the process switch allows; ResumedConsumerTakesNothing shows what they do, ProgramOnScheduler when there are none.
- ProdCons.LockedHasOwnerInside: does not cover them either.
- Sync.SemaphoreSafety: a thread that the process switch resumes while it is on the wait list has got past without being counted, because nothing the semaphore keeps tells it from one that waits; KernelResume says when there is such a thread.
- Sync.PassedIsBounded: does not count such a thread either.
- Heaps.Heaps.Pmalloc: does not model a failed allocation, like ProcessHeap.Process.Pmalloc.
- ProcessHeap.HeapConservation: one heap over a fixed baseline; HeapsConserve has all heaps and everything else in use.
- SchedulerRuns.SchedulerStaysWellFormed: does not model kills, because the state of a dead process's threads is never cleaned up; kills are covered on the ring and in BoundedWaitingWithKills, one pending at a time. Its hypothesis on wake-ups is gone in KernelRuns.KernelStaysWellFormed.
- SchedulerRing.Scheduler.RemoveDeadProcess: does not model a second dead process pending, for which the loop bound is too low, nor what freed nodes hold after deallocate, nor freeProcess.
- SchedulerRing.SwitchThread: does not model removeDeadThreads, whose `prev` is uninitialised and whose loop does not advance past live threads.
- SchedulerRing.Scheduler.AddThreadToProcess: does not model createThread and the stack frame, nor pthread numbers after a removal.
- KernelRuns.KernelStaysWellFormed: does not model kills.
- KernelHang.PipeReadHangs: does not model the bytes of the pipe process 0 reads, which is empty; PipeKernel has both.
- ProdConsKernel.ProgramOnScheduler: does not model other threads that use the program's semaphores or mutex, nor the end of the program.
- PipeKernel.NobodySleepsOverBytes: does not model a receiver without a thread of that number, for which the source follows a null pointer.
- KernelRuns.NoLostProcessWakeup: does not model a thread added to a process while it is blocked, which is ready and not noticed, nor a thread of the process blocked by another process's pipe read while a third is RUNNING.
- SchedulerRing.Scheduler.RemoveProcess: does not model a kill while another dead process is pending.
- SchedulerKills.BoundedWaitingWithKills: does not model a second kill pending, nor a dead process that blocks; nor does CallUsesBudget.
- SchedulerRing.Scheduler.BlockProcess: does not model a dead process as target on the ring; what happens then is BlockingKeepsCountExactly.
- SchedulerRing.Scheduler.BlockThread: does not model a thread of a dead process as target, likewise.
- PageAllocator.MemoryManager.constructor: does not model regions of 2 GiB and more, where the byte offset of a block overflows an int.
- PageAllocator.MemAllocatorInit: does not model them either.
- PageAllocator.MemoryManager.Deallocate: does not model addresses below the region, for which the source clears bits outside its map.
- AllocatorRuns.Replay: does not model requests above INT_MAX pages, whose page count wraps (PagesCoverRequest).
- BmfsCreate.CreateIsSafeExactly: does not model 32-byte names without terminator or names starting with a marker byte, which create() would store as a marker, nor disks below three blocks, the least the utility initialises.
- BmfsCreate.CreateKeepsFormed: does not model such names either; nor does BmfsVolume.Volume.Create.
- BmfsVolume.Volume.Write: does not model files of 2 GiB and more.
- BmfsVolume.Volume.Read: does not model files of 2 GiB and more, whose bytes the source counts in an int; WrittenBytesSurvive excludes them too.
- BmfsVolume.SortByStartingBlock: does not model the C library's qsort but an insertion by the same comparator; the placement lemmas hold for any order of the unused records.
- The 64-byte layout of a directory record on disk and the flush of the directory: `directory` is what block 0 holds.
- Image.Memcpy: does not model overlapping buffers, which the source excludes.
- Image.LoadModules: does not model modules of 4 GiB and more, whose size is cut to 32 bits (Le32RoundTrip).
- PipeTable.Pipes.WriteToPipe: does not model the effect of waking the receiver's threads on the scheduler, only whom it wakes and how often; PipeKernel has it.
- PipeTable.Pipes.ReadFromPipe: does not model the effect of blocking that thread on the scheduler, only which thread it is; PipeKernel has it.
- PipeNames.Itoa: does not model negative numbers, which no pid is; nor do IntLength, CreateName and DoPipe.
- Linked nodes for the lists of pipes, heap blocks, semaphores and mutexes and for the ring of threads: they are sequences, so relinking and aliasing are shown for the process ring alone.
- PipeNames.GetReceiverPid: does not model names without a dash, on which the source runs past the buffer.
- The dining philosophers and mutual exclusion of the mutex: not true of this code.
- semaphoreDestroy, mutexDestroy and thread removal.
- BMFS initialize, command line and listing; real files.
- Screens, keyboard, consoles, printf and the shell's commands.
- Network, PCI, interrupt tables and assembly.
