# A verified model of the Linux 0.01 kernel core

This project models, in Dafny, the parts of Linux 0.01 where state is shared and
order matters, and proves what those parts are for.  The kernel runs on one
processor and its own code is not preempted between points where it calls
`sleep_on` or `schedule` (README, lines 204-217).  One action of a state machine
is one stretch of kernel code between two such points.  Volume, FileBytes and
Directory describe one call at a time although these calls may sleep; ZoneRace
and DirectoryRace have the overlap and conditions under which the results
survive it.

| area | files | main results |
|---|---|---|
| copy-on-write memory | PageModel, PageCounting, PageSteps, PageFree, PageBounds, Paging, EagerCopy, TaskMemory, KernelStores, PageLeak, ProcessIds | `Kernel.Run`: every run of fork, load, store, verify_area, exec, exit and release is a run of a machine that copies all pages at fork, and a task dies or a fork fails exactly when memory does not suffice; `SupervisorStoreIff`; `ForkedPages`, `ChildKeepsCopy`, `Isolation`; exact reference counts below NR_TASKS |
| buffer cache | BufferCache, BufferCoherence, BufferCalls, BufferRace, BufferQueues | `InvStep`: one hashed buffer for each block at every interleaving; `CoherentStepIff`: exactly which steps make the cache give wrong bytes; `BreadIsRightIff`; `GetblkRace`, `SequentialLoss` |
| in-core inodes | InodeTable, InodeRuns, InodeCalls, InodeRace | `AlwaysUniqueAndCoherent`; `NewInodeIff`, `NamedStepIff`, `RepeatFreesIff`: exactly when new_inode and iput go wrong; `IputRace`, `TwoSlotsForOneInode`, `FreedTwice`, `NeighbourOverwritten` |
| zones and file bytes | ZoneModel, ZoneSteps, ZoneTrees, Volume, FileBytes, ZoneRace | `Bmap` changes the map at one block only; `Truncate` clears exactly the file's tree; file_write is a splice, sys_read a slice; `UndisturbedRunsGrow`, `StoreKeepsIff` |
| wait queues, pipes | WaitQueue, Pipe | `NoLostSleeper`, `EveryoneIsReleased`; `NothingLost`, `WriteIsPrefix`: a pipe loses, invents and reorders no byte over any run; reader and writer are never asleep together; `ReadIsOldest` |
| scheduler | Scheduler, SchedulerShare, SchedulerTurns | `TwoPasses`; `ProportionalShare`: time charged is priority times recharges, exactly; `FullShareEachRound`; `LeftAtLatest`, `StaysIff`: when the timer takes the processor away |
| disk queue | Elevator, DiskQueue | `AlwaysTwoSweeps`, `TwoSweepsUntilServed`: bounded overtaking of a waiting request |
| console | Terminal, TerminalCodes, VideoMemory, Console | `ConWrite`: a window moving through video memory looks like a plain 25 by 80 terminal, and TerminalCodes says what each control sequence does to that |
| exec stack | ExecStack | `SetUp`: a new program reads its strings back; `StartedIff`, `PanicsIff`, `AstrayIff` |
| directories | Directory, DirectoryRace | `Link`/`Unlink` act as map insertion and deletion; `AddInsertsIff`, `RemoveDeletesIff`, `AttachKeepsIff`, `UndisturbedRunsAreMaps` |
| open files | OpenFiles, FileMachine, FileRefs, FileCalls, FileTable, FileRace | `Files.Run`: the counted tables do what a machine without counts does, over every run, and take and put the same inode references; `ConservedIff`; `ForkedDescriptors` |

Code that changes things in place is a class whose methods have the loops and
stores of the original and are proved against functions on values; the lemmas
are about those functions.  Protocols that sleep are state machines: `Enabled`
says when an action can happen, `Next` what it does.

In these places the code does not do what it is meant to.  The lemmas and
contracts named here say exactly when, or give the run:

* getblk takes a dirty buffer off the hash table and may then sleep in
  sync_dev; another task reading the same block meanwhile gets old bytes
  (`BufferRace.GetblkRace`, `BufferCoherence.CoherentStepIff`, `BreadIsRightIff`).
* The end of a write clears b_dirt, also over bytes stored after the drive took
  the old ones; one task alone can lose a store (`BufferRace.SequentialLoss`,
  `BufferCoherence.CoherentStepIff`).
* iput looks at the reference count before it writes the inode, but not again
  when it comes back to `repeat` (`InodeRace.IputRace`,
  `InodeRuns.RepeatFreesIff`).
* iget may sleep between the moment its number is looked up and the moment it
  looks at the table; if the inode is freed meanwhile, a free number comes into
  core, and is given away or freed a second time (`InodeRace.TwoSlotsForOneInode`,
  `InodeRace.FreedTwice`, `InodeRuns.NamedStepIff`, `InodeTable.NewInodeIff`).
* free_inode clears a slot although sync is writing it, and the write goes on
  with the number the slot has then, to another inode (`InodeRace.NeighbourOverwritten`,
  `InodeRuns.CutsWrite`).
* do_no_page loses a page when it has taken the last free frame and then needs
  a page table (`Paging.Memory.DoNoPage`, `PageLeak.LoseAFrame`).
* copy_strings has no working test for too long arguments, and its result 0 is
  handed on as an address (`ExecStack.PanicsIff`, `ExecStack.AstrayIff`,
  `ExecStack.StartedIff`).
* _bmap does not test again after new_block has slept
  (`ZoneRace.StoreKeepsIff`, `ZoneRace.TableLost`, `ZoneRace.TruncateLosesZone`).
* Names are added and removed without a second look at the directory, and so are
  its blocks (`DirectoryRace.AddInsertsIff`, `RemoveDeletesIff`,
  `AttachKeepsIff`, `NameTwice`, `WrongNameRemoved`, `GrowthLosesName`).
* A task that dies while open reads its path closes a file that has no inode yet,
  and puts the inode of the file's last user (`FileRefs.ConservedIff`,
  `FileRace.DeathSteals`).
* sys_pipe stores the descriptors without verify_area, and the processor does not
  protect shared pages from the kernel: after a fork the other task sees them too
  (`KernelStores.SupervisorStoreIff`, `KernelStores.PipeStoreIsSeen`).
* new_block panics when a task still uses a buffer of a block freed before
  (`BufferCache.NewBlockPanicsIff`, `BufferRace.BlockStillHeld`).
* A cursor move by nearly 2 to the 32nd places goes the other way
  (`TerminalCodes.VerticalMoves`, `HorizontalMoves`).
* ESC 7 and ESC 8 of the console test the cursor column instead of the
  character (`Terminal.EscSevenSavesIff`, `Terminal.EscEightRestoresIff`).

## Model

| member | source | states |
|---|---|---|
| `Paging.Memory.GetFreePage` | mm/memory.c:43-63 | takes the highest free frame, cleared; 0 exactly when none is free, else one frame fewer is free; no task's view or entry changes |
| `Paging.Memory.FreePage` | mm/memory.c:68-78 | one reference less for a counted frame, nothing below LOW_MEM; every caller meets the precondition that rules out the panics |
| `Paging.Memory.FreePageTables` | mm/memory.c:84-110 | the slots are empty afterwards, every frame they named lost exactly one reference, no other slot's entries or view changed, and all counts are exact again |
| `Paging.Memory.FreeTable` | mm/memory.c:98-106 | one table: all its entries unmapped and the table's own frame released, counts exact |
| `Paging.Memory.FreeEntry` | mm/memory.c:99-104 | one entry: only the view at that page changes, to unmapped |
| `Paging.Memory.CopyPageTables` | mm/memory.c:125-164 | all 1024 pages of every copied slot are to the child what they are to the parent, of task 0 the first 160 of one slot; nobody else's view changes; "already exist" is unreachable; succeeds if and only if there is a frame for each page table of the parent, and takes exactly those |
| `Paging.Memory.CopySlot` | mm/memory.c:138-161 | one directory slot: all 1024 pages of the child's are the parent's, earlier slots stay copied; fails only for want of a frame for the table |
| `Paging.Memory.ShareTable` | mm/memory.c:147-160 | one table: pages 0 to 159 of the kernel's own, pages 0 to 1023 of any other |
| `Paging.Memory.ShareEntry` | mm/memory.c:149-159 | one entry: both sides lose the writable bit, a counted frame gains one reference, low frames stay shared with the kernel, only the child's view changes |
| `Paging.ShareOnceStores` | mm/memory.c:152-159 | the order of the stores of one turn does not matter |
| `Paging.ShareOnceKeeps` | mm/memory.c:149-159 | sharing one page keeps exact counts and shows the child the parent's bytes |
| `Paging.Memory.NewTable` | mm/memory.c:144-146 | a new empty page table changes no view and takes one frame; refused exactly when none is free |
| `Paging.Memory.PutPage` | mm/memory.c:171-192 | the frame is mapped at that page alone and writable; fails exactly when a table is needed and no frame is free |
| `Paging.Memory.UnWpPage` | mm/memory.c:195-222 | the page becomes writable and private to the task with the same bytes, in place if nobody else has it, else in a new frame; fails exactly when it has to copy and no frame is free; nobody else's view changes |
| `Paging.Memory.ReplacePage` | mm/memory.c:206-209 | the stores of the copying half, in the code's order |
| `Paging.AllocUnshareKeeps` | mm/memory.c:204-209 | taking a frame and replacing the entry keeps exact counts and every other entry |
| `Paging.Memory.WriteVerify` | mm/memory.c:225-236 | a present page becomes writable, an absent one or a missing table is left alone |
| `Paging.Memory.DoNoPage` | mm/memory.c:239-247 | an absent page reads as zeros afterwards, for this task only; succeeds exactly when there are frames for the page and a missing table; a frame is lost exactly when the last free one was taken and a table was needed too |
| `Paging.Memory.CalcMem` | mm/memory.c:250-257 | counts the free frames |
| `PageLeak.LoseAFrame` | mm/memory.c:239-247 | from boot, a run of fork, exec and page accesses after which do_no_page has lost the last free frame |
| `PageFree.CopyTakesOne` | mm/memory.c:204-209 | a private copy takes exactly one frame |
| `PageFree.CopyCounts` | mm/memory.c:204-209 | a private copy lowers the count of the frame it was made from and of no other frame in use |
| `Paging.NoneLeft` | mm/memory.c:43-63 | when the search finds nothing, and what is left after one more page, in terms of the number of free frames |
| `Paging.Memory.Boot` | boot/head.s:137-155 | the identity map of the kernel satisfies the invariant |
| `PageSteps.AllocKeeps` | mm/memory.c:43-63 | a new frame belongs to the kernel, is nowhere mapped and changes no view |
| `PageSteps.InstallTableKeeps` | mm/memory.c:144-146 | an owned empty table may become a page table |
| `PageSteps.RemoveTableKeeps` | mm/memory.c:105-106 | an empty table may be released with its slot |
| `PageSteps.MapFrameKeeps` | mm/memory.c:171-192 | an owned frame becomes one task's own page |
| `PageSteps.SetWritableKeeps` | mm/memory.c:199-203 | the writable bit alone changes no view, and may be set when the count is one |
| `PageSteps.UnmapKeeps` | mm/memory.c:100-102 | dropping one entry drops one reference and one task's view of one page |
| `PageSteps.ShareKeeps` | mm/memory.c:149-159 | a second, read-only reference keeps the counts exact and shows the same bytes |
| `PageSteps.UnshareKeeps` | mm/memory.c:206-209 | replacing a shared frame by a copy changes no bytes seen by anybody |
| `PageSteps.StoreMappedKeeps` | mm/memory.c:195-222 | a store through a writable entry is seen at that page of that task and nowhere else |
| `PageCounting.UnsharedEntry` | mm/memory.c:200-203 | a writable entry names a frame that no other entry, table or kernel owner names |
| `PageCounting.PresentEntry` | mm/memory.c:68-78 | a mapped frame has a positive count and is neither a table nor owned by the kernel |
| `PageCounting.TableFrame` | mm/memory.c:105-106 | a page table belongs to exactly one slot and is never mapped |
| `PageCounting.NamedOnce` | mm/memory.c:200-203 | a count of one means one place |
| `PageBounds.CountsBounded` | mm/memory.c:154-159 | no counter passes NR_TASKS - 1, so 16 bits never wrap |
| `PageBounds.SameTablesSameCounts` | mm/memory.c:84-164 | mem_map is determined by the tables: undoing a copy restores it |
| `EagerCopy.Isolation` | mm/memory.c:195-222 | over any run, what other tasks do leaves a task's own pages alone |
| `EagerCopy.ReplayAppend` | mm/memory.c:125-164 | runs of the eager machine extend step by step |
| `EagerCopy.ForkedPages` | mm/memory.c:147-159 | in the reference machine page i of the child's slot k is page i of the parent's slot k, for all 1024 of them, of task 0 for the first 160; all other rows are unchanged |
| `EagerCopy.ChildKeepsCopy` | mm/memory.c:125-164 | over every run in which the child does nothing to its memory it has the bytes its parent had at the fork, whatever the parent and others store |
| `EagerCopy.StoredByte` | mm/memory.c:195-222 | a store changes that byte of that page of that task and no other |
| `EagerCopy.LoadedByte` | mm/memory.c:239-248 | a load answers with the byte that is there, zero in an absent page, and changes no byte |
| `EagerCopy.ClearedPages` | mm/memory.c:84-110 | a task that ends or execs has no page left and all others have theirs |
| `EagerCopy.VerifiedPages` | kernel/fork.c:20-34 | verify_area changes no byte, and makes exactly the lent pages of its range the task's own |
| `EagerCopy.KilledVerifyingPages` | kernel/fork.c:20-34 | a task killed in verify_area has lost its pages, and no other has lost a byte |
| `TaskMemory.Kernel.FindEmptyProcess` | kernel/fork.c:135-138 | the lowest free task slot, 0 when there is none |
| `TaskMemory.Kernel.CopyMem` | kernel/fork.c:36-57 | succeeds if and only if there is a frame for each page table of the parent, and then all pages are shared with the child; else every count, table and view is as before |
| `TaskMemory.AbandonedCopy` | kernel/fork.c:49-55 | a half-finished copy that is freed again leaves mem_map and all views as they were |
| `TaskMemory.Kernel.CopyProcess` | kernel/fork.c:63-124 | succeeds if and only if there are frames for the task structure and for the parent's page tables, takes these, and the child's pages are a copy; else nothing at all has changed |
| `TaskMemory.Kernel.Fork` | kernel/fork.c:63-139 | the new task, in the lowest free slot, sees a copy of its parent; fork fails if and only if there is no slot or there are too few frames, and then changes no count, task or view |
| `TaskMemory.ForkedView` | kernel/fork.c:36-57 | lazily shared slots look like slots copied at once |
| `TaskMemory.ForkedPagesAll` | kernel/fork.c:37-60 | over the whole 64 MB of the child every page is the parent's |
| `TaskMemory.ClearedView` | kernel/exit.c:73-74 | freed slots look cleared, others as before |
| `TaskMemory.Kernel.FreeTaskMemory` | kernel/exit.c:73-74 | both calls of free_page_tables together clear the task's memory |
| `TaskMemory.Kernel.Exit` | kernel/exit.c:69-97 | the task's memory is gone, the slot is a zombie, nobody else notices |
| `TaskMemory.Kernel.Exec` | fs/exec.c:291-296 | the old image is gone and the data segment is 64 MB |
| `TaskMemory.Kernel.Release` | kernel/exit.c:14-28 | slot and task frame are free, no view changes |
| `TaskMemory.Kernel.MissingPage` | mm/page.s:8-34 | an access to an absent page makes it zeros if and only if there are frames for it; what is lost otherwise |
| `TaskMemory.Kernel.ProtectedPage` | mm/page.s:8-34 | a store to a shared page gives the task a private copy, unless a copy is needed and no frame is free |
| `TaskMemory.Kernel.Access` | mm/page.s:8-34 | the faults of one access, in the order the processor raises them: the task survives if and only if there are frames for what the access takes, and these are exactly what is taken |
| `TaskMemory.Kernel.Load` | mm/memory.c:239-247 | returns the byte the eager machine has there; kills the task if and only if the frames do not suffice |
| `TaskMemory.Kernel.Store` | mm/memory.c:216-222 | stores where the eager machine stores; kills the task if and only if the frames do not suffice |
| `TaskMemory.Kernel.VerifyPage` | kernel/fork.c:28-32 | one page of the range made safe, earlier ones kept safe; the task dies if and only if the page needs a copy and no frame is free |
| `TaskMemory.Kernel.VerifyArea` | kernel/fork.c:20-33 | for any address and size: every byte of the range lies on a page that is absent or writable and unshared if and only if there is a free frame for each page that takes a copy when its turn comes; else the task dies at the first page without one; no task's view changes |
| `TaskMemory.VerifyCovers` | kernel/fork.c:20-33 | the pages visited cover every byte of the range |
| `TaskMemory.PagesLeft` | kernel/fork.c:25-29 | the loop condition says exactly whether pages are left |
| `TaskMemory.TakesCopyNow` | mm/memory.c:225-236 | whether a page of the range has to be copied when its turn comes follows from the state before the call: its frame is low, or shared by more than the copies made before leave alone |
| `TaskMemory.VerdictIff` | kernel/fork.c:20-33 | a range can be verified if and only if its copies do not outnumber the free frames |
| `KernelStores.SupervisorStoreIff` | fs/pipe.c:89-90 | a store of the kernel to a page that is there is the eager machine's store if and only if the frame is counted and nobody else has it, or the byte is there already |
| `KernelStores.SharedElsewhere` | mm/memory.c:149-159 | a frame with more than one reference is mapped by another page too |
| `KernelStores.PutByte` | kernel/fork.c:20-33 | put_fs_byte on a page that verify_area has seen to is the eager machine's store, with the same faults; on any other page that is there it stores to the frame as it is |
| `KernelStores.VerifiedIsOwn` | kernel/fork.c:20-33 | every byte that verify_area has gone over is on such a page |
| `KernelStores.PipeStoreIsSeen` | fs/pipe.c:89-90 | from boot, a store without verify_area that changes another task's page |
| `TaskMemory.Kernel.Step` | mm/memory.c:125-247 | any one request is one step of the eager machine with the answer that belongs to it; failure, death and loss have their causes, and the tasks change as they should |
| `TaskMemory.Kernel.Run` | mm/memory.c:125-247 | over every sequence of requests by all tasks the events are a run of the eager machine; at each step a fork fails exactly for want of a slot or frames, an access or verify_area kills exactly for want of frames, and a frame is lost only in do_no_page; at every state all counts are exact, the frames held are those of the tasks and the lost ones, and no count reaches NR_TASKS |
| `TaskMemory.SoundCounts` | mm/memory.c:84-164 | in every state of such a run each count is below NR_TASKS |
| `TaskMemory.Kernel.Fault` | mm/page.s:8-34 | the handlers of one access do to the eager machine's memory what touching the page does |
| `EagerCopy.LoadAfterTouch` | mm/memory.c:239-247 | touching a page and reading it is the load of the eager machine |
| `EagerCopy.StoreAfterTouch` | mm/memory.c:195-222 | touching a page for writing and storing is its store |
| `ProcessIds.SearchEnds` | kernel/fork.c:131-134 | the search for a process number tries at most one more than there are tasks |
| `ProcessIds.Processes.NextPid` | kernel/fork.c:131-134 | the first positive number after the last one that no task has, from 1 on again after the largest; every number passed over is in use |
| `ProcessIds.Processes.FindEmptyProcess` | kernel/fork.c:127-139 | such a number and the lowest free slot; an error exactly when all slots are taken |
| `ProcessIds.Processes.Fork` | kernel/fork.c:77-122 | no two tasks ever have the same number |
| `BufferCache.InitInv` | fs/buffer.c:245-274 | the boot state satisfies the invariant |
| `BufferCache.InvStep` | fs/buffer.c:139-242 | at every interleaving: at most one hashed buffer for each block, counts equal the references, a dirty buffer is up to date |
| `BufferCache.InvAssign` | fs/buffer.c:193-210 | the second look before a buffer gets its new block keeps blocks unique |
| `BufferCache.InvPick` | fs/buffer.c:168-185 | a victim is unreferenced and belongs to one task alone from then on |
| `BufferCache.InvSyncNext` | fs/buffer.c:62-76 | sync_dev under way keeps the invariant |
| `BufferCache.InvLookup` | fs/buffer.c:139-153 | taking a reference before the wait keeps the invariant |
| `BufferCache.NoFreeOfFree` | fs/buffer.c:214-222 | brelse never meets a zero count |
| `BufferCache.NewBlockPanicsIff` | fs/bitmap.c:88-91 | new_block meets a count other than one if and only if getblk found the block hashed with a reference besides its own |
| `BufferCalls.GetblkReturns` | fs/buffer.c:161-211 | getblk comes back with a hashed buffer of the block asked for and a reference to it, a new one clean and not up to date |
| `BufferCalls.LeavesByReturn` | fs/buffer.c:161-211 | there is no other way out of getblk |
| `BufferCalls.KeepsAsking` | fs/buffer.c:139-207 | until then it is about the same block, and starts again when things have changed |
| `BufferCalls.SyncPassesAll` | fs/buffer.c:62-77 | sync_dev goes through all buffers and passes one only if it is clean or of another device |
| `BufferCalls.HeldChanges` | fs/buffer.c:139-222 | one action gives or takes back one reference at most |
| `BufferCalls.ReferencesBalance` | fs/buffer.c:139-222 | over every run what a task holds of a buffer is what getblk gave it less what it released |
| `BufferCoherence.HeldBuffersStay` | fs/buffer.c:161-222 | over every run, a buffer keeps its block from getblk to brelse |
| `BufferCoherence.OnlyEvictorReassigns` | fs/buffer.c:193-210 | a buffer changes its block only in the hands of the one task that evicted it |
| `BufferCoherence.RaceFreeRunsAreCoherent` | fs/buffer.c:161-242 | over every run without the race in getblk and without an overtaken write, every up-to-date buffer holds the last bytes written |
| `BufferCoherence.CoherentStepIff` | fs/buffer.c:46-242 | exactly which actions break coherence: hashing a block whose evicted buffer is still unwritten, and the end of a write that a store has overtaken |
| `BufferCoherence.InFlightStep` | kernel/hd.c:273-290 | only a store into a buffer that is being written makes a write lose bytes |
| `BufferCoherence.BreadIsRightIff` | fs/buffer.c:191-242 | bread of a block not hashed returns the last bytes written if and only if no evicted, unwritten buffer holds newer ones |
| `BufferCoherence.AloneNeverRaces` | fs/buffer.c:161-211 | a task alone in getblk never opens the window |
| `BufferCoherence.SequentialRunsAreCoherent` | fs/buffer.c:161-242 | used by one task at a time, which leaves buffers alone while they are written, the cache is a flat block store |
| `BufferRace.EvictionOpensRace` | fs/buffer.c:184-192 | from any state of the kind described, one eviction opens the window |
| `BufferRace.BreadReturnsOldBytes` | fs/buffer.c:229-242 | and the next bread of that block then hands out old bytes |
| `BufferRace.GetblkRace` | fs/buffer.c:161-242 | from the boot state, a run of two tasks that does so |
| `BufferRace.StoreIsLost` | kernel/hd.c:279-286 | any dirty buffer that its holder stores into after the drive took the bytes ends clean with bytes that are not on disk |
| `BufferRace.SequentialLoss` | kernel/hd.c:279-286 | from the boot state, a run of one task that loses a store in this way |
| `BufferRace.BlockStillHeld` | fs/bitmap.c:88-91 | from the boot state, a run in which a task still reads a freed block and new_block is given it: the count is two |
| `BufferQueues.Queues.constructor` | fs/buffer.c:245-274 | the ring holds all buffers in order and all chains are empty |
| `BufferQueues.Queues.FindBuffer` | fs/buffer.c:121-129 | the hash walk finds what a scan of all queued buffers finds |
| `BufferQueues.Queues.FindVictim` | fs/buffer.c:168-176 | the victim is the unreferenced buffer that was inserted longest ago |
| `BufferQueues.Queues.RemoveFromQueues` | fs/buffer.c:84-100 | ring and chains lose exactly this buffer and stay well formed |
| `BufferQueues.Queues.InsertIntoQueues` | fs/buffer.c:103-118 | the buffer is last on the ring and first on its chain |
| `BufferQueues.Queues.Rename` | fs/buffer.c:194-195 | a buffer off the queues may change its block |
| `BufferQueues.UnhashKeeps` | fs/buffer.c:87-92 | unlinking from one chain leaves the other 306 alone |
| `BufferQueues.TakeOffRingKeeps` | fs/buffer.c:94-99 | unlinking from the ring leaves a ring of the others |
| `BufferQueues.LinkRingKeeps` | fs/buffer.c:106-109 | linking in before the head makes it the last |
| `BufferQueues.LinkChains` | fs/buffer.c:111-117 | linking in at the front of the bucket keeps all chains |
| `InodeTable.InitInv` | fs/inode.c:9-9 | the empty table satisfies the invariant |
| `InodeTable.InvStep` | fs/inode.c:138-263 | at every interleaving in which free_inode neither panics nor clears a slot under a write and new_inode meets no number in core: at most one slot for each inode, locks and references accounted for |
| `InodeTable.InvScan` | fs/inode.c:240-262 | iget names the empty slot only when the whole table has no slot with the key |
| `InodeTable.InvChosen` | fs/inode.c:202-212 | get_empty_inode clears a slot only when it is clean, unlocked and unreferenced |
| `InodeTable.InvFound` | fs/inode.c:246-254 | the second look after the wait |
| `InodeTable.InvPutReady` | fs/inode.c:142-158 | iput up to its label `repeat` |
| `InodeTable.InvRepeat` | fs/inode.c:159-171 | iput from there on |
| `InodeTable.InvFree` | fs/bitmap.c:99-126 | free_inode clears bit and slot, when it finds what it expects: one reference, no links, the bit set, no write under way |
| `InodeTable.InvNameNew` | fs/bitmap.c:128-158 | new_inode takes a number whose bit is clear and sets it; the invariant is kept when no slot has that number |
| `InodeTable.NewInodeIff` | fs/bitmap.c:128-158 | new_inode keeps one slot for each inode if and only if no slot has the number that the bitmap gave it |
| `InodeTable.InvMakePipe` | fs/inode.c:216-230 | get_pipe_inode |
| `InodeTable.InvShare` | kernel/fork.c:116-119 | a second reference to an inode, for the task itself or its child |
| `InodeTable.PlacedRight` | fs/inode.c:286-305 | write_inode stores into the place of the inode as long as the slot keeps its number over the sleep |
| `InodeRuns.ReferenceStep` | fs/inode.c:138-263 | a reference pins the inode in its slot until iput is called on it, whoever else does what |
| `InodeRuns.CoherentStep` | fs/inode.c:266-305 | each action keeps every slot equal to the last contents of its inode, on disk too if clean |
| `InodeRuns.AlwaysUniqueAndCoherent` | fs/inode.c:138-305 | over every run in which free_inode does not panic, no iget carries a number over its free and no inode is freed while it is being written: one slot for each inode, with its last contents, and every number in core allocated; that new_inode meets no number in core is proved, not assumed |
| `InodeRuns.IgetIsRight` | fs/inode.c:233-283 | iget hands out the inode asked for with its last contents, found or read |
| `InodeRuns.NamedStepIff` | fs/bitmap.c:99-158 | exactly which actions leave a number in core, or on its way there, that is not allocated: an iget for a free number and a free under an iget |
| `InodeRuns.NamedAfresh` | fs/bitmap.c:139-155 | while every number in core is allocated, new_inode takes one that no slot has |
| `InodeRuns.BitIsSet` | fs/bitmap.c:122-123 | and free_inode finds the bit set |
| `InodeRuns.RepeatFreesIff` | fs/inode.c:159-164 | going on to free at `repeat` is right if and only if the reference count is still one and the bit of the inode is still set |
| `InodeRuns.QuietStep` | fs/inode.c:138-172 | with no intrusion free_inode finds what it expects and the last user stays alone until the inode is free |
| `InodeRuns.UndisturbedRunsFreeCleanly` | fs/bitmap.c:108-111 | over every run without an intrusion and without a late iget free_inode never panics, not on the count, the links or the bit, and never clears an inode that is being written |
| `InodeRuns.RunsFromEmptyTable` | fs/inode.c:9-305 | both results for runs from the empty table |
| `InodeCalls.ReferencesBalance` | fs/inode.c:138-276 | over every such run the references of a task to an inode are those it was given, two by get_pipe_inode, less its calls of iput |
| `InodeCalls.HeldChanges` | fs/inode.c:138-276 | the same for one action |
| `InodeCalls.PutReadyCases` | fs/inode.c:142-172 | what iput does: drop one of several references, release a pipe, begin to free, write first, or let go |
| `InodeCalls.AlwaysUnusedClean` | fs/inode.c:163-172 | over every such run an inode without references has nothing left to write |
| `InodeCalls.UnusedCleanStep` | fs/inode.c:163-172 | the same for one action |
| `InodeCalls.NewInode` | fs/bitmap.c:128-158 | new_inode takes a clear number, sets its bit, and hands out the inode with one link and one reference |
| `InodeCalls.PipeInode` | fs/inode.c:216-230 | a pipe inode has no number and two references |
| `InodeCalls.FreeInode` | fs/bitmap.c:99-126 | free_inode clears bit and slot and nothing else |
| `InodeRace.IputFreesInodeInUse` | fs/inode.c:159-171 | from any state with a writer in iput and another task in iget a run leads to freeing an inode in use |
| `InodeRace.IputRace` | fs/inode.c:159-171 | from an empty table, a run of two tasks to that panic |
| `InodeRace.TwoSlotsForOneInode` | fs/bitmap.c:139-155 | from an empty table, a run in which iget sleeps over the free of its inode and new_inode gives the number away again: two slots have it |
| `InodeRace.FreedTwice` | fs/bitmap.c:122-123 | from an empty table, a run in which such an iget brings free_inode to "bit already cleared" |
| `InodeRace.NeighbourOverwritten` | fs/inode.c:286-305 | from an empty table, a run without any panic in which sync begins to write an inode that iput frees, and the write goes to another inode of the same block |
| `ZoneSteps.GrowKeeps` | fs/inode.c:57-123 | adding a zone at one position changes the map there only; all zones stay distinct and allocated, the new block is zero |
| `ZoneSteps.FreeZoneNowhere` | fs/bitmap.c:67-97 | a zone whose bit is clear stands in no tree |
| `ZoneTrees.TreeIsPositions` | fs/truncate.c:5-58 | the tree truncate walks is exactly what the file's logical positions name |
| `ZoneTrees.TruncatedKeeps` | fs/truncate.c:41-58 | the file becomes all holes, exactly its zones are free, every other file is as before |
| `Volume.FileSystem.constructor` | fs/super.c:70-71 | a volume with bit 0 set, no zone in use and no file with a block satisfies the invariant |
| `Volume.FileSystem.FindFirstZero` | fs/bitmap.c:23-37 | the lowest clear bit of a bitmap block, 8192 if none |
| `Volume.FileSystem.NewBlock` | fs/bitmap.c:67-97 | the lowest free zone, now taken and cleared; 0 only when the volume is full |
| `Volume.FileSystem.FreeBlock` | fs/bitmap.c:39-65 | clears one bit; its panics are unreachable |
| `Volume.FileSystem.Ensure` | fs/inode.c:67-71 | the zone at a position, made if missing, and nothing else changed |
| `Volume.FileSystem.Bmap` | fs/inode.c:57-123 | the zone of a block, on the fields: blocks 0 to 6 in the inode, 7 to 518 in the table of zone number 7, entry (b - 519) % 512 of the table named by entry (b - 519) / 512 of that of zone number 8, zero where a table is missing; with create the map grows at this block only, up to three levels; 0 only on a full disk |
| `Volume.MapOnFields` | fs/inode.c:66-121 | the map of every file in these terms |
| `Volume.EntryOnMap` | fs/inode.c:86-121 | the other way round: entry k of the table at entry j is the zone of block 519 + 512 * j + k |
| `ZoneRace.TestStep` | fs/inode.c:67-78 | with tasks overlapping: the test and the bitmap search change no map, and the zone is nobody's |
| `ZoneRace.StoreStep` | fs/inode.c:69-78 | the store puts the zone at its position and changes the map nowhere else |
| `ZoneRace.FullStores` | fs/inode.c:67-78 | on a full disk new_block returns without sleeping, and the zero is stored over a zero |
| `ZoneRace.TruncateStep` | fs/truncate.c:41-58 | a truncate between test and store of other files changes only its own file |
| `ZoneRace.StoreKeepsIff` | fs/inode.c:67-118 | whatever happened since the test, the store maps its zone and loses no other if and only if the position is still empty and still stored in the same cell, which the code does not test again |
| `ZoneRace.UndisturbedRunsGrow` | fs/inode.c:57-123 | over every run, with truncations and full disks, in which no two tasks grow one position at once and no file is truncated while it grows: trees stay separate, no zone is lost, and blocks of files not truncated stay where they are |
| `ZoneRace.TableLost` | fs/inode.c:75-82 | a run of two tasks in which one table is stored over the other and a mapped block becomes a hole |
| `ZoneRace.TruncateLosesZone` | fs/inode.c:85-90 | a run in which a file is truncated while a task grows it: the new zone is stored into a free block and lost |
| `Volume.FileSystem.Provide` | fs/inode.c:67-71 | a new zone where there was none, zero-filled |
| `Volume.FileSystem.Indirect` | fs/inode.c:75-93 | the single-indirect level |
| `Volume.FileSystem.DoubleIndirect` | fs/inode.c:94-122 | the double-indirect levels |
| `Volume.FileSystem.FreeInd` | fs/truncate.c:5-21 | clears exactly the bits of one table and its entries |
| `Volume.FileSystem.FreeDind` | fs/truncate.c:23-39 | clears exactly the bits of a double-indirect tree |
| `Volume.FileSystem.FreeDirect` | fs/truncate.c:47-51 | clears the direct zones |
| `Volume.FileSystem.Truncate` | fs/truncate.c:41-58 | clears exactly the bits of the file's tree, never one that is already clear |
| `Volume.NotYetFreed` | fs/truncate.c:15-17 | "bit already cleared" is unreachable in free_ind |
| `Volume.PartsDisjoint` | fs/truncate.c:47-53 | the three parts of a tree share no zone |
| `FileBytes.FileWrite` | fs/file_dev.c:42-84 | one call by itself: the data, or what fits, is spliced into the file at the position or at the end; a gap becomes zeros; other files are untouched; it stops early only on a full disk or with the panic of _bmap at the end of the largest file |
| `FileBytes.WriteBlocks` | fs/file_dev.c:58-77 | the loop, block by block, up to a full disk or the end of the largest file |
| `FileBytes.WriteChunk` | fs/file_dev.c:59-76 | one turn of the loop |
| `FileBytes.FileRead` | fs/file_dev.c:11-40 | the bytes from the position on, zeros for holes; it panics if and only if the range goes beyond the largest file |
| `FileBytes.ReadFile` | fs/read_write.c:52-78 | sys_read returns a slice of the content, cut at its end |
| `FileBytes.ByteOfBlock` | fs/file_dev.c:21-31 | byte 1024 * b + i of a file is byte i of the zone of block b, zero in a hole |
| `FileBytes.WroteIsSplice` | fs/file_dev.c:42-84 | writing bytes into blocks is splicing the content, because bytes past the end are zero |
| `FileBytes.MapGrowthKeepsBytes` | fs/bitmap.c:88-96 | a new block is cleared, so growing the map changes no byte |
| `FileBytes.OthersKeepContent` | fs/file_dev.c:42-84 | writing one file leaves the bytes of the others |
| `FileBytes.TruncatedFiles` | fs/truncate.c:41-58 | a truncated file is empty, and what is exposed later is zero |
| `WaitQueue.InvStep` | kernel/sched.c:120-165 | every interleaving of sleep_on, wake_up and resumption keeps the chain structure |
| `WaitQueue.NoLostSleeper` | kernel/sched.c:120-134 | from every sleeper saved pointers lead back to a queue head or to a task already runnable |
| `WaitQueue.WakeUpStartsDraining` | kernel/sched.c:159-165 | after wake_up each sleeper of the queue is on a draining chain |
| `WaitQueue.DrainStep` | kernel/sched.c:128-133 | nothing lengthens a draining chain and each resumption at its root shortens it |
| `WaitQueue.EveryoneIsReleased` | kernel/sched.c:120-165 | the k-th sleeper is out of sleep_on after at most k fair rounds, whatever else happens |
| `WaitQueue.SleepsUntilWoken` | kernel/sched.c:120-134 | over every run without a wake_up on its queue a task that has called sleep_on is still in that call |
| `Pipe.PipeInode.constructor` | fs/inode.c:216-230 | an empty pipe with both ends open |
| `Pipe.PipeInode.WakeUp` | kernel/sched.c:159-165 | afterwards nobody sleeps on the pipe |
| `Pipe.PipeInode.TakeByte` | fs/pipe.c:18-20 | takes the oldest byte of the ring |
| `Pipe.PipeInode.TakeBytes` | fs/pipe.c:17-21 | takes as many bytes as asked for or there |
| `Pipe.PipeInode.PutByte` | fs/pipe.c:44-45 | adds one byte behind the newest |
| `Pipe.PipeInode.Read` | fs/pipe.c:7-24 | returns the oldest bytes, end of file when the writer is gone, or sleeps |
| `Pipe.PipeInode.Write` | fs/pipe.c:26-50 | accepts what there is room for and sleeps for the rest; an error without a reader |
| `Pipe.PipeInode.WriteLoop` | fs/pipe.c:35-49 | the loop from its start or from where the writer was woken: exactly as many bytes as there is room for |
| `Pipe.PipeInode.NoRoom` | fs/pipe.c:36-43 | a full ring: give up if nobody reads, else sleep |
| `Pipe.PipeInode.Resume` | fs/pipe.c:7-50 | a woken reader gets the oldest bytes that are there, up to what it asked for, end of file if there are none and an end is closed, else it sleeps again; a woken writer puts in what there is room for and goes on counting |
| `Pipe.PipeInode.CloseEnd` | fs/inode.c:145-154 | closing an end wakes everybody |
| `Pipe.PipeInode.NeverStuckTogether` | fs/pipe.c:7-50 | a sleeping reader means an empty pipe, a sleeping writer a full one, both ends open; never both |
| `Pipe.PipeInode.Step` | fs/pipe.c:7-50 | any one call does what it does to the plain pipe, with the same outcome |
| `Pipe.PipeInode.Run` | fs/pipe.c:7-50 | over every interleaving ring and queue do what the plain pipe does, with the same outcomes; what came out is what the outcomes handed to readers, what went in is what was accepted from the writers' data |
| `Pipe.EffectConserves` | fs/pipe.c:7-50 | one call: bytes handed out and bytes left are the bytes that were there and those accepted, in order |
| `Pipe.NothingLost` | fs/pipe.c:7-50 | so over every run: delivered and contents are the first contents and what was accepted |
| `Pipe.WriteIsPrefix` | fs/pipe.c:26-50 | however often it sleeps and whoever runs in between, a write puts its bytes into the pipe in order and without gaps, and answers with the number that went in, fewer than passed only if an end was closed |
| `Pipe.ReadIsOldest` | fs/pipe.c:7-24 | however often it sleeps and whoever runs in between, a read answers with the first min(count, what is there) bytes in the pipe when it ends; with none only if it asked for none, or the pipe is empty and an end closed |
| `Pipe.PipeInode.Fill` | fs/pipe.c:44-48 | as many bytes as there is room for |
| `Scheduler.Processor.CheckSignals` | kernel/sched.c:79-87 | due alarms become signals and signals end interruptible sleeps |
| `Scheduler.Processor.Search` | kernel/sched.c:91-102 | the scan from the last task to the first |
| `Scheduler.Processor.Recharge` | kernel/sched.c:103-106 | halves and adds the priority, for every task but 0 |
| `Scheduler.Processor.Schedule` | kernel/sched.c:72-109 | at most one recharge, and the task switched to is the best one |
| `Scheduler.PickBest` | kernel/sched.c:91-102 | the scan finds a runnable task of maximal counter, the highest slot among equals, task 0 only if nobody can run |
| `Scheduler.SpentMeansZero` | kernel/sched.c:102-102 | a recharge happens exactly when some task can run and all that can are at zero |
| `Scheduler.TwoPasses` | kernel/sched.c:91-108 | after one recharge the search ends |
| `Scheduler.SettledTask` | kernel/sched.c:79-106 | one call of schedule, task by task: due alarms are signals, signals end interruptible sleeps, and counters are recharged if and only if some task can run and all that can have none left |
| `Scheduler.NextGood` | kernel/sched.c:72-178 | every step keeps counters and priorities in range and schedules the best task |
| `Scheduler.Processor.DoTimer` | kernel/sched.c:168-178 | with its time used up in user mode the task makes way for the best one; in kernel mode, or with time left, nothing changes but its counter |
| `Scheduler.Processor.GiveUp` | kernel/sched.c:112-134 | a task that leaves the processor by itself |
| `Scheduler.Processor.Nice` | kernel/sched.c:224-229 | keeps every priority at least one |
| `SchedulerShare.ProportionalShare` | kernel/sched.c:91-108 | over any run, ticks charged plus counter left equal the counter at the start plus priority times recharges |
| `SchedulerShare.ShareWithinTwoRounds` | kernel/sched.c:91-178 | so the share is priority per recharge, give or take less than two rounds |
| `SchedulerShare.FullShareEachRound` | kernel/sched.c:91-108 | between two recharges a task that can run at both is charged exactly its priority, at least one tick |
| `SchedulerShare.RechargeGivesPriority` | kernel/sched.c:103-106 | a recharge leaves a task that can run with exactly its priority |
| `SchedulerShare.AlwaysBounded` | kernel/sched.c:103-106 | counters stay below twice the priority |
| `SchedulerShare.RechargesComeSoon` | kernel/sched.c:91-108 | between recharges at most the sum of 2 * priority - 1 ticks are charged |
| `SchedulerTurns.KeepsItsTurn` | kernel/sched.c:168-178 | a computing task keeps the processor, and is charged each tick, until its counter is used up, whoever becomes runnable |
| `SchedulerTurns.KernelIsNotPreempted` | kernel/sched.c:177-177 | in kernel mode ticks never take it away |
| `SchedulerTurns.LeftWhenTimeIsUp` | kernel/sched.c:168-178 | in user mode it is left after as many ticks as its counter, if another task that can run has time left |
| `SchedulerTurns.LeftAtLatest` | kernel/sched.c:91-178 | and if none has, after as many ticks more as its priority |
| `SchedulerTurns.StaysIff` | kernel/sched.c:91-178 | exactly when the end of its time does not change the task: it can still run, and all others that can have no time left and come behind it in priority |
| `SchedulerTurns.StaysPastItsTurn` | kernel/sched.c:91-178 | two tasks with which that happens |
| `SchedulerTurns.GivesUpUntilWoken` | kernel/sched.c:120-134 | over every run, a task that sleeps uninterruptibly does not run before it is woken |
| `Elevator.StrictOrder` | kernel/hd.c:52-56 | IN_ORDER is a strict total order |
| `Elevator.FirstTwoStay` | kernel/hd.c:333-356 | add_request never moves the first two requests, and keeps the order of all |
| `Elevator.SplitLinear` | kernel/hd.c:112-116 | cylinder, head and sector give back the sector number |
| `Elevator.InOrderIsSectorOrder` | kernel/hd.c:101-117 | on one drive IN_ORDER is the order of sector numbers |
| `Elevator.InsertKeepsTwoSweeps` | kernel/hd.c:341-355 | behind the current request there are at most two ascending sweeps after every insertion |
| `Elevator.RepeatsBreakIt` | kernel/hd.c:348-354 | a queue with equal addresses for which that fails |
| `Elevator.AlwaysTwoSweeps` | kernel/hd.c:253-366 | so over every run of insertions and completions of distinct addresses |
| `Elevator.OvertakingBounded` | kernel/hd.c:327-366 | whatever is added meanwhile, what is served before a waiting request breaks the order no more often than what was ahead of it |
| `Elevator.TwoSweepsUntilServed` | kernel/hd.c:327-366 | from insertion to service at most two ascending sweeps pass, besides the current request |
| `Elevator.TwoSweeps` | kernel/hd.c:52-56 | one break means two strictly ascending parts |
| `Elevator.AtMostTwice` | kernel/hd.c:327-366 | no address is served more than twice ahead of a waiting request |
| `DiskQueue.Disk.constructor` | kernel/hd.c:397-413 | all slots free, the queue empty |
| `DiskQueue.Disk.SearchPlace` | kernel/hd.c:347-352 | the loop stops behind the first entry where the request fits, else at the end |
| `DiskQueue.Disk.Link` | kernel/hd.c:353-354 | the two link stores put the request in at that place of the queue |
| `DiskQueue.Disk.Start` | kernel/hd.c:341-342 | the first request of an idle disk |
| `DiskQueue.Disk.AddRequest` | kernel/hd.c:327-366 | the linked queue becomes the sequence with the request inserted |
| `DiskQueue.Disk.Submit` | kernel/hd.c:368-395 | takes the first free slot and queues it; reports a full table, for which the caller sleeps |
| `DiskQueue.Locate` | kernel/hd.c:106-116 | the address of a block is a place on the drive, at twice its number from the start of the partition |
| `DiskQueue.Disk.ReadWrite` | kernel/hd.c:101-117 | a block outside its partition is not queued |
| `DiskQueue.Disk.Complete` | kernel/hd.c:264-270 | the head of the queue is done and its slot free |
| `Terminal.EscSevenSavesIff` | kernel/console.c:431-434 | ESC 7 saves the cursor if and only if the cursor is in column 55 |
| `Terminal.EscEightRestoresIff` | kernel/console.c:431-434 | a character after ESC that is none of the commands, 8 among them, restores the saved cursor if and only if the cursor is in column 56, and else leaves it alone |
| `TerminalCodes.NumberRead` | kernel/console.c:447-449 | the digits of any number make that number, modulo 2 to the 32nd |
| `TerminalCodes.NumbersRead` | kernel/console.c:443-449 | so do up to sixteen numbers between semicolons |
| `TerminalCodes.NoArgument` | kernel/console.c:436-442 | a missing number is zero |
| `TerminalCodes.QuestionMark` | kernel/console.c:436-442 | a question mark makes no difference but to its flag |
| `TerminalCodes.VerticalMoves` | kernel/console.c:458-465 | ESC [ n A goes n lines up and B and e go n down, not at all if that is off the screen |
| `TerminalCodes.HorizontalMoves` | kernel/console.c:466-473 | C and a go n columns right, D left |
| `TerminalCodes.LineMoves` | kernel/console.c:474-481 | E and F go to the start of the line n further down or up |
| `TerminalCodes.Absolute` | kernel/console.c:454-485 | G and ` go to a column, d to a line, counted from one |
| `TerminalCodes.Position` | kernel/console.c:486-490 | ESC [ row ; column H and f go there |
| `TerminalCodes.SaveThenRestore` | kernel/console.c:521-526 | ESC [ s and ESC [ u go together, whatever comes between |
| `TerminalCodes.Erased` | kernel/console.c:164-222 | cell by cell what J and K blank |
| `TerminalCodes.LinesShifted` | kernel/console.c:326-356 | cell by cell what L and M shift |
| `TerminalCodes.CellsShifted` | kernel/console.c:316-345 | cell by cell what @ and P shift |
| `TerminalCodes.ScrollRegion` | kernel/console.c:512-520 | r sets the lines that scroll |
| `TerminalCodes.Attributes` | kernel/console.c:224-236 | of two attributes the last one known counts |
| `TerminalCodes.OneAttribute` | kernel/console.c:224-236 | the attribute bytes |
| `TerminalCodes.Printed` | kernel/console.c:382-394 | a printable character takes its cell and moves the cursor on |
| `TerminalCodes.PrintedNextLine` | kernel/console.c:383-387 | behind the last column it comes after a line feed |
| `TerminalCodes.LineFed` | kernel/console.c:67-137 | a line feed goes down or scrolls the region up, cell by cell; ESC D does the same |
| `TerminalCodes.LineBack` | kernel/console.c:427-428 | ESC M is the reverse |
| `TerminalCodes.NextLine` | kernel/console.c:423-424 | ESC E goes to the next line and never scrolls |
| `TerminalCodes.ControlCharacters` | kernel/console.c:398-417 | carriage return, backspace and tab |
| `TerminalCodes.EraseCharacter` | kernel/console.c:155-162 | the erase character blanks the cell before the cursor |
| `VideoMemory.RegionUp` | kernel/console.c:98-110 | moving lines within memory is scrolling a region up |
| `VideoMemory.RegionDown` | kernel/console.c:113-127 | and down |
| `VideoMemory.OriginUp` | kernel/console.c:70-96 | moving the origin and clearing one line scrolls the screen |
| `VideoMemory.WrapUp` | kernel/console.c:73-87 | so does copying everything to the start of video memory |
| `Console.Driver.ScrollScreen` | kernel/console.c:69-97 | scrolls the visible screen, keeps addresses and window inside video memory, stores only inside the window |
| `Console.Driver.Scrup` | kernel/console.c:67-111 | both forms scroll the region up |
| `Console.Driver.Scrdown` | kernel/console.c:113-127 | scrolls the region down |
| `Console.Driver.Gotoxy` | kernel/console.c:48-55 | moves the cursor, unless the place is off the screen |
| `Console.Driver.Lf` | kernel/console.c:129-137 | next line, scrolling at the bottom of the region |
| `Console.Driver.Ri` | kernel/console.c:139-147 | previous line, scrolling at its top |
| `Console.Driver.Del` | kernel/console.c:155-162 | erases the cell before the cursor |
| `Console.Driver.CsiJ` | kernel/console.c:164-191 | erases part of the screen and nothing outside it |
| `Console.Driver.CsiK` | kernel/console.c:193-222 | erases part of a line |
| `Console.Driver.InsertChar` | kernel/console.c:261-273 | shifts the rest of the line right |
| `Console.Driver.DeleteChar` | kernel/console.c:288-301 | shifts it left |
| `Console.Driver.InsertLine` | kernel/console.c:275-286 | shifts the lines below down |
| `Console.Driver.DeleteLine` | kernel/console.c:303-314 | shifts them up |
| `Console.Driver.InsertChars` | kernel/console.c:316-324 | inserting n times is inserting n blanks |
| `Console.Driver.DeleteChars` | kernel/console.c:336-344 | deleting n times is deleting n cells |
| `Console.Driver.InsertManyLines` | kernel/console.c:326-334 | inserting n times is inserting n blank lines |
| `Console.Driver.DeleteManyLines` | kernel/console.c:346-354 | deleting n times is deleting n lines, also where the window moves |
| `Console.Driver.SetAttributes` | kernel/console.c:224-236 | each argument in turn |
| `Console.Driver.PutText` | kernel/console.c:381-418 | printable and control characters |
| `Console.Driver.PutEscape` | kernel/console.c:419-435 | the character after ESC |
| `Console.Driver.PutArgument` | kernel/console.c:443-450 | the arguments of a CSI sequence, as 32-bit numbers |
| `Console.Driver.PutMove` | kernel/console.c:453-490 | the cursor commands |
| `Console.Driver.PutEdit` | kernel/console.c:491-527 | the other commands |
| `Console.Driver.Put` | kernel/console.c:379-529 | one character does to the window what it does to the plain terminal |
| `Console.Driver.ConWrite` | kernel/console.c:372-531 | so does every stream of characters, and the address invariants hold throughout |
| `ExecStack.Loader.CopyString` | fs/exec.c:175-193 | one string with its NUL below the others, or no frame for a page, or, exactly when it is longer than what is left, a store to a page that is not there or below address zero |
| `ExecStack.Loader.Reserve` | fs/exec.c:181-186 | exactly the pages from the lowest byte on are allocated, what is there stays; fails exactly when there are too few frames |
| `ExecStack.Loader.CopyStrings` | fs/exec.c:166-196 | any strings and any number of frames: they stand in order below what was there, or the outcome says what went wrong |
| `ExecStack.CopiedIff` | fs/exec.c:166-196 | all strings are copied if and only if they fit and there are frames for their pages |
| `ExecStack.CopyIff` | fs/exec.c:172-194 | exactly at which string and in which way copying stops: no frame, a page that is not there, or below address zero |
| `ExecStack.Loader.ChangeLdt` | fs/exec.c:215-220 | the pages are at the end of the data segment |
| `ExecStack.Loader.PutPointers` | fs/exec.c:132-141 | one table: each entry reads back its string, a null pointer ends it |
| `ExecStack.Loader.PutHeader` | fs/exec.c:129-131 | argc, argv and envp at the stack pointer |
| `ExecStack.Loader.CreateTables` | fs/exec.c:119-143 | the tables are aligned, below the strings and disjoint from them, and point at them |
| `ExecStack.Loader.SetUp` | fs/exec.c:274-297 | for all argument and environment strings and any number of frames: the stack from which the new program reads its strings back in order, or every frame is given back, or the kernel panics or goes astray |
| `ExecStack.StartedIff` | fs/exec.c:276-283 | do_execve passes its point of no return if and only if the strings fit with a byte to spare and there is a frame for each of their pages |
| `ExecStack.PanicsIff` | fs/exec.c:179-192 | exec panics if and only if a string does not fit, the ones behind it have their pages, and page 0 is not among these; the code's own test never fires |
| `ExecStack.AstrayIff` | fs/exec.c:187-192 | exec reads its table of pages far out of bounds if and only if a string does not fit while page 0 is in use, or memory ran out for the environment and there is an argument |
| `ExecStack.RefusedIff` | fs/exec.c:276-283 | with memory enough, exec returns an error if and only if the strings fill the area exactly |
| `ExecStack.LayoutReadsBack` | fs/exec.c:133-136 | what is read up to the k-th NUL is string k |
| `ExecStack.LowestByteFirst` | include/asm/segment.h:17-38 | a long is stored lowest byte first |
| `Directory.MatchIffSame` | fs/namei.c:56-71 | match succeeds exactly on a live entry with the same name cut to 14 bytes |
| `Directory.SameNameIff` | fs/namei.c:56-70 | two names are the same to a directory exactly when their first 14 bytes are |
| `Directory.PutInserts` | fs/namei.c:138-193 | storing a new name in an unused entry inserts it in the map |
| `Directory.PutUniqueIff` | fs/namei.c:138-193 | names stay unique if and only if the name was not there, which callers find out first |
| `Directory.ClearRemoves` | fs/namei.c:619-619 | clearing an entry removes its name from the map and no other |
| `Directory.Dir.FindEntry` | fs/namei.c:81-126 | finds the first live entry with the name if and only if the map has it |
| `Directory.Dir.FindFree` | fs/namei.c:160-191 | the first unused entry or the place behind the last |
| `Directory.Dir.AddEntry` | fs/namei.c:138-193 | the name is in the first unused entry, the map unchanged until the caller fills in the number |
| `Directory.Dir.Link` | fs/namei.c:666-682 | one call by itself: insertion of a name that is not there |
| `Directory.Dir.Unlink` | fs/namei.c:596-621 | one call by itself: deletion of a name that is there |
| `DirectoryRace.AddInsertsIff` | fs/namei.c:666-682 | with tasks overlapping: the store of an addition is an insertion if and only if nobody has added the name since the look-up and the block is still the directory's |
| `DirectoryRace.RemoveDeletesIff` | fs/namei.c:596-621 | the store of a removal is a deletion if and only if the entry found still has the name, or the store changes nothing and the name is gone |
| `DirectoryRace.AttachKeepsIff` | fs/inode.c:67-71 | a new block of the directory loses no name if and only if the directory has no name in that block, which is not tested again after new_block |
| `DirectoryRace.LookedOk` | fs/namei.c:81-126 | a look-up that goes block by block is right when it ends, though others add and remove other names meanwhile |
| `DirectoryRace.MappedStep` | fs/namei.c:138-193 | while that is so each store is the map operation, and nothing else changes the map |
| `DirectoryRace.OnlyStores` | fs/namei.c:138-190 | only the stores change a directory |
| `DirectoryRace.UndisturbedRunsAreMaps` | fs/namei.c:596-682 | over every run in which no task looks up a name that another is busy with and no two tasks grow the directory at once, the directory is the map of its additions and removals |
| `DirectoryRace.NameTwice` | fs/namei.c:345-361 | a run of two tasks after which one name is there twice |
| `DirectoryRace.GrowthLosesName` | fs/namei.c:162-191 | a run in which two tasks add different names to a full directory and one of them is gone |
| `DirectoryRace.WrongNameRemoved` | fs/namei.c:596-621 | a run in which removing a name removes another |
| `OpenFiles.AttachGood` | fs/fcntl.c:26-26 | one more descriptor and one more in f_count |
| `OpenFiles.ReserveGood` | fs/open.c:146-146 | an unused file named by one descriptor |
| `OpenFiles.DetachGood` | fs/open.c:188-195 | one descriptor less; the inode goes with the last |
| `OpenFiles.CommitGood` | fs/open.c:166-170 | an opened file owns one reference to its inode |
| `OpenFiles.UnreserveGood` | fs/open.c:147-151 | a failed open leaves nothing behind |
| `FileTable.Files.SysOpenStart` | fs/open.c:135-146 | the lowest free descriptor and an unused file, or an error and nothing changed, as in the machine without counts |
| `FileTable.Files.SysOpenEnd` | fs/open.c:147-171 | the file with its inode, or the descriptors as before the call |
| `FileTable.Files.SysClose` | fs/open.c:181-197 | iput is called for the inode at the last close and not before; "file count is 0" is unreachable |
| `FileTable.Files.DupFd` | fs/fcntl.c:12-28 | the lowest free descriptor from arg on names the same file, or one of its three errors and nothing changed |
| `FileTable.Files.SysDup2` | fs/fcntl.c:30-34 | the given descriptor does, unless both are the same; it is closed whatever comes of it |
| `FileTable.Files.SysPipeStart` | fs/pipe.c:52-78 | the two lowest files and descriptors, or nothing |
| `FileTable.Files.SysPipeEnd` | fs/pipe.c:79-91 | both files own one reference of the pipe inode each, or both descriptors are unused again |
| `FileTable.Files.SysFork` | kernel/fork.c:113-115 | each descriptor of the child names the file that the parent's does, no other task's changes, and each count rises by the number of the parent's descriptors that name the file |
| `FileTable.Files.SysExit` | kernel/exit.c:78-80 | the task names no file any more, and iput has been called for each file that it was the last to have open |
| `FileTable.Files.SysDie` | kernel/exit.c:78-80 | do_exit while open has a descriptor reserved: iput is called for each file that goes out of use and for whatever inode the reserved file had before |
| `FileTable.Files.Step` | fs/open.c:128-197 | any one call does to descriptors and files what it does in the machine without counts, with the same answer, and gets and puts exactly the inode references that it gets and puts there |
| `FileTable.Files.Run` | fs/open.c:128-197 | over every run, with deaths inside open, the counted tables do what the machine without counts does, with the same answers and the same references got and put; f_count is the number of descriptors naming the file; each reference handed over has been put once or belongs to a file in use if and only if no death met a file used before |
| `FileRefs.ConservedIff` | fs/open.c:146-197 | over every run of the machine without counts: what was put and what files in use own is what was owned and got, if and only if each task that dies inside open had reserved a file never used before |
| `FileRefs.CallConservesIff` | fs/open.c:146-197 | the same for each call by itself |
| `FileRefs.RunBalances` | fs/open.c:146-197 | and what is put too much otherwise are exactly the stale inodes of the reserved files |
| `FileRefs.ReservedStep` | fs/open.c:141-146 | a file that is being opened is named by one descriptor, whatever other tasks call |
| `FileRace.DeathSteals` | fs/open.c:190-195 | a run of open, close and open, from a table never used, after which every reference handed over has been put though a task still has the file open |
| `FileCalls.OpenFailsIff` | fs/open.c:135-145 | open fails exactly when all descriptors of the task or all files are in use |
| `FileCalls.OpenStarts` | fs/open.c:135-146 | else it takes the lowest descriptor and the lowest file that nobody has, and changes nothing else |
| `FileCalls.OpenEnds` | fs/open.c:147-172 | the reserved file has the inode found, or the descriptor is unused again |
| `FileCalls.PipeStarts` | fs/pipe.c:59-78 | pipe takes the lowest two of both |
| `FileCalls.PipeFailsIff` | fs/pipe.c:59-78 | it fails exactly when there are not two of each |
| `FileCalls.PipeEnds` | fs/pipe.c:79-91 | both files have the pipe inode, or both descriptors are unused again |
| `FileCalls.CloseClears` | fs/open.c:181-196 | close clears one open descriptor and changes no other |
| `FileCalls.DupShares` | fs/fcntl.c:12-28 | dup makes the lowest unused descriptor from arg on name the same file; each of its three errors exactly in its case |
| `FileCalls.Dup2Shares` | fs/fcntl.c:30-34 | dup2 makes newfd name oldfd's file, or leaves newfd closed |
| `FileCalls.ForkShares` | kernel/fork.c:75-75 | the child's descriptors name what the parent's do |
| `FileCalls.ExitCloses` | kernel/exit.c:78-80 | a task that ends has no descriptor left and no other task loses one |
| `FileCalls.LeadsThroughout` | fs/open.c:128-197 | over every run an open descriptor names the same file with the same inode until its own task gives it up, whatever else it and others call |
| `FileCalls.ForkedDescriptors` | kernel/fork.c:113-115 | over every run after a fork parent and child reach the same file and inode through each descriptor that neither has given up |
| `FileCalls.OpenedDescriptor` | fs/open.c:166-171 | over every run the descriptor that open answered with leads to the inode it found |
| `FileCalls.CloseReleasesIff` | fs/open.c:191-195 | close calls iput exactly when no other open descriptor of any task names the file |
| `FileMachine.CloseThenDup` | fs/fcntl.c:30-34 | closing and duplicating from there on is what dup2 is to do |
| `FileMachine.EffectOk` | fs/open.c:128-197 | descriptors always name files of the table |
| `FileMachine.OthersLeaveDescriptors` | fs/open.c:128-197 | over every run, what other tasks call leaves a task's descriptors alone |
| `FileTable.ReadyIffInUse` | fs/open.c:166-197 | a counted file has an inode exactly when some open descriptor names it |
| `FileTable.OwnedIsHeld` | fs/open.c:191-195 | so the references that counting holds are those of the files in use |

## Left out

- Port I/O, interrupt gates, assembly entry code, boot, keyboard and serial drivers, FPU state and the TLB: hardware. A disk transfer succeeds, and all bytes of a block are taken at one moment between the start and the end of a write; the drive takes two sectors one after the other.
- interruptible_sleep_on (kernel/sched.c:137-156): a task that loops back is not queued again, so the sleeper results are about sleep_on only.
- TaskMemory.Kernel.Exit: always leaves a zombie, and release is a separate step; a task without a father is released at once in the code (kernel/exit.c:91-95), which is those two steps in a row.
- TaskMemory.Kernel.Exec: does not map the argument pages (fs/exec.c:215-220), so that put_page's own failure there is not in it; `Paging.Memory.PutPage` says when it fails, and ExecStack has the pages and their contents.
- The pages that exec and pipe take from the same pool, and the stores of the kernel to a task's memory, are not requests of `Kernel.Run`; `Paging.Memory.PutPage`, `Paging.Memory.GetFreePage` and `KernelStores.PutByte` have the contracts they rely on.
- BufferQueues.Queues.InsertIntoQueues: does not store through the null pointer of an empty chain as fs/buffer.c:115-117 does; the store is guarded here, and at least two buffers are on the ring.
- BufferQueues.LinkChains: the same guard.
- BufferCache abstracts which unreferenced buffer is picked; BufferQueues has the ring that decides it.
- Volume.FileSystem.NewBlock: has no buffers, so the panic on a buffer count other than one is not in it; `BufferCache.NewBlockPanicsIff` says when it happens.
- Volume.FileSystem.FreeBlock: does not model the buffer reference kept by the early return of fs/bitmap.c:50-53.
- Volume.FileSystem.Bmap: one call by itself; ZoneRace has overlapping calls, with reading a table block as part of the test and truncate as one action.
- FileBytes.FileWrite: one call by itself; what becomes of the system after a panic is not said.
- InodeTable leaves open which unreferenced slot get_empty_inode tries and which clear bit new_inode finds, and does not model "No free inodes in mem", at which the code stops.
- The contents of an inode while iput truncates it are not modelled; runs in which another task uses it then are the intrusions of InodeRuns.
- Elevator and DiskQueue: insertion is atomic with respect to completion, the `sorting` flag and the retries after an error (kernel/hd.c:239-251) are not modelled; a request given up after too many errors leaves the queue like a completed one.
- Console.Driver.PutEscape: does not model the answer to ESC Z (kernel/console.c:248-259), which goes to the input queue; cursor and origin registers are hardware.
- Console.Driver.DeleteManyLines: does not say that all stores are inside the final window, because the window moves with each deletion.
- ExecStack.StartedIff: says nothing of the frames that the pages of the pointer tables take after the point of no return (fs/exec.c:129-141); with none left the task dies there.
- ExecStack.Loader.SetUp: the same, and get_fs_byte may itself take a frame for an absent page of the caller while the strings are copied.
- ExecStack does not model read_area, the a.out header and the file limits; what happens after a store below address zero is not said, since the code then goes on outside its own table.
- Directory: holes in a directory, removing the directory itself, permissions, path walking, timestamps and the failure paths of sys_mkdir; reading a block succeeds.
- Directory.Dir.Link: one call by itself; the directory's own inode and the buffers are not modelled; a full disk is a parameter.
- Directory.Dir.Unlink: one call by itself; DirectoryRace has overlapping calls.
- FileTable: f_pos, f_mode, f_flags and close_on_exec are not modelled; open_namei and get_pipe_inode are parameters; a tty refused at open (fs/open.c:153-165) is a failed open. The inodes that open_namei itself holds when a task dies in it are not modelled.
- WaitQueue and Pipe say nothing about signals.
- Signal delivery, terminals, mount, stat, ioctl, kernel/vsprintf.c, kernel/mktime.c and the library stubs: thin wrappers or data.
- Integers are unbounded except where a width matters: console arguments wrap at 32 bits, process numbers at the largest positive long, reference counts are shown to stay small, disk sectors and file positions are assumed to fit in 32 bits.
