# JOS in Dafny

This project models the hard core of the JOS exokernel, its user library, its file server and its
network driver, and proves what that code promises.

| file | module | models |
|---|---|---|
| memory.dfy | PageTables | physical pages, the free list, two-level page tables and reference counts, as values |
| pmap.dfy | PageManager | the page manager of kern/pmap.c, address space set-up and tear-down of kern/env.c |
| env.dfy | Environments | environment identifiers |
| kernel.dfy | Kernel | the environment table and the system calls over the page manager |
| cow.dfy | CopyOnWrite | copy-on-write fork as a machine of single system calls, beside one that copies eagerly |
| fork.dfy | UserFork | fork, duppage and pgfault on the page manager, following runs of that machine |
| smp.dfy | Multiprocessor | trap entry, the kernel lock, switching and halting on any number of processors |
| sched.dfy | Scheduler | round-robin scheduling |
| ipc.dfy | Ipc | message passing over whole runs |
| pipe.dfy, pipeeof.dfy | PipeBuffer, PipeEof | the pipe's ring buffer, and its end-of-file test by reference counts |
| bc.dfy | BlockCache | the write-back block cache and fs_sync |
| fs.dfy | FileSystem | block bitmap, block slots, byte-level reads and writes through the cache, truncation |
| format.dfy | Format | the formatter, the reader that undoes it, over the bytes of the image, and the image as the file server finds it |
| malloc.dfy | Malloc | the user-level allocator |
| e1000.dfy | Packets, TransmitRing, ReceiveRing | the descriptor rings against a device that works on its own |
| stabs.dfy, numbers.dfy | Stabs, Numbers | the symbol search; number printing and parsing |

Code that changes state in place is a class or a method proved against a function of the old state;
invariants are predicates over one value that bundles the fields (`Pm`, `Table`, `Fs`, `Heap`).  Code
that runs interleaved with other environments, processors or a device is a machine whose steps are the
single system calls, loads and stores; main theorems quantify over every run of it.

A 32-bit page table entry or permission argument is `Word(frame, flags)`: its upper 20 bits and its
lower 12.  A virtual page is a pair of directory and table index.  A page directory or table entry
belongs to the environment whose directory it is reached from.

## Where the code does not meet its promise

Each of these is a lemma with the exact condition, or the input that shows it:

- `pp_ref` has 16 bits: `PageTables.InsertKeepsCountsIff` and, from any state with an empty address
  space and 64 free pages, `PageTables.LimitReached`.
- Setting a status: waking a waiting receiver loses exactly-once delivery, and nothing else does
  (`Ipc.DeliveryIff`; `Ipc.WokenReceiverMisreads` and `Ipc.WokenReceiverRepeats` are the runs); on an environment that runs elsewhere, or on oneself to RUNNABLE when
  nobody else is, it puts one environment on two processors, and so does destroying a dying environment
  again.  `Multiprocessor.DispatchSafeIff` is exact: every careful run after the call stays safe if and
  only if the call was careful; `Multiprocessor.ElsewhereRunsTwice`, `DestroyTwiceRunsTwice`,
  `SelfRunnableRunsTwice` and `WokenReceiverUnsafe` give the runs.
- A scan that starts after the last slot never looks at slot 0: `Scheduler.ScanOnceIff`.
- fork and spawn map all descriptor pages before the data pages, so a pipe can look closed meanwhile:
  `PipeEof.ForkMisleads` is a run, `PipeEof.ClosedExactly` and `PipeEof.ClosedIsRight` the exact condition.
- The allocator's pointer may step off the last page of the arena, and the search from there leaves it:
  `Malloc.Arena.Malloc` says exactly when and where it ends, `Malloc.SearchStaysIff` where it looks, and
  `Malloc.Arena.FillThenLeave` gets there from an empty heap by calls of malloc alone.
- A transmit ring filled to its last slot stops for good: `TransmitRing.RunStopsIff` for every run,
  `TransmitRing.FortyCallsStop` for any 40 calls before the device takes a packet.
- The symbol search raises the address it looks for at every exact match: `Stabs.SearchAnswers` and
  `Stabs.AnswerRightIff` say for every ordered table how far off the answer is, `Stabs.AdjacentMisleads`
  and `Stabs.DuplicatesMislead` are inputs.
- The formatter leaves the block words past a file's blocks as malloc returned them; the file server's
  invariant holds of the image if and only if they are zero (`Format.FormattedOkIff`,
  `Format.MakeImage`).  Reads work either way (`Format.ServerHasData`), but where such a word names a
  block of another file, a growing write changes that file (`Format.DirtyWriteHits`).
- An identifier comes back after 524287 allocations of its slot: `Environments.IdRepeatsIff`.

## Model

| member | source | states |
|---|---|---|
| `PageManager.Memory.PageInit` | kern/pmap.c:348-420 | the boot loop leaves exactly the pages outside page 0, page 7, the I/O hole and the kernel image on an acyclic list, each unreferenced, and counts one reference for page 0 and the kernel image |
| `PageManager.Memory.PageAlloc` | kern/pmap.c:433-450 | NULL exactly when the list is empty, else its head, unlinked and zeroed on request; the list stays well formed |
| `PageManager.Memory.PageFree` | kern/pmap.c:456-488 | the page becomes the head of the list, which stays acyclic and duplicate-free |
| `PageManager.Memory.PageDecref` | kern/pmap.c:494-499 | one reference less, and on the list exactly when it was the last |
| `PageManager.Memory.PgdirWalk` | kern/pmap.c:524-560 | the table for the address; NULL exactly when it is missing and may not or cannot be created; a created table is counted once |
| `PageManager.Memory.PageLookup` | kern/pmap.c:656-669 | the page mapped at the address, NULL when nothing is |
| `PageManager.Memory.PageRemove` | kern/pmap.c:686-698 | unmaps and drops one reference; nothing at all when nothing is mapped |
| `PageManager.Memory.PageInsert` | kern/pmap.c:624-638 | fails exactly when a table is needed and no page is free, then changes nothing; else exactly the one mapping is new, contents of all pages keep, and every count still matches |
| `PageManager.Memory.EnvSetupVm` | kern/env.c:177-218 | a directory with nothing below UTOP, itself read-only at UVPT and the kernel's entries everywhere else, counted once; -E_NO_MEM without effect when no page is free |
| `PageManager.Memory.AllocAt` | kern/syscall.c:240-289 | a zeroed page at the address, or -E_NO_MEM with the page given back and no mapping changed |
| `PageManager.Memory.MapAt` | kern/syscall.c:308-356 | the page at the source address also at the destination; every failure leaves everything as it was |
| `PageManager.Memory.UnmapAt` | kern/syscall.c:367-388 | exactly that mapping gone |
| `PageManager.Memory.EnvFree` | kern/env.c:480-528 | after the nested loops exactly the environment's references are gone, and no data page has changed |
| `PageManager.Lifetime` | kern/env.c:177-218 | creating an environment, any run of its own maps and unmaps and destroying it restores every reference and the set of free pages |
| `PageTables.ReinsertKeepsPage` | kern/pmap.c:609-638 | re-inserting the page already mapped at an address keeps its count and never frees it |
| `PageTables.InsertKeepsCountsIff` | inc/memlayout.h:187 | page_insert, with or without a new page table, keeps the counts if and only if the page has fewer than 65535 mappings or is already mapped there |
| `PageTables.CountWraps` | inc/memlayout.h:187 | at 65535 mappings one more leaves a count of 0 and 65536 references |
| `PageTables.LimitReached` | inc/memlayout.h:187 | from every correct state with an empty address space and 64 free pages, mapping one page often enough reaches a correct state with a count of 65535, and the next mapping leaves a count of 0 and 65536 references |
| `PageTables.FreeUndoesAlloc` | kern/pmap.c:433-488 | freeing a page just allocated restores the list and the links exactly |
| `PageTables.FreeIffUnnamed` | kern/pmap.c:433-499 | a managed page is on the free list if and only if nothing names it |
| `PageTables.DestroyFrees` | kern/env.c:480-528 | destroying an environment adds to the free list exactly the pages only it named |
| `PageTables.InsertFacts` | kern/pmap.c:624-638 | an insert keeps all three parts of the invariant, and all other mappings and page contents |
| `PageTables.RemoveFacts` | kern/pmap.c:686-698 | a removal keeps the invariant, and all other mappings and page contents |
| `Environments.IdClosedForm` | kern/env.c:242-246 | the identifier after n allocations of a slot, in closed form over the wrap-around |
| `Environments.IdNamesSlot` | kern/env.c:242-246 | every allocated identifier is positive and ENVX of it is its slot |
| `Environments.IdRepeatsIff` | kern/env.c:242-246 | two allocations of a slot share an identifier if and only if a multiple of 524287 allocations lies between them |
| `Kernel.Kernel.EnvInit` | kern/env.c:124-144 | every slot free and listed in ascending order |
| `Kernel.Kernel.Envid2Env` | kern/env.c:77-116 | the caller for 0; else the slot of a live environment with that identifier, with the check only the caller itself or its child, else -E_BAD_ENV; within 524287 allocations never a stale identifier |
| `Kernel.Kernel.EnvAlloc` | kern/env.c:228-292 | the head of the free list with a new identifier, the parent given, RUNNABLE, not receiving, and a fresh address space; no other slot changes; either error changes nothing |
| `Kernel.Kernel.EnvFree` | kern/env.c:480-528 | the slot back on the list, its references gone, and exactly the pages only it named freed |
| `Kernel.Kernel.SysExofork` | kern/syscall.c:96-123 | a child that is not runnable, under a positive identifier that named nobody before; with the permission check it is good for the caller and for no other live environment; nothing else in the table changes |
| `Kernel.ChildIsMine` | kern/env.c:100-112 | a child's identifier passes envid2env's permission check for its parent and for nobody else but itself |
| `Kernel.Kernel.SysEnvSetStatus` | kern/syscall.c:132-156 | errors in the source's order; else exactly that status changes |
| `Kernel.Kernel.SysPageAlloc` | kern/syscall.c:240-289 | the exact error for every argument, or one zeroed page mapped with the permissions asked for |
| `Kernel.Kernel.SysPageMap` | kern/syscall.c:308-356 | the exact error for every argument, without effect, or exactly one new mapping of the source page |
| `Kernel.Kernel.SysPageUnmap` | kern/syscall.c:367-388 | the exact error, or exactly that mapping gone |
| `Kernel.Kernel.SysIpcRecv` | kern/syscall.c:511-525 | -E_INVAL for an unaligned address, else the caller waits at that address and is not runnable |
| `Kernel.Kernel.CheckPage` | kern/syscall.c:459-473 | accepts exactly an aligned, mapped page with a permission the sender may give away |
| `Kernel.Kernel.SendPage` | kern/syscall.c:476-478 | the sender's page at the receiver's address, or -E_NO_MEM without effect |
| `Kernel.Kernel.Deliver` | kern/syscall.c:480-490 | the receiver is RUNNABLE, no longer receiving, and holds value, sender and permission; nothing else changes |
| `Kernel.Kernel.SysIpcTrySend` | kern/syscall.c:444-493 | errors in the source's order and without effect; else the receiver is RUNNABLE, no longer receiving, and holds value, sender and permission, and a page has crossed if and only if both named an address below UTOP |
| `Kernel.Run` | kern/syscall.c:96-525 | any run of system calls by any environments keeps the whole invariant |
| `Kernel.ConsistentNow` | kern/pmap.c:433-698 | the invariant means: every count equals the number of entries and directories naming the page, the list has no duplicates and holds exactly the unnamed pages |
| `Kernel.AllocatedOk` | kern/env.c:228-292 | allocation keeps the table and its free list well formed |
| `Kernel.FreedOk` | kern/env.c:480-528 | freeing keeps them well formed |
| `CopyOnWrite.ForkRefinesEagerCopy` | lib/fork.c:14-201 | over every interleaving of writes, faults, allocations, unmaps, maps of PTE_SHARE pages, forks and exits, a running environment reads its private memory exactly as if fork had copied it |
| `CopyOnWrite.SharedPagesReadOnly` | lib/fork.c:85-133 | a page with two private mappings is writable through neither, outside the two transits |
| `CopyOnWrite.TempAlone` | lib/fork.c:14-69 | until pgfault maps it, nobody else maps the page it allocated |
| `CopyOnWrite.StepKeepsInv` | lib/fork.c:14-201 | every step keeps the sharing invariant |
| `CopyOnWrite.StepRefines` | lib/fork.c:14-201 | every step keeps the real memory equal to the eager one |
| `CopyOnWrite.QuietStart` | lib/fork.c:154-201 | a state without forks or faults in progress and without shared private pages satisfies both |
| `UserFork.Duppage` | lib/fork.c:85-133 | a user page stays present and accessible to user code in parent and child; either can write it only if it is PTE_SHARE and was writable, and a private page that was writable or copy-on-write is copy-on-write in both; follows the machine's steps; -E_NO_MEM without effect |
| `UserFork.Pgfault` | lib/fork.c:14-69 | a page user code can write, with the contents of the old one, has taken its place, the temporary mapping is gone and no other mapping has changed; the machine's four fault steps, the environment running and all forks where they were; -E_NO_MEM without a new mapping |
| `UserFork.DupAll` | lib/fork.c:178-182 | fork's loop duplicates exactly the parent's user pages below the stack top, page by page; all other mappings and the contents of the parent's pages keep |
| `UserFork.InheritedFlags` | lib/fork.c:85-133 | what duppage does to the present, user, write, share and copy-on-write bits of parent and child, for every combination |
| `UserFork.Fork` | lib/fork.c:154-201 | every user page below the stack top is inherited as by duppage, the child reads at each what the parent read and has a fresh writable exception stack; the run it follows ends with the child runnable and the parent running, no longer in fork; otherwise -E_NO_MEM |
| `UserFork.TracedIsEager` | lib/fork.c:14-201 | after every run of these calls and of user code, each private page of a runnable environment holds in its frame what eager copying would have left at that address |
| `UserFork.TracedReadOnly` | lib/fork.c:85-133 | of two page table entries for one page, one of them private, neither is writable outside the two transits |
| `UserFork.CopyPage` | lib/fork.c:52 | one page's contents copied over another's, page tables untouched |
| `Multiprocessor.KernelLockSafe` | kern/trap.c:345-419 | over every careful run of any number of processors: one at a time in the kernel, one acquisition per entry and one release per exit, no environment current on two processors, every RUNNING or DYING one current on exactly one |
| `Multiprocessor.DispatchSafeIff` | kern/syscall.c:132-156 | after a system call the kernel accepts, every careful run stays safe if and only if the call itself was careful |
| `Multiprocessor.CarelessUnsafe` | kern/syscall.c:132-156 | after each kind of careless call there is a careful run that ends unsafe |
| `Multiprocessor.ElsewhereRunsTwice` | kern/syscall.c:132-156 | setting a child that is current elsewhere RUNNABLE has a run that makes it current on two processors |
| `Multiprocessor.DestroyTwiceRunsTwice` | kern/env.c:535-552 | destroying a dying child has a run in which its slot, forked anew, is current on two processors |
| `Multiprocessor.WokenReceiverUnsafe` | kern/syscall.c:444-493 | a waiting receiver made RUNNABLE has a run in which, once the others block, it sends to itself and is RUNNABLE while it runs |
| `Multiprocessor.DispatchKeepsInvIff` | kern/env.c:535-552 | a system call the kernel accepts keeps the invariant if and only if its status change or destruction is careful |
| `Multiprocessor.RunKeepsInvIff` | kern/env.c:585-625 | env_run keeps it if and only if it does not restart a current environment that is not RUNNING |
| `Multiprocessor.StepKeepsInv` | kern/trap.c:345-419 | every step of trap, dispatch, scheduling, halting and unlocking keeps the invariant |
| `Multiprocessor.MovesKeepInv` | kern/spinlock.c:60-120 | so do trap entry, the two spin loops, halting and unlocking |
| `Multiprocessor.CollectKeepsInv` | kern/trap.c:381-386 | so does freeing a zombie on entry |
| `Multiprocessor.PickKeepsInv` | kern/sched.c:31-55 | so does the scheduler's choice, the RUNNABLE environment nearest after the current one or else the current one |
| `Multiprocessor.ReachFrom` | kern/sched.c:31-55 | every RUNNABLE environment can be reached by that choice: those nearer are picked first and block |
| `Multiprocessor.SelfRunnableStays` | kern/env.c:608-620 | from every state in which an environment has set itself RUNNABLE and no other one is, it goes on running with that status |
| `Multiprocessor.SelfRunnableRunsTwice` | kern/sched.c:41-48 | from every such state with an idle processor, that one runs it as well |
| `Multiprocessor.SomeoneMoves` | kern/trap.c:345-419 | in every reachable state some processor can take a careful step, unless nothing is left to run |
| `Multiprocessor.RecvWaits` | kern/syscall.c:511-525 | after sys_ipc_recv the caller waits and no processor can pick it |
| `Multiprocessor.ReceiverRuns` | kern/syscall.c:480-490 | a send to a waiting environment has a careful run in which it is the next to run |
| `Multiprocessor.DestroyEnds` | kern/env.c:535-552 | a destroyed environment is free at once, or marked as dying exactly if another processor runs it, and is never picked |
| `Multiprocessor.DyingFreed` | kern/trap.c:381-386 | a dying environment is free as soon as its processor has entered the kernel |
| `Scheduler.Processor.SchedYield` | kern/sched.c:31-58 | runs the RUNNABLE environment nearest after the current one and counts its run; the old one is RUNNABLE again if it was RUNNING; else the current one if RUNNING; else halts; only the current one is RUNNING after if that was so before, and none that was ready is lost |
| `Scheduler.Processor.Alternate` | kern/sched.c:31-58 | two ready environments take turns: after two yields all statuses are as before and each has run once more |
| `Scheduler.Processor.YieldUntil` | kern/sched.c:31-58 | however many environments are ready, yields alone bring any of them to run within its distance, keep all of them ready and one at a time RUNNING |
| `Scheduler.Processor.EnvRun` | kern/env.c:585-625 | statuses and the run count change only on a switch, and only those of the two environments |
| `Scheduler.ScanOnceIff` | kern/sched.c:35-51 | a scan examines every slot exactly once if and only if it starts inside the table |
| `Scheduler.DistanceFalls` | kern/sched.c:31-55 | each yield that does not run a waiting environment brings it strictly closer |
| `Scheduler.RunsWithin` | kern/sched.c:31-55 | an environment that stays RUNNABLE runs after at most as many yields as its distance, so within NENV, whatever happens to the others |
| `Ipc.DeliveredExactlyOnce` | lib/ipc.c:22-91 | over every run in which nobody wakes a waiting receiver by status, what an environment received is what was sent to it, in order, once, and at most one message behind; a second sender cannot overwrite |
| `Ipc.DeliveryIff` | kern/syscall.c:132-156 | a step the kernel takes does not wake a waiting receiver by status if and only if delivery is exactly once in every run after it |
| `Ipc.SentIsReturned` | kern/syscall.c:480-490 | after a send that finds its receiver waiting, the receiver can run next and returns exactly that message |
| `Ipc.Exchange` | lib/ipc.c:22-91 | a receive and then a send: the receiver cannot go on before the send, and then returns its message |
| `Ipc.StepKeepsInvIff` | kern/syscall.c:132-156 | every step keeps the invariant if and only if it does not wake a waiting receiver by status |
| `Ipc.WokenReceiverMisreads` | kern/syscall.c:511-525 | every receiver woken that way can run and return a message that was not sent |
| `Ipc.WokenReceiverRepeats` | kern/syscall.c:511-525 | woken right after it began to wait, a receiver whose fields still hold its previous message returns that message again |
| `PipeBuffer.PipeFifo` | lib/pipe.c:104-172 | for every interleaving at single loads and stores and every split into calls, 0 <= wpos - rpos <= 32 and the bytes read are a prefix of the bytes written |
| `PipeBuffer.ReadEnds` | lib/pipe.c:116-136 | in every step a read ends short only if the pipe was empty, and with nothing only if it is closed as well; and there it does end |
| `PipeBuffer.WriteEnds` | lib/pipe.c:151-169 | in every step a write ends short only if the pipe was full and is closed; and there it does end |
| `PipeBuffer.ReadReturns` | lib/pipe.c:104-137 | left alone, a read returns the next bytes written, as many as asked for or as there are; with none it returns none exactly if the pipe is closed and looks again otherwise |
| `PipeBuffer.WriteReturns` | lib/pipe.c:139-172 | left alone, a write stores all its bytes or as many as there is room for; in a full pipe it gives up exactly if the pipe is closed |
| `PipeBuffer.WriteThenRead` | lib/pipe.c:104-172 | up to 32 bytes written into an empty pipe are read back exactly |
| `PipeBuffer.StepKeepsInv` | lib/pipe.c:104-172 | every load and store keeps the invariant |
| `PipeBuffer.StoreKeeps` | lib/pipe.c:165-168 | storing a byte overwrites none that is still to be read |
| `PipeBuffer.AdvanceKeeps` | lib/pipe.c:131-134 | the byte taken is the next one written |
| `PipeEof.ClosedExactly` | lib/pipe.c:75-89 | over every run of dup, close, exit and fork, _pipeisclosed returns true if and only if the descriptors for the other end and the lone pipe pages together are as many as the half-mapped slots of children being forked |
| `PipeEof.ClosedIsRight` | lib/pipe.c:75-89 | so a true answer is wrong exactly when such slots make up for the other end's descriptors, is right whenever no fork is half way, and in quiescent states a false answer is right too |
| `PipeEof.PipeBalance` | lib/pipe.c:185-190 | in every state the mappings of the pipe page and of both ends differ by exactly the slots that are half mapped, one way or the other |
| `PipeEof.PipeOutnumbersEnds` | lib/fd.c:174-202 | after every system call outside a fork the pipe page has at least as many mappings as both ends together |
| `PipeEof.QuiescentCounts` | lib/pipe.c:185-190 | with no close, dup or fork in progress, exactly as many |
| `PipeEof.CheckReturns` | lib/pipe.c:75-89 | undisturbed, _pipeisclosed answers at once by comparing the two counts |
| `PipeEof.CloseUnmaps` | lib/pipe.c:185-190 | undisturbed, close unmaps the descriptor page and a pipe's data page, and nothing else |
| `PipeEof.DupMaps` | lib/fd.c:174-202 | undisturbed, dup maps the same descriptor and data page at the new number, and nothing else |
| `PipeEof.ForkCopies` | lib/fork.c:178-182 | undisturbed, fork leaves the child with all the parent's descriptor and data pages, and the parent with its own |
| `PipeEof.ExitUnmaps` | lib/exit.c:5-12 | exit unmaps all of an environment's pages and nobody else's |
| `PipeEof.StepKeepsInv` | lib/fd.c:174-202 | every system call of dup, close and fork, every switch and every exit keeps the pairing of descriptor and data pages, except in a child being forked |
| `PipeEof.ForkMisleads` | lib/fork.c:178-182 | a run in which fork has mapped one descriptor page and a reader elsewhere is told that the open write end is closed |
| `FileSystem.FileServer.BlockIsFree` | fs/fs.c:28-37 | true exactly for a block of the disk whose bit is set |
| `FileSystem.FileServer.AllocBlock` | fs/fs.c:59-80 | the first free block, taken, never block 0; -E_NO_DISK exactly when none is free |
| `FileSystem.FileServer.FileGetBlock` | fs/fs.c:207-231 | the slot's block, allocated first if empty; no allocated byte of any file changes; an error means a full disk and changes nothing |
| `FileSystem.FileServer.FileRead` | fs/fs.c:393-415 | the stored bytes up to the end of the file; fails only on a hole with the disk full |
| `FileSystem.FileServer.FileWrite` | fs/fs.c:422-444 | the bytes are there, no other allocated byte of any file has changed, the size is the larger; fails only with the disk full |
| `FileSystem.FileServer.WriteThenRead` | fs/fs.c:393-444 | reading back what was written returns exactly it |
| `FileSystem.FileServer.WriteSyncRead` | fs/fs.c:393-530 | written through the cache, synced, the cache lost and read again: exactly the bytes written |
| `FileSystem.FileServer.FileFreeBlock` | fs/fs.c:448-461 | the slot cleared and its block free |
| `FileSystem.FileServer.FileTruncateBlocks` | fs/fs.c:472-488 | exactly the blocks past the new size are freed and their slots cleared |
| `FileSystem.FileServer.FileSetSize` | fs/fs.c:491-499 | no byte below the new size and no byte of another file changes; shrinking frees exactly the blocks wholly past it and the indirect block; growing changes no block |
| `FileSystem.SetBitFree` | fs/fs.c:41-48 | setting or clearing one block's bit changes no other block's state |
| `FileSystem.TakeOk` | fs/fs.c:59-80 | a free block is held by no slot, so taking it keeps all slots distinct and in use |
| `FileSystem.ClearedOk` | fs/fs.c:448-461 | clearing a slot and freeing its block keeps the invariant |
| `FileSystem.StoreBytes` | fs/fs.c:437-438 | storing a chunk puts it where reads find it and changes nothing else |
| `BlockCache.Cache.Fault` | fs/bc.c:29-71 | the block in memory, clean, and nothing a reader sees changed |
| `BlockCache.Cache.FlushBlock` | fs/bc.c:84-111 | the block's bytes on disk and clean; other blocks and what readers see unchanged |
| `BlockCache.Cache.FsSync` | fs/fs.c:524-530 | afterwards the disk holds what readers see |
| `BlockCache.Cache.SyncSurvivesRestart` | fs/fs.c:524-530 | after a sync, dropping the cache and faulting again returns the same bytes |
| `BlockCache.Cache.Run` | fs/bc.c:29-111 | over any run, clean pages equal the disk and readers see the writes and nothing else |
| `BlockCache.DropKeepsIff` | fs/bc.c:84-111 | dropping a page is harmless if and only if its bytes are on disk |
| `Format.MakeImage` | fs/fsformat.c:220-245 | succeeds exactly when there are at most 128 files and everything plus one block fits; then every file, the directory, the root and the bitmap are laid out, and the file server can work on it if and only if the words past the files' blocks were zero in what malloc returned |
| `Format.Formatter.OpenDisk` | fs/fsformat.c:91-122 | headers, an empty root directory node and a bitmap of free blocks |
| `Format.Formatter.WriteFile` | fs/fsformat.c:182-211 | the file's entry and data at the bump pointer; earlier files untouched; fails exactly when out of entries or blocks |
| `Format.Formatter.FinishDir` | fs/fsformat.c:171-180 | the entries in order in the directory's own blocks, empty names after them, the root pointing there |
| `Format.Formatter.FinishDisk` | fs/fsformat.c:124-134 | exactly the blocks below the bump pointer are marked in use |
| `Format.FinishFile` | fs/fsformat.c:136-150 | size and consecutive block numbers in the node, the indirect block after them when all ten slots are used; name, type and all later block words as they were |
| `Format.WordPut` | inc/fs.h:29-42 | a word stored in a node reads back |
| `Format.DirLookup` | fs/fs.c:234-258 | the first entry of that name, or -E_NOT_FOUND when there is none |
| `Format.WalkPath` | fs/fs.c:305-354 | root, entry, -E_NOT_FOUND or -E_BAD_PATH according to the path's components |
| `Format.ReadFile` | fs/fs.c:393-415 | the bytes found through the node's slots, up to its size |
| `Format.FindAndRead` | fs/fs.c:305-415 | every file of a formatted disk is found by its name and read back byte for byte |
| `Format.FormattedOkIff` | fs/fsformat.c:136-150 | a formatted image is a state the file server's invariant admits if and only if the f_direct words past each file's blocks, and f_indirect of a file below ten blocks, are zero in its entry |
| `Format.ServerHasData` | fs/fs.c:393-415 | in the file server's view of a formatted image every file's bytes are its source's |
| `Format.ServeFile` | fs/fs.c:393-415 | started on such an image with zero words, the file server reads back every file byte for byte |
| `Format.DirtyWriteHits` | fs/fs.c:422-444 | on an image where a word past a file's blocks names a data block of another file, the store of a growing file_write changes that file's byte |
| `Malloc.Arena.Malloc` | lib/malloc.c:41-112 | the pointer leaves the arena if and only if it must step off the last page and the 32-bit search from there goes astray, and then where it ends; otherwise a new block apart from all live ones, in the current page if it fits and else at the first accepted page, or 0 exactly for a reason: too large, no address space, no memory; the invariant kept |
| `Malloc.Arena.FillThenLeave` | lib/malloc.c:41-112 | from an empty heap 128 requests of 0xFFFF8 bytes are all served and the next one of 8 bytes takes the pointer out of the arena, whenever some page below it is unmapped |
| `Malloc.StretchServed` | lib/malloc.c:83-111 | each of those requests gets the 256 pages right behind the ones before |
| `Malloc.Arena.Free` | lib/malloc.c:114-139 | exactly that block gone, its last page unmapped exactly when its count reaches zero |
| `Malloc.Arena.Search` | lib/malloc.c:83-93 | the first page the test accepts along the path from the pointer, over 32-bit wrap-around; gives up after the second time around the end exactly when none would ever be accepted |
| `Malloc.Arena.IsFree` | lib/malloc.c:29-39 | true exactly when no page the chunk needs, with 32-bit addresses, lies past the end or is mapped |
| `Malloc.Arena.AllocPages` | lib/malloc.c:98-105 | all pages of the chunk, all but the last marked continued, or none |
| `Malloc.Arena.Undo` | lib/malloc.c:101-103 | a failed allocation unmaps exactly what it had mapped |
| `Malloc.Arena.Drop` | lib/malloc.c:124-138 | continued pages unmapped, the last page's count lowered, unmapped at zero |
| `Malloc.BlocksAreSafe` | lib/malloc.c:4-17 | live blocks are disjoint, mapped and end before their reference word; with no page-multiple request a count is the blocks ending there plus one for the pointer, and a page is mapped exactly while something counts it |
| `Malloc.AppendOk` | lib/malloc.c:57-69 | a chunk added to the current page keeps the invariant |
| `Malloc.PlaceOk` | lib/malloc.c:98-111 | a chunk placed in a free run keeps it |
| `Malloc.MoveOnOk` | lib/malloc.c:70-75 | dropping the pointer's reference keeps it |
| `Malloc.ReleaseOk` | lib/malloc.c:114-139 | freeing a live block keeps it |
| `Malloc.CountIsSmall` | lib/malloc.c:63-68 | the reference word never comes near overflow |
| `Malloc.SearchStaysIff` | lib/malloc.c:83-93 | the pages the search looks at all lie in the arena if and only if it does not start at its end |
| `TransmitRing.SentIsPrefix` | kern/e1000.c:131-155 | over every interleaving with the device, what it sent is a prefix of what was accepted, unchanged, with at most 40 under way; a call is accepted exactly if the packet fits and fewer are |
| `TransmitRing.AllSent` | kern/e1000.c:131-155 | while the driver rests the device sends everything accepted, unless 40 packets wait |
| `TransmitRing.CallKeeps` | kern/e1000.c:134-141 | a slot whose DD bit is set holds no undelivered packet |
| `TransmitRing.FullRingStopsIff` | kern/e1000.c:139-152 | the ring can no longer move if and only if all 40 slots are filled |
| `TransmitRing.RunStopsIff` | kern/e1000.c:131-155 | over every interleaving from a ring not yet full: it ends stuck with 40 packets if and only if the driver at some moment moved the tail onto the head |
| `TransmitRing.FortyCallsStop` | kern/e1000.c:131-155 | any 40 calls before the device takes a packet are all accepted, and none is ever sent |
| `ReceiveRing.ReturnsStored` | kern/e1000.c:162-185 | packets are returned in order without loss or repetition, dropped only while 127 wait, and a call finds one exactly when one waits |
| `ReceiveRing.CallKeeps` | kern/e1000.c:165-173 | the slot after the tail has its status bits exactly when a packet waits |
| `Stabs.BinSearch` | kern/kdebug.c:64-108 | terminates and computes the region of the specification function; on ordered tables the two neighbouring entries described below, and under the condition below the ones around addr |
| `Stabs.SearchAnswers` | kern/kdebug.c:64-108 | for every ordered table with an entry at or below addr there is an address last such that addr to last - 1 are all present and the answer is two neighbouring entries: the left at last - 1 if that is above addr, the right above addr and not below last - 1 |
| `Stabs.AnswerRightIff` | kern/kdebug.c:64-108 | that answer is right if and only if last is at most addr + 1; with different addresses on both sides it always brackets last - 1 |
| `Stabs.SearchBrackets` | kern/kdebug.c:64-108 | with entries of the type in order, one at or below addr and not both addr and addr + 1 present: the last such entry, up to just before the next of the type |
| `Stabs.SearchNone` | kern/kdebug.c:98-99 | with no entry of the type in the range the region is empty |
| `Stabs.SearchAbove` | kern/kdebug.c:64-108 | with all entries of the type above addr the region ends before the first of them |
| `Stabs.AdjacentMisleads` | kern/kdebug.c:64-108 | with entries at 5 and 6 a search for 5 answers 6 |
| `Stabs.DuplicatesMislead` | kern/kdebug.c:64-108 | with entries at 5, 6, 6, 7 and 8 the answer for 5 brackets no address at all |
| `Stabs.BumpFewer` | kern/kdebug.c:89-95 | an exact match leaves fewer entries not below addr, the reason the loop ends |
| `Numbers.Console.PrintNum` | lib/printfmt.c:44-59 | emits the digits padded on the left to the width |
| `Numbers.StrToL` | lib/string.c:239-284 | after blanks, sign and prefix, the longest run of digits and its value |
| `Numbers.PrintThenRead` | lib/string.c:239-284 | strtol returns every printed value in base 8, 10 or 16 and consumes all of it, for any width and padding by blanks or zeros |
| `Numbers.ReadWritten` | lib/string.c:239-284 | with base 0, a sign, the prefix 0x or 0 and digits in capitals, strtol finds sign and base and returns the number |
| `Numbers.PrintedLength` | lib/printfmt.c:44-59 | the output is as long as the larger of the width and the number of digits |
| `Numbers.PartialValues` | lib/string.c:262-279 | no value on the way exceeds the result |

## Left out

- Kernel.Kernel.SysPageMap: takes a permission of 12 bits, because the checks on it are commented out and address bits in it would change the page mapped.
- Kernel.Run: a mapping that would pass the 16-bit limit of a page's count is left out of the run.
- CopyOnWrite.ForkRefinesEagerCopy: maps of private pages outside fork are not steps, because eager copying does not alias them; only runnable environments are destroyed.
- PageManager.Memory.PageInsert: requires fewer than 65535 mappings, because pp_ref has 16 bits; PageTables.InsertKeepsCountsIff gives the exact condition.
- PageManager.Memory.PageLookup: returns the documented NULL where the source would read through a missing table.
- UserFork.Pgfault: requires a mapped page that is not writable; the source's check for copy-on-write is commented out, and a fault on an unmapped address, which its copy would take again, is not modelled.
- UserFork.Fork: takes the new child's address space as given, has room for one more mapping of each of the parent's pages, and does not model the page fault upcall; where the source panics it returns -E_NO_MEM.
- Trap frames and registers, such as the child's zero return value, are not modelled.
- Multiprocessor.KernelLockSafe: the fields env_run changes are one step, because the lock is held; a scan from the last slot goes on at slot 0, where the source reads past the table and skips it; sys_exofork may take any free slot, not only the head of the list; identifiers of a slot never repeat.
- Scheduler.Processor.SchedYield: requires that the current slot is not the last one.
- ipc_send's retry loop is a run of sends of which the last succeeds; a panic on another error is not modelled.
- PipeBuffer.PipeFifo: positions stay below 2^31; devpipe_write's return value when it meets end of file is not modelled.
- PipeEof.ClosedIsRight: starts from any paired state, so pipe itself is not part of its runs; fork out of memory, where the source panics, stays at that call; fewer than 2^32 switches fall into one check.
- FileSystem.FileServer.FileWrite: files stay within their direct blocks, because the indirect branch addresses words inside the file node; file nodes are kept apart from the directory blocks that hold them.
- FileSystem.FileServer.FileGetBlock: the block lies within the file's size, as at every call in file_read, file_write and the directory functions.
- FileSystem.FileServer.FileSetSize: the new size is at most ten blocks.
- FileSystem.FileServer.AllocBlock: the bitmap, like the file nodes, is kept beside the cached blocks, so its flush is not modelled.
- BlockCache.Cache.Fault: does not model the panics for a bad block number or a free block; the disk is an array of blocks, not of sectors.
- Format.MakeImage: names are non-empty, slash-free and shorter than 128 characters and files have at most ten blocks; the bitmap is kept as words beside the other bytes, and the super block as its count and root node; an empty list of files is excluded because its root points to an unallocated block.
- Format.DirLookup: the directory's block numbers lie on the disk, where the source would panic.
- Format.WalkPath: the root has no subdirectories, as the formatter makes it.
- Malloc.Arena.Malloc: rounded requests are not zero; the contents of blocks are not modelled.
- Malloc.Arena.Free: after the pointer has left the arena no further call is modelled.
- Stabs.BinSearch: no entry lies at the highest address, where addr would wrap around.
- Numbers.StrToL: values are unbounded, so overflow of long is not modelled.
- Numbers.PrintThenRead: overflow of long is not modelled; Numbers.PartialValues shows that values below 2^31 never meet it.
- user_mem_check, fd_alloc, dir_alloc_file, file_create, file_flush and pipe are not modelled.
- Console, monitor, shell, boot, interrupt controllers, PCI, IDE, the network stack and the test programs are not modelled.
