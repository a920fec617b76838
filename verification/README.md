# Secure boot and xv6, modelled in Dafny

The system is a boot loader that measures a kernel image with SHA-256 before it starts it, and the xv6 kernel and user
programs it boots. The model covers the parts in which the behaviour is hardest to see from the code:

- **Log** (`LogSpec`, `Log`, `LogProtocol`). The redo log. A disk is a sequence of blocks, one block write is the atomic
  step, and a crash may come between any two, also during recovery. `Log` is the code, `LogSpec` the meaning of its
  writes, `LogProtocol` every interleaving of operations, commits and crashes.
- **Buffer cache** (`BufferRing`, `CacheProtocol`, `LogOverCache`). The doubly linked ring in place, every interleaving
  of its users, and the joint runs of cache and log, in which what is read is what was written before, crashes or not.
- **Memory** (`Kalloc`, `PageTable`, `TableCount`, `VmSpec`, `CopySpec`, `Vm`, `ProcPages`, `ExecSpec`, `ProcMemory`). Sv39
  page tables (section 4.4 of the RISC-V Privileged Architecture, version 20211203) as trees of tables in physical memory,
  refined to a flat map from page numbers to leaf entries; how many tables such a tree has, and with it the exact number
  of free pages that allocproc, fork and exec need; the user memory operations with their error paths; byte copies
  between user and kernel; the image that exec builds, byte by byte, up to what main finds in argv; and the pages of all
  processes and of the kernel together through any run of fork, exec, growproc, copyout, freeproc and the kernel's own
  uses of pages.
- **Processes** (`Proc`, `ProcSafety`, `ProcWait`, `ProcTree`, `ProcWake`). Scheduler, sleep, wakeup, fork, exit, wait and
  reparent as steps guarded by locks, on any number of CPUs and processes.
- **File system** (`FsBytes`, `FsBlocks`, `FsInode`, `FsFile`, `FsDir`, `FsPath`, `FsBudget`, `FsRun`). Free map bits, inode
  block maps with an owner for every block, files as flat byte sequences, directories as finite maps, path walks, how many
  blocks each operation logs, and whole runs of operations from the image `mkfs` starts with.
- **Disk driver** (`VirtioDesc`, `VirtioRing`). Descriptors, the two rings with their 16-bit indices (sections 2.6 and 5.2
  of VIRTIO 1.1), and a device that takes requests and completes them in any order.
- **User allocator** (`Umalloc`). The circular, address-ordered, coalescing free list.
- **Boot** (`Sha256`, `Sha256Example`, `Boot`, `BootElf`). SHA-256 as in sections 5 and 6.2 of FIPS 180-4, its constants as
  roots of primes and the digest of "abc" as outside values, the streaming implementation, the ELF headers field by field,
  and what the loader hashes and places in memory.
- **Shell** (`Shell`, `ShellGrammar`, `ShellPrint`, `ShellCode`). The grammar as functions of positions in the line, the same
  language as a grammar of tokens with its trees, a printer that the parser inverts, and the loops of the lexer and parser
  with the in-place termination of words.

A panic of the C code is a result that a contract speaks about, a precondition that every caller in the model is shown to
meet, or, in the protocol models, a state that is shown to be out of reach. Two panics can be reached, and the model says
exactly when: "too big a transaction" (`LogProtocol.PanicReachableExactly`) and "bget: no buffers"
(`CacheProtocol.GetOrPanic`). For a commit with the cache to itself the second has the opposite condition to the first:
NBUF equals LOGSIZE, so a log area of more than LOGSIZE blocks lets a transaction pin every buffer
(`LogProtocol.FullLogReachableExactly`, `LogOverCache.CommitGetsBuffer`).

Where the code and its own comments or figures differ, the model follows the code:

- `log_write` tests for space before it looks for the block in the log, so a call can panic although its block is logged
  already. An operation therefore keeps to its budget as long as each call finds it with fewer than MAXOPBLOCKS distinct
  blocks logged; one that makes at most MAXOPBLOCKS calls does (`LogProtocol.CallsCoverBlocks`), and so do `filewrite`,
  `itrunc` and `dirlink`, which may call more often (`FsBudget.FileWrite`, `TruncOp`, `LinkOp`, `NextLogWrite`).
- `mkfs` makes the log area LOGSIZE blocks large, and the guard in `log_write` then leaves one slot too few:
  `LogProtocol.PanicReachableExactly` gives the exact condition.
- The loader's comment says that the first four blocks are ignored. They are not loaded, but they are measured. The bytes
  after the last whole block are measured and not loaded. The second load loop divides the size by the number of disk
  blocks instead of the block size, and has no effect.
- `growproc` has no test against the top of the address space. None is needed while physical memory is smaller than half
  of it, because `uvmalloc` runs out of pages first.
- `dirlink` stores the low sixteen bits of the inode number, so a number that is 0 in sixteen bits adds no entry.

`dafny verify dfyconfig.toml` checks the whole project.

## Model

| member | source | states |
|---|---|---|
| `LogSpec.CrashAtomicity` | xv6-riscv/kernel/log.c:193-203 | stop commit after any of its block writes, then run recovery, itself stopped any number of times; the recovered home blocks are all old up to the header write and all new after it |
| `LogSpec.RecoveryIsIdempotent` | xv6-riscv/kernel/log.c:116-123 | recovery cut short at any writes, any number of times, then completed, gives the home blocks of one recovery and an empty log |
| `LogSpec.InterruptedRecovery` | xv6-riscv/kernel/log.c:68-83 | one recovery cut at any write leaves a disk from which recovery still reaches the same home blocks |
| `LogSpec.CrashBeforeHeader` | xv6-riscv/kernel/log.c:178-191 | any part of the copies into the log area leaves the old home blocks |
| `LogSpec.RecoverInstalls` | xv6-riscv/kernel/log.c:68-83 | recovering a disk with a committed header yields every logged block and leaves the others |
| `LogSpec.PlanAt` | xv6-riscv/kernel/log.c:193-203 | the writes of a commit are log slots, header, home blocks, header, each with the contents logged for its block |
| `LogSpec.SlotAfterHeader` | xv6-riscv/kernel/log.c:178-203 | from the header write until the log is cleared every log slot holds what was logged for its block |
| `LogSpec.CommitEndsLikeRecovery` | xv6-riscv/kernel/log.c:193-203 | from the header write on, a commit performs exactly the writes of a recovery |
| `Log.Log.constructor` | xv6-riscv/kernel/log.c:54-65 | the log starts empty, with nothing pinned or outstanding |
| `Log.Log.InstallTrans` | xv6-riscv/kernel/log.c:68-83 | the writes are those of the installation plan in order; after a commit the blocks are unpinned |
| `Log.Log.ReadHead` | xv6-riscv/kernel/log.c:86-97 | the in-memory header becomes the block list the disk header spells |
| `Log.Log.WriteHead` | xv6-riscv/kernel/log.c:102-114 | one write, of a header block that spells the in-memory list |
| `Log.Log.RecoverFromLog` | xv6-riscv/kernel/log.c:116-123 | the disk becomes its recovery, by exactly the recovery plan |
| `Log.Log.WriteLog` | xv6-riscv/kernel/log.c:178-191 | the pinned contents of the listed blocks go to the log slots in order |
| `Log.Log.Commit` | xv6-riscv/kernel/log.c:193-203 | the writes are exactly the commit plan that crash atomicity is proved of; the log ends empty |
| `Log.Log.LogWrite` | xv6-riscv/kernel/log.c:214-235 | which of the two panics fires, tested before absorption; otherwise the block is logged once and pinned |
| `Log.Log.BeginOpPass` | xv6-riscv/kernel/log.c:126-142 | an operation is admitted exactly when no commit runs and its reservation fits |
| `Log.Log.EndOp` | xv6-riscv/kernel/log.c:146-175 | the last operation commits, others only leave, and the log stays well-formed; the panic exactly while committing |
| `LogProtocol.ReservationBound` | xv6-riscv/kernel/log.c:126-235 | in every run with crashes and on a log of any size, at most LOGSIZE blocks and fewer than the log area are logged, all distinct; "log.committing" and "log_write outside of trans" are unreachable, and so is "too big a transaction" if the log area exceeds LOGSIZE |
| `LogProtocol.WholeOperations` | xv6-riscv/kernel/log.c:126-175 | on a log of any size, in every run commit runs only with no operation outstanding and none starting, and all writes of an operation fall in one transaction |
| `LogProtocol.DurableOperations` | xv6-riscv/kernel/log.c:126-203 | on a log of any size, in every run, also after a panic, a crash and any interrupted recoveries leave exactly the writes of the committed transactions, whole operations only |
| `LogProtocol.RecoveredMoment` | xv6-riscv/kernel/log.c:116-203 | the blocks recovered after a crash are those the file system saw at some moment of the run with no operation in flight |
| `LogProtocol.CrashKeeps` | xv6-riscv/kernel/log.c:116-203 | so every property of the home blocks that holds between operations holds after any crash and recovery |
| `LogProtocol.CallsCoverBlocks` | xv6-riscv/kernel/log.c:214-235 | an operation that made fewer than MAXOPBLOCKS calls has logged fewer than MAXOPBLOCKS blocks |
| `LogProtocol.PanicReachableExactly` | xv6-riscv/kernel/log.c:220-221 | "too big a transaction" is reachable within the per-operation budget if and only if the log area is at most LOGSIZE blocks, as mkfs makes it |
| `LogProtocol.FullLogReachableExactly` | xv6-riscv/kernel/log.c:220-221 | all LOGSIZE slots can be filled if and only if the log area exceeds LOGSIZE blocks |
| `LogProtocol.RunInv` | xv6-riscv/kernel/log.c:126-235 | the invariant that ties log header, pinned blocks, reservations and disk holds in every state of every run, on a log of any size |
| `BufferRing.Bcache.constructor` | xv6-riscv/kernel/bio.c:36-53 | the ring links all buffers, last one first |
| `BufferRing.Bcache.Bget` | xv6-riscv/kernel/bio.c:58-89 | the cached buffer with one more reference, else the least recently used free one recycled, else the panic, exactly when all are in use |
| `BufferRing.Bcache.Brelse` | xv6-riscv/kernel/bio.c:116-137 | one reference less; the last one moves the buffer to the front, and the ring stays a doubly linked permutation of all buffers |
| `BufferRing.Bcache.MoveToFront` | xv6-riscv/kernel/bio.c:127-132 | the six link updates move a buffer right behind the head and leave the order of the others |
| `BufferRing.Bcache.PushFront` | xv6-riscv/kernel/bio.c:48-51 | the four link updates insert a buffer after the head |
| `BufferRing.Bcache.Unlink` | xv6-riscv/kernel/bio.c:127-128 | the two link updates remove a buffer from the ring |
| `BufferRing.UnlinkRing` | xv6-riscv/kernel/bio.c:127-128 | removing any member of a doubly linked ring leaves a doubly linked ring of the others |
| `BufferRing.InsertRing` | xv6-riscv/kernel/bio.c:129-132 | inserting after the head of a doubly linked ring gives a doubly linked ring with one more |
| `CacheProtocol.Transparency` | xv6-riscv/kernel/bio.c:58-151 | in every interleaving, what a holder of a buffer sees until it changes it is what a store without a cache would give |
| `CacheProtocol.OneCopy` | xv6-riscv/kernel/bio.c:58-89 | no block of a nonzero device is ever in two buffers, and no buffer has two holders |
| `CacheProtocol.PinnedStays` | xv6-riscv/kernel/log.c:229-233 | a pinned buffer keeps its block through every step of a run, and its data unless its holder changes them |
| `CacheProtocol.RunInv` | xv6-riscv/kernel/bio.c:58-151 | reference counts are handles plus pins, locks have one holder, and clean valid buffers agree with the store, in every state of every run |
| `CacheProtocol.GetOrPanic` | xv6-riscv/kernel/bio.c:58-89 | in every state of every run bget yields a buffer, unless the block is not cached and every buffer is pinned or referred to |
| `CacheProtocol.BuffersSuffice` | xv6-riscv/kernel/bio.c:58-89 | with fewer pins and users than buffers bget does not panic |
| `CacheProtocol.AllPinned` | xv6-riscv/kernel/bio.c:58-89 | with every buffer pinned it panics for every other block |
| `LogOverCache.SeesRecordedWrites` | xv6-riscv/kernel/log.c:68-235 | in every joint run of log and cache, crashes and recoveries included, what a holder of a clean buffer of a home block sees is what the recorded log_writes, applied to the first disk one by one, would have put there |
| `LogOverCache.CommitReadsCache` | xv6-riscv/kernel/log.c:178-203 | what commit is to write next into a log slot or a home block is what the buffer it reads for it holds |
| `LogOverCache.CommitGetsBuffer` | xv6-riscv/kernel/log.c:178-191 | in every joint run commit gets a buffer for each block of the log area if pins and users leave one; alone, exactly unless NBUF blocks are logged and none is unpinned, hence always on a log area of at most NBUF blocks |
| `LogOverCache.RunInv` | xv6-riscv/kernel/log.c:68-235 | the pinned buffers are those of the logged blocks not yet unpinned, the cache's device is the log's disk, and the cacheless store is the replay of the recorded writes, in every state of every joint run |
| `Kalloc.Kmem.Kfree` | xv6-riscv/kernel/kalloc.c:46-63 | the page goes to the head of the free list, whose other links stay |
| `Kalloc.Kmem.Kalloc` | xv6-riscv/kernel/kalloc.c:68-82 | the head of the free list, or 0 exactly when the list is empty |
| `Kalloc.Kmem.FreeRange` | xv6-riscv/kernel/kalloc.c:33-40 | exactly the whole pages between the two addresses join the free ones |
| `PageTable.PxIsIndex` | xv6-riscv/kernel/riscv.h:371-387 | the shift-and-mask index of an address is the digit of its page number |
| `PageTable.IndicesSpellPage` | xv6-riscv/kernel/riscv.h:371-387 | the three indices spell the page number, so distinct pages have distinct paths |
| `PageTable.LeafPteFields` | xv6-riscv/kernel/riscv.h:371-387 | packing an address and permissions into an entry and unpacking them gives both back |
| `PageTable.HangMap` | xv6-riscv/kernel/vm.c:85-103 | hanging an empty table into a tree changes no mapping |
| `PageTable.HangTree` | xv6-riscv/kernel/vm.c:85-103 | and leaves a tree in which each table has one place |
| `PageTable.SetLeafLookup` | xv6-riscv/kernel/vm.c:143-172 | writing one leaf entry changes the mapping of exactly one page |
| `PageTable.NoTableNoLeaf` | xv6-riscv/kernel/vm.c:85-103 | where a table is missing, no page below has a mapping |
| `Vm.Vm.Walk` | xv6-riscv/kernel/vm.c:85-103 | the slot of the page, growing the tree by tables only; without allocation a failure means the page is unmapped, with it that memory ran out |
| `Vm.Vm.constructor` | xv6-riscv/kernel/kalloc.c:26-40 | exactly the whole pages from the kernel's end to the top of memory are on the free list |
| `Vm.Vm.WalkAddr` | xv6-riscv/kernel/vm.c:108-126 | the physical page of a valid user page, and 0 for every other address |
| `Vm.Vm.MapPages` | xv6-riscv/kernel/vm.c:143-172 | success adds exactly the range to the map; failure only without free pages, after a prefix; every other page keeps its mapping |
| `Vm.Vm.UvmUnmap` | xv6-riscv/kernel/vm.c:177-199 | exactly the range leaves the map, and exactly its pages become free if asked |
| `Vm.Vm.UvmCreate` | xv6-riscv/kernel/vm.c:203-212 | a tree that maps nothing, made of one free page |
| `Vm.Vm.UvmAlloc` | xv6-riscv/kernel/vm.c:232-256 | all pages between the sizes mapped to zeroed pages of their own; or the old map, no page lost but to tables, and free pages and tables together fewer than the new pages and their tables would take |
| `Vm.Vm.UvmDealloc` | xv6-riscv/kernel/vm.c:262-274 | exactly the pages between the rounded sizes are unmapped and freed |
| `Vm.Vm.Freewalk` | xv6-riscv/kernel/vm.c:278-294 | frees every table of the tree; the leaf panic cannot fire on a tree without leaves |
| `Vm.Vm.UvmFree` | xv6-riscv/kernel/vm.c:298-304 | all user pages and all tables become free, nothing else |
| `Vm.Vm.UvmCopy` | xv6-riscv/kernel/vm.c:312-340 | the child maps copies of all the parent's pages; or its map is as before, the pages are back, and free pages and tables together are fewer than the copies and their tables would take; the parent is untouched |
| `Vm.Vm.CopyOut` | xv6-riscv/kernel/vm.c:358-383 | memory becomes what byte-by-byte stores through the map give; it stops only at a page that must not be written |
| `Vm.Vm.CopyIn` | xv6-riscv/kernel/vm.c:388-408 | the bytes are what byte-by-byte loads through the map give; it stops only at a page that must not be read |
| `Vm.Vm.UvmClear` | xv6-riscv/kernel/vm.c:344-353 | the page's entry loses the user bit and keeps the rest; no other page changes |
| `CopySpec.StoreThenLoad` | xv6-riscv/kernel/vm.c:358-408 | a byte stored through the map is what a load of that address gives, and other bytes are unchanged |
| `CopySpec.ChunkStores` | xv6-riscv/kernel/vm.c:374-376 | a copy within one page equals its single byte stores |
| `CopySpec.StoreAppend` | xv6-riscv/kernel/vm.c:364-381 | storing a concatenation is storing the parts in turn |
| `Vm.Vm.ProcPagetable` | xv6-riscv/kernel/proc.c:176-206 | a tree of three tables that maps trampoline and trapframe only; it fails, with no page taken, exactly if fewer than three pages are free |
| `Vm.Vm.ProcFreePagetable` | xv6-riscv/kernel/proc.c:210-216 | every page of the tree and every user page become free |
| `Vm.Vm.AllocProcPages` | xv6-riscv/kernel/proc.c:109-150 | trapframe and page table from free pages; none taken exactly if fewer than four are free |
| `Vm.Vm.ForkMemory` | xv6-riscv/kernel/proc.c:279-297 | fork fails exactly if fewer pages are free than a trapframe, the tables of an image that large and its pages, and then the free pages are what they were; a successful fork parts them into free, trapframe, tables and copies |
| `TableCount.PlacesExactly` | xv6-riscv/kernel/vm.c:85-103 | the tables of a process of n pages in closed form: the root, one for each 2^18 and each 512 pages, and those of trampoline and trapframe unless shared |
| `TableCount.TreeExactly` | xv6-riscv/kernel/vm.c:85-103 | walk adds tables on the paths of the pages it is called for and nowhere else, so a tree with those pages mapped has one table for each place on them |
| `VmSpec.ForkNeedsFew` | xv6-riscv/kernel/proc.c:279-297 | the pages that fork needs are four, and at most three more for each user page |
| `Vm.Vm.ForkFailed` | xv6-riscv/kernel/proc.c:155-172 | freeing the half-made child gives back every page taken for it |
| `Vm.Vm.FreeProc` | xv6-riscv/kernel/proc.c:155-172 | trapframe, user pages and tables of the process become free, and no other page is written |
| `ProcPages.StepInv` | xv6-riscv/kernel/proc.c:109-314 | a step that moves pages between one process and the free list and writes no other process's page keeps every process's memory intact and every page with one owner |
| `ProcPages.StepConserves` | xv6-riscv/kernel/proc.c:109-314 | and loses no page and makes none |
| `ProcPages.StepKernel` | xv6-riscv/kernel/proc.c:109-314 | nor does it write a page of the kernel's |
| `ProcPages.KernelInv` | xv6-riscv/kernel/pipe.c:31-71 | a step that moves pages between the kernel and the free list and writes only those keeps every process's memory intact and every page with one owner |
| `ProcPages.KernelConserves` | xv6-riscv/kernel/pipe.c:31-71 | and loses no page and makes none |
| `ProcPages.FewPages` | xv6-riscv/kernel/proc.c:259-275 | the pages of a process and the free pages together are fewer than the address space has room for |
| `ProcMemory.Procs.AllocProc` | xv6-riscv/kernel/proc.c:109-150 | a process without user memory on pages that were free; none taken exactly if fewer than four are free |
| `ProcMemory.Procs.FirstPage` | xv6-riscv/kernel/vm.c:217-228 | the first process gets one page that begins with the code |
| `ProcMemory.Procs.Fork` | xv6-riscv/kernel/proc.c:279-302 | the child's memory copies the parent's on pages of its own, all other processes keep theirs; it fails exactly if fewer pages are free than the copy takes with its tables and trapframe, and takes none then |
| `ProcMemory.Procs.GrowProc` | xv6-riscv/kernel/proc.c:259-275 | growth adds zeroed pages behind the old ones or fails with size and pages kept, and only if no more pages are left than were asked for; shrinking frees exactly the pages beyond the new size; a size below zero changes nothing |
| `ProcMemory.Procs.CopyOut` | xv6-riscv/kernel/vm.c:358-383 | the bytes are stored as through the process's page table, all of them or those before the first address whose page may not be written, and only its own user pages are written |
| `ProcMemory.Procs.LoadSeg` | xv6-riscv/kernel/exec.c:148-166 | the image has the segment's bytes at its addresses and is otherwise as before; "loadseg: address should exist" is out of reach |
| `ProcMemory.Procs.Exec` | xv6-riscv/kernel/exec.c:22-141 | exec succeeds exactly if the file and the arguments are good and as many pages are free as the new image takes with its tables; then a load of any address gives what segments, strings and argv wrote there last, or zero, the page below the stack refuses copyin and copyout, sp is that of argv, and the old image is freed; otherwise the old image stays and no page is taken |
| `ProcMemory.Procs.PushArgs` | xv6-riscv/kernel/exec.c:87-112 | strings and argv stand on the stack page in the order of the source; refused exactly if they are too many or do not fit there, and no copyout to it fails |
| `ProcMemory.Procs.LoadSegments` | xv6-riscv/kernel/exec.c:48-68 | the image is what the segments wrote over zeros, of the largest end so far; it fails only for a bad header, a first segment that ends at 0, or too few free pages |
| `ProcMemory.Procs.LoadStack` | xv6-riscv/kernel/exec.c:77-85 | two pages more behind the rounded size, the lower without its user bit; it fails only for too few free pages |
| `ExecSpec.ArgumentFound` | xv6-riscv/kernel/exec.c:87-112 | in a memory that exec built, the word argv[i] is the address of a copy of the i-th argument with its NUL, for every argument that was given and every byte of it |
| `ExecSpec.EndFound` | xv6-riscv/kernel/exec.c:101-112 | the word after the last is zero, and the stack is aligned to 16 bytes |
| `ExecSpec.SegmentShows` | xv6-riscv/kernel/exec.c:54-68 | each byte of a segment's file data that no later segment overwrites stands at its address in the finished image |
| `ExecSpec.Unwritten` | xv6-riscv/kernel/vm.c:241-249 | bytes that no segment and no argument writes are zero |
| `ExecSpec.BytesStored` | xv6-riscv/kernel/vm.c:358-383 | bytes stored one by one through the page table of an image are its bytes at exactly those addresses |
| `ProcMemory.Procs.Reap` | xv6-riscv/kernel/proc.c:155-172 | exactly the process's pages become free; every precondition of freeing them holds, so the panics of kfree, uvmunmap and freewalk are out of reach |
| `ProcMemory.Procs.KernelTake` | xv6-riscv/kernel/sysfile.c:457 | a free page becomes the kernel's, or 0 exactly when there is none; also for the kernel's page table, kernel stacks, the disk's rings and pipes |
| `ProcMemory.Procs.KernelGive` | xv6-riscv/kernel/sysfile.c:466-473 | a page of the kernel's becomes free; also for pipes |
| `ProcMemory.Procs.KernelWrite` | xv6-riscv/kernel/pipe.c:33-37 | whatever the kernel writes into a page of its own, every process keeps its memory |
| `ProcMemory.Procs.Run` | xv6-riscv/kernel/proc.c:109-435 | through any sequence of these operations, the kernel's own takings, writings and returns of pages among them, every process keeps its memory, no page is free and in use or owned twice, and none is lost |
| `ProcMemory.Boot` | xv6-riscv/kernel/kalloc.c:26-82 | from kinit on, for any run, each page of memory is free, the kernel's own, or of exactly one process, and no other address is |
| `ProcSafety.OneCpuPerProcess` | xv6-riscv/kernel/proc.c:444-574 | in every interleaving no two CPUs have or run the same process, and with its lock free a process is RUNNING exactly when some CPU has it |
| `ProcSafety.SchedNeverPanics` | xv6-riscv/kernel/proc.c:489-508 | whoever reaches swtch holds its own lock and no other and is not RUNNING; "zombie exit" is unreachable |
| `ProcSafety.RunInv` | xv6-riscv/kernel/proc.c:444-574 | lock holders, c->proc, thread positions and fork's half-made children agree in every state of every run |
| `ProcWait.NoStrandedZombie` | xv6-riscv/kernel/proc.c:330-435 | in every interleaving, with wait_lock free, nobody asleep in wait has a ZOMBIE child, although exit wakes before it marks |
| `ProcWait.WaitChannels` | xv6-riscv/kernel/proc.c:390-435 | only wait sleeps on a process address, on its own, and init neither exits nor is reaped |
| `ProcWait.RunZ` | xv6-riscv/kernel/proc.c:346-386 | every zombie's parent has been woken, or is about to be, since it last looked |
| `ProcTree.NoOrphans` | xv6-riscv/kernel/proc.c:330-386 | in every state of every run each parent is alive, every process in use but init has one, and each ZOMBIE has a living parent |
| `ProcTree.ChildrenToInit` | xv6-riscv/kernel/proc.c:330-374 | whoever was a child of the exiting process when its exit began is init's child when that exit lets go of wait_lock |
| `ProcTree.RunT` | xv6-riscv/kernel/proc.c:330-435 | how far reparent has come, half-made children and reaped slots agree with the parents in every run |
| `ProcWake.WakeupReaches` | xv6-riscv/kernel/proc.c:576-592 | while a wakeup of any channel runs from its first process to its last, no other process stays asleep on that channel all the time |
| `FsBytes.SetBitAt` | xv6-riscv/kernel/fs.c:74-76 | setting a clear bit of a byte changes that bit only |
| `FsBytes.ClearBitAt` | xv6-riscv/kernel/fs.c:99-102 | clearing a set bit changes that bit only |
| `FsBytes.PutWordAt` | xv6-riscv/kernel/fs.c:405-413 | writing one 32-bit number of an indirect block changes that number only |
| `FsBlocks.UsedAfterMark` | xv6-riscv/kernel/fs.c:74-76 | marking a block in the free map marks no other block |
| `FsBlocks.UsedAfterUnmark` | xv6-riscv/kernel/fs.c:97-102 | unmarking a block unmarks no other |
| `FsBlocks.Disk.Balloc` | xv6-riscv/kernel/fs.c:65-88 | the lowest unmarked block, marked and zeroed; 0 exactly when all are marked, with nothing changed |
| `FsBlocks.Disk.Scan` | xv6-riscv/kernel/fs.c:73-82 | the first clear bit of one free-map block |
| `FsBlocks.Disk.Bfree` | xv6-riscv/kernel/fs.c:91-105 | only that block's bit changes; "freeing free block" is the precondition |
| `FsInode.Given` | xv6-riscv/kernel/fs.c:382-421 | giving an unowned block to an empty slot keeps the ownership invariant: marked blocks are metadata plus blocks owned exactly once |
| `FsInode.Taken` | xv6-riscv/kernel/fs.c:425-453 | taking a slot's block away keeps it too |
| `FsInode.Inodes.Bmap` | xv6-riscv/kernel/fs.c:382-421 | finds the block of a file position, or puts an unowned zeroed block there, or finds the disk full; no other file data change and every block keeps exactly one owner |
| `FsInode.Inodes.BmapIndirect` | xv6-riscv/kernel/fs.c:396-418 | the same through the indirect block, which is allocated on demand |
| `FsInode.Inodes.Itrunc` | xv6-riscv/kernel/fs.c:425-453 | the inode is empty, exactly its direct, listed and indirect blocks become free, no free block is freed, no other block changes, and only blocks of the free map are logged |
| `FsFile.TruncatedFiles` | xv6-riscv/kernel/fs.c:425-453 | after itrunc the file's bytes are none and every other file's are as before |
| `FsFile.DataWrite` | xv6-riscv/kernel/fs.c:522-526 | overwriting a data block changes neither the block map nor any other file data |
| `FsFile.WriteStep` | xv6-riscv/kernel/fs.c:515-529 | one turn of the write loop splices its bytes into the flat contents, across direct and indirect blocks |
| `FsFile.SpliceTwice` | xv6-riscv/kernel/fs.c:515-529 | splicing adjacent pieces is splicing their concatenation |
| `FsFile.Readi` | xv6-riscv/kernel/fs.c:471-496 | a slice of the flat contents, cut at the end of file, empty beyond it or when the range wraps; nothing changes |
| `FsFile.Writei` | xv6-riscv/kernel/fs.c:505-539 | a bad range changes nothing; otherwise exactly the first r bytes are spliced in, r short only on a full disk and at a block boundary; no block below the size is missing; other files keep their bytes; besides the free map it logs at most the blocks written to and the indirect block |
| `FsDir.NameCmp` | xv6-riscv/kernel/fs.c:543-547 | comparing names is comparing what counts of them: up to NUL, fourteen bytes at most |
| `FsDir.PaddedCut` | xv6-riscv/kernel/fs.c:600 | a stored name reads back as the name cut to what counts |
| `FsDir.LinkFrom` | xv6-riscv/kernel/fs.c:592-604 | writing an entry for a new name into a free place or at the end adds exactly that name to the directory's map |
| `FsDir.DirLookup` | xv6-riscv/kernel/fs.c:551-575 | lookup of the cut name in the directory's finite map, with the first entry that holds it |
| `FsDir.DirLink` | xv6-riscv/kernel/fs.c:579-606 | fails leaving the map unchanged if the name is taken, the directory is full-sized or the disk is full; otherwise the map gains the name, unless the number is 0 in sixteen bits; it logs at most two blocks besides the free map |
| `FsPath.ElementsOfJoin` | xv6-riscv/kernel/fs.c:608-621 | the elements of a path are the ones joined, however many slashes separate them |
| `FsPath.SkipElem` | xv6-riscv/kernel/fs.c:622-645 | the first element, cut to fourteen bytes, and the rest, whose elements are the others; fails exactly when there is none |
| `FsPath.Namex` | xv6-riscv/kernel/fs.c:651-684 | an inode is the answer exactly if a chain of inodes leads to it from root or current directory, each but the last a directory whose map takes the next element to the next inode, for the parent one element short; none exactly if there is no such chain |
| `FsPath.WalkExactly` | xv6-riscv/kernel/fs.c:659-682 | the fold of lookups ends in an inode exactly if such a chain does, whatever kind the last inode is |
| `FsPath.ResolveExactly` | xv6-riscv/kernel/fs.c:651-684 | the same for whole paths, with the start that the first character decides and the parent case |
| `FsBudget.LoggedSize` | xv6-riscv/kernel/log.c:133-138 | an operation's distinct logged blocks are at most those its parts account for and the blocks of the free map |
| `FsBudget.WriteOp` | xv6-riscv/kernel/file.c:158-167 | one transaction of filewrite splices its bytes in or changes nothing, and logs at most five blocks besides the free map, before iupdate logs the inode's |
| `FsBudget.FileWrite` | xv6-riscv/kernel/file.c:148-175 | chunk by chunk the first bytes of the source are written at the file offset, which moves by their number; the answer is the length exactly if all were; each transaction stays below MAXOPBLOCKS if the free map has at most three blocks |
| `FsBudget.TruncOp` | xv6-riscv/kernel/fs.c:425-453 | itrunc logs blocks of the free map only, and with the inode's block stays below MAXOPBLOCKS if there are at most eight |
| `FsBudget.LinkOp` | xv6-riscv/kernel/fs.c:579-606 | dirlink logs at most two blocks besides the free map, and with the inode's block stays below MAXOPBLOCKS if that has at most six |
| `FsBudget.NextLogWrite` | xv6-riscv/kernel/log.c:214-235 | in every state of every run of the log's protocol, an operation whose blocks lie in a set of fewer than MAXOPBLOCKS may log a further one, without a panic if the log area exceeds LOGSIZE |
| `FsRun.Perform` | xv6-riscv/kernel/fs.c:425-606 | each of readi, filewrite, itrunc and dirlink does to a map from inode numbers to bytes what its answer says, to its own file only |
| `FsRun.Run` | xv6-riscv/kernel/fs.c:425-606 | for any sequence of operations the answers and the files are those of such a map operated on in turn, and ownership of blocks and absence of holes are kept |
| `FsRun.Zeroes` | xv6-riscv/mkfs/mkfs.c:110-111 | with zeroes everywhere no block is in use |
| `FsRun.MarkFirst` | xv6-riscv/mkfs/mkfs.c:236-250 | the free map then says that exactly the first blocks are in use |
| `FsRun.Mkfs` | xv6-riscv/mkfs/mkfs.c:93-115 | an image with these free map bits and empty inodes meets everything the operations rely on |
| `FsRun.OwnedOnce` | xv6-riscv/kernel/fs.c:382-453 | every block is metadata, free or named by exactly one slot of one inode |
| `FsRun.Always` | xv6-riscv/kernel/fs.c:382-606 | all of this after any operations from that image on |
| `FsRun.RecoveredFiles` | xv6-riscv/kernel/log.c:116-203 | if the blocks make up files whenever no operation is under way, the blocks recovered after any crash do |
| `VirtioDesc.DescTable.AllocDesc` | xv6-riscv/kernel/virtio_disk.c:156-166 | the lowest free descriptor, or none exactly when all are in use |
| `VirtioDesc.DescTable.FreeDesc` | xv6-riscv/kernel/virtio_disk.c:169-182 | the descriptor is cleared and free; both panics are preconditions |
| `VirtioDesc.DescTable.FreeChain` | xv6-riscv/kernel/virtio_disk.c:185-197 | following the NEXT flags frees exactly the three descriptors of a chain |
| `VirtioDesc.DescTable.Alloc3Desc` | xv6-riscv/kernel/virtio_disk.c:201-213 | three distinct free descriptors, exactly if there are three; else the free ones are as before |
| `VirtioRing.DescriptorsPartitioned` | xv6-riscv/kernel/virtio_disk.c:156-327 | in every run no panic or malformed chain occurs, each descriptor is free or in exactly one request's chain, and the NEXT flags of the descriptor table lead from each head through exactly the three of its chain |
| `VirtioRing.AvailIsQueue` | xv6-riscv/kernel/virtio_disk.c:266-276 | with wrapping 16-bit indices the avail ring is a queue that is never overwritten before the device reads it |
| `VirtioRing.UsedIsQueue` | xv6-riscv/kernel/virtio_disk.c:309-324 | the used ring likewise between device and interrupt handler |
| `VirtioRing.CarriedOutOnce` | xv6-riscv/kernel/virtio_disk.c:215-292 | a request is carried out once and exactly as submitted, whatever order the device chooses; only this changes the disk |
| `VirtioRing.ReturnsWhenDone` | xv6-riscv/kernel/virtio_disk.c:283-291 | virtio_disk_rw returns only after the device carried out that very request, with the buffer holding its block, and frees its three descriptors only |
| `VirtioRing.RunInv` | xv6-riscv/kernel/virtio_disk.c:215-327 | chains, rings, counters and buffers agree in every state of every run |
| `Umalloc.MergeApart` | xv6-riscv/user/umalloc.c:32-41 | putting a block back and joining what it touches leaves an address-ordered list with no two blocks adjacent |
| `Umalloc.MergeUnits` | xv6-riscv/user/umalloc.c:32-41 | and adds exactly the block's units |
| `Umalloc.MergeRing` | xv6-riscv/user/umalloc.c:32-42 | the header assignments link exactly the joined list into a ring |
| `Umalloc.ListDetermined` | xv6-riscv/user/umalloc.c:24-44 | the free list is determined by which units are free, whatever the order of frees |
| `Umalloc.LiveBlocksDisjoint` | xv6-riscv/user/umalloc.c:24-90 | live blocks overlap neither each other nor the free list, and with it make up all memory from sbrk |
| `Umalloc.Heap.FindPlace` | xv6-riscv/user/umalloc.c:30-32 | the walk from freep terminates at the header after which the block belongs |
| `Umalloc.Heap.Free` | xv6-riscv/user/umalloc.c:24-44 | the block leaves the live set and its units join the list; nothing else changes hands |
| `Umalloc.Heap.Morecore` | xv6-riscv/user/umalloc.c:46-61 | at least 4096 units from sbrk join the list at or right after freep, unless sbrk refuses |
| `Umalloc.Heap.Lap` | xv6-riscv/user/umalloc.c:73-85 | one lap finds a large enough block exactly if there is one |
| `Umalloc.Heap.Search` | xv6-riscv/user/umalloc.c:73-89 | sbrk is asked once at most, and the lap after it always ends at a fit |
| `Umalloc.Heap.Malloc` | xv6-riscv/user/umalloc.c:63-90 | a block of the right number of units becomes live; it fails only if nothing fits and sbrk refuses; memory grows only if nothing fits |
| `Sha256.FewestZeros` | xv6-riscv/bootloader/sha256.c:118-137 | the padding takes the fewest zeros that make whole blocks |
| `Sha256.WordBytes` | xv6-riscv/bootloader/sha256.c:149-161 | words survive the trip through bytes and back |
| `Sha256.Context.Init` | xv6-riscv/bootloader/sha256.c:89-101 | the context represents the empty message |
| `Sha256.Context.Transform` | xv6-riscv/bootloader/sha256.c:48-87 | one step of the hash computation of section 6.2.2 of FIPS 180-4; `Sha256Example` holds its functions and constants against outside values |
| `Sha256.Context.Update` | xv6-riscv/bootloader/sha256.c:103-116 | the context represents the message so far with the new bytes appended |
| `Sha256.Context.Final` | xv6-riscv/bootloader/sha256.c:118-162 | the digest of everything fed in, in both padding branches |
| `Sha256.HashParts` | xv6-riscv/bootloader/sha256.c:89-162 | for every way of cutting a message into updates, the result is SHA-256 of the whole |
| `Sha256Example.AbcDigest` | xv6-riscv/bootloader/sha256.c:48-162 | SHA-256 of "abc" is the digest that FIPS 180-4's published example gives |
| `Sha256Example.AbcCompressed` | xv6-riscv/bootloader/sha256.c:48-87 | its one block takes the initial hash value to that digest through the schedule and all 64 rounds |
| `Sha256Example.InitialRoots` | xv6-riscv/bootloader/sha256.c:89-101 | each word of the initial hash value is the first 32 bits of the fraction of the square root of its prime |
| `Sha256Example.KeyRoots0` | xv6-riscv/bootloader/sha256.c:36-45 | round constants 0 to 3 are the first 32 bits of the fractions of the cube roots of their primes |
| `Sha256Example.KeyRoots1` | xv6-riscv/bootloader/sha256.c:36-45 | round constants 4 to 7 are the first 32 bits of the fractions of the cube roots of their primes |
| `Sha256Example.KeyRoots2` | xv6-riscv/bootloader/sha256.c:36-45 | round constants 8 to 11 are the first 32 bits of the fractions of the cube roots of their primes |
| `Sha256Example.KeyRoots3` | xv6-riscv/bootloader/sha256.c:36-45 | round constants 12 to 15 are the first 32 bits of the fractions of the cube roots of their primes |
| `Sha256Example.KeyRoots4` | xv6-riscv/bootloader/sha256.c:36-45 | round constants 16 to 19 are the first 32 bits of the fractions of the cube roots of their primes |
| `Sha256Example.KeyRoots5` | xv6-riscv/bootloader/sha256.c:36-45 | round constants 20 to 23 are the first 32 bits of the fractions of the cube roots of their primes |
| `Sha256Example.KeyRoots6` | xv6-riscv/bootloader/sha256.c:36-45 | round constants 24 to 27 are the first 32 bits of the fractions of the cube roots of their primes |
| `Sha256Example.KeyRoots7` | xv6-riscv/bootloader/sha256.c:36-45 | round constants 28 to 31 are the first 32 bits of the fractions of the cube roots of their primes |
| `Sha256Example.KeyRoots8` | xv6-riscv/bootloader/sha256.c:36-45 | round constants 32 to 35 are the first 32 bits of the fractions of the cube roots of their primes |
| `Sha256Example.KeyRoots9` | xv6-riscv/bootloader/sha256.c:36-45 | round constants 36 to 39 are the first 32 bits of the fractions of the cube roots of their primes |
| `Sha256Example.KeyRoots10` | xv6-riscv/bootloader/sha256.c:36-45 | round constants 40 to 43 are the first 32 bits of the fractions of the cube roots of their primes |
| `Sha256Example.KeyRoots11` | xv6-riscv/bootloader/sha256.c:36-45 | round constants 44 to 47 are the first 32 bits of the fractions of the cube roots of their primes |
| `Sha256Example.KeyRoots12` | xv6-riscv/bootloader/sha256.c:36-45 | round constants 48 to 51 are the first 32 bits of the fractions of the cube roots of their primes |
| `Sha256Example.KeyRoots13` | xv6-riscv/bootloader/sha256.c:36-45 | round constants 52 to 55 are the first 32 bits of the fractions of the cube roots of their primes |
| `Sha256Example.KeyRoots14` | xv6-riscv/bootloader/sha256.c:36-45 | round constants 56 to 59 are the first 32 bits of the fractions of the cube roots of their primes |
| `Sha256Example.KeyRoots15` | xv6-riscv/bootloader/sha256.c:36-45 | round constants 60 to 63 are the first 32 bits of the fractions of the cube roots of their primes |
| `Sha256.PadShort` | xv6-riscv/bootloader/sha256.c:125-129 | with fewer than 56 bytes left the padding ends the block |
| `Sha256.PadLong` | xv6-riscv/bootloader/sha256.c:130-136 | with 56 or more it takes one block more |
| `Boot.HeadersSame` | xv6-riscv/bootloader/elf.c:14-65 | size and load address depend on the RAM disk only |
| `BootElf.HeadersRead` | xv6-riscv/bootloader/elf.c:14-65 | of a file written header field by header field, the size found is the end of its section headers in 64 bits and the load address that of its second program header |
| `BootElf.NumberBack` | xv6-riscv/bootloader/elf.c:14-65 | a header field reads back from its bytes, the lowest first |
| `Boot.LoadedBytes` | xv6-riscv/bootloader/start.c:79-97 | every byte placed in memory is one of the measured bytes, and every other byte is as before |
| `Boot.LoadedNext` | xv6-riscv/bootloader/start.c:79-97 | block by block the load range fills up in order |
| `Boot.Loader.KernelCopy` | xv6-riscv/bootloader/load.c:13-28 | one block of the RAM disk; a block number off the disk is its panic |
| `Boot.Loader.MeasureBlocks` | xv6-riscv/bootloader/start.c:79-93 | the whole blocks are hashed, and all but the first four placed |
| `Boot.Loader.IsSecureBoot` | xv6-riscv/bootloader/start.c:69-113 | the digest covers exactly the first size bytes, memory holds the image from byte 4096 to the last whole block, and the answer is whether the digest is the trusted one |
| `Boot.Loader.LoadAgain` | xv6-riscv/bootloader/start.c:133-147 | the second loop changes nothing |
| `Boot.BootKernel` | xv6-riscv/bootloader/start.c:116-147 | the kernel is entered exactly when SHA-256 of the image's first size bytes is the trusted digest, with memory holding measured bytes |
| `Shell.LineGood` | xv6-riscv/user/sh.c:345-447 | every piece the parser records is one whole word of the line |
| `ShellGrammar.ParsesExactly` | xv6-riscv/user/sh.c:328-447 | the parser answers with a tree exactly if the tokens of the line are those of a line of the grammar with that tree |
| `ShellGrammar.ParseSpelt` | xv6-riscv/user/sh.c:263-447 | any line of the grammar, with redirections before, between and after words, blocks, pipes, `;` and `&`, spelt with any white space, parses to its tree |
| `ShellGrammar.SpellReads` | xv6-riscv/user/sh.c:263-309 | the lexer reads the tokens back from any spelling of them |
| `ShellGrammar.LineRead` | xv6-riscv/user/sh.c:345-360 | parseline reads a line of the grammar, whatever may follow it |
| `ShellGrammar.LineSound` | xv6-riscv/user/sh.c:345-360 | whatever parseline accepts is a line of the grammar, and the tree is that line's |
| `ShellGrammar.PlainRead` | xv6-riscv/user/sh.c:416-447 | a simple command becomes its words inside all its redirections, in order |
| `ShellGrammar.ArgsRead` | xv6-riscv/user/sh.c:430-446 | words and redirections are told apart wherever they stand, up to nine words |
| `ShellGrammar.RedirsRead` | xv6-riscv/user/sh.c:375-398 | a row of redirections is read to its end |
| `ShellPrint.ParsePrinted` | xv6-riscv/user/sh.c:328-447 | parsing the parenthesised printing of any tree with at most nine good words per command rebuilds the tree |
| `ShellPrint.LineBack` | xv6-riscv/user/sh.c:345-447 | the same within a line, up to its end or a closing parenthesis |
| `ShellPrint.WordsBack` | xv6-riscv/user/sh.c:430-442 | the loop over a simple command reads its words back |
| `ShellCode.LexToken` | xv6-riscv/user/sh.c:266-309 | the loops of gettoken compute the token function |
| `ShellCode.LexPeek` | xv6-riscv/user/sh.c:311-321 | peek answers whether the next character is among those asked for |
| `ShellCode.ReadRedirs` | xv6-riscv/user/sh.c:375-398 | the loop of parseredirs collects the redirections in order, or panics for a missing file |
| `ShellCode.ReadWords` | xv6-riscv/user/sh.c:416-447 | the loop of parseexec collects words and redirections, and panics at the tenth word |
| `ShellCode.Block` | xv6-riscv/user/sh.c:400-414 | parseblock is the function of the grammar |
| `ShellCode.ExecCommand` | xv6-riscv/user/sh.c:416-447 | parseexec is the function of the grammar, which `ShellGrammar` pins from outside |
| `ShellCode.PipeLeft` | xv6-riscv/user/sh.c:362-373 | parsepipe is the function of the grammar |
| `ShellCode.Line` | xv6-riscv/user/sh.c:345-360 | parseline is the function of the grammar |
| `ShellCode.NulTerminate` | xv6-riscv/user/sh.c:450-494 | a NUL goes right after every recorded piece and nowhere else |
| `ShellCode.WordsTerminated` | xv6-riscv/user/sh.c:450-494 | after that every recorded piece reads as exactly its word |
| `ShellCode.Command` | xv6-riscv/user/sh.c:328-343 | the tree of the whole line or a panic, always terminating, and each recorded word a C string of its own |

## Left out

- The second copy of the kernel tree, assembly, control registers, traps, interrupt and serial hardware: no logic of their own beyond what the steps of the model assume.
- `setup_recovery_kernel`: nothing calls it.
- Link counts: a name can be created in a directory that is already unlinked, so no equation holds in every run.
- Console, contents of pipes, system call arguments, `printf`, the string functions, how `mkfs` writes files and the test programs: smaller than the rest; `memmove`, `memset` and `strncmp` are used by what they do.
- Faults of user addresses inside `readi` and `writei`: the copies are taken to succeed, because a failed copy leaves a changed buffer unlogged.
- Concrete memory limits: parameters of the model.
- File system over the log: blocks are read and written as the cache and the log are shown to present them; the inode table is kept in memory (`ialloc`, `iget`, `iput`, `ilock` and `iupdate` are not modelled), and one thread at a time works on it.
- FsBlocks.Disk.Balloc: does not model the int counter, because disk sizes are far below its limit.
- FsPath.Namex: does not model inode locks and reference counts, because the walk changes no directory; which inodes are directories is a parameter.
- FsDir.DirLookup: returns the entry's number instead of its offset, which is sixteen times as large.
- LogOverCache.SeesRecordedWrites: log_write and the bpin in it, and a block write of commit and its bwrite, are one step each; after a restart the cache may hold any buffers that agree with the recovered disk, because recovery goes through it.
- Log.Log.EndOp: runs the commit inside the call, because its interleaving with others is in `LogProtocol`.
- ProcSafety.SchedNeverPanics: does not model interrupt enabling and spinlocks other than p->lock and wait_lock, because no step of the model depends on them.
- Sha256.Context.Update: asks for fewer than 2^32 bytes, because the code's 32-bit counter never reaches a larger length.
- Log.Log.LogWrite: takes the buffer's contents as an argument, because the cache has a model of its own.
- BufferRing.Bcache.Bget: does not model the sleep-lock it takes last, because the interleaving of its users is in `CacheProtocol`; reference counts do not wrap.
- CacheProtocol.Transparency: claims nothing for device 0, because all buffers start as its block 0.
- Vm.Vm.MapPages: asks for permissions that make a leaf, because an entry without any of them would be read as a pointer to a table.
- ProcMemory.Procs.Run: each of fork, exec, growproc, copyout, freeproc and a kernel use of a page is one step on memory, because their page tables are private; how kalloc and kfree of several CPUs interleave inside them is not modelled.
- ProcMemory.Procs.Exec: the program's segments and where a bad header stops it are inputs, and segment permissions are as flags2perm makes them; 32 arguments are refused, because sys_exec passes on at most 31 and exec's own array has no room for the zero after 32; a string longer than the stack address is refused by the test for room, where the source wraps around and fails in copyout; registers but sp, and the process name, are not modelled.
- ProcMemory.Procs.KernelWrite: what the kernel keeps in its own pages is left open, because no process's memory depends on it.
- Vm.Vm.UvmClear: asks for the aligned address of a valid, readable page, because exec calls it on a page it has just mapped; for an address without a table the source panics.
- ProcMemory.Procs.FirstPage: a kernel that cannot get its first page is taken to go on without it, because uvmfirst does not look.
- FsBudget.FileWrite: does not model the user copy inside writei, as above; other operations than filewrite, dirlink and itrunc are not counted.
- FsRun.RecoveredFiles: how inodes are read off the disk is a parameter, because the inode table is in memory in `FsInode`.
- FsRun.Mkfs: does not write the super block, the root directory and the initial files, because the operations make files as well; super block and inode blocks are metadata without contents of their own.
- Memory frames are page tables or bytes by use: reading a table as bytes is not modelled, and neither are `copyinstr` and what the kernel's own page table maps.
- Process ids, `killed`, exit status and open files: none takes part in the locks and states; `kill` is the wake-up it causes.
- Critical sections that touch one other process (a turn of `wakeup`, of `wait`'s scan, `kill`) are one step each, enabled when that process's lock is free.
- VirtioRing.ReturnsWhenDone: assumes that the device completes requests with status 0 and that a buffer is submitted by its lock holder only; device set-up, barriers and the notify register are not modelled.
- Umalloc.Heap.Malloc: asks for a request whose size in bytes fits the int that sbrk takes, and does not model 32-bit sizes of free blocks, because a heap is far smaller; the outcome of `sbrk` is an argument, and the loop is told lap by lap.
- Sha256.Context.Final: speaks of the compression function the context was made with, which is that of the standard; `Sha256.HashParts` states the digest outright.
- The system information table is apart from the load range, the loader and the RAM disk; its other fields, the entry address and the jump are not modelled.
- Shell: running commands, reading lines and allocation failures; in the source a simple command's node is filled while redirections already surround it, in the model the two lists are put together at the end.
- Machine arithmetic is written out where a guard or a format depends on it (ring indices, ranges of `readi` and `writei`, SHA-256, headers) and is unbounded elsewhere.
