# A verified model of xv6 with a lottery scheduler

This project models the parts of the kernel and of its user programs where the difficulty is, and
proves what they are for: a file system that survives crashes, page tables and an allocator that
lose no page on any failure path, a heap, locks and process exit under every interleaving, a fair
lottery, a disk driver, a parser and a matcher.  It is written in Dafny 4.11; the whole project is
checked by `dafny verify dfyconfig.toml`.

## How it is organised

Code that changes state in place is a class whose methods keep the code's loops, branches and order
of updates (buffer cache, log, page tables, file system, heap, parser, virtio disk).  Each method is
proved against functions and predicates over values, and the theory of those is in modules of its
own.  Protocols between processes are state machines with one step per access to shared state, and
their properties hold in every state of every run.

| files | models |
|---|---|
| `LogCrash`, `WriteAheadLog`, `LogAdmission`, `AdmissionLimit`, `BufferCache` | log.c and bio.c: what is on the disk after every single block write of a commit or a recovery; the code that issues those writes through the cache; admission of operations as an interleaving, and how good its test is |
| `PageOwnership`, `PageTable`, `ProcessMemory`, `UserCopy`, `UserMemory` | kalloc.c, vm.c and the memory side of proc.c: every page has one owner, a three-level tree is a map from pages to entries; whole runs of processes that come, grow, fork and go; copies between kernel and user memory; memory as the process itself sees it |
| `BlockOwnership`, `FileSystem` | fs.c: bitmap, direct and indirect blocks, inodes on the disk, files as byte sequences |
| `CrashSafety`, `GroupCommit`, `FileHistory` | fs.c on log.c: files across crashes at every block write; transactions of any operations, failed copies included; whole runs of transactions, crashes and boots |
| `HeapList`, `HeapAllocator` | umalloc.c: the circular free list |
| `SleepLock`, `ExitWait` | sleeplock.c and proc.c: sleep and wakeup, fork, exit and wait |
| `Generator`, `Lottery` | random.c and the lottery branch of scheduler() |
| `ShellGrammar`, `ShellParser`, `ShellLanguage`, `ShellWords`, `ShellPrinter` | sh.c: what the parser computes, the code that does it, the grammar that it decides, where the words go, and printing |
| `VirtioRing` | virtio_disk.c and a device, after sections 2.6 and 5.2 of the OASIS Virtual I/O Device specification 1.1 |
| `GrepMatcher` | grep.c: the matcher and the language it decides |
| `Counting`, `Common` | cardinalities of finite sets; sizes, machine words, memmove() and strings that end at a NUL |

Addresses in page tables are page numbers; the split into three nine-bit indices is that of section
4.4 of the RISC-V Privileged Architecture, version 20211203.  The heap follows section 8.7 of The C
Programming Language, 2nd ed.

## What the proofs found

- **Log size.**  "No appending log_write panics within its operation's budget" is true if and only if
  the log region has more than LOGSIZE blocks (`LogAdmission.AppendPanicsIff`).  mkfs.c:25 makes it
  exactly LOGSIZE blocks, so three operations that each stay within MAXOPBLOCKS can reach
  `panic("too big a transaction")` (log.c:220-221).
- **Waiting for the log.**  begin_op() counts a whole MAXOPBLOCKS for every operation inside, whatever
  it has logged already.  Of the tests that look at the log alone no other lets in more operations
  (`AdmissionLimit.AdmitsIff`), but an operation can wait that would fit
  (`AdmissionLimit.WaitsInVain`): it would exactly when logged blocks, unused budgets and
  MAXOPBLOCKS do not exceed LOGSIZE (`AdmissionLimit.JoinedIff`).
- **Absorption.**  The size check comes before the search for the block (log.c:220 and 225-228), so
  when the log holds LOGSIZE blocks even a log_write that would be absorbed panics
  (`LogAdmission.AbsorbedWriteCanPanic`).
- **Failed copies in writei().**  When either_copyin() fails inside a chunk (fs.c:522-525), the bytes
  that it did copy stay in the buffer, beyond the count that writei() returns, and the buffer is
  released without log_write().  Count and blocks differ exactly when the source of the copy ends
  before the data, after its first byte and not at a block's end, with enough blocks unused to get
  there (`FileSystem.DiffersIff`, and an instance in `FileSystem.FailedCopy`).
- **Uncounted bytes on the disk.**  Such bytes are lost when bget() recycles the buffer, and reach the
  disk if the block is in the log when a transaction commits, whether an earlier or a later write of
  that transaction logged it, or one of a later transaction while the buffer is still cached.  The
  disk then holds what the counts say if and only if no such byte, below the file's size and not
  overwritten since, differs from the counted one (`GroupCommit.CrashingGroup`, and an instance in
  `GroupCommit.StainedCommit`).  A write in a transaction of its own cannot do itself this harm, and a
  truncation never does (`GroupCommit.CrashingWrite`, `GroupCommit.CrashingTrunc`).
- **Buffers for the commit.**  commit() reads log blocks through the cache, and bget() panics when all
  buffers are referenced and the block has none.  That happens before the commit point or not at all
  (`WriteAheadLog.Log.Commit`, and an instance in `WriteAheadLog.CommitCanPanic`).  While only the
  log's pins hold buffers, one is free if and only if fewer than LOGSIZE blocks are logged
  (`WriteAheadLog.PinsLeaveRoom`), which a log region of LOGSIZE blocks, its header included, ensures.
- **Shrinking below zero.**  growproc() with a negative size change larger than the size wraps, and
  uvmdealloc() takes the result for growth: the call succeeds and changes nothing
  (`PageTable.Kernel.GrowProc`).
- **Large requests.**  malloc() passes the request on to sbrk() as an int, which holds it exactly up to
  2^31 - 32 bytes (`HeapAllocator.RequestFits`).
- **Sectors.**  virtio_disk_rw() multiplies the block number by 2 in 32 bits (virtio_disk.c:218), so two
  blocks share a sector exactly when their numbers are equal modulo 2^31 (`VirtioRing.SectorsApart`).
- **Tickets.**  settickets() accepts any positive int, and 64 processes with INT_MAX / 64 + 1 tickets
  each are too many for the int that counts them (`Lottery.SumMayNotFit`); without that one they
  never are (`Lottery.SumFits`).
- **Parents.**  The parent of a live process is alive even while wait_lock is held, not only when it
  is free (`ExitWait.ParentsLive`).

## Model

| member | source | states |
|---|---|---|
| `LogCrash.CrashAtomicity` | log.c:68-123 | commit cut after any number of block writes, then any number of cut recoveries, then one that completes: the log is empty and the home blocks are the transaction's if the non-empty header was written and the old ones if not |
| `LogCrash.RunsAreAtomic` | log.c:117-203 | over any number of boots, each with any committed transactions, any crash point and any crashed recoveries, the home blocks are those of a store that applies each committed transaction in one step |
| `LogCrash.CommitPrefixLogical` | log.c:179-203 | every disk between two writes of commit() stands for all of the transaction or none of it; the header write is where this changes |
| `LogCrash.HomeUntouchedBeforeCommit` | log.c:179-203 | no home block changes before the non-empty header is on the disk |
| `LogCrash.RecoveryPreserves` | log.c:69-123 | a recovery cut anywhere leaves what the disk stands for unchanged, so recovery may be repeated |
| `LogCrash.RecoverEffect` | log.c:117-123 | a complete recovery leaves an empty log and the home blocks that the disk stood for |
| `LogCrash.CommitEffect` | log.c:194-203 | all writes of a commit leave an empty log and the updated home blocks |
| `LogCrash.CommittingIsPrefix` | log.c:179-203 | the disk after i writes, described recursively, is the disk after the first i writes of the commit's write list |
| `LogCrash.RecoveringIsPrefix` | log.c:69-123 | the same for recovery's write list |
| `LogCrash.HeaderRoundTrip` | log.c:87-114 | reading back a header block gives the list of block numbers written to it |
| `LogCrash.ZeroedIsReady` | mkfs.c:110-111 | on the zeroed disk that mkfs starts with the log is empty and any few distinct home blocks can be committed |
| `WriteAheadLog.Log.Commit` | log.c:194-203 | issues exactly the block writes of the crash theory, in that order; readers of home blocks see no change; bget panics exactly when every buffer is referenced and a block of the log that the commit uses has none, and then before the commit point, with the old transaction state still on the disk |
| `WriteAheadLog.PinsLeaveRoom` | param.h:9-11 | while every reference is one of the log's pins, a buffer is free, so that commit does not panic, if and only if fewer than LOGSIZE blocks are logged |
| `WriteAheadLog.CommitCanPanic` | log.c:147-191 | an instance of the panic: one block logged, its buffer kept by the pin alone, and every other buffer held by another process |
| `WriteAheadLog.Log.WriteLog` | log.c:179-191 | copies every logged block's cached contents to its place in the log, home untouched; panics exactly when a place in the log can get no buffer |
| `WriteAheadLog.Log.InstallTrans` | log.c:69-83 | writes every logged block home, in order, and unpins it |
| `WriteAheadLog.Log.WriteHead` | log.c:103-114 | the header on the disk is the in-memory one; panics exactly when the header block can get no buffer |
| `WriteAheadLog.Log.ReadHead` | log.c:87-97 | the in-memory header is the one on the disk |
| `WriteAheadLog.Log.RecoverFromLog` | log.c:117-123 | issues exactly the writes of a recovery and leaves the log ready for use |
| `WriteAheadLog.Log.LogWrite` | log.c:215-235 | refines the admission model's step: same panics, same header; an appended block is pinned, an absorbed one is not pinned twice |
| `WriteAheadLog.Log.BeginOp` | log.c:127-142 | admits exactly when the admission model does |
| `WriteAheadLog.Log.EndOp` | log.c:147-175 | refines the admission model's step; the last operation out commits all that was logged, or panics as commit does |
| `WriteAheadLog.Log.LeaveOp` | log.c:147-165 | refines the admission model's step: the last operation out starts the commit, and nobody is let in until it is over |
| `LogAdmission.ReachableInv` | log.c:126-175 | in every interleaving: logged blocks plus unused budgets fit in LOGSIZE, no block is listed twice, a commit runs only when nothing is outstanding |
| `LogAdmission.StepKeepsInv` | log.c:126-235 | every begin_op, log_write, end_op and commit step keeps that invariant |
| `LogAdmission.EndOpNeverPanics` | log.c:152-153 | the "log.committing" panic is unreachable |
| `LogAdmission.AppendNeverPanics` | log.c:220-221 | with log.size > LOGSIZE no log_write that appends panics |
| `LogAdmission.WhenLogWritePanics` | log.c:220-223 | log_write panics exactly when the log is full, even if the block would be absorbed |
| `LogAdmission.AppendPanicsIff` | log.c:220-221 | an appending log_write within its budget can panic if and only if log.size <= LOGSIZE, which is the size that mkfs makes |
| `LogAdmission.AbsorbedWriteCanPanic` | log.c:220-228 | a run in which a log_write that would be absorbed panics, however large the log |
| `AdmissionLimit.AdmitsIff` | log.c:127-143 | begin_op() lets an operation in exactly when, from every reachable state with this log, the operations inside and the new one can never need more than LOGSIZE blocks |
| `AdmissionLimit.OverflowsIff` | log.c:133-135 | operations within their budgets can need more than LOGSIZE blocks if and only if logged blocks and unused budgets add up to more |
| `AdmissionLimit.JoinedIff` | log.c:133-135 | one more operation can make the log pass LOGSIZE if and only if logged blocks, unused budgets and MAXOPBLOCKS exceed it |
| `AdmissionLimit.WaitsInVain` | log.c:133-135 | a run in which begin_op() makes an operation wait that would fit, because the log does not keep what each operation has used |
| `BufferCache.BCache.constructor` | bio.c:37-53 | the ring holds every buffer once |
| `BufferCache.BCache.BGet` | bio.c:59-89 | returns the one buffer that caches the block, or recycles the least recently used unreferenced one; fails exactly when all buffers are referenced and none caches the block; no referenced buffer is recycled |
| `BufferCache.BCache.Bread` | bio.c:93-103 | the buffer's contents are what the block's last writer left (overlay on disk), the buffer is locked and referenced once more |
| `BufferCache.BCache.Bwrite` | bio.c:107-112 | the disk block is the buffer's contents, and that write is the only one |
| `BufferCache.BCache.Brelse` | bio.c:117-137 | gives up one reference; at zero the buffer moves to the front of the ring, which stays a ring of all buffers |
| `BufferCache.BCache.Bpin` | bio.c:140-144 | one more reference, one more pin |
| `BufferCache.BCache.Bunpin` | bio.c:147-151 | one reference and one pin less; coherence is kept |
| `BufferCache.RecycleSafe` | bio.c:75-84 | recycling an unreferenced buffer loses nothing: its block is clean, and keys stay unique |
| `BufferCache.TakeSafe` | bio.c:93-103 | a buffer just locked holds what readers must see, from memory if valid and from the disk if not |
| `BufferCache.UnlinkRing` | bio.c:126-128 | taking a buffer out by its two pointers leaves a ring of the others |
| `BufferCache.LinkRing` | bio.c:129-132 | putting it first gives a ring of all of them with it in front |
| `PageTable.Kernel.constructor` | kalloc.c:27-40 | every page from end to PHYSTOP is free |
| `PageTable.Kernel.Kalloc` | kalloc.c:69-82 | takes a free page for the kernel, fails exactly when none is free, and changes no mapping |
| `PageTable.Kernel.Kfree` | kalloc.c:47-63 | the page is on the free list; the trees of tables stay in order |
| `PageTable.Kernel.Walk` | vm.c:86-103 | finds the bottom-level table; with alloc it may add tables but changes no mapping in any address space, and fails only when memory has run out |
| `PageTable.Kernel.MapPages` | vm.c:144-172 | on success exactly the range is mapped, to consecutive pages; otherwise exactly a prefix of it is, and a panic means that the next page was mapped already |
| `PageTable.Kernel.UvmUnmap` | vm.c:178-199 | the range is unmapped up to the first page that was not mapped, where it panics; every other mapping of every address space is unchanged, and with do_free exactly the unmapped pages become free |
| `PageTable.Kernel.UvmCreate` | vm.c:204-212 | a new address space that maps nothing, made of one free page |
| `PageTable.Kernel.UvmAlloc` | vm.c:233-256 | for every new size: on success every new page is zeroed and mapped; when memory runs out every mapping and every owner is what it was, up to tables added; it does not run out while three pages per new page are free, and always does before the trapframe is reached |
| `PageTable.Kernel.UvmDealloc` | vm.c:263-274 | exactly the pages above the new size are unmapped and free; the returned size is the smaller one; a size that is not smaller changes nothing |
| `PageTable.Kernel.FreeWalk` | vm.c:279-294 | frees every table below; the "freewalk: leaf" panic is unreachable when nothing is mapped |
| `PageTable.Kernel.UvmFree` | vm.c:299-304 | exactly the pages of the address space become free |
| `PageTable.Kernel.UvmCopy` | vm.c:313-340 | the child maps each page with the same flags to a page of its own with the same contents; on failure, which three free pages per page rule out, no mapping has changed |
| `PageTable.Kernel.ProcPagetable` | proc.c:185-214 | only the trampoline and the trapframe are mapped; on failure, which more than 5 free pages rule out, every page is owned as before |
| `PageTable.Kernel.ProcFreePagetable` | proc.c:219-224 | exactly the pages of the address space become free |
| `PageTable.Kernel.GrowProc` | proc.c:268-283 | growth maps zeroed pages between the sizes and takes nothing else but tables; shrinking frees exactly the pages between the sizes; failure keeps the size and needs too few free pages; shrinking below zero changes nothing at all |
| `PageTable.Kernel.AllocProc` | proc.c:117-158 | a trapframe page and an address space, or no page has changed hands, which more than 6 free pages rule out |
| `PageTable.Kernel.FreeProc` | proc.c:164-180 | the trapframe and exactly the pages of the address space become free |
| `PageTable.Kernel.ForkMemory` | proc.c:288-306 | the child has its own copy of all user memory and no other address space changes, or no page has changed hands, which enough free pages rule out |
| `PageTable.Kernel.Life` | proc.c:117-283 | allocproc, growproc by any list of amounts, freeproc: whatever fails on the way, every page is owned as before and no other address space has noticed |
| `ProcessMemory.System.Run` | proc.c:117-306 | any run of allocproc, fork, growproc and freeproc by any processes, failures included: every page is as at boot, free, or the one trapframe or part of the one address space of one process; when no process is left every page is owned as at boot |
| `ProcessMemory.System.SpawnProc` | proc.c:117-158 | a new process without user memory, every other process keeping its memory with its contents; or nothing has changed hands |
| `ProcessMemory.System.ForkProc` | proc.c:288-306 | the child has a copy of the parent's memory, every other process keeps its own; or nothing has changed hands |
| `ProcessMemory.System.GrowProc` | proc.c:268-283 | only this process's memory and size change, also when pages run out |
| `ProcessMemory.System.FreeProc` | proc.c:164-180 | the process is gone, every other keeps its memory with its contents |
| `ProcessMemory.NothingLost` | proc.c:117-283 | accounted for, and with no process left, means owned as at boot |
| `ProcessMemory.Added` | proc.c:117-158 | a new process keeps every page accounted for |
| `ProcessMemory.Resized` | proc.c:268-283 | growth and shrinking keep every page accounted for |
| `ProcessMemory.Removed` | proc.c:164-180 | freeing a process keeps every page accounted for |
| `ProcessMemory.ImageKept` | vm.c:178-340 | a step that leaves a process's mappings and pages alone leaves its memory's contents alone |
| `PageOwnership.IndicesDetermine` | riscv.h:373-376 | the three nine-bit indices determine the virtual page |
| `PageOwnership.FindIsLabelled` | vm.c:86-103 | what a walk finds is labelled with the prefix it followed |
| `PageOwnership.LabelledIsFound` | vm.c:86-103 | a table labelled with a page's prefix is the one a walk finds |
| `PageOwnership.LeafWriteMapping` | vm.c:165-166 | writing a leaf entry changes the map at one page of one address space |
| `PageOwnership.LinkMapping` | vm.c:94-100 | adding a table changes no mapping |
| `PageOwnership.UserPageIsMapped` | vm.c:178-199 | a user page is mapped at exactly the virtual page it is labelled with |
| `PageOwnership.MappedIsOwned` | vm.c:144-172 | a mapped user page has a frame that belongs to it alone |
| `PageOwnership.GrownUndone` | vm.c:243-252 | unmapping what was mapped since gives back exactly the pages taken |
| `PageOwnership.FoundedGone` | proc.c:117-224 | destroying an address space gives back exactly the pages that making it took |
| `PageOwnership.MemoryFits` | vm.c:233-256 | user memory without holes is no larger than physical memory, so it ends below the trapframe |
| `UserCopy.Memory.CopyOut` | vm.c:359-383 | memory is as after storing the bytes one by one through the page table; it stops exactly before the first address out of reach, and changes only frames that a valid entry with PTE_U and PTE_W names |
| `UserCopy.Memory.CopyIn` | vm.c:389-408 | the bytes are those that single loads give; it stops exactly before the first address out of reach |
| `UserCopy.Memory.CopyInStr` | vm.c:415-451 | 0 exactly when a NUL lies within max bytes with every byte up to it in reach; then the string is what single loads give |
| `UserCopy.Memory.WalkAddr` | vm.c:109-126 | the frame of a page that user code may read, 0 otherwise |
| `UserCopy.ChunkIsBytes` | vm.c:373-376 | one memmove within a page is that many byte stores |
| `UserCopy.StoresLoad` | vm.c:359-408 | what was stored is loaded back, when different pages have different frames |
| `UserCopy.SpaceApart` | vm.c:359-408 | in the kernel's page tables different user pages do have different frames |
| `UserCopy.Memory.OutAndIn` | vm.c:359-408 | a copyout that succeeds makes copyin of the same range succeed with the same bytes |
| `UserCopy.StoresWritable` | vm.c:366-371 | byte stores change only frames that a valid entry with PTE_U and PTE_W in their range names |
| `UserMemory.Grow` | proc.c:268-283 | the bytes of new pages read as zero, user code can read and write but not execute them, copyin() and copyout() reach them; kept bytes are as before in every respect; beyond the size nothing can be reached |
| `UserMemory.Fork` | proc.c:288-306 | every byte of the parent is in the child with the same contents and the same rights, and in the parent as it was; beyond the size nothing can be reached |
| `UserMemory.Spawn` | proc.c:117-158 | a new address space has no byte that user code, copyin() or copyout() can reach |
| `UserMemory.Isolated` | vm.c:359-408 | a byte stored through one address space changes what no other address of it and no address of another one shows |
| `UserMemory.SpaceFramesOk` | vm.c:109-126 | the page tables that the kernel keeps meet what the copying functions ask |
| `UserMemory.AsHardware` | vm.c:86-103 | in every page table that the kernel keeps, the address translation of the hardware ends at the entry that walk() finds, or faults if that entry is not valid for any access |
| `UserMemory.EntryRoundTrip` | riscv.h:360-371 | an entry is what its 64-bit word decodes to |
| `UserMemory.Junk` | kalloc.c:55-80 | the page-table entries that the fill bytes of kfree() and kalloc() stand for |
| `FileSystem.Disk.Balloc` | fs.c:66-88 | the first unused block, zeroed and marked; 0 exactly when the disk is full; no file's bytes change |
| `FileSystem.Disk.Bfree` | fs.c:92-105 | clears the block's bit; panics exactly when it was clear |
| `FileSystem.Disk.Bmap` | fs.c:383-421 | the address in the block's slot; a mapped block is returned without any change, a new one is logged, changes no file's bytes and fills that slot and at most the indirect one; 0 exactly when fewer blocks are unused than the slot and the indirect block lack, and then the disk is full |
| `FileSystem.Disk.ITrunc` | fs.c:426-453 | the file is empty, on the disk too, and exactly its blocks become unused; the "freeing free block" panic is unreachable; every changed block is logged |
| `FileSystem.Disk.ReadI` | fs.c:472-496 | the bytes contents[off..min(off+n, size)], with nothing changed; when the copy fails -1, and exactly the bytes that the destination takes have reached it |
| `FileSystem.Disk.WriteI` | fs.c:506-539 | how many bytes count is determined by the state before: all, or the whole chunks that could be copied, or, if fewer blocks are unused than the rounds need, up to the round that runs out; those bytes are the data's, all others as before, but for the bytes of a failed copy, which are in that one block only and not in the log unless the block is new; blocks with counted bytes and new blocks are logged, and without the uncounted bytes every changed block is; the size is extended and the inode is on the disk |
| `FileSystem.WrittenContents` | fs.c:506-539 | unless a failed copy left bytes within the size, the contents are old[..off] + data[..tot] + old[off+tot..] |
| `FileSystem.OtherContents` | fs.c:506-539 | the contents of every other file are the same |
| `FileSystem.DiffersIff` | fs.c:517-527 | judged by the state before the call: more bytes changed than count exactly when the source of the copy ends before the data, inside a block, and there are blocks enough to get there |
| `FileSystem.CountIs` | fs.c:506-539 | the count, and the number of bytes copied, from the state before the call: the goal if enough blocks are unused, or else the bytes before the first round that lacks one |
| `BlockOwnership.RoundLacks` | fs.c:383-421 | what a round of a write lacks, after the rounds before it, is what the file lacked for it to begin with, the indirect block counted once |
| `FileSystem.FailedCopy` | fs.c:517-527 | a write of two bytes whose copy fails after the first returns 0, and the file's first byte has changed |
| `FileSystem.Disk.WriteBudget` | fs.c:383-539 | a write, failed or not, logs at most its data blocks, the indirect block, the inode's block and the bitmap blocks |
| `FileSystem.Disk.FileWriteFits` | file.c:155-166 | a write of filewrite()'s size logs at most 7 blocks with one bitmap block, below MAXOPBLOCKS |
| `FileSystem.Disk.IUpdate` | fs.c:226-241 | reading the inode's block gives the in-memory size and addresses, every other inode on the disk and every file is as it was, and the block is logged |
| `BlockOwnership.FreshInv` | mkfs.c:237-250 | a new file system, with the metadata blocks marked, has the ownership that all operations keep |
| `BlockOwnership.FreshSynced` | mkfs.c:237-250 | its inode blocks hold the empty inodes |
| `BlockOwnership.BitmapFormat` | mkfs.c:245-249 | where on the disk the bit of a block is, by byte and bit value |
| `BlockOwnership.InodeFormat` | fs.h:32-45 | where on the disk the size and the addresses of an inode are, byte by byte |
| `BlockOwnership.FileFormat` | fs.c:383-410 | which block of the disk holds block n of a file: 12 named by the inode, 256 by the bytes of the indirect block |
| `BlockOwnership.MarkedIffOwned` | fs.c:66-105 | a data block's bit is set exactly when it is in some slot of some inode or just allocated |
| `BlockOwnership.NoneLoose` | fs.c:383-453 | what bmap, writei and itrunc do to the uses of blocks leaves no block allocated outside every slot |
| `BlockOwnership.NoLeak` | fs.c:66-105 | so no block leaks: between calls a bit is set exactly for metadata blocks and blocks in some slot |
| `BlockOwnership.OwnedOnce` | fs.c:383-421 | no block is in two slots, and none in a slot is metadata |
| `BlockOwnership.MarkMarks` | fs.c:76-78 | setting or clearing one bit changes that bit and no other |
| `BlockOwnership.WordOf` | fs.c:408-413 | writing one word of an indirect block changes that word and no other |
| `BlockOwnership.AllocOk` | fs.c:66-88 | allocation keeps ownership and all files' bytes |
| `BlockOwnership.LinkOk` | fs.c:388-394 | filling a slot of the inode keeps ownership, and no file's bytes change |
| `BlockOwnership.LinkEntryOk` | fs.c:408-414 | the same for an entry of the indirect block |
| `BlockOwnership.WriteOk` | fs.c:517-527 | writing a data block changes those bytes of that file and nothing else |
| `BlockOwnership.FreeAddrOk` | fs.c:432-450 | freeing a block and clearing its slot keeps ownership of all others |
| `BlockOwnership.FreeEntryOk` | fs.c:441-444 | freeing through a stale indirect entry keeps ownership of all others |
| `BlockOwnership.InodeRoundTrip` | fs.c:226-312 | what iupdate writes into a block ilock reads back, and the block's other inodes are as they were |
| `BlockOwnership.InodeWriteOk` | fs.c:226-241 | writing an inode's block keeps ownership, all files and all other inodes |
| `BlockOwnership.InodesUndisturbed` | fs.c:383-539 | nothing but iupdate changes an inode on the disk |
| `GroupCommit.CrashingGroup` | log.c:126-235 | any operations on any files, with failed copies and recycled buffers, committed together and cut at any block write, with any cut recoveries: before the commit point the recovered disk has every file as before; past it the files have their uncounted bytes of logged blocks, and are what the counts say if and only if no uncounted byte below a file's size, in a logged block and not overwritten since, differs from the counted one |
| `GroupCommit.CommitOutcome` | log.c:117-203 | the same for one commit and one cut, from any buffers that reflect the disk |
| `GroupCommit.StainedCommit` | fs.c:517-527 | an instance: a write that returns 0 and one that returns 1 make [1, 9] of [1, 2] by their counts, and [7, 9] on the disk |
| `GroupCommit.CrashingWrite` | file.c:155-166 | writei by one filewrite and its commit cut anywhere: the log has room; the recovered disk has all files as before, or with the bytes that count if and only if the write logged no block with a differing byte of an earlier failed copy that it did not overwrite; bytes of its own failed copy do no harm |
| `GroupCommit.CrashingTrunc` | fs.c:426-453 | itrunc and its commit cut anywhere, whatever bytes of failed copies are in the buffers: all files as before, or with that file empty |
| `GroupCommit.Perform` | fs.c:426-539 | one operation inside a transaction: what it counts and what it leaves uncounted, in terms of files and of the bytes in buffers |
| `GroupCommit.CleanIff` | fs.c:517-527 | the committed files are what the counts say if and only if no uncounted byte in a logged block differs |
| `GroupCommit.CleanWrite` | fs.c:506-539 | for one write the condition reduces to earlier uncounted bytes of the same file |
| `GroupCommit.DurableFiles` | log.c:179-191 | the blocks that a commit leaves on the disk make a consistent file system whose files are exactly the counted bytes and the uncounted ones in logged blocks |
| `GroupCommit.WriteReflects` | fs.c:506-539 | writei keeps the relation between disk, buffers, counted and uncounted bytes |
| `GroupCommit.TruncReflects` | fs.c:426-453 | so does itrunc |
| `GroupCommit.RecycleReflects` | bio.c:75-84 | so does recycling the buffer of a block that is not in the log, which loses its uncounted bytes |
| `FileHistory.RunsKeepFiles` | log.c:117-235 | over any number of transactions, crashes, cut recoveries and boots the disk holds the files that the transactions which reached their commit point left, each in one step, in order, and nothing of the others |
| `FileHistory.CleanRunsCount` | log.c:117-235 | if none of them commits a differing uncounted byte, these are the files that the counts of the operations say |
| `FileHistory.EpochKeeps` | log.c:117-235 | every transaction, committed or cut, leads from a disk, buffers and files that agree to ones that agree |
| `FileHistory.CommittedReflects` | log.c:194-203 | after a commit the uncounted bytes that are left are those in blocks that were not in the log; a later transaction may still commit them |
| `CrashSafety.SomeDisk` | log.c:117-203 | every cut of a commit and of the recoveries after it leaves a disk behind |
| `CrashSafety.TransactionAtomic` | log.c:117-203 | the recovered disk mounts as a consistent file system with the files from before the transaction, or with those after it once the header is written |
| `CrashSafety.CrashShows` | log.c:117-203 | block by block, the recovered disk has the old bytes or the logged ones |
| `CrashSafety.LogIsNoFile` | fs.h:9-11 | what the log region holds matters to no file |
| `CrashSafety.WordsDetermine` | log.c:35-38 | nothing is lost between the bytes of a block and the words that the log deals in |
| `HeapAllocator.Heap.Malloc` | umalloc.c:64-90 | a block of the right size that no live block overlaps, after at most one morecore and none while a free block suits; NULL exactly when no free block suits and sbrk fails |
| `HeapAllocator.Heap.Free` | umalloc.c:25-44 | the block is live no more and all other live blocks are intact; the free list stays ordered and coalesced |
| `HeapAllocator.Heap.MoreCore` | umalloc.c:47-61 | the new region is free, merged with what it touches, and some free block suits the request |
| `HeapAllocator.Heap.Search` | umalloc.c:30-32 | terminates at the block after which the freed one belongs |
| `HeapAllocator.Heap.Link` | umalloc.c:25-44 | the freed units join the free ones; the list is address-ordered, disjoint and coalesced again |
| `HeapAllocator.Heap.Take` | umalloc.c:75-84 | exactly the requested units leave the free list, from the tail of the block found |
| `HeapAllocator.Heap.Conservation` | umalloc.c:25-90 | the sizes of the free blocks and of the live blocks add up to the units obtained from sbrk |
| `HeapAllocator.RequestFits` | umalloc.c:47-68 | sbrk is asked for the bytes that a request needs exactly when the request is at most 2^31 - 32 bytes |
| `HeapList.FreeUpper` | umalloc.c:33-37 | linking a block in and merging it with its upper neighbour |
| `HeapList.FreeLower` | umalloc.c:38-42 | merging with the lower neighbour leaves no two adjacent free blocks |
| `HeapList.SplitOk` | umalloc.c:78-82 | cutting the tail off a block keeps the list ordered and coalesced |
| `SleepLock.NoLostWakeup` | proc.c:592-636 | in every interleaving, when the spinlock is free and the lock is not taken, no process sleeps on it or is on its way to |
| `SleepLock.MutualExclusion` | sleeplock.c:22-41 | at most one process holds the lock, and lk->pid is that process |
| `SleepLock.TakenIsHeld` | sleeplock.c:22-41 | when the lock is taken some process holds it |
| `SleepLock.AcquireReturns` | sleeplock.c:22-31 | when acquiresleep() returns, the caller holds the lock and is named in it |
| `SleepLock.ReleaseReturns` | sleeplock.c:34-41 | when releasesleep() returns, the lock is free and nobody sleeps on it or is on the way to |
| `SleepLock.HoldingSleep` | sleeplock.c:44-52 | while the spinlock is free, the test of holdingsleep() is true of exactly the process that holds the lock, and a free lock names nobody |
| `SleepLock.KillWakes` | proc.c:642-660 | when kill() returns, its target is not asleep |
| `SleepLock.NothingHeld` | proc.c:592-620 | a process that sleeps, has yielded or is outside holds no spinlock |
| `SleepLock.StaysAttended` | proc.c:592-660 | every step of acquire, release, sleep, wakeup, kill and yield keeps a wakeup on its way to every process bound for sleep |
| `SleepLock.WakerSteps` | proc.c:623-636 | the waker reaches every sleeper before it drops the spinlock |
| `SleepLock.StepInv` | proc.c:535-660 | every step of every process and of the scheduler keeps the invariant |
| `ExitWait.ParentsLive` | proc.c:339-394 | in every interleaving every live or zombie process but initproc has a parent that is neither UNUSED nor a ZOMBIE |
| `ExitWait.ReapedOnce` | proc.c:355-443 | exited processes are exactly the zombies and those that some wait returned, and no two waits return the same one |
| `ExitWait.WaitReturnsChild` | proc.c:408-429 | a wait that returns a pid has freed its own zombie child with that pid, which is off the CPU and whose status was copied out |
| `ExitWait.WaitReturns` | proc.c:399-443 | what wait() returns in every run: the pid and the status of the child it freed; -1 with a zombie child only if the status could not be copied out; otherwise -1 only if the caller is killed or has no child, and then no child is a zombie |
| `ExitWait.WaitTakesZombie` | proc.c:417-429 | a scan that comes to a zombie child ends there: the child is freed and returned, or its status cannot be copied out and it stays |
| `ExitWait.SleepsForChild` | proc.c:434-441 | a process that sleeps in wait(), or is about to, has a child |
| `ExitWait.KilledStaysAwake` | proc.c:434-441 | a killed process that is not already on its way to sleep in wait() never goes to sleep there |
| `ExitWait.StatusHandedOver` | proc.c:355-429 | every wait that returns a pid hands over the status that this child passed to exit() |
| `ExitWait.CallsEnd` | proc.c:288-443 | wait() and fork() return only from their last step, and exit() never returns |
| `ExitWait.ForkReturns` | proc.c:318-334 | fork() ends with a runnable child of the caller, whose pid no other process has or had |
| `ExitWait.KillMarks` | proc.c:642-660 | kill() marks its target, which is then not asleep |
| `ExitWait.NothingHeld` | proc.c:372-441 | a process that sleeps, is dead or can be interrupted holds no lock |
| `ExitWait.NoLostExit` | proc.c:372-442 | when wait_lock is free no process sleeps in wait while it has a zombie child |
| `ExitWait.StepInv` | proc.c:288-443 | every step of fork, exit, wait and kill keeps the invariant |
| `ExitWait.PairKept` | proc.c:339-443 | what holds between a parent and a child is kept by every step of either or of a third process |
| `ExitWait.HistoryKept` | proc.c:379-429 | exits and reaps stay in step with the zombies |
| `Generator.Period` | random.c:3-7 | from any seed, the seed comes back exactly after multiples of 2^32 updates |
| `Generator.Distinct` | random.c:3-7 | no seed repeats within a period |
| `Generator.VisitsAll` | random.c:3-7 | one period visits every 32-bit value |
| `Generator.FirstSeeds` | random.c:1-5 | the first seeds after 1 |
| `Generator.SumDiv` | random.c:5 | 2^k divides 1 + a + ... + a^(n-1) exactly when it divides n |
| `Generator.Random.Draw` | random.c:3-7 | the next seed modulo 2^32, and its remainder by max |
| `Lottery.Count` | proc.c:469-478 | the tickets of the RUNNABLE processes |
| `Lottery.Pick` | proc.c:484-502 | the process that holds the winning ticket in the table that this pass finds; nobody exactly when that table has too few tickets |
| `Lottery.Schedule` | proc.c:464-503 | one RUNNABLE process wins, unless there is none |
| `Lottery.SomeHolder` | proc.c:484-502 | every draw has exactly one winner |
| `Lottery.ExactShare` | proc.c:484-502 | exactly p.tickets of the T draws select p |
| `Lottery.FairShare` | proc.c:464-503 | over any 2^32 successive draws p wins between tickets * floor(2^32/T) and tickets * ceil(2^32/T) times |
| `Lottery.SumFits` | proc.c:469-478 | the sum of tickets fits an int if no process has more than INT_MAX / 64 |
| `Lottery.SumMayNotFit` | sysproc.c:100-107 | with one ticket more for each it may not, and settickets() accepts that |
| `ShellLanguage.Language` | sh.c:262-447 | the parser accepts a line exactly when the grammar, which names its white space and symbols and gives each operator its binding, has a reading of it, and its tree is the one of every such reading: no line is ambiguous |
| `ShellLanguage.Scanned` | sh.c:267-309 | gettoken(), called until the end, splits the line into runs of letters and symbols with white space around them |
| `ShellLanguage.LexedOnce` | sh.c:267-309 | a line can be split in one way only |
| `ShellLanguage.LineRead` | sh.c:346-447 | whatever follows in the line, parseline() reads a line of the grammar to its end and builds its tree |
| `ShellLanguage.LineForm` | sh.c:346-447 | whatever parseline() reads is a line of the grammar, with that tree |
| `ShellWords.EveryWordOnce` | sh.c:329-447 | every maximal run of letters of an accepted line is in its tree exactly once, and no other word is |
| `ShellWords.ArgsInOrder` | sh.c:417-447 | each command has its arguments in the order of the line, wherever redirections stand between them |
| `ShellPrinter.RoundTrip` | sh.c:267-447 | parsing the canonical printing of a command tree yields that tree |
| `ShellParser.Parser.Parse` | sh.c:329-343 | terminates on every line with the grammar's result: the tree, or the panic |
| `ShellParser.Parser.GetToken` | sh.c:267-309 | the grammar's token, with the spaces around it skipped |
| `ShellParser.Parser.PeekFor` | sh.c:312-321 | whether the next token starts with one of the characters |
| `ShellParser.Parser.Line` | sh.c:346-360 | parses a line as the grammar does |
| `ShellParser.Parser.PipeLine` | sh.c:363-373 | parses a pipeline as the grammar does |
| `ShellParser.Parser.Redirections` | sh.c:376-398 | parses redirections as the grammar does |
| `ShellParser.Parser.Block` | sh.c:401-414 | parses a block as the grammar does |
| `ShellParser.Parser.Simple` | sh.c:417-447 | parses a simple command as ShellGrammar.ParseExec does, whose words, redirections and limit of 9 words are those of ShellLanguage.Language |
| `ShellParser.NulTerminate` | sh.c:451-494 | a NUL after every word of the command and no other change |
| `ShellParser.TokensReadBack` | sh.c:451-494 | every argv and file entry reads back as exactly its token |
| `ShellParser.ParseAndTerminate` | sh.c:329-343 | both together, for every line |
| `ShellGrammar.ParseCmd` | sh.c:329-343 | every word in the tree is a maximal run of plain characters of the line, and all of the line is used; which line has which tree is ShellLanguage.Language |
| `ShellGrammar.Tok` | sh.c:267-309 | tokens advance, and word tokens are maximal runs of plain characters |
| `VirtioRing.Disk.Alloc3` | virtio_disk.c:202-213 | three descriptors, or none with fewer than three free; the panics of free_desc are unreachable |
| `VirtioRing.Disk.AllocDesc` | virtio_disk.c:157-166 | the first free descriptor, -1 exactly when there is none |
| `VirtioRing.Disk.FreeDesc` | virtio_disk.c:170-182 | panics exactly for an index out of range or a descriptor that is free |
| `VirtioRing.Disk.FreeChain` | virtio_disk.c:186-197 | exactly the chain's three descriptors become free, without a panic |
| `VirtioRing.Disk.Start` | virtio_disk.c:216-281 | succeeds exactly when fewer than two requests are in flight; then the request, with its sectors, direction and buffer, is last in the avail ring and its buffer's disk flag is set; otherwise nothing has changed |
| `VirtioRing.Disk.Finish` | virtio_disk.c:283-292 | exactly that chain's descriptors become free |
| `VirtioRing.Disk.Intr` | virtio_disk.c:295-327 | the disk flags of exactly the completed requests' buffers are cleared; the status panic is unreachable |
| `VirtioRing.Disk.IntrDuring` | virtio_disk.c:295-327 | with the device taking and completing requests between any two rounds of the handler: it ends, no completed request is left, requests only move on, and flags are cleared for exactly the buffers of requests seen |
| `VirtioRing.Disk.DeviceTake` | virtio_disk.c:267-278 | the device finds the oldest published request across index wrap-around |
| `VirtioRing.Disk.DeviceComplete` | virtio_disk.c:218-313 | a device that follows the descriptors and the header moves, 512-byte sector by sector, exactly the asked-for block between the asked-for buffer and the disk, in the asked-for direction; completions, in any order, never overrun the used ring |
| `VirtioRing.Disk.Rw` | virtio_disk.c:215-293 | one whole virtio_disk_rw(): the block is moved, the buffer is not busy, and all descriptors are free again |
| `VirtioRing.Disk.RoundTrip` | virtio_disk.c:215-293 | a block written, then another one written, is read back as it was written, if the two numbers differ modulo 2^31 |
| `VirtioRing.BlockPlace` | mkfs.c:178-184 | byte o of block n is byte 1024 n + o of the disk, where mkfs puts it |
| `VirtioRing.SectorsApart` | virtio_disk.c:218 | two blocks share a sector exactly when their numbers are equal modulo 2^31 |
| `VirtioRing.StillShows` | virtio_disk.c:218 | writing a block leaves every block that shares no sector with it as it was |
| `VirtioRing.AtMostTwo` | virtio_disk.c:202-213 | at most two requests are in flight |
| `VirtioRing.ReadRing` | virtio_disk.c:308-324 | 16-bit indices are equal only when the ring is empty, and otherwise select its oldest entry |
| `VirtioRing.WriteRing` | virtio_disk.c:267-273 | a new entry overwrites none that has not been read |
| `GrepMatcher.Match` | grep.c:73-82 | true exactly when the text has a segment in the pattern's language, at the start if the pattern begins with '^' |
| `GrepMatcher.MatchHere` | grep.c:85-96 | decides whether the rest of the pattern matches here |
| `GrepMatcher.MatchStar` | grep.c:99-106 | decides whether some number of instances can be followed by the rest |
| `GrepMatcher.HereIffSegment` | grep.c:85-106 | the search succeeds exactly when the text can be cut into an instance of each item |

## Left out

- Directories, path names, link counts, inode allocation and the in-memory inode table (fs.c, sysfile.c): they add easier members on top of blocks and files.
- Pipes, devices, the console, traps, system call dispatch, exec and the C library functions.
- The bits of a page-table entry that xv6 does not name: `PageOwnership` keeps an entry as page number and five flags, and `UserMemory` its word.
- Block contents in `LogCrash`, `BufferCache` and `WriteAheadLog` are sequences of words and in `FileSystem` of bytes; `CrashSafety` converts. `FileSystem` works on blocks as bread() shows them; that a buffer is recycled is a step of its own there.
- Crashes between the sectors of one block: a block write is atomic.
- Weak memory: spinlocks exclude each other, and steps are sequentially consistent.
- Progress: that a process which can run is eventually run, and that a device eventually completes a request.
- User memory below a process's size with holes: `uvmunmap` of a page that is not mapped panics, and its callers here have none.
- BufferCache.BCache.Bread: a buffer that another process has locked is waited for, which is not modelled; buffers of one device only, because virtio_disk_rw() ignores the device number; uniqueness of keys is stated for every device but 0, where all buffers start.
- BufferCache.BCache.Brelse: asks for a buffer that is unchanged, written or pinned; a writei() whose copy failed releases one that is none of these, and FileSystem.Disk.WriteI says what may be lost.
- WriteAheadLog.Log.Commit: asks that no other process holds a buffer that it needs; commit() would wait for that.
- WriteAheadLog.Log.EndOp: the lock is not dropped around commit(); interleavings of operations are in LogAdmission.
- PageTable.Kernel.UvmAlloc: for memory without holes below the old size, as exec() and growproc() keep it.
- PageTable.Kernel.MapPages: user page tables only; the kernel's own mappings of devices and of memory, which other pages share, are not modelled.
- PageTable.Kernel.UvmUnmap: with do_free only for user memory and without it only above it, as all its callers in vm.c and proc.c have it.
- ProcessMemory.System.Run: the table of processes has no limit of NPROC; pages that the kernel holds at boot it keeps.
- PageTable.Kernel.ForkMemory: file descriptors, registers and names of fork() are not modelled.
- HeapAllocator.Heap.Malloc: requests that HeapAllocator.RequestFits shows to reach sbrk() changed are excluded; sbrk() returns a region above all earlier ones, in whole units.
- SleepLock.NoLostWakeup: one sleep lock at a time; sleeping elsewhere counts as running other code.
- ExitWait.ReapedOnce: pids do not wrap around; sleeping elsewhere counts as running other code.
- Lottery.Schedule: the sum of tickets fits an int, as the code assumes; Lottery.SumFits says when it does.
- ShellParser.Parser.Parse: nodes are values, so allocation of nodes by malloc() is not modelled.
- VirtioRing.Disk.Start: memory barriers and device registers are not modelled, and addresses are symbolic; waiting for descriptors or for completion is the caller's next call.
- FileSystem.Disk.IUpdate: type, major, minor and nlink of an inode are not modelled; their words on the disk stay as they are.
- FileSystem.Disk.WriteI: `blocks` keeps the bytes of a failed copy until FileSystem.Disk.Recycle is called for their block; in GroupCommit that is between operations.
- BlockOwnership.FreshInv: the root directory and the files that mkfs adds are not modelled.
- GroupCommit.CrashingGroup: operations of one transaction follow each other; their interleaving is in LogAdmission, where each logs blocks on its own.
