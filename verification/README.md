# A verified model of this xv6 port, its Lisp and its page-table walker

This project states in Dafny what the hard parts of the repository do and proves that they do it: the
write-ahead log over the buffer cache, the block and inode layer with the program that lays out the
disk, the page allocator and the Sv32 page tables with the hardware walker, sleep/wakeup and what is
built on it, link counts, the user-level allocator, the shell parser, the regular-expression matcher,
the SD-card checksum, and the copying collector of the Lisp interpreter with the evaluator on top.

Code that changes things step by step is a class whose methods are proved against a specification;
what the specification is for is proved about it in lemmas. Interleavings and crashes are runs of a
state machine whose steps are the critical sections, sector writes or clocks of the source.

| files | what they cover |
|---|---|
| LogProtocol, LogRuns | log.c as a protocol: each sector write, cache reload, critical section and crash is a step; what every run guarantees |
| BufferCache, LogCode | bio.c and log.c as code; every change the code makes is a step of the protocol |
| FsModel, FsCode, Mkfs | blocks, bitmap, inodes, readi, writei, filewrite; the image mkfs writes |
| FileStore, FsOps | what the file system calls make of a table of files; create, link, unlink, open, close, read and write on blocks and inodes against it; runs of them from mkfs's image |
| FsCrash | the calls' operations as runs of the log; files across a crash |
| Links | directory entries and link counts under sys_link, create, sys_unlink, iput, and runs of them |
| VmModel, VmCode, AddressSpaces, SpaceLife, ProcessMemory | kalloc.c and vm.c over physical memory, and the memory side of fork, exit and sbrk |
| UserCopy | copyout, copyin and copyinstr: an address space as bytes |
| VmaWalker | fpga/vma.v clock by clock, against the kernel's walk |
| SleepWakeup, SleepLock, Pipe, ProcTree | sleep and wakeup as fine-grained steps; sleep-locks and pipes as data of such a monitor; fork, exit, reparent, wait |
| Umalloc | malloc and free |
| FileLinks | link counts in the bytes of the file system: entries decoded from directories' data, in runs from mkfs's image |
| Crc16, Grep | getCRC16; grep |
| ShellSyntax, ShellCode, ShellGrammar | the shell's parser on tokens and on characters; the grammar that says what a line means |
| Collector | garbage and copy of lisp.c |
| LispSpec, LispSteps | what eval and apply compute on a heap that is never collected, and why a bound on steps does not matter |
| LispHeap, LispCode, LispEval | eval and apply over the collected heap, with collections at any entries of eval |
| LispMeaning | the language: expressions, values, scopes, and what an expression means |
| LispShape, LispMoves, LispSim, LispLet, LispOps, LispMeans | how a heap represents them, and that the interpreter gives every expression its meaning |

`dafny verify dfyconfig.toml` checks everything. Sizes such as LOGSIZE, MAXOPBLOCKS, log.size, NBUF,
NPROC and MAX are parameters; `LogProtocol.SHIPPED` fixes the log's to the values of
xv6-riscv/kernel/param.h and xv6-riscv/mkfs/mkfs.c.

## What the proofs show about the code

Where a promise holds only under a condition, the condition is proved exact:

- `log_write` panics "too big a transaction" as soon as 15 blocks are listed, although MAXOPBLOCKS is 16,
  and even when the block is one of those 15 (`LogRuns.ShippedPanic`). An operation that logs any 15
  different blocks gets there (`LogRuns.PanicReached`); filewrite, create, link, unlink and close log at most
  ten and the bitmap (`FsCode.FileSystem.FileWrite`, `FsOps.SysCreate`).
- An `end_op` that is not the last outstanding one returns before its updates are durable
  (`LogRuns.EndOpDelayed`). With the shipped constants there is never a second one (`LogRuns.ShippedDurable`).
- mkfs rounds the root directory's size up by a block it does not have when the entries fill their last
  block exactly (`Mkfs.Image.Finish`, `Mkfs.Mount`), as with 30 files (`Mkfs.RootFull`).
- `readi` of a file with such a hole takes a block and logs it, in the middle of a read (`FsCode.FileSystem.Readi`).
  In fileread, which begins no operation, log_write then panics unless another process has an operation open
  (`FsOps.SysRead`). In a directory search the inode on disk does not get the block's number, and the block is
  lost when the inode leaves memory (`Mkfs.ReadRootFull`). On an image with a free block this comes about exactly
  when root's entries fill their last block and number at most 384, so that the next block is not named in an
  indirect block there is already (`FsOps.BootAndRun`, `FsOps.BootAndLose`).
- The collector mistakes a number for a forwarding address exactly when its high word is 0xff000000
  (`Collector.NumberCopied`, `Collector.NumberLost`).
- In `cond`, C leaves open whether `getsym("#t")` or `eval` runs first. If getsym did, a collection during
  eval would move the symbol and the test would fail. The model runs eval first.
- A wakeup is lost exactly when a section gives up the lock owing it to a process that was already waiting
  (`SleepWakeup.StrandedExactly`). A pipe writer that is killed after writing into an empty pipe does that
  (`Pipe.Code.WriteSection`), and the reader sleeps on with bytes in the pipe (`Pipe.KilledWriterStrands`,
  `Pipe.KilledWriter`). This needs a second CPU.
- sys_link and create leave wrong link counts exactly when they add an entry to a directory that has been
  removed but is still somebody's working directory (`Links.LinkKeeps`, `Links.CreateKeeps`), which three
  calls bring about (`Links.RemovedDirectory`). On the disk's bytes there is one more case, the link that takes
  a file's 16-bit count past 65535 (`FileLinks.CallKeeps`); a directory's count never gets there
  (`FileLinks.RoomForLink`).
- `growproc` reports success without any effect exactly when n is 0 or size + n is negative
  (`ProcessMemory.Growproc`, `ProcessMemory.ShrinkIgnored`).
- `malloc` is right exactly for requests up to 0x7FFFFFF0 bytes: beyond, sbrk's argument is negative or the
  number of units wraps (`Umalloc.RightUpTo`, `Umalloc.NegativeRequest`, `Umalloc.WrappedRequest`).
- The walker of vma.v reads the root entry twice exactly when the core's strobe is still high at the first
  bus answer (`VmaWalker.SinglePulse`).
- grep goes no further than a line of 1023 characters or more, or a line with a NUL in it (`Grep.Grep`).

## Model

| member | source | states |
|---|---|---|
| `LogProtocol.HeadUnique` | xv6-riscv/kernel/log.c:85-97 | A header block that says "these blocks" is read back by read_head as exactly that list |
| `LogProtocol.InstallPoint` | xv6-riscv/kernel/log.c:67-83 | After k rounds of install_trans the first k listed home blocks hold their log blocks and every other sector is as before |
| `LogProtocol.InstallRedoes` | xv6-riscv/kernel/log.c:67-83 | Every prefix of the copies keeps what recovery would produce; the whole of them makes the home blocks agree with it |
| `LogProtocol.RecoverRestores` | xv6-riscv/kernel/log.c:116-123 | Recovery gives the committed view and an empty log, and so does recovery after being cut off behind any of its own writes |
| `LogProtocol.StepInv` | xv6-riscv/kernel/log.c:67-235 | Every sector write, cache move, begin, log_write, end and crash keeps the invariant that ties disk, cache, header list and the two views together |
| `LogProtocol.InvRecovers` | xv6-riscv/kernel/log.c:116-123 | In every state of the invariant the disk recovers to the last committed view |
| `LogRuns.CrashSafety` | xv6-riscv/kernel/log.c:116-203 | At every moment of every run, with any crashes before, recovery (also when itself interrupted anywhere) yields the initial disk plus the whole groups committed so far |
| `LogRuns.CommittedIsReplay` | xv6-riscv/kernel/log.c:193-203 | The committed view is the initial disk with the committed groups of updates replayed in order |
| `LogRuns.AllOrNothing` | xv6-riscv/kernel/log.c:99-114 | Updates pending together share one fate: the next header write commits them all for good while no operation is open, a crash before it loses them all |
| `LogRuns.OpenOpsHoldCommit` | xv6-riscv/kernel/log.c:144-175 | While an operation is open no step commits anything |
| `LogRuns.EndOpDurable` | xv6-riscv/kernel/log.c:144-175 | When the last outstanding end_op returns, what was written before it is committed |
| `LogRuns.EndOpDelayed` | xv6-riscv/kernel/log.c:151-164 | Any other end_op returns with its updates not committed, and a crash right then loses them |
| `LogRuns.RunBudget` | xv6-riscv/kernel/log.c:126-142 | In every run, listed blocks plus the unused reservations of open operations stay within LOGSIZE |
| `LogRuns.NeverFull` | xv6-riscv/kernel/log.c:214-235 | If no operation appends more than MAXOPBLOCKS-2 blocks and log.size is at least LOGSIZE, log_write never finds the log full |
| `LogRuns.ShippedSolo` | xv6-riscv/kernel/param.h:9-11 | With the shipped constants at most one operation is open, it starts on an empty log and the log holds only its blocks |
| `LogRuns.ShippedPanic` | xv6-riscv/kernel/log.c:220-221 | With the shipped constants the capacity test fails exactly when the operation has appended 15 blocks |
| `LogRuns.PanicReached` | xv6-riscv/kernel/log.c:214-235 | From power-on with an empty log, an operation that logs any 15 different home blocks leads to a state in which the next log_write panics |
| `LogRuns.ShippedDurable` | xv6-riscv/kernel/log.c:144-175 | With the shipped constants every end_op is durable when it returns |
| `BufferCache.RingRemove` | xv6-riscv/kernel/bio.c:129-130 | The two assignments that unlink a buffer leave a doubly linked ring of the others in the same order |
| `BufferCache.RingInsert` | xv6-riscv/kernel/bio.c:131-134 | The four assignments that follow give the ring with the buffer at the most recently used end |
| `BufferCache.BCache.constructor` | xv6-riscv/kernel/bio.c:37-54 | binit: a ring of all NBUF buffers, none referenced or valid |
| `BufferCache.BCache.Bget` | xv6-riscv/kernel/bio.c:59-90 | A hit takes a reference to the one buffer of the block; a miss recycles the least recently released unreferenced buffer; it panics exactly when the block is not cached and no buffer is free |
| `BufferCache.BCache.FindCached` | xv6-riscv/kernel/bio.c:66-74 | The search from the recent end finds the buffer of a block if there is one |
| `BufferCache.BCache.FindUnused` | xv6-riscv/kernel/bio.c:76-89 | The search from the other end finds the least recently released buffer with no reference |
| `BufferCache.BCache.Bread` | xv6-riscv/kernel/bio.c:93-104 | A locked, valid buffer with the cached contents, or the sector's if it had none |
| `BufferCache.BCache.Bwrite` | xv6-riscv/kernel/bio.c:107-113 | One sector of the medium becomes the buffer's contents |
| `BufferCache.BCache.Brelse` | xv6-riscv/kernel/bio.c:117-138 | Unlocks, drops one reference, and moves the buffer to the recent end exactly when that was the last |
| `BufferCache.BCache.MoveToFront` | xv6-riscv/kernel/bio.c:129-134 | The six link assignments permute the list: the buffer first, the others in their order |
| `BufferCache.BCache.Bpin` | xv6-riscv/kernel/bio.c:140-145 | One more reference, nothing else |
| `BufferCache.BCache.Bunpin` | xv6-riscv/kernel/bio.c:147-152 | One reference less, nothing else |
| `LogCode.Log.Fetch` | xv6-riscv/kernel/bio.c:93-104 | Seen from the log, bread gives the block its readers should see and evicts no block that is pinned or held |
| `LogCode.Log.WriteThrough` | xv6-riscv/kernel/log.c:76-77 | Filling a held buffer and writing it is one step of the protocol, one new image of the medium |
| `LogCode.Log.WriteLogBlocks` | xv6-riscv/kernel/log.c:177-191 | write_log: n images, each of which still recovers to the committed view; it fails only when every buffer is referenced |
| `LogCode.Log.FillHeader` | xv6-riscv/kernel/log.c:106-111 | The loop stores the count and the list and leaves the other words |
| `LogCode.Log.WriteHeadBlock` | xv6-riscv/kernel/log.c:102-114 | write_head is the protocol's commit, erase or clear step, in one sector write |
| `LogCode.Log.CopyHome` | xv6-riscv/kernel/log.c:73-82 | One round of install_trans; the pin is dropped after a commit and not during recovery |
| `LogCode.Log.InstallTrans` | xv6-riscv/kernel/log.c:67-83 | All rounds, each image of the medium recovering to the same view |
| `LogCode.Log.Commit` | xv6-riscv/kernel/log.c:193-203 | Images up to the last log block recover to the view before, those from the header write on to the view after; one free buffer suffices |
| `LogCode.Log.TryBeginOp` | xv6-riscv/kernel/log.c:126-142 | One pass of the loop enters exactly when no commit runs and the reservation fits |
| `LogCode.Log.LogWrite` | xv6-riscv/kernel/log.c:214-235 | Panics exactly when full or outside an operation; otherwise lists and pins the block once, and the buffer's data become what readers see |
| `LogCode.Log.Record` | xv6-riscv/kernel/log.c:225-233 | The absorbing search appends the block exactly when it is not listed |
| `LogCode.Log.Update` | xv6-riscv/kernel/log.c:209-213 | The prescribed use (bread, modify, log_write, brelse) changes one block of the logical disk and none on the medium; it fails only for want of a buffer or of log space |
| `LogCode.Log.EndOp` | xv6-riscv/kernel/log.c:146-175 | The last outstanding operation commits everything written; every image on the way recovers to the view before or the view after |
| `LogCode.Log.ReadHeader` | xv6-riscv/kernel/log.c:85-97 | read_head loads the list the disk's header names |
| `LogCode.Log.RecoverFromLog` | xv6-riscv/kernel/log.c:116-123 | The medium becomes what Recover computes, and a crash after any write leaves a medium that recovers to the same |
| `LogCode.ShippedBuffers` | xv6-riscv/kernel/param.h:9-11 | With NBUF = MAXOPBLOCKS buffers, bget finds one whenever the pinned blocks and the buffers anybody holds, concurrent readers included, are fewer than NBUF |
| `FsModel.SetWordGet` | xv6-riscv/kernel/fs.c:407-414 | Storing one block number in an indirect block changes that entry and no other |
| `FsModel.BitSet` | xv6-riscv/kernel/fs.c:75-77 | Setting or clearing one bitmap bit leaves the others |
| `FsModel.OwnedAssign` | xv6-riscv/kernel/fs.c:389-418 | Giving a fresh block to an empty slot keeps "no two slots name one block" |
| `FsModel.OwnedRelease` | xv6-riscv/kernel/fs.c:432-449 | A slot's block may be taken from it: nobody else names it |
| `FsModel.AssignInInode` | xv6-riscv/kernel/fs.c:389-406 | A zeroed fresh block in an inode's own slot moves no other slot and no data |
| `FsModel.AssignEntry` | xv6-riscv/kernel/fs.c:407-415 | The same for an entry of the indirect block |
| `FsModel.PatchBytes` | xv6-riscv/kernel/fs.c:520-522 | Patching the block of one slot changes exactly those bytes of that file |
| `FsModel.FullCount` | xv6-riscv/kernel/fs.c:65-88 | Every bit is set exactly when every data block has an owner |
| `FsModel.SameBytesAt` | xv6-riscv/kernel/fs.c:382-421 | A zeroed block in an empty slot changes no byte of any file: what it fills was read as zero before |
| `FsCode.FileSystem.Balloc` | xv6-riscv/kernel/fs.c:65-88 | The first clear bit's block, zeroed and marked; 0 exactly when every bit is set; the two blocks changed are logged |
| `FsCode.FileSystem.Bfree` | xv6-riscv/kernel/fs.c:91-105 | Clears one bit; panics exactly when it was clear |
| `FsCode.FileSystem.Bmap` | xv6-riscv/kernel/fs.c:382-421 | The block of the slot; it succeeds exactly when the blocks missing (it, its indirect block) are free, and takes exactly those; every byte of every file, all slots of other inodes and the block partition are kept; every block changed is logged |
| `FsCode.FileSystem.Itrunc` | xv6-riscv/kernel/fs.c:425-453 | Frees exactly the inode's blocks and never meets "freeing free block"; every block it changes is logged |
| `FsCode.FileSystem.FreeSlot` | xv6-riscv/kernel/fs.c:432-437 | A block that a slot names is always marked in use |
| `FsCode.FileSystem.Readi` | xv6-riscv/kernel/fs.c:471-496 | The bytes of the file at the offset, cut at its size, holes as zeros; exactly when the range has a hole and the disk is not full it takes blocks, all logged; short only at a hole with the disk full; bmap's panic exactly for a range that goes past the largest file and is not cut short before |
| `FsCode.FileSystem.WritePiece` | xv6-riscv/kernel/fs.c:516-528 | One round puts the piece at the offset, keeps all other bytes of all files, and fails exactly when the blocks missing are not free |
| `FsCode.FileSystem.Writei` | xv6-riscv/kernel/fs.c:505-539 | Of a file with or without holes: of all bytes of all files exactly those written change, a short count means a full disk, what lies in one block is written exactly when the blocks missing are free; every block changed is logged |
| `FsCode.FileSystem.WriteThenRead` | xv6-riscv/kernel/fs.c:471-539 | What a full write stored reads back, across the direct/indirect boundary and beside holes |
| `FsCode.FileSystem.FileWrite` | xv6-riscv/kernel/file.c:149-175 | The chunks together write the prefix reported; it is short only for a start beyond the end, a chunk past MAXFILE or a full disk; each chunk logs every block it changes and, on an image of FSSIZE blocks, at most MAXOPBLOCKS-2; the states between chunks have a whole number of them |
| `FsCode.FileSystem.ChunkBudget` | xv6-riscv/kernel/file.c:149-160 | A chunk of ((MAXOPBLOCKS-1-1-2)/2)*BSIZE bytes logs the inode, the indirect block, at most 7 data blocks and the bitmap |
| `FsCode.ChunksMore` | xv6-riscv/kernel/file.c:149-175 | One more chunk: the states between the operations of a filewrite stay whole, and after j of them the file has the first j chunks |
| `FileStore.WroteFiles` | xv6-riscv/kernel/fs.c:505-539 | Seen as a table of files, a write is a splice of one file's bytes |
| `FileStore.NodeFiles` | xv6-riscv/kernel/fs.c:227-243 | New fields for one inode change that file's fields, or empty it, and no other file |
| `FsOps.FindInode` | xv6-riscv/kernel/fs.c:198-219 | ialloc's search gives the first inode from 1 not in use, or none |
| `FsOps.PutEntry` | xv6-riscv/kernel/fs.c:600-603 | An entry is written whole or not at all: exactly when it does not lie past the end or past MAXFILE and the blocks missing are free; the free blocks go down by those |
| `FsOps.Drop` | xv6-riscv/kernel/fs.c:336-362 | iput frees the inode and empties the file exactly with the last reference to a file without links |
| `FsOps.MakeNode` | xv6-riscv/kernel/sysfile.c:262-301 | The new inode with its entries exactly when there is room for them (a block more for a directory); otherwise the inode is free again and every other file as before |
| `FsOps.SysCreate` | xv6-riscv/kernel/sysfile.c:245-302 | Each outcome of create and what it makes of all files, decided by the files, the missing blocks and the free ones before the call; at most ten blocks and the bitmap are logged, every changed block among them; on disk it is one step between partitioned states |
| `FsOps.SysLink` | xv6-riscv/kernel/sysfile.c:123-170 | The same for sys_link, with the rollback of nlink and the two iputs |
| `FsOps.SysUnlink` | xv6-riscv/kernel/sysfile.c:188-243 | The same for sys_unlink with its two panics, and the files freed by iput |
| `FsOps.SysTrunc` | xv6-riscv/kernel/sysfile.c:363-365 | The same for O_TRUNC: exactly a plain file is emptied |
| `FsOps.SysClose` | xv6-riscv/kernel/file.c:60-83 | The same for the last close of an inode: a file without links is freed |
| `FsOps.SysRead` | xv6-riscv/kernel/fs.c:471-496 | No file changes; the bytes are the file's; short, or a panic, exactly as the holes, the free blocks, the largest size and an open operation decide |
| `FsOps.SysWrite` | xv6-riscv/kernel/file.c:135-175 | The file's bytes with the written prefix spliced in, no other file changed, and why the prefix is not all of them; the operations on the way are steps between partitioned states |
| `FileLinks.DirentDecodes` | xv6-riscv/kernel/fs.h:56-59 | An entry's first two bytes, the low one first, are its inode number, the others its name |
| `FileLinks.SpliceEntry` | xv6-riscv/kernel/fs.c:600-603 | Sixteen bytes written at entry k change entry k of the decoded directory, or add it at the end, and no other |
| `FileLinks.DropKeeps` | xv6-riscv/kernel/fs.c:336-362 | iput keeps "nlink is the number of entries that name the inode" for every inode |
| `FileLinks.RoomForLink` | xv6-riscv/kernel/sysfile.c:286-289 | While an inode is free no directory's count is at its limit of 16 bits |
| `FileLinks.LinkCall` | xv6-riscv/kernel/sysfile.c:123-170 | sys_link keeps every count exactly when the directory has links and the file's count is not 65535 |
| `FileLinks.CreateCall` | xv6-riscv/kernel/sysfile.c:245-302 | create keeps every count exactly when the directory has links, also when it fails half way |
| `FileLinks.UnlinkCall` | xv6-riscv/kernel/sysfile.c:188-243 | sys_unlink always keeps every count: the entry's inode has one link less, a directory's parent too |
| `FileLinks.CallKeeps` | xv6-riscv/kernel/sysfile.c:123-302 | Any call that carries what its lookups found keeps every count exactly when it does not go astray |
| `FileLinks.RunCounts` | xv6-riscv/kernel/sysfile.c:123-302 | So in every state of a history reached in order, each inode's nlink is the number of directory entries, decoded from the bytes, that name it |
| `FileLinks.MainLaid` | xv6-riscv/mkfs/mkfs.c:118-163 | What main lays down in the root, decoded: ".", "..", and one entry for each program |
| `FileLinks.ImageGood` | xv6-riscv/mkfs/mkfs.c:118-175 | In that image every count is right |
| `FileLinks.BootAndCount` | xv6-riscv/kernel/sysfile.c:123-302 | Boot the image of any programs not named "." or "..", run any calls: nlink is the number of names in every state reached in order, and the next call breaks that exactly when it goes astray |
| `FsOps.BootAndRun` | xv6-riscv/kernel/sysfile.c:123-302 | Boot any image of mkfs and run any calls: each state follows from the one before by the call's effect on the files, from the bytes, types and link counts mkfs laid down; blocks are partitioned in memory in every state, on disk if the root's last block is not full or the next is named in an indirect block, and in the first case every file is allocated to its size and the operations form a chain of logged steps |
| `FsOps.BootAndLose` | xv6-riscv/kernel/fs.c:551-565 | On any other image with a free block, one directory search leaves a marked block that no inode on disk names, so that no partition of the disk exists |
| `FsCrash.ViewFrame` | xv6-riscv/kernel/log.c:209-235 | A block of the disk (data, bitmap or inode block, in its on-disk words) that an operation did not log is as before |
| `FsCrash.OneStep` | xv6-riscv/kernel/log.c:209-235 | Updates that leave each logged block as the operation left it take the disk from the one state to the other |
| `FsCrash.StepUpdates` | xv6-riscv/kernel/log.c:209-235 | A step of the file system is carried by at most 14 updates of home blocks, one for each block it logged |
| `FsCrash.SectionsHold` | xv6-riscv/kernel/log.c:126-168 | With the shipped constants what is pending is what the open operation passed to log_write since its begin_op, and what a commit writes is what the last operation to end had passed |
| `FsCrash.CommittedShows` | xv6-riscv/kernel/log.c:116-203 | If each section from begin_op to end_op passes to log_write what a step from the committed state changes, the committed disk is always the file system after the last such operation to have its header written |
| `FsCrash.CrashBetween` | xv6-riscv/kernel/log.c:116-203 | Then, whenever the plug is pulled, recovery, also an interrupted one, gives the disk as it was between two whole operations, with the block partition intact |
| `FsCrash.EndCommits` | xv6-riscv/kernel/log.c:146-168 | When end_op returns the committed state is the one its operation left |
| `FsCrash.EndDurable` | xv6-riscv/kernel/log.c:146-168 | ...and a crash right then recovers to it |
| `FsCrash.CrashOnSteps` | xv6-riscv/kernel/log.c:116-124 | If the operations go along a given chain of states, a crash anywhere recovers to one of these |
| `FsCrash.CarryOut` | xv6-riscv/kernel/log.c:126-235 | Every chain of logged steps, such as a filewrite or a run of calls yields, is carried out by a run of the log from power-on: begin_op, reads, log_writes, end_op, the copies to the log, the header, the copies home |
| `FsCrash.CrashAnywhere` | xv6-riscv/kernel/log.c:116-235 | Crash that run in any state: recovery gives one of the states between the operations |
| `FsCrash.CrashInWrite` | xv6-riscv/kernel/file.c:149-175 | In a run whose operations go along a filewrite's states, a crash anywhere leaves the file with a whole number of its chunks and no other file different |
| `Mkfs.Image.constructor` | xv6-riscv/mkfs/mkfs.c:93-116 | The zeroed image with its two counters satisfies the image invariant |
| `Mkfs.Image.Ialloc` | xv6-riscv/mkfs/mkfs.c:231-243 | The next inode, with one link, size 0 and no blocks; refused where the inode blocks are used up |
| `Mkfs.Image.Sector` | xv6-riscv/mkfs/mkfs.c:275-291 | The sector of a file's block, taken from the counter if missing; every other file's sectors stay |
| `Mkfs.Image.Iappend` | xv6-riscv/mkfs/mkfs.c:263-305 | The file holds its old bytes followed by the new ones, and nothing else changes; it fails exactly past MAXFILE or when the image is too small for the blocks needed, which are counted |
| `Mkfs.Image.Finish` | xv6-riscv/mkfs/mkfs.c:166-175 | The image satisfies the kernel's invariant (bits set exactly for metadata and named blocks), but the root has a block for each byte of its size exactly when its entries did not fill a block |
| `Mkfs.Image.WriteBitmap` | xv6-riscv/mkfs/mkfs.c:245-258 | The first `used` bits are set and no other |
| `Mkfs.Mount` | xv6-riscv/mkfs/mkfs.c:166-175 | Every file holds what was laid down, and the kernel's file-system invariant holds of the finished image exactly when the root's entries did not fill their last block |
| `Mkfs.Build` | xv6-riscv/mkfs/mkfs.c:118-175 | Any sequence of ialloc and iappend calls: it completes exactly when inodes, file sizes and blocks suffice for all of it, and then each file holds its appends one after the other |
| `Mkfs.FitsBefore` | xv6-riscv/mkfs/mkfs.c:263-305 | What fits at the end fitted at every earlier point, so no call fails before its time |
| `Mkfs.BuildThenRead` | xv6-riscv/mkfs/mkfs.c:118-305 | After booting the result, readi of any range of any file, the root included, gives the bytes laid down there, with zeros after them; it can panic only in a root of the largest size |
| `Mkfs.RootFull` | xv6-riscv/mkfs/mkfs.c:166-175 | With 30 files of any names the kernel's invariant fails: the root has a hole in its second block |
| `Mkfs.ReadPastRoot` | xv6-riscv/kernel/fs.c:551-565 | A search that reads past root entries which fill their last block, with a direct block next, takes, marks and logs a block that no inode on disk names; no owners partition the disk any more |
| `Mkfs.NewIsLost` | xv6-riscv/kernel/fs.c:382-406 | A block that a read took for an inode without indirect block is marked, and no slot of the inodes as they were names it |
| `Mkfs.ReadRootFull` | xv6-riscv/kernel/fs.c:551-565 | On the image with 30 files: a marked and logged block that no slot of the inodes on disk names |
| `Links.EmptyNamedOnce` | xv6-riscv/kernel/sysfile.c:172-186 | A linked directory that isdirempty accepts is named by exactly one entry |
| `Links.LinkKeeps` | xv6-riscv/kernel/sysfile.c:145-157 | A new name and one more link keep every count right exactly when the directory is linked |
| `Links.CreateKeeps` | xv6-riscv/kernel/sysfile.c:265-293 | create keeps every count right exactly when the directory is linked |
| `Links.CreateOrphan` | xv6-riscv/kernel/sysfile.c:276-289 | mkdir in a removed directory always breaks the counts |
| `Links.UnlinkKeeps` | xv6-riscv/kernel/sysfile.c:222-233 | sys_unlink keeps every count right, whether or not the inode is freed |
| `Links.ParentStays` | xv6-riscv/kernel/sysfile.c:225-228 | The directory that loses a subdirectory has at least two links, so its count stays positive |
| `Links.FreeKeeps` | xv6-riscv/kernel/fs.c:336-362 | iput's freeing of an inode without links keeps every count right |
| `Links.FileTree.constructor` | xv6-riscv/mkfs/mkfs.c:118-129 | The fresh root directory is consistent |
| `Links.FileTree.Dirlookup` | xv6-riscv/kernel/fs.c:551-575 | The first entry in use with the name, or none |
| `Links.FileTree.Dirlink` | xv6-riscv/kernel/fs.c:579-606 | Fills the first empty entry, or appends; fails exactly for a name present or for want of room, changing nothing |
| `Links.FileTree.Link` | xv6-riscv/kernel/sysfile.c:123-170 | The exact tree afterwards, exactly when it succeeds, and that every failing branch restores the count |
| `Links.FileTree.Create` | xv6-riscv/kernel/sysfile.c:245-302 | The exact tree afterwards; a failing create leaves everything as it was, also after "." or ".." was written; a new node is entered once |
| `Links.FileTree.Ialloc` | xv6-riscv/kernel/fs.c:198-219 | The first free inode from 1 on, or none |
| `Links.FileTree.Isdirempty` | xv6-riscv/kernel/sysfile.c:172-186 | Tells whether any entry after the first two is in use |
| `Links.FileTree.Unlink` | xv6-riscv/kernel/sysfile.c:188-243 | Never panics, removes exactly the named entry, and keeps the counts right on every path |
| `Links.FileTree.Iput` | xv6-riscv/kernel/fs.c:336-362 | Frees the inode exactly when it is the last holder and there is no link |
| `Links.AfterKeeps` | xv6-riscv/kernel/sysfile.c:123-302 | One call keeps every count right exactly unless it adds an entry to a directory without links |
| `Links.RunConsistent` | xv6-riscv/kernel/sysfile.c:123-302 | In every run of calls from the fresh image, as long as no earlier call did so, a state is consistent exactly unless the call before it added such an entry |
| `Links.Run` | xv6-riscv/kernel/sysfile.c:123-302 | Any calls from the fresh image, performed: the states are those the calls' effects give one after the other, all consistent up to the first call that adds an entry to a directory without links, and that one breaks the counts |
| `Links.RemovedDirectory` | xv6-riscv/kernel/sysfile.c:123-302 | Such a run: mkdir, unlink while held, then link or mkdir inside |
| `VmModel.PteFields` | xv6-riscv/kernel/riscv.h:346-350 | PTE2PA, PTE_FLAGS and the bit tests undo PA2PTE with flags |
| `VmModel.StoreLeaf` | xv6-riscv/kernel/vm.c:158 | A store through walk's result changes one page's mapping, in one address space |
| `VmModel.OwnedMap` | xv6-riscv/kernel/vm.c:154-158 | Mapping a page moves its frame from the kernel to the entry and keeps "one keeper for each frame" |
| `VmModel.OwnedRelease` | xv6-riscv/kernel/vm.c:185-189 | A mapped page's frame is held by that entry alone |
| `VmModel.OneFrame` | xv6-riscv/kernel/vm.c:85-103 | An entry holds no frame but the one it names |
| `VmModel.FreeAgree` | xv6-riscv/kernel/kalloc.c:21-24 | If the entries and the frames handed out agree, so do the free frames |
| `VmCode.Machine.constructor` | xv6-riscv/kernel/kalloc.c:26-40 | kinit puts every page from PGROUNDUP(end) to PHYSTOP on the list once |
| `VmCode.Machine.Kfree` | xv6-riscv/kernel/kalloc.c:46-63 | Panics exactly outside the pool or off a page boundary; else the page heads the list that is threaded through the pages |
| `VmCode.Machine.Kalloc` | xv6-riscv/kernel/kalloc.c:68-82 | Takes the head of the list; 0 exactly when the list is empty |
| `VmCode.Machine.Kmemory` | xv6-riscv/kernel/kalloc.c:84-96 | Counts the free pages |
| `VmCode.Machine.Walk` | xv6-riscv/kernel/vm.c:85-103 | The place of the page's entry; the lower table is made exactly when asked for, missing and memory is left; no mapping changes |
| `VmCode.Machine.Walkaddr` | xv6-riscv/kernel/vm.c:108-126 | The frame of a page mapped for the user, else 0 |
| `VmCode.Machine.Mappages` | xv6-riscv/kernel/vm.c:142-165 | Page k of the region is mapped to frame k, also where va, va+size or pa wrap at 2^32, other mappings and address spaces stay; where it stops and why |
| `VmCode.LastPage` | xv6-riscv/kernel/vm.c:151-160 | The test a == last finds the last page of the region and no earlier one, page 0xFFFFF000 included |
| `VmCode.NextPage` | xv6-riscv/kernel/vm.c:161-162 | Stepping by a page in 32 bits steps to the next page number modulo 2^20 |
| `VmCode.IndexInverse` | xv6-riscv/kernel/vm.c:151-163 | Each page number is met once |
| `VmCode.CountPlain` | xv6-riscv/kernel/vm.c:151-152 | A region that does not wrap covers the pages it touches |
| `VmCode.Machine.Uvmunmap` | xv6-riscv/kernel/vm.c:170-191 | Panics exactly when unaligned or some page is unmapped; else exactly those pages are unmapped and their frames freed |
| `AddressSpaces.AddPage` | xv6-riscv/kernel/vm.c:235-245 | Page allocated, filled and mapped exactly when enough frames are free; on failure every frame is back |
| `AddressSpaces.MappedCount` | xv6-riscv/kernel/vm.c:225-248 | n mapped pages hold n different frames |
| `AddressSpaces.PagesBounded` | xv6-riscv/kernel/vm.c:225-248 | So a space never reaches the trapframe page before memory is out |
| `AddressSpaces.Uvmalloc` | xv6-riscv/kernel/vm.c:224-248 | Grows by zeroed pages exactly when the free frames suffice for the pages and the tables they need, or is undone completely; never panics |
| `AddressSpaces.NextCost` | xv6-riscv/kernel/vm.c:85-103 | The next page takes one frame, or two where its table is missing |
| `AddressSpaces.Uvmdealloc` | xv6-riscv/kernel/vm.c:254-266 | Exactly the pages above the new size are unmapped and freed |
| `AddressSpaces.GrownUndone` | xv6-riscv/kernel/vm.c:236-244 | Unmapping the pages just added leaves the map and the data as before |
| `SpaceLife.FreeTable` | xv6-riscv/kernel/vm.c:274-284 | Freeing one lower table panics exactly when a page under it is mapped |
| `SpaceLife.Freewalk` | xv6-riscv/kernel/vm.c:270-286 | Panics exactly when a page is still mapped; else every table frame and the root are free |
| `ProcessMemory.Uvmfree` | xv6-riscv/kernel/vm.c:290-296 | Every frame of the space goes back, with no panic |
| `ProcessMemory.ProcFreepagetable` | xv6-riscv/kernel/proc.c:210-216 | The same with trampoline and trapframe pages mapped but not owned |
| `ProcessMemory.Uvmcreate` | xv6-riscv/kernel/vm.c:195-204 | An empty root; 0 exactly when no frame is free |
| `ProcessMemory.ProcPagetable` | xv6-riscv/kernel/proc.c:176-206 | Maps exactly the two pages and takes two frames; fails exactly with fewer free and then gives every frame back |
| `ProcessMemory.Uvmcopy` | xv6-riscv/kernel/vm.c:304-332 | Every page copied with its flags to a frame of its own exactly when the free frames suffice for pages and tables, or the new space as it was |
| `ProcessMemory.BornThenFreed` | xv6-riscv/kernel/proc.c:156-172 | Freeing a new space gives back exactly the frames it took |
| `ProcessMemory.Fork` | xv6-riscv/kernel/proc.c:279-297 | It succeeds exactly with 3 + pages + (tables for them) free frames; on every path on which memory runs out each frame has the keeper it had, else the child's pages equal the parent's, with the trampoline code and its own trapframe at their places and no page besides |
| `ProcessMemory.Growproc` | xv6-riscv/kernel/proc.c:259-275 | The new size and the pages added or removed; -1 exactly when n is positive and the frames do not suffice; success without effect exactly when n is 0 or size + n is negative; size + n never wraps |
| `ProcessMemory.ShrinkIgnored` | xv6-riscv/kernel/proc.c:259-275 | A process of one page that gives back two keeps its page and is told 0 |
| `ProcessMemory.NeededFresh` | xv6-riscv/kernel/vm.c:304-332 | What the first n pages of a fresh space need: n frames and one for each 1024 pages begun |
| `UserCopy.ProcessBelow` | xv6-riscv/kernel/proc.c:186-203 | A process's trapframe and trampoline pages are not the user's |
| `UserCopy.PatchedByte` | xv6-riscv/kernel/vm.c:363 | memmove into a page changes exactly the bytes copied |
| `UserCopy.UserFrame` | xv6-riscv/kernel/vm.c:108-126 | A user page's frame belongs to that page alone |
| `UserCopy.PieceStored` | xv6-riscv/kernel/vm.c:360-363 | Storing through walkaddr's address changes those bytes of that address space, no entry, and no other frame |
| `UserCopy.Copyout` | xv6-riscv/kernel/vm.c:350-370 | Stores the bytes up to the first page not mapped for the user, succeeds exactly when there is none, and touches nothing else |
| `UserCopy.Copyin` | xv6-riscv/kernel/vm.c:375-395 | Delivers the bytes up to the first such page; memory is unchanged |
| `UserCopy.Copyinstr` | xv6-riscv/kernel/vm.c:401-438 | The string with its terminator exactly when it ends within the limit and within user memory, else the bytes before |
| `UserCopy.OutThenIn` | xv6-riscv/kernel/vm.c:350-395 | What copyout stored copyin reads, exactly when every page is mapped for the user |
| `VmaWalker.SameEntries32` | fpga/vma.v:30-31 | The two addresses the walker puts on the bus are those of the kernel walk's two entries |
| `VmaWalker.PhaseStep` | fpga/vma.v:37-70 | Every clock keeps the phase in step with the number of bus answers |
| `VmaWalker.WalkPhases` | fpga/vma.v:37-70 | From idle, whatever the bus delays, the phase is decided by the answers and the two valid bits |
| `VmaWalker.Translates` | fpga/vma.v:25-70 | Phase 3 is reached exactly when both entries are valid and read; the address is then PTE2PA(*walk(root, va, 0)) plus the offset |
| `VmaWalker.AnswerRight` | fpga/vma.v:34 | The core is acknowledged only after a complete walk, with the word at that address |
| `VmaWalker.SinglePulse` | fpga/vma.v:37-47 | Phase 1 is left exactly when the strobe is low at the first answer; the strobe of fpga/rv32.v:38-41 is one clock long |
| `VmaWalker.Bare` | fpga/vma.v:30-34 | With paging off the bus sees the core's address and strobe, the core the bus's answer, and the walker stays idle |
| `VmaWalker.BareRun` | fpga/vma.v:30-34 | So it is through any run of clocks with paging off |
| `SleepWakeup.StepInv` | xv6-riscv/kernel/proc.c:535-606 | Every acquire, release, store and context switch of sleep, wakeup and kill keeps the invariant |
| `SleepWakeup.RunInv` | xv6-riscv/kernel/proc.c:535-606 | So it holds throughout every interleaving, whatever the callers do |
| `SleepWakeup.NoLostWakeup` | xv6-riscv/kernel/proc.c:540-548 | With the lock free, whoever waits on a channel waits with reason, if nobody gave up the lock owing a wakeup |
| `SleepWakeup.StrandedExactly` | xv6-riscv/kernel/proc.c:535-562 | In every run a process waits without reason exactly when the lock was given up while a wakeup of its channel was owed and it has waited ever since |
| `SleepWakeup.WakeupReachesAll` | xv6-riscv/kernel/proc.c:566-580 | When wakeup(chan) is through the table, nobody waits on chan |
| `SleepWakeup.MadeRunnable` | xv6-riscv/kernel/proc.c:566-580 | A process that waited when wakeup began has been made RUNNABLE by its end |
| `SleepWakeup.LockExcludes` | xv6-riscv/kernel/proc.c:535-562 | Two processes are never both past acquire of the monitor's lock |
| `SleepLock.Excludes` | xv6-riscv/kernel/sleeplock.c:21-55 | In every interleaving one holder at most and holdingsleep's test is true of that process alone; if every section wakes what it owes, a waiter waits for a holder |
| `SleepLock.Code.Acquire` | xv6-riscv/kernel/sleeplock.c:21-31 | One turn of the loop takes a free lock or leaves it, and sleeps only on a held one |
| `SleepLock.Code.Release` | xv6-riscv/kernel/sleeplock.c:33-41 | The lock is free and the channel it unblocks is woken |
| `SleepLock.Code.Holding` | xv6-riscv/kernel/sleeplock.c:43-52 | True exactly for the holder |
| `Pipe.PutOk` | xv6-riscv/kernel/pipe.c:95 | Storing a byte appends it to the bytes in flight, also when the 32-bit counters wrap |
| `Pipe.TakeOk` | xv6-riscv/kernel/pipe.c:123 | Fetching a byte removes the oldest one |
| `Pipe.Fifo` | xv6-riscv/kernel/pipe.c:76-130 | In every interleaving, killed writers included, at most 512 bytes are in flight and the bytes consumed are a prefix of those accepted; who sleeps without reason was left by a section that ended owing the wakeup, and only those |
| `Pipe.SleepersHaveReason` | xv6-riscv/kernel/pipe.c:76-130 | If no section ends owing a wakeup, readers sleep only on an empty pipe with a writer, writers only on a full one with a reader |
| `Pipe.KilledWriterStrands` | xv6-riscv/kernel/pipe.c:82-85 | The release of a writer killed with bytes in the pipe and the wakeup owed leaves a reader asleep exactly when it was waiting |
| `Pipe.KilledWriter` | xv6-riscv/kernel/pipe.c:76-103 | A run of three processes in which a reader sleeps on with a byte in the pipe |
| `Pipe.Code.Store` | xv6-riscv/kernel/pipe.c:95 | The ring store is that step, and which wakeup it owes |
| `Pipe.Code.Fetch` | xv6-riscv/kernel/pipe.c:123 | The ring fetch is that step, and which wakeup it owes |
| `Pipe.Code.WriteSection` | xv6-riscv/kernel/pipe.c:76-103 | The bytes accepted before the lock is given up; with bytes left it fails exactly without a reader or when killed, else sleeps exactly on a full pipe; and exactly when a killed writer leaves a wakeup owed |
| `Pipe.Code.ReadSection` | xv6-riscv/kernel/pipe.c:105-130 | It does not finish exactly when the pipe is empty with its write end open; else the bytes are the oldest ones, none exactly at end of file or when none was asked for; no wakeup is left owed |
| `Pipe.Code.Close` | xv6-riscv/kernel/pipe.c:58-74 | Closing an end wakes the other side |
| `ProcTree.StepInv` | xv6-riscv/kernel/proc.c:279-435 | Every step of fork, exit, reparent and wait keeps the process-table invariant |
| `ProcTree.SoundTree` | xv6-riscv/kernel/proc.c:330-435 | In every interleaving a parent is alive, nobody but init is an orphan, and with wait_lock free nobody sleeps in wait who has a zombie child |
| `ProcTree.ReapedByParent` | xv6-riscv/kernel/proc.c:402-420 | A process is reaped by its parent, after it exited and left its CPU |
| `ProcTree.ReapedOnce` | xv6-riscv/kernel/proc.c:402-420 | No pid is reaped twice |
| `ProcTree.WaitSleeps` | xv6-riscv/kernel/proc.c:399-433 | A scan of the table that found no zombie sleeps exactly when the process has a child, else wait returns |
| `Umalloc.FreedBlocks` | xv6-riscv/user/umalloc.c:33-42 | free's assignments keep one address-ordered ring of blocks no two of which touch, and add exactly the freed units |
| `Umalloc.PartitionAfterFree` | xv6-riscv/user/umalloc.c:24-44 | Every unit from sbrk stays in exactly one free or live block |
| `Umalloc.PartitionTakeAll` | xv6-riscv/user/umalloc.c:76-77 | The same after the exact fit |
| `Umalloc.PartitionTakeTail` | xv6-riscv/user/umalloc.c:78-82 | The same after splitting a block |
| `Umalloc.PartitionGrow` | xv6-riscv/user/umalloc.c:54-59 | The same with the new units as one live block |
| `Umalloc.RunInOneBlock` | xv6-riscv/user/umalloc.c:33-42 | A run of free units lies in one block |
| `Umalloc.Allocator.FindPlace` | xv6-riscv/user/umalloc.c:30-32 | From any starting block free's search ends, at the block after which the address belongs |
| `Umalloc.Allocator.Free` | xv6-riscv/user/umalloc.c:24-44 | Exactly that block's units become free; headers of other live blocks stay |
| `Umalloc.Allocator.Morecore` | xv6-riscv/user/umalloc.c:46-61 | At least 4096 new units become free, 0 exactly when sbrk refuses; a fault exactly where sbrk took a negative argument and gave no memory |
| `Umalloc.Allocator.Carve` | xv6-riscv/user/umalloc.c:75-84 | The block handed out has the units asked for, all of which were free |
| `Umalloc.Allocator.Lap` | xv6-riscv/user/umalloc.c:74-89 | One lap finds a block large enough exactly when there is one |
| `Umalloc.Allocator.Malloc` | xv6-riscv/user/umalloc.c:63-90 | For every 32-bit request: 0 exactly when no free block is large enough and sbrk refuses, else a new live block of the units computed; the loop ends; when it faults |
| `Umalloc.RightUpTo` | xv6-riscv/user/umalloc.c:46-69 | The units hold the bytes asked for and sbrk's argument is positive exactly for requests up to 0x7FFFFFF0 bytes |
| `Umalloc.NegativeRequest` | xv6-riscv/kernel/sysproc.c:38-49 | A request whose sbrk argument is negative |
| `Umalloc.WrappedRequest` | xv6-riscv/user/umalloc.c:68-69 | A request whose number of units wraps to 1 |
| `Crc16.ShiftStep` | xv6-riscv/kernel/sdcard.c:73-76 | One turn of the inner loop is multiplication by x modulo x^16+x^12+x^5+1 |
| `Crc16.GetCRC16` | xv6-riscv/kernel/sdcard.c:64-80 | The result is the remainder of message * x^16, below 2^16 |
| `Crc16.NarrowMultiple` | xv6-riscv/kernel/sdcard.c:75 | No nonzero multiple of the generator fits in 16 consecutive places |
| `Crc16.CrcUnique` | xv6-riscv/kernel/sdcard.c:64-80 | A message has one remainder |
| `Crc16.CrcLinear` | xv6-riscv/kernel/sdcard.c:64-80 | The checksum is linear under xor |
| `Crc16.CrcOfFrame` | xv6-riscv/kernel/sdcard.c:64-80 | A message followed by its two checksum bytes has checksum 0 |
| `Crc16.BurstDetected` | xv6-riscv/kernel/sdcard.c:64-80 | Any nonzero error within 16 consecutive bits of a valid frame of any length gives a nonzero checksum |
| `Grep.HereOnce` | xv6-riscv/user/grep.c:92-93 | The language of a pattern that begins with one character, by its rest |
| `Grep.HereStar` | xv6-riscv/user/grep.c:96-105 | The language of a pattern that begins with a star, by its rest |
| `Grep.HereEmpty` | xv6-riscv/user/grep.c:86-91 | The language of the empty pattern and of "$" |
| `Grep.Matchhere` | xv6-riscv/user/grep.c:83-95 | True exactly when the parsed pattern matches at the beginning of the text; it terminates |
| `Grep.Matchstar` | xv6-riscv/user/grep.c:97-105 | True exactly when some run of the character is followed by a match |
| `Grep.Match` | xv6-riscv/user/grep.c:71-81 | True exactly when the text is in the language of the pattern, with its anchors |
| `Grep.SelectedSplit` | xv6-riscv/user/grep.c:17-33 | What is selected from whole lines and then the rest is selected from the whole |
| `Grep.LineEndPrefix` | xv6-riscv/user/grep.c:21 | What strchr finds in the buffer decides what it would find in the rest of the input |
| `Grep.Emit` | xv6-riscv/user/grep.c:22-26 | A matching line is written with its newline, the buffer behind it stays |
| `Grep.Grep` | xv6-riscv/user/grep.c:10-34 | However read splits the input, exactly the matching newline-terminated lines are written, up to the first line that fills the buffer or has a NUL in it |
| `ShellSyntax.RoundTrip` | xv6-riscv/user/sh.c:328-447 | Parsing the tokens printed for a command tree with at most 9 words a command gives the tree |
| `ShellSyntax.LinePrintable` | xv6-riscv/user/sh.c:345-447 | Whatever is parsed is such a tree |
| `ShellSyntax.Reparse` | xv6-riscv/user/sh.c:328-447 | Printing what was parsed and parsing that gives the same tree |
| `ShellSyntax.FewestParens` | xv6-riscv/user/sh.c:328-447 | Of all the lines that parse to a tree none has fewer parentheses than the printed one |
| `ShellGrammar.ParsesExactly` | xv6-riscv/user/sh.c:328-447 | The parser accepts a line exactly when the grammar gives it a command of at most 9 words each, and builds that command |
| `ShellGrammar.TreeKeeps` | xv6-riscv/user/sh.c:375-447 | The arguments of the tree are the words of the line that follow no <, > or >>, in order; its redirections are those of the line, in order, each with the mode its symbol stands for |
| `ShellGrammar.SaysOne` | xv6-riscv/user/sh.c:328-447 | The grammar is unambiguous |
| `ShellCode.Parser.Gettoken` | xv6-riscv/user/sh.c:266-309 | Takes exactly the next token, with the place of a word |
| `ShellCode.Parser.Peek` | xv6-riscv/user/sh.c:311-321 | Tells whether the next token is one of the symbols, moving over space only |
| `ShellCode.Parser.Parseredirs` | xv6-riscv/user/sh.c:375-398 | Reads the redirections that the grammar gives for the tokens left |
| `ShellCode.Parser.Parseexec` | xv6-riscv/user/sh.c:416-447 | Reads a command or block as the token parser does, panicking exactly where it has none; the part of the line taken says that command, with all its words and redirections |
| `ShellCode.Parser.Parseblock` | xv6-riscv/user/sh.c:400-414 | The same for a parenthesised line |
| `ShellCode.Parser.Parsepipe` | xv6-riscv/user/sh.c:362-373 | The same for a pipeline |
| `ShellCode.Parser.Parseline` | xv6-riscv/user/sh.c:345-360 | The same for a line with & and ; |
| `ShellCode.Nulterminate` | xv6-riscv/user/sh.c:450-494 | Writes a terminator at the end of every word of the tree and nowhere else |
| `ShellCode.TreeReads` | xv6-riscv/user/sh.c:450-494 | After that, every pointer of the tree reads as exactly its word |
| `ShellCode.Parsecmd` | xv6-riscv/user/sh.c:328-343 | Ends on every line, panics exactly when the line says no command, and the tree read through the line is the command it says, with all its words and redirections |
| `ShellCode.LexRender` | xv6-riscv/user/sh.c:266-309 | Rendered tokens are lexed back |
| `ShellCode.PrintParse` | xv6-riscv/user/sh.c:266-447 | On characters: parse(print(c)) == c |
| `Collector.Memory.Copy` | lisp/lisp.c:203-210 | Copies an unforwarded cell to the next free place and leaves its new address, or follows the address left before |
| `Collector.Memory.CopyPairRoots` | lisp/lisp.c:225-228 | First loop: the pair roots |
| `Collector.Memory.ScanPairs` | lisp/lisp.c:229-235 | Second loop: all pairs reached are copied before any leaf; it ends |
| `Collector.Memory.ScanLeaves` | lisp/lisp.c:236-243 | Third loop: leaves are copied above the pairs and never scanned; it ends |
| `Collector.Memory.CopyLeafRoots` | lisp/lisp.c:244-247 | Last loop: the leaf roots |
| `Collector.Memory.Garbage` | lisp/lisp.c:212-253 | The new heap is isomorphic to what is reached from stack, symbols and global_env, within mfree; it fails exactly without room for two roots on the stack |
| `Collector.SamePaths` | lisp/lisp.c:212-253 | Every path of car and cdr gives the same answer in both heaps up to renaming: tags, sharing, cycles and raw words |
| `Collector.KeepsExactlyReached` | lisp/lisp.c:212-253 | Exactly the reached cells are kept |
| `Collector.IsomorphicClosed` | lisp/lisp.c:212-253 | The result is again a heap that garbage accepts |
| `Collector.NumberCopied` | lisp/lisp.c:201-210 | copy treats a number right exactly outside one range of 2^32 numbers (but for one number in it) |
| `Collector.NumberLost` | lisp/lisp.c:201-210 | A number in that range whose copy is a word without a tag |
| `LispHeap.AgreesNew` | lisp/lisp.c:95-106 | cons and consint add one cell to the heap that is never collected and disturb no word |
| `LispHeap.AgreesCollected` | lisp/lisp.c:212-253 | A collection changes no cell of that heap and the value of no root |
| `LispHeap.SameValue` | lisp/lisp.c:126 | Two live words are equal exactly when they stand for the same value |
| `LispCode.Lisp.Collect` | lisp/lisp.c:393-399 | Seen from eval, garbage changes nothing; it fails only without stack |
| `LispCode.Lisp.ConsOf` | lisp/lisp.c:95-101 | A new pair of two live words; fails only when memory is full |
| `LispCode.Lisp.SetCarOf` | lisp/lisp.c:80 | One cell of the specified heap changes |
| `LispCode.Lisp.AppendOf` | lisp/lisp.c:149-155 | append is as specified and the stack is as before |
| `LispCode.Lisp.GetsymOf` | lisp/lisp.c:158-169 | getsym finds the symbol or adds it at the end of the list |
| `LispEval.LookupOf` | lisp/lisp.c:319-332 | The value bound first for the symbol, from the innermost frame outwards |
| `LispEval.AssignOf` | lisp/lisp.c:334-351 | set changes that binding's value |
| `LispEval.DefineOf` | lisp/lisp.c:353-371 | define changes a binding of the first frame or adds one at its front |
| `LispEval.LetOf` | lisp/lisp.c:374-390 | let2lambda builds the specified application |
| `LispEval.PrimitiveOf` | lisp/lisp.c:533-551 | Each primitive but display, on integers, gives the specified value and heap, division truncating |
| `LispSpec.Divide` | lisp/lisp.c:291-299 | The quotient of C: the remainder is smaller than the divisor and has the dividend's sign |
| `LispMeaning.OneMeaning` | lisp/lisp.c:392-526 | An expression has one meaning at most, whatever bound on steps it is computed with |
| `LispShape.ExpKept` | lisp/lisp.c:392-526 | What represents an expression still does in every later heap |
| `LispSim.LookupSim` | lisp/lisp.c:319-332 | lookup gives the innermost binding of the name, and an error exactly where there is none |
| `LispSim.AssignSim` | lisp/lisp.c:334-351 | set! changes that binding and no other object |
| `LispSim.DefineSim` | lisp/lisp.c:353-371 | define binds the name in the innermost scope |
| `LispSim.ClosureSim` | lisp/lisp.c:462-465 | lambda makes a procedure of its parameters, body and scope |
| `LispLet.LetSim` | lisp/lisp.c:374-390 | The list let2lambda builds represents the call of the lambda that let stands for |
| `LispOps.TotalSim` | lisp/lisp.c:257-289 | + and * of any integers are their sum and product in 64 bits |
| `LispOps.FirstSim` | lisp/lisp.c:267-299 | - and / : the negation, the difference, the truncated quotient by the product of the rest |
| `LispOps.LogicSim` | lisp/lisp.c:301-311 | and is #f exactly when an argument is #f, or is #t exactly when one is #t |
| `LispOps.OperateSim` | lisp/lisp.c:533-551 | Each primitive gives the value, and makes of the store, what its name means of its arguments' values |
| `LispMeans.IfSim` | lisp/lisp.c:444-458 | A test that gives #f means the fourth element, any other value the third |
| `LispMeans.CondSim` | lisp/lisp.c:479-499 | cond means the value of the first clause whose test gives #t, else #f |
| `LispMeans.SequenceSim` | lisp/lisp.c:466-478 | A sequence means its expressions one after the other, with the value of the last |
| `LispMeans.ArgsSim` | lisp/lisp.c:506-520 | Operands mean their values from left to right |
| `LispMeans.ApplySim` | lisp/lisp.c:533-584 | apply of a procedure runs its body in a new scope of its own one, with the parameters, or the list of all arguments, bound; an error exactly for what is no procedure or for a wrong number of arguments |
| `LispMeans.EvalSim` | lisp/lisp.c:392-526 | Whatever heap represents an expression, its outcome is the expression's meaning, in a heap that holds the store the meaning ends with |
| `LispMeans.InterpreterMeans` | lisp/lisp.c:392-526 | So whatever an expression evaluates to is what it means |
| `LispMeans.StartHolds` | lisp/lisp.c:688-692 | main's first cells hold a store of one empty scope |
| `LispMeans.InitSim` | lisp/lisp.c:655-680 | Each define of init binds its name in that scope |
| `LispEval.EvalOf` | lisp/lisp.c:392-526 | eval returns the value and the heap of the reference interpreter, whose outcomes are meanings by LispMeans, with the stack restored, wherever collections happen |
| `LispEval.CallForm` | lisp/lisp.c:500-522 | Application: operator, operands in order and environment stay rooted through every eval |
| `LispEval.CondOf` | lisp/lisp.c:479-499 | cond does as specified, its clauses rooted through every test |
| `LispEval.SequenceOf` | lisp/lisp.c:466-478 | begin, and a procedure's body, evaluate in order and return the last value |
| `LispEval.ApplyOf` | lisp/lisp.c:533-584 | apply returns the specified value in the specified heap, with the stack restored |
| `LispEval.Evaluate` | lisp/lisp.c:392-526 | The outcome is the one to which the expression evaluates and, for every expression and store that the heap represents, what the expression means; memory errors only when memory or stack is full |
| `LispEval.TwoSchedules` | lisp/lisp.c:392-399 | Interpreters that collect at different times end with the same value and the same heap |
| `LispSteps.EvalMore` | lisp/lisp.c:392-526 | More steps never change an outcome |
| `LispSteps.ApplyMore` | lisp/lisp.c:533-584 | The same for apply |
| `LispSteps.OneOutcome` | lisp/lisp.c:392-526 | So an expression evaluates to one outcome at most |

## Left out

- Concurrency inside the file system: other processes that hold a buffer's lock. bget is called on buffers nobody holds, and begin_op's sleep is one refused pass of its loop.
- The wakeup in end_op and that a refused begin_op eventually enters (liveness).
- Panics and error exits are outcomes of a method; what the machine does afterwards is not modelled.
- Devices other than the log's: the cache has them, the log and the file system use one.
- The inode table (iget's search, reference counts, reading an inode again after it left memory) and path walking: Links and FsOps take resolved directories, all inodes are in memory, and whether a reference is the last is an input. What is lost when an inode on disk lacks a block is stated by BootAndLose.
- Failing copies to and from user memory inside readi and writei.
- `FsOps.SysCreate`: the lookups before it are calls of Read of their own, and the entry's index, where dirlink's search stopped, is an input; any index is covered. The same for SysLink and SysUnlink, and for isdirempty before the latter. Links has the searches.
- `FsOps.BootAndRun`: one call after the other. After a panic the run ends, with nothing said of the files in memory.
- `FsOps.BootAndLose`: an image without a free block is not decided; the search then fails as long as nothing is freed.
- `FsCrash.CrashBetween`: for the shipped constants, under which one operation is open at a time.
- `FsCrash.CarryOut`: for images of FSSIZE blocks, whose bitmap is one block.
- `LogCode.ShippedBuffers`: how many buffers are held at a time is an input; bmap with balloc holds two, the commit two.
- `Mkfs.Image.Ialloc`: stops when the inode blocks are used up; mkfs does not compare, goes on, and puts the inode where the bitmap is written later.
- `Mkfs.Build`: appends only to inodes allocated before, as main does; reading the files and building the entries are the caller's.
- `Mkfs.Image.Iappend`: running past the end of the image is a refusal here; the source leaves through a failed read of the sector.
- `Links.FileTree.Link`: nlink is unbounded; the 16-bit field of the source wraps at 2^15. `dp->dev != ip->dev` cannot happen with one device.
- `Links.FileTree.Create`: what writei can still append is an input for each dirlink.
- The kernel's own page table (kvmmake, kvmmap), uvmfirst, uvmclear and exec; permissions beyond valid, leaf and user (copyout does not look at PTE_W either).
- The kernel stack, file table and context of fork; reading and writing of trapframe contents.
- Superpages, access and dirty bits: neither the kernel nor vma.v has them.
- `SleepWakeup.NoLostWakeup`: for callers that wake before they give up the lock; StrandedExactly says what happens otherwise, and Pipe and SleepLock which sections do.
- `Pipe.Code.WriteSection`: the moment of a kill is an input. Freeing the pipe's page in pipeclose is left out.
- `ProcTree.StepInv`: sleep and wakeup of wait are single steps, as SleepWakeup allows; the failed copyout in wait and kill are left out.
- The scheduler's fairness: no claim that a RUNNABLE process runs.
- `Umalloc.Allocator.Malloc`: with the static base below the heap. What the program does after a fault is left out.
- `Grep.Grep`: for read that returns 0 only at the end or for a full buffer.
- `FileLinks.CallKeeps`: counts are read as 16 bits without sign, as the table of files has them; the field of the source is signed, and sys_unlink's panic for 32768 and more is in FsOps.
- `FileLinks.BootAndCount`: that a call carries what its lookups found is a hypothesis on the call, as in FsOps, and so is that no directory is opened for writing.
- Running commands in sh.c; open modes of redirections are three names.
- `LispEval.Evaluate`: operands that C leaves unordered are evaluated left to right. Stuck stands for error exits and for what is not modelled: car and cdr of a leaf, changing nil, arithmetic on floats, quotients C leaves undefined, `display`, numbers whose high word is the mark, `define` and `set!` of something that is not a symbol.
- `LispMeans.EvalSim`: says nothing of eval and display, of a procedure taken apart as the list it is made of, and of numbers whose high word is the mark (Wild); expressions with improper lists, and programs that change the lists they consist of, represent no expression.
- `LispEval.PrimitiveOf`: floats and display end as Stuck, with no meaning given.
- `LispEval.EvalOf`: takes a bound on steps, since programs may run for ever; LispSteps removes it from the statements. The C stack is unbounded.
- Names of Lisp symbols are numbers, so strcmp and the malloc of the name are left out; so is the reader (repl).
- xv6-riscv/user/lisp.c, a copy whose let2lambda evaluates with unrooted locals.
- Device registers, SPI transfers, traps, the other Verilog, printf and the user utilities.
