# Proofs about xv6 and a producer/consumer program

This project models the parts of the course's xv6 tree where correctness is hardest to see, and the course's
two-thread semaphore program, and proves what each is for. `dafny verify dfyconfig.toml` checks everything.

| modules | what they model |
|---|---|
| `Common`, `Disk`, `LogFormat`, `LogProtocol`, `LogReserve`, `LogDevice` | shared constants; the redo log: block writes of commit and recovery with a crash between any two, group commit over every interleaving, what begin_op's reservation is worth, and the code of log.c over its in-memory header |
| `BufferCache`, `BufferOrder`, `BufferRing` | the buffer cache over the in-memory disk: as a refinement of a plain block array, its order of use over whole runs, and the doubly linked ring |
| `FileBlocks`, `FileTree`, `FileContent`, `FileLayer` | bitmap, indirect blocks, block ownership, files as flat byte sequences, and the code from balloc to filewrite |
| `LogCache` | the log over the buffer cache, shared with any number of processes: pins, and the protocol the two make |
| `CrashSafety`, `LogRoom` | files over the log: the layout and bytes of bitmap and inode blocks, what a disk holds after any crash, and which operations fit the log together |
| `FreeList`, `Umalloc`, `UmallocHeap` | the K&R allocator: the list as a value, the ring of headers in memory, and the code of malloc and free |
| `SleepWakeup`, `ExitWait`, `Killing`, `ProcTable` | sleep/wakeup for any number of processes, the life cycle of a process over the process table, and kill over whole runs of it |
| `Pipe`, `PipeKill`, `SemBuffer` | the pipe with its wrapping counters, sleeping readers and writers, and killed ones; the semaphore program |
| `PageTables`, `VirtualMemory` | two-level page tables with an owner for every physical page, the page allocator, fork's copy and teardown |
| `ShellGrammar`, `ShellSyntax`, `ShellRoundTrip`, `Shell` | the shell's scanner and recursive-descent parser as functions, the command language as a grammar of its own, the two proved the same, a printer, and the parser as it runs on its buffer |
| `Grep`, `GrepLines` | the regular expression matcher against the language of a pattern, and the loop that cuts the input into lines |

Protocols are state machines whose steps are the atomic actions of the code; a theorem about a run holds of every
finite run. Code that updates memory step by step is a class whose methods are tied to functions, and the functions
carry the theorems. A panic is an outcome (`ok == false`, `Fail`, `Panic`), so that "never panics" is a statement.
Machine integers wrap where the code lets them: pipe counters, file offsets, allocation sizes, kmap lengths.

## Where the code falls short of what it is for

Each of these has a concrete witness and the exact condition under which the code is right.

- begin_op budgets against LOGSIZE, but log_write also checks `log.size - 1`, and mkfs makes a log of LOGSIZE blocks. The
  reservation is enough exactly when the log has at least LOGSIZE + 1 blocks (`LogProtocol.ReservationExact`). log_write
  also checks for room before it looks for an entry to absorb into (`LogProtocol.AbsorptionCanPanic`).
- filewrite computes its chunk from LOGSIZE where an operation is promised MAXOPBLOCKS blocks. What a write logs is counted
  exactly (`FileLayer.Cost`, in `Writei`). Writes of c bytes stay within the promise for every file and offset exactly
  when c is at most 3073 (`FileLayer.ChunkBudget`); `Filewrite` says of each call whether it did; 3074 bytes appended to
  a file of 6143 do not (`FileLayer.ChunkOverruns`).
- begin_op lets three such operations in at once. Whether one of their log_writes then panics depends on the different
  blocks they log, since repeats are absorbed: `LogProtocol.LoggingsExact` is the exact condition for any log_writes in
  any order, `LogRoom.ChaptersFit` for whole operations. Three chunks of filewrite on three inodes of a new disk log at
  least 36 different blocks (`LogRoom.ThreeChunks`), and one of their log_writes panics in whatever order they come
  (`LogRoom.ChunksPanic`).
- A writer that gives up on a full pipe (killed, or no reader left) does not wake the readers it has not told of its
  bytes. No reader is left asleep over data exactly in the runs where no writer gives up while a reader sleeps
  (`Pipe.SleepingReadersExact`, `Pipe.ReaderLeftAsleep`).
- kill looks for a pid in every slot, also in free ones and embryos, and only the wait that reaps a process clears its
  mark. A process bears the mark exactly if a kill found its slot since it was last reaped (`Killing.KillSafe`), so a
  process can be born killed: kill(0) does that to the next one (`Killing.BornKilled`). None is if every kill finds a
  process that has been born (`Killing.NoneBornKilled`).
- A process that is killed between its test of `killed` and its sleep in the pipe goes to sleep all the same. A killed
  process never sleeps there exactly if no kill comes in between (`PipeKill.KilledSleepExact`); one that does is
  `PipeKill.ReaderSleepsKilled`. In wait, where the lock is kept from the test to the sleep, it cannot happen
  (`Killing.KillSafe`).
- malloc's size computation wraps and sbrk takes a signed int: requests are right exactly up to 0x7FFFFFF0 bytes
  (`Umalloc.RequestExact`). Beyond, up to 0xFFFFFFF8, morecore asks sbrk for another size than it writes a header for
  (`Umalloc.SbrkExactly`, the fault of `Malloc`); beyond that the block is too small (`Umalloc.HugeRequestWraps`).
- deallocuvm's 4 MB skip misses pages when it starts in the middle of a missing table and the first table it then finds
  maps pages below where it comes upon it, and only then (`Deallocuvm`, `VirtualMemory.SweepComplete`); a machine from
  boot where a page survives is `VirtualMemory.SweepCanMiss`. deallocuvm accepts such a directory, but exec, fork and
  growproc do not make one: they map from page 0 up without a gap, and of those deallocuvm misses nothing
  (`VirtualMemory.DenseSweeps`). freevm starts at 0, where the skip is exact.
- When memory runs out, copyuvm loses the page it has just filled if that was the last free page and the child lacks the
  table for it, and setupkvm leaves its directory and tables behind. Both are decided by the number of free pages, as is
  success (`Copyuvm`, `Setupkvm`); `VirtualMemory.CopyLosesPage` and `VirtualMemory.SetupLeavesDirectory` are machines
  from boot where that happens.
- kfree accepts a page that is already free, after which the free list is no longer a list (`Kfree`, `VirtualMemory.FreeTwice`).
- grep throws away what it has read when a read brings no newline: it sees the input's lines exactly when every read
  with a newline comes before every read without (`GrepLines.ExaminedExact`).

## Model

| member | source | states |
|---|---|---|
| `LogFormat.AfterLogWrites` | xv6/log.c:174-187 | after any k writes of write_log the first k log blocks hold the cache's contents, and the header and every other block are as before |
| `LogFormat.AfterInstalls` | xv6/log.c:68-81 | after any k installs the first k logged blocks hold their log copies at home, and nothing else changed |
| `LogFormat.InstallsKeepMeaning` | xv6/log.c:68-81 | a partly installed log stands for the same home blocks as before; once all are installed the home blocks are what the log says |
| `LogFormat.RecoveryPrefix` | xv6/log.c:68-121 | a crash after any prefix of recovery's writes leaves a disk with the same meaning; a full recovery leaves an empty header and the home blocks it stood for |
| `LogFormat.HeaderWriteCommits` | xv6/log.c:97-112 | right after the header write the disk stands for the new home blocks: the logged ones from the log, the others as they were |
| `LogFormat.CommitBeforeHeader` | xv6/log.c:174-199 | a crash before commit's header write leaves the home blocks and the empty header as they were |
| `LogFormat.CommitFromHeader` | xv6/log.c:189-199 | from the header write on the disk stands for the new data, and when commit ends the home blocks are the new data and the header is empty |
| `LogFormat.RecoveryCompletes` | xv6/log.c:114-121 | any number of recoveries that crash part-way, then one that completes, settle the disk to what it stood for |
| `LogFormat.CrashAtomicity` | xv6/log.c:68-199 | a crash after any prefix of commit's block writes, any crashing recoveries, then a full one: home blocks all old if the header write did not reach the disk, all new if it did |
| `LogProtocol.StepKeepsInv` | xv6/log.c:124-229 | begin_op, log_write, end_op, each write of commit and recovery, a crash and a reboot all keep the invariant of the log protocol |
| `LogProtocol.GroupCommit` | xv6/log.c:124-229 | stop any run anywhere, also one that goes over its budget, crash, let recoveries crash too, then recover: the disk shows the loggings of a whole number of groups of finished operations, and all of them when none is outstanding |
| `LogProtocol.QuietRecovery` | xv6/log.c:124-229 | for operations in any interleaving the recovered disk shows what the cache showed at some time in the run when no operation was under way; now, if none is under way now |
| `LogProtocol.StepStable` | xv6/log.c:189-199 | what is durable changes only at a header write, to what the cache shows while no operation is under way |
| `LogProtocol.HomeUntouchedBeforeHeader` | xv6/log.c:189-229 | the cache shows every logging; on disk no home block changes before the header write |
| `LogProtocol.NeverStuck` | xv6/log.c:144-171 | the "log.committing" panic is unreachable, and commit and recovery can always take their next step |
| `LogProtocol.DurableForever` | xv6/log.c:189-199 | what is durable stays durable for the rest of any run, whatever crashes |
| `LogProtocol.Reservation` | xv6/log.c:125-140 | in every run where operations keep to their budgets, entries plus unspent budgets are at most LOGSIZE and entries are distinct, so a new entry within budget finds room, also on disk if log.size is at least LOGSIZE + 1 |
| `LogProtocol.ReservationExact` | xv6/log.c:211-216 | log_write never panics on a new entry within budget, in any run within budgets, if and only if log.size is at least LOGSIZE + 1 |
| `LogProtocol.AbsorptionCanPanic` | xv6/log.c:215-225 | a run within every budget that fills the log, after which writing an already logged block panics; within budget the panic fires exactly when the log holds LOGSIZE entries |
| `LogProtocol.OverBudgetPanics` | xv6/log.c:125-140 | operations that need more than MAXOPBLOCKS blocks each: three are let in, and a log of any size is full before the third has logged its share |
| `LogProtocol.LoggingsExact` | xv6/log.c:211-225 | log_writes by operations under way, in any order, run without the "too big a transaction" panic if and only if the entries there are and the different blocks of all but the last are fewer than there is room for |
| `LogProtocol.FirstPanic` | xv6/log.c:215-216 | otherwise some part of them runs and fills the log before the next |
| `LogReserve.ReservationGenerous` | xv6/log.c:125-140 | begin_op is as generous as it can be: with a log and a disk large enough it turns an operation away exactly if a commit is under way or some log_writes of new blocks, at most MAXOPBLOCKS by each operation under way and the new one, would panic |
| `LogReserve.PromisedRuns` | xv6/log.c:125-140 | whatever blocks within the promise are logged, in any order, log_write does not panic |
| `LogReserve.PromiseBreaks` | xv6/log.c:131-133 | where begin_op's sum is over LOGSIZE there are such log_writes that panic |
| `LogReserve.EndTakesOut` | xv6/log.c:144-160 | end_op takes out the operation that ends and no other, and goes to commit exactly with the last |
| `LogDevice.CommitRun` | xv6/log.c:189-199 | after any j of commit's block writes the disk is that of the protocol after j of its commit steps |
| `LogDevice.RecoveryRun` | xv6/log.c:114-121 | the same for recovery |
| `LogDevice.Log.constructor` | xv6/log.c:52-65 | boot on the disk that any run left: the protocol's crash step, an empty log and a cold cache |
| `LogDevice.Log.WriteLog` | xv6/log.c:174-187 | its disk writes are those of LogWrites, in order |
| `LogDevice.Log.WriteHead` | xv6/log.c:97-112 | one write that makes the header on disk the one in memory |
| `LogDevice.Log.ReadHead` | xv6/log.c:83-95 | the header in memory becomes the one on disk |
| `LogDevice.Log.InstallTrans` | xv6/log.c:67-81 | its disk writes are those of InstallWrites, in order |
| `LogDevice.Log.Commit` | xv6/log.c:189-199 | its disk writes are exactly those of CommitWrites, in order; the object has then taken that many commit steps of the protocol, and the log is empty |
| `LogDevice.Log.CommitDone` | xv6/log.c:163-170 | the protocol's step that lets operations in again |
| `LogDevice.Log.RecoverFromLog` | xv6/log.c:114-121 | its disk writes are exactly those of RecoveryWrites, each a recovery step of the protocol, and then the protocol is running |
| `LogDevice.Log.BeginOp` | xv6/log.c:124-140 | takes the protocol's begin step exactly when the reservation lets one more operation in; otherwise sleeps with nothing changed |
| `LogDevice.Log.EndOp` | xv6/log.c:144-160 | takes the protocol's end step; the last operation out, and only it, goes on to commit; the "log.committing" panic never fires on an object the code can reach |
| `LogDevice.Log.LogWrite` | xv6/log.c:210-229 | the caller's new contents and the protocol's log step; the two panics exactly on a full log and outside a transaction |
| `LogDevice.Log.Recovers` | xv6/log.c:114-199 | for every object these methods can produce: crash, let recoveries crash, recover; the disk shows whole ended operations, all of them when none is under way |
| `BufferCache.MoveFrontPermutes` | xv6/bio.c:123-142 | moving a buffer to the front of the order keeps it a permutation |
| `BufferCache.RecycleKeepsView` | xv6/bio.c:83-109 | recycling an idle clean buffer loses nothing: every block reads as before and the buffer gets the latest contents of its new block |
| `BufferCache.StepRefines` | xv6/bio.c:62-142 | every cache operation does to what the cache shows what it does to a plain array of blocks, and keeps the invariant |
| `BufferCache.CacheRefinesArray` | xv6/bio.c:62-142 | after any run under the logging discipline bread returns the latest contents, each block has at most one buffer, and every idle clean valid buffer equals the disk |
| `BufferOrder.ReleaseOrders` | xv6/bio.c:131-136 | brelse puts the buffer in front and leaves the others as they stood to each other |
| `BufferOrder.OrderIsHistory` | xv6/bio.c:121-142 | in every run one buffer stands before another exactly if it was released later; those never released stand as binit put them |
| `BufferOrder.RecyclesOldest` | xv6/bio.c:83-94 | in every run bget recycles a buffer exactly if the block is not cached and, of the clean idle buffers, this one's last release is longest ago |
| `BufferRing.Unlink` | xv6/bio.c:131-132 | relinking around a buffer makes the ring without it |
| `BufferRing.Push` | xv6/bio.c:133-136 | linking a buffer after the head makes the ring with it in front |
| `BufferRing.BCache.constructor` | xv6/bio.c:38-59 | binit's ring of buffers, tied to the initial state of the model |
| `BufferRing.BCache.FindCached` | xv6/bio.c:70-81 | finds the block's own buffer if and only if there is one |
| `BufferRing.BCache.FindVictim` | xv6/bio.c:83-95 | from the tail, the least recently used buffer that is idle and clean; none exactly when there is none |
| `BufferRing.BCache.Bget` | xv6/bio.c:62-96 | sleeps on a busy buffer, takes an idle one, recycles, or panics, exactly as the specification's choice |
| `BufferRing.BCache.Iderw` | xv6/memide.c:37-59 | a busy dirty buffer goes to disk, an invalid one comes from it; the four panics |
| `BufferRing.BCache.Bread` | xv6/bio.c:99-109 | a busy buffer with the latest contents of its block |
| `BufferRing.BCache.BwriteBuf` | xv6/bio.c:111-119 | the write step of the model, or the panic on a buffer not held |
| `BufferRing.BCache.BrelseBuf` | xv6/bio.c:121-142 | the release step of the model: ring order, flags and panic |
| `LogCache.NextWrite` | xv6/log.c:67-199 | which block each write of commit and recovery goes to, with what: log copies of what the cache shows, headers, and installs of those copies |
| `LogCache.ReadKeeps` | xv6/bio.c:62-109 | a bread, recycling or not, holds a buffer with what shows for its block, changes nothing that shows and unpins nothing |
| `LogCache.LogKeeps` | xv6/log.c:211-229 | log_write pins the buffer of its block and no other |
| `LogCache.PutPins` | xv6/log.c:67-81 | an install unpins its block and no other; a log write none |
| `LogCache.StepKeepsGood` | xv6/log.c:67-229 | every step of processes, commit and recovery, and a crash, keeps cache and protocol together |
| `LogCache.PinnedUntilInstalled` | xv6/log.c:201-229 | in every run, for any number of processes, from its log_write to its install a block is cached in a dirty buffer, with its last logged contents unless an operation has changed it since; no other buffer is dirty, and a bread of it never recycles a buffer |
| `LogCache.CachedLogRefines` | xv6/log.c:67-229 | log and cache together are the protocol: every run is one of its runs with the same disk but for the bytes of the header and, outside recovery, the same contents but for changes not yet logged; so group commit holds |
| `LogCache.HoldersGoOn` | xv6/log.c:67-199 | commit and recovery wait only for buffers: with the buffers of a write in hand, its disk write and its releases are never held up |
| `FileBlocks.WithExact` | xv6/fs.c:63-90 | setting or clearing a bit with a mask changes that bit of the byte and no other |
| `FileBlocks.MarkExact` | xv6/fs.c:60-93 | marking a block changes its bit in the bitmap and no other block's |
| `FileBlocks.WordExact` | xv6/fs.c:374-378 | storing an address in an indirect block changes that entry and no other |
| `FileTree.ReachableOnce` | xv6/fs.c:356-384 | no block is reachable through two slots, of one inode or of two |
| `FileTree.WriteKeepsTree` | xv6/fs.c:479-484 | writing a data block keeps ownership |
| `FileTree.LinkKeepsTree` | xv6/fs.c:362-373 | assigning a fresh zeroed block to an address keeps ownership, with the block owned by that slot |
| `FileTree.LinkSame` | xv6/fs.c:362-373 | an address assigned a fresh zeroed block changes what that slot refers to and no other slot of any inode |
| `FileTree.EntryKeepsTree` | xv6/fs.c:374-378 | the same for an entry of the indirect block |
| `FileTree.EntrySame` | xv6/fs.c:374-378 | the same for an entry of the indirect block |
| `FileTree.UnlinkKeepsTree` | xv6/fs.c:398-403 | clearing a direct address keeps ownership, with its block owned by nobody |
| `FileTree.DropKeepsTree` | xv6/fs.c:405-415 | clearing the indirect pointer gives up the indirect block and all its entries |
| `FileContent.KeptFile` | xv6/fs.c:356-384 | allocation changes no byte of a file without holes |
| `FileContent.PatchByte` | xv6/fs.c:479-484 | bytes copied into one block are seen at their place in that file, and at no other place of any file |
| `FileContent.WrittenReads` | xv6/fs.c:434-492 | after a flat write the range reads back as written and the rest as before |
| `FileLayer.RefusalsExact` | xv6/fs.c:445-477 | the wrapping tests refuse exactly the writes past the end or the largest file and the reads past the end or past 2^32 |
| `FileLayer.LogsCount` | xv6/fs.c:462-492 | a write logs exactly the data blocks it touches, the indirect block when it adds an entry, the inode when the file grows, and some bitmap blocks when it allocates: with one bitmap block, Cost in number |
| `FileLayer.AllocatesNext` | xv6/fs.c:479-484 | block by block, a write allocates exactly when it reaches past the blocks the file has, and adds an entry exactly when that is past the direct ones |
| `FileLayer.ChunkBudget` | xv6/file.c:127-137 | writes of c bytes log at most MAXOPBLOCKS blocks, for every file size and offset, if and only if c is at most 3073 or no file holds c bytes; 3074 appended at 6143 cost eleven |
| `FileLayer.ChunkOverruns` | xv6/file.c:127-150 | on every new disk with one bitmap block and room, writing 6143 bytes and then 3074 succeeds, and the second operation logs eleven blocks |
| `FileLayer.RoomLeft` | xv6/fs.c:60-75 | a full disk has no more data blocks than its inodes have slots |
| `FileLayer.FileSystem.constructor` | xv6/mkfs.c:239-254 | a file system of empty inodes whose bitmap marks exactly the metadata blocks |
| `FileLayer.FileSystem.Balloc` | xv6/fs.c:52-75 | the first free block, zeroed and marked; panics exactly when every block is in use |
| `FileLayer.FileSystem.Bfree` | xv6/fs.c:77-93 | clears that bit alone; panics exactly on a free block |
| `FileLayer.FileSystem.Bmap` | xv6/fs.c:355-384 | the block of the file's bn-th 512 bytes; changes no other slot and nothing already there; logs exactly what it changes; panics only out of range or out of blocks |
| `FileLayer.FileSystem.Itrunc` | xv6/fs.c:391-419 | frees exactly the inode's own blocks, leaves every other file alone, never panics, leaves the inode on disk equal to memory, and logs the inode's block and bitmap blocks, those exactly when the file had bytes |
| `FileLayer.FileSystem.Iupdate` | xv6/fs.c:199-215 | the inode on disk becomes the one in memory, every field; its block is logged |
| `FileLayer.FileSystem.Readi` | xv6/fs.c:434-459 | returns the clamped slice of the file, and changes nothing: it never allocates |
| `FileLayer.FileSystem.Writei` | xv6/fs.c:462-492 | an accepted write sets exactly its range and grows the file to hold it, leaves other files alone, keeps ownership, no holes and no blocks past the end, leaves the inode on disk equal to memory also when iupdate is skipped, logs every block it changes, and logs Cost blocks exactly with one bitmap block |
| `FileLayer.FileSystem.WriteChunk` | xv6/file.c:139-144 | one operation of filewrite: refused with nothing changed, or the flat write, logging its cost and at most the other bitmap blocks; it panics only with every block in use |
| `FileLayer.FileSystem.Filewrite` | xv6/file.c:115-156 | chunk by chunk equals one flat write of what was accepted; all of it exactly when it fits; "short filewrite" never fires; every operation stays within MAXOPBLOCKS if and only if the first is refused or is the only one and its cost does |
| `CrashSafety.PlacedApart` | xv6/mkfs.c:96-105 | no bitmap, inode or data block lies in the log, and no two share a block |
| `CrashSafety.InodesExact` | xv6/fs.h:28-38 | every word of an inode reads back from its 64 bytes of its inode block |
| `CrashSafety.DinodeFields` | xv6/fs.h:28-38 | type, major, minor, nlink, size and addresses each in its place of the 64 bytes |
| `CrashSafety.ShownOnce` | xv6/fs.h:7-41 | disk blocks determine bitmap, data, inodes and the bytes of every file |
| `CrashSafety.ChapterShows` | xv6/log.c:210-229 | replaying the loggings of an operation that logged all it changed takes the disk from the file system before it to the one after |
| `CrashSafety.Boundary` | xv6/log.c:144-171 | a place in the history that splits no operation is the end of an operation |
| `CrashSafety.CrashSafe` | xv6/log.c:51-229 | run file operations, each logging all it changes, stop anywhere, crash, let recoveries crash too, then recover: the disk holds a file system with every block reachable once, an exact bitmap and no holes, the one the first k operations left, all of them when none is under way |
| `CrashSafety.DeviceCrashSafe` | xv6/log.c:51-229 | the same of the running code of log.c, whatever its methods have done |
| `CrashSafety.CrashSafeInterleaved` | xv6/log.c:124-229 | for operations interleaved in the log in any way that leave a good file system whenever none is under way: the recovered disk holds the good file system the cache showed at some such time in the run, and the one it shows now if none is under way now |
| `CrashSafety.StoryGoesOn` | xv6/log.c:124-199 | from any state with no operation under way, an operation with no more loggings than the log has room for runs to its commit, and the history then tells it too |
| `CrashSafety.WriteOp` | xv6/file.c:139-144 | writei between begin_op and end_op is such an operation: every changed block logged, the file with src written at off, the others as before; it has as many loggings as blocks, none if refused, exactly its cost with one bitmap block, at most MAXOPBLOCKS up to 3073 bytes; it panics only with every block in use |
| `CrashSafety.TruncOp` | xv6/fs.c:391-419 | so is itrunc; it has as many loggings as blocks, only the inode's exactly when the file had no bytes, and never more than that and the bitmap |
| `LogRoom.ChaptersFit` | xv6/log.c:211-225 | operations under way on an empty log, whose log_writes come in any order: none panics if together they log fewer different blocks than there is room for, one does if they log more, and with just as many the last call decides |
| `LogRoom.ChunksPanic` | xv6/log.c:125-140 | three operations that begin_op lets in and that together log more than LOGSIZE different blocks: one of their log_writes panics, whatever the order and the size of the log |
| `LogRoom.ThreeChunks` | xv6/file.c:132-144 | on every new disk with room for all its files, three chunks written to three inodes succeed as file operations and log at least 36 different blocks |
| `LogRoom.DirectCount` | xv6/fs.c:356-384 | files of a chunk or more have twelve direct blocks each, none shared |
| `FreeList.InsertCoalesced` | xv6/umalloc.c:24-44 | inserting with coalescing on both sides keeps address order, leaves no two blocks abutting, and holds exactly the old units and the new |
| `FreeList.CarveCoalesced` | xv6/umalloc.c:75-85 | malloc's cut keeps order and leaves no two blocks abutting |
| `FreeList.CarveFromEnd` | xv6/umalloc.c:75-84 | no block on the list moves: the caller gets the end of one |
| `FreeList.CarveUnits` | xv6/umalloc.c:75-85 | the cut splits the units exactly between the list and the caller |
| `Umalloc.RequestExact` | xv6/umalloc.c:46-69 | a request gives room for its payload and an exact sbrk argument if and only if it is at most 0x7FFFFFF0 |
| `Umalloc.SbrkExactly` | xv6/umalloc.c:46-69 | sbrk gets the block's size exactly up to 0x7FFFFFF0 bytes and from 0xFFFFFFF9; the block has room exactly up to 0xFFFFFFF8 |
| `Umalloc.HugeRequestWraps` | xv6/umalloc.c:69-69 | malloc(0xFFFFFFFF) asks for one unit |
| `Umalloc.RingPut` | xv6/umalloc.c:33-43 | the two link writes put a header in the ring |
| `Umalloc.RingJoin` | xv6/umalloc.c:33-43 | absorbing the upper neighbour keeps the ring |
| `Umalloc.RingCarve` | xv6/umalloc.c:75-85 | unlinking or shortening a block keeps the ring |
| `Umalloc.FreePartition` | xv6/umalloc.c:24-44 | giving back a live block keeps every unit in exactly one block |
| `Umalloc.GrowPartition` | xv6/umalloc.c:46-61 | so does adding a block from sbrk |
| `Umalloc.TakePartition` | xv6/umalloc.c:74-85 | so does handing out a cut |
| `UmallocHeap.Heap.FindPlace` | xv6/umalloc.c:29-32 | the walk ends, at the block after which the freed one belongs |
| `UmallocHeap.Heap.Free` | xv6/umalloc.c:24-44 | the list becomes the insertion with coalescing; the block is no longer live |
| `UmallocHeap.Heap.Sbrk` | xv6/umalloc.c:53-56 | the environment: refuses, or for a positive int of bytes adds that much memory above what there is, or gives memory back |
| `UmallocHeap.Heap.Morecore` | xv6/umalloc.c:46-61 | null only when sbrk refused, which changes nothing; else a block of at least the units asked for is on the list; a fault exactly when sbrk did not refuse and its int argument is not the block's size |
| `UmallocHeap.Heap.Search` | xv6/umalloc.c:74-90 | the loop ends; morecore is called at most once, and only when every block was too small |
| `UmallocHeap.Heap.Malloc` | xv6/umalloc.c:63-90 | for every uint: a block of its own for the caller, first fit after freep, with room exactly up to 0xFFFFFFF8 bytes; at most one sbrk; null only when sbrk refused; a fault exactly when it grew the heap for a request between 0x7FFFFFF1 and 0xFFFFFFF8 |
| `SleepWakeup.StepKeepsInv` | xv6/proc.c:351-406 | every atomic action of sleep, wakeup, the condition's users and kill keeps the invariant |
| `SleepWakeup.NoLostWakeup` | xv6/proc.c:351-406 | for any number of processes and any run, whether or not lk is ptable.lock: condition true and no wakeup pending for a process, then it is not asleep on the channel nor on its way there |
| `SleepWakeup.KillEndsSleep` | xv6/proc.c:411-429 | in every run a sleeper that is killed can run, leaves its sleep and has the condition still to test; nobody else notices |
| `ExitWait.ExitKeepsInv` | xv6/proc.c:172-212 | exit, with its adoption of children by init and its wakeups, keeps the life-cycle invariant |
| `ExitWait.ForkKeepsInv` | xv6/proc.c:128-167 | fork keeps it |
| `ExitWait.ReapKeepsInv` | xv6/proc.c:216-255 | reaping a zombie keeps it |
| `ExitWait.WaitEnds` | xv6/proc.c:216-251 | wait ends with one child reaped and its slot as good as new, or with nothing changed; the caller runs on and no other process notices |
| `ExitWait.StepKeepsPids` | xv6/proc.c:34-50 | pids stay distinct and no reaped pid is reaped again |
| `ExitWait.FreedByParent` | xv6/proc.c:216-255 | a stack or page table is freed only by a wait of the process that is then the parent, of its zombie child, or by a fork giving up its own embryo |
| `ExitWait.ExitWaitSafe` | xv6/proc.c:172-255 | in every run no process asleep in wait has a zombie child, every process but init has a live parent, a zombie still owns stack and page table, no process is reaped twice, and whatever step comes next frees a stack or page table only as the wait of the then parent or the fork giving up |
| `Killing.KillMarks` | xv6/proc.c:411-429 | kill marks the process it finds, makes a sleeper runnable and changes nothing else |
| `Killing.KilledLeavesWait` | xv6/proc.c:216-255 | a process in wait that is killed can be scheduled, and without a zombie child returns -1 and cannot sleep again |
| `Killing.KillSafe` | xv6/proc.c:411-429 | in every run: a slot is marked exactly if a kill found it and no wait has reaped it since; a marked process is neither asleep in wait nor goes to sleep there; a pid other than 0 finds at most one slot, and none once its process is reaped |
| `Killing.NoneBornKilled` | xv6/proc.c:129-167 | if every kill finds a process that has been born, no process is born killed |
| `Killing.StepKeepsUnmarked` | xv6/proc.c:418-422 | a mark on a slot without a born process comes exactly from a kill that finds it there |
| `Killing.ForkInherits` | xv6/proc.c:35-167 | a fork that succeeds gives the child everything but the mark, which stays the slot's |
| `Killing.BornKilled` | xv6/proc.c:418-419 | kill(0) finds a free slot, and the next process there is born killed |
| `ProcTable.PTable.Wakeup1` | xv6/proc.c:387-397 | wakes exactly the sleepers on the channel |
| `ProcTable.PTable.FindUnused` | xv6/proc.c:40-45 | the first unused slot, if there is one |
| `ProcTable.PTable.PassToInit` | xv6/proc.c:199-206 | every child goes to init, which is woken exactly when one of them is a zombie |
| `ProcTable.PTable.ExitUnderLock` | xv6/proc.c:194-210 | the table after exit: parent woken, children adopted, the process a zombie |
| `ProcTable.ExitEach` | xv6/proc.c:194-211 | what exit makes of each entry: children to init, the parent woken, init too if a zombie comes to it, nobody else |
| `ProcTable.PTable.WaitPass` | xv6/proc.c:223-254 | reaps the first zombie child, or reports no children or a kill, or sleeps; exactly when each applies |
| `ProcTable.PTable.KillPid` | xv6/proc.c:411-429 | the first process with the pid is marked, a sleeper becomes runnable, no other field or entry changes, as in the step of the protocol; -1 exactly if there is none |
| `Pipe.StoreByte` | xv6/pipe.c:92-92 | storing a byte at nwrite modulo PIPESIZE overwrites nothing unread, through any number of counter wraps |
| `Pipe.TakeByte` | xv6/pipe.c:113-115 | the byte taken is the next of the stream |
| `Pipe.StepKeepsInv` | xv6/pipe.c:58-120 | every step of a reader, a writer, a close or a kill keeps the pipe's invariant, and what sleeping readers rely on unless a writer gives up while one sleeps |
| `Pipe.PipeFifo` | xv6/pipe.c:58-120 | after any run the bytes delivered are a prefix of those stored, the counters differ modulo 2^32 by what is in the ring, and with the lock free a writer sleeps only on a full pipe with the read end open |
| `Pipe.CallsReturn` | xv6/pipe.c:77-120 | a write that returns has put all its bytes in the stream in order; a read returns the next stretch of the stream, short only on an empty ring, nothing only at end of file |
| `Pipe.SleepingReadersExact` | xv6/pipe.c:77-120 | no reader is left asleep over bytes or end of file if and only if no writer gives up while a reader sleeps |
| `Pipe.SleepingReaderWaits` | xv6/pipe.c:77-120 | in runs where no process is killed in the middle of a write, a reader asleep means empty and open for writing |
| `Pipe.ReaderLeftAsleep` | xv6/pipe.c:84-91 | a run that ends with the lock free, a full pipe and its reader asleep |
| `PipeKill.KilledReaderReturns` | xv6/pipe.c:105-111 | a killed reader of an empty open pipe returns -1, lock released, nothing taken |
| `PipeKill.KilledWriterReturns` | xv6/pipe.c:84-91 | so does a writer on a full pipe that is killed or has no reader left |
| `PipeKill.KilledSleepExact` | xv6/pipe.c:84-111 | in every run a killed process never sleeps in the pipe if and only if no kill found it between the test and the sleep |
| `PipeKill.ReaderSleepsKilled` | xv6/pipe.c:105-111 | a run in which a reader does |
| `SemBuffer.RunKeepsInv` | produtor-consumidor/ProdutorConsumidor.c:18-71 | every interleaving of the two threads keeps the protocol's invariant |
| `SemBuffer.ProducerConsumerSafe` | produtor-consumidor/ProdutorConsumidor.c:18-71 | in every run 0 <= count <= MAX_BUF, head is tail + count when the mutex is free, the k-th item consumed is k, the two semaphores never exceed 1, and one of the threads can always step |
| `PageTables.UserPagesDisjoint` | xv6/vm.c:309-337 | two user pages, of one address space or of two, never share a frame |
| `PageTables.WriteSeenOnce` | xv6/vm.c:309-337 | a store into a user page is seen at that page of that address space and nowhere else |
| `PageTables.NewTable` | xv6/vm.c:45-65 | a zeroed page put in the directory keeps ownership |
| `PageTables.SetKeepsSpaces` | xv6/vm.c:78-83 | setting an entry keeps ownership, with the frame it names handed over and the one it named given up |
| `PageTables.DropDir` | xv6/vm.c:277-292 | a directory with no user pages left can be given up with its tables |
| `VirtualMemory.KmapGood` | xv6/vm.c:115-136 | the regions of kmap lie in the kernel's half and share no page, device space wrapping to the top included; the PHYSTOP panic does not fire |
| `VirtualMemory.KernelMap` | xv6/vm.c:113-144 | setupkvm maps physical memory from KERNBASE up and the devices where they are, nothing else; all of it writable but the kernel's text, none of it the user's |
| `VirtualMemory.RangeSlotsCount` | xv6/vm.c:45-65 | the first i user pages need a page table for every 1024 of them, rounded up |
| `VirtualMemory.LosesOnlyAt` | xv6/vm.c:319-337 | out of memory at page i: a page is lost exactly when one is free and page i needs a new table |
| `VirtualMemory.SweepComplete` | xv6/vm.c:258-272 | with deallocuvm's own start point, no page it was asked to free stays mapped exactly when it starts on a 4 MB boundary or on a present table, or the first table it finds maps nothing below where it comes upon it |
| `VirtualMemory.SweepCanMiss` | xv6/vm.c:258-272 | from boot, a process whose one page is 1024 is shrunk from 8 MB to one page and still has page 1024 mapped |
| `VirtualMemory.DenseSweeps` | xv6/vm.c:258-272 | of an address space mapped from page 0 up without a gap deallocuvm misses nothing |
| `VirtualMemory.CopyLosesPage` | xv6/vm.c:309-337 | from boot, for every kernel map, a process of one page forks with one page beyond the kernel's left: no memory, and that page is neither free nor anyone's |
| `VirtualMemory.SetupLeavesDirectory` | xv6/vm.c:128-144 | from boot with one page, setupkvm fails and its directory stays allocated |
| `VirtualMemory.FreeTwice` | xv6/kalloc.c:59-77 | freeing a page twice is accepted, and the free list is no longer one |
| `VirtualMemory.AllUnmapped` | xv6/vm.c:258-284 | from page 0 the skip is exact: every user page is unmapped |
| `VirtualMemory.Machine.constructor` | xv6/kalloc.c:31-36 | memory before the first freerange |
| `VirtualMemory.Machine.Kalloc` | xv6/kalloc.c:82-95 | the head of the free list, or null exactly when it is empty |
| `VirtualMemory.Machine.Kfree` | xv6/kalloc.c:59-77 | pushes the page, linked through its first word and filled with junk; panics exactly outside allocatable memory; the list stays a list exactly when the page was not on it |
| `VirtualMemory.Machine.Freerange` | xv6/kalloc.c:45-52 | puts exactly the whole pages of the range on the list |
| `VirtualMemory.Machine.Walkpgdir` | xv6/vm.c:45-65 | the table for an address, made zeroed if asked, from exactly one free page; no entry of any address space changes; null exactly when missing and not to be had |
| `VirtualMemory.Machine.Mappages` | xv6/vm.c:70-90 | maps exactly the pages the range touches; takes exactly one free page for each table missing, and fails exactly when those are too few; what is mapped then; "remap" exactly on a present entry |
| `VirtualMemory.Machine.Setupkvm` | xv6/vm.c:128-144 | succeeds exactly when there are as many free pages as the directory and kmap's tables take, and takes exactly those; the new directory's entries are kmap's and nothing else; with fewer, but some, the directory and tables made so far are left behind |
| `VirtualMemory.Machine.Deallocuvm` | xv6/vm.c:249-273 | unmaps and frees exactly the user pages from where it starts to look up to oldsz, which are all it was asked for if and only if the skip passed over no mapped page; never panics |
| `VirtualMemory.Machine.Freevm` | xv6/vm.c:277-292 | every user page, table and the directory of the address space goes on the free list once, and no other page changes; never panics on a live directory |
| `VirtualMemory.Machine.CopyFrame` | xv6/vm.c:323-331 | a page copied with its flags into a new page; runs out of memory exactly with no page left, or with one and the table missing, and then that page is lost |
| `VirtualMemory.Machine.CopyPage` | xv6/vm.c:319-331 | one page of the parent copied; the two panics exactly on a missing table and on a page not present |
| `VirtualMemory.Machine.Copyuvm` | xv6/vm.c:309-337 | the child has the parent's flags and bytes below sz, nothing above, setupkvm's kernel half, and no page outside it changed; success, each of the two panics, a directory left behind and a page lost are each decided exactly by the free pages and the parent's leading present pages; on failure everything is as before but for what is named |
| `ShellSyntax.SkipExact` | xv6/sh.c:272-274 | the cursor stops at a place exactly when all before it is white space and it is not |
| `ShellSyntax.WordEndExact` | xv6/sh.c:296-299 | a word runs exactly to the first white space, symbol or end |
| `ShellSyntax.LexExact` | xv6/sh.c:266-309 | the tokens gettoken finds are exactly those that, with white space around them, make up the line |
| `ShellRoundTrip.RoundTrip` | xv6/sh.c:266-447 | every tree of writable words with fewer than MAXARGS arguments, printed with parentheses only where needed, parses back to itself with no input left |
| `ShellRoundTrip.ParsesExactly` | xv6/sh.c:328-447 | a line is accepted if and only if its tokens are a line of the grammar, and its tree is what that line stands for |
| `ShellRoundTrip.LineMeansIt` | xv6/sh.c:266-447 | however a line of the grammar is spaced, it is accepted with that tree |
| `ShellRoundTrip.LineFewest` | xv6/sh.c:345-447 | no line with the same tree has fewer parentheses than the printed one |
| `ShellRoundTrip.Reprint` | xv6/sh.c:266-447 | every accepted line means the same as its printed form |
| `ShellRoundTrip.WritableExactly` | xv6/sh.c:266-447 | the trees that some line parses to are exactly the writable ones |
| `ShellRoundTrip.LineGood` | xv6/sh.c:345-447 | the parser returns only whole words, fewer than MAXARGS of them, and the two redirection modes |
| `ShellRoundTrip.BlockIsGuarded` | xv6/sh.c:400-406 | parseblock's first panic never fires |
| `Shell.WordsReadBack` | xv6/sh.c:449-494 | after nulterminate every argument and file name reads back as its token |
| `Shell.EndsAreNoLetters` | xv6/sh.c:449-494 | what nulterminate overwrites is no letter of any word |
| `Shell.Parser.GetToken` | xv6/sh.c:266-309 | kind, span and cursor of the next token as in the grammar |
| `Shell.Parser.PeekAt` | xv6/sh.c:311-320 | skips space and tells whether one of the characters is next |
| `Shell.Parser.ParseRedirs` | xv6/sh.c:375-398 | the loop over redirections as in the grammar |
| `Shell.Parser.ParseArgs` | xv6/sh.c:430-446 | the argument loop as in the grammar |
| `Shell.Parser.ParseExecCmd` | xv6/sh.c:416-447 | simple command or block as in the grammar |
| `Shell.Parser.ParseBlockCmd` | xv6/sh.c:400-414 | block as in the grammar |
| `Shell.Parser.ParsePipeCmd` | xv6/sh.c:362-373 | pipeline as in the grammar |
| `Shell.Parser.ParseLineCmd` | xv6/sh.c:345-360 | line as in the grammar |
| `Shell.Parser.NulTerminate` | xv6/sh.c:449-494 | writes NUL at every word end of the tree and nowhere else |
| `Shell.Parser.ParseCommand` | xv6/sh.c:328-343 | the grammar's answer; on success every word of the tree reads back from the buffer |
| `Grep.MatchesOne` | xv6/grep.c:93-95 | a single character of the pattern, against the language |
| `Grep.MatchesStar` | xv6/grep.c:99-106 | a starred character: now or after one more accepted character |
| `Grep.WriteBack` | xv6/grep.c:84-96 | every text is the text of the pattern it stands for |
| `Grep.ParseExact` | xv6/grep.c:84-96 | a pattern comes back from its text exactly if no item would take the next one's '*' as its own and no '$' at the end is an item |
| `Grep.MatchHere` | xv6/grep.c:84-97 | true if and only if a prefix of the text is in the pattern's language (all of it under a final $) |
| `Grep.MatchStar` | xv6/grep.c:99-106 | the same with a starred character in front |
| `Grep.Match` | xv6/grep.c:72-82 | true if and only if some place of the text, its beginning under ^, matches |
| `Grep.FixedFound` | xv6/grep.c:72-96 | a pattern without stars finds its characters in a row, a dot for any, at the beginning after '^', at the end before '$' |
| `GrepLines.LinesOfPieces` | xv6/grep.c:17-34 | lines can be read off piece by piece if the unfinished end of one is put before the next |
| `GrepLines.ExaminedExact` | xv6/grep.c:10-36 | the lines handed to match are the input's complete lines if and only if the reads with a newline come before those without |
| `GrepLines.LineCutShort` | xv6/grep.c:29-30 | one line in two reads: only its second part is seen |
| `GrepLines.Scan` | xv6/grep.c:21-28 | writes the matching lines of the buffer and stops after the last newline |
| `GrepLines.GrepFile` | xv6/grep.c:10-36 | writes the matching lines among those examined |

## Left out

- Hardware and boot code, interrupt controllers, the IDE driver's port I/O: memide.c is the disk, and each block write is one step.
- Spin lock internals: acquire and release are atomic steps.
- The log header's layout in its block: it is a list of block numbers, which fits one block.
- Concurrency inside the buffer cache, the file layer, the page allocator and malloc: their operations run one at a time. For bread this is more than its lock gives: bcache.lock is released between bget and the disk transfer (xv6/bio.c:90-107), and it is B_BUSY that keeps others off the buffer. LogCache interleaves processes, commit and recovery, one cache operation a step.
- CrashSafety.CrashSafe: the loggings of one operation are contiguous in the history and are listed once per block, with the contents the block ends with; CrashSafeInterleaved allows any order and asks for a good file system at quiet times instead.
- LogDevice.Log.LogWrite: this class has one array for the cache; the B_DIRTY pin that keeps a logged block in the cache is a step of LogCache, which has the log over buffers.
- LogCache.CachedLogRefines: the bytes of the header block are left open, and a read that finds no buffer is no step.
- That bget never panics: pinned buffers can fill the cache.
- LogReserve.ReservationGenerous: on a disk with at most LOGSIZE blocks outside the log begin_op may turn away an operation that would fit.
- Inode allocation, link counts, directories and path names: easy beside the block tree, and link counts are not a run invariant.
- Device inodes in readi and writei.
- LogDevice.Log.EndOp: the commit that follows is `Commit`; the wakeups of begin_op's sleepers are not modelled.
- Byte addresses in the heap: headers and blocks are counted in 8-byte units, and sbrk returns whole units.
- UmallocHeap.Heap.Malloc: what happens after a fault is not modelled; the header is written outside the process's memory.
- UmallocHeap.Heap.Free: requires a pointer that malloc returned and that was not freed since, as C does.
- The scheduler, context switches and growproc: a runnable process may step at any time.
- allocuvm, loaduvm, inituvm and copyout.
- VirtualMemory.Machine.Mappages: requires a non-empty range that does not wrap and an aligned physical address, as every caller gives.
- Pipe.PipeFifo: user memory faults during the copy are not modelled; a close waits until no call uses that end, as file references make it.
- ShellRoundTrip.ParsesExactly: says that a line is rejected, not with which of the parser's messages.
- The shell's runcmd and builtins; the EXEC node that parseexec fills through an alias is a value rebuilt under its redirections.
- Text with NUL characters in grep and the shell: strings are C strings.
- gerencia-de-memoria, the other classic problems, the scheduler simulators and the small shells: they do not keep the invariants they aim at, or add only easy members.
