# Models of the xv6 kernel with memory mappings

Dafny models of the parts of this xv6 (a small Unix for 32-bit x86, here with
`wmap`, `wunmap` and `wremap` added) whose correctness depends on order, sharing
or accounting: the redo log, the buffer cache, block allocation and file
contents, the inode cache, page tables and physical pages, the process table,
sleep-locks, pipes, the table of memory mappings, and, among the user programs,
the memory allocator, the shell's parser and grep's matcher.

Code that updates memory step by step is a class with the same fields, the same
loops and the same branches, proved against functions or state machines on
values; properties of whole executions are proved on those machines.
`dafny verify dfyconfig.toml` checks everything.

How the modules fit together (`Common` holds what several of them share):

- `Blocks`, `LogCore`, `LogSystem`, `Log`: the log.  `LogCore` is a machine whose
  every step is one disk write.  `Durable` is what the disk would hold after a
  crash and a complete recovery, `Current` what system calls see.  `LogSystem`
  interleaves any number of processes in begin_op, log_write and end_op with the
  committer, crashes and recoveries, and refines a specification with two
  variables, the durable and the current file system.  The size test that
  log_write makes before it takes the lock is a step of its own.  `Log` is log.c,
  proved to perform exactly the writes of the machine.
- `BufferList`, `BufferCache`: the buffers of bio.c over the memory disk, as a map
  from block numbers to contents that caching does not show in.
- `FsFormat`, `FsState`, `FileBytes`, `FileSystem`, `FileWrite`: the free map, inodes
  and file contents.  `Owned` says that the used data blocks are exactly the
  referenced ones and that nothing is referenced twice; `Contents` is the byte
  sequence that a file stands for.
- `CrashSafety` joins log and file system.  A run of the log serves the file system
  if, whenever no operation is in progress, callers see the state that the finished
  operations have made; the module proves what a crash leaves of files, at any moment
  of such a run.  `SerialRuns` proves that a run serves if its operations come one at
  a time and write through the log what the file system code logged, and takes single
  operations to the disk.  `EmptyDisk` has a disk to start from.
- `SharedOwn`, `SharedFs`, `SharedEnd`, `GroupCommit`: operations that overlap.  `SharedFs` takes
  writei and itrunc apart into steps of one logged block, interleaved by any number of
  processes on different files; `SharedEnd` shows that each comes to its end;
  `GroupCommit` writes those blocks through the log.
  `TwoWriters` is one such run.
- `CommitBuffers`, `CachedLog`: processes, log and buffer cache in one machine, and the
  buffers that a commit needs.  `FullLog` is a run that has none left.
- `InodeCache`, `InodeSteps`, `InodeLife`: references to cached inodes, with iget of
  any inode number, the two halves of ialloc, idup, ilock, iunlock and the stages of
  iput interleaved in every order.
- `VmSpec`, `VmChange`, `VmGrow`, `VmSpace`, `VmBytes`, `Vm`: physical pages and page
  tables.
  `Inv` says that free pages, directories, tables, user pages and pages in the
  hands of the kernel partition physical memory; `Pte` is the flat map that a
  two-level table stands for.
- `ProcSpec`, `ProcProofs`, `ProcLife`, `Proc`: the process table, one critical
  section of ptable.lock per step.  `ProcLife` says of every fact about an entry
  (asleep on a channel, killed, a zombie, somebody's child) which steps make it true
  and which make it false, and so when it holds in a run.  `SleepLock` and `Pipe` are protocols on top of sleep and
  wakeup.
- `WmapSpec`, `Wmap`: the sixteen-slot table of mappings.
- `HeapList`, `Umalloc`: malloc and free of the user library.
- `ShellGrammar`, `ShellSyntax`, `ShellRoundTrip`, `Shell`: the command parser, the
  language that it accepts as a grammar of its own, and a printer.
- `Regex`: grep's matcher and the language that a pattern stands for.

Where the code does not do what it is meant to do, the model does what the code
does, and the exact condition is proved:

- mkfs makes a log of LOGSIZE blocks, one too few: a write that begin_op reserved
  can be refused (`LogSystem.HonouredIff`), and since log_write tests the size
  before it takes the lock, two writers can pass together and make the header
  outgrow the log (`LogSystem.NeverOverrunsIff`).  Crash atomicity holds without
  condition for a log of more than LOGSIZE blocks, and for a smaller one until
  that has happened.
- NBUF equals LOGSIZE: with a larger log, a transaction of LOGSIZE blocks pins
  every buffer, and commit panics for want of one more (`CachedLog.WholeCommitIff`;
  `FullLog.FullTransactionPanics` is such a run).
- log_write panics on a full header even for a block that is already in it
  (`LogSystem.TooBigExactly`, `LogSystem.AbsorbedWriteCanPanic`).
- iget takes any inode number that a directory holds, also `..` of a removed
  directory: ilock can then panic for lack of a type, or the inode can be freed
  under its new holder (`InodeLife.GetSafeIff`, `InodeLife.FreedAloneIff`).
- ialloc gives an inode its type and calls iget afterwards, with no lock over both:
  whoever reaches the inode in between can free it, and the process that allocated
  it panics in ilock (`InodeLife.AllocSafeIff`, `InodeLife.AllocatedInodeFreedFirst`).
- An unlinked inode can stay allocated for ever: the last iput to decide gives up
  if its entry was never loaded, or if another iput has decided and not yet
  dropped its reference (`InodeLife.AbandonedIff`).
- A writer killed while the pipe is full leaves without waking a reader
  (`Pipe.LosesWakeupIff`).
- malloc rounds requests close to 4 GB to an empty block (`Umalloc.CapacityIff`),
  and for requests of about 2 GB and more that no free block holds it passes sbrk
  a number that is not positive as an int: sbrk answers with an address that has
  no memory behind it (`Umalloc.Heap.Malloc`).
- A request of which the argument of sbrk is minus the size of the process makes
  growproc free everything and then report a failure (`Umalloc.Heap.Malloc`,
  `Umalloc.RequestThatVanishes`).
- kill(0) marks an unused entry of the process table, and allocproc does not clear
  the mark: the next process in it starts out killed (`ProcLife.BornKilledIff`,
  `ProcLife.KillZeroKillsNext`).
- freevm leaves pages mapped from MIN_ADDR on behind (`VmSpace.LeftBehindIff`).
- sys_wmap is meant to take the leftmost address that fits; with a free slot in
  the table it takes the one behind the last mapping (`WmapSpec.LeftmostIff`).
- wremap records a block that it moves one byte short (`WmapSpec.MovedIsShort`).
- wremap refuses to leave a block where it would end exactly where its neighbour
  starts, although nothing overlaps (`WmapSpec.ResizedInPlaceIff`).  wmap places
  blocks next to each other, so a block that is not the last cannot even be resized
  to its own size (`WmapSpec.TouchingNeighbour`, `WmapSpec.OwnSizeRefused`).
- Removing a mapping from a full table leaves slot 15 in use
  (`Wmap.Table.RemoveMapping`).

## Model

| member | source | states |
|---|---|---|
| `LogCore.HeaderRoundTrip` | xv6-public/log.c:101-113 | a header block written by write_head reads back as the same list of block numbers |
| `LogCore.LogWriteKeeps` | xv6-public/log.c:213-233 | log_write changes what system calls see in that one block, changes nothing that a crash would leave, and keeps the invariant, absorbed or not |
| `LogCore.WriteLogKeeps` | xv6-public/log.c:177-190 | copying one block to the log changes neither the durable nor the current file system |
| `LogCore.CommitKeeps` | xv6-public/log.c:101-113 | the header write makes the current file system durable, all at once |
| `LogCore.InstallKeeps` | xv6-public/log.c:69-82 | installing one block leaves the outcome of a recovery as it was, wherever the crash falls |
| `LogCore.ClearKeeps` | xv6-public/log.c:199-200 | erasing the header changes nothing durable once everything is installed |
| `LogCore.ReadHeadKeeps` | xv6-public/log.c:85-96 | reading the header after a crash keeps the invariant and what is durable |
| `LogCore.CrashKeeps` | xv6-public/log.c:115-122 | after a crash at any point the file system is the durable one, and the invariant still holds, so recovery may itself be cut short |
| `LogCore.StepKeeps` | xv6-public/log.c:192-202 | every disk write of a commit or a recovery keeps the current file system; only the commit write changes the durable one |
| `Log.CommitTrace` | xv6-public/log.c:192-202 | in a commit of n blocks a crash after i writes leaves the old state for i up to n, the new one from then on, for every i |
| `Log.RecoverTrace` | xv6-public/log.c:115-122 | every prefix of every recovery leaves the same durable file system |
| `Log.Log.WriteLog` | xv6-public/log.c:177-190 | performs exactly the n log writes of the machine, in order |
| `Log.Log.WriteHead` | xv6-public/log.c:101-113 | the loop stores count and entries in the header block and writes it |
| `Log.Log.InstallTrans` | xv6-public/log.c:69-82 | performs exactly the n home writes of the machine, in order |
| `Log.Log.ReadHead` | xv6-public/log.c:85-96 | the loop brings the header on disk into memory |
| `Log.Log.Commit` | xv6-public/log.c:192-202 | 2n+2 writes; the durable state changes at write n+1 and nowhere else; afterwards durable and current agree and the header is empty |
| `Log.Log.RecoverFromLog` | xv6-public/log.c:115-122 | ends with the durable state of before as the current one; every intermediate state has it too |
| `Log.Log.TryBeginOp` | xv6-public/log.c:125-141 | an operation enters exactly if no commit runs and its reservation fits beside the others |
| `Log.Log.EndOp` | xv6-public/log.c:145-174 | the last operation to end makes everything durable; an earlier one changes no state of the disk or cache |
| `Log.Log.LogWrite` | xv6-public/log.c:213-233 | panics exactly on a full header or outside an operation; otherwise the loop records the block once and only that block changes |
| `LogSystem.NextKeeps` | xv6-public/log.c:125-233 | every interleaved step of begin_op, log_write with its test outside the lock, end_op, commit, crash and recovery keeps the invariant (exact counts, reservations within LOGSIZE, one committer) as long as the header has not outgrown the slots |
| `LogSystem.NobodySleepsBesideRoom` | xv6-public/log.c:125-174 | in every state of every run in which the header fits, a process asleep in begin_op has no room: the test for which it waits fails |
| `LogSystem.InsideStep` | xv6-public/log.c:125-174 | a process is inside an operation after a step exactly if the step is its begin_op and finds room, or it was inside and the step is not its end_op or a crash |
| `LogSystem.WaitingStep` | xv6-public/log.c:125-174 | a process is asleep in begin_op after a step exactly if the step is its begin_op and finds no room, or it was asleep and the step is no end_op that leaves others inside, no end of a commit and no crash |
| `LogSystem.SomethingDrives` | xv6-public/log.c:61-212 | as long as the header fits, a commit or a recovery that has begun always has a next step that it can take: it is never stuck |
| `LogSystem.DrivenToTheEnd` | xv6-public/log.c:61-212 | each of its steps brings it one closer to the end, and nothing else but a crash moves it: after exactly the counted number of steps the header is empty and, after a commit, no process is left inside the log |
| `LogSystem.NextContained` | xv6-public/log.c:125-233 | with a log of more than LOGSIZE blocks no step lets the header outgrow the slots |
| `LogSystem.Refines` | xv6-public/log.c:125-233 | every step that leaves the header within the slots is a step of the two-variable specification: a write to current, durable := current with no operation active, or a crash to durable |
| `LogSystem.RunInv` | xv6-public/log.c:125-233 | the invariant in every state of every run, with any number of processes and crashes: without condition for a log of more than LOGSIZE blocks, and for any other as long as the header fits |
| `LogSystem.RunRefines` | xv6-public/log.c:125-233 | every run refines the specification step by step, under the same condition |
| `LogSystem.DurableIsAnEarlierQuietState` | xv6-public/log.c:145-174 | at every moment of every run, what a crash would leave is what system calls saw at some earlier moment with no operation in progress: operations survive whole or not at all, under the same condition |
| `LogSystem.QuietIsDurable` | xv6-public/log.c:145-174 | with no operation and no commit in progress everything seen is durable |
| `LogSystem.OperationsAreIsolated` | xv6-public/log.c:125-141 | while an operation is in progress nothing is written to disk |
| `LogSystem.CommittingPanicNeverFires` | xv6-public/log.c:152-153 | end_op never finds a commit in progress |
| `LogSystem.TooBigExactly` | xv6-public/log.c:218-219 | the panic fires exactly on a full header, and with a log of more than LOGSIZE blocks only when every operation has used its whole reservation |
| `LogSystem.HonouredIff` | xv6-public/mkfs.c:25 | in all runs the writes reserved by begin_op are accepted, if and only if the log has more than LOGSIZE blocks; mkfs makes LOGSIZE |
| `LogSystem.TwoWritersOverrun` | xv6-public/log.c:213-233 | for every log of 2 to LOGSIZE blocks a run in which two writers pass the test together, and the last logged block has its slot behind the log |
| `LogSystem.NeverOverrunsIff` | xv6-public/mkfs.c:25 | in all runs the header stays within the slots, if and only if the log has more than LOGSIZE blocks (or one, when no write passes) |
| `LogSystem.AbsorbedWriteCanPanic` | xv6-public/log.c:218-226 | for every layout a run in which a write to a block already in the header panics |
| `BufferList.PushFrontLinks` | xv6-public/bio.c:134-137 | linking a buffer in at the head keeps the list a two-way circle, with that buffer first |
| `BufferList.UnlinkLinks` | xv6-public/bio.c:132-133 | unlinking a buffer anywhere in the list keeps it a two-way circle of the others in order |
| `BufferList.MoveToFront` | xv6-public/bio.c:130-138 | both together move the buffer to the front and change no payload |
| `BufferCache.CleanIsOnDisk` | xv6-public/bio.c:61-93 | what the cache answers for a block without a dirty or touched buffer is what the disk holds |
| `BufferCache.RecycleShowsNothing` | xv6-public/bio.c:81-91 | giving a clean unused buffer to another block changes no content, and no block ever has two buffers |
| `BufferCache.StoreShows` | xv6-public/memide.c:38-60 | a changed buffer changes the content of its own block only |
| `BufferCache.RecencyMoves` | xv6-public/bio.c:120-141 | moving to the front keeps the list in order of last release |
| `BufferCache.BCache.constructor` | xv6-public/bio.c:38-56 | binit's loop builds the circle of all buffers, nothing cached |
| `BufferCache.BCache.FindCached` | xv6-public/bio.c:68-76 | finds the buffer of the block if and only if there is one |
| `BufferCache.BCache.FindVictim` | xv6-public/bio.c:78-91 | finds, among the unused clean buffers, the least recently released; none exactly if there is none |
| `BufferCache.BCache.BGet` | xv6-public/bio.c:61-93 | panics exactly if the block is not cached and no buffer is unused and clean; otherwise one buffer for the block and no change to any content |
| `BufferCache.BCache.IdeRw` | xv6-public/memide.c:38-60 | writes a dirty buffer or reads an invalid one; contents as before, buffer clean and valid |
| `BufferCache.BCache.BRead` | xv6-public/bio.c:96-106 | the locked buffer holds the content of the block; nothing changes, on disk or as seen |
| `BufferCache.BCache.SetData` | xv6-public/log.c:204-212 | a caller that changes data changes the content of that block only |
| `BufferCache.BCache.MarkDirty` | xv6-public/log.c:231 | setting B_DIRTY pins a modified buffer and changes nothing as seen |
| `BufferCache.BCache.BWrite` | xv6-public/bio.c:109-116 | the block on disk becomes the buffer's data; nothing changes as seen |
| `BufferCache.BCache.DropRef` | xv6-public/bio.c:120-141 | the last release puts the buffer at the front of the list; an earlier one leaves the list alone; contents as before |
| `CommitBuffers.BreadPanicsIff` | xv6-public/bio.c:61-93 | with the logged blocks pinned, bread of a block panics if and only if it has no buffer and pinned and held buffers use up the cache |
| `CommitBuffers.CommitReadPanicsIff` | xv6-public/log.c:177-190 | write_log panics for a log block if and only if it has no buffer and logged blocks and buffers in others' hands use up the cache; with no other holder, if and only if the transaction has NBUF blocks, which a log of at most NBUF blocks never has |
| `CachedLog.CacheKeeps` | xv6-public/bio.c:61-141 | no critical section of bget, bread or brelse changes what the log relies on: contents, disk, pinned blocks, one buffer per block, the recency circle |
| `CachedLog.StepData` | xv6-public/log.c:69-113 | the data that a round of write_log, install_trans or write_head computes from the buffers it holds is the data of the log's own step |
| `CachedLog.NextKeeps` | xv6-public/log.c:69-233 | every step of processes, log and cache together keeps them in agreement: the cache answers for each block what the log takes it to hold, the disks are the same, the dirty buffers are the pinned blocks |
| `CachedLog.RunInv` | xv6-public/log.c:69-233 | so in every state of every run from power-on, crashes included: without condition for a log of more than LOGSIZE blocks, and for any other as long as the header is within the slots |
| `CachedLog.PinnedThroughout` | xv6-public/log.c:177-233 | in every run, outside recovery, the dirty buffers are exactly those of the logged blocks not yet installed |
| `CachedLog.CommitReadIff` | xv6-public/log.c:69-113 | any read of a commit, in write_log, write_head or install_trans: the home block is found; a log block or the header panics if and only if it has no buffer and pinned and held buffers use up the cache |
| `CachedLog.RoomToCommit` | xv6-public/log.c:192-202 | in every run, a round of a commit that finds logged blocks and buffers in other hands fewer than NBUF does not panic |
| `CachedLog.RoundGoesOn` | xv6-public/log.c:69-113 | a round of commit or recovery whose buffers are held, whichever they are, can be taken |
| `CachedLog.WholeCommitIff` | xv6-public/log.c:192-202 | a whole commit, while no other process holds buffers, panics in no read if and only if the transaction has fewer than NBUF blocks |
| `FullLog.FullTransactionPanics` | xv6-public/log.c:192-202 | for every log of more than LOGSIZE blocks a run of processes, log and cache from power-on in which three operations fill the log, all buffers are pinned, nobody holds one, and the first read of the commit panics |
| `FsFormat.PutBitReads` | xv6-public/fs.c:66-68 | setting or clearing one bit of a byte changes that bit only |
| `FsFormat.MarkBit` | xv6-public/fs.c:66-68 | marking block i changes bit i of the free map and no other |
| `FsFormat.BitOfByte` | xv6-public/fs.c:66-68 | the bit of block 8i+k is bit k of byte i, from the low end |
| `FsFormat.InodeBytes` | xv6-public/fs.h:29-36 | the fields of an inode are the bytes of its 64-byte record at the offsets of struct dinode, low bytes first, as mkfs stores them |
| `FsFormat.PutInodeReads` | xv6-public/fs.c:220-236 | an inode stored in its slot reads back, and the other slots of the block are as before |
| `FsState.OwnedAlloc` | xv6-public/fs.c:56-78 | a free block that becomes referenced at an empty slot keeps used blocks and references one to one |
| `FsState.OwnedFree` | xv6-public/fs.c:81-95 | a block whose bit and only reference go together keeps them one to one |
| `FsState.AllocInode` | xv6-public/fs.c:378-388 | a block allocated for a direct slot or the indirect block is zeroed, owned once, and no reference of any file moves |
| `FsState.AllocEntry` | xv6-public/fs.c:389-394 | the same for an entry of the indirect block |
| `FsState.FreeDirect` | xv6-public/fs.c:414-419 | a direct block being freed has its bit set, and ownership holds after bit and address are cleared |
| `FsState.FreeEntry` | xv6-public/fs.c:424-427 | freeing entry j: its block is in use and ownership holds with the first j+1 entries counted as dead |
| `FsState.FreeIndirect` | xv6-public/fs.c:429-430 | freeing the indirect block after all its entries leaves ownership intact |
| `FileBytes.AllocKeepsBytes` | xv6-public/fs.c:372-400 | allocating a zeroed block changes no byte of any file |
| `FileBytes.StoreData` | xv6-public/fs.c:498-504 | writing a data block changes the bytes of that block of that file only |
| `FileBytes.UpdateSyncs` | xv6-public/fs.c:220-236 | iupdate makes the inode on disk equal to the one in memory and changes no other inode and no byte of any file |
| `FileSystem.FileSystem.ScanMapBlock` | xv6-public/fs.c:65-74 | the first free bit of one map block |
| `FileSystem.FileSystem.constructor` | xv6-public/fs.c:30-39 | a file system in memory for a disk in order |
| `FileSystem.FileSystem.BAlloc` | xv6-public/fs.c:56-78 | the lowest free block of the disk, marked and zeroed; panics exactly on a full disk; only the two logged blocks change |
| `FileSystem.FileSystem.BFree` | xv6-public/fs.c:81-95 | clears the bit; panics exactly if it was clear; only the logged block changes |
| `FileSystem.FileSystem.BMap` | xv6-public/fs.c:372-400 | the address of block n of the file, allocated if missing: ownership holds, no byte and no other reference changes, an existing block changes nothing at all, at most data, indirect and map blocks are logged, and no other block changes |
| `FileSystem.FileSystem.IUpdate` | xv6-public/fs.c:220-236 | the inode on disk equals the one in memory; one block logged |
| `FileSystem.FileSystem.ReadI` | xv6-public/fs.c:464-475 | returns exactly the bytes off .. off+n-1 of the contents, cut at the size; -1 exactly for an offset past the end or a wrapping range; nothing changes |
| `FileSystem.FileSystem.WriteI` | xv6-public/fs.c:493-510 | the new contents are the old ones with src spliced in; every other file, inode and the free-map invariant keep; -1 exactly for a bad range, then nothing changes; the set of logged blocks is bounded, and no other block changes |
| `FileSystem.FileSystem.ITrunc` | xv6-public/fs.c:407-435 | the file is empty and owns nothing, exactly its blocks are freed, other files keep every byte, no bfree panics, and only logged blocks change |
| `FileWrite.ChunkFits` | xv6-public/file.c:127-133 | a chunk of filewrite logs at most 7 blocks, within MAXOPBLOCKS |
| `FileWrite.SpliceSplice` | xv6-public/file.c:134-152 | two adjacent splices are one splice of the concatenation |
| `FileWrite.WrittenTrans` | xv6-public/file.c:134-152 | two adjacent writes to a file amount to one write of the whole |
| `FileWrite.File.WriteChunk` | xv6-public/file.c:140-145 | one transaction: all of the chunk or nothing, the offset moves with it, at most MAXOPBLOCKS blocks |
| `FileWrite.File.FileWrite` | xv6-public/file.c:126-154 | all chunks together write a prefix of the data at the old offset; the result is n exactly if all of it was written, -1 exactly if the range does not fit; every transaction fits |
| `CrashSafety.DecodedSound` | xv6-public/fs.c:287-312 | a disk whose blocks outside the log show a sound state (used blocks are the referenced ones, none twice, no holes, inodes written through) decodes to one with the same files |
| `CrashSafety.OperationKeepsSound` | xv6-public/fs.c:407-511 | writei and itrunc keep a file system sound |
| `CrashSafety.ServedSound` | xv6-public/log.c:125-202 | in every run that serves the file system, crashes included, every state of the file system is sound |
| `CrashSafety.CrashLeavesSound` | xv6-public/log.c:125-202 | at every moment of every run a crash leaves a disk that decodes to a sound file system, all files with the contents they had at one earlier moment with no operation in progress |
| `SerialRuns.SerialServes` | xv6-public/log.c:125-233 | a run whose operations come one at a time, each writing through the log exactly the blocks it logged with their final contents, serves the file system; crashes may fall anywhere |
| `SerialRuns.SerialCrashSafe` | xv6-public/log.c:125-233 | so at every moment of such a run a crash leaves a sound file system, that of an earlier moment with no operation in progress |
| `SerialRuns.WriteOperation` | xv6-public/file.c:140-145 | what writei logs completes what it does: the logged blocks with their contents make up the whole change |
| `SerialRuns.TruncOperation` | xv6-public/fs.c:407-435 | the same of itrunc |
| `SerialRuns.OperationReachesDisk` | xv6-public/log.c:125-202 | for every operation of at most MAXOPBLOCKS blocks that the log has room for, a run from boot to the commit point after which the disk shows its result |
| `SerialRuns.ChunkToDisk` | xv6-public/file.c:140-145 | for every chunk of filewrite that logs anything such a run exists, and the disk ends with the chunk written |
| `EmptyDisk.FormattedIsSound` | xv6-public/mkfs.c:237-252 | with the free map set up to the first data block and no inode in use the file system is sound |
| `EmptyDisk.Mkfs` | xv6-public/mkfs.c:237-252 | the loop that marks the used blocks builds such a disk, and a valid file system object on it |
| `EmptyDisk.FirstOperation` | xv6-public/log.c:125-202 | on such a disk a complete run of one operation, which serves the file system |
| `SharedOwn.OwnedAtRest` | xv6-public/fs.c:369-435 | with no block taken and no entry freed, ownership while operations are under way is the ownership of FsState |
| `SharedOwn.MarkedKeeps` | xv6-public/fs.c:63-76 | the first write of balloc, while others allocate, free and write: the block belongs to the process that took it, and no file changes |
| `SharedOwn.AttachedKeeps` | xv6-public/fs.c:378-388 | the zeroed block passes to a slot of the inode: still one owner each, no byte of any file changes |
| `SharedOwn.EnteredKeeps` | xv6-public/fs.c:389-395 | the same for an entry of the indirect block |
| `SharedOwn.StoredKeeps` | xv6-public/fs.c:499-504 | a store into a data block changes those bytes of that file only |
| `SharedOwn.WithSizeKeeps` | xv6-public/fs.c:220-236 | iupdate writes one inode of its block; the others in it, and all files, stay |
| `SharedOwn.FreedDirectKeeps` | xv6-public/fs.c:414-419 | a direct block is freed with its bit set before, and no other file changes |
| `SharedOwn.FreedEntryKeeps` | xv6-public/fs.c:421-428 | an entry is freed, the word staying in the block, which others may take over at once |
| `SharedOwn.FreedIndirectKeeps` | xv6-public/fs.c:429-430 | the indirect block is freed when all entries are |
| `SharedFs.NextKeeps` | xv6-public/fs.c:369-511 | every step of writei and itrunc, whatever other processes do to other files between the steps, keeps blocks owned once, files locked by nobody intact, and each operation on its way; it changes the one block that it logs |
| `SharedEnd.CanGoOn` | xv6-public/fs.c:369-511 | whatever the others have half done, an operation can take its next step, unless that is a balloc on a full disk |
| `SharedEnd.CanStart` | xv6-public/fs.c:482-491 | a free process can take up any file that nobody has: to empty it always, to write exactly if the write starts within the file and ends within MAXFILE blocks |
| `SharedEnd.OwnShortens` | xv6-public/fs.c:369-511 | each step of a writei or itrunc brings it closer to its end |
| `SharedEnd.EndsInTime` | xv6-public/fs.c:369-511 | in every interleaving an operation takes no more steps than it had left at any earlier moment: the others add none |
| `SharedFs.AtRest` | xv6-public/fs.c:369-511 | whenever no operation is under way the file system is sound, and every file has the contents that the finished operations gave it |
| `GroupCommit.NextKeeps` | xv6-public/log.c:125-233 | every step of such operations through the log, of the log itself, and a crash keep: callers see the blocks of the file system as it is, and a crash would leave a sound one |
| `GroupCommit.RunInv` | xv6-public/log.c:125-233 | so in every state of every run |
| `GroupCommit.CrashLeavesFiles` | xv6-public/log.c:125-202 | crash safety for any number of overlapping operations on different files: at every moment a crash leaves a sound file system, whose files are those of one earlier moment with no operation in progress |
| `TwoWriters.TwoWritesOverlap` | xv6-public/file.c:140-145 | a run in which two writes overlap from beginning to end and are committed together, each file with its byte |
| `InodeCache.NextKeeps` | xv6-public/fs.c:194-352 | every interleaving of iget, the store of ialloc, idup, ilock, iunlock and the stages of iput keeps the invariant |
| `InodeCache.RunInv` | xv6-public/fs.c:194-352 | the invariant in every state of every run |
| `InodeCache.CountsAreExact` | xv6-public/fs.c:241-283 | in every run ref is the number of holders, and an inode has at most one cache entry in use |
| `InodeSteps.UserCan` | xv6-public/fs.c:288-339 | exactly when a reference can be locked (nobody has the lock, and ilock finds a type), begun to be put, and copied |
| `InodeSteps.CanGetIff` | xv6-public/fs.c:241-265 | iget can serve a request exactly if the inode is cached or some entry is unused |
| `InodeSteps.CanBePut` | xv6-public/fs.c:288-352 | no deadlock: every run, however far it has gone, can go on until any given reference has been put |
| `InodeLife.LinkedIsSafe` | xv6-public/fs.c:524-546 | an inode with links is safe to get |
| `InodeLife.GetSafeIff` | xv6-public/fs.c:241-312 | through the reference that an iget gives, ilock can never panic for lack of a type, however the run goes on, if and only if at the iget the inode has a type and no iput is past its decision to free it |
| `InodeLife.LockFindsType` | xv6-public/fs.c:309-310 | in every run whose igets are safe, those inside ialloc included, ilock finds a type |
| `InodeLife.LinkedGetsAreSafe` | xv6-public/fs.c:524-546 | a run that outside ialloc gets only linked inodes is such a run: nobody comes between the store of ialloc and its iget |
| `InodeLife.SafeGetStep` | xv6-public/fs.c:204-345 | an inode becomes unsafe to get by a decision of iput to free it, safe again by the store of ialloc, and by nothing else |
| `InodeLife.AllocSafeIff` | xv6-public/fs.c:204-209 | through the reference that ialloc returns ilock can never panic, if and only if since the store no iput decided to free the inode, unless another ialloc took it again after that |
| `InodeLife.AllocatedInodeFreedFirst` | xv6-public/fs.c:204-209 | a run in which the inode is got and freed between the store of ialloc and its iget, and ilock panics |
| `InodeLife.FreedAloneIff` | xv6-public/fs.c:335-345 | an inode is freed with no other holder if and only if nobody got it since the decision of iput, from a directory or in ialloc; whoever does gets an inode with a type and no links |
| `InodeLife.PutFreesIff` | xv6-public/fs.c:335-339 | iput frees the inode if and only if it is valid, has no links and the caller is the only holder |
| `InodeLife.AbandonedIff` | xv6-public/fs.c:331-352 | the drop that takes the count to zero leaves the inode allocated, unlinked, unheld and with no ialloc on its way to it, if and only if the last iput to decide found it so and its entry not loaded or another iput between decision and drop |
| `InodeLife.NoneAbandoned` | xv6-public/fs.c:331-352 | in every run where iputs of one entry do not overlap and an iput of an unlinked inode finds its entry loaded, no inode is ever left so |
| `InodeLife.UnlinkedInodeCanLeak` | xv6-public/fs.c:331-352 | a run of two concurrent iputs after which an unlinked inode is still allocated and nobody holds it |
| `InodeLife.UnlockedAllocLeaks` | xv6-public/fs.c:194-214 | one process that allocates an inode and puts it without locking it does the same |
| `InodeLife.RemovedParentPanics` | xv6-public/fs.c:543 | a run in which an inode is freed, got again through an old directory entry, and ilock panics |
| `InodeLife.FreedUnderHolder` | xv6-public/fs.c:337-343 | a run in which the inode is got between the decision of iput and the freeing |
| `InodeCache.Table.IGet` | xv6-public/fs.c:241-272 | the loop returns the entry of the inode, else the first free one; panics exactly if neither exists |
| `VmSpec.AllocFrame` | xv6-public/kalloc.c:82-95 | a page leaving the free list keeps the partition of physical memory and every address space |
| `VmSpec.FreeFrame` | xv6-public/kalloc.c:59-77 | freeing a page in the kernel's hands keeps the partition and every address space, whatever is stored in it |
| `VmSpec.LinkTable` | xv6-public/vm.c:46-54 | a new page table adds no mapping to any space |
| `VmSpec.WithPteFlat` | xv6-public/vm.c:69-74 | storing one entry changes the flat map at that page of that space only, and no contents |
| `VmSpec.MapUser` | xv6-public/vm.c:71-74 | mapping a page in the kernel's hands at a free user page keeps the partition: no page is mapped twice |
| `VmSpec.Unmap` | xv6-public/vm.c:269-276 | clearing a present entry hands back exactly its page, which is never page 0 |
| `VmSpec.NewSpace` | xv6-public/vm.c:122-126 | a zeroed page is a directory that maps nothing |
| `VmSpec.DropSpace` | xv6-public/vm.c:284-299 | taking a space away hands back exactly its directory, tables and user pages; other spaces keep all |
| `VmSpec.FlatIsTranslated` | xv6-public/mmu.h:74-80 | the flat map is what the processor makes of the two levels: for every 32-bit address the same byte, the same right to write and the same right of users, with the ten and ten bits of PDX and PTX |
| `VmGrow.GrownIsUsable` | xv6-public/vm.c:222-250 | every byte of a page that allocuvm added is the user's to read and write through the page tables, and lies in a zeroed page that was free |
| `VmGrow.GrownFree` | xv6-public/vm.c:222-250 | after growing, the pages missing from the free list are exactly the new user pages and new tables |
| `VmGrow.RestoredFree` | xv6-public/vm.c:234-246 | after a growth that failed, only new tables are missing from the free list |
| `VmGrow.SameFree` | xv6-public/vm.c:316-346 | the same spaces and the same pages held mean the same free pages |
| `VmSpace.KernelWhole` | xv6-public/vm.c:106-116 | the four segments of kmap give the kernel half: physical memory from KERNBASE, read-only up to data, and the devices |
| `VmSpace.KernelIsPrivate` | xv6-public/vm.c:106-116 | with the kernel half mapped, every address from KERNBASE on leads to the physical byte or the device it should, with the right to write exactly outside the kernel's text, and never for users |
| `VmSpace.SegmentVacant` | xv6-public/vm.c:106-116 | no two segments overlap, so setupkvm never panics with remap |
| `VmSpace.LeftBehindIff` | xv6-public/vm.c:284-299 | freevm leaves no page behind if and only if nothing is mapped from MIN_ADDR to KERNBASE |
| `VmSpace.OnePageLeftBehind` | xv6-public/vm.c:291 | a space with one page at MIN_ADDR, which freevm leaves behind |
| `Vm.ListPush` | xv6-public/kalloc.c:72-74 | a page pushed on the list threaded through the free pages |
| `Vm.ListPop` | xv6-public/kalloc.c:89-91 | a page popped from it leaves a list of exactly the others |
| `Vm.Kernel.constructor` | xv6-public/kalloc.c:31-37 | before kinit: the partition with no free page and no space |
| `Vm.Kernel.FreeRange` | xv6-public/kalloc.c:46-53 | the loop frees exactly the pages of the range |
| `Vm.Kernel.KAlloc` | xv6-public/kalloc.c:82-95 | a page that was free, 0 exactly if none was; nothing else changes |
| `Vm.Kernel.KFree` | xv6-public/kalloc.c:59-77 | the page becomes free; no space changes |
| `Vm.Kernel.Walk` | xv6-public/vm.c:35-56 | the table for the page; with alloc it fails only without a free page; no mapping, no other space and no page in the kernel's hands changes |
| `Vm.Kernel.MapPages` | xv6-public/vm.c:60-81 | the covered pages map consecutive frames and nothing else changes; on failure the same holds for the first pages, and memory is exhausted |
| `Vm.Kernel.DeallocUvm` | xv6-public/vm.c:256-280 | exactly the pages between the rounded sizes are unmapped and exactly their frames become free, also across the skips over missing tables; other pages and spaces keep entries and contents |
| `Vm.Kernel.AllocUvm` | xv6-public/vm.c:222-250 | success adds zeroed user pages in frames that were free; failure restores the map; sizes out of order or beyond KERNBASE change nothing; the free pages are accounted for exactly |
| `Vm.Kernel.FreeVm` | xv6-public/vm.c:284-299 | directory, tables and the pages below MIN_ADDR become free, pages from MIN_ADDR on do not; other spaces keep all |
| `Vm.Kernel.SetupKvm` | xv6-public/vm.c:118-137 | a new space with exactly the kernel half, or failure with the same free pages as before |
| `Vm.Kernel.CopyUvm` | xv6-public/vm.c:316-346 | the copy has the same contents and flags in frames that were free, and the kernel half; the original and all other spaces are untouched; failure loses exactly one frame for each page copied from MIN_ADDR on, and gives back all others |
| `VmBytes.StoredBytes` | xv6-public/vm.c:380 | bytes laid over a user page show at those addresses of that space, and nowhere else in the user memory of any space |
| `Vm.Kernel.FrameForUser` | xv6-public/vm.c:349-361 | the frame of the page if the entry is present and open to users, else 0 |
| `Vm.Kernel.CopyOut` | xv6-public/vm.c:363-387 | the loop over pages delivers exactly the bytes up to the first page that users may not touch: read through the page tables they are at va of that space, every other user byte of every space is as before; succeeds exactly if all of them arrive |
| `ProcProofs.OrphanPasses` | xv6-public/proc.c:518-525 | the loop of exit gives every child to init, and wakes init if and only if one of them is a zombie |
| `ProcProofs.ExitEntries` | xv6-public/proc.c:513-542 | entry by entry what exit leaves: who is a zombie, whose parent changed, and exactly who was woken |
| `ProcProofs.AllocKeeps` | xv6-public/proc.c:74-93 | a new process keeps the table in order, with a pid never used before |
| `ProcProofs.ExitKeeps` | xv6-public/proc.c:513-542 | exit keeps the table in order; no parent sleeps in wait with a zombie child |
| `ProcProofs.WaitKeeps` | xv6-public/proc.c:547-587 | wait keeps the table in order in all three outcomes |
| `ProcProofs.KillKeeps` | xv6-public/proc.c:754-772 | kill keeps the table in order |
| `ProcProofs.WakeupKeeps` | xv6-public/proc.c:732-749 | wakeup keeps the table in order |
| `ProcProofs.ScheduleKeeps` | xv6-public/proc.c:608-620 | a runnable process goes to exactly one CPU |
| `ProcProofs.NextKeeps` | xv6-public/proc.c:74-772 | every critical section keeps the table in order: running means on exactly one CPU, live pids differ and are not reaped, parents live, no missed exit |
| `ProcProofs.RunInv` | xv6-public/proc.c:74-772 | the table is in order in every state of every run |
| `ProcProofs.PidReturnedOnce` | xv6-public/proc.c:557-571 | wait returns a pid that it never returned before |
| `ProcProofs.ReapedStays` | xv6-public/proc.c:557-571 | a pid once returned stays used up |
| `ProcLife.WaitAnswers` | xv6-public/proc.c:547-587 | wait returns the pid of a zombie child if there is one, fails exactly without children or when killed, and sleeps otherwise, that is exactly with a live child, no zombie child and no kill |
| `ProcLife.FactStep` | xv6-public/proc.c:74-772 | for every fact about an entry (in use, embryo, its pid, its parent, on which CPU, asleep on which channel, killed, zombie) the steps that make it true and the steps that make it false, and no others: a sleeper leaves its sleep exactly by a wakeup of its channel, a kill that finds it, or an exit that wakes it |
| `ProcLife.HistoryIff` | xv6-public/proc.c:74-772 | over whole runs: a fact holds exactly if some earlier step made it true and none since has ended it; of a sleeper on a channel, that no wakeup of the channel and no kill of it came since |
| `ProcLife.KilledIsAwake` | xv6-public/proc.c:754-772 | right after a kill the process found sleeps on no channel |
| `ProcLife.ReapedIsGone` | xv6-public/proc.c:557-571 | in every state of every run no entry, whatever its state, has a pid that wait has returned, and no two have the same one |
| `ProcLife.RunnerCan` | xv6-public/proc.c:513-690 | a process on any CPU can yield, sleep and wait, and exit exactly if it is not init |
| `ProcLife.BornKilledIff` | xv6-public/proc.c:89-91 | a new process starts out killed if and only if some kill found its entry earlier and no wait has freed the entry since |
| `ProcLife.KillZeroHitsUnused` | xv6-public/proc.c:760-768 | what kill(0) finds is an unused entry |
| `ProcLife.KillZeroKillsNext` | xv6-public/proc.c:760-768 | init, a kill(0), and a new process that is killed |
| `ProcLife.LifeOfAChild` | xv6-public/proc.c:74-772 | a run through fork, scheduling, exit, and the wait that returns the pid of the child |
| `Proc.PTable.AllocProc` | xv6-public/proc.c:74-93 | the loop takes the first unused entry; fails exactly if there is none |
| `Proc.PTable.Wakeup1` | xv6-public/proc.c:732-740 | the loop wakes exactly the sleepers on the channel |
| `Proc.PTable.PassChildren` | xv6-public/proc.c:518-525 | the loop over the table, with its wakeups, as specified |
| `Proc.PTable.Exit` | xv6-public/proc.c:513-541 | the critical section of exit as specified |
| `Proc.PTable.WaitOnce` | xv6-public/proc.c:553-585 | one round of wait: reaps the first zombie child, or reports none, or sleeps |
| `Proc.PTable.Kill` | xv6-public/proc.c:754-772 | marks the first entry with the pid and wakes it from sleep; fails exactly if there is none |
| `Proc.PTable.PickFrom` | xv6-public/proc.c:608-615 | the scheduler's loop picks the next runnable entry and no other |
| `SleepLock.StepKeeps` | xv6-public/sleeplock.c:22-42 | every acquire, release, sleep and wakeup step of any process keeps the invariant |
| `SleepLock.RunInv` | xv6-public/sleeplock.c:22-42 | the invariant in every state of every run |
| `SleepLock.NoLostWakeup` | xv6-public/proc.c:692-727 | with the lock free nobody is asleep on it or committed to falling asleep |
| `SleepLock.CanGetIt` | xv6-public/sleeplock.c:22-42 | no deadlock: every run, however far it has gone, can go on until any given process holds the lock |
| `SleepLock.AsleepIff` | xv6-public/proc.c:692-772 | after a step a process is asleep on the lock exactly if the step is the end of its sleep(), or it was asleep and the step is no wakeup of the lock and no kill of it |
| `SleepLock.MutualExclusion` | xv6-public/sleeplock.c:44-53 | at most one process holds the lock, and holdingsleep knows which |
| `Pipe.CounterTests` | xv6-public/pipe.c:85-106 | with counters that wrap at 2^32 the two tests mean exactly empty and full |
| `Pipe.Push` | xv6-public/pipe.c:93 | storing a byte at nwrite appends it to the queue, across both wraps |
| `Pipe.Pop` | xv6-public/pipe.c:116 | the byte at nread is the oldest, and dropping it leaves the rest |
| `Pipe.Ring.constructor` | xv6-public/pipe.c:31-37 | a new pipe is empty with both ends open |
| `Pipe.Ring.Write` | xv6-public/pipe.c:78-98 | pipewrite up to its return or sleep: appends what fits, and reports exactly why it stops |
| `Pipe.Ring.Read` | xv6-public/pipe.c:100-121 | piperead up to its return or sleep: takes the oldest bytes in order, and reports exactly why it stops |
| `Pipe.Ring.CloseEnd` | xv6-public/pipe.c:59-69 | closes one end and wakes the other side |
| `Pipe.Fifo` | xv6-public/pipe.c:78-121 | in every run the bytes written are the bytes read followed by the bytes in the pipe: none lost, doubled or reordered |
| `Pipe.ReadMoves` | xv6-public/pipe.c:100-121 | a read that neither sleeps nor fails hands out the next bytes that were written, exactly as many as were asked for or are unread; one that sleeps or fails hands out none |
| `Pipe.ReadAnswers` | xv6-public/pipe.c:105-111 | a read sleeps exactly if all written bytes are read, the write end is open and the reader is not killed, and fails exactly if it is killed then; asking for bytes and getting none means all are read and the write end is closed |
| `Pipe.WriteMoves` | xv6-public/pipe.c:78-98 | a write adds the bytes that fit to what was written; it ends exactly with all of them in, fails exactly on a closed read end or a kill, and sleeps otherwise |
| `Pipe.HistoryIff` | xv6-public/pipe.c:59-121 | over whole runs: an end is open, or a process asleep on a side, exactly if some earlier call made it so and none since, nor a wakeup or kill, has ended it |
| `Pipe.LosesWakeupIff` | xv6-public/pipe.c:86-89 | a step leaves a reader asleep beside data, or a writer beside room or a closed end, exactly if a killed writer leaves a full pipe without its wakeup |
| `Pipe.NobodySleepsOn` | xv6-public/pipe.c:78-121 | in every run, as long as that has not happened, nobody sleeps while there is something to do |
| `Pipe.KilledWriterForgetsReader` | xv6-public/pipe.c:86-89 | a run in which a reader sleeps beside a full pipe |
| `WmapSpec.MapKeepsIff` | xv6-public/sysfile.c:660-695 | a mapping without fixed address goes behind the last one and keeps the table sorted, aligned and disjoint exactly if it ends within MAX_ADDR |
| `WmapSpec.UnmapKeeps` | xv6-public/sysfile.c:548-598 | dropping a reference or a mapping keeps the table good |
| `WmapSpec.MapDoes` | xv6-public/sysfile.c:617-704 | a mapping that succeeds adds one block, at the address that is returned, with the length, flags and file of the caller; the others stay as they are and in order; it fails exactly for a length below one or a full table |
| `WmapSpec.UnmapDoes` | xv6-public/sysfile.c:548-598 | with one reference the block at the address goes, with more its count drops by one; all other blocks stay as they are and in order; it fails exactly for an unaligned address or one where no block starts |
| `WmapSpec.MapThenUnmap` | xv6-public/sysfile.c:617-775 | unmapping what a mapping has just returned gives the table of before |
| `WmapSpec.RemapMoves` | xv6-public/sysfile.c:851-893 | a resize that moves the block takes it from its old address, adds one with the new size and its old flags and file behind the others, and leaves those alone |
| `WmapSpec.RemapFailsIff` | xv6-public/sysfile.c:784-893 | exactly when a resize is refused |
| `WmapSpec.RemapInPlace` | xv6-public/sysfile.c:819-844 | removing a block and inserting it again at its address replaces it where it was, or puts it behind the old one if that has other references |
| `WmapSpec.RemapKeepsIff` | xv6-public/sysfile.c:818-893 | a failed resize changes nothing; one that succeeds, wrapping of addresses included, keeps the table good if and only if the size is from 1 to the largest that can be rounded, the block has one reference and does not move |
| `WmapSpec.ResizedInPlaceIff` | xv6-public/sysfile.c:818-846 | a resize with which the block overlaps nothing succeeds in place if and only if the block does not end exactly where its neighbour starts |
| `WmapSpec.TouchingNeighbour` | xv6-public/sysfile.c:818-893 | a block whose neighbour starts where it ends, resized to its own size: refused without the flag, moved with it, and then the table is not good |
| `WmapSpec.OwnSizeRefused` | xv6-public/sysfile.c:818-893 | two adjacent mappings of a page where this happens |
| `WmapSpec.MovedIsShort` | xv6-public/sysfile.c:851-883 | a block that moves ends one byte early, so the next address is not page-aligned |
| `WmapSpec.NeighbourMoves` | xv6-public/sysfile.c:818-893 | two adjacent mappings, the first of which moves |
| `WmapSpec.LeftmostIff` | xv6-public/sysfile.c:667-689 | the address chosen is the leftmost that fits if and only if no gap between mappings is large enough |
| `WmapSpec.GapIgnored` | xv6-public/sysfile.c:667-689 | a table with a gap of two pages where a one-page mapping goes to the end |
| `WmapSpec.RunGood` | xv6-public/sysfile.c:456-848 | in every run of maps, unmaps and in-place resizes that respects the limits: sorted, aligned, disjoint, within MIN_ADDR and MAX_ADDR |
| `Wmap.Table.constructor` | xv6-public/proc.c:121-150 | an empty table, with wmapinfo in agreement |
| `Wmap.Table.InsertMapping` | xv6-public/sysfile.c:456-537 | the right shift in place inserts the block in order of start, in the blocks and in wmapinfo alike; fails exactly on a full table |
| `Wmap.Table.RemoveMapping` | xv6-public/sysfile.c:542-598 | drops a reference; with the last one the left shift closes the gap in blocks and wmapinfo; the table keeps its shape if and only if it was not full, or the last slot goes, or references are left |
| `Wmap.FullTableLosesShape` | xv6-public/sysfile.c:579-594 | sixteen mappings: removing any but the last breaks the table |
| `Wmap.Table.FindAddr` | xv6-public/sysfile.c:667-689 | the loop ends with the address behind the last mapping |
| `Wmap.Table.Map` | xv6-public/sysfile.c:617-704 | wmap without MAP_FIXED as specified, failures included |
| `Wmap.Table.Unmap` | xv6-public/sysfile.c:711-775 | wunmap's effect on the table as specified: fails exactly for an unaligned address or one where no mapping starts |
| `Wmap.Table.Remap` | xv6-public/sysfile.c:784-893 | wremap's effect on the table as specified, in all its branches |
| `HeapList.ReplacedCircle` | xv6-public/umalloc.c:33-42 | replacing a stretch of the free list by one merged or cut block keeps a circle in address order without adjacent blocks |
| `HeapList.ReplacedCovers` | xv6-public/umalloc.c:33-42 | and covers exactly the units of the rest and of the new block |
| `Umalloc.PlaceExists` | xv6-public/umalloc.c:30-32 | there is always a place for a block between two neighbours or around the wrap |
| `Umalloc.Heap.constructor` | xv6-public/umalloc.c:21-22 | an empty heap |
| `Umalloc.Heap.FindPlace` | xv6-public/umalloc.c:30-32 | the loop of free finds the place, from wherever freep points, and terminates |
| `Umalloc.Heap.PutBack` | xv6-public/umalloc.c:29-43 | after linking and merging on either side exactly the units of the block are free in addition |
| `Umalloc.Heap.Free` | xv6-public/umalloc.c:24-44 | the units of one live block become free; live and free blocks still partition all memory obtained; no two free blocks touch |
| `Umalloc.Heap.MoreCore` | xv6-public/umalloc.c:46-61 | the units asked for join the free list; fails exactly if sbrk does, out of memory or taking all of it away; they are memory of the process if and only if the product is below 2^31 |
| `Umalloc.SuppliedIff` | xv6-public/proc.c:195-213 | sbrk supplies the units asked for if and only if the 32-bit product is a positive int; otherwise it supplies none, and may take some away |
| `Umalloc.SbrkAskedFor` | xv6-public/umalloc.c:46-54 | sbrk is asked for 32 KB on behalf of every small request, and otherwise for the request and one header in whole units |
| `Umalloc.RequestThatVanishes` | xv6-public/proc.c:205-207 | a request whose argument of sbrk is minus the size of a process of 64 KB |
| `Umalloc.VanishTakesAll` | xv6-public/proc.c:205-207 | the shrink to size zero leaves the process nothing |
| `Umalloc.Heap.Take` | xv6-public/umalloc.c:75-84 | cutting the tail or unlinking the block gives exactly the units asked for |
| `Umalloc.Heap.Malloc` | xv6-public/umalloc.c:63-90 | a block apart from all live ones with the units asked for; fails exactly if nothing fits and sbrk refuses; asks sbrk at most once; the block is memory of the process and holds the bytes asked for, if and only if the rounding does not wrap and a free block fitted or the argument of sbrk is positive |
| `Umalloc.CapacityIff` | xv6-public/umalloc.c:69 | the units asked for hold the bytes if and only if the rounding does not wrap at 2^32 |
| `Umalloc.TwoGigabytes` | xv6-public/umalloc.c:54 | a request of 2 GB passes sbrk a negative number |
| `ShellSyntax.LexKeepsAll` | xv6-public/sh.c:265-308 | the tokens of a line are all of it but its blanks |
| `ShellSyntax.TokenIsFirst` | xv6-public/sh.c:265-308 | gettoken takes the first token of the rest of the line and leaves the others, `>>` and the end of the line included |
| `ShellSyntax.AcceptsIff` | xv6-public/sh.c:327-446 | a line is accepted with a command as its result if and only if the grammar derives exactly its tokens with that command as their meaning: no word, file or operator is lost, added or moved, redirections nest in their order, and nothing the grammar allows is refused |
| `ShellSyntax.Unambiguous` | xv6-public/sh.c:327-446 | two trees with the same tokens mean the same command |
| `ShellSyntax.BlanksDoNotMatter` | xv6-public/sh.c:310-342 | lines with the same tokens are accepted alike, with the same result |
| `ShellRoundTrip.LineReads` | xv6-public/sh.c:344-359 | the printed form of any readable tree, followed by anything that ends a line, parses to that tree and leaves the rest |
| `ShellRoundTrip.RoundTrip` | xv6-public/sh.c:327-342 | parsing the printed form gives the tree back |
| `ShellRoundTrip.LineIsReadable` | xv6-public/sh.c:344-446 | whatever the parser accepts is a readable tree: plain words for arguments and files, fewer than MAXARGS arguments |
| `ShellRoundTrip.AcceptedReadsBack` | xv6-public/sh.c:327-446 | for every line that is accepted, printing and parsing again gives the same result |
| `Shell.SkipBlanks` | xv6-public/sh.c:272-273 | skips exactly the blanks |
| `Shell.WordEnd` | xv6-public/sh.c:297-298 | the end of the longest word |
| `Shell.NextToken` | xv6-public/sh.c:265-308 | the token as specified, `>>` included, with its place in the line |
| `Shell.PeekAt` | xv6-public/sh.c:310-320 | skips blanks and tests the next character |
| `Shell.RedirLoop` | xv6-public/sh.c:374-397 | the loop collects the redirections, or reports a missing file name |
| `Shell.ArgLoop` | xv6-public/sh.c:429-445 | the loop collects arguments and redirections with all its error cases |
| `Shell.ParseExecAt` | xv6-public/sh.c:415-446 | the command or block at the position, as specified |
| `Shell.ParseBlockAt` | xv6-public/sh.c:399-413 | the parenthesised line with its redirections, as specified |
| `Shell.ParsePipeAt` | xv6-public/sh.c:361-372 | the pipeline, right-nested, as specified |
| `Shell.ParseLineAt` | xv6-public/sh.c:344-359 | the line with & and ;, as specified; termination of the whole recursion |
| `Shell.ParseCommand` | xv6-public/sh.c:327-342 | the whole line or an error for leftovers, as specified |
| `Regex.HereIsFront` | xv6-public/grep.c:85-96 | matchhere holds if and only if some prefix of the text is in the language of the pattern |
| `Regex.StarIsFront` | xv6-public/grep.c:98-106 | matchstar holds if and only if repetitions of c followed by the rest match a prefix |
| `Regex.AnywhereIsOccurs` | xv6-public/grep.c:77-80 | the loop over start positions finds an occurrence if and only if there is one |
| `Regex.MatchIsMeaning` | xv6-public/grep.c:72-82 | match holds if and only if the text has an occurrence of the pattern where its anchors allow it |
| `Regex.MatchStarLoop` | xv6-public/grep.c:98-106 | the loop of matchstar |
| `Regex.MatchLoop` | xv6-public/grep.c:72-82 | the loop of match decides the meaning of the pattern |

## Left out

- Directories, path names, ialloc and link counts in directory entries: long, but each is a scan over file contents that are proved here.
- Device inodes (T_DEV) in readi and writei, and the console.
- exec, traps, system-call arguments, timer and IDE drivers, boot code and the assembly of context switches: they act on hardware state that has no counterpart here.
- Spinlocks and interrupt state (spinlock.c, pushcli): critical sections are taken as indivisible, as the locks are there to make them; sleep-locks are modelled step by step.
- The file system uses the map from blocks to contents that the cache provides; running out of buffers is treated for commits only.
- CachedLog.NextKeeps: a store into a locked buffer and the log_write or bwrite that follows it are one step; a read that panics ends a run.
- CrashSafety.ServedSound: operations are writei and itrunc; changes of link counts and types are not among them. That the logged writes make up whole operations is part of what it means to serve; SerialRuns proves it for operations one at a time, and GroupCommit has the theorem for overlapping ones.
- CrashSafety.CrashLeavesSound: the same holds.
- SerialRuns.SerialServes: operations one at a time; for overlapping ones see GroupCommit.CrashLeavesFiles.
- SerialRuns.SerialCrashSafe: the same holds.
- SerialRuns.WriteOperation: assumes a file without holes, which writei never makes.
- SerialRuns.ChunkToDisk: one map block, and a file without holes.
- SharedFs.NextKeeps: a change of a locked inode in memory is taken together with the log_write next to it; balloc may take any free block, not only the lowest; readi changes nothing and is left out; running out of blocks, a panic, ends a run.
- EmptyDisk.FormattedIsSound: without the root directory and the files that mkfs also makes.
- sys_wmap with MAP_FIXED, the page-fault handler, what fork and exit do with mappings, and the loaded-page counters of wmapinfo: the counters are approximate and have no invariant.
- nulterminate in the shell: the model keeps words as strings instead of pointers into the line. Running commands is left out.
- The readers of grep's input and the other user programs.
- FileWrite.ChunkFits: assumes a free map of one block, which holds for FSSIZE; each further map block could add one block to a transaction.
- FileSystem.FileSystem.ReadI: assumes a file without holes, which writei never makes; on a hole the source would allocate a block while reading.
- FileWrite.File.FileWrite: files that are not writable and pipes are separate cases of the source; the conversion of the count to int is not modelled.
- Vm.Kernel.MapPages: the physical address is page-aligned, as all callers have it; the panic for a page that is already mapped is a precondition.
- Vm.Kernel.DeallocUvm: clears an entry before it frees the page, the source the other way round; the two stores go to different pages. The old size is at most KERNBASE.
- Vm.Kernel.CopyUvm: the panics for missing pages of the original are preconditions, and are shown not to fire.
- Vm.Kernel.CopyOut: addresses below KERNBASE; a missing page table, where uva2ka follows the null pointer that walkpgdir returns, is excluded by a precondition.
- Vm.Kernel.FrameForUser: the same holds.
- Vm.Kernel.KFree: the panic for addresses outside the managed pages is a precondition; no method here can run into it.
- Umalloc.Heap.Malloc: addresses count in header units; what sbrk answers is a parameter, an address above all memory granted before. A block without memory behind it may end beyond 2^32, where the pointers of the source would wrap, and a process that touches it is stopped; neither is modelled.
- Umalloc.Heap.Free: only for blocks that malloc returned, as the source demands.
- ProcProofs.NextKeeps: pids are unbounded, the int counter of the source would wrap; fork's copying of files, names and mappings, and the memory of a process, are not part of the table.
- Proc.PTable.AllocProc: ends where ptable.lock is released; the failure of kalloc for the stack is a step of its own in the machine.
- Proc.PTable.Exit: the freeing of mappings and user memory between the loops is left out.
- InodeCache.NextKeeps: a panic ends a run; the scan of ialloc for a free inode is any choice of one; contents are reduced to type and link count; itrunc inside iput is proved in FileSystem.
- SleepLock.StepKeeps: one lock at a time; the owner's pid is the index of the process.
- Pipe.Ring.CloseEnd: freeing the page of the pipe when both ends are closed is left out.
- Wmap.Table.Map: lengths above 0x7FFFF000, where rounding up overflows an int, are excluded.
- InodeCache.Table.IGet: one device.
- BufferCache.BCache.BGet: one device, and block numbers on the disk.
- BufferCache.BCache.IdeRw: the panics for an unlocked buffer and for nothing to do are preconditions.
- BufferCache.BCache.BRead: a buffer that another process has locked makes the caller sleep first; that wait is not part of the method.
- BufferCache.BCache.BWrite: the panic for an unlocked buffer is a precondition.
- FileSystem.FileSystem.BMap: the panic for a block number beyond MAXFILE is a precondition; readi and writei never reach it.
- FileSystem.FileSystem.WriteI: assumes a file without holes, which writei never makes, and no device inode.
- FileWrite.File.WriteChunk: one map block, and no device inode.
- Vm.Kernel.AllocUvm: the panic for a page that is already mapped is a precondition.
- ProcProofs.RunInv: pids are unbounded here too.
- ProcProofs.PidReturnedOnce: pids are unbounded here too.
- WmapSpec.RunGood: the runs are those of the calls that are proved to keep the table good; moves, shared blocks and full tables are excluded because they break it.
- Shell.ParseCommand: words are strings, so that the final NUL-termination has no counterpart.
- Log.Log.EndOp: one caller at a time; the wakeups are in LogSystem.
- Vm.Kernel.FreeRange: the range is given in whole pages.
- Proc.PTable.WaitOnce: freeing the stack and the page directory is left out; FreeVm has the latter.
- Wmap.Table.constructor: without the loaded-page counters; the same holds of the methods that shift slots.
- Wmap.Table.Unmap: writing back file mappings and unmapping pages are left out; a full table is excluded, since RemoveMapping can break it.
- Wmap.Table.Remap: sizes above 0x7FFFF000 and a full table, for which the source reads past its array, are excluded.
- Wmap.Table.InsertMapping: a block is copied in one piece where the source copies field by field.
