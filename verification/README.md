# xv6 kernel core: a Dafny model

A Dafny model of the stateful parts of an xv6-riscv kernel that has a multi-level feedback
scheduler, demand paging with clock replacement and swap, a simulated RAID under swap, and a
prioritised disk queue; and of two user-level algorithms, the memory allocator and grep's matcher.

| file | models |
|---|---|
| `Common.dfy` | what several modules share |
| `Log.dfy` | the write-ahead log: commit, crash, recovery, reservations |
| `Cache.dfy`, `CacheSteps.dfy` | the buffer cache: one buffer per block, reference counts, pins, the LRU list; its steps against a plain block map, with any number of buffers held and any number of processes waiting for them |
| `CacheCommit.dfy`, `CacheRuns.dfy` | commit done through the cache; histories of cache steps and commits; the crash theorem for a commit through the cache; the history that fills the log and cannot commit |
| `FileStore.dfy`, `FileContents.dfy`, `FileSystem.dfy` | block allocation, block maps, reads, writes, truncation, copies from and to user memory that fail |
| `FileCalls.dfy`, `FileRuns.dfy`, `CrowdedDisk.dfy` | the chunked write call, histories of file operations, the fullest transaction |
| `Raid.dfy`, `SwapSpace.dfy` | the four RAID modes, parity, mirrors, degraded reads; swap slots on the array |
| `Paging.dfy`, `Clock.dfy`, `Vm.dfy` | page-table entries, frames, swap slots, victim choice, page faults, fork |
| `VmRuns.dfy` | histories of loads, stores, forks, unmappings and disk failures against a plain memory |
| `Malloc.dfy` | the K&R allocator's circular free list (section 8.7 of The C Programming Language, 2nd edition) |
| `Scheduler.dfy` | level selection, round robin, tick accounting, boosts |
| `ExitWait.dfy` | fork, exit, wait, sleep and wakeup as an interleaving protocol |
| `DiskQueue.dfy`, `DiskProtocol.dfy` | request selection and its histories, the single-active discipline, descriptors (section 2.6 of VIRTIO 1.1) |
| `Pipe.dfy` | the ring buffer with wrapping 32-bit counters |
| `Grep.dfy` | the regular-expression matcher |

Code that updates objects in place is a class whose methods are proved against functions or
predicates on a snapshot of its fields (`S()`, `C()`, `Abs()`); protocols between processes are
state machines whose events are the steps between two releases of a lock. A panic of the kernel is
a result of the method (`panicked`, `Dead`, `Panicked`, `Halt`) with the exact condition for it, or, where
the kernel never reaches it, a precondition that every caller establishes.

How the modelling choices read:

- A block write is atomic; a crash falls between two block writes and loses all memory.
- In the log a block is a sequence of words, in the RAID a sequence of bits, in the file layer a
  sequence of bytes. The free bitmap and the on-disk inodes are fields of their own; that their
  bits and records lie in blocks is kept in the block numbers that go to the log.
- Swap in `Vm.dfy` goes through the disk array of `Raid.dfy`, in any of its modes; one disk may fail
  at any time, except in mode 0, where that loses pages.
- `raid_write_page` and `raid_read_page` are modelled as they are defined, with the failed disk as
  a fourth parameter (kernel/raid.c:32, kernel/raid.c:160); the callers pass three arguments.
- `need` in the paging methods is how many page-table pages `walk` has to allocate.
- The disk queue's links are taken to change only under `vdisk_lock`; `bget` also clears `qnext`
  without it (kernel/bio.c:71, kernel/bio.c:88).
- How many bytes can be copied from or to user memory is a parameter of the file and pipe calls; a
  copy that fails has copied the bytes before. In the file layer those bytes stay in the buffer of a
  block that is not logged, so a write can change a byte that it does not report
  (`FileRuns.TornWrite`).
- `kfork` holds `np->lock` from `allocproc` until after `uvmcopy` (kernel/proc.c:302-330). A disk
  transfer that sleeps under it panics in `sched` (kernel/proc.c:606). The statements about fork are
  for transfers that do not sleep.
- A process that waits in `bget` for a buffer somebody holds has its reference already
  (kernel/bio.c:68-73): finding the buffer and entering it are two steps.
- A load or store is of a whole page at once.
- Where the code does less than it seems to, the code is followed: `log_write` absorbs repeated
  writes of a block, but tests the size guard first (`WriteAheadLog.GuardRejectsAbsorption`); the
  log fills up to as many blocks as there are buffers, and then a commit finds no buffer for the
  log's own blocks and panics (the history in `CacheRuns.FullLogPanics`, the exact condition in
  `CacheCommit.Commit`); `malloc` of two gigabytes or more asks sbrk for less than it uses
  (`Malloc.AreaFitsIff`).
- The disk queue serves the lowest level first on every disk (`DiskQueue.LowestLevelFirst`). The
  types alone would not give that: at the end of the range of unsigned ints a request can be passed
  over (`DiskQueue.LevelPassedOver`, exact condition in `DiskQueue.ChoiceRespectsLevels`).

## Model

| member | source | states |
|---|---|---|
| `WriteAheadLog.HeadRoundTrip` | kernel/log.c:88-115 | the header block holds the number of logged blocks and after it their numbers in order, and that list is read back from it |
| `WriteAheadLog.CrashWhileCopying` | kernel/log.c:180-204 | a crash before the header write leaves a disk that stands for the old home blocks |
| `WriteAheadLog.CrashWhileInstalling` | kernel/log.c:67-84 | a crash after the header write, at any point of the installation, leaves a disk that stands for the new home blocks |
| `WriteAheadLog.CommitCompletes` | kernel/log.c:195-204 | a commit that completes leaves the new home blocks installed and an empty header |
| `WriteAheadLog.CommitIsAtomic` | kernel/log.c:66-204 | for every number of completed block writes of a commit the disk stands for all old or all new home blocks, new exactly when the header write is among them |
| `WriteAheadLog.RecoverStepKeeps` | kernel/log.c:67-124 | any prefix of the writes of a recovery keeps what the disk stands for, and the whole recovery installs it and empties the header |
| `WriteAheadLog.RecoveryIsIdempotent` | kernel/log.c:118-124 | however many recoveries crash, and wherever, the one that completes restores exactly the durable home blocks |
| `WriteAheadLog.CommitCrashRecover` | kernel/log.c:66-204 | a crash between any two block writes of a commit, any number of crashed recoveries and a complete one leave the home blocks all old or all new, all new exactly when the committing header write reached the disk |
| `WriteAheadLog.SizeGuard` | kernel/log.c:216-236 | the size guard cannot fire for an operation that has reservation left; when it fires every outstanding operation has used its whole reservation |
| `WriteAheadLog.LogWriteRefines` | kernel/log.c:216-236 | log_write changes one block of the transaction's block map and nothing durable |
| `WriteAheadLog.CommitRefines` | kernel/log.c:195-204 | a commit makes the current block map the durable one |
| `WriteAheadLog.CrashRefines` | kernel/log.c:54-124 | a crash and recovery return to the durable map, or to the new one exactly if the header write was done |
| `WriteAheadLog.StepRefines` | kernel/log.c:127-236 | every step of begin_op, log_write, end_op, commit, crash and recovery is a step of a block map with atomic durable transactions |
| `WriteAheadLog.RunRefines` | kernel/log.c:127-236 | in every interleaving of those steps the log is such a block map, logged blocks plus unused reservations fit the log, and committing excludes outstanding operations |
| `WriteAheadLog.ViewStep` | kernel/log.c:127-236 | without a crash a block outside the log reads differently only after log_write to it, and then as the data logged; the disk has what was logged exactly when it is committed |
| `WriteAheadLog.CrashStep` | kernel/log.c:54-124 | after a crash every block reads as on disk, or, if the header write of a commit was done, every block reads as in the transaction |
| `WriteAheadLog.LoggedIsRead` | kernel/log.c:206-236 | in every run without a crash a block reads as it was last logged |
| `WriteAheadLog.CommittedStays` | kernel/log.c:195-204 | a committed block keeps its contents through every run, with crashes anywhere in it, until it is logged again |
| `WriteAheadLog.Durability` | kernel/log.c:127-236 | data logged and then committed are read after every later run, whatever crashes it has, until the block is logged again |
| `WriteAheadLog.CommitMakesRoom` | kernel/log.c:128-176 | after a commit the log is empty and open, and the next begin_op is admitted |
| `WriteAheadLog.GuardRejectsAbsorption` | kernel/log.c:216-236 | a history of three operations after which the guard rejects a write to a block that is already in the log |
| `WriteAheadLog.Log.constructor` | kernel/log.c:53-63 | at boot what was committed is installed, with exactly the recovery's writes; the log is then empty and open and satisfies the invariant of all runs |
| `WriteAheadLog.Log.WriteLog` | kernel/log.c:180-192 | issues the copies of all logged blocks to the log area, in order |
| `WriteAheadLog.Log.WriteHead` | kernel/log.c:104-115 | one write of the header block that encodes the in-memory list |
| `WriteAheadLog.Log.InstallTrans` | kernel/log.c:67-84 | issues the writes of each log block to its home block, in order |
| `WriteAheadLog.Log.CommitTrans` | kernel/log.c:195-204 | issues exactly the write sequence of the crash theorems and is the commit step of the state machine |
| `WriteAheadLog.Log.ReadHead` | kernel/log.c:88-98 | the in-memory list becomes the list in the header block |
| `WriteAheadLog.Log.RecoverFromLog` | kernel/log.c:118-124 | issues exactly the recovery's write sequence and leaves memory and disk equal with an empty list |
| `WriteAheadLog.Log.TryBeginOp` | kernel/log.c:128-143 | admits the operation exactly when no commit is going on and the blocks logged plus ten for it and for each outstanding operation are at most thirty |
| `WriteAheadLog.Log.WriteBlock` | kernel/log.c:216-236 | panics exactly when the list is full; otherwise it is the log_write step, with absorption |
| `WriteAheadLog.Log.FinishOp` | kernel/log.c:148-176 | the last operation out, and only it, must commit |
| `BufferCache.RecycleKeeps` | kernel/bio.c:80-92 | giving an unreferenced buffer to a new block keeps one buffer per block and loses no unwritten data, since such a buffer is not pinned |
| `BufferCache.FillKeeps` | kernel/bio.c:99-109 | filling a buffer from disk gives what the plain block map says |
| `BufferCache.ChangeKeeps` | kernel/log.c:206-214 | a holder's change keeps cache, disk and block map in agreement |
| `BufferCache.WriteBackKeeps` | kernel/bio.c:113-118 | writing a buffer to disk keeps them in agreement |
| `BufferCache.UnlinkKeeps` | kernel/bio.c:134-135 | the two pointer writes take the buffer out of the doubly linked ring |
| `BufferCache.PushKeeps` | kernel/bio.c:136-139 | the four pointer writes put it at the front of the ring |
| `BufferCache.MoveToFrontRecency` | kernel/bio.c:131-140 | moving a buffer to the front keeps the ring in order of last release |
| `BufferCache.BufCache.constructor` | kernel/bio.c:37-53 | every buffer is on the list, unreferenced, and the cache agrees with the disk |
| `BufferCache.BufCache.Bget` | kernel/bio.c:59-95 | panics exactly when the block is not cached and every buffer is referenced; otherwise one more reference to the block's only buffer, and a recycled buffer is unpinned and the least recently released |
| `BufferCache.BufCache.Bread` | kernel/bio.c:99-109 | the caller holds the block's buffer with the data of the plain block map; no other buffer changes |
| `BufferCache.BufCache.SetData` | kernel/log.c:206-214 | a holder's change is a change of the block map at that block |
| `BufferCache.BufCache.Bwrite` | kernel/bio.c:113-118 | the disk gets the data and bread's answers do not change |
| `BufferCache.BufCache.Brelse` | kernel/bio.c:123-143 | one reference less; the last one moves the buffer to the front and leaves the rest in LRU order |
| `BufferCache.BufCache.Bpin` | kernel/bio.c:146-150 | a reference that keeps the buffer from being recycled until bunpin |
| `BufferCache.BufCache.Bunpin` | kernel/bio.c:153-157 | gives that reference back, only after the block has been written home |
| `CacheSteps.StepRep` | kernel/bio.c:58-157 | a step that is right for its own buffer and block keeps the whole cache a representation of the plain block map |
| `CacheSteps.HeldView` | kernel/bio.c:99-109 | a buffer held since bread holds what its holder last put there or read |
| `CacheSteps.Holders.constructor` | kernel/bio.c:37-53 | the empty cache represents the disk, with nothing held or logged |
| `CacheSteps.Holders.Find` | kernel/bio.c:59-95 | the part of bget before the lock: panics exactly when the block has no buffer and every buffer is referenced; otherwise the process waits with a reference of its own, also while another holds the buffer |
| `CacheSteps.Holders.Enter` | kernel/bio.c:73-109 | one of the processes that wait for a buffer nobody holds gets it, and with bread the contents of the plain block map |
| `CacheSteps.Holders.Read` | kernel/bio.c:99-109 | bread of a block nobody holds is these two steps, whatever else is held or waited for |
| `CacheSteps.Holders.Change` | kernel/raid.c:46-50 | a change of a held buffer, read or not, changes nothing for others until it is logged or written |
| `CacheSteps.Holders.LogWrite` | kernel/log.c:224-234 | the holder's data become the block's; the block is logged, and pinned at its first log_write only |
| `CacheSteps.Holders.Write` | kernel/bio.c:113-118 | the holder's data become the block's, on disk too, with exactly one disk write, also when the block was never read |
| `CacheSteps.Holders.Unpin` | kernel/bio.c:153-157 | a block written home leaves the log and loses its pin |
| `CacheSteps.Holders.Release` | kernel/bio.c:123-143 | the block is no longer held; one that is neither logged nor waited for can be recycled, so not every buffer is referenced |
| `CacheCommit.OpenBoth` | kernel/log.c:185-186 | holding two buffers at once: with a logged block in the cache only the other one can lack a buffer |
| `CacheCommit.CopyBlock` | kernel/log.c:184-191 | one round of write_log panics exactly when every buffer is referenced; otherwise the block's contents are in its log block and nothing is held |
| `CacheCommit.WriteLog` | kernel/log.c:180-192 | the log blocks receive the cached contents of the logged blocks in order, with exactly those disk writes, or the first bread panics and nothing has changed |
| `CacheCommit.WriteHead` | kernel/log.c:104-115 | the header block receives the list through the cache, with one disk write |
| `CacheCommit.InstallTrans` | kernel/log.c:67-84 | each logged block is read from the log, written home and unpinned; no block changes and nothing is logged any more |
| `CacheCommit.Commit` | kernel/log.c:195-204 | a commit through the cache panics exactly when something is logged and every buffer is referenced, and then nothing has changed; otherwise it sends exactly the writes of the crash theorems, nothing is logged, and every block outside the log reads as before |
| `CacheRuns.NothingLogged` | kernel/log.c:195-204 | with nothing logged the disk holds every block as a plain block map has it |
| `CacheRuns.BufferAvailable` | kernel/bio.c:78-94 | while fewer blocks are held, waited for or logged than there are buffers, some buffer can be recycled |
| `CacheRuns.FullLogIsBusy` | kernel/log.c:224-234 | once as many blocks are logged as there are buffers every buffer is referenced |
| `CacheRuns.FullLogPanics` | kernel/param.h:10-11 | from a new cache of LOGBLOCKS buffers: reading, logging and releasing any LOGBLOCKS different blocks outside the log succeeds, leaves nothing held or waited for, and the commit that follows panics |
| `CacheRuns.Perform` | kernel/bio.c:58-157 | each operation is stuck exactly in the named cases and is otherwise the operation of the plain block map |
| `CacheRuns.Run` | kernel/bio.c:58-157 | over every history of bget, bread, changes, log_write, bwrite, brelse and commit, with any number of buffers held at once and any number of processes waiting for them, bread returns what a plain block map holds; a history ends early only at a bget or bread that finds no buffer, at a log_write to a full log, or at a commit with every buffer referenced |
| `CacheRuns.ReadsLastChange` | kernel/bio.c:99-143 | over every history bread returns the last data that a holder put into the block and logged or wrote, whatever was held, recycled or committed in between |
| `CacheRuns.ReadsFirst` | kernel/bio.c:99-109 | before that it returns what the block held at first |
| `CacheRuns.TraceIsCommit` | kernel/log.c:66-204 | the writes that commit sends through the cache are those the crash theorems speak about |
| `CacheRuns.CommitThroughCache` | kernel/log.c:66-204 | a crash after any number of the writes of a commit through the cache, any number of crashed recoveries and a complete one leave the home blocks all as the disk had them or all as the cache showed them, the latter exactly when the header write reached the disk |
| `FileStore.WordRoundTrip` | kernel/fs.c:430-437 | an entry stored in an indirect block reads back and leaves the other entries alone |
| `FileStore.WordBytes` | kernel/fs.c:430-437 | an entry is stored as four bytes, lowest first |
| `FileStore.NoSharedBlock` | kernel/fs.c:67-106 | no block belongs to two files or twice to one, and none that a file has is free or metadata |
| `FileStore.TakeKeeps` | kernel/fs.c:67-89 | a block found free is named by no pointer, so taking and zeroing it changes no file |
| `FileStore.SetDirectKeeps` | kernel/fs.c:411-419 | a fresh direct block keeps every pointer unique and marked and changes one file block only |
| `FileStore.SetIndirectKeeps` | kernel/fs.c:424-429 | a fresh zeroed indirect block adds no entry and changes no file |
| `FileStore.SetEntryKeeps` | kernel/fs.c:430-438 | a fresh entry keeps every pointer unique and marked and changes one file block only |
| `FileStore.PutDataKeeps` | kernel/fs.c:539-551 | a write to a data block changes no pointer and no other file block |
| `FileStore.FreeDirectKeeps` | kernel/fs.c:455-460 | the direct block that itrunc frees is marked in use, and the rest keeps the invariant |
| `FileStore.FreeEntryKeeps` | kernel/fs.c:465-468 | the block of an entry that itrunc frees is marked in use, although earlier entries still name freed blocks |
| `FileStore.FreeIndirectKeeps` | kernel/fs.c:462-472 | the indirect block is marked in use when it is freed, and clearing its address removes all freed entries at once |
| `FileContents.GrownNoLeak` | kernel/fs.c:406-444 | growing a file loses no block: a marked block holds metadata or is named by a pointer |
| `FileContents.ChunkHolds` | kernel/fs.c:539-551 | writing inside one block, taken at the end of the file if need be, splices the bytes into the file |
| `FileContents.ContentsUnique` | kernel/fs.c:494-519 | the blocks and the size of a file determine one byte sequence |
| `FileContents.BlocksOf` | kernel/fs.h:41-51 | a bitmap block covers 8192 blocks and an inode block holds 16 inodes, in order |
| `FileContents.PointerAt` | kernel/fs.c:406-444 | file blocks 0 to 11 are named by the direct addresses, the others by the entries of the indirect block in order |
| `FileContents.ByteAt` | kernel/fs.c:494-519 | byte x of a file is byte x mod 1024 of its block x / 1024 |
| `FileContents.ThreeBlocks` | kernel/file.c:149-158 | 3072 bytes at any offset touch and add at most seven blocks together |
| `FileSystem.MappedThrough` | kernel/fs.c:422-441 | taking the indirect block and then an entry is one mapping, also when only the first succeeds |
| `FileSystem.ChunkCounts` | kernel/fs.c:539-551 | each round of writei touches one more block and adds one exactly when it starts at the end of the file on a block boundary |
| `FileSystem.WriteDone` | kernel/fs.c:539-561 | with the size set, the rounds of writei are one splice of the file, torn at its end if a copy failed; the other files are untouched, every change but that of the torn block is logged and the number of logged blocks is bounded |
| `FileSystem.WrittenLogs` | kernel/fs.c:529-562 | a block whose bytes a write changed is logged, or is the one in which a copy failed; the bitmap block of every block taken and the block of the inode are logged |
| `FileSystem.TornEnds` | kernel/fs.c:545-548 | the round in which the copy fails changes at most the bytes copied before, in one block, and logs no more than a whole round would |
| `FileSystem.TruncatedBecomes` | kernel/fs.c:449-476 | with all pointers freed and cleared the file is empty and the other files are untouched |
| `FileSystem.TruncatedNoLeak` | kernel/fs.c:449-476 | truncation loses no block |
| `FileSystem.Files.Balloc` | kernel/fs.c:67-89 | takes, marks, zeroes and logs the lowest free block; returns 0 exactly when every block is in use |
| `FileSystem.Files.Bfree` | kernel/fs.c:93-106 | clears the bit of a block in use and logs its bitmap block |
| `FileSystem.Files.Bmap` | kernel/fs.c:406-444 | the address of the file block, fresh and zeroed if there was none, 0 exactly when the disk is full; pointers stay unique and marked, no other block of any file changes, and what changed is logged |
| `FileSystem.Files.Writei` | kernel/fs.c:529-562 | -1 exactly for an offset past the end or a size past the maximum, with nothing changed; otherwise the file is the old bytes with the written prefix spliced in, short only when the disk is full at a block boundary or when the copy of the next block fails; then the bytes of that copy are in the file too, as far as it reaches, and its block alone may be changed and not logged; other files unchanged; every other changed block logged; at most touched + added + 3 blocks logged |
| `FileSystem.Files.Readi` | kernel/fs.c:495-519 | with room for them: as many of the bytes from the offset on as were asked for, or as there are up to the end of the file; the error exactly when they cannot all be copied out; nothing is allocated or changed |
| `FileSystem.Files.Itrunc` | kernel/fs.c:449-476 | the file is empty, exactly its blocks are freed, each of them in use when freed; other files unchanged; no block lost |
| `FileCalls.ChunkFits` | kernel/file.c:149-172 | a write of at most 3072 bytes logs at most MAXOPBLOCKS distinct blocks, wherever it starts, wherever its blocks come from and wherever a copy fails |
| `FileCalls.SentMeans` | kernel/fs.c:539-561 | byte by byte: the bytes that went out are at their offset, after them what a failing copy brought in, as far as the file reaches, and every other byte and file is as it was |
| `FileCalls.Transact` | kernel/file.c:160-165 | one transaction of filewrite: the file changes by a splice, torn at its end if a copy failed, and at most MAXOPBLOCKS blocks are logged |
| `FileCalls.OpenFile.Filewrite` | kernel/file.c:135-179 | the prefix that went out is spliced in at the old offset and the offset moves past it; the count is returned exactly when the file is writable, the count is not negative and all went out; otherwise the offset is past the end, the end past the maximum, a byte not readable or the disk full; only a failing copy changes bytes past the new offset; every transaction logs at most ten blocks |
| `FileRuns.Run` | kernel/fs.c:494-562 | over every sequence of writes, reads and truncations the files behave as plain byte sequences, a write stops early only when the disk is full at a block boundary or a copy fails, and only a failing copy changes bytes that are not reported; the block invariant holds and no block is lost |
| `FileRuns.WriteMeans` | kernel/fs.c:529-562 | -1 exactly for an offset past the end or an end past 268 blocks, and then nothing changed; fewer bytes than asked for only if every block is in use and the next byte needs one, or if the readable bytes end inside the next block |
| `FileRuns.ReadInPieces` | kernel/fs.c:494-519 | in every history, reading a file k bytes at a time, for any k, until an answer is empty, gives the whole file |
| `FileRuns.BytesStay` | kernel/fs.c:494-562 | in every history the bytes of a file stay until an operation on that file touches them |
| `FileRuns.ReadBack` | kernel/fs.c:494-562 | in every history a read gives back the bytes that a write reported, unless they were overwritten or truncated in between, also when it asks for more than the file has |
| `FileRuns.TornWrite` | kernel/fs.c:545-548 | on every file of two bytes or more: a write of two bytes at its start, the second of which cannot be copied in, reports nothing written and has changed the first byte |
| `CrowdedDisk.CrowdedValid` | kernel/fs.c:67-89 | a disk full of files except for four blocks keeps the block invariant, and every marked block is metadata or belongs to a file |
| `CrowdedDisk.NotShort` | kernel/fs.c:67-89 | with exactly as many free blocks as the write needs, it does not stop early |
| `CrowdedDisk.LogsTen` | kernel/file.c:149-158 | that write logs exactly ten blocks: four data, four bitmap, the indirect block and the inode block |
| `CrowdedDisk.WorstCase` | kernel/file.c:149-172 | a file system in which no block is lost and a 3072-byte write that logs exactly MAXOPBLOCKS blocks, so the bound is tight |
| `Raid.DataPlacement` | kernel/raid.c:99-107 | the map from slots' blocks to disk blocks in mode 5 is injective, in bounds, and never meets a parity block |
| `Raid.MirrorPlacement` | kernel/raid.c:53-98 | mirrored blocks and their copies never meet another block and stay in bounds |
| `Raid.DegradedRead` | kernel/raid.c:224-239 | XORing the surviving disks of a stripe gives the block of the failed disk |
| `Raid.ReadReturnsContents` | kernel/raid.c:160-242 | with at most one failed disk every mode but striping reads back every block; striping reads zeros exactly from the failed disk |
| `Raid.WriteParityHolds` | kernel/raid.c:99-155 | the parity write, healthy or degraded in either disk, replaces one block's contents and keeps all others recoverable |
| `Raid.WritePageHolds` | kernel/raid.c:32-157 | writing a page replaces the contents of its slot and of nothing else |
| `Raid.FailureHolds` | kernel/raid.c:160-242 | losing one disk, whatever it holds afterwards, loses nothing in any mode but striping |
| `Raid.RunHolds` | kernel/raid.c:32-242 | after every sequence of writes and failures the array represents the last written pages |
| `Raid.ReadsLastWrite` | kernel/raid.c:32-242 | after any sequence of writes, with one disk failing at any point or none, modes 1, 5 and 10 read back the page last written to each slot; striping does except for the failed disk's block, which reads zeros |
| `Raid.LastWrittenMeans` | kernel/raid.c:32-242 | the page last written to a slot is that of the last write to it |
| `Raid.ReadsBack` | kernel/raid.c:32-242 | a page that was written is read back until the slot is written again, with a disk failing before or after in modes 1, 5 and 10 |
| `Raid.StripedPage` | kernel/raid.c:37-51 | in mode 0 block i of the page in slot s is disk block 2000 + 10000 i + s |
| `Raid.MirroredPage` | kernel/raid.c:53-98 | in modes 1 and 10 it is disk block 2000 + 20000 (i mod 2) + 2 s + i / 2, and its copy 10000 blocks further |
| `Raid.ParityPage` | kernel/raid.c:99-107 | in mode 5 it is in stripe (4 s + i) / 3, on the disks in order but for the stripe's parity disk, which is the stripe number mod 4 |
| `Raid.HealthyStripesBalance` | kernel/raid.c:99-155 | while no disk has failed the first three blocks of every parity stripe XOR to the fourth, in every bit |
| `Raid.XorInto` | kernel/raid.c:119-121 | the in-place loop computes the bitwise XOR |
| `Raid.Array.XorStripe` | kernel/raid.c:112-123 | the skipping loop over the disks computes the XOR of the stripe without the skipped disks |
| `Raid.Array.Write` | kernel/raid.c:32-157 | in every mode the array becomes what the page write of the theorems gives |
| `Raid.Array.Read` | kernel/raid.c:160-242 | in every mode the page read is the one of the theorems |
| `SwapSpace.Swap.Put` | kernel/kalloc.c:110-137 | a page written to a slot through the array replaces that slot's page and no other, also with a failed disk |
| `SwapSpace.Swap.Get` | kernel/kalloc.c:139-160 | a slot read through the array, degraded or not, gives the page last put there |
| `SwapSpace.Swap.Fail` | kernel/raid.c:160-242 | unless the array is striped a disk failure, whatever the disk holds afterwards, loses no slot |
| `Paging.PackUnpack` | kernel/riscv.h:358-371 | packing flag bits under a number and unpacking them are inverse, for any number of bits |
| `Paging.PteRoundTrip` | kernel/riscv.h:358-371 | a page-table entry's word gives back the page number or slot and all ten flags |
| `Paging.PteWord` | kernel/riscv.h:358-371 | the word of an entry is 1024 times the page number or slot plus 1, 2, 4, 8, 16, 32, 64, 128, 256, 512 for V, R, W, X, U, G, A, D, S and the last bit |
| `Paging.BitTests` | kernel/riscv.h:358-371 | testing the word with PTE_V, PTE_R, PTE_W, PTE_X, PTE_U, PTE_A and PTE_S reads the flags, and the word shifted right by ten is the page number or slot |
| `Paging.SwapOutWord` | kernel/kalloc.c:126-128 | swap_out's arithmetic on the word gives the word of the entry with V cleared, S set and the slot for its number |
| `Paging.SwapInWord` | kernel/kalloc.c:153-155 | swap_in's arithmetic on the word gives the word of the entry with S cleared, V set and the page for its number |
| `Paging.ClearAccessedWord` | kernel/kalloc.c:207-211 | clearing PTE_A in the word clears that flag and no other |
| `Paging.FirstTouchWord` | kernel/vm.c:619-620 | the entry of a page touched first is its page number with V, R, W and U |
| `Paging.FilledZero` | kernel/vm.c:619 | a page filled with the byte 0 is all zero bits, as on a zeroed disk |
| `Paging.BitsOnlyKeeps` | kernel/kalloc.c:163-263 | clearing reference bits changes what no process sees |
| `Paging.TakeFreeKeeps` | kernel/kalloc.c:266-290 | an unused frame with a fresh page disturbs no mapping |
| `Paging.EvictKeeps` | kernel/kalloc.c:110-137 | moving a page to a free slot and its frame to another page changes what no process sees, and frames and slots stay matched one to one |
| `Paging.SwapInKeeps` | kernel/kalloc.c:139-160 | bringing a page back shows the same bytes and permissions and frees its slot |
| `Paging.MapNewKeeps` | kernel/vm.c:154-182 | mapping a floating frame shows its page to one process at one address and changes nothing else |
| `Paging.ReleaseSlotKeeps` | kernel/vm.c:201-234 | dropping a swapped page frees its slot and changes nothing else |
| `Paging.StoreKeeps` | kernel/riscv.h:358-364 | a store to a resident page is seen by its process at that page and by nobody else |
| `Paging.CopySlotKeeps` | kernel/vm.c:403-442 | copying a slot shows the child the parent's swapped page and changes nothing else |
| `Clock.ScanPasses` | kernel/kalloc.c:180-221 | passing a frame keeps the scan's invariant; on the second revolution only frames that are no candidates are passed |
| `Clock.ScanFinds` | kernel/kalloc.c:180-221 | the first candidate found unreferenced is the one the clock rule names |
| `Clock.SweptAt` | kernel/kalloc.c:180-221 | when a victim is found exactly the candidates that the hand passed have lost their bits |
| `Clock.ScanExhausts` | kernel/kalloc.c:180-262 | two revolutions without a find mean that there is no candidate |
| `Clock.ChosenMeans` | kernel/kalloc.c:163-263 | the victim is in use, mapped, and of a process other than 1 and 2; against any other such frame: it has the highest level if the other has it; of one level an unmarked frame goes before a marked one, and of two alike the one the hand comes to first |
| `VirtualMemory.NoSharing` | kernel/vm.c:387-469 | no two pages share a frame or a slot |
| `VirtualMemory.NothingOwned` | kernel/vm.c:387-469 | a process that sees nothing owns no frame and no slot |
| `VirtualMemory.Memory.constructor` | kernel/kalloc.c:16-67 | at boot no frame and no slot is in use, nobody sees a page, and the invariant holds |
| `VirtualMemory.Memory.DiskFails` | kernel/raid.c:160-242 | a failing swap disk changes what no process sees, in every mode but striping |
| `VirtualMemory.Memory.SetProc` | kernel/proc.c:549-588 | a new process, another size or another level keeps the invariant |
| `VirtualMemory.Memory.ReadPage` | kernel/riscv.h:358-364 | a load gives what the process has at the page, and marking the page accessed changes nothing for anybody |
| `VirtualMemory.Memory.WritePage` | kernel/riscv.h:358-364 | a store, which marks the page accessed and dirty, replaces what its process has there and nothing else |
| `VirtualMemory.Memory.ClockPhase` | kernel/kalloc.c:180-221 | finds a frame within two revolutions exactly when there is a candidate, the one of the clock rule, and otherwise leaves all as it was |
| `VirtualMemory.Memory.FindHighestLevel` | kernel/kalloc.c:164-178 | the highest level among the user frames |
| `VirtualMemory.Memory.GetVictim` | kernel/kalloc.c:163-263 | panics exactly when every frame in use and mapped is of process 1 or 2 or of no process; otherwise the victim is such a frame of another process and the one the two phases of the rule name, the hand is past it, and only the bits of candidates on the way have changed |
| `VirtualMemory.Memory.KallocUser` | kernel/kalloc.c:266-350 | panics exactly when nothing is spare and nothing can be evicted or written to swap; takes the first unused frame and the first free page, and only without them evicts the clock's choice; what every process sees is unchanged, no page of process 1 or 2 leaves memory, and no page is lost |
| `VirtualMemory.Memory.SwapOut` | kernel/kalloc.c:110-137 | panics exactly when swap is full; otherwise the victim's page is in the lowest free slot of the disk array, the frame is the new page's, no other page leaves memory, and nobody sees a change |
| `VirtualMemory.Memory.LoadFromSwap` | kernel/kalloc.c:139-160 | the page, read through the disk array, is resident again and everybody sees what they saw |
| `VirtualMemory.Memory.KfreeUser` | kernel/kalloc.c:352-377 | the frame found by its page is unused, the page is first on the free list, and nobody sees a change |
| `VirtualMemory.Memory.MapOrGiveBack` | kernel/vm.c:154-182 | the page is mapped exactly when the page table can grow; otherwise the frame is given back |
| `VirtualMemory.Memory.VmFault` | kernel/vm.c:597-627 | the exact cases of refusal, panic and success; a swapped page comes back as it was, a first touched page is zeros, nothing else changes for anybody |
| `VirtualMemory.Memory.UvmUnmap` | kernel/vm.c:201-234 | exactly the pages of the range are gone, resident or swapped, with their frames and slots |
| `VirtualMemory.Memory.CopySwapped` | kernel/vm.c:403-442 | succeeds exactly when there are a slot, a bounce buffer and page-table pages; then the child sees the parent's page |
| `VirtualMemory.Memory.CopyResident` | kernel/vm.c:443-462 | also when the child's frame comes from evicting the very page being copied, the child sees the parent's page |
| `VirtualMemory.Memory.UvmCopy` | kernel/vm.c:387-469 | on success the child sees below sz exactly what the parent sees; on failure nothing of the child is left and nobody sees a change; with transfers that do not sleep, failure and panic happen only at a page that cannot be copied |
| `MemoryRuns.Perform` | kernel/vm.c:387-627 | each load, store, fork, unmapping, change of a process and disk failure is the operation of a plain memory, with the exact condition for denial and panic of an access and the state in which a fork ends |
| `MemoryRuns.Run` | kernel/vm.c:387-627 | over every history of these, in every mode of the disk array that survives the failures, the processes see a plain memory; a denial and a panic have their cause in the state of the memory |
| `MemoryRuns.Unchanged` | kernel/kalloc.c:110-160 | a page keeps its contents while nobody stores to it or unmaps it |
| `MemoryRuns.ReadsLastStore` | kernel/vm.c:597-627 | a process reads back the page it last stored, whatever was evicted, swapped, forked or lost with a disk in between |
| `MemoryRuns.ChildReadsParent` | kernel/vm.c:387-469 | a child reads what its parent had when it was forked, whatever the parent stores later |
| `MemoryRuns.OutOfFramesMeans` | kernel/kalloc.c:163-350 | there is no frame to be had exactly when no frame is unused or no page free, and no slot is free or every mapped frame in use is of process 1 or 2 |
| `MemoryRuns.AccessMeans` | kernel/vm.c:597-627 | the answer to an access in terms of page table, sizes, permissions and free pages |
| `MemoryRuns.CannotCopyMeans` | kernel/vm.c:403-462 | what makes a page impossible to copy for a fork, in the same terms |
| `MemoryRuns.NeverEvicted` | kernel/kalloc.c:163-263 | over every history a resident page of process 1 or 2 stays in memory until it is unmapped |
| `MemoryRuns.NoPageLost` | kernel/kalloc.c:266-377 | over every history without new page-table pages, the free pages and those in frames stay as many |
| `MemoryRuns.AllPagesBack` | kernel/kalloc.c:266-377 | when nobody has a page in memory any more, all of them are free |
| `Malloc.SearchStops` | user/umalloc.c:30-32 | free's exit test holds at the block's place in the list and nowhere else |
| `Common.Circle` | kernel/kalloc.c:182-183 | places round a table are numbers modulo its size |
| `Common.StepCloser` | user/umalloc.c:30-32 | each step round a cycle comes closer to a place further on, so the search ends; also for the clock's scan and the scheduler's index |
| `Malloc.InsertOrdered` | user/umalloc.c:33-43 | freeing keeps the list address-ordered with no two blocks overlapping or touching |
| `Malloc.InsertCovers` | user/umalloc.c:33-43 | freeing adds exactly the block's bytes to the free bytes |
| `Malloc.LinkedInsert` | user/umalloc.c:33-43 | the pointer and size writes of the two merges implement the insertion |
| `Malloc.TakeOrdered` | user/umalloc.c:75-84 | taking a whole block or its tail keeps the list ordered and untouching |
| `Malloc.TakeCovers` | user/umalloc.c:75-84 | taking removes exactly the returned block's bytes from the free bytes |
| `Malloc.LinkedRemove` | user/umalloc.c:76-77 | unlinking a whole block is one pointer write |
| `Malloc.LinkedShrink` | user/umalloc.c:78-82 | splitting off a tail is two size writes |
| `Malloc.InsertKeepsLive` | user/umalloc.c:25-44 | live blocks stay disjoint from each other and from all free ones when a block is freed |
| `Malloc.TakeKeepsLive` | user/umalloc.c:64-90 | the returned block is disjoint from every live block |
| `Malloc.FreeTiles` | user/umalloc.c:25-44 | free and live blocks together still are exactly the bytes got from sbrk |
| `Malloc.TakeTiles` | user/umalloc.c:64-90 | the same for malloc |
| `Malloc.LinkedTake` | user/umalloc.c:75-86 | malloc's pointer and size writes implement the taking of a block or of its tail |
| `Malloc.Allocator.constructor` | user/umalloc.c:21-22 | an empty heap is a well-formed list with nothing live |
| `Malloc.Allocator.FindPlace` | user/umalloc.c:29-32 | the search ends at the block's place, wherever it starts |
| `Malloc.Allocator.Free` | user/umalloc.c:25-44 | the block leaves the live blocks and joins the list at its place, where the next search starts; all bytes stay owned, the list stays a well-formed cycle |
| `Malloc.Allocator.Morecore` | user/umalloc.c:47-61 | on success the free list has a block of the asked size and exactly the bytes of the new area, at least 4096 units, are owned besides; on failure nothing changes; the heap is broken exactly when sbrk succeeds for fewer bytes than the new block claims |
| `Malloc.Allocator.Scan` | user/umalloc.c:74-88 | one trip round the list finds a block exactly when one is big enough, and the first such block after freep |
| `Malloc.Allocator.Malloc` | user/umalloc.c:64-90 | for every size: fails exactly when no free block is big enough and sbrk fails; breaks the heap exactly when none is and the growth does not fit the argument of sbrk; otherwise a block of the units asked for joins the live ones, taken from the first free block after freep that is big enough, before which the next search starts; the heap grows only if no free block is big enough |
| `Malloc.FirstFitMeans` | user/umalloc.c:74-86 | every free block that the search comes to before the chosen one is too small, and what is taken ends where the chosen block ends |
| `Malloc.Units` | user/umalloc.c:69 | enough units for the header and every byte asked for, and none to spare |
| `Malloc.AreaFitsIff` | user/umalloc.c:46-61 | sbrk is asked for as many bytes as the new block claims if and only if the block is smaller than two gigabytes; for larger ones it is asked for too few |
| `Malloc.LargestRequest` | user/umalloc.c:46-61 | the largest request claims four gigabytes and one unit and gets one unit |
| `Malloc.GrantsApart` | user/umalloc.c:24-90 | the bytes a caller asked for came from sbrk, are not free and belong to no other caller |
| `Malloc.GrantedByCall` | user/umalloc.c:64-90 | every outstanding pointer was returned by a call of malloc, for the bytes that call asked for |
| `Malloc.GrantStays` | user/umalloc.c:24-90 | an outstanding pointer stays so until it is freed |
| `Malloc.Run` | user/umalloc.c:24-90 | over every sequence of malloc and free on a new heap, up to a growth of two gigabytes or more: the links are a cycle through the free blocks in address order, no two of which overlap or touch; the outstanding pointers are those returned and not freed; what each caller asked for came from sbrk and is no one else's |
| `Scheduler.PickIsLowest` | kernel/proc.c:512-569 | the process chosen is RUNNABLE, has the lowest level among the RUNNABLE ones, and is the first of its level from the level's index on, round the table |
| `Scheduler.DistanceShrinks` | kernel/proc.c:512-569 | each pick of another process at a level brings the index strictly closer to a waiting one |
| `Scheduler.BoundedWaiting` | kernel/proc.c:512-569 | in every run of dispatches by the rule, ticks, system calls, sleeps, wakeups, boosts, forks and exits in which a process stays RUNNABLE at a level, other processes of that level or a later one are dispatched at most as often as the index is places away, so at most NPROC - 1 times |
| `Scheduler.TopLevelWaiting` | kernel/proc.c:512-569 | at level 0 that bounds the dispatches of all processes |
| `Scheduler.BoostEndsWaiting` | kernel/proc.c:577-588 | after a boost a process that is RUNNABLE and stays so, whatever its level was, sees at most NPROC - 1 dispatches |
| `Scheduler.LevelChanges` | kernel/proc.c:549-588 | a level rises, by one, exactly at the tick that ends a slice of 2, 4, 8 or 16 ticks with fewer system calls than ticks, below level 3; it falls only to 0, by a boost or for a new process |
| `Scheduler.TickMeans` | kernel/trap.c:89-136 | the process that a tick interrupts is still RUNNING exactly if its slice has ticks left, there was no boost and no RUNNABLE process has a lower level; otherwise it is RUNNABLE; without a boost no other process changes |
| `Scheduler.NobodyOutranked` | kernel/trap.c:89-136 | in every run, after a tick the process it interrupted keeps the CPU neither from a RUNNABLE process of a lower level nor past its slice |
| `Scheduler.BoostMeans` | kernel/proc.c:577-588 | a boost brings every RUNNABLE process to level 0 with a fresh slice and changes no process asleep or on another CPU |
| `Scheduler.StateChanges` | kernel/proc.c:512-569 | which event, and only which, makes a process RUNNING, RUNNABLE, SLEEPING, ZOMBIE, USED or UNUSED |
| `Scheduler.CountsEverything` | kernel/trap.c:96-99 | over every run a process has been charged each of its ticks, and its dispatches and system calls are counted |
| `Scheduler.DemotedByCount` | kernel/proc.c:536-560 | over a whole slice, with sleeps and further dispatches in any order: the process moves down exactly if it made fewer system calls than it was charged ticks |
| `Scheduler.StepKeeps` | kernel/trap.c:89-136 | every dispatch, tick, system call, sleep, wakeup, boost, allocation, exit and reap keeps the bounds of each process's accounting |
| `Scheduler.RunKeeps` | kernel/trap.c:206-253 | over every history levels stay in 0..3, ticks used stay below the quantum and slice_start_syscalls never exceeds systemcall_count |
| `Scheduler.ComputingLevel` | kernel/trap.c:89-136 | a process without system calls and boosts is at level 0, 1, 2, 3 after 0-1, 2-5, 6-13 and 14 or more charged ticks |
| `Scheduler.FreshComputes` | kernel/proc.c:117-170 | a new process starts in the state from which that count of ticks begins |
| `Scheduler.Mlfq.constructor` | kernel/proc.c:51-66 | the table of unused processes satisfies the invariant |
| `Scheduler.Mlfq.PickAndRun` | kernel/proc.c:512-569 | dispatches exactly when some process is RUNNABLE, the first at the lowest level from that level's index on, and moves the index to the place after it |
| `Scheduler.Mlfq.PriorityBoost` | kernel/proc.c:577-588 | every RUNNABLE process is at level 0 with a fresh slice, the others are untouched |
| `Scheduler.Mlfq.TimerTick` | kernel/trap.c:89-136 | the tick step of the state machine, with a boost at every 128th tick of CPU 0; the process interrupted is still RUNNING exactly if its slice has ticks left, there was no boost and no RUNNABLE process has a lower level |
| `Scheduler.Mlfq.IdleTick` | kernel/trap.c:206-253 | a tick of CPU 0 while it runs nothing counts towards the boost and boosts when it is due |
| `ExitWait.AdoptAndWake` | kernel/proc.c:346-356 | giving a child to init and waking init keeps the invariant |
| `ExitWait.ZombieKeeps` | kernel/proc.c:383-396 | becoming a ZOMBIE after waking the parent, with wait_lock held, strands no sleeping parent |
| `ExitWait.SleepKeeps` | kernel/proc.c:441-448 | a parent that has scanned all children may sleep, since releasing wait_lock and sleeping are one step |
| `ExitWait.ReapAndLeave` | kernel/proc.c:417-436 | reaping a ZOMBIE child keeps the invariant |
| `ExitWait.StepKeeps` | kernel/proc.c:295-450 | every step of fork, exit, wait, sleep, wakeup and kill keeps the invariant |
| `ExitWait.NoExitMissed` | kernel/proc.c:295-450 | in every interleaving from boot no process has a ZOMBIE or UNUSED parent and no parent sleeps in kwait over a ZOMBIE child |
| `ExitWait.WaitEnds` | kernel/proc.c:406-450 | in every run a kwait that has scanned the table returns -1 exactly if nobody has it as parent or it was killed, and sleeps exactly if it has a child, none of its children is a ZOMBIE and it was not killed |
| `ExitWait.WaitReaps` | kernel/proc.c:413-439 | in every run a scan ends early exactly at a ZOMBIE child, the first in the table; unless its status cannot be copied out, its entry is freed and its pid reported |
| `ExitWait.HolderGoesOn` | kernel/proc.c:343-450 | the holder of wait_lock can always take its next step, and each brings it closer to releasing the lock |
| `ExitWait.StateChanges` | kernel/proc.c:295-450 | which steps make a process RUNNING, ZOMBIE, USED, UNUSED or first RUNNABLE |
| `ExitWait.WaitSleepEnds` | kernel/proc.c:346-396 | a sleep in kwait ends only when a child exits, when init gets a child, or by kill |
| `ExitWait.ParentChanges` | kernel/proc.c:332-356 | a process gets its parent from the fork that made it, passes to init when that parent exits, and loses it when it is reaped |
| `ExitWait.ForkedChild` | kernel/proc.c:295-338 | in every run the child of a fork has the forking process as parent when it first becomes RUNNABLE, and a pid that no other process has or had |
| `ExitWait.KilledForGood` | kernel/proc.c:717-738 | a process that was killed stays marked until it is gone and does not sleep in kwait |
| `ExitWait.ReapedOnce` | kernel/proc.c:406-450 | each exit is reaped at most once, and only exits are reaped |
| `ExitWait.ExitsAccounted` | kernel/proc.c:362-450 | an exit that has not been reaped is still there as a ZOMBIE |
| `DiskQueue.BestHasLowestLevel` | kernel/virtio_disk.c:221-253 | the rule's choice has the lowest level present |
| `DiskQueue.BestMeans` | kernel/virtio_disk.c:221-253 | against any other request: a lower level goes first; of one level the earlier (FCFS) or the one whose block is nearer to the head, ties to the earlier (SSTF) |
| `DiskQueue.ChooseMeans` | kernel/virtio_disk.c:220-253 | in every history a selection makes active the request that the rule names |
| `DiskQueue.ChoiceIsBest` | kernel/virtio_disk.c:221-253 | on every disk whose size fits an unsigned int the code's choice is the rule's: of the lowest level, the earliest (FCFS) or the nearest (SSTF) |
| `DiskQueue.LowestLevelFirst` | kernel/virtio_disk.c:221-253 | on such a disk no request of a lower level is passed over |
| `DiskQueue.ChoiceRespectsLevels` | kernel/virtio_disk.c:221-253 | for any numbers the code's choice is of the lowest level if and only if some such request is less than UINT_MAX away, or the first request is one |
| `DiskQueue.LevelPassedOver` | kernel/virtio_disk.c:221-253 | a remark on the range of the type: with block number UINT_MAX a request of a lower level is passed over |
| `DiskQueue.BestUnique` | kernel/virtio_disk.c:221-253 | the rule names at most one request |
| `DiskQueue.Queue.constructor` | kernel/virtio_disk.c:52-59 | the empty queue with nothing active and the head at block 0 is well formed |
| `DiskQueue.Queue.Enqueue` | kernel/virtio_disk.c:209-217 | the request is the last of the queue and the links stay a list |
| `DiskQueue.Queue.Select` | kernel/virtio_disk.c:220-253 | the active request is the earliest (FCFS) or nearest, ties to the earliest (SSTF), of the lowest level |
| `DiskQueue.Queue.Relevel` | kernel/virtio_disk.c:229-238 | a pending process may change its level, which the next selection sees |
| `DiskQueue.Queue.Issue` | kernel/virtio_disk.c:264-266 | the head moves to the block of the active request, and the queue stays well formed |
| `DiskQueue.Queue.Dequeue` | kernel/virtio_disk.c:328-337 | the active request leaves and the others keep their order |
| `DiskQueue.Run` | kernel/virtio_disk.c:202-347 | over every history of arrivals, changes of level, selections, issues and completions, with the head moving at each issue, the linked queue is the pending requests in order and each selection is the rule's from where the head is |
| `DiskProtocol.DescriptorsSuffice` | kernel/virtio_disk.c:188-199 | a process that goes on to issue its request finds every descriptor free |
| `DiskProtocol.RunIsOrderly` | kernel/virtio_disk.c:202-373 | in every interleaving at most one request is with the device, at most three descriptors are in use, and while requests are pending some pending process is awake or the device is working, also when kill wakes sleepers |
| `DiskProtocol.StampOf` | kernel/virtio_disk.c:202-217 | the arrival that a queued request stands for is its last one, and it has not finished |
| `DiskProtocol.ArrivalOrder` | kernel/virtio_disk.c:202-347 | in every run from an idle disk the queue is exactly the requests that have arrived and not finished, in the order of their arrivals, although a buffer may come again; the device works on the active one with at most three descriptors |
| `DiskProtocol.StepOwes` | kernel/virtio_disk.c:317-373 | a request leaves exactly when its process runs after the device has completed it |
| `DiskProtocol.OneCompletionEach` | kernel/virtio_disk.c:202-373 | in every run as many requests have left as the device has completed, but for one whose process has not run since |
| `DiskProtocol.Descriptors.constructor` | kernel/virtio_disk.c:137-139 | every descriptor is free |
| `DiskProtocol.Descriptors.Alloc3` | kernel/virtio_disk.c:188-199 | three different free descriptors exactly when there are three, and otherwise none is taken |
| `DiskProtocol.Descriptors.FreeChain` | kernel/virtio_disk.c:174-185 | exactly the descriptors of the chain are freed |
| `Pipe.TestsExact` | kernel/pipe.c:86-119 | the tests for full and empty are exact although the counters wrap |
| `Pipe.PutCarries` | kernel/pipe.c:90-96 | a byte put keeps the ring's contents the accepted but undelivered bytes |
| `Pipe.GetCarries` | kernel/pipe.c:118-129 | a byte got is the oldest undelivered one |
| `Pipe.DeliversInOrder` | kernel/pipe.c:77-134 | in every interleaving of byte writes and reads the delivered bytes are a prefix of the accepted ones, at most PIPESIZE behind, also after the counters wrap |
| `Pipe.StepMeans` | kernel/pipe.c:86-129 | a byte is refused exactly by a pipe with 512 bytes in it, and a read gets the next byte unless all have been delivered |
| `Pipe.PipeBuffer.Write` | kernel/pipe.c:77-103 | the bytes accepted are those of the request in order; the exact cases of -1, of sleeping and of a short count |
| `Pipe.PipeBuffer.Read` | kernel/pipe.c:106-134 | the bytes returned are the oldest ones; the exact cases of -1, of sleeping and of a short count |
| `Grep.MatchHere` | user/grep.c:85-96 | true exactly when the pattern's items can be cut out of the text from the position on |
| `Grep.MatchStar` | user/grep.c:99-106 | true exactly when some number of fitting characters is followed by a match of the rest |
| `Grep.Match` | user/grep.c:73-82 | true exactly when the pattern's declarative meaning holds of some part of the text, for every pattern and text |
| `Grep.OneMeans` | user/grep.c:93-94 | a character, or a dot for any, and then the rest |
| `Grep.StarPattern` | user/grep.c:99-106 | a starred character stands for any number of it, a starred dot for any text |
| `Grep.PlainPattern` | user/grep.c:73-96 | a pattern without special characters is searched for, a dot standing for any character |
| `Grep.LiteralPattern` | user/grep.c:73-96 | a pattern of ordinary characters matches exactly the texts that it is a part of |
| `Grep.CaretPattern` | user/grep.c:75-76 | with a caret before it, the texts that it starts |
| `Grep.DollarPattern` | user/grep.c:91-92 | with a dollar after it, the texts that it ends |

## Left out

- Interleavings inside `kalloc_user` between releasing and retaking `framelock` (kernel/kalloc.c:322-326): the entry is marked swapped before the page is written, so memory is claimed unchanged for whole calls only.
- Changing the RAID mode while pages are swapped out: `set_raid_mode` migrates nothing (kernel/raid.c:19-25).
- The buffer cache under the disk array: `Raid.dfy` reads and writes disk blocks; that bget, a change, bwrite and brelse are one block write is in `CacheSteps.dfy`.
- What the block of a failing copy holds once its buffer is recycled, or after a crash: `writei` then releases a buffer that was changed and not logged, which the steps of `CacheSteps.dfy` do not have.
- Files with holes: the file properties are for hole-free files, which `writei` and `itrunc` keep hole-free.
- FileCalls.OpenFile.Filewrite: the pipe and device branches; the pipe is modelled by itself.
- The file table and its reference counts.
- Inode allocation, directories, path names and link counts.
- How many blocks `itrunc` logs: one bitmap block for each freed block in the worst case, which the code does not bound.
- What malloc and free do after a growth of two gigabytes or more, for which `sbrk` is asked for fewer bytes than the new block claims.
- Two processors reading a level's round-robin index before either updates it: a scheduling decision is one step.
- VirtualMemory.Memory.UvmUnmap: the form without do_free, which is used only for the trampoline and the trap frame; those pages have no frame.
- VirtualMemory.Memory.UvmCopy: a transfer that sleeps while `kfork` holds `np->lock`, which panics in `sched`.
- The three levels of a page table: `walk` is a map from page numbers to entries and a number of pages it allocates.
- Growing and shrinking a process (`uvmalloc`, `uvmdealloc`), `copyin`, `copyout`, `exec`.
- DiskQueue.LevelPassedOver: its block number is on no disk that the kernel serves; on a disk `DiskQueue.LowestLevelFirst` holds.
- The time a disk request takes, device registers, interrupts, spinlocks, context switches, UART and console.
- grep's line buffer, the shell, the other user programs, `mkfs`, and the statistics system calls.
