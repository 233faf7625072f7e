# xv7 in Dafny

xv7 is a small Unix-like system: a kernel with a journaled file system, processes,
pipes and paging, and a user library and shell. This project models the parts of it
that are hardest to get right and proves what they are for, over every input, every
interleaving or every run. `dafny verify dfyconfig.toml` covers all of it.

What is proved, subsystem by subsystem:

- **Journal.** `CrashSpec` states what commit and recovery do to the disk, write by
  write, and proves that any history of transactions and crashes, crashes during
  recovery included, ends in the durable transactions applied in order. `Log` is the
  code of `kernel/log.c` on top of the buffer cache of `kernel/bio.c` (`Bio`, `Ring`),
  in place; its methods are proved to take the disk through exactly those states, with
  the cached contents of the listed blocks as data. `EndOp` and `Reboot` put the two
  together: cache and journal refine a disk whose transactions are atomic. `LogRun` is
  whole runs from a reboot: any calls of any processes, with what every crash would
  leave. `LogGate` is begin_op, log_write and end_op as a concurrent protocol.
- **Files.** `Fs` with `InodeTree`, `Ownership`, `Trunc`, `FileData` and `Bytes` is the
  bitmap, the three levels of index blocks, readi, writei and itrunc. A block's bit is
  set exactly when one position of one inode holds the block; a file is a sequence of
  bytes, and writei is a splice. `Dinodes` is the inode blocks, word by word.
  `LogBudget` and `FileWrite` bound what a write logs, and `FullChunk` reaches the bound.
  `Mkfs` builds an image on which the kernel's invariant holds and readi gives back
  what was appended. `Formats` says what stands where on the disk, by byte and bit.
- **Names.** `Directories` and `Links`: create, link and unlink keep the directories a
  tree, and keep each link count at its distance from the number of entries that name
  the inode, in images of mkfs too, where that distance is not 0. `FileRefs`: reference
  counts, descriptor slots and pipe pages over whole system calls.
- **Processes.** `Monitor` is sleep and wakeup for any number of processes, with the
  code between as a parameter; `SleepLock`, `Pipe` and `LogGate` are three such codes,
  and `PipeRuns` is what the calls on a pipe return. `ProcTable` and `Scheduling` are the
  process table on any number of CPUs, and `SchedSteps` is what each of its steps does.
- **Memory.** `Frames`, `Paging` and `Vm`: the free list and the two-level page tables
  as words in memory, proved to be a flat map from pages to frames; `Translation` says
  what the operations mean for the processor. `FreeRing` and
  `Heap`: malloc, free and realloc on the circular free list.
- **User level.** `ShellGrammar`, `Shell` and `ShellRoundTrip`: the shell's parser;
  `ShellSyntax` and `ShellLanguage`: the language of its lines, apart from the parser, and
  that the parser accepts exactly that; `ShellWords` and `ShellPrint`.
  `Numbers`: strtol, strtonum and printint. `Calendar`: the two time conversions.

## Where the code and its promise part

These are proved, with a condition that says exactly when the promise holds.

- A pipewrite that gives up on a full pipe, because its process was killed or the read
  end closed, returns without waking readers (`kernel/pipe.c:81-84`). A reader can then
  sleep beside a full pipe: `Pipe.SleepsBesideData`. A run loses no wakeup if and only
  if no pipewrite gives up this way in it, with bytes stored and not announced, while a
  reader is asleep (`Pipe.NoWakeupLostIff`).
- begin_op reserves MAXOPBLOCKS blocks per operation against LOGSIZE slots, while
  log_write's test allows one slot less and comes before absorption. Operations that
  log fewer than MAXOPBLOCKS blocks never meet the panic (`LogGate.NeverTooBig`); if
  they may log that many, it is reachable (`LogGate.TooBigIsReachable`).
- The comment in filewrite counts one index block per chunk. In a file without holes
  there can be three, and 16 blocks in all: `LogBudget.DenseChunkFits` is the bound and
  `FullChunk.Fullest` reaches it. In a file with holes `LogBudget.ChunkFits` bounds the
  index blocks by five and the whole by 18. Either way the chunk fits.
- The inode in memory declares NDIRECT + 1 addresses and then its two times
  (`includes/kernel/file.h:25-27`), while bmap and itrunc use two addresses more
  (`kernel/fs.c:407`, `kernel/fs.c:437`): in that layout the double and triple indirect
  addresses are the times. iupdate and ilock carry them to disk and back
  (`Dinodes.LoadStored`), but readi and writei set them to the clock (`kernel/fs.c:580`,
  `kernel/fs.c:614`). The block trees survive that if and only if the address is the
  time (`Dinodes.StampedIff`); the first NDIRECT + NINDIRECT blocks of a file always do
  (`Dinodes.StampedBelow`), and `Dinodes.ReadLosesBlock` loses the next one. An inode as
  mkfs writes it keeps its addresses in memory if and only if it has neither
  (`Dinodes.LoadedIff`).
- mkfs gives a directory no link for each subdirectory (`tools/mkfs.c:436-477`), so every
  image with a directory in it has link counts below the number of entries
  (`Links.FileSystem.EnsureDir`). create, link and unlink keep that distance, but
  removing a directory takes a link from its parent all the same. The tree survives if
  and only if the parent has more than one and the directory exactly one
  (`Directories.RemovalIff`); in `Links.RootLosesItsLink` the root loses its only link.
- create and link in a directory that has itself been removed make an entry that counts
  for nothing, and mkdir there brings the removed directory back: the link counts keep
  their distance if and only if the directory still has links, for files, devices and
  directories (`Links.FileSystem.Create`, `Links.FileSystem.Link`). The runs
  `Links.FileInRemoved` and `Links.MadeInRemoved` get there; in the second the removed
  directory and the new one have the right counts and the removed one's parent is one
  link short.
- unix_converttime returns an int: it is exact if and only if the seconds are below
  2^31 (`Calendar.Converttime`), which ends on 19 January 2038 (`Calendar.TooLate`).

## How the model reads the code

- A panic is a result (`None`, a false flag, a `Panicked` state) or, where the caller
  is to exclude it, a precondition.
- bwrite is one atomic step and disk blocks are read and written whole. A block or page
  is a sequence of 32-bit words, with bytes little-endian within a word.
- The file system layer stands on a flat disk of blocks. That the journal and the cache
  present such a disk is what `Log` and `Bio` prove.
- In `Fs` the in-memory inode has NDIRECT + 3 addresses, like the one on disk and like
  the code that uses it, and no times: what holds there of blocks past the first
  NDIRECT + NINDIRECT of a file assumes that no time is stored over their addresses.
- Pipe counters, file offsets, seconds and long integers wrap or are bounded as in the
  source; process ids and link counts are unbounded.
- Whether a process has been killed, what sbrk returns, which inode a path names and
  whether a page was to be had for a pipe are parameters.
- In `Monitor` and `Scheduling` the atomic steps are the accesses made under a lock,
  the parts of sleep and of a context switch being separate steps.

## Model

| member | source | states |
|---|---|---|
| `CrashSpec.CommitIsAtomic` | kernel/log.c:171-194 | after any number of commit's block writes the disk recovers to exactly the old or exactly the new file system, and to the new one if and only if the header write has happened; after the last write the log is empty and the new blocks are in place |
| `CrashSpec.RecoveryIsRestartable` | kernel/log.c:112-118 | a crash after any number of recovery's writes leaves a disk that recovers to the same file system; a complete recovery installs it and empties the log |
| `CrashSpec.InstallRestart` | kernel/log.c:68-81 | a log installed in part and then again from the start ends as if installed once |
| `CrashSpec.InstallApplies` | kernel/log.c:68-81 | with the log slots filled, installing the first k of them is applying the first k writes of the transaction |
| `CrashSpec.EventIsAtomic` | kernel/log.c:112-118 | one transaction, cut off anywhere and followed by any number of interrupted recoveries and a complete one, is applied whole or not at all |
| `CrashSpec.HistoryIsAtomic` | kernel/log.c:112-194 | for every sequence of transactions, with crashes anywhere in commit and in recovery, the file system is the durable transactions applied in order and nothing else |
| `Log.Log.WriteLog` | kernel/log.c:171-183 | every listed block's cached contents are written to its log slot, through bread, bwrite and brelse of the buffer cache; the disk goes through exactly the states of the commit specification, and buffers in use elsewhere stay as they are |
| `Log.Log.InstallTrans` | kernel/log.c:68-81 | every log slot is copied to its home block through the cache, in order, and each home buffer is let go |
| `Log.Log.WriteHead` | kernel/log.c:99-110 | one block write makes the header on disk the one in memory |
| `Log.Log.ReadHead` | kernel/log.c:84-94 | the header in memory becomes the one on disk |
| `Log.Log.Commit` | kernel/log.c:185-194 | the disk states that commit passes through are exactly those of the specification proved atomic, run over the buffer cache in place; afterwards nothing is pinned and the list is empty |
| `Log.Log.Recover` | kernel/log.c:112-118 | the disk states that recover_from_log passes through are exactly those of the specification proved restartable |
| `Log.Log.LogWrite` | kernel/log.c:205-231 | the block is listed once however often it is logged, its buffer pinned, and no other listed block or buffer changes |
| `Log.SpareForCommit` | kernel/log.c:185-194 | commit finds a buffer for the log block if and only if the listed blocks and the buffers in use are together fewer than NBUF; with none in use, a full log always leaves one |
| `Log.ListedPinned` | kernel/log.c:205-231 | in every state between commits a listed block has a buffer, valid and pinned, that holds what its users see; the methods of the class keep such states from reboot on |
| `Log.Log.Read` | kernel/bio.c:93-102 | bread inside operations keeps the journal in order: it never recycles the buffer of a listed block, and the buffer it locks holds what was last written to the block |
| `Log.Log.Resume` | kernel/bio.c:70-101 | the same for a bread that had to wait for the buffer |
| `Log.Log.Change` | kernel/log.c:196-204 | a holder's store into its buffer changes neither the list nor what is pinned |
| `Log.Log.Release` | kernel/bio.c:115-135 | brelse of a buffer whose changes are logged leaves a listed block pinned, whoever lets go of it |
| `Log.NewIsFlat` | kernel/log.c:171-183 | the transaction commit carries is exactly the difference between the disk and the disk as its users see it: applied to the old file system it gives the cached one |
| `Log.CommitSeen` | kernel/log.c:185-194 | every disk in the history of a commit recovers to the whole old or the whole new file system, the new one from the header write on, and the last disk holds the new one |
| `Log.RecoverySeen` | kernel/log.c:112-118 | every disk in the history of a recovery recovers to the same file system, and the last one holds it |
| `Log.Log.EndOp` | kernel/log.c:140-168 | the last operation out commits: the disk becomes what its users saw through the cache, and a crash at any moment leaves all of the transaction or none; users see no change, and buffers in use stay as they are |
| `Log.Reboot` | kernel/log.c:53-65 | from any disk a crash can leave, a new cache and recovery present exactly the file system that disk recovers to |
| `LogRun.Run` | kernel/log.c:53-231 | for every sequence of begin_op, bread, its resumption, stores, log_write, brelse and end_op by any processes after a reboot: the file system is what the reboot found with the blocks logged since; every disk there ever was recovers to the file system of one of the commits, later disks to later ones; every listed block is cached, valid and pinned |
| `LogRun.Machine.Do` | kernel/log.c:120-231 | each call goes through exactly if it need not wait and does not panic, and keeps all of that |
| `LogRun.Machine.Write` | kernel/log.c:205-231 | after log_write the file system differs from before in that block, which now holds the buffer's bytes |
| `LogRun.Machine.End` | kernel/log.c:140-168 | the last end_op adds the file system of that moment to the committed ones; any other adds none |
| `LogRun.FollowsOn` | kernel/log.c:185-194 | the disks of one more commit recover to the last committed file system and then to the new one, so the order of commits is the order in which crashes can show them |
| `LogGate.LoggingIsSafe` | kernel/log.c:121-168 | every command of begin_op, log_write and end_op keeps: reservations of operations in progress plus logged blocks fit the log, outstanding counts the operations, and only the last one out commits |
| `LogGate.LoggingWakes` | kernel/log.c:140-168 | whenever a command makes a sleeper's reason to wait false, it wakes the log's channel before releasing the lock |
| `LogGate.NeverTooBig` | kernel/log.c:121-231 | over every interleaving of any number of processes, if no operation logs as many as MAXOPBLOCKS blocks, log_write's two panics are unreachable, no commit overlaps an operation, and blocks logged plus blocks reserved fit the log |
| `LogGate.TooBigIsReachable` | kernel/log.c:124-135 | if an operation may log MAXOPBLOCKS blocks or more, three processes reach the panic: begin_op reserves against 60 slots and log_write allows 59, so the limit of the previous row is exact |
| `LogGate.SleeperHasCause` | kernel/log.c:121-136 | a process asleep in begin_op while the log's lock is free has another process to wait for, committing or inside an operation |
| `LogGate.BeginDoes` | kernel/log.c:121-136 | begin_op admits an operation exactly if no commit is going on and MAXOPBLOCKS blocks for it and each one in progress fit beside those logged; otherwise it sleeps |
| `LogGate.RecordDoes` | kernel/log.c:213-224 | log_write counts a block exactly if it is new |
| `LogGate.EndDoes` | kernel/log.c:140-160 | the last end_op out begins the commit, any other wakes those who wait for room |
| `LogGate.CommitDoes` | kernel/log.c:161-168 | commit empties the log, and then the gate opens and everyone is woken |
| `Bio.BufferCache.constructor` | kernel/bio.c:38-54 | binit links every buffer into one ring; the buffers are idle and the cache shows the disk |
| `Bio.BufferCache.Bget` | kernel/bio.c:59-90 | at most one buffer per block is kept: a cached block's own buffer is returned, else the idle clean buffer released longest ago; panics exactly when the block is not cached and no buffer is idle and clean |
| `Bio.BufferCache.ScanCached` | kernel/bio.c:66-73 | the walk along next finds the block's buffer if and only if it is cached |
| `Bio.BufferCache.ScanIdle` | kernel/bio.c:78-89 | the walk along prev finds the least recently released buffer among all that are idle and clean, or shows that there is none |
| `Bio.BufferCache.Bread` | kernel/bio.c:93-102 | the locked buffer holds the bytes last written to the block by anyone, whether or not they have reached the disk; it waits exactly if another process has the block's buffer locked, with its reference already counted |
| `Bio.BufferCache.Resume` | kernel/bio.c:70-101 | the rest of bread after the wait: the buffer is locked and holds the block's bytes |
| `Bio.BufferCache.Pin` | kernel/log.c:225 | a buffer marked dirty is the block's contents from then on and cannot be recycled |
| `Bio.BufferCache.Bwrite` | kernel/bio.c:105-111 | the disk's block becomes the buffer's contents, in one step of the disk's history |
| `Bio.BufferCache.Unlock` | kernel/sleeplock.c:32-39 | releasesleep keeps every cached block coherent if what is let go is what the block holds |
| `Bio.BufferCache.Drop` | kernel/bio.c:122-134 | under bcache.lock one reference goes, whoever has locked the buffer meanwhile; with the last, the buffer moves to the front of the ring and all others keep their order, so the ring stays sorted by time of release |
| `Bio.BufferCache.Brelse` | kernel/bio.c:115-135 | the two sections one after the other: unlocked, one reference less and, if it was the last, first in the ring |
| `Bio.BufferCache.Requeue` | kernel/bio.c:124-132 | the relinking, in place, is a move to the front |
| `Ring.UnlinkRing` | kernel/bio.c:126-127 | the two writes that unlink a buffer leave a ring of the others in the same order |
| `Ring.PushRing` | kernel/bio.c:128-131 | the four writes that push a buffer put it first and keep the rest |
| `Bio.Oldest` | kernel/bio.c:78-89 | when everything behind a buffer in the ring is busy, no idle buffer was released before it |
| `Bio.Rewritten` | kernel/bio.c:93-111 | a holder may change its buffer as long as what it pins, writes or releases is what the block holds; every cached and every pinned block stays coherent |
| `Fs.FileSystem.Balloc` | kernel/fs.c:66-87 | the lowest block whose bit is clear is marked and zeroed, nothing else changes, and the panic comes only with every block in use |
| `Fs.FileSystem.Bfree` | kernel/fs.c:90-103 | exactly the block's own bit is cleared |
| `Fs.FileSystem.Bmap` | kernel/fs.c:376-471 | the address is the one at the block's path through the index blocks, missing blocks on the path are allocated and logged and no other position of any inode changes; a present block costs nothing; fails only on a full disk |
| `Fs.FileSystem.Itrunc` | kernel/fs.c:478-556 | the inode reaches no block, exactly the blocks it reached are free, none is freed twice, and every other inode is as it was |
| `Fs.FileSystem.FreeTable` | kernel/fs.c:491-550 | an index block of any depth and everything below it are freed, each block once |
| `Fs.FileSystem.Readi` | kernel/fs.c:573-600 | for every file: the result is the requested slice of its bytes cut at its size, holes reading as zeros, or -1 exactly when the offset is past the end or wraps; no byte of any file changes, and nothing at all in a file without holes; panics only on a full disk |
| `Fs.FileSystem.Writei` | kernel/fs.c:604-640 | for every file: its bytes become the old ones with the new spliced in at the offset, every other file keeps its bytes, no hole appears, the ownership invariant holds; the log gets the blocks written, whatever was allocated with its bitmap and index blocks, the inode when the file grows, and nothing off the paths written; refused exactly past the end or over the limit; panics only on a full disk with one of the blocks still missing |
| `InodeTree.PathOfInjective` | kernel/fs.c:376-471 | no two block numbers of a file share a path through the index blocks |
| `InodeTree.PathOfIncreasing` | kernel/fs.c:376-459 | of two blocks of a file the earlier has the path that comes first, compared index by index |
| `InodeTree.PathOfOnto` | kernel/fs.c:376-459 | every path to a data block is that of some block number: with the previous row, block numbers count the data paths in order, ten direct ones first |
| `InodeTree.AtInWords` | kernel/fs.c:380-457 | what bmap finds for block bn in words: addrs[bn] below 10, then through addrs[10], addrs[11] and addrs[12], with the indices of one, two and three levels of 128 entries |
| `InodeTree.GrownAt` | kernel/fs.c:383-470 | hooking in a fresh block changes what is found at its own position and at no other position of any inode |
| `InodeTree.GrownInvariant` | kernel/fs.c:383-470 | no block is ever found at two positions, and the fresh block is the only one gained |
| `Ownership.AttachOwned` | kernel/fs.c:66-87 | allocation keeps: a data block's bit is set if and only if exactly one position of one inode holds it |
| `Ownership.FreeIsUnreached` | kernel/fs.c:66-87 | a block with a clear bit is a data block that no inode reaches |
| `Trunc.StillUsed` | kernel/fs.c:98-99 | during itrunc a block not freed yet is still marked, so the panic for freeing a free block is unreachable |
| `Trunc.EmptiedOwned` | kernel/fs.c:478-556 | truncation keeps the ownership invariant |
| `Trunc.NextSlotApart` | kernel/fs.c:478-556 | what hangs on one address of an inode is disjoint from what hangs on the earlier ones |
| `FileData.ExtendsBytes` | kernel/fs.c:376-471 | allocating blocks changes no byte of any file |
| `FileData.WithDataBytes` | kernel/fs.c:627-633 | overwriting part of one data block changes exactly those bytes of that file and no byte of another |
| `Fs.SplicedContent` | kernel/fs.c:604-640 | byte-wise agreement of the written range is the splice of the whole contents |
| `Dinodes.InodeStore.Iupdate` | kernel/fs.c:228-245 | word by word in the inode's block: the inode on disk takes the fields, the declared addresses and the two times; its other addresses, every other inode in the block and every other block stay |
| `Dinodes.InodeStore.Ilock` | kernel/fs.c:304-319 | the fields, the declared addresses and the times read are those on disk, whatever the cache entry held; panics exactly for an inode without a type |
| `Dinodes.InodeStore.Ialloc` | kernel/fs.c:201-222 | the first inode of type 0 becomes an empty one of the type and no other inode changes; panics exactly when none is free |
| `Dinodes.UnpackPack` | includes/kernel/fs.h:43-53 | an inode read back from its words is the one written, signed shorts included |
| `Dinodes.PackUnpack` | includes/kernel/fs.h:43-53 | writing back what was read changes no word |
| `Dinodes.OneInode` | includes/kernel/fs.h:55-59 | rewriting the words of one inode changes that inode and no other of the device |
| `Formats.DinodeBytes` | includes/kernel/fs.h:43-53 | the fields of an inode on disk by byte offset: 0, 2, 4, 6, 8, then 12 + 4k for the addresses, 64 and 68 |
| `Formats.HalfIs` | includes/kernel/fs.h:44-47 | the two bytes of a short are its two's complement |
| `Formats.InodePlace` | includes/kernel/fs.h:55-59 | inode i is the 72 bytes at offset 72 * (i % 7) of block i / 7 of the inode area |
| `Formats.BitmapBit` | includes/kernel/fs.h:61-65 | the bit of block b is bit b % 8 of byte b / 8 over the bitmap's blocks |
| `Formats.SuperBytes` | includes/kernel/fs.h:18-28 | the fields of the super block by byte offset |
| `Formats.HeaderWords` | kernel/log.c:99-110 | the log's header block holds the count and then the block numbers, and keeps its other words |
| `Formats.LogBlocks` | kernel/log.c:171-183 | block i of a transaction goes to block start + 1 + i of the log, and nothing else is written |
| `Formats.FileByteAt` | kernel/fs.c:594-599 | byte j of a file is byte j % 512 of its block number j / 512, bytes of a word being least significant first |
| `Formats.SpliceBytes` | kernel/fs.c:628-635 | what writei leaves, byte by byte: the new bytes from the offset on, the old ones elsewhere |
| `Dinodes.LoadStored` | kernel/fs.c:228-319 | iupdate and a later ilock give back every word of the inode, the two shared by times and addresses included |
| `Dinodes.StoreLoaded` | kernel/fs.c:228-319 | ilock followed by iupdate changes nothing on disk |
| `Dinodes.LoadedIff` | kernel/fs.c:304-319 | the addresses on disk become those in memory if and only if the double and triple indirect ones equal the two times; mkfs writes times of 0 (tools/mkfs.c:265-266) |
| `Dinodes.StampedIff` | kernel/fs.c:580 | readi's and writei's setting of a time leaves all block trees as they were if and only if the address in that word is the time |
| `Dinodes.StampedBelow` | kernel/fs.c:614 | the first NDIRECT + NINDIRECT blocks of every file survive it |
| `Dinodes.StampedInRange` | kernel/fs.c:580 | a time that is neither 0 nor a block of the data region leaves an address outside the region, which bmap and itrunc would follow; a time of 0 leaves none |
| `Dinodes.ReadLosesBlock` | kernel/fs.c:580 | a file whose block NDIRECT + NINDIRECT is lost to one readi |
| `LogBudget.ChunkFits` | kernel/file.c:123-129 | a chunk of filewrite logs at most 18 blocks, for every file, offset and allocation pattern: nine data, five index, three bitmap and one inode block |
| `LogBudget.DenseChunkFits` | kernel/file.c:123-129 | in a file without holes it logs at most 16: three index blocks, since a device of FSSIZE blocks cannot hold a file with triple indirect blocks |
| `LogBudget.AtMostTwoTables` | kernel/file.c:123-129 | nine consecutive blocks hang on at most two last-level index blocks |
| `LogBudget.FiveIndexBlocks` | kernel/file.c:123-129 | two last-level index blocks have at most five index blocks on their paths, whatever their depth |
| `LogBudget.ThreeIndexBlocks` | kernel/file.c:123-129 | below the triple indirect blocks nine consecutive blocks have at most three index blocks on their paths |
| `LogBudget.FewBlocks` | kernel/fs.c:376-471 | a file without holes has no more blocks than the device |
| `LogBudget.ThreeBitBlocks` | kernel/file.c:123-129 | a file system of FSSIZE blocks has at most three bitmap blocks |
| `FullChunk.Fullest` | kernel/file.c:131-148 | the bound of 16 is reached: on a device full but for ten blocks, in order by every invariant, a chunk is written and logs exactly 16 blocks |
| `FullChunk.NotHalted` | kernel/fs.c:66-87 | there balloc does not run out: if every block is in use, the ten are where the chunk wants them |
| `FileWrite.Chunk` | kernel/file.c:131-148 | one transaction writes the next chunk or is refused, logs at most 18 blocks and at most 16 in a file without holes, and leaves every other inode and file as it was |
| `FileWrite.Filewrite` | kernel/file.c:110-152 | a write of any length lays all its bytes over the file, or, only when the file would grow past its limit, the whole chunks before the first that does not fit; the offset advances by what was written and no other file changes |
| `Mkfs.Image.constructor` | tools/mkfs.c:96-118 | the image starts with the super block in block 1, no file and no block handed out |
| `Mkfs.PlanOk` | tools/mkfs.c:96-105 | for every size the log, inode, bitmap and data areas follow each other without overlap and the bitmap has a bit for every block |
| `Mkfs.SuperReadBack` | kernel/fs.c:43-50 | readsb gives back the super block mkfs wrote |
| `Mkfs.Image.Ialloc` | tools/mkfs.c:256-269 | a fresh inode number with an empty file |
| `Mkfs.Image.Locate` | tools/mkfs.c:304-385 | iappend's walk finds or hands out the block at the same path the kernel's bmap uses, and the blocks before the data area are untouched |
| `Mkfs.Image.Iappend` | tools/mkfs.c:288-400 | the bytes are appended to that file and to no other, and it fails only for a file over the limit or an image with no block left |
| `Mkfs.Image.Balloc` | tools/mkfs.c:271-284 | the bitmap written makes the kernel's ownership invariant hold on the image, with every file's bytes and the super block in place |
| `Mkfs.Image.ReadBack` | tools/mkfs.c:288-400 | the kernel's readi on the finished image returns exactly what mkfs appended |
| `Mkfs.BuiltGrows` | tools/mkfs.c:304-385 | handing out blocks in order keeps every position of every inode distinct |
| `Mkfs.BitmapWritten` | tools/mkfs.c:271-284 | one bit per block handed out is the kernel's ownership invariant |
| `Mkfs.BitmapKeepsFiles` | tools/mkfs.c:271-284 | writing the bitmap moves no file's bytes |
| `Monitor.SafeStep` | kernel/proc.c:405-444 | every step of sleep, wakeup and the code between keeps the two-lock discipline, for any code that meets its obligations; SleepLock, LogGate and Pipe prove that theirs does |
| `Monitor.WakeStep` | kernel/proc.c:405-463 | a step whose command wakes the channels it affects leaves no process asleep, or about to fall asleep, without a reason; SleepLock, LogGate and Pipe discharge the condition for the kernel's own code |
| `Monitor.SafeRun` | kernel/proc.c:405-463 | the discipline holds after every run from a start state |
| `Monitor.WakeRun` | kernel/proc.c:405-463 | the no-lost-wakeup invariant holds after every run whose commands all wake what they must |
| `Monitor.NoLostWakeup` | kernel/proc.c:405-463 | after any such run, with the lock free, every process asleep on a channel is one whose condition still holds |
| `Monitor.AlwaysPrompt` | kernel/proc.c:405-463 | a program all of whose commands wake what they must is prompt in every run |
| `SleepLock.LockingIsSafe` | kernel/sleeplock.c:21-39 | acquiresleep and releasesleep keep: the lock names its holder and the holder is past acquiring |
| `SleepLock.LockingWakes` | kernel/sleeplock.c:32-39 | releasing always wakes the waiters |
| `SleepLock.MutualExclusion` | kernel/sleeplock.c:21-39 | in every interleaving at most one process holds the lock, and it is the one recorded |
| `SleepLock.SleeperHasHolder` | kernel/sleeplock.c:21-30 | a process asleep on the lock while its spinlock is free has a holder other than itself that has yet to release |
| `SleepLock.AcquireDoes` | kernel/sleeplock.c:21-30 | acquiresleep takes a free lock in one step and in its own name, and sleeps exactly on a taken one |
| `SleepLock.ReleaseDoes` | kernel/sleeplock.c:32-39 | releasesleep frees the lock and then wakes the sleepers |
| `Pipe.PipingIsSafe` | kernel/pipe.c:57-115 | every command keeps: the ring holds exactly the accepted bytes not yet delivered, in order, with counters that wrap at 2^32 |
| `Pipe.PutKeeps` | kernel/pipe.c:88 | storing a byte when the ring is not full adds it behind the others |
| `Pipe.GetKeeps` | kernel/pipe.c:107-111 | taking a byte when the ring is not empty delivers the oldest |
| `Pipe.FullMeans` | kernel/pipe.c:80 | the wrapped counters differ by PIPESIZE exactly when that many bytes are waiting |
| `Pipe.EmptyMeans` | kernel/pipe.c:100 | the wrapped counters are equal exactly when everything accepted has been delivered |
| `Pipe.FirstInFirstOut` | kernel/pipe.c:74-115 | over every interleaving of any number of readers, writers and closers, the bytes delivered are a prefix of the bytes accepted, at most PIPESIZE wait, and the ring holds them |
| `Pipe.CommandWakes` | kernel/pipe.c:74-115 | a command wakes whom it must if and only if it is not the return of a pipewrite that gives up inside its loop |
| `Pipe.AnnouncedIsPrompt` | kernel/pipe.c:74-93 | every command of a run meets its obligation to wake exactly when no pipewrite gives up silently in it |
| `Pipe.NoWakeupLostIff` | kernel/pipe.c:74-115 | over every run: at no point, with the pipe's lock free, is a process asleep whose reason to wait is gone, if and only if no pipewrite gives up silently in the run while a reader is asleep |
| `Pipe.AsleepForCause` | kernel/pipe.c:74-115 | in those runs, a sleeping reader faces an empty pipe with an open write end and a sleeping writer a full one with an open read end |
| `Pipe.SilenceHarmless` | kernel/pipe.c:81-84 | the return that skips the wakeup breaks the no-lost-wakeup invariant if and only if a reader is asleep |
| `Pipe.SleepsBesideData` | kernel/pipe.c:81-84 | a reachable state in which a writer was killed on a full pipe and the reader sleeps beside PIPESIZE unread bytes |
| `PipeRuns.ReadsInOrder` | kernel/pipe.c:95-115 | over every run the bytes delivered are what the reads that returned put in their callers' buffers, one after the other, and then what the read in progress has |
| `PipeRuns.ReadGetsOldest` | kernel/pipe.c:107-113 | a read that returns has the oldest bytes waiting, as many as it asked for or all there were |
| `PipeRuns.WritesInOrder` | kernel/pipe.c:74-93 | over every run the bytes accepted from one process are the bytes of its writes, in order: all of each that returned, the first part of one that gave up, and the first part of the one in progress |
| `PipeRuns.WriteDoes` | kernel/pipe.c:79-89 | pipewrite stores a byte exactly if fewer than 512 wait; otherwise it gives up if the read end is closed or it was killed, or wakes the readers and sleeps |
| `PipeRuns.ReadDoes` | kernel/pipe.c:100-113 | piperead sleeps exactly on an empty pipe with an open write end; otherwise it takes the oldest byte until it has n or there is none, and then wakes the writers |
| `ProcTable.FindZombie` | kernel/proc.c:273-295 | wait's scan returns a zombie child if there is one, else whether there are children |
| `ProcTable.Wakeup1` | kernel/proc.c:448-455 | exactly the processes asleep on the channel become runnable |
| `ProcTable.PassOnChildren` | kernel/proc.c:247-253 | the loop with its calls of wakeup1 inside gives every child to init and wakes init exactly if one of them is a zombie |
| `ProcTable.ExitTable` | kernel/proc.c:241-257 | exit's changes to the table as a whole |
| `Scheduling.NextKeeps` | kernel/proc.c:64-494 | every step of allocproc, fork, scheduler, yield, sleep, wakeup, exit, wait and kill on any number of CPUs keeps the table's invariant |
| `Scheduling.ExitKeeps` | kernel/proc.c:219-259 | exit leaves no live process or zombie without a living parent and no waiting parent asleep beside a zombie child |
| `Scheduling.ReapKeeps` | kernel/proc.c:277-289 | reaping a zombie leaves no entry without its parent |
| `Scheduling.RunKeeps` | kernel/proc.c:64-494 | the invariant holds after every run from boot |
| `Scheduling.OneCpuEach` | kernel/proc.c:315-381 | whenever ptable.lock is free, a process is RUNNING if and only if some CPU runs it, and never two |
| `Scheduling.EveryZombieReapable` | kernel/proc.c:219-306 | after every run each live process and zombie but init has a living parent, and the parent of a zombie is not asleep in wait |
| `Scheduling.ReapedOnce` | kernel/proc.c:263-306 | a pid that exited is either reaped, once, or a zombie in the table, never both and never lost |
| `SchedSteps.WaitDoes` | kernel/proc.c:271-305 | with a zombie child, wait frees the first one's entry and hands over its pid and nothing else changes; with no child, or killed, only its own place changes; otherwise it sleeps on its own entry |
| `SchedSteps.ExitDoes` | kernel/proc.c:240-257 | the process is a zombie, exactly its children are init's now, and exactly those asleep in wait as its parent, or as init when it is given a zombie, are awake |
| `SchedSteps.AllocDoes` | kernel/proc.c:70-82 | allocproc takes the first free entry with a pid that no process in the table and none that exited has, or finds none |
| `SchedSteps.ForkDoes` | kernel/proc.c:173-212 | fork ends with the new process ready to run as a child of the one that forked, and no other entry changed |
| `SchedSteps.ForkFails` | kernel/proc.c:184-189 | fork without memory for the copy leaves the entry free |
| `SchedSteps.LeavesCpu` | kernel/proc.c:375-445 | sleep and yield take the process off its CPU, asleep on the channel or ready, to go on where it was |
| `SchedSteps.LookDoes` | kernel/proc.c:324-351 | the scheduler runs an entry it finds ready and passes over any other |
| `SchedSteps.WakeDoes` | kernel/proc.c:448-465 | wakeup makes ready exactly the processes asleep on the channel |
| `SchedSteps.KillDoes` | kernel/proc.c:468-496 | kill makes its process ready if it sleeps and changes no other |
| `Vm.Machine.constructor` | kernel/kalloc.c:31-42 | memory before any frame is freed |
| `Vm.Machine.Kalloc` | kernel/kalloc.c:77-89 | the head of the free list is handed out and was owned by no one; 0 exactly when the list is empty |
| `Vm.Machine.Kfree` | kernel/kalloc.c:55-72 | the caller's frame joins the list; no other frame's words change |
| `Vm.Machine.Freerange` | kernel/kalloc.c:44-50 | exactly the whole frames of the range become free |
| `Vm.Machine.Walkpgdir` | kernel/vm.c:34-53 | the table found or made is the one for the address; the address space is as before; fails only without a frame |
| `Vm.Machine.Mappages` | kernel/vm.c:58-77 | the address space gains exactly the pages of the range, or the first ones of it when a kalloc failed |
| `Vm.Machine.Deallocuvm` | kernel/vm.c:246-269 | exactly the pages from the rounded new size up to the old are unmapped and their frames freed; the jump over a missing table skips no page |
| `Vm.Machine.Allocuvm` | kernel/vm.c:213-240 | on success exactly the new pages are there, zeroed and on frames of their own; on failure, which needs one failed kalloc, the user mapping is as it was and only new tables stay |
| `Vm.Machine.Freevm` | kernel/vm.c:273-287 | every user frame, table and the directory itself are freed, each once, and no other frame changes hands |
| `Vm.Machine.Setupkvm` | kernel/vm.c:115-133 | a directory in which every address is translated as the kernel's memory map says, for all 2^32 of them, or, after one failed kalloc, every frame as before the call |
| `Vm.Machine.Copyuvm` | kernel/vm.c:303-332 | the child has exactly the parent's pages below sz with the same flags and contents on frames that were free, and every kernel address as the memory map says; the parent is untouched; after one failed kalloc every frame is as before the call |
| `Frames.TranslateIsLookup` | includes/generic/mmu.h:70-100 | for every address the processor's two-level walk over the words of directory and table equals a lookup in the flat page map that the operations are stated with |
| `Translation.MappedSeen` | kernel/vm.c:58-77 | after mappages the processor takes the addresses of the range to the given frames in order, and every other address of this and of every other space where it took it before |
| `Translation.UnmappedSeen` | kernel/vm.c:246-269 | after deallocuvm the addresses of the removed pages lead nowhere and every other one where it did |
| `Translation.CopySeen` | kernel/vm.c:303-332 | after copyuvm every user address below the size reads the same word in child and parent, from different frames, with the same permissions, and every address of the parent and of every other space leads where it did |
| `Translation.KernelSeen` | kernel/vm.c:84-112 | through the processor's walk: va - KERNBASE for physical memory, va itself from DEVSPACE on, nothing elsewhere; writable exactly outside the kernel's text and constants; never open to user code |
| `Translation.GrewSeen` | kernel/vm.c:213-240 | after allocuvm each new address leads to a zero word that user code may read and write; every other address leads where it did |
| `Frames.AllowedIsLookup` | kernel/vm.c:58-80 | whether the processor lets an address be written, or used by user code, is what the flat map's flags say |
| `Paging.PagesApart` | kernel/vm.c:303-332 | no two user pages, of one address space or of two, share a frame |
| `Paging.Conserved` | kernel/kalloc.c:44-89 | free frames and owned frames always make up the pool |
| `Paging.KernelRange` | kernel/vm.c:102-112 | the kernel's four ranges do not overlap each other or user memory |
| `Paging.KernelPage` | kernel/vm.c:102-112 | page by page: 57344 pages from KERNBASE on lead to the frames from 0 on, those from DEVSPACE on to themselves, no others are there, and exactly those of the kernel's text and constants are read-only |
| `Paging.SinceUndone` | kernel/vm.c:329-331 | freeing a half-made address space gives back exactly the frames taken since |
| `Paging.GrewBack` | kernel/vm.c:224-238 | a failed allocuvm's deallocation undoes exactly the pages it had added |
| `Paging.AllFreed` | kernel/vm.c:273-287 | user pages, tables and directory are all a directory owns |
| `Heap.Heap.FindPlace` | ulib/umalloc.c:31-33 | the walk round the ring stops at the node the block belongs after, and nowhere else, wherever it starts |
| `Heap.Heap.Free` | ulib/umalloc.c:26-45 | the block's units become free and nothing else changes hands; the ring stays sorted with no two adjacent blocks; every other live block keeps its contents |
| `Heap.Heap.Join` | ulib/umalloc.c:34-44 | the four cases of coalescing put the block in its place in the ring |
| `Heap.Heap.Morecore` | ulib/umalloc.c:47-61 | the new units are free and a block of the wanted size exists, or nothing changed |
| `Heap.Heap.Carve` | ulib/umalloc.c:74-84 | the whole block or its tail becomes live, and the rest of the ring is unchanged |
| `Heap.Heap.Malloc` | ulib/umalloc.c:63-89 | the result is a block of enough units, all free or new before, disjoint from every live block; if a free block is large enough, it succeeds and takes no new core; 0 only if sbrk failed and none is; every live block keeps its contents |
| `Heap.Heap.Memmove` | ulib/ulib.c:159-169 | the bytes are copied and no other unit changes |
| `Heap.Heap.Realloc` | ulib/umalloc.c:115-146 | the common prefix of the bytes survives, every other live block keeps its contents, and a failure leaves the old block in place |
| `Heap.InOneBlock` | ulib/umalloc.c:34-43 | full coalescing: a run of free units always lies in one free block |
| `Heap.UnitsConserved` | ulib/umalloc.c:26-89 | the units of the live blocks and those of the free blocks add up to all the units ever got from sbrk |
| `Heap.AllSmall` | ulib/umalloc.c:73-88 | when malloc's walk is back at freep no free block is large enough |
| `FreeRing.InsertSorted` | ulib/umalloc.c:34-43 | inserting with coalescing keeps the list sorted and fully merged |
| `FreeRing.InsertUnits` | ulib/umalloc.c:34-43 | inserting with coalescing adds exactly the block's units |
| `Shell.NextToken` | bin/sh/sh.c:281-323 | the pointer walk is the token function of the grammar |
| `Shell.PeekAt` | bin/sh/sh.c:325-334 | whether one of the characters comes next after blanks |
| `Shell.Redirs` | bin/sh/sh.c:385-407 | the redirections read by the loop are those of the grammar, in order |
| `Shell.Args` | bin/sh/sh.c:437-450 | parseexec's loop reads the grammar's arguments and the redirections among them, and fails at MAXARGS |
| `Shell.ExecAt` | bin/sh/sh.c:424-454 | parseexec is the grammar's simple command or block |
| `Shell.BlockAt` | bin/sh/sh.c:409-422 | parseblock is the grammar's block with its redirections |
| `Shell.PipeAt` | bin/sh/sh.c:373-383 | parsepipe is the grammar's pipeline |
| `Shell.LineAt` | bin/sh/sh.c:357-371 | parseline is the grammar's line |
| `Shell.Nulterminate` | bin/sh/sh.c:457-500 | exactly the characters at the ends of the tree's tokens become NUL |
| `Shell.CmdAt` | bin/sh/sh.c:341-355 | the tree is the grammar's for the whole line, and read as C strings from the cut buffer its arguments and names are exactly their tokens; a failed parse leaves the buffer alone |
| `Shell.LineWhole` | bin/sh/sh.c:341-455 | every argument and file name in a parsed tree is a maximal word of the line |
| `ShellWords.EveryWordOnce` | bin/sh/sh.c:341-455 | every maximal word of an accepted line is an argument or a file name of the tree, exactly once and in order, and the tree has no others |
| `ShellSyntax.TokenLaw` | bin/sh/sh.c:281-323 | a token is blanks, then one operator or a word as long as it can be, then blanks |
| `ShellLanguage.SentenceIsParsed` | bin/sh/sh.c:341-455 | every line that is a sentence of the grammar, however spaced and parenthesised and wherever redirections stand among arguments, is parsed to a tree with the sentence's meaning |
| `ShellLanguage.ParsedIsSentence` | bin/sh/sh.c:341-455 | every line that is parsed is such a sentence, and its tree has that meaning: with the previous row, the parser accepts exactly the language |
| `ShellLanguage.Unambiguous` | bin/sh/sh.c:357-384 | no line has two meanings |
| `ShellPrint.PrintedParses` | bin/sh/sh.c:341-455 | every command printed with parentheses only where precedence needs them is parsed back to itself |
| `Shell.ExactTokens` | bin/sh/sh.c:457-500 | no write of nulterminate falls inside another token |
| `ShellRoundTrip.PrintParses` | bin/sh/sh.c:357-454 | a printed tree in place in a line, closed by the end or a parenthesis, parses to a tree with the same meaning and leaves the rest of the line |
| `ShellRoundTrip.RoundTrip` | bin/sh/sh.c:341-355 | parsing what was printed gives back the tree, for every well-formed command tree |
| `Numbers.Strtol` | ulib/bsd/strtol.c:41-135 | the value is the exact integer of the longest run of digits clamped to a long, with the end where reading stopped, for every base and prefix |
| `Numbers.CutoffExact` | ulib/bsd/strtol.c:90-131 | the cutoff test passes if and only if one more digit still fits |
| `Numbers.OneMoreDigit` | ulib/bsd/strtol.c:100-132 | each digit keeps the accumulator equal to the clamped value of the digits read, with no overflow on the way |
| `Numbers.FillDigits` | ulib/printf.c:31-34 | ten places suffice in the 16-character buffer, which holds the numeral backwards |
| `Numbers.Printint` | ulib/printf.c:16-41 | the output is the numeral of the number, with a minus sign exactly for negative ones, the least int included |
| `Numbers.PrintThenRead` | ulib/printf.c:16-41 | strtol reads back, to the end, what printint prints, for every int |
| `Numbers.PrintThenReadHex` | ulib/printf.c:16-41 | strtol reads back what printint prints in base 16, clamped to the largest long |
| `Numbers.NumeralValue` | ulib/printf.c:30-34 | the numeral of a number, in every base from 2 to 16, has that number as its value digit by digit |
| `Numbers.ReadsSpelled` | ulib/bsd/strtol.c:54-133 | strtol reads a number with either sign or none, and after 0x in base 16 or 0 |
| `Numbers.Strtonum` | ulib/printf.c:119-142 | the verdict and the value for every text: invalid unless all of it is a number, else clamped to the range with the error that says which side |
| `Calendar.Converttime` | kernel/time.c:33-54 | the result is the seconds of the Gregorian date reduced to an int, hence exact if and only if they are below 2^31 |
| `Calendar.TooLate` | kernel/time.c:33-54 | the first date it gets wrong: 3:14:08 on 19 January 2038 becomes -2^31 |
| `Calendar.SecondsClosed` | kernel/time.c:33-54 | the seconds of a date in closed form, without the table of months and without counting years |
| `Calendar.Ctime` | ulib/time.c:4-45 | the fields are a valid date and exactly that many seconds after the epoch |
| `Calendar.SameDay` | kernel/time.c:33-54 | no two valid dates have the same day number |
| `Calendar.SameDate` | kernel/time.c:33-54 | no two valid dates have the same second |
| `Calendar.ThereAndBack` | ulib/time.c:4-45 | ctime undoes unix_converttime for every valid date whose seconds fit an int |
| `FileRefs.FileTable.Filealloc` | kernel/file.c:24-38 | a free file is handed out, or none is free |
| `FileRefs.FileTable.Fdalloc` | kernel/sysfile.c:39-51 | the process's lowest free slot takes over the reference, or it has none |
| `FileRefs.FileTable.Fileclose` | kernel/file.c:52-75 | one reference is dropped and the last one closes the file, its pipe end, and with the second end the pipe's page |
| `FileRefs.FileTable.Pipeclose` | kernel/pipe.c:57-72 | the end is shut, and the page freed exactly when both are |
| `FileRefs.FileTable.Dup` | kernel/sysfile.c:53-64 | the lowest free slot names the same file with one more reference; refused exactly for a bad descriptor or a full table |
| `FileRefs.FileTable.Close` | kernel/sysfile.c:88-98 | exactly that slot is cleared; refused exactly for a bad descriptor |
| `FileRefs.FileTable.Open` | kernel/sysfile.c:342-389 | a free file and the lowest free slot, or, exactly when one of them is missing, everything as before |
| `FileRefs.FileTable.Pipealloc` | kernel/pipe.c:22-55 | two free files become the ends of a new page, or, exactly when files or the page are missing, everything is as before |
| `FileRefs.FileTable.MakePipe` | kernel/sysfile.c:472-493 | the two lowest free slots name the two ends of a new pipe, or, exactly when something is missing, slots and files are as before and the page is given back |
| `FileRefs.FileTable.Fork` | kernel/proc.c:198-200 | the child's slots are the parent's, with every count raised to match |
| `FileRefs.FileTable.Exit` | kernel/proc.c:229-234 | exactly the process's slots are cleared and their references dropped |
| `FileRefs.RefsAreSlots` | kernel/file.c:24-75 | between system calls a file's count is the number of slots that name it |
| `FileRefs.FreedOnce` | kernel/pipe.c:57-72 | a pipe's page is freed if and only if no slot names either end, and then once |
| `Links.FileSystem.Dirlookup` | kernel/fs.c:648-671 | the first entry with the name, or there is none |
| `Links.FileSystem.Dirlink` | kernel/fs.c:674-700 | unless the name is present the first empty entry takes it, and dirlookup then finds it |
| `Links.FileSystem.Isdirempty` | kernel/sysfile.c:229-241 | whether anything stands after the two dots |
| `Links.FileSystem.Link` | kernel/sysfile.c:180-226 | one more entry and one more link, or, exactly for a directory, a missing parent or a taken name, everything as before; the tree stays in order, and no inode's distance between link count and entries moves if and only if the directory has links itself |
| `Links.FileSystem.Unlink` | kernel/sysfile.c:243-297 | succeeds exactly for a present name that is no dot and no directory in use, and panics exactly if what it names has no link; the entry goes, what it named has a link less, a removed directory takes its parent's link with it; for a file the tree stays in order and no distance moves but its own, by one, if the directory has no links; for a directory the tree stays in order if and only if the parent keeps a link and the directory loses its last, and then no distance moves; in a balanced file system that always holds, and it never panics |
| `Links.FileSystem.Create` | kernel/sysfile.c:299-340 | a new entry for the new inode, with dots and the parent's link for a directory; an existing name yields its file or nothing; for files, devices and directories the distances stay if and only if the parent has links, and the tree is in order if and only if that or the new inode is no directory |
| `Links.FileSystem.constructor` | tools/mkfs.c:120-131 | mkfs's root and free inodes are in order and balanced |
| `Links.FileSystem.EnsureDir` | tools/mkfs.c:450-473 | a directory made by mkfs keeps the tree in order and leaves its parent one link short; no other distance moves |
| `Links.FileSystem.AddFile` | tools/mkfs.c:175-180 | a file added by mkfs keeps the tree and every distance |
| `Links.RootLosesItsLink` | tools/mkfs.c:436-477 | an image with one directory, in order and not balanced, on which unlink of that directory leaves the root without links |
| `Links.MadeInRemoved` | kernel/sysfile.c:323-335 | a run of create and unlink that ends with a directory made in a removed one: the removed one has a link again, its parent is one link short, and the tree is broken |
| `Links.FileInRemoved` | kernel/sysfile.c:299-340 | a run that ends with a file made in a removed directory: it has a link and no entry that counts |
| `Directories.EmptyHasOneRef` | kernel/sysfile.c:271-274 | a directory with nothing after its dots is named by exactly one entry, its parent's, and is not the root |
| `Directories.ParentHasTwoRefs` | kernel/sysfile.c:279-282 | the parent of a directory is named by at least two entries |
| `Directories.RemovableBySlack` | kernel/sysfile.c:276-287 | the condition for removal in terms of distances: the directory's is 0 and the parent's does not use up all but one of its entries; it holds wherever neither is below 0 |
| `Directories.TreeMadeIff` | kernel/sysfile.c:326-335 | a new directory keeps the directories a tree of parents and dots if and only if its parent has links |
| `Directories.RemovalIff` | kernel/sysfile.c:276-287 | removing an empty directory keeps the tree if and only if the parent keeps a link and the directory loses its last |
| `Directories.SlackMade` | kernel/sysfile.c:323-335 | create of a directory moves no distance where the parent has links; a parent without gets its entries counted again, one by one |
| `Directories.MadeIff` | kernel/sysfile.c:323-335 | create of a directory keeps every distance if and only if the parent has links |
| `Directories.SlackGone` | kernel/sysfile.c:276-287 | removal of a directory keeps the distance of every inode's link count from the entries that name it, where the parent keeps a link and the directory loses its last |
| `Directories.SlackPlain` | kernel/sysfile.c:180-226 | an entry for something other than a directory comes or goes together with one link: no distance moves in a directory with links, and exactly that inode's by one in a directory without |

## Left out

- Path resolution (namex, nameiparent) and the inode cache's references (iget, iput): the inodes found are parameters of the directory operations.
- The packing of directory entries into bytes: a directory is a sequence of entries. In `Fs` the inodes on disk are typed records too; `Dinodes` has their words.
- Device inodes in readi and writei. Access and modification times are in `Dinodes` only.
- log_sync, bsync and fssync, which commit while operations are outstanding and write buffers they have not locked.
- The branch of log_write that begins an operation of its own: its end_op would commit while the caller still holds the buffer.
- Symbolic links: their text shares the address words with block numbers and their link count is never set.
- mkfs's rounding of the root directory's size, its directory lookup and the splitting of its paths.
- growproc, exec, signals, trap handling, system-call argument fetching and getcwd.
- Device drivers, boot code and assembly: the disk is a store of blocks and a spinlock an atomic step.
- The stdio wrappers, calloc, the other library functions, the user programs and the shell's execution of a parsed command.
- Fairness and progress: sleepers are proved to have a cause, not to be scheduled within any time.
- Log.Log.WriteLog: asks that no process has a reference to a listed block or a log block. fileread takes no part in operations (`kernel/file.c:91-105`), so one may, and bread would then wait for it.
- Log.Log.InstallTrans: asks for the same; the wait for such a reader is not part of the model.
- Log.Log.Commit: asks for the same.
- Log.Log.EndOp: asks for the same when it commits; in `LogRun` such a call does not go through yet.
- Bio.BufferCache.Bget: asks that the process has no reference to the block already, which would make it wait for itself.
- FileWrite.Filewrite: does not model the append flag, which filealloc does not reset, or a negative length.
- Numbers.Strtol: asks for a printable character in the text, since the loop that skips blanks does not stop at the end of the string.
- Numbers.Strtonum: asks for a printable character in the text, as strtol does.
- Numbers.Printint: negates the least int as two's complement hardware does.
- Heap.Heap.Malloc: bounds the request so that the unit arithmetic does not wrap and, where core must be asked for, sbrk's int argument is not negative; the static base is taken to lie below the heap.
- Heap.Heap.Realloc: bounds the request as malloc does.
- Vm.Machine.Deallocuvm: asks for sizes within user memory, where all callers stay; near the top of the address space the jump over a missing table would wrap.
- Vm.Machine.Copyuvm: asks for the pages below sz to be present; the panics for missing pages are that precondition.
- Shell.CmdAt: tells a syntax error from a tree but not one syntax error from another; the shell gives `>>` the same tree as `>`, and so does the model.
- Scheduling.ReapedOnce: does not model the wrap-around of process ids.
- Links.FileSystem.Link: does not model the 16-bit wrap-around of link counts.
- Links.FileSystem.AddFile: asks for a name that is not there, which mkfs does not look for.
- Links.FileSystem.Unlink: does not free the inode of a last link, which iput does.
