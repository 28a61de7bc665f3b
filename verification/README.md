# A verified model of the xv6 kernel with compare-and-swap scheduling and signals

A Dafny model of the parts of the kernel and its user programs that are hardest to get right, with proofs of what
they promise. `dafny verify dfyconfig.toml` checks all of it.

| file | models |
|---|---|
| `LogDisk.dfy`, `GroupCommit.dfy`, `Log.dfy`, `LogRefines.dfy` | the redo log of log.c: the writes of a commit and of a recovery as values, every interleaving of system calls with crashes, the code over the buffer cache, and that the code takes the steps of the interleaving |
| `Bio.dfy` | the buffer cache of bio.c over the memory disk |
| `FsAlloc.dfy`, `FsInode.dfy`, `FsDinode.dfy`, `FsFile.dfy` | the block bitmap, direct and indirect blocks, inodes on the disk, readi, writei, itrunc, and filewrite's use of log space |
| `Tree.dfy`, `TreeOps.dfy` | directories, link counts and the shape of the tree under link, unlink and create |
| `Kalloc.dfy`, `VmSpace.dfy`, `Vm.dfy` | the page allocator and two-level page tables (32-bit paging, section 4.3 of volume 3A of the Intel Software Developer's Manual) |
| `Umalloc.dfy` | the user-level allocator |
| `Proc.dfy`, `ProcInv.dfy`, `ProcRuns.dfy`, `ProcLife.dfy` | the CAS protocol of the process table, as an interleaving step system, and the life cycle that it gives a process |
| `Signals.dfy`, `SigRace.dfy` | the signal pass on return to user mode, delivery and sigret; and the unlocked word of pending signals, as an interleaving of loads and stores |
| `Shell.dfy`, `ShellLex.dfy`, `ShellItems.dfy`, `ShellPrint.dfy`, `ShellParse.dfy` | the shell's command parser |
| `Pipe.dfy`, `Grep.dfy` | the pipe and the pattern matcher |
| `Base.dfy` | bytes, words and other shared things |

Conventions. Code that updates fields in place is a class (or methods over one), proved against specification functions
and predicates on values; lemmas about those carry the main results. A kernel panic is a result of the method (`None`,
`false`, `Panicked`), and the contract says when it can happen. Clocks, other processes' actions and the success of
`sbrk` are parameters. Lock-protected stretches are atomic; where the code gives up a lock in the middle (pipes, the log,
the process table) each stretch is a step of its own. Some large predicates are "folded" as a quantifier over a number
that their body ignores, so that a proof unfolds them only where it names them; this does not change what they say. In the same
way a few counts (`FsFile.WriteNeeds`, `FsAlloc.FreeCount`, `FsFile.Spent`, `Bio.Room`) are written as the value that a folded predicate
determines; a lemma beside each says what it is.

Some things in the code do not hold as one would wish. The model keeps them, shows each at an input, and proves exactly
when the promise holds.

- The three CAS of the scheduler's post-switch block are separate instructions, and the second or third can hit a process
  that another CPU has meanwhile dispatched again or is waking. `ProcRuns.StaleCasIsUnsafe` is a run in which a process
  ends up current on two CPUs; by `ProcRuns.ProtocolIsSafe` a run is safe throughout if and only if none of its CAS is
  stale in this sense.
- The word of pending signals is loaded and stored back without a lock, and fork() stores zero into it after the child's
  pid is known. `SigRace.PassLosesSigkill` and `SigRace.ForkLosesSigkill` are runs in which an accepted SIGKILL vanishes;
  by `SigRace.SigkillKeptIff` one is never lost on a run if and only if no kill() of SIGKILL falls between a load that did
  not see it and the store that follows, nor before such a store of zero. (The compiled code, kernel.asm:8863-8873, has one
  load for several turns of the pass; the model lets any time pass between a load and its store.)
- In `malloc`, rounding a request up to units wraps near 4 GB (`Umalloc.UnitsSuffice`, `Umalloc.UnitsWrap`), and the
  argument of `sbrk` goes negative from 2 GB, where `growproc` takes the request for one to shrink. It may then report
  success, and a block beyond the end of the process goes on the free list (`Umalloc.TwoGigabytes`), or it may report
  failure after it has freed every page of the process (`Umalloc.WholeProcessGone`). By `Umalloc.MorecoreKeepsIff` the
  free list stays within the process, and the process keeps its pages, if and only if the size fits an int.
- Freeing a page frame twice closes the free list into a circle: `Kalloc.Memory.Kfree` says when.

## Model

| member | source | states |
|---|---|---|
| `LogDisk.CrashAtomicity` | log.c:69-202 | a commit stopped after any number of block writes, recoveries stopped any number of times, then one that completes: the home area is as before the transaction, or has all of it exactly if the header write had reached the disk; the log is empty |
| `LogDisk.CommitIsAtomic` | log.c:177-202 | after every prefix of the commit's writes the state that recovery would produce is the old one or the new one, never a mixture, and switches at the header write |
| `LogDisk.RecoveryIsIdempotent` | log.c:69-122 | every prefix of recovery's writes leaves the recovered state unchanged; the whole of it installs that state and clears the log |
| `LogDisk.AttemptsPreserve` | log.c:115-122 | any number of interrupted recoveries preserves the recovered state |
| `LogDisk.OverlaidAbsorbs` | log.c:69-82 | installing some logged blocks does not change what the log overlays |
| `LogDisk.HeadBlockRoundTrip` | log.c:85-113 | the header block read back is the transaction that was written |
| `GroupCommit.AllOrNothing` | log.c:125-233 | in every state of every interleaving with crashes, recovery gives the effect of a prefix of the logged writes that splits no system call; nothing is outstanding during a commit; readers see all logged writes |
| `GroupCommit.LogNeverOverflows` | log.c:125-141 | begin_op's reservation keeps the transaction within LOGSIZE and without duplicates on every run, with at most three calls active |
| `GroupCommit.StepKeeps` | log.c:125-233 | the invariant behind both: every step of a call, of the commit, of a crash and of recovery keeps it |
| `GroupCommit.ViewIsOverlay` | log.c:177-190 | what the commit logs, overlaid on the disk, is exactly what readers of the cache see |
| `GroupCommit.CommittedHome` | log.c:192-202 | when the last write of a commit is done the whole history is in its home locations and the log is empty |
| `Log.FillHead` | log.c:101-113 | the header block holds the count and the block numbers and keeps its other words |
| `Log.Log.WriteHead` | log.c:101-113 | exactly one disk write, of the header block for the current transaction, exactly if there is a buffer for it |
| `Log.Log.WriteLog` | log.c:177-190 | the disk sees exactly the log-block writes in order; readers and pins are unaffected but for the log area; it gets through exactly if there is a buffer for each log block |
| `Log.Log.InstallTrans` | log.c:69-82 | the disk sees exactly the install writes in order; each unpins its block; exactly when it gets through |
| `Log.Log.CopyBlock` | log.c:74-81 | one block becomes a copy of the other's latest value, by one disk write, exactly if there are buffers for both |
| `Log.Log.Commit` | log.c:192-202 | whatever happens, the disk has performed a prefix of CommitWrites and nothing else; it performs all of it, with the transaction empty, nothing pinned and every block reading as before, exactly if there is nothing to commit, or some buffer may be recycled, or somebody refers to the header and each log block |
| `Log.Log.CommitAlone` | bio.c:78-92 | when nobody else has a buffer, a commit gets through exactly if the transaction has fewer blocks than the cache has buffers |
| `Log.Log.ReadHead` | log.c:85-96 | the in-memory transaction is that of the header block, exactly if there is a buffer for it; the disk is not written |
| `Log.Log.RecoverFromLog` | log.c:115-122 | the disk performs a prefix of RecoveryWrites and nothing else; all of it, with the log ready and empty, exactly if there are buffers for the header and for each log block with its home block |
| `Log.TwoBuffers` | log.c:69-122 | two free buffers are enough for a recovery |
| `Log.Log.TryBeginOp` | log.c:125-141 | a call is admitted exactly if no commit is going on and its reservation fits |
| `Log.Log.LogWrite` | log.c:213-233 | the block joins the transaction at most once and is pinned; exactly when it panics |
| `Log.Log.EndOp` | log.c:145-174 | only the last call out commits, and then by a prefix of CommitWrites, all of them exactly if the commit has its buffers; otherwise the disk is untouched; panics exactly during a commit |
| `LogRefines.BeginOp` | log.c:125-141 | begin_op is admitted exactly when the step of the interleaving model is possible, and is that step |
| `LogRefines.LogWrite` | log.c:213-233 | log_write of a held buffer is the step that logs its present value |
| `LogRefines.Update` | log.c:208-212 | the typical use, to read, change, log and release a block, is one step that logs the new contents; it fails exactly if there is no buffer or no room in the log |
| `LogRefines.EndOp` | log.c:145-202 | end_op is the step of that name and, for the last call, one step for each block write of the commit; where the kernel stops in between, the disk is that of the state reached; exactly when it completes |
| `LogRefines.Recover` | log.c:115-122 | recovery on a new cache is a run of recovery steps; exactly when it completes |
| `LogRefines.EndPath` | log.c:145-202 | the writes of a commit, in order, are a run of the interleaving model, so its crash theorem covers every stop |
| `Bio.Cache.Binit` | bio.c:38-56 | the prev/next list is a ring through all buffers |
| `Bio.Cache.FindCached` | bio.c:61-76 | a cached block is found, and only its own buffer |
| `Bio.Cache.FindRecyclable` | bio.c:78-92 | the least recently used unreferenced clean buffer, or proof that there is none |
| `Bio.Cache.Bget` | bio.c:61-93 | the caller gets a reference to the one buffer of the block; a buffer is taken from another block only if nobody refers to it and the log has not pinned it, and then it is the least recently used such; no other buffer changes; panics exactly if the block is not cached and every buffer is referenced or pinned |
| `Bio.Cache.Recycle` | bio.c:78-92 | the recycled buffer is unreferenced, clean and the least recently used one that is; every other buffer keeps block and contents |
| `Bio.Cache.Bread` | bio.c:96-106 | a caller that finds the block unlocked holds it; one that finds it locked has a reference to the same buffer, which no later call recycles; what all readers see is unchanged |
| `Bio.Cache.Lock` | bio.c:73-105 | a waiter that gets the lock holds the block with its latest value, read from the disk if need be |
| `Bio.Cache.HandOver` | bio.c:61-141 | what one process writes to a block is what a process that waited for it reads, from the same buffer, which keeps its place in the list meanwhile; it fails exactly if there is no buffer |
| `Bio.Cache.GetData` | bio.c:96-106 | the holder reads the latest value of its block |
| `Bio.Cache.SetData` | log.c:77 | only the block that is held gets a new latest value |
| `Bio.Cache.Pin` | log.c:231 | the block is pinned; nothing else changes |
| `Bio.Cache.Bwrite` | bio.c:109-116 | one disk write of the latest value, which unpins the block |
| `Bio.Cache.Unlock` | bio.c:121-126 | the block is no longer held, while the releaser still refers to it |
| `Bio.Cache.Unref` | bio.c:128-138 | one reference less; exactly the last one moves the buffer to the front of the ring, and the others keep their order |
| `Bio.Cache.Brelse` | bio.c:120-141 | both: the block is no longer held, and the last user's buffer moves to the front of the ring, the others keeping their order |
| `Bio.Cache.MoveToFront` | bio.c:130-138 | the pointer updates yield the ring with this buffer first and the others in order |
| `Bio.BuffersLeft` | bio.c:78-92 | some buffer may be recycled exactly if fewer blocks are pinned, held or referred to than there are buffers; if none may, these blocks are the ones cached |
| `Bio.BufferIff` | bio.c:61-93 | bget has a buffer for a block exactly if it is cached or some buffer may be recycled |
| `Bio.RingUnlink` | bio.c:132-133 | unlinking one node of a ring leaves the ring of the others |
| `Bio.RingPushFront` | bio.c:134-137 | linking a node behind the head puts it in front |
| `Bio.CoversMoved` | bio.c:130-138 | moving to the front keeps the list a list of all buffers |
| `Bio.RecycleOk` | bio.c:80-92 | recycling a clean buffer loses nothing: every block reads as before |
| `Bio.ReplaceOk` | bio.c:96-116 | a change of one buffer and its disk block changes the view of that block alone |
| `Bio.ReplaceRefs` | bio.c:71-129 | every reference count stays the number of processes that hold, wait for or are about to let go of the buffer |
| `Bio.RecycleRefs` | bio.c:82-86 | so it does when a buffer changes blocks, as nobody refers to either |
| `Bio.CleanIsDisk` | bio.c:78-106 | a block that is neither pinned nor held reads as it is on the disk |
| `FsAlloc.Disk.Balloc` | fs.c:56-78 | the first free block, now marked, zeroed and logged with its bitmap block; no other bit or block changes; panics exactly on a full disk |
| `FsAlloc.Disk.Take` | fs.c:66-72 | exactly one bit is set and one block zeroed |
| `FsAlloc.Disk.Bfree` | fs.c:81-95 | exactly one bit is cleared; panics exactly if it was clear |
| `FsAlloc.WithBitFlips` | fs.c:66-68 | byte and mask address one bit of the map: no other block's bit changes |
| `FsInode.WordSet` | fs.c:390-393 | storing an entry of an indirect block changes that entry alone |
| `FsInode.OwnedAdd` | fs.c:372-400 | a fresh block in an empty slot keeps all blocks of all inodes distinct, in range and in use |
| `FsInode.SetInInode` | fs.c:378-388 | a zeroed block as direct or indirect block changes that one slot and no other inode's |
| `FsInode.SetInIndirect` | fs.c:389-394 | an entry of the indirect block changes that one slot and no other inode's |
| `FsInode.MappedGrows` | fs.c:372-400 | a file that gets its next block keeps its contents |
| `FsInode.MappedOthers` | fs.c:372-400 | other files keep extent and contents when bmap allocates |
| `FsInode.PatchFile` | fs.c:498-504 | copying into one block splices the bytes into the file's contents; every other file keeps its own |
| `FsInode.BytesInBlock` | fs.c:469-474 | the stretch of a block that readi copies is the stretch of the file's contents |
| `FsInode.StillUsed` | fs.c:407-435 | while an inode is truncated its next block is still marked in use |
| `FsInode.TruncatedOwned` | fs.c:407-435 | after truncation the inode owns nothing and every other inode still owns its blocks |
| `FsDinode.InodeRoundTrip` | fs.h:29-36 | the 64 bytes of an inode on the disk give back every field |
| `FsDinode.InodeLayout` | fs.h:29-36 | each field is at its offset in struct dinode |
| `FsDinode.GetPut` | fs.c:226-234 | storing an inode into its block changes that inode and none of the seven others |
| `FsFile.FileSystem.Iupdate` | fs.c:220-236 | the inode blocks hold the table with this inode replaced by the one in memory, its neighbours as they were |
| `FsFile.FileSystem.Bmap` | fs.c:372-400 | an existing block is returned with nothing changed; a missing one is allocated fresh and zeroed, existing blocks keep number and contents, ownership is kept, and the blocks logged are listed; panics exactly if fewer blocks are free than it needs, one or two |
| `FsFile.FileSystem.BmapIndirect` | fs.c:383-397 | the same through the indirect block, which is allocated if missing |
| `FsFile.FileSystem.Readi` | fs.c:452-476 | the clipped slice of the file's contents, without changing or allocating anything; exactly when it fails |
| `FsFile.FileSystem.Writei` | fs.c:481-511 | contents become old[..off] + src + old[off+n..], other inodes and files unchanged, memory and disk inode agree, no holes; the set of blocks logged is given exactly, and its size bounded; exactly when it fails, and panics exactly if fewer blocks are free than the blocks of the range that the file lacks, with its indirect block if that is needed and missing |
| `FsFile.FileSystem.WriteAll` | fs.c:498-504 | the loop of writei over blocks of any alignment; it gets through exactly if there are enough free blocks, and takes as many as it needs |
| `FsFile.FileSystem.WriteChunk` | file.c:136-145 | one transaction of filewrite logs at most MAXOPBLOCKS blocks; panics exactly if it needs more blocks than are free |
| `FsFile.FileSystem.Filewrite` | file.c:117-156 | exactly the chunks that the largest file has room for are written, in order, and the result tells whether all were; panics exactly if that needs more blocks than are free; no transaction exceeds its log reservation, for any offset, length and disk |
| `FsFile.SpentIsNeeded` | fs.c:498-504 | the rounds of writei take one block for each block of the range that the file lacks, and one for the indirect block if one of those needs it |
| `FsFile.NeedsClosed` | fs.c:481-511 | that number in closed form, by the size of the file before and after |
| `FsFile.NeedsAdd` | file.c:128-152 | writing in chunks needs as many blocks as writing at once |
| `FsFile.ChunkFitsBudget` | file.c:127-138 | the bound for a chunk is at most MAXOPBLOCKS |
| `FsFile.WriteLogsSize` | fs.c:481-511 | the blocks that a write logs, counted as distinct blocks, stay within the bound, as an unaligned first block exists already |
| `FsFile.ChunkReachesBudget` | file.c:127-138 | a full unaligned chunk with three new blocks and a new indirect block, in four different bitmap blocks, logs exactly MAXOPBLOCKS blocks |
| `FsFile.TallyStep` | fs.c:498-504 | each round of writei logs its data block, the bitmap block of a new one, and what a new entry of the indirect block costs, once |
| `FsFile.FileSystem.Itrunc` | fs.c:407-435 | the file is empty and exactly the blocks it owned are free again; "freeing free block" is not reached; nothing else changes |
| `FsFile.FileSystem.TruncIndirect` | fs.c:421-431 | the indirect block and all blocks it lists are freed |
| `Tree.AddKeeps` | sysfile.c:118-165 | a new name for a file in a live directory keeps link counts equal to the number of names, names unique, and live directories a tree |
| `Tree.RemoveKeeps` | sysfile.c:218-229 | so does the removal of a file's name |
| `Tree.HangKeeps` | sysfile.c:260-278 | so does the creation of a directory |
| `Tree.DropKeeps` | sysfile.c:213-229 | so does the removal of an empty directory |
| `Tree.FreeKeeps` | fs.c:331-352 | so does freeing an inode without names |
| `Tree.EmptyOneName` | sysfile.c:168-181 | a directory with only "." and ".." has exactly one name, so its count drops to 0 |
| `Tree.PathExists` | fs.c:624-657 | every live directory is reached from the root by a path of names as long as its depth |
| `Tree.PathUnique` | fs.c:624-657 | and by only one: live directories are a tree |
| `Tree.DeadParent` | sysfile.c:118-165 | a name added in a directory that is no longer linked makes the count too high, so the condition on the parent is exact |
| `TreeOps.Files.constructor` | mkfs.c:117-128 | the file system with only a root directory has the invariant |
| `TreeOps.Files.Dirlookup` | fs.c:524-548 | the first entry with the name, or none exactly if there is none |
| `TreeOps.Files.Dirlink` | fs.c:551-578 | fails exactly on a name that is there; panics exactly on a full directory; else the first empty entry, or a new last one, holds the name and no other entry changes |
| `TreeOps.Files.Isdirempty` | sysfile.c:168-181 | true exactly if no entry behind the first two is in use |
| `TreeOps.Files.Ialloc` | fs.c:194-214 | the first free inode; panics exactly if there is none |
| `TreeOps.Files.Iput` | fs.c:331-352 | the last reference truncates and frees an inode exactly if it has no names, and the invariant is kept |
| `TreeOps.Files.Link` | sysfile.c:118-165 | exactly when it fails, and then every count is back as it was; panics exactly on a full directory; otherwise one name and one link more, invariant kept |
| `TreeOps.Files.Unlink` | sysfile.c:184-239 | never reaches "nlink < 1"; exactly when it fails, and then nothing changes; otherwise that name is gone and the counts of file and parent are right |
| `TreeOps.Files.Create` | sysfile.c:241-283 | an existing file is returned unchanged; otherwise the first free inode with one name, and for a directory "." and ".." and a link for the parent; fails exactly without a parent or on a name that is there and may not be reused; panics exactly for want of an inode or of room in the directory |
| `TreeOps.Files.MakeDots` | sysfile.c:269-275 | a new directory gets "." and ".."; that does not fail |
| `Kalloc.Memory.Kalloc` | kalloc.c:82-95 | a frame that was free and now is not, or 0 exactly if none is free |
| `Kalloc.Memory.Kfree` | kalloc.c:59-77 | the frame is filled with junk and no other changes; exactly when it panics; if it was not free, it is now first in the list; if it was, the list never ends |
| `Kalloc.ListEnds` | kalloc.c:82-95 | a free list ends behind as many links as it has frames |
| `Kalloc.Circle` | kalloc.c:72-74 | a frame freed a second time leads, by any number of links, never to the end of a list |
| `Kalloc.Memory.Freerange` | kalloc.c:46-53 | exactly the frames of the range are added, each once |
| `Kalloc.LinkedPush` | kalloc.c:72-74 | the list threaded through the frames stays a list without repetition |
| `VmSpace.AddTable` | vm.c:44-52 | a zeroed frame entered in the directory is a new page table and maps nothing |
| `VmSpace.SetEntry` | vm.c:71-73 | storing an entry changes the mapping of that one page in the flat map |
| `VmSpace.StepTable` | vm.c:44-52 | allocating a page table moves one frame from the free list to the space and conserves the rest |
| `VmSpace.StepMap` | vm.c:69-73 | mapping a page brings in its frame and touches nothing else |
| `VmSpace.StepUnmap` | vm.c:269-276 | unmapping a user page returns its frame and conserves the rest |
| `VmSpace.WithoutSkip` | vm.c:266-268 | skipping a whole missing page table is the same as visiting its pages |
| `VmSpace.StepKeepsOthers` | vm.c:35-298 | an operation on one address space keeps every other: mappings, contents, and no shared frames |
| `VmSpace.CarvedFreed` | vm.c:283-298 | giving back a space made of free frames restores the set of free frames |
| `Vm.Walkpgdir` | vm.c:35-55 | the page table of an address, allocated exactly if asked for and missing; its directory entry leaves the decision on access to the table |
| `Vm.Mappages` | vm.c:60-80 | the flat map gains exactly the range, user or kernel, or a prefix of it when memory runs out; the frames taken are those mapped and the missing page tables, counted; panics only on a page that is there already |
| `Vm.Deallocuvm` | vm.c:255-279 | exactly the pages between the two sizes are gone and their frames free; page tables stay |
| `Vm.Allocuvm` | vm.c:221-249 | succeeds exactly if there are enough frames for the pages and their missing page tables, and then has zeroed writable user pages exactly in the range; on failure the mappings are as before and every frame is free again or a page table of the space |
| `Vm.Unwind` | vm.c:235-246 | the cleanup of a failed allocuvm, including the frame that was not mapped |
| `Vm.Freevm` | vm.c:283-298 | everything that the space owned is free, and no other frame is touched |
| `Vm.KernelPagesIn` | vm.c:103-115 | the kernel's mappings are above user space and do not overlap |
| `Vm.KernelTablesCount` | vm.c:103-115 | the kernel's mappings take 64 page tables, and which, wherever its data begins |
| `Vm.KernelPageAt` | vm.c:82-115 | the same of each page: whether it is mapped, to which frame, and who may use and write it |
| `Vm.Setupkvm` | vm.c:118-136 | a space with exactly the kernel's mappings, made of free frames, exactly if 65 are free: all of physical memory at KERNBASE and the devices where they are, not for user mode, and not writable exactly from KERNLINK up to the kernel's data; on failure the same frames are free as before |
| `Vm.Copyuvm` | vm.c:315-345 | each page has a new frame of its own with equal flags and contents, and the kernel's pages are as in every space; parent unchanged; succeeds exactly if no page is missing and there are frames for directory, kernel page tables, pages and their page tables; panics exactly if a page is missing and there are enough for those before it; runs out of memory otherwise, and then the same frames are free as before |
| `Umalloc.UnitsSuffice` | umalloc.c:69 | the units hold header and bytes exactly if rounding up does not wrap, and no fewer would |
| `Umalloc.UnitsWrap` | umalloc.c:69 | a request for which it wraps |
| `Umalloc.MorecoreAsksEnough` | umalloc.c:46-54 | at least 4096 units and no more than needed are asked for, and sbrk is asked for what is needed exactly if that fits an int |
| `Umalloc.SbrkCoversIff` | proc.c:193-210 | sbrk that fails leaves every page in place, and sbrk that succeeds gives room for the block, each exactly if the size fits an int; it then fails exactly if there is no such memory |
| `Umalloc.SbrkRoundTrip` | proc.c:193-210 | growing and shrinking by the same number of bytes restores size and pages; shrinking below nothing does nothing |
| `Umalloc.TwoGigabytes` | umalloc.c:46-61 | a request for which sbrk succeeds without giving anything and a block of 2 GB beyond the break goes on the list |
| `Umalloc.WholeProcessGone` | proc.c:203-205 | the requests for which sbrk frees every page and then reports failure: 4 GB less a header and the size of the process |
| `Umalloc.MorecoreKeepsIff` | umalloc.c:46-61 | whether sbrk fails or not, the free list is one of blocks below the break, and all pages below the break are there, if and only if the size of the new block fits an int |
| `Umalloc.Allocator.Sbrk` | sysproc.c:48-60 | what growproc does to the size and to the pages with a positive, a zero and a negative argument, with the wrap of the new size and the new size of zero that it takes for a failure |
| `Umalloc.InsertSorted` | umalloc.c:24-44 | freeing keeps the list address-ordered, disjoint and fully coalesced |
| `Umalloc.InsertTotal` | umalloc.c:24-44 | and conserves units |
| `Umalloc.FreeUndoesTakeWhole` | umalloc.c:76-77 | freeing a block just taken whole gives back the same list |
| `Umalloc.FreeUndoesTakeTail` | umalloc.c:78-82 | freeing a block just cut off joins the two again |
| `Umalloc.Allocator.FindPlace` | umalloc.c:30-32 | the search ends, at the last free block below the one being freed, also across the wrap of the circle |
| `Umalloc.Allocator.Free` | umalloc.c:24-44 | the stores yield exactly that list; no other block changes hands |
| `Umalloc.Allocator.Morecore` | umalloc.c:46-61 | broken exactly if the size does not fit an int: pages are gone, or the new block is not below the break; else refused exactly if sbrk has no such memory, and then nothing changes, or a free block large enough exists and the units obtained are accounted for |
| `Umalloc.Allocator.Malloc` | umalloc.c:63-90 | where no free block is large enough: broken exactly if the size does not fit an int, whatever sbrk returns, and null exactly if it fits and sbrk has no such memory, and then the list is as it was; else a new live block of the right size, apart from all free and live blocks, with free plus live units equal to units obtained; where one is, the block is the end of the first that is, from the roving pointer on |
| `Umalloc.Allocator.Walk` | umalloc.c:74-86 | one round of the circle ends with the first block that fits and its predecessor, or with proof that none does |
| `Umalloc.Allocator.TakeWhole` | umalloc.c:76-77 | the block is unlinked and live, the list is otherwise as it was, and the roving pointer is its predecessor |
| `Umalloc.Allocator.TakeTail` | umalloc.c:78-82 | the tail is live and the rest stays free |
| `ProcRuns.ProtocolIsSafe` | proc.c:396-446 | every state of a run is safe - no process current on two CPUs, a current process in no stable state, a process that is being woken left alone, no zombie incarnation reaped twice, no CAS panic - if and only if no CAS of the run is stale |
| `ProcRuns.OnlyStaleBreaks` | proc.c:437-441 | from a state of the invariant a step leads to a safe state if and only if it is not a stale CAS of the post-switch block, and then the invariant holds again |
| `ProcRuns.StaleCasIsUnsafe` | proc.c:437-441 | a run of 14 steps in which such a CAS leads to a process current on two CPUs |
| `ProcLife.LifeCycle` | proc.c:96-631 | on a run without a stale CAS every slot goes from each state to the next by an edge of the life cycle, is a new incarnation exactly when allocated, and is listed as reaped exactly when it stops being a zombie |
| `ProcLife.ExitIsFinal` | proc.c:270-316 | once a process has made the CAS of exit() it is never dispatched again before its slot is reaped and allocated anew: until then its CPU is still leaving it, or it is a zombie that nobody has reaped, or it has been reaped |
| `ProcLife.ZombieExited` | proc.c:270-386 | every zombie, and whoever is reaped, has called exit() in the same incarnation |
| `ProcLife.StepFollows` | proc.c:96-631 | each step of the protocol follows an edge of the life cycle for every slot |
| `ProcLife.PanicIff` | proc.c:261-575 | the panics that safety excludes are exactly the failed CAS that the code panics on, and sched() by a running process |
| `ProcLife.DepartAlone` | proc.c:435-558 | undisturbed, a process that yields ends up runnable, one that sleeps asleep, and one that exits a zombie that wait() can take; its CPU is back in the scheduler and nobody else is touched |
| `ProcLife.BlockAlone` | proc.c:435-441 | the post-switch block turns each negated state into the one meant |
| `ProcLife.DispatchAlone` | proc.c:421-432 | undisturbed, a runnable process that is picked runs |
| `ProcLife.WakeAlone` | proc.c:563-579 | undisturbed, a sleeper that is woken is runnable |
| `ProcLife.KillAlone` | proc.c:615-620 | so is one that is killed |
| `ProcLife.ForkAlone` | proc.c:215-268 | undisturbed, fork() makes a free slot a runnable process of a new incarnation, or leaves it free |
| `ProcLife.WaitAlone` | proc.c:320-361 | undisturbed, wait() frees the slot of a zombie, lists it as reaped, and goes on running |
| `ProcLife.GiveUpAlone` | proc.c:365-373 | wait() that gives up leaves everything as it was |
| `ProcLife.SleepAlone` | proc.c:375-381 | wait() that goes to sleep leaves its CPU as sleep() does |
| `ProcInv.StepKeeps` | proc.c:96-631 | every step of scheduling, sleeping, waking, waiting, exiting, killing and forking keeps the invariant |
| `ProcInv.PostCasKeeps` | proc.c:437-441 | so does each CAS of the post-switch block that is not stale, also one that finishes for another CPU what that has still to do |
| `ProcInv.TakeKeeps` | proc.c:342-351 | so does taking a zombie, which is then reaped once |
| `ProcInv.WakeKeeps` | proc.c:563-579 | so does the first CAS of wakeup1, made by any CPU |
| `ProcInv.NegateKeeps` | proc.c:272-558 | so does the CAS with which a process leaves its CPU in yield, sleep and exit |
| `ProcInv.FreeKeeps` | proc.c:356-358 | so does releasing a reaped slot |
| `ProcInv.ForkDoneKeeps` | proc.c:215-268 | so does making a forked process runnable |
| `Signals.Process.HandleSignals` | proc.c:743-812 | while others send signals at any point: held signals stay pending and nothing is pending that was not sent; a pass that returns has passed over no deliverable signal with a handler and leaves pending only held or late ones; one that enters a handler does so for the lowest signal that has one, may be delivered and was sent by its turn, and leaves the higher ones that were pending where they are, unless they continue a stopped process; killed exactly for a signal that kills; stopped until a signal that continues; a SIGKILL pending at the start is not lost; in terms of signal numbers and handler values, whatever the mask, a pending SIGKILL has killed when the pass returns, and a pending SIGSTOP has stopped the process until something continued it |
| `Signals.PassedPromised` | proc.c:757-783 | what a pass promises for each signal, by its number, its handler value and the mask: SIGKILL and SIGSTOP cannot be masked or ignored, the default of the others but SIGCONT is to kill, and no user handler is passed over |
| `Signals.TurnKeeps` | proc.c:757-811 | the invariant of the pass over its turns |
| `Signals.PassEnters` | proc.c:782-807 | a pass that enters a handler has dealt with every lower signal that came in time |
| `Signals.Process.Turn` | proc.c:757-811 | what the pass does for one signal, given what comes before, between and after its load and its store of the pending word |
| `Signals.Process.CheckCont` | proc.c:707-718 | takes the lowest pending signal that continues a stopped process, and then loses what came since it loaded the word; none exactly if there is none, and then loses nothing |
| `Signals.Process.Deliver` | proc.c:784-807 | frame, trampoline code, argument and return address are on the stack in disjoint ranges, and no other byte is written |
| `Signals.Process.Sigret` | proc.c:736-741 | frame and mask are those saved |
| `Signals.Process.DeliverAndReturn` | proc.c:736-807 | delivery, a handler that leaves the place of the saved frame on the stack alone but may change everything else and the mask, and sigret: the whole trap frame is as before (eax apart, which gets the call's 0), and so is the mask |
| `Signals.StackHolds` | proc.c:784-807 | the four stores do not overwrite each other, whatever the stack pointer |
| `Signals.PutBack` | proc.c:790-807 | changing a field of a frame and putting the old value back restores it |
| `Signals.Process.Sigaction` | sysproc.c:104-124 | refused exactly for SIGKILL, SIGSTOP, numbers out of range and bad pointers; hands back the old action if wanted |
| `Signals.Process.Sigprocmask` | proc.c:671-676 | sets the mask and returns the old one |
| `Signals.Process.Kill` | proc.c:595-631 | the signal is pending unless ignored; a sleeper is woken exactly for SIGKILL, whatever the mask, and for an unmasked signal whose handler is the default or kills: for what will kill it, and for nothing that waits or that a user handler takes |
| `Signals.KillPid` | proc.c:595-631 | the first slot in use with the pid gets the signal and no other, and is woken exactly if it sleeps and the signal wakes it; fails exactly for a number out of range or an unknown pid |
| `Signals.Process.InheritFrom` | proc.c:236-248 | a child starts with its parent's mask and handlers and nothing pending, whatever was sent to it before |
| `SigRace.SigkillKeptIff` | proc.c:595-772 | on every interleaving of loads and stores an accepted SIGKILL stays pending until it kills, if and only if none is overwritten by a store of an older copy or cleared before the process runs |
| `SigRace.ForkLosesSigkill` | proc.c:114-240 | a run in which fork() clears an accepted SIGKILL |
| `SigRace.PassLosesSigkill` | proc.c:757-772 | a run in which the signal pass overwrites one |
| `SigRace.StoreKeeps` | proc.c:613-772 | a store that overwrites no SIGKILL keeps it |
| `SigRace.LossIsLoss` | proc.c:240-772 | a store that overwrites one, and a clear behind one, loses it |
| `SigRace.OpAlone` | proc.c:613 | a load and a store that nobody comes between change one bit of the word |
| `Signals.Process.Exec` | exec.c:103-107 | user handlers are reset, ignored signals stay ignored |
| `Shell.LineOfText` | sh.c:344-359 | parsing does not depend on the words: reading them off the line before or after parsing is the same |
| `ShellPrint.LinePrinted` | sh.c:344-446 | parsing the tokens of a printed command, whatever follows it, gives the command and stops there |
| `ShellPrint.ExecPrinted` | sh.c:399-446 | the same for simple commands and blocks with redirections |
| `ShellPrint.LexRendered` | sh.c:265-308 | lexing a rendered token sequence gives the tokens |
| `ShellPrint.RoundTrip` | sh.c:265-446 | parsing the canonical text of any command gives that command and leaves nothing over |
| `ShellLex.LexConserves` | sh.c:262-308 | the texts of the tokens, one behind the other, are the line without its white space: blank, tab, carriage return, newline and vertical tab |
| `ShellLex.WordsSeparated` | sh.c:262-308 | a word has no white space and no special character, and two words in a row are separated by white space and nothing else |
| `ShellItems.SimpleParsed` | sh.c:374-446 | a simple command with its redirections, ">>" included, before, between and behind its words: the words are its arguments, the redirections are around it in order; ten words are too many |
| `ShellParse.LineParsed` | sh.c:344-446 | every command that the parser returns has whole words and at most MAXARGS - 1 arguments per command |
| `ShellParse.Reparse` | sh.c:265-446 | printing what was parsed from any line and parsing again gives the same command |
| `ShellParse.Parser.Gettoken` | sh.c:265-308 | returns the next token and advances past it |
| `ShellParse.Parser.Peek` | sh.c:310-320 | tells what the next token begins with and consumes only white space |
| `ShellParse.Parser.ParseRedirs` | sh.c:374-397 | the redirections that the grammar gives, or a panic exactly on a missing file name |
| `ShellParse.Parser.ParseArgs` | sh.c:429-445 | the loop over words and redirections agrees with the grammar, errors included |
| `ShellParse.Parser.ParseBlock` | sh.c:399-413 | parenthesised lines agree with the grammar |
| `ShellParse.Parser.ParseExecCmd` | sh.c:415-446 | agrees with the grammar |
| `ShellParse.Parser.ParsePipeCmd` | sh.c:361-372 | agrees with the grammar |
| `ShellParse.Parser.ParseLineCmd` | sh.c:344-359 | agrees with the grammar, and the mutual recursion terminates on every line |
| `ShellParse.Nulterminate` | sh.c:449-493 | a NUL goes behind every word and no other byte changes |
| `ShellParse.WordsReadBack` | sh.c:449-493 | then every argument and file name reads as exactly its token |
| `ShellParse.Parsecmd` | sh.c:327-342 | a command exactly for lines that the grammar takes as a whole, with every word terminated |
| `Pipe.CountersDecide` | pipe.c:78-121 | full and empty are told apart by counters that wrap modulo 2^32 |
| `Pipe.SlotOfCounter` | pipe.c:93 | the ring slot is right across the wrap |
| `Pipe.Pipe.Write` | pipe.c:78-98 | bytes go in, in order, until the pipe is full; partial writes stay in |
| `Pipe.Pipe.Read` | pipe.c:100-121 | the oldest bytes come out, in order, as many as asked for and there |
| `Pipe.Pipe.Close` | pipe.c:59-75 | the pipe is freed exactly with its second end |
| `Pipe.Interleave` | pipe.c:78-121 | for any schedule of readers, writers and closers, the ring with its wrapping counters does what a queue of 512 bytes does |
| `Pipe.Carry` | pipe.c:59-121 | one stretch of a call is what the queue does |
| `Pipe.FifoOrder` | pipe.c:78-121 | of the queue: what was received followed by what is queued is what was written |
| `Grep.MatchHere` | grep.c:85-96 | true exactly if a prefix of the text is in the pattern's language |
| `Grep.MatchStar` | grep.c:99-106 | true exactly if some run of the starred character is followed by a match |
| `Grep.Match` | grep.c:72-82 | true exactly if some stretch of the text, anchored as ^ and $ require, is in the pattern's language |
| `Grep.HereStar` | grep.c:89-90 | a starred item matches any number of its character |

## Left out

- Umalloc.Allocator.Malloc: says nothing about the heap after the `Broken` outcome except that pages are gone or the list is not one of blocks of the process: the code then takes a page fault, or goes on with such a list.
- ProcRuns.ProtocolIsSafe: safety only; lost wakeups and progress of sleep and wait are not claimed, as `sleep` stores `chan` after releasing its lock and a parent in `wait` and a child in `exit` can spin on each other.
- ProcInv.StepKeeps: `parent`, `chan`, `pid` and `killed` are not modelled; they only narrow which slot a step may aim at, so more runs are covered, not fewer.
- Log.Log.LogWrite: that "too big a transaction" is never reached is not claimed, as log_write also panics at `log.size - 1`; the LOGSIZE bound is.
- Log.Log.EndOp: the last call out needs the blocks it commits to be unlocked; the code would wait for them, holding no lock.
- Log.Log.CopyBlock: reads the source block before the destination; write_log reads them in the other order, which cannot be told apart.
- FsFile.FileSystem.Readi, Writei: device inodes (the devsw table) and concurrent readers of one inode.
- FsFile: the disk is split into bitmap, data and inode regions by type; the superblock is not modelled, and a block logged through the cache is its latest value.
- FsFile.FileSystem.Itrunc: no bound on the log blocks of a truncation, which depends on the number of bitmap blocks.
- Tree, TreeOps: system calls are atomic here, path names are already resolved, there is one device, and link counts are unbounded; operations in a directory that is already unlinked are covered only by Tree.DeadParent.
- Vm.Allocuvm: requires the pages above the old size to be unmapped, as those of a process are; mapping over one is the panic "remap".
- Vm.Deallocuvm: sizes up to KERNBASE, above which there are no user pages; its callers keep to that.
- Vm.Copyuvm: the same.
- FsFile.FileSystem.Filewrite: negative lengths, read-only files and pipes.
- Vm: the entries' accessed and dirty bits, TLB flushes, inituvm, loaduvm, clearpteu and copyout.
- Kalloc: the kernel's other users of frames (stacks, pipes) own frames outside the model, which no operation here touches.
- SigRace.SigkillKeptIff: one process from the moment its pid is known; a kill() still in progress for an earlier process in the slot, and another signal's fate, are not followed.
- Signals.Process.Sigaction: the two pointers do not overlap.
- Signals: a second user handler entered before the first has returned, for which the code has one backup slot; masks are sets of signal numbers and bitmap bytes sequences of bits.
- ShellParse: arguments are collected and the command node built at the end, where the code fills the node in place under the redirections; running commands is left out.
- Grep: the read buffer of grep(), which drops partial lines.
- Out of buffers, blocks, inodes or directory space: panics of the code, modelled as outcomes and not excluded.
- Hardware, boot code, drivers, spin and sleep locks, system call argument fetching and the user utilities.
