# Verified core of the xv6 kernel with an MLFQ scheduler

This project models the parts of the kernel and of its user programs where correctness is hard to see from the code, and proves what they promise.

- **Log and buffer cache** (`Blocks`, `Wal`, `BufferCache`, `Log`, `Admission`, `LogMachine`). The write-ahead log over the LRU buffer cache. `Wal` gives every intermediate disk of a commit and of a recovery and proves crash atomicity. `BufferCache` and `Log` run bio.c and log.c as they are written, on a doubly linked ring held in arrays, and leave exactly those disks behind. `Admission` and `LogMachine` interleave any number of processes and crashes and prove that the whole is a disk with atomic transactions.
- **Files** (`FsLayout`, `FsEffects`, `Files`, `FileWrite`). Bitmap, inodes, direct and indirect blocks, readi, writei, itrunc and the transactions of filewrite, refined to a flat byte string per file.
- **Files over the log** (`CrashFiles`). What a crash anywhere in a filewrite leaves of the file, by running its transactions on the log machine.
- **Heap** (`Heap`). The circular, address-ordered free list of malloc and free.
- **Pages** (`PageTables`, `VmEffects`, `Spaces`, `Vm`). The page allocator and two-level page tables of any number of address spaces, with ownership of every page, and what growing and shrinking do in numbers of pages.
- **Pipes** (`Pipe`). sleep, wakeup, kill and the pipe as steps of any number of processes, with counters that wrap at 32 bits.
- **Scheduler** (`Mlfq`). The MLFQ rounds: tick accounting, the promotion bound and which slots can starve.
- **Shell and grep** (`Shell`, `ShellParser`, `Grep`). A recursive-descent parser with its printer and the in-place termination of words; a backtracking matcher against a declarative language.

Conventions. A panic is a result (`ok == false`, `None`, `Panic`, `Remap`), not a precondition. Blocks are 512 bytes, words 32 bits little endian; wrap-around is written out where the code depends on it. The ghost fields of a class record what the theorems speak about (ring order, disk trace, block and page owners, bytes written and read) and are tied to the real fields by its invariant. `dafny verify dfyconfig.toml` checks everything.

Six promises one might expect are false in this code. Each has a failing input and its exact condition:

- `log_write` can panic although every operation keeps its budget, because the test comes before absorption and mkfs makes the log one block short: `Admission.WorstRun`, `Admission.PanicExactly`, `Admission.MkfsLog`.
- The list of logged blocks can outgrow the log area, because `log_write` tests its length before it takes the lock: `Admission.TwoPass`, `Admission.OverflowExactly`. The theorems of `LogMachine` hold for every cap and log size that this condition admits.
- A failed `allocuvm` restores the user mapping only if the range was unmapped before: `Vm.RollbackLosesPage`, `VmEffects.RestoredExactly`.
- `copyuvm` loses the page in hand when `mappages` fails: `Vm.CopyLosesPage`, `VmEffects.LeaksAtTwo`; `Vm.Memory.Copyuvm` states, in terms of the free pages before the call, exactly when.
- A reader can sleep on a nonempty pipe, because a killed writer leaves without waking it: `Pipe.KilledWriterStrands`, `Pipe.LostWakeupExactly`.
- The scheduler can starve a process of the top level: `Mlfq.Starves`. Exactly the first slot of the table is safe: `Mlfq.StarvationExactly`.

`>>` opens its file as `>` does (sh.c:388-393, `Shell.AppendAsWrite`); the model follows the code, so both print as `>`.

## Model

| member | source | states |
|---|---|---|
| Blocks.WordOfSetWord | log.c:101-113 | A little-endian 32-bit word stored in a block reads back, and no other word of the block moves. |
| Blocks.BytesOfJoin | log.c:101-113 | The four bytes of a word are recovered from it. |
| Blocks.JoinBytes | log.c:85-96 | And the word from its four bytes, so that bytes and words determine each other. |
| Wal.HeadOfWithHead | log.c:85-113 | Writing a header with n and the block list and reading it back gives the same list: write_head and read_head are inverse on every header that fits. |
| Wal.ApplyAt | log.c:69-82 | Applying a transaction changes exactly its blocks, each to its own data. |
| Wal.LogWrittenAt | log.c:177-190 | After k steps of write_log exactly the first k log blocks hold the first k data blocks; nothing else changed. |
| Wal.InstalledAt | log.c:69-82 | After k steps of install_trans exactly the first k listed home blocks hold their logged copies; nothing else changed. |
| Wal.InstalledTwice | log.c:69-82 | Installing again from any point of an interrupted installation ends on the same disk as installing once. |
| Wal.RecoveryCrashSafe | log.c:115-122 | From the disk at any point inside recovery, recovering again reaches the disk that uninterrupted recovery reaches. |
| Wal.ChainSafe | log.c:115-122 | So does recovery after any number of crashes during recovery, wherever each falls. |
| Wal.CommitCrashSafe | log.c:192-202 | At each of the 2n+3 points of a commit, recovery gives the old home blocks before the header write and all of the new ones from it on. |
| Wal.LoggedRecovers | log.c:177-202 | With the log and header written, recovery applies the whole transaction. |
| Wal.CommitFinal | log.c:192-202 | A commit that finishes has applied the transaction and left an empty log. |
| Wal.CrashAtomic | log.c:69-122 | Crash atomicity: a crash at any single-block write of commit, then any number of crashes in recovery, then a finished recovery, leaves the home blocks exactly as before or exactly as after all of the transaction, and the log empty. |
| BufferCache.Relinked | bio.c:130-138 | The six pointer writes of brelse turn a ring in one order into a ring in the order with that buffer first. |
| BufferCache.MovedByRelease | bio.c:120-141 | Moving a buffer whose count fell to zero to the front keeps the ring ordered by last release. |
| BufferCache.MoveToFrontAllOnce | bio.c:120-141 | The ring still holds every buffer exactly once. |
| BufferCache.ContentKept | bio.c:61-93 | Recycling a clean buffer changes no block's content as seen through the cache. |
| BufferCache.Cache.constructor | bio.c:38-56 | binit builds a ring of all NBUF buffers, in both directions, none valid, dirty or referenced. |
| BufferCache.Cache.Bget | bio.c:61-93 | Fails exactly when the block is not cached and no buffer is clean and unreferenced; otherwise returns the cached buffer or the least recently released clean unreferenced one; the ring, its order and uniqueness of blocks (dev != 0) are kept. |
| BufferCache.Cache.Bread | bio.c:96-106 | Fails exactly when the block is out of range, or is not cached and no buffer is clean and unreferenced; otherwise returns the block's latest content, the cached one if valid, else the disk's; no block's content changes, and only the returned buffer was touched. |
| BufferCache.Cache.Bwrite | bio.c:109-116 | Writes exactly that block of the disk and leaves the buffer valid and clean; the write is one entry of the disk trace. |
| BufferCache.Cache.Brelse | bio.c:120-141 | Drops one reference; at zero the buffer becomes the first of the ring, stamped as the latest release. |
| BufferCache.Cache.MoveFirst | bio.c:130-138 | The unlink and relink keep the doubly linked ring, with the buffer first and the other buffers in their order. |
| Log.Absorb | log.c:224-230 | A logged block is in the list once, whether it was there or not, and the old list is a prefix. |
| Log.CopiedContent | log.c:69-82 | Copying one buffer to another block and writing it out changes the content of that block only and keeps the cache coherent. |
| Log.EnoughExactly | log.c:74-79 | Two breads in a row both succeed exactly when there were enough buffers before the first: both blocks cached, or one block pinned and a buffer that can be recycled, or two such buffers. |
| Log.LentKeeps | log.c:69-113 | Borrowing two buffers and giving them back keeps the clean unreferenced ones available and the pinned blocks pinned; where none was available the same blocks stay cached. |
| Log.FullLogStuck | param.h:10-12 | NBUF equals LOGSIZE, so with LOGSIZE blocks logged and pinned no buffer is left and the commit cannot run. |
| Log.RoomNow | log.c:69-82 | Whether step k of an installation finds its buffers is decided by the cache before step 0. |
| Log.LentAlike | log.c:69-113 | Borrowing buffers for a clean block changes, for no pair of blocks, whether both find buffers. |
| Log.LogFile.Copy | log.c:69-82 | One block is copied to another on disk with a single disk write, exactly when there are enough buffers; otherwise the disk is untouched. |
| Log.LogFile.WriteLog | log.c:177-190 | write_log leaves the disk at the point of the commit after n log writes, through exactly the intermediate disks of the commit, even if it stops early. With the logged blocks pinned it completes exactly when some buffer is clean and unreferenced or all n log blocks are cached. |
| Log.LogFile.WriteHead | log.c:101-113 | One disk write sets the header block to n and the list, keeping the rest of the header block; it fails, with the disk untouched, exactly when the header is not cached and no buffer can be recycled. |
| Log.LogFile.InstallTrans | log.c:69-82 | Home blocks are overwritten from the log one disk write at a time, in list order. With the logged blocks all dirty, as in a commit, or nothing dirty, as in recovery, it completes if and only if each step finds its two buffers: they were there before, or an earlier step has freed one by cleaning an unused dirty buffer. |
| Log.LogFile.Commit | log.c:192-202 | The disk passes through exactly the states of the commit, from the pending cached contents, and ends with everything applied, nothing dirty and n = 0. With the logged blocks pinned it completes if and only if n = 0, some buffer is clean and unreferenced, or the header and the n log blocks are all cached. |
| Log.LogFile.ReadHead | log.c:85-96 | The in-memory header becomes the one on disk, exactly when the header is cached or a buffer can be recycled. |
| Log.LogFile.RecoverFromLog | log.c:115-122 | The disk passes through exactly the states of recovery; at the end it is the recovered disk and n = 0. It completes if and only if the cache, as it is before the call, has a buffer for the header and buffers for each pair of log block and home block; two buffers that can be recycled, as at boot, are always enough. |
| Log.LogFile.InstallRecovered | log.c:115-122 | The part of recovery after read_head, from the header in memory, with the same exact condition. |
| Log.LogFile.LogWrite | log.c:213-233 | Panics exactly when n has reached LOGSIZE or size-1 or no operation is outstanding, tested before absorption; otherwise the list is the absorbed one and the buffer is dirty. |
| Admission.StepKeeps | log.c:126-233 | Every begin_op, test and append of log_write, end_op and commit step keeps: committing only with no operation running, logged blocks plus unspent reservations within LOGSIZE, an idle log empty, and somebody asleep in begin_op only while a commit runs or a further reservation would not fit, so that no wakeup is lost. The test is a step of its own, before the lock is taken. |
| Admission.RunKeeps | log.c:126-233 | That invariant over all interleavings, so the panic in end_op is unreachable. |
| Admission.InitInv | log.c:53-66 | The initial log satisfies it. |
| Admission.AtMostThree | log.c:126-141 | At most three operations are open at any point of any run. |
| Admission.ThreeOpen | log.c:126-141 | And three can be, whatever the size of the log. |
| Admission.Fits | log.c:214-230 | Under the condition below the list fits the log area in every reachable state, whatever has passed the test. |
| Admission.PanicExactly | log.c:214-221 | With operations of at most cap distinct blocks, the panic of log_write is reachable if and only if cap >= 1 and 10 + 2*cap reaches LOGSIZE or size - 1. |
| Admission.WorstRun | log.c:126-233 | Whenever that bound is reached, a run of two processes that fills the log and panics. |
| Admission.TwoPass | log.c:218-230 | With one block of room left, two processes pass the test together and both append: the list outgrows the log area. |
| Admission.OverflowExactly | log.c:214-230 | Because log_write tests before it takes the lock, the list can outgrow the size - 1 blocks after the header if and only if cap > 0, size > 1 and 10 + 2*cap >= size. |
| Admission.MkfsLog | mkfs.c:25-25 | For the log size mkfs makes, no panic is reachable if and only if operations log at most 9 distinct blocks, and the same bound decides whether the list can outgrow the log area. |
| LogMachine.StepRefines | log.c:69-233 | Each step of the interleaved log and cache, crashes and the unlocked test of log_write included, keeps the invariant and is a step of a disk with atomic transactions, for every cap and log size where the list cannot outgrow the log area. |
| LogMachine.RunKeeps | log.c:69-233 | The invariant holds in every state of every run. |
| LogMachine.RunRefines | log.c:69-233 | Every run, with crashes anywhere and repeated recovery, is a run of that transactional disk: stable contents change only at the header write, and a crash falls back to them. |
| LogMachine.AbsIsHistory | log.c:69-233 | At every point of a run, what the machine's disk and cache stand for is what the history of writes, commits and crashes so far makes of the first contents. |
| LogMachine.StableMoves | log.c:192-202 | In that history the stable contents move only at the header write of a commit, to everything written so far. |
| LogMachine.ReadsLatest | bio.c:62-106 | At every point of every run, once the system is up, a locked buffer holds what the history of writes, commits and crashes most recently gave its block, through eviction, commit and recovery. |
| LogMachine.NoEarlyWrite | log.c:178-233 | At every point of every run before a commit's header write, the home blocks on disk are the contents of the last commit in the history: no log_write since has reached one. |
| LogMachine.RunAdmission | log.c:126-174 | The admission invariant holds in every running or committing state of the full machine. |
| LogMachine.HeldStays | bio.c:61-141 | A locked buffer stays its holder's until released or a crash: nobody recycles it or takes its lock, and only the holder changes its data. |
| LogMachine.HandsOver | bio.c:120-141 | A released buffer can be locked by whoever waits for it, and one that is clean and no longer used can give its place to any other block. |
| FsLayout.BitOfSet | fs.c:66-69 | Setting a bit of a bitmap byte sets exactly that bit. |
| FsLayout.BitOfClear | fs.c:88-93 | Clearing a bit clears exactly that bit. |
| FsLayout.MarkedUsed | fs.c:66-73 | Marking a block used changes exactly its own bit of the whole bitmap. |
| FsLayout.MarkedFree | fs.c:81-96 | Marking it free likewise. |
| FsLayout.UnpackPack | fs.h:29-36 | A dinode unpacks to what was packed. |
| FsLayout.ReadOfWrite | fs.c:221-237 | Writing one inode to its block leaves every other inode of the disk as it was. |
| FsEffects.AllocatedOk | fs.c:56-78 | Taking a free block and zeroing it keeps every ownership and bitmap invariant of the file system. |
| FsEffects.DirectMapped | fs.c:379-382 | A new direct block extends the file by one zeroed block and leaves every other file alone. |
| FsEffects.IndirectMapped | fs.c:386-389 | A new indirect block does so with no data block added. |
| FsEffects.EntryMapped | fs.c:390-397 | A new entry of the indirect block extends the file by one zeroed block. |
| FsEffects.DataWritten | fs.c:499-505 | Overwriting a data block of one file changes no byte of another, no inode and no bitmap bit. |
| FsEffects.InodeWritten | fs.c:221-237 | Writing the in-memory inode makes the on-disk one equal to it and keeps the invariants. |
| FsEffects.SameContent | fs.c:453-477 | Files that share no changed block have the same bytes. |
| FsEffects.FreeSlot | fs.c:408-436 | A block of the file being truncated is still marked used when its turn comes, so freeing free block cannot happen. |
| FsEffects.AllFreed | fs.c:408-436 | With all slots freed the file system is well formed with exactly the other files' blocks. |
| FsEffects.FreedLogs | fs.c:81-96 | Freeing one more block of the file logs exactly its bitmap block and changes nothing that is not logged. |
| FsEffects.EmptyFs | mkfs.c:237-251 | The invariant holds of a file system without file blocks, whose bitmap marks exactly the metadata. |
| FsEffects.OwnedOnce | fs.c:57-96 | Every block reachable from an inode is marked used and reachable from exactly one slot of one inode. |
| FsEffects.UsedIsMapped | fs.c:57-96 | Every data block marked used is reachable from some slot of some inode. |
| FsEffects.OwnerCount | fs.c:57-96 | Owned and free data blocks add up to nblocks, so that all blocks are used exactly when nblocks are owned. |
| FsEffects.AllocatedTracked | fs.c:56-78 | Taking a block changes only blocks that are logged: its bitmap block and itself. |
| Files.Fs.Balloc | fs.c:56-78 | Returns the lowest unused block, now marked used and zeroed, or panics exactly when all are used. |
| Files.Fs.ScanBlock | fs.c:64-74 | One bitmap block's inner loop finds its lowest clear bit within the file system's size. |
| Files.Fs.Bfree | fs.c:81-96 | Panics exactly when the block is not marked used; otherwise clears exactly its bit. |
| Files.Fs.Bmap | fs.c:373-401 | The block of file block bn, allocating exactly when bn is the next one; other files and the file's own blocks are kept, the blocks logged are bounded by name, and it panics exactly when fewer blocks are free than the mapping takes (one, or two with a new indirect block). |
| Files.Fs.BmapIndirect | fs.c:385-398 | bmap beyond the direct blocks, with the same exact failure. |
| Files.Fs.MapDirect | fs.c:379-383 | The direct case of bmap; it fails exactly when no block is free. |
| Files.Fs.MapIndirect | fs.c:386-389 | The allocation of the indirect block, exactly when a block is free. |
| Files.Fs.MapEntry | fs.c:390-398 | An entry of the indirect block: found, or allocated exactly when a block is free. |
| Files.Fs.NewEntry | fs.c:392-396 | The allocation for an empty entry of the indirect block. |
| Files.Fs.WriteBlock | fs.c:500-504 | One round of writei replaces exactly [off, off+m) of the file's bytes, and fails exactly when the block is new and too few blocks are free. |
| Files.Fs.Iupdate | fs.c:221-237 | The on-disk inode becomes the in-memory one; every other inode and file is kept. |
| Files.Fs.WriteData | fs.c:499-511 | The loop of writei: the file's bytes become the old ones with src spliced in at off, exactly when enough blocks are free; then exactly the blocks needed are no longer free, and every block that changed was logged. |
| Files.Fs.FinishWrite | fs.c:507-511 | A file that grew has its size set and its inode written through. |
| Files.Fs.Writei | fs.c:482-512 | Refines splice on a flat byte string: exactly [off, off+n) is replaced, the size may grow, every other file is unchanged, the on-disk inode equals the in-memory one, at most 10 blocks are logged for 1536 bytes and no unlogged block changes. It returns -1 exactly as tested with 32-bit wrap-around, and panics if and only if the write is accepted and takes more blocks than are free. |
| Files.RefusedMeans | fs.c:492-495 | The two argument checks in 32 bits; passing them bounds the write by the unwrapped end of the file. |
| Files.Fs.Readi | fs.c:453-477 | Returns exactly the slice of the file that lies in [off, off+n), with nothing changed and nothing allocated. |
| Files.Fs.Itrunc | fs.c:408-436 | Frees exactly the blocks this inode owns and leaves an empty file; never panics; the other files are unchanged. It logs exactly the bitmap blocks of the blocks freed and the inode's block, and changes nothing else. |
| Files.Fs.FreeDirect | fs.c:415-420 | The loop over the direct blocks, with what it logs. |
| Files.Fs.FreeIndirect | fs.c:422-432 | The indirect block and its entries, with what it logs. |
| Files.ChunkBudget | file.c:127-138 | A chunk of 1536 bytes touches at most 4 file blocks and adds at most 3, at every offset. |
| Files.WithinTransaction | file.c:127-138 | So a chunk logs at most MAXOPBLOCKS = 10 distinct blocks whatever the number of bitmap blocks, and at most 7 with one. |
| Files.ContentSpliced | fs.c:499-505 | Blocks written round by round give the spliced byte string. |
| FileWrite.SpliceTwice | file.c:135-152 | Two adjacent splices are one. |
| FileWrite.ChunkIs | file.c:133-133 | The chunk of a transaction is half of what the budget leaves beside the inode, the indirect block and two blocks. |
| FileWrite.WriteChunk | file.c:140-151 | One transaction writes its chunk completely or refuses it, never part of it; refusal and panic are decided by the offset and the free blocks alone. |
| FileWrite.TxnAdded | file.c:140-151 | One more chunk extends the list of such transactions. |
| FileWrite.ValidHolds | fs.c:453-477 | A valid file system's disk alone determines the file's bytes. |
| FileWrite.Filewrite | file.c:117-156 | The file's bytes are the old ones with the first k bytes of src spliced in at the old offset, k being all of n or the whole chunks below the largest file; it returns n exactly when the whole write fits. There is one transaction for each chunk; each stays within budget, changes only blocks it logged, and leaves a sound disk with that many chunks. It panics if and only if the k bytes take more blocks than are free. |
| CrashFiles.HomeHolds | log.c:69-82 | The bytes of a file depend only on home blocks, not on the log area. |
| CrashFiles.CommitsOutside | log.c:145-174 | A commit writes its header while no operation is open, whoever began and ended which. |
| CrashFiles.EndsWhole | log.c:145-174 | When a transaction ends with its blocks as it leaves them, the whole image after it is seen, over what was seen before it. |
| CrashFiles.BetweenStep | log.c:69-233 | Each step of the machine keeps: what survives a crash is the image after the transactions that had ended by the last header write, and what is seen is the image after those that have ended, but for the blocks of an open one. |
| CrashFiles.RunBetween | log.c:69-233 | So at every point of every run, with any number of transactions in one commit. |
| CrashFiles.FilewriteSurvives | file.c:127-156 | At every point of every run in which one process performs the transactions of a filewrite, with other processes' operations open as they like, so that chunks share commits, recovery gives a sound file system in which the file holds its old bytes with a whole number of chunks spliced in: those whose end_op came before the last header write. |
| CrashFiles.QuietDurable | log.c:145-174 | Once no operation is open and no commit in progress, every chunk that has ended survives any crash. |
| Heap.InsertedCoalesced | umalloc.c:25-44 | Inserting a freed block with both merges keeps the list address-ordered, disjoint and fully coalesced. |
| Heap.InsertedUnits | umalloc.c:33-42 | No unit is lost or made by the merges. |
| Heap.InsertedApart | umalloc.c:33-42 | The merged list overlaps no other live block. |
| Heap.JoinUp | umalloc.c:33-37 | The pointer writes of the upward merge give the linked form of the merged list. |
| Heap.JoinDown | umalloc.c:38-42 | Likewise downward. |
| Heap.TakenCoalesced | umalloc.c:75-84 | Cutting the tail off a block, or taking it whole, keeps the list coalesced and disjoint from what was taken. |
| Heap.TakenUnits | umalloc.c:75-84 | The list loses exactly the units taken. |
| Heap.TakenLinked | umalloc.c:75-84 | The pointer and size writes give the linked form of the shortened list. |
| Heap.UnitsExact | umalloc.c:69-69 | The unit count computed in 32 bits is large enough if and only if nbytes + 7 does not wrap. |
| Heap.WholeLap | umalloc.c:74-89 | Passing every block once without a fit means no block fits. |
| Heap.BigBlock | umalloc.c:46-61 | After morecore succeeds some free block is large enough. |
| Heap.Allocator.FindPlace | umalloc.c:30-32 | The search of free ends within one lap, at the unique place the block belongs. |
| Heap.Allocator.Insert | umalloc.c:24-44 | The cycle becomes the one with the block inserted and merged, freep at its predecessor. |
| Heap.Allocator.Free | umalloc.c:24-44 | The block is no longer live and is in the free list at its place, merged with its neighbours, with the next search starting before it; the invariant (one address-ordered, coalesced cycle; free plus live units equal those obtained) is kept. |
| Heap.Allocator.Take | umalloc.c:75-84 | The block returned was the tail or all of a free one, is now live, and overlaps nothing; the next search starts before it. |
| Heap.Allocator.Lap | umalloc.c:74-86 | Finds the first large enough block after the starting point and its predecessor, or shows there is none. |
| Heap.Allocator.Morecore | umalloc.c:46-61 | At least 4096 units join the free list at their place, or nothing changes when sbrk fails. |
| Heap.Allocator.Malloc | umalloc.c:63-90 | First fit: the block comes from the first free block, after the starting point, that is large enough. morecore is called if and only if the heap is new or no free block is large enough, then once; 0 is returned if and only if it was called and sbrk failed, with the list as it was. |
| Heap.Allocator.Init | umalloc.c:70-73 | The first call makes the one-element cycle. |
| PageTables.TableAdded | vm.c:45-56 | A new page-table page keeps ownership exact (no page reachable from two places) and changes no translation of any address space. |
| PageTables.EntryMapped | vm.c:71-76 | A new present entry keeps ownership exact. |
| PageTables.EntryWalks | vm.c:71-76 | It moves exactly that translation of that address space. |
| PageTables.EntryCleared | vm.c:277-284 | Cutting off a user page keeps ownership exact, whatever the page then holds. |
| PageTables.OthersTranslate | vm.c:38-58 | An address space whose pages were not touched translates every address as before. |
| VmEffects.PutOne | vm.c:248-249 | Taking a page, filling it and mapping it changes that one translation of the address space. |
| VmEffects.GrantsExactly | vm.c:76-76 | An entry with the bits of perm and the present bit is writable, and open to user code, exactly when perm says so. |
| VmEffects.RestoredExactly | vm.c:240-255 | A failed allocuvm leaves the user mapping as it was if and only if no page of the requested range was mapped before. |
| VmEffects.NeedStep | vm.c:240-255 | How many pages growing needs: one for each page, and one more where the table of that page is missing. |
| VmEffects.RanOut | vm.c:240-255 | Stopping for want of a page means there were fewer free pages than the range needs, and no mapped page was reached. |
| VmEffects.MetMapped | vm.c:74-75 | Stopping at a mapped page means the free pages reached that far. |
| VmEffects.AllMapped | vm.c:240-255 | Finishing takes exactly the pages needed. |
| VmEffects.TopMet | vm.c:229-287 | A page in the way was mapped by an earlier operation of the sequence: some allocuvm grows below the top that the sizes passed so far allow. |
| VmEffects.NoUserLeak | vm.c:240-255 | After a rollback the pages missing from the free list are page-table pages of that address space. |
| VmEffects.TooFew | vm.c:136-142 | mappages running out of memory in setupkvm means there were fewer free pages than the kernel part needs, and that they reached no page of two regions. |
| VmEffects.Overlapping | vm.c:74-75 | The remap panic in setupkvm means two kernel regions share a page that the free pages reached. |
| VmEffects.KernelPerms | vm.c:108-119 | After setupkvm every page of a kernel region is present at its physical page, writable exactly when its region is, and open to user code exactly when its region says so. |
| VmEffects.PagesStep | vm.c:333-345 | How many pages copying needs: one per page and one more for each 1024th. |
| VmEffects.LeakCases | vm.c:341-350 | The leak condition, given how many pages are left after the kernel part. |
| VmEffects.LeaksAtTwo | vm.c:341-350 | For every nonempty copy, two free pages beside those of the kernel part are a count at which copyuvm loses a page. |
| VmEffects.SameFree | kalloc.c:60-95 | With the same pages owned and held, the same pages are free. |
| Vm.Memory.constructor | kalloc.c:31-37 | Before kinit every page above the kernel is outside the free list, owned by nobody. |
| Vm.Memory.Kalloc | kalloc.c:82-96 | Pops the head of the linked list, or returns 0 exactly when it is empty; every other page stays where it was. |
| Vm.Memory.Kfree | kalloc.c:59-77 | Pushes the page; the list stays duplicate-free. |
| Vm.Memory.KfreeAddress | kalloc.c:59-77 | kfree on an address panics exactly when it is not page aligned, below the end of the kernel or beyond physical memory, and then changes nothing. |
| Vm.Memory.Freerange | kalloc.c:46-53 | Exactly the whole pages between the two addresses join the free list, each once. |
| Vm.Memory.Walkpgdir | vm.c:38-58 | Fails exactly when there is no table and none may or can be made; a table it makes is the head of the free list. |
| Vm.Memory.MapPage | vm.c:71-76 | One round of mappages: panics exactly on a present entry, fails exactly with no table and no free page, else moves that one translation, to the given page with the given permissions. |
| Vm.Memory.Mappages | vm.c:63-83 | Maps the pages in order up to a stated point, each with the given permissions, overwrites no translation, and takes one free page for each missing table. |
| Vm.Memory.MapRange | vm.c:69-81 | The loop of mappages. |
| Vm.Memory.Setupkvm | vm.c:123-144 | All kernel regions and nothing else are mapped. It panics if and only if some page lies in two regions and the free pages suffice for the tables up to it; otherwise it fails if and only if fewer pages are free than 1 plus the tables needed, and then gives everything back. |
| Vm.Memory.Deallocuvm | vm.c:263-287 | Exactly the user pages of the range go back to the allocator, also across the step over missing tables, and the free list grows by as many; the rest of the address space and all others are unchanged. |
| Vm.Memory.ClearEntry | vm.c:277-284 | One user page goes back and its translation is gone. |
| Vm.Memory.Allocuvm | vm.c:229-257 | On success every page of the range is a zeroed, writable user page and nothing else moved; on failure the range is unmapped again and every page taken is back but page tables. It panics on a remap exactly when the free pages reach a page that was mapped before, and otherwise fails exactly when fewer pages are free than the pages and missing tables of the range. |
| Vm.Memory.GiveBack | vm.c:243-253 | The failure path of allocuvm. |
| Vm.RollbackLosesPage | vm.c:240-255 | For every kernel map without overlaps, a run in which allocuvm fails and a page mapped before the call is mapped no longer. |
| Vm.Memory.Freevm | vm.c:291-306 | Every page of the address space goes back, each once; no other address space and no held page is touched. |
| Vm.Memory.FreeTables | vm.c:299-305 | The loop of freevm over the directory. |
| Vm.Memory.Copyuvm | vm.c:323-351 | The child's pages below sz are copies with the parent's flags; it succeeds exactly when there are enough free pages; unless it panics it loses no page if and only if the free-page count is not the one where mappages fails for want of a table; and it panics if and only if setupkvm does, or some page below sz is not mapped and the free pages suffice to copy those before it. |
| Vm.Memory.CopyPages | vm.c:333-350 | The loop of copyuvm and its failure path, with the page it does not free. |
| Vm.CopyLosesPage | vm.c:341-350 | For every kernel map without overlaps, a run in which copyuvm fails and a page is left that nobody owns and that is not free. |
| Vm.Memory.Lifetime | vm.c:124-306 | Page conservation: after setupkvm, any sequence of allocuvm and deallocuvm and freevm, the free list holds exactly the pages it began with, each once, and every other address space is as it was. It panics if and only if setupkvm does or the sequence, computed on page numbers and a count of free pages alone, reaches a remap; and then kernel regions overlap or some allocuvm grows over pages that the sizes passed before may have mapped. |
| Spaces.BlockedIs | vm.c:229-257 | Meeting a mapped page, told from the page tables, is meeting it in the numbers. |
| Spaces.ReachIs | vm.c:240-255 | Where a growth that runs out of pages stops is determined by the missing tables and the free pages. |
| Spaces.GrowPart | vm.c:229-257 | What allocuvm does to page tables and free list, on success, failure and panic, is what the computation on numbers says. |
| Spaces.ShrinkPart | vm.c:263-287 | Likewise for deallocuvm. |
| Pipe.Counters | pipe.c:85-114 | With 32-bit counters that wrap, the empty and full tests are exact for at most 512 bytes in flight. |
| Pipe.PutCarries | pipe.c:93-93 | Storing a byte appends it to the stream, also when nwrite wraps. |
| Pipe.GetCarries | pipe.c:116-116 | The byte fetched is the next one of the stream, also when nread wraps. |
| Pipe.StepKeeps | pipe.c:78-121 | Every step of every process between lock operations keeps the invariant, killed or not. |
| Pipe.CallKeeps | pipe.c:60-121 | Starting a call, killing a process, or closing an end no call is using, keeps it. |
| Pipe.RunKeeps | pipe.c:60-121 | It holds in every state of every interleaving. |
| Pipe.NoLostWakeup | proc.c:489-545 | In a run without kill, whenever the pipe lock is free, a process asleep on nread faces an empty pipe with the write end open, and one asleep on nwrite a full pipe with the read end open. |
| Pipe.LostWakeupExactly | pipe.c:79-121 | With kill: a process asleep on nread while the lock is free faces a nonempty pipe if and only if a killed writer left with -1 after storing bytes, and since then nobody called wakeup on nread and the pipe was never empty; a process asleep on nwrite always faces a full pipe. |
| Pipe.StrandedMeans | pipe.c:86-89 | That condition on the run is what the invariant tracks, in both directions. |
| Pipe.KilledWriterStrands | pipe.c:84-94 | A run that ends with the lock free, a reader asleep, and 512 bytes in the pipe. |
| Pipe.Fifo | pipe.c:79-121 | The bytes read are a prefix of the bytes written in lock order, at most 512 in flight, and each read call's bytes are one stretch of that stream. |
| Pipe.WritesInOrder | pipe.c:78-98 | At every point of every run a write call has put into the pipe exactly the bytes before its place, in order, across all its waits; when it returns the length it has put all of them, and when it returns -1 only a part, with the pipe full and the caller killed or no reader left. |
| Pipe.ReadsInOrder | pipe.c:100-121 | Likewise a read call has taken what it has collected; it returns as many bytes as asked for or has emptied the pipe, returns 0 for a positive count only when the write end is closed, and returns -1 only when killed where it would have waited. |
| Pipe.KilledWakes | proc.c:525-545 | A killed process never sleeps on the pipe again, also if it was asleep, unless the kill comes between its last test and its sleep. |
| Pipe.NoDeadlock | pipe.c:60-121 | In every reachable state with a process in a call and not asleep, some process can take a step. |
| Pipe.FreedOnce | pipe.c:60-75 | After the step that finds both ends closed and frees the pipe, no process is in a call on it, none can start one, and none frees it again. |
| Pipe.FreedAtAll | pipe.c:60-75 | Once both ends are closed and their closers have left, some step has freed it. |
| Pipe.Buffer.Fill | pipe.c:84-94 | The loop of pipewrite between two waits: bytes are appended in order, and it stops early only on a full pipe. |
| Pipe.Buffer.Drain | pipe.c:113-117 | The loop of piperead: bytes come out in order, and it stops early only on an empty pipe. |
| Mlfq.Table.Select | proc.c:361-369 | Picks the lowest-numbered runnable process of the highest level, or none exactly when none is runnable. |
| Mlfq.Table.UpdateWaitTicks | proc.c:667-686 | Every runnable process but the one that ran waited one more round at its level. |
| Mlfq.Table.PriorityBoost | proc.c:688-723 | Every process past its level's patience moves up one level with its wait count reset. |
| Mlfq.Table.SchedulerRound | proc.c:359-393 | One round of the MLFQ branch is the round function, applied to the process picked. |
| Mlfq.Table.RunProcess | proc.c:371-386 | The part of a round while the process runs, as RUNNING, and is charged. |
| Mlfq.Accounting | proc.c:355-393 | In every run, at every scheduler loop head and for levels 1 to 3, the ticks ever charged at level q equal slice[q] times the demotions from q plus ticks[q], with ticks[q] below the slice. |
| Mlfq.BalanceStep | trap.c:118-122 | One round, with or without a tick, keeps the account balanced. |
| Mlfq.LevelsMove | proc.c:380-390 | A round drops the selected process exactly one level when it has used 8, 16 or 32 ticks at levels 3, 2 and 1, clearing that count only, and raises exactly one level whoever has then waited 160, 320 or 500 rounds at levels 2, 1 and 0. |
| Mlfq.StartsHigh | proc.c:105-112 | A new process starts at level 3 with no ticks, whatever its slot held before. |
| Mlfq.Need | proc.c:688-723 | The rounds still to wait are at most 980, and 0 exactly at level 3. |
| Mlfq.NeedDrops | proc.c:667-723 | One round of waiting brings a process strictly closer to level 3. |
| Mlfq.NeedOverRun | proc.c:667-723 | Over a run of n rounds of waiting the distance falls by at least n. |
| Mlfq.PromotionBound | proc.c:667-723 | A process that stays runnable and unselected for 980 rounds is at level 3, whatever its level and leftover counts were. |
| Mlfq.BoundIsExact | proc.c:688-723 | From level 0 with no counts, n rounds leave exactly 980 - n, so 979 are not enough. |
| Mlfq.FirstSlotServed | proc.c:361-369 | Slot 0 is never passed over for more than 980 rounds: once at level 3 the next round picks it. |
| Mlfq.Starves | proc.c:362-368 | For every table size, every slot but the first and every r, a run of r rounds in which that slot is runnable, at level 3 and never picked. |
| Mlfq.StarvationExactly | proc.c:361-393 | The runnable rounds a slot can be passed over are bounded, in all runs, if and only if it is slot 0. |
| Grep.AcceptsStar | grep.c:98-106 | A starred pattern accepts a text exactly when some split into a run of fitting characters and an accepted rest exists. |
| Grep.AcceptsOne | grep.c:85-96 | A single character pattern accepts by its first character and the rest. |
| Grep.AcceptsEnds | grep.c:85-92 | The empty pattern accepts everything, $ exactly the empty text. |
| Grep.MatchesAt | grep.c:72-82 | The declarative meaning of match (some substring lies in the language, a prefix under ^, a suffix under $) as a choice of starting point. |
| Grep.MatchHere | grep.c:84-96 | True if and only if a prefix of the text (all of it under $) lies in the pattern's language. |
| Grep.MatchStar | grep.c:98-106 | True if and only if some split exists; both recursions terminate by one lexicographic measure. |
| Grep.Match | grep.c:72-82 | True if and only if the text matches the pattern's declarative language. |
| Shell.WordLenIn | sh.c:295-299 | A token is a maximal run of word characters. |
| Shell.RedirsTrip | sh.c:374-397 | Printed redirections parse back to the same redirections. |
| Shell.AppendAsWrite | sh.c:388-393 | A `>>` is one token, and whatever follows parses as after a `>`. |
| Shell.ArgsTrip | sh.c:430-443 | Printed words and redirections parse back to the same command, for at most 9 words. |
| Shell.BlockTrip | sh.c:399-413 | A parenthesised tree with redirections parses back. |
| Shell.ExecTrip | sh.c:415-446 | A printed simple command or block parses back by parseexec. |
| Shell.PipeTrip | sh.c:361-372 | A printed pipeline parses back by parsepipe. |
| Shell.AndTrip | sh.c:349-353 | A printed chain of & parses back by the loop of parseline. |
| Shell.LineTrip | sh.c:344-359 | A printed list parses back by parseline. |
| Shell.RoundTrip | sh.c:327-446 | For every tree the grammar can express, printing it with only the needed parentheses and parsing gives the same tree and consumes all input. |
| Shell.LineValid | sh.c:344-446 | Whatever parseline builds is expressible: nonempty words without symbols or space, at most 9 a command. |
| Shell.ParsesExactly | sh.c:327-446 | A tree is the result of parsing some line if and only if it is expressible. |
| ShellParser.GetToken | sh.c:265-308 | The cursor, the code and the word's bounds are those of the next token, for every input. |
| ShellParser.PeekAt | sh.c:310-320 | Moves the cursor over space and says whether the next character is among the given ones. |
| ShellParser.ParseRedirs | sh.c:374-397 | Agrees with the functional parser, panic for panic. |
| ShellParser.ParseArgs | sh.c:430-445 | Likewise for the argument loop, with its two panics. |
| ShellParser.ParseExecAt | sh.c:415-446 | Likewise for parseexec. |
| ShellParser.ParseBlockAt | sh.c:399-413 | Likewise for parseblock. |
| ShellParser.ParsePipeAt | sh.c:361-372 | Likewise for parsepipe. |
| ShellParser.ParseAnds | sh.c:349-353 | Likewise for the & loop. |
| ShellParser.ParseLineAt | sh.c:344-359 | Likewise for parseline; all of the recursion terminates. |
| ShellParser.NulTerminate | sh.c:449-493 | A NUL is written at the end of every recorded word and nowhere else. |
| ShellParser.EndsApart | sh.c:449-493 | No recorded word contains the position where another one ends. |
| ShellParser.TreeReads | sh.c:449-493 | After the NULs each word, read as a C string from its start, is the text that was parsed. |
| ShellParser.ParseCommand | sh.c:327-342 | For every buffer: a panic exactly when the text does not parse, and then the buffer is untouched; otherwise the C strings in the buffer are exactly the parsed tree, and every byte overwritten belonged to no word. |

## Left out

- FileWrite.Filewrite: covers ordinary files; a pipe goes to pipewrite, and a device inode to the device's own routine.
- Heap.Allocator.Malloc: covers requests of fewer than 2^31 - 15 bytes; larger ones make the signed argument of sbrk negative. `Heap.UnitsExact` says when the unit count itself wraps.
- Heap.Allocator.Free: covers blocks that malloc returned and that were not freed since, which is what the code demands of its callers.
- Vm.Memory.Kfree: covers pages that kalloc handed out; the panics on other addresses are those of `Vm.Memory.KfreeAddress`, and freeing a free page, which the code does not notice, is left to the caller as in the code.
- Vm.Memory.Mappages: covers nonempty ranges; for an empty one the code's last page precedes its first, and the loop runs through the whole address space.
- Vm.Memory.Deallocuvm: covers sizes up to KERNBASE, as all callers pass; above it the loop would free kernel memory.
- Vm.Memory.Setupkvm: the kernel map is a parameter, so the size and place of video memory and of the kernel image are not fixed; regions are nonempty and page aligned physically.
- ShellParser.ParseArgs: the command node is built when its words are known, not filled in through a pointer after redirections were wrapped around it.
- BufferCache.Cache.Bget: returns the buffer locked in one step; waiting for a sleep lock is modelled only in LogMachine, as a step that is enabled when the holder is gone.
- CrashFiles.FilewriteSurvives: covers runs in which only one process writes; others may read, and may begin and end operations at any time, which is what lets transactions share a commit.
- LogMachine: the change to a buffer and its entry in the list are one step, since the buffer stays locked from the change to brelse; `bget` may evict any clean unreferenced buffer there; which one it takes is proved on the class.
- Pipe.LostWakeupExactly: an end closes only when no call on it is in progress, as the reference counts of the file table ensure; a killed process starts no further call.
- Mlfq: one CPU kept under the MLFQ policies; the round-robin policy and the locking of the process table are not modelled.
- Files: one file operation at a time; the inode cache, inode locks, directories, path names, link counts and the other system calls are not modelled, nor is what mkfs writes.
- Grep: the loop that reads lines into a buffer.
- sh.c: runcmd, which executes the tree, and the reading of a line.
- Spin locks, context switches, traps other than the tick, boot code and device drivers; the disk is that of memide.c, one block a step.
- Networking, graphics, user-level threads and the other user programs.
