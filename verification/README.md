# xv6 for RISC-V: a verified model

This project models the parts of xv6-riscv, with its course extension (binary and counting
semaphores), that carry the strongest invariants, and proves what those parts are for:

- **The crash-safe file system**: the buffer cache (`kernel/bio.c`), the redo log
  (`kernel/log.c`), block allocation, block maps and file contents (`kernel/fs.c`), the chunking
  of `filewrite` (`kernel/file.c`), the image builder (`mkfs/mkfs.c`), the inode table and path
  lookup (`kernel/fs.c`).
- **Address spaces**: three-level Sv39 page tables over the page allocator (`kernel/vm.c`,
  `kernel/kalloc.c`), after section 4.4 of the RISC-V Privileged Architecture, version 20190608.
- **Blocking**: sleep, wakeup, yield and the scheduler with the binary semaphores and sleep locks
  (`kernel/proc.c`, `kernel/sleeplock.c`), the counting semaphore made of two binary ones
  (`user/Csemaphore.c`), and virtio requests (`kernel/virtio_disk.c`; sections 2.6 and 5.2 of
  VIRTIO 1.1).
- **User programs**: the K&R allocator (`user/umalloc.c`), the shell's parser (`user/sh.c`) and
  grep's matcher (`user/grep.c`).

Code that updates structures in place is a class or a method over arrays, with the source's loops;
code whose point is interleaving or crashes is a state machine, and its theorems are about every
run. A panic of the source is a result (`ok == false`, `panicked`, or a negative value), not a
precondition.

## How it is laid out

| files | about |
|---|---|
| `Common`, `Blocks` | sets, distinct sequences, bytes, words and bits of blocks, disks as sequences of blocks |
| `BufferCache`, `CacheRuns` | the cache as a class; its users interleaved |
| `RedoLog`, `Log`, `Transactions` | block writes of commit and recovery; the log over the cache; operations interleaved, with crashes |
| `Inodes`, `Files`, `Truncation`, `Writing`, `FileSystem` | slots and block ownership; file contents; the operations |
| `Budget`, `FullDisk`, `BudgetRuns` | how many blocks a write logs, and a disk on which the bound is reached |
| `Mkfs` | the image builder |
| `Paths`, `InodeTable` | names and what they lead to; the inode table and namex |
| `Images` | an image made by mkfs, mounted, looked up and read |
| `PageTables`, `Spaces`, `VirtualMemory` | the tree of tables; the flat map; the operations |
| `Umalloc` | malloc and free |
| `Sleeping`, `CountingSemaphores`, `Virtio` | blocking, semaphores, disk requests |
| `Grep` | the matcher |
| `Shell`, `ShellGrammar`, `ShellText`, `ShellParser` | the parser as functions; the grammar that it parses; the text of a tree; the parser over a buffer |

## Model

| member | source | states |
|---|---|---|
| `BufferCache.Bcache.constructor` | kernel/bio.c:37-53 | a well-formed circular list of all NBUF buffers, none referenced |
| `BufferCache.Bcache.Bget` | kernel/bio.c:59-89 | panics exactly if the block is not cached and every buffer is referenced; otherwise returns the one buffer of the block, locked; a recycled buffer is the unreferenced one released longest ago |
| `BufferCache.Bcache.ScanForBlock` | kernel/bio.c:65-74 | finds the buffer of the block, or there is none |
| `BufferCache.Bcache.ScanForUnused` | kernel/bio.c:76-87 | the unreferenced buffer released longest ago, or there is none |
| `BufferCache.OldestUnused` | kernel/bio.c:78-80 | the first unreferenced buffer from the tail of the list was released before every other one |
| `BufferCache.Bcache.Bread` | kernel/bio.c:93-106 | the locked buffer shows the most recently stored contents of the block, and only that buffer changed |
| `BufferCache.Bcache.Bwrite` | kernel/bio.c:110-115 | the disk, and nothing else, gets the contents: one block write |
| `BufferCache.Bcache.Brelse` | kernel/bio.c:120-140 | reference and lock are dropped; an unreferenced buffer becomes the most recently released one and the list stays a permutation of all buffers |
| `BufferCache.Bcache.MoveFront` | kernel/bio.c:129-136 | the pointer surgery moves one buffer to the front and keeps the order of the others |
| `BufferCache.Bcache.Bpin` | kernel/bio.c:143-147 | one more reference; cache invariant kept |
| `BufferCache.Bcache.Bunpin` | kernel/bio.c:150-154 | one reference fewer; cache invariant kept |
| `CacheRuns.NextInv` | kernel/bio.c:59-154 | every step of any user of the cache keeps: one buffer per block, reference counts equal handles plus pins, buffers coherent with what was stored last |
| `CacheRuns.ReadsLatest` | kernel/bio.c:93-106 | in every interleaving, whoever holds a filled buffer sees the most recently stored contents, alone, and no other buffer has the block |
| `CacheRuns.PinnedStays` | kernel/bio.c:143-154 | in every interleaving, no step recycles a pinned block or one that is newer in memory than on disk |
| `RedoLog.HeaderRoundTrip` | kernel/log.c:87-114 | what write_head stores, read_head reads back |
| `RedoLog.RecoveryRestarts` | kernel/log.c:117-123 | recovery cut short after any number of writes and started again gives the disk of an undisturbed recovery |
| `RedoLog.RecoveryConverges` | kernel/log.c:117-123 | the same for any number of interrupted recoveries |
| `RedoLog.CommitIsAtomic` | kernel/log.c:194-203 | stopped after any write of commit and recovered, every home block is as before the transaction, or every one is as in it; which of the two is decided by the header write |
| `RedoLog.CommitCompletes` | kernel/log.c:194-203 | a whole commit leaves the blocks home and the header clear |
| `Log.Log.WriteLog` | kernel/log.c:179-191 | the block writes sent are the copies to the log, in order, through the cache; all of them if there are buffers |
| `Log.Log.InstallTrans` | kernel/log.c:69-83 | the block writes sent are the copies home, and each block loses its pin outside recovery |
| `Log.Log.ReadHead` | kernel/log.c:87-97 | the logged blocks become those that the disk's header lists |
| `Log.Log.WriteHead` | kernel/log.c:103-114 | one block write, of a header that lists the logged blocks |
| `Log.Log.Commit` | kernel/log.c:194-203 | the writes sent are a prefix of those of `RedoLog.CommitWrites`, all of them unless bget panics, which it does not if the cache has a spare buffer; then the log is empty, the header clear and the home contents are the cached ones |
| `Log.Log.RecoverFromLog` | kernel/log.c:117-123 | the writes sent are a prefix of those of `RedoLog.RecoverWrites`; at its end the disk is the recovered one and the state is what commit and log_write need |
| `Log.Log.LogWrite` | kernel/log.c:215-235 | panics exactly if the log is full, even for a block that would be absorbed, or no operation is outstanding; a block is absorbed or appended and pinned, and the logged blocks stay distinct and outside the log |
| `Log.Log.Initlog` | kernel/log.c:55-65 | from an idle cache, recovery goes through and establishes the invariant of log and cache |
| `Log.Log.Update` | kernel/log.c:205-235 | bread, a change, log_write and brelse keep the invariant that exactly the logged blocks are pinned; the disk does not change |
| `Log.Log.BeginOp` | kernel/log.c:127-142 | an operation enters exactly if MAXOPBLOCKS more blocks fit for every outstanding operation and itself |
| `Log.Log.EndOp` | kernel/log.c:147-175 | the last operation commits: invariant kept, log empty, cache and disk equal; otherwise the disk is untouched |
| `Log.Log.Transaction` | kernel/log.c:125-203 | begin_op, updates, end_op: the disk has exactly those writes on its home blocks |
| `Log.Log.Session` | kernel/log.c:55-235 | boot, recovery and any number of transactions, each going through, with no buffer ever missing; the disk is the recovered one with all writes in order |
| `Transactions.NextInv` | kernel/log.c:125-235 | every step (begin, log_write, end, each block write of commit and recovery, crash) keeps the invariant of disk, cache, log and history |
| `Transactions.CrashesAreAtomic` | kernel/log.c:67-123 | in every run with any number of crashes, completed recovery shows exactly the writes up to the last commit point, and that point splits no operation |
| `Transactions.CommitsRunAlone` | kernel/log.c:144-175 | in every run a commit has no operation outstanding and none starts during it, so the panic on log.committing is out of reach; with nothing outstanding all writes are home |
| `Transactions.RunReserved` | kernel/log.c:125-142 | in every run of operations within budget, logged blocks plus unused budgets stay within LOGSIZE |
| `Transactions.ReservationSuffices` | kernel/log.c:215-222 | then no such operation meets a full log, if the log region has more than LOGSIZE blocks |
| `Transactions.ShortLogOverflows` | kernel/log.c:220-222 | for every log region of at most LOGSIZE blocks there is a run in which an operation with budget left meets a full log |
| `FileSystem.FileSystem.Balloc` | kernel/fs.c:71-92 | the first free block, marked and zeroed; panics exactly if all are in use |
| `FileSystem.FileSystem.Bfree` | kernel/fs.c:96-109 | clears exactly the bit of the block; panics exactly if it was clear |
| `FileSystem.FileSystem.Bmap` | kernel/fs.c:384-411 | a mapped block is found and nothing changes; otherwise exactly that slot (and the indirect block) is filled, block ownership kept, and exactly which blocks are logged; panics only past MAXFILE or with the disk full |
| `FileSystem.FileSystem.Readi` | kernel/fs.c:462-483 | the slice of the file, clipped to its size, with 32-bit overflow refused; without holes nothing is allocated or changed |
| `FileSystem.FileSystem.Writei` | kernel/fs.c:493-523 | refused exactly for an offset past the end or too long a file; otherwise the file is the old one overlaid with the bytes at the offset, ownership and other files kept, no hole made; the exact set of logged blocks; at most MAXOPBLOCKS for a chunk |
| `FileSystem.FileSystem.Itrunc` | kernel/fs.c:416-443 | never meets a free block; frees exactly the blocks of the file, leaves it empty, and keeps all other files and the ownership of their blocks; logs exactly the inode's block and the bitmap blocks of what it frees |
| `FileSystem.FileSystem.FreeInode` | kernel/fs.c:339-364 | the end of iput: the same, with type 0 on disk, and the same blocks logged |
| `FileSystem.FileSystem.Filewrite` | kernel/file.c:148-175 | the chunks together overlay the bytes that were written at the offset; all of them are exactly if the offset is within the file and the end within MAXFILE blocks |
| `Files.OtherFile` | kernel/fs.c:384-443 | a file that no operation named reads the same |
| `Inodes.StoreKeepsOwned` | kernel/fs.c:493-523 | storing into a data block keeps every slot and the bitmap |
| `Inodes.MarkOwned` | kernel/fs.c:71-109 | setting or clearing the bit of a block in no slot keeps the bitmap exact |
| `Budget.TurnCover` | kernel/fs.c:502-514 | a turn of the loop of writei logs two blocks at most beside the indirect block and its bitmap block, one if its block was mapped |
| `Budget.BudgetHolds` | kernel/file.c:148-156 | a chunk of at most three blocks in a file without holes logs at most MAXOPBLOCKS blocks, however many bitmap blocks there are |
| `Budget.ExactCount` | kernel/param.h:10 | where each new block has a bitmap block of its own, a chunk from direct block 11 on logs exactly MAXOPBLOCKS blocks, one more if that block was a hole |
| `Budget.NeverStuck` | kernel/fs.c:384-411 | five free blocks are enough for such a chunk |
| `BudgetRuns.FullChunk` | kernel/fs.c:493-523 | writei itself on such a file system: it goes through and logs exactly so many blocks |
| `BudgetRuns.Witness` | kernel/file.c:148-175 | such file systems exist: the bound is reached without holes, and exceeded with one |
| `FullDisk.DiskOwned` | kernel/fs.c:69-109 | the disk of the witness satisfies the ownership invariant |
| `FullDisk.DiskCrowded` | kernel/fs.c:69-92 | its free blocks lie under five different bitmap blocks |
| `Mkfs.LayoutOk` | mkfs/mkfs.c:93-106 | log, inode and bitmap areas are apart and large enough |
| `Mkfs.Image.Ialloc` | mkfs/mkfs.c:232-243 | the next inode, empty |
| `Mkfs.Image.Iappend` | mkfs/mkfs.c:264-305 | the bytes are added to the end of the file, other files kept, and how many blocks it takes |
| `Mkfs.Image.AddFile` | mkfs/mkfs.c:132-163 | an inode, an entry in the root directory and the contents |
| `Mkfs.Image.Balloc` | mkfs/mkfs.c:246-259 | the bitmap written for the first freeblock blocks makes the ownership invariant hold |
| `Mkfs.Image.Populate` | mkfs/mkfs.c:68-176 | the image satisfies the ownership invariant, every file has its contents, the root directory lists them and is filled up with zeros, types and link counts are right, and there is no hole exactly if the directory's length is not a multiple of BSIZE; fails only if image or bitmap block are full or a file is too large |
| `Mkfs.RoundedUp` | mkfs/mkfs.c:166-171 | rounding the directory's size leaves a hole exactly if it was a multiple of BSIZE |
| `Mkfs.RootHole` | mkfs/mkfs.c:166-171 | with the repository's sizes, an image of 62 empty files is built and has a hole |
| `Images.DirentRead` | mkfs/mkfs.c:155-158 | a directory entry as mkfs writes it is read by the kernel as that inode and that name, cut to DIRSIZ |
| `Images.LeadsFirst` | kernel/fs.c:536-559 | a name leads somewhere from the root directory of an image exactly if it is that of an entry, and then to the inode of the first such entry |
| `Images.ImageFinds` | mkfs/mkfs.c:118-163 | for different names each name leads to its file and to nothing else, and the two dots lead to the root directory, even in an image with the hole |
| `Images.ImageLacks` | kernel/fs.c:536-559 | no other name leads anywhere |
| `Images.ImageTree` | mkfs/mkfs.c:118-171 | the tree of an image: a directory and files, each with one link and its contents |
| `Images.PlantedSound` | mkfs/mkfs.c:118-171 | such a tree is closed and sound, which is what namex needs not to panic |
| `Images.ReadFirst` | kernel/fs.c:462-667 | from mkfs to the first read: namei of a file's path in a mounted image gives its inode without a panic, and readi gives what was put in |
| `Paths.NamesBack` | kernel/fs.c:606-628 | the names of a path are those it was joined from |
| `Paths.WalkReaches` | kernel/fs.c:642-661 | the lookup gives an inode exactly if there are inodes from the start to it, each the one that the first used entry for the next name is for |
| `Paths.WalkFinds` | kernel/fs.c:635-667 | the same with nameiparent, for all names but the last |
| `Paths.Skipelem` | kernel/fs.c:606-628 | the first of the slash-separated names from here on goes to the buffer, cut to DIRSIZ bytes; the rest of the path has the other names |
| `Paths.FirstName` | kernel/fs.c:606-628 | a word up to a slash is the first of the names of a path |
| `Paths.SameName` | kernel/fs.c:528-531 | strncmp over DIRSIZ bytes says whether two buffers hold the same name |
| `Paths.Lookup` | kernel/fs.c:536-559 | the first used entry with the name, or none has it |
| `InodeTable.Itable.constructor` | kernel/fs.c:184-194 | an empty table |
| `InodeTable.Itable.Iget` | kernel/fs.c:249-279 | one more reference to the inode and to no other; one live entry per inode; panics exactly if NINODE other inodes are in use |
| `InodeTable.Itable.Idup` | kernel/fs.c:284-290 | one more reference to the inode of the entry |
| `InodeTable.Itable.Ilock` | kernel/fs.c:295-319 | panics exactly for a free inode; otherwise the entry is locked and agrees with the disk |
| `InodeTable.Itable.Iunlock` | kernel/fs.c:323-329 | panics exactly if the entry is not locked or not referenced |
| `InodeTable.Itable.Iput` | kernel/fs.c:339-364 | one reference fewer; the last one of an unlinked inode frees it with its blocks, and the tree changes there alone |
| `InodeTable.Itable.Iunlockput` | kernel/fs.c:368-372 | the two together |
| `InodeTable.Itable.Dirlookup` | kernel/fs.c:536-559 | the inode of the first entry with the name, with one more reference, or none |
| `InodeTable.Itable.Namex` | kernel/fs.c:635-667 | whenever it returns an inode, the names lead to it from the root or the current directory, entry by entry; when it returns none, they lead to none; one more reference to the result and to nothing else, and no change at all in references on failure; no panic if the tree is sound and two table entries are free |
| `InodeTable.FullTable` | kernel/fs.c:249-279 | a table without a free entry holds as many different inodes as entries |
| `InodeTable.RefIs` | kernel/fs.c:249-290 | all references to an inode are in one entry |
| `PageTables.SetEntry` | kernel/vm.c:81-98 | storing one leaf entry changes the flat map at one virtual page |
| `Spaces.OwnCell` | kernel/vm.c:81-98 | two virtual pages, of any address spaces, never share an entry |
| `Spaces.PxDigits` | kernel/riscv.h:342-345 | walk's shifts and masks are the digits of the page number in base 512 |
| `Spaces.PteRoundTrip` | kernel/riscv.h:335-339 | an entry gives back the page and the flags it was made of |
| `VirtualMemory.Vm.constructor` | kernel/kalloc.c:34-40 | every whole page of the range is on the free list |
| `VirtualMemory.Vm.Kalloc` | kernel/kalloc.c:69-82 | a page from the free list, with its junk; 0 exactly if there is none |
| `VirtualMemory.Vm.Kfree` | kernel/kalloc.c:47-63 | the page is on the free list once; panics exactly outside of the range |
| `VirtualMemory.Vm.Walk` | kernel/vm.c:81-98 | panics exactly from MAXVA on; finds the table that the flat map names; new tables change no mapping; fails only if memory is exhausted |
| `VirtualMemory.Vm.Mappages` | kernel/vm.c:138-157 | exactly the named pages are mapped; on failure or panic exactly the pages before it, and why it failed |
| `VirtualMemory.Vm.Uvmunmap` | kernel/vm.c:163-184 | panics exactly if unaligned or a page is not mapped; exactly the named pages go, and are freed if asked |
| `VirtualMemory.Vm.Uvmcreate` | kernel/vm.c:189-197 | an empty address space, others unchanged |
| `VirtualMemory.Vm.Uvmalloc` | kernel/vm.c:218-241 | zeroed fresh pages, one for each page of growth, so that the user can reach every byte up to the new size and reads 0; on failure no mapping has changed and no data page is lost, and there were fewer than three free pages for each |
| `VirtualMemory.Vm.Uvmdealloc` | kernel/vm.c:248-259 | exactly the pages between the rounded sizes go and are free |
| `VirtualMemory.Vm.Freewalk` | kernel/vm.c:264-279 | frees exactly the tables below and the table itself |
| `VirtualMemory.Vm.Uvmfree` | kernel/vm.c:284-289 | every page of the space, data and tables, is free again, and every other space is as before |
| `VirtualMemory.Vm.Uvmcopy` | kernel/vm.c:298-325 | equal bytes and flags on fresh distinct pages, so that the user sees the same memory; on failure no mapping has changed in either space |
| `VirtualMemory.Vm.Walkaddr` | kernel/vm.c:104-121 | the page of a user address in the flat map, 0 exactly if the entry is not valid or not the user's |
| `VirtualMemory.Vm.Copyin` | kernel/vm.c:369-388 | exactly the bytes of the user view across pages; fails exactly if one is not mapped for the user |
| `VirtualMemory.Vm.Copyout` | kernel/vm.c:344-363 | exactly those bytes of the user view are replaced; fails exactly if one is not mapped, with the bytes before that page written |
| `Umalloc.Heap.constructor` | user/umalloc.c:21-22 | nothing is held and there is no memory yet |
| `Umalloc.Heap.Search` | user/umalloc.c:29-32 | the walk round the circular list ends, at the place of the block in address order |
| `Umalloc.Heap.Free` | user/umalloc.c:25-44 | the list stays circular in address order with one wrap, blocks tile the memory, no two free ones touch; exactly that block is given back, and a free block of its size exists |
| `Umalloc.Heap.Morecore` | user/umalloc.c:47-61 | new memory becomes a free block and joins its neighbours; 0 exactly if sbrk refuses, with nothing changed |
| `Umalloc.Heap.Malloc` | user/umalloc.c:64-90 | ends, with a new block of the rounded size and the other blocks as they were, or 0 and sbrk refused; the invariant kept |
| `Umalloc.OneBlock` | user/umalloc.c:25-90 | every unit of memory is in exactly one block, free or handed out but not both |
| `Umalloc.Disjoint` | user/umalloc.c:25-90 | blocks do not overlap |
| `Sleeping.NextInv` | kernel/proc.c:587-747 | every step of sleep, wakeup, yield, scheduler and the semaphores keeps the invariant |
| `Sleeping.NoLostWakeup` | kernel/proc.c:693-747 | in every run, when the spinlock is free, a thread that is asleep or cannot turn back waits for a value that is 0 |
| `Sleeping.OnePassPerRelease` | kernel/proc.c:1047-1063 | in every run at most one thread passes for each release, and one at first |
| `Sleeping.SwitchesClean` | kernel/proc.c:633-652 | in every run the checks of sched hold, and no scheduler picks a thread that is still switching out |
| `Sleeping.StepsAreAtomic` | kernel/proc.c:1047-1063 | a value changes only by a whole down of a value that is not 0, or a whole up: what the counting semaphore builds on |
| `Sleeping.AllocatedOnce` | kernel/proc.c:1023-1043 | in every run bsem_alloc hands a semaphore out again only after it was freed |
| `Sleeping.MutualExclusion` | kernel/sleeplock.c:22-41 | in every run in which only holders release, and no held lock is freed, no two threads have the same lock |
| `Sleeping.NoDeadlock` | kernel/proc.c:587-747 | in every run, unless every thread is outside or asleep on a value that is 0, a thread can go on, a switch can end or a thread can be resumed |
| `Sleeping.WokenTakes` | kernel/proc.c:693-722 | a woken thread whose value is not 0 can be resumed and take it |
| `CountingSemaphores.NextInv` | user/Csemaphore.c:8-24 | every statement of csem_down and csem_up, by any thread, keeps the invariant |
| `CountingSemaphores.CountIsRight` | user/Csemaphore.c:8-24 | in every run from a count that is not negative, count is initial plus ups minus downs, and not negative |
| `CountingSemaphores.NeverRaisedTwice` | user/Csemaphore.c:8-24 | in every such run no binary semaphore is raised while it is 1 |
| `CountingSemaphores.Exclusive` | user/Csemaphore.c:8-24 | in every such run at most one thread is between its down and its up of bsem1 |
| `CountingSemaphores.WaitsForCount` | user/Csemaphore.c:8-24 | in every such run, with no thread inside, bsem2 is min(1, count) and bsem1 is free |
| `CountingSemaphores.NeedsCount` | user/Csemaphore.c:27-39 | csem_alloc establishes the invariant exactly for counts that are not negative |
| `CountingSemaphores.NegativePasses` | user/Csemaphore.c:27-39 | from every negative count a csem_down goes through without waiting |
| `CountingSemaphores.NoDeadlock` | user/Csemaphore.c:8-24 | in every such run some thread inside a call can go on, unless all of them wait in csem_down for a count that is 0 |
| `CountingSemaphores.DownGoesThrough` | user/Csemaphore.c:8-15 | with nobody inside and a positive count, csem_down runs to its end and takes one |
| `CountingSemaphores.UpGoesThrough` | user/Csemaphore.c:18-24 | with nobody inside csem_up runs to its end and adds one |
| `Virtio.Disk.constructor` | kernel/virtio_disk.c:125-140 | all descriptors are free and no request is in flight |
| `Virtio.Disk.AllocDesc` | kernel/virtio_disk.c:145-154 | the first free descriptor, -1 exactly if there is none |
| `Virtio.Disk.FreeDesc` | kernel/virtio_disk.c:158-171 | panics exactly if it is out of range or free |
| `Virtio.Disk.FreeChain` | kernel/virtio_disk.c:175-186 | frees exactly the three descriptors of the chain |
| `Virtio.Disk.Alloc3Desc` | kernel/virtio_disk.c:191-202 | three distinct free descriptors, or none taken, exactly if fewer are free |
| `Virtio.Disk.Post` | kernel/virtio_disk.c:205-268 | a chain is formatted for the direction, the block and the buffer, and posted, across the wrap of the 16-bit index; a caller that has to wait holds no descriptor; free descriptors and chains partition all |
| `Virtio.Disk.Pop` | kernel/virtio_disk.c:252-264 | the device takes the requests in the order in which they were posted |
| `Virtio.Disk.Complete` | kernel/virtio_disk.c:227-255 | the device goes by the command and the descriptors of the chain: a read puts the block of the disk into the buffer, a write puts what the buffer held when it was posted on the disk, and nothing else changes; or it fails with a status |
| `Virtio.Disk.Serve` | kernel/virtio_disk.c:227-246 | what the device does for a type, a sector and a descriptor that it may read or write |
| `Virtio.Disk.IntrOne` | kernel/virtio_disk.c:298-313 | handles the oldest request that the device completed and no interrupt has seen, and clears the busy mark of that request's buffer alone; panics exactly on a status other than 0 |
| `Virtio.Disk.Intr` | kernel/virtio_disk.c:284-316 | handles all of them, across the wrap of the index |
| `Virtio.Disk.Finish` | kernel/virtio_disk.c:270-281 | virtio_disk_rw returns only when the device made the transfer of that very request, with the block in the buffer, and frees exactly its chain |
| `Virtio.Disk.Rw` | kernel/virtio_disk.c:205-316 | a request alone: a read leaves the disk's block in the buffer and the disk as it was, a write leaves the buffer on the disk, and it panics exactly if the device fails or has no such block |
| `Virtio.TransferHolds` | kernel/virtio_disk.c:205-316 | with any requests under way, what a transfer moved is on the disk until a later one writes that block, reads saw all transfers before them, and no request is transferred twice |
| `Grep.MatchHere` | user/grep.c:83-94 | true exactly if the text begins with a match of the items of the expression |
| `Grep.MatchStar` | user/grep.c:97-104 | true exactly if some run of fitting characters is followed by a match |
| `Grep.Match` | user/grep.c:71-80 | true exactly if the text contains a word of the items that the pattern is written with, at its beginning after `^` |
| `Grep.ReadsBack` | user/grep.c:83-94 | items come back from their text exactly if no `*` follows a plain item and an end stands last and only there |
| `Grep.MeansOccurs` | user/grep.c:71-80 | a plain word matches exactly the texts that contain it |
| `Grep.MeansBegins` | user/grep.c:71-80 | after `^`, exactly those that begin with it |
| `Grep.MeansEnds` | user/grep.c:83-94 | before `$`, exactly those that end with it |
| `Grep.MeansIs` | user/grep.c:71-94 | between the two, exactly the word |
| `Grep.MeansRun` | user/grep.c:97-104 | `c*` takes a run of c of any length, of any characters for `.` |
| `Grep.MeansOne` | user/grep.c:83-94 | any other character takes itself, and `.` takes one of any |
| `Grep.MeansAnywhere` | user/grep.c:71-80 | without `^` a pattern matches where it would match with it |
| `Shell.GetToken` | user/sh.c:266-308 | where a token starts and ends, and that only the end of the line is token 0 |
| `Shell.LineSpans` | user/sh.c:345-446 | every word of the tree is a whole word of the line, whatever the line |
| `ShellGrammar.Tables` | user/sh.c:262-263 | the blanks and the symbols |
| `ShellGrammar.LexSpells` | user/sh.c:266-308 | a line is written with the tokens that gettoken gives, with blanks between them |
| `ShellGrammar.SpellsLex` | user/sh.c:266-308 | and with no others |
| `ShellGrammar.LineSound` | user/sh.c:345-446 | whatever parseline accepts is a line of the grammar: simple commands of words and redirections in any order, blocks, pipes, `&` and `;`; what it returns is the tree of that line, redirections inside out in their order |
| `ShellGrammar.LineComplete` | user/sh.c:345-446 | it accepts every line of the grammar |
| `ShellGrammar.ParsesExactly` | user/sh.c:328-342 | for every line and every tree: parsing gives the tree exactly if the line is written with a line of the grammar that has that tree |
| `ShellGrammar.PanicsExactly` | user/sh.c:328-342 | it panics exactly if the line is written with none |
| `ShellText.RoundTrip` | user/sh.c:328-342 | parsing the fully parenthesised text of any tree of valid words, with at most nine arguments, gives the tree |
| `ShellParser.Parser.Gettoken` | user/sh.c:266-308 | the cursor moves past the token, which is that of the grammar |
| `ShellParser.Parser.Peeks` | user/sh.c:311-320 | the cursor moves past blanks; whether the next character is one of those asked for |
| `ShellParser.Parser.Parseline` | user/sh.c:345-359 | ends on every line, with the tree of the grammar or a panic exactly where the grammar has none |
| `ShellParser.Parser.Parsepipe` | user/sh.c:362-372 | the same for pipes |
| `ShellParser.Parser.Parseredirs` | user/sh.c:375-397 | the same for redirections |
| `ShellParser.Parser.Parseblock` | user/sh.c:400-413 | the same for blocks |
| `ShellParser.Parser.Parseexec` | user/sh.c:416-446 | the same for simple commands |
| `ShellParser.Nulterminate` | user/sh.c:450-493 | the buffer gets NUL at exactly the ends of the words of the tree |
| `ShellParser.ReadsBack` | user/sh.c:450-493 | after that, the C strings of the tree are the words it was parsed to: no NUL falls into another word |
| `ShellParser.Parsecmd` | user/sh.c:328-342 | ends on every line; the C strings in the buffer it leaves make the tree of the line of the grammar that the buffer held, or there is none, and it panics with the buffer as before |
| `ShellParser.TextReadsBack` | user/sh.c:328-342 | text of a tree, parsed and terminated in the buffer, gives that tree of C strings |

## Findings

Four properties that the code or its comments suggest do not hold in general. Each has a theorem
that says exactly when it holds and one that shows a failing input.

1. **The log reservation** (`kernel/log.c:125-142`, `kernel/log.c:220-222`, `mkfs/mkfs.c:25`).
   begin_op reserves against LOGSIZE blocks, but the log region of `nlog == LOGSIZE` blocks loses
   one to the header, and log_write tests for a full log before it tests for absorption.
   `Transactions.ReservationSuffices`: with more than LOGSIZE blocks no operation within its budget
   meets a full log. `Transactions.ShortLogOverflows`: with LOGSIZE blocks or fewer, whatever the
   disk, there is a run of operations within their budgets that does.
2. **The root directory of a new image** (`mkfs/mkfs.c:166-171`). The size is rounded up even from
   a multiple of BSIZE, to a block that is not mapped. `Mkfs.RoundedUp` and `Mkfs.Image.Populate`:
   the image has no hole if and only if the directory's length is not a multiple of BSIZE.
   `Mkfs.RootHole`: 62 files, with the sizes in the repository, give a hole.
3. **Negative counts** (`user/Csemaphore.c:27-39`). csem_alloc lowers bsem2 for count 0 only.
   `CountingSemaphores.NeedsCount`: the invariant of the semaphore holds at the start if and only
   if the count is not negative. `CountingSemaphores.NegativePasses`: from every negative count a
   csem_down goes through.
4. **MAXOPBLOCKS and holes** (`kernel/file.c:148-156`, `kernel/param.h:10`). The budget of a chunk
   is exact, and needs files without holes. `Budget.BudgetHolds`: at most MAXOPBLOCKS blocks without
   holes. `Budget.ExactCount` and `BudgetRuns.Witness`: the bound is reached on a disk without holes,
   and the same chunk over a hole logs one block more.

`Sleeping` takes bsem_down on a semaphore that is not allocated as the code has it: it passes, for
-1 is not 0.

## Left out

- InodeTable.Itable.Namex: runs alone; other processes between its steps are not modelled, and that a sound tree with two free entries excludes panics is a sufficient condition only.
- FileSystem.FileSystem.Readi: a copy to the user succeeds or fails as a whole; bytes of a partly failed copy are not modelled.
- FileSystem.FileSystem.Writei: likewise for a copy from the user, where the source leaves changed and unlogged bytes in a buffer.
- FileSystem.FileSystem.Filewrite: the file table, reference counts of files and the choice by file type.
- BufferCache.Bcache.Bget: waiting for a locked buffer is in `CacheRuns`; the class method is for a buffer that is not locked.
- CacheRuns.PinnedStays: users of the cache follow log.c in writing or pinning a changed block before they release it; that log.c does so is `Log.Log.Update` and the invariant it keeps.
- Log.Log.BeginOp: sleeping until there is room is in `Transactions`.
- Mkfs.Image.Populate: command line, reading of the files, and more files than inodes; a layout with more than one bitmap block, of which mkfs writes one, fails as in the source.
- Sleeping.NoLostWakeup: runs that free a semaphore while threads wait for it are excluded; processes have one thread each.
- CountingSemaphores.CountIsRight: for threads that share one structure; each call of a binary semaphore is one step, as `Sleeping.StepsAreAtomic` allows; `int` overflow of the count is not modelled.
- VirtualMemory.Vm.Mappages: size 0, for which the source computes a last page below the first one.
- VirtualMemory.Vm.Uvmalloc: sizes past MAXVA, where walk panics; that panic is in `VirtualMemory.Vm.Mappages`.
- Umalloc.Heap.Malloc: requests of 2^31 bytes and more, and overflow in the `int` argument of sbrk; sbrk only grows, in whole units, with gaps where others called it.
- Umalloc.Heap.Free: freeing what is not held.
- Virtio.Disk.Complete: the device is taken to return each chain once, in any order, and to move whole blocks; memory barriers and device registers are not modelled.
- Virtio.Disk.Rw: block numbers from 2^31 on, for which the 32-bit product with the sectors of a block wraps; `Virtio.Disk.Post` has the block that is then meant.
- Images.ReadFirst: images whose root directory ends in a hole; `Images.ImageFinds` covers the lookup there.
- ShellParser.Parser.Parseexec: the tree is built as a value; that an execcmd under redirections is filled in place afterwards is not modelled.
- copyinstr, uvmclear, kvminit and the kernel's own page table: easier than the operations that are modelled.
- Byte layout of inodes and of the super block on disk: inodes are values beside the blocks.
- dirlink, create, link, unlink and the system calls on top of them.
- Signals, kernel threads, fork, exec, exit, wait and the reparenting of processes.
- Pipes, console, UART, PLIC, trap handling, assembly and start-up code.
- System call arguments, printf, and the other user programs.
