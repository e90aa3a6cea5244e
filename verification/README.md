# A verified model of the xv6 RISC-V kernel's stateful core

This project models, in Dafny 4.11, the parts of xv6 whose correctness is not visible in any single
function, and proves what they are for. Code that changes state is a class whose methods carry the
source's loops and are proved against specification functions; protocols between processes or with
a device are state machines over their atomic steps. A `panic` is an outcome, or a precondition that
its callers are proved to meet.

- **Write-ahead log over the buffer cache** (`Bcache`, `LogDisk`, `Log`, `Recovery`, `LogOps`, `LogRuns`).
  The disk changes one block at a time and a crash can fall between any two writes. A commit, any
  number of interrupted recoveries and a completed one leave the old file system or the new one.
  Logged blocks stay cached until they are installed, so what is committed is the latest data. Over whole
  runs of many processes, with reads at any time and crashes anywhere, the file system that is recovered
  is the one clients saw at the last commit point, and no operation was half-way there.
- **Buddy allocator** (`Bits`, `List`, `BuddyTree`, `BuddyOps`, `BuddyRuns`, `BuddyInit`, `BuddyMeta`,
  `Buddy`). Packed bit arrays and intrusive lists implement a binary tree whose invariant every run keeps.
- **Page tables and user memory** (`PageTable`, `PathCount`, `Frames`, `UserMap`, `FreeTree`, `UserCopy`,
  `Vm`). The three-level tree in physical memory refines a flat map from page numbers to entries, over a
  frame allocator that chains free frames through their own first words. How many page-table pages a
  range still lacks decides exactly when growing or copying fails. Copies between kernel and user memory
  are exact to the byte.
- **User-level malloc** (`Umalloc`). The circular, address-ordered, coalesced free list, which the set of
  free units determines.
- **Files** (`Bytes`, `FileBlocks`, `FileSpace`, `Files`). Inodes with direct and indirect blocks behave as
  byte sequences, every block has at most one owner, and a write fails exactly for want of blocks.
- **Sleep and wakeup** (`SleepLock`), **virtio descriptors** (`Virtio`, `VirtioRuns`), **the pipe
  ring** (`Pipe`) and **the pattern matcher of grep** (`Grep`). The protocols are shown safe, and also able
  to go on from every state they reach.

`dafny verify dfyconfig.toml` checks everything.

## Where the code does not do what it is for

Each of these is a proved statement with its exact condition:

- `LogOps.NoPanicIff`: the panic in `log_write` is unreachable if and only if the disk has more log
  blocks than LOGSIZE. mkfs builds a disk with exactly LOGSIZE (`mkfs/mkfs.c:25`), so it is reachable.
- `Log.FsLog.Commit`: a commit completes if and only if nothing is logged, or a buffer is free, or the
  header block and the log blocks it needs are all cached. While nothing is held that is: fewer blocks are
  logged than there are buffers. NBUF equals LOGSIZE (`kernel/param.h:10-11`), so on a disk with more than
  LOGSIZE log blocks a full header makes the commit panic in `bget` before its first write;
  `Log.FsLog.FillAndCommit` gets there from any boot, `LogOps.FullHeaderCommits` through `begin_op` and
  `end_op`.
- `Recovery.HeldAtZero`: `install_trans` unpins buffers that were never pinned, so recovery leaves their
  32-bit counts wrapped around below 0. The next `bread` of a block finds its buffer and returns it with
  count 0 if and only if the recovered header listed the block once; `Recovery.TakenWhileHeld`: when the
  other buffers are in use, the next block that is not cached takes that buffer over while it is held.
- `Recovery.RecoverFromLog`: recovery completes if and only if the header lists fewer different blocks
  than there are buffers. `Recovery.CrashRecovers`: that is so for every disk that a commit with the same
  number of buffers, and any interrupted recoveries after it, can leave. `LogRuns.RunsRecover` is about runs
  that begin with boots that had nothing to install, since after any other boot a held buffer can be taken
  over as above; another reboot is such a boot.
- `Buddy.FirstkEndsIff`: the loop in `firstk` ends if and only if the request is at most 2^63.
- `BuddyMeta.InitWorksIff`: `bd_init` on `n` bytes, rounded up to the power of two that is its heap, looks
  at no bit outside its arrays and passes its final check if and only if `n` is less than the heap and the heap has 1024 bytes or more, or 512 and `n < 320`, or
  256 and `176 <= n < 224`. Otherwise the metadata does not fit; or `n` is the whole heap and the first bit
  after a bit array is read (`BuddyMeta.FullHeap`); or the two boundaries at some size are the halves of one
  pair and its block is put on the free list and counted twice, which the final check turns into a panic
  (`BuddyInit.ClashIff`, `BuddyInit.CountIff`). With 400 bytes the list of size 3 is `[2, 2]`
  (`BuddyMeta.InitAt400`).
- `Vm.Kernel.UvmCopy`: when not even the first page can be copied, the clean-up asks `uvmunmap` for a
  range of size 0, which wraps and panics. That happens if and only if there is something to copy and fewer
  frames are free than one more than the page-table pages that the child lacks on the way to page 0, which
  are 0, 1 or 2 (`PathCount.MissingOne`); every other failure is cleaned up.
- `Pipe.Pipe.Write`: `pipewrite` returns `n` also when copying from user memory failed half-way, so what it
  returns is the number of bytes written if and only if it wrote all.
- `Pipe.Pipe.Write`: a writer that may not wait, having been killed or having no reader, returns from a full
  ring without the wakeup. Readers that slept are then left asleep beside a full ring if and only if it had
  more than PIPESIZE bytes it could read; no other call does that (`Pipe.ReaderLeftAsleep` is a run).

## Model

| member | source | states |
|---|---|---|
| LogDisk.CommitIsAtomic | kernel/log.c:68-202 | a crash anywhere in a commit, then any number of interrupted recoveries and a complete one, give every home block its old contents or every logged block its new ones, never a mix |
| LogDisk.RecoveryIsAtomic | kernel/log.c:115-122 | however often recovery is interrupted, the file system a complete recovery gives is the same, and the log is then empty |
| LogDisk.RecoveringKeepsAfter | kernel/log.c:68-122 | every disk state inside recovery recovers to what the first one recovers to |
| LogDisk.InstallAgain | kernel/log.c:68-82 | installing from the start what was partly installed gives the same disk |
| LogDisk.LoggedAfter | kernel/log.c:177-190 | while the log is being written the disk still recovers to the old file system |
| LogDisk.CommittedAfter | kernel/log.c:101-113 | the header write alone makes the disk recover to the new file system |
| LogDisk.CommittingAfter | kernel/log.c:192-202 | every disk state inside a commit recovers to the old or to the new file system |
| LogDisk.BootsHeader | kernel/log.c:115-122 | through any number of interrupted recoveries the header on disk is the first one or empty |
| LogDisk.CommittingHeader | kernel/log.c:192-202 | inside a commit the header on disk is empty or the one being committed |
| Log.ReadAgrees | kernel/bio.c:90-101 | what a reader gets is the latest contents written by anyone, committed or not, and the cache still agrees with that view |
| Log.ReleaseAgrees | kernel/bio.c:114-135 | giving a buffer back never loses a logged block |
| Log.WriteAgrees | kernel/log.c:213-235 | changing a held buffer and logging it, with or without absorption, pins it exactly once and makes its data the view |
| Log.LogAreaAgrees | kernel/log.c:177-190 | writing a log block disturbs no file system block |
| Log.InstallAgrees | kernel/log.c:74-80 | the cached copy of a pinned block is its latest data, and unpinning it after its home write keeps cache and disk in agreement |
| Log.PinsBound | kernel/log.c:213-235 | there are at most as many logged blocks as buffers, and as many exactly if every buffer has one |
| Log.FullCache | kernel/bio.c:57-87 | with as many logged blocks as buffers, none is left for a block of the log area |
| Log.FreeIff | kernel/bio.c:57-87 | while nothing is held, a buffer is free if and only if fewer blocks are logged than there are buffers |
| Log.UpdatedIsView | kernel/log.c:192-202 | the file system with the logged blocks applied is what clients see |
| Log.FsLog.Boot | kernel/log.c:54-65 | a boot with an empty log starts with no pins, no held buffers and the home blocks as the view |
| Log.FsLog.Take | kernel/bio.c:90-101 | the buffer holds the latest contents; it fails exactly when the block is not cached and every buffer is in use |
| Log.FsLog.Drop | kernel/bio.c:114-135 | one reference less, and the agreement of cache, log and disk is kept |
| Log.FsLog.LogWrite | kernel/log.c:213-235 | the header grows by the block if it was not in it, its buffer is then pinned once more, its data becomes the view, and the call fails exactly at the panic of line 219 |
| Log.FsLog.CopyOne | kernel/log.c:183-188 | the log slot gets the block's latest contents out of the cache, never a re-read from disk |
| Log.FsLog.WriteLog | kernel/log.c:177-190 | the disk passes exactly through the prefixes of the log writes, in order |
| Log.FsLog.WriteHead | kernel/log.c:101-113 | one write that makes the header on disk the one in memory |
| Log.FsLog.InstallOne | kernel/log.c:74-80 | the home block gets the logged contents and one pin goes away |
| Log.FsLog.InstallTrans | kernel/log.c:68-82 | the disk passes exactly through the prefixes of the home writes, in order |
| Log.FsLog.Commit | kernel/log.c:192-202 | every disk state on the way is one of a commit of what clients see; it completes if and only if nothing is logged, a buffer is free, or all blocks of the log it needs are cached, and then the home blocks are what clients see and nothing is logged; while nothing is held, if and only if nothing or less than a buffer each is logged; with as many logged blocks as buffers it fails before its first write |
| Log.FsLog.FillAndCommit | kernel/log.c:192-235 | as many different blocks as there are buffers, taken, logged and given back after a boot, make the next commit fail |
| Recovery.ReadHead | kernel/log.c:85-96 | the header in memory is the list of the header block, and the loop stays inside its array |
| Recovery.RecoverOne | kernel/log.c:74-80 | at boot, one block goes home exactly while a buffer is left for it; a block that is listed again is found by its key |
| Recovery.RecoverFromLog | kernel/log.c:115-122 | every disk state on the way is one of the recovery, the last is the recovered disk, and it completes if and only if the header has fewer different blocks than there are buffers |
| Recovery.CrashRecovers | kernel/log.c:115-202 | a crash at any write of a commit and of the recoveries after it leaves a disk on which recovery completes with as many buffers, to the file system before the commit or to the one clients saw |
| Recovery.HeldAtZero | kernel/log.c:68-82 | after recovery, bread returns a buffer with count 0 if and only if the header listed its block once |
| Recovery.TakenWhileHeld | kernel/bio.c:57-87 | such a buffer is taken over for another block while it is held, once the others are in use |
| LogOps.ApplyKeepsInv | kernel/log.c:125-174 | every begin, log write, end and commit step keeps the count of outstanding operations and of reserved blocks |
| LogOps.RunKeepsInv | kernel/log.c:125-174 | so does every interleaving of them |
| LogOps.ReservationSuffices | kernel/log.c:125-235 | for any LOGSIZE, with more log blocks than that no interleaving panics, the header never overflows and lists no block twice, and no operation is inside while one commits |
| LogOps.BeginIff | kernel/log.c:125-143 | in every reachable state begin_op goes through if and only if nobody is committing and the blocks logged so far, with MAXOPBLOCKS for this operation and for every one in progress, fit in LOGSIZE |
| LogOps.BeginsAfterLog | kernel/log.c:125-143 | a state is reachable in which an operation begins after another one has logged |
| LogOps.AllCommitted | kernel/log.c:146-202 | once every operation is over and no commit is under way, nothing is logged that is not committed |
| LogOps.NeverWedged | kernel/log.c:125-174 | from every reachable state the other processes can go on so that one waiting in begin_op gets through, if MAXOPBLOCKS fits in LOGSIZE |
| LogOps.BusyReachable | kernel/log.c:213-235 | three operations can log any number of blocks up to LOGSIZE and below the log size of the disk |
| LogOps.FullHeaderCommits | kernel/log.c:146-174 | with more than LOGSIZE log blocks a commit of a full header is reachable |
| LogOps.NoPanicIff | kernel/log.c:219-220 | with a LOGSIZE of three times MAXOPBLOCKS, no reachable state has panicked if and only if the log has more than LOGSIZE blocks |
| LogRuns.StepKeepsInv | kernel/log.c:68-235 | every step of operations, reads, single disk writes of a commit, crashes, recoveries and boots keeps cache, log, disk and protocol in agreement |
| LogRuns.RunsRecover | kernel/log.c:68-235 | in every state of every run, a completed recovery of the disk gives what clients saw at the last commit point |
| LogRuns.CommitPointsAtRest | kernel/log.c:146-202 | a commit point makes what clients see durable, at a moment when no process is inside an operation |
| LogRuns.CommitPoint | kernel/log.c:101-113 | nothing but the header write of a commit moves the commit point |
| LogRuns.WritesAreInside | kernel/log.c:213-235 | what clients see changes only by log writes inside operations |
| LogRuns.ReadsSeeView | kernel/bio.c:90-101 | a read at any time, also between the writes of a commit, gets the latest contents |
| LogRuns.BootSeesCommitted | kernel/log.c:54-65 | after a boot clients see what they saw at the last commit point |
| LogRuns.Interruptions | kernel/log.c:54-122 | a crash can come in every state, a recovery can stop anywhere or complete, and a machine with an empty log can boot with any cache that agrees with the disk |
| LogRuns.OperationsGoOn | kernel/log.c:125-174 | every step of the protocol can be taken whatever cache and disk hold |
| LogRuns.WriteCommits | kernel/log.c:125-235 | a machine that boots with three buffers can write any block outside the log and reach the commit point, after which the recovered file system is the old one with that block |
| LogRuns.InstallingAfter | kernel/log.c:68-82 | with the header on disk, installing what the log has gives what clients see |
| LogRuns.TakeSteps | kernel/bio.c:90-101 | the read step of runs is what bread does |
| LogRuns.DropSteps | kernel/bio.c:114-135 | the release step is what brelse does |
| LogRuns.LogWriteSteps | kernel/log.c:213-235 | the write step is what log_write does, in protocol and cache |
| LogRuns.LogPutSteps | kernel/log.c:183-187 | the step that copies a block to the log is what write_log does |
| LogRuns.PublishSteps | kernel/log.c:101-113 | the commit point is what write_head does |
| LogRuns.ClearSteps | kernel/log.c:199-200 | the step that empties the log is what write_head does with no block listed |
| LogRuns.InstallPutSteps | kernel/log.c:76-78 | the step that installs a block is what install_trans does |
| Bcache.BootList | kernel/bio.c:35-52 | the pushes of binit make one cycle over all buffers |
| Bcache.MoveLinks | kernel/bio.c:124-131 | unlinking a buffer and pushing it at the head leaves one well-formed cycle in which it comes first and the others keep their order |
| Bcache.MoveByRecency | kernel/bio.c:114-135 | the list stays ordered by the most recent release to zero |
| Bcache.LastInj | kernel/bio.c:114-135 | two buffers that were both released were last released at different times, so the least recently used one is unique |
| Bcache.KeysStayUnique | kernel/bio.c:57-87 | recycling a buffer for a block that is not cached leaves at most one buffer per block |
| Bcache.Cache.constructor | kernel/bio.c:35-52 | the cache starts valid, with all buffers unused |
| Bcache.Cache.Bget | kernel/bio.c:57-87 | a cached block gains a reference; otherwise, of the buffers with count 0, the one released least recently, or one never released, is recycled; it fails exactly when all are in use |
| Bcache.Cache.Bread | kernel/bio.c:90-101 | as bget, and the buffer holds the cached data or the disk's |
| Bcache.Cache.Bwrite | kernel/bio.c:104-110 | exactly one disk write, of the buffer's data to its block |
| Bcache.Cache.Brelse | kernel/bio.c:114-135 | one reference less, and at zero the buffer becomes the most recently used one |
| Bcache.Cache.Bpin | kernel/bio.c:137-142 | one reference more, with 32-bit wrap |
| Bcache.Cache.Bunpin | kernel/bio.c:144-149 | one reference less, with 32-bit wrap |
| BuddyTree.PopStep | kernel/buddy.c:139-142 | popping a free block keeps the tree well formed and makes exactly that block live |
| BuddyTree.SplitStep | kernel/buddy.c:143-150 | splitting a live block keeps the tree well formed and leaves its left half live |
| BuddyTree.MergeStep | kernel/buddy.c:174-190 | a buddy whose bit is clear is on its list; merging with it keeps the tree well formed and makes the parent live |
| BuddyTree.ReleaseStep | kernel/buddy.c:174-193 | with a buddy in use, freeing the block keeps the tree well formed |
| BuddyOps.MallocStep | kernel/buddy.c:122-154 | fails exactly when no free block is big enough and then changes nothing; otherwise one new live block of the right size comes out of the free bytes |
| BuddyOps.MallocTakes | kernel/buddy.c:129-150 | the block comes from the first list, from the requested size up, that is not empty: the start of its first block; the rest becomes one free block of every size below, and no other list changes |
| BuddyOps.SizeOfLive | kernel/buddy.c:157-165 | size recovers the size of every live block and never looks past the last record |
| BuddyOps.FreeStep | kernel/buddy.c:169-194 | exactly the freed block stops being live, its bytes become free, the tree stays well formed and coalesced |
| BuddyOps.MergeUndoesSplit | kernel/buddy.c:143-190 | merging the halves of a split gives back the very state |
| BuddyOps.FreeUndoesMalloc | kernel/buddy.c:96-194 | malloc followed by free of its result restores every alloc bit, split bit and free list in its order |
| BuddyRuns.LeavesDisjoint | kernel/buddy.c:122-194 | live and free blocks are pairwise disjoint |
| BuddyRuns.LeavesTileHeap | kernel/buddy.c:122-194 | every byte of the heap lies in exactly one live or free block |
| BuddyRuns.ExecKeepsInv | kernel/buddy.c:122-194 | every legal call keeps the tree, the owners and the sum of free and live bytes |
| BuddyRuns.InvGivesView | kernel/buddy.c:122-194 | what clients own is aligned, big enough, inside the heap, and disjoint from each other, from the metadata and from all free blocks |
| BuddyRuns.RunsAreSafe | kernel/buddy.c:122-194 | both hold after every run of malloc and free calls |
| BuddyInit.LevelFacts | kernel/buddy.c:196-270 | at every size the left boundary passes the right one by at most one, and the right one is a block of the heap |
| BuddyInit.LevelListIs | kernel/buddy.c:239-270 | each list gets exactly the unpaired blocks next to the two boundaries, and the left one once more when the two are buddies |
| BuddyInit.InitWfIff | kernel/buddy.c:295-353 | initialization establishes the invariant of every later call if and only if at no size the boundaries are the halves of one pair |
| BuddyInit.InitFreeBytes | kernel/buddy.c:257-270 | the bytes counted free over all sizes are the heap minus metadata and unavailable end, plus one block for each size where the boundaries are the halves of one pair |
| BuddyInit.CountIff | kernel/buddy.c:348-352 | the final check passes if and only if there is no such size |
| BuddyInit.ClashIff | kernel/buddy.c:257-270 | with the middle of the heap between metadata and end, which heaps have such a size |
| BuddyInit.InitLive | kernel/buddy.c:273-292 | the live blocks at the start are the leaves of the two marked ranges, and live and free bytes make up the heap |
| BuddyMeta.MetaFitsIff | kernel/buddy.c:295-335 | the metadata fits in a quarter of the heap if and only if there are at least seven sizes |
| BuddyMeta.InitWorksIff | kernel/buddy.c:295-353 | the numbers of bytes for which bd_init stays inside its bit arrays and passes its final check |
| BuddyMeta.FullHeap | kernel/buddy.c:239-270 | when the memory is a power of two, the bit at the right boundary is the first after its array |
| BuddyMeta.InitAt400 | kernel/buddy.c:239-270 | with 400 bytes one block is on its list twice and 128 bytes too many are counted |
| Bits.Set | kernel/buddy.c:46-50 | exactly the one bit is set |
| Bits.Clear | kernel/buddy.c:53-57 | exactly the one bit is cleared |
| List.Arena.constructor | kernel/list.c:12-17 | every list starts empty |
| List.Arena.Empty | kernel/list.c:19-22 | true exactly for a list without elements |
| List.Arena.Unlink | kernel/list.c:24-28 | knowing only its address, the element leaves its list and every list stays a cycle |
| List.Arena.Pop | kernel/list.c:30-37 | returns and removes the first element |
| List.Arena.Push | kernel/list.c:39-47 | an address that is on no list becomes the first element |
| Buddy.Firstk | kernel/buddy.c:96-106 | the smallest size that holds the request |
| Buddy.FirstkEndsIff | kernel/buddy.c:96-106 | with 64-bit wrap the search ends if and only if the request is at most 2^63 |
| Buddy.Log2 | kernel/buddy.c:205-213 | the largest power of two not above the argument |
| Buddy.Allocator.constructor | kernel/buddy.c:295-353 | on every heap where bd_init works, it starts in a state every run may start from, with exactly metadata and the unavailable end live |
| Buddy.Allocator.BdMark | kernel/buddy.c:216-235 | exactly the blocks that overlap the range are marked, in both bit arrays |
| Buddy.Allocator.BdInitfree | kernel/buddy.c:257-270 | the free lists are those of the initial tree, and the result is their bytes |
| Buddy.Allocator.BdMalloc | kernel/buddy.c:122-154 | bit arrays and lists afterwards are those of the tree function, and the address is its block's |
| Buddy.Allocator.SizeOf | kernel/buddy.c:157-165 | the size of the live block at the address |
| Buddy.Allocator.BdFree | kernel/buddy.c:169-194 | bit arrays and lists afterwards are those of the tree function |
| PageTable.EntryParts | kernel/riscv.h:337-341 | frame and flags of an entry are what it was made of |
| PageTable.SlotsDistinct | kernel/riscv.h:343-346 | distinct pages below MAXVA have distinct leaf slots |
| PageTable.GrowTree | kernel/vm.c:85-93 | linking in a cleared page keeps the tree |
| PageTable.GrowLookup | kernel/vm.c:85-93 | and changes no translation |
| PageTable.WriteSlot | kernel/vm.c:163-168 | writing a leaf slot changes the flat map at that page and nowhere else |
| PageTable.TreeKept | kernel/vm.c:78-96 | what happens outside a page table's own pages does not change it |
| Vm.Kernel.constructor | kernel/kalloc.c:26-40 | every frame of RAM is on the free list once |
| Vm.Kernel.Kalloc | kernel/kalloc.c:68-82 | the head of the free list, or 0 exactly when there is none |
| Vm.Kernel.Kfree | kernel/kalloc.c:46-63 | the frame becomes the head of the free list, no other frame changes |
| PathCount.PathsAre | kernel/vm.c:78-96 | how many page-table pages a range lacks is the length of a list of them: on the way to a page of it, not in the tree, each once |
| PathCount.MissingOne | kernel/vm.c:78-96 | for one page 0, 1 or 2, read off the tree |
| PathCount.PavedMore | kernel/vm.c:155-175 | the pages a range lacks are those its first part lacks and those the next page then lacks |
| PathCount.VerdictIs | kernel/vm.c:240-265 | growing succeeds if and only if every new page can be mapped and there are frames for the pages and for the page-table pages they lack; it panics if and only if the frames last until a page that can not be mapped, and for that one |
| PathCount.CopyFails | kernel/vm.c:319-347 | where copying stops for want of frames says that the whole lacks frames, and whether the first page does |
| Vm.Kernel.Walk | kernel/vm.c:78-96 | finds the slot of the page; without alloc nothing changes, with it only the tree may grow and no translation of any page changes; it fails exactly when there are fewer frames than page-table pages lacking, and otherwise takes just those |
| Vm.Kernel.MapPages | kernel/vm.c:155-175 | at least one page; exactly the pages up to where it stops are added: each has a valid entry with the given permissions and the frame as far from the first as the page is; it stops at the end, at a mapped page, at MAXVA, or where the frames do not last for the page-table pages that lack |
| UserMap.RangePages | kernel/vm.c:160-162 | the pages from the first to the last of a range are those that have a byte in it |
| Vm.Kernel.NewPage | kernel/vm.c:252-262 | one frame more is mapped exactly when the page can be mapped and there are frames for it and its way; otherwise which of failure and panic |
| Vm.Kernel.UvmUnmap | kernel/vm.c:180-208 | at least one page; exactly the pages up to where it stops are removed and exactly their frames given back; it stops at the end, at a page that is not a leaf or at MAXVA |
| Vm.Kernel.UvmCreate | kernel/vm.c:211-220 | a page table that translates nothing |
| Vm.Kernel.UvmDealloc | kernel/vm.c:271-282 | the pages between the two sizes are removed and their frames given back; a page is gone if and only if it starts at or above the new size and below the old one, and every other is as it was |
| UserMap.LostPages | kernel/vm.c:277-279 | the pages that shrinking removes are those that start at or above the new size and below the old one |
| Vm.Kernel.UvmAlloc | kernel/vm.c:240-265 | which of success, failure and panic, by the free frames, the mapping and MAXVA; success adds zeroed pages in frames of their own and nothing else: a page is new, valid, readable, writable, executable and zero if it starts at or above the old size and below the new one, and otherwise as it was; after failure every mapping below MAXVA is as it was, there is no other, and every leaf frame is free again |
| UserMap.AddedPages | kernel/vm.c:248-251 | the pages that growing adds are those that start at or above the old size and below the new one |
| Vm.Kernel.UvmCopy | kernel/vm.c:319-347 | succeeds if and only if there are frames for the pages and for the page-table pages the child lacks, and panics if and only if not even the first page can be copied; success gives the child at every page below the size the parent's flags and contents, in a frame that was free; otherwise every mapping of the child is as it was and there is no other; the parent never changes |
| Vm.Kernel.FreeWalk | kernel/vm.c:286-302 | gives back exactly the pages of a subtree without leaves, and does not reach its panic |
| Vm.Kernel.UvmFree | kernel/vm.c:306-311 | every frame of a process, its pages' and its page table's, is free again |
| Vm.Kernel.WalkAddr | kernel/vm.c:100-119 | the frame of the page if it is below MAXVA, valid and a user page, and otherwise 0; nothing changes |
| UserCopy.UsableIff | kernel/vm.c:100-119 | user code reaches a page if and only if it is below MAXVA and its entry is valid and has PTE_U |
| UserCopy.Physical.CopyOut | kernel/vm.c:362-386 | stores the bytes that come before the first address that can not be reached, one after the other; succeeds if and only if all can be |
| UserCopy.Physical.CopyIn | kernel/vm.c:388-412 | returns the bytes before the first address that can not be reached; succeeds if and only if all can be |
| UserCopy.Physical.CopyInStr | kernel/vm.c:414-457 | returns the bytes up to the first NUL with it, or all that can be reached of the first `max` when there is no NUL among them |
| UserCopy.StringIff | kernel/vm.c:414-457 | a string is copied if and only if it and its NUL can be reached and fit |
| UserCopy.StoredOn | kernel/vm.c:376-378 | one memmove stores the bytes that fall into one page |
| UserCopy.StoredReads | kernel/vm.c:362-386 | if no two addresses share a byte, user code then reads the bytes stored at their addresses, and at every other what it read before |
| UserCopy.OutThenIn | kernel/vm.c:362-412 | what is copied out is what is copied in again |
| UserCopy.StoredElsewhere | kernel/vm.c:362-386 | a frame that no address of the range leads to is not touched |
| UserCopy.PagesApart | kernel/vm.c:100-119 | pages in frames of their own share no byte |
| UserMap.InFramesBack | kernel/vm.c:198-201 | the frames given back are exactly those of the pages removed |
| UserMap.HeldMore | kernel/vm.c:251-263 | one more page in a frame of its own leaves the others and all other translations alone |
| UserMap.HeldUndone | kernel/vm.c:271-282 | removing the added pages makes all their frames free again, and only the tree's own pages stay taken |
| UserMap.UndoneIsSame | kernel/vm.c:251-263 | taking away pages that were not mapped before leaves every mapping as it was |
| UserMap.ParentKept | kernel/vm.c:319-347 | whatever happens to the child's table, entries and contents of the parent stay |
| FreeTree.EmptyIsSpare | kernel/vm.c:284-302 | a page table that translates nothing meets the demand of freewalk |
| Umalloc.InsertSorted | user/umalloc.c:24-44 | inserting a freed block with its neighbours joined keeps the ring in address order, apart and coalesced |
| Umalloc.InsertUnits | user/umalloc.c:24-44 | and adds exactly its units |
| Umalloc.InsertApart | user/umalloc.c:24-44 | and overlaps nothing that is in use |
| Umalloc.InsertCovers | user/umalloc.c:24-44 | and makes free exactly its own units besides those that were |
| Umalloc.TakeSorted | user/umalloc.c:74-86 | carving the tail off a block keeps the ring in order and coalesced |
| Umalloc.TakeUnits | user/umalloc.c:74-86 | and takes exactly the requested units |
| Umalloc.TakeCovers | user/umalloc.c:74-86 | the units given out were free, and all others stay free |
| Umalloc.SameUnitsSameList | user/umalloc.c:24-44 | the set of free units determines the list: two ordered and coalesced lists with the same units are equal |
| Umalloc.FreeUndoesGive | user/umalloc.c:24-90 | freeing a block that was just given out restores the very free list |
| Umalloc.SearchCovers | user/umalloc.c:63-90 | after a search the free units and those given out are the units that were free or are new |
| Umalloc.FreedInv | user/umalloc.c:24-44 | free keeps the invariant: order, coalescing, disjointness, and free plus used units equal to all units obtained |
| Umalloc.GivenInv | user/umalloc.c:74-86 | so does giving out a block |
| Umalloc.GrownInv | user/umalloc.c:46-61 | so does new memory at or above everything obtained so far |
| Umalloc.StopsAtPlace | user/umalloc.c:29-33 | the scan of free stops at exactly one position of the ring, the block's place in address order |
| Umalloc.Allocator.constructor | user/umalloc.c:19-22 | the empty allocator |
| Umalloc.Allocator.Free | user/umalloc.c:24-44 | the scan ends, and the links afterwards are those of the ring with the block inserted at its place; the free units are those that were and those of the block |
| Umalloc.Allocator.Morecore | user/umalloc.c:46-61 | the ring with the new memory inserted at its place, and so with room for the request, or no change when sbrk fails |
| Umalloc.Allocator.Malloc | user/umalloc.c:63-90 | ends; with `u` the least number of units that hold a header and the bytes asked for, fails exactly when no free block has `u` units and sbrk fails, and grows, once and by `u` or 4096 units if that is more, exactly when none has and sbrk succeeds; the result is a new block of `u` units, the end of the first block after the last search that is large enough; the free units are those that were or are new, less those given out |
| FileBlocks.AllocStep | kernel/fs.c:65-87 | a block that is not marked belongs to nobody, and taking it changes no file |
| FileBlocks.AttachAddr | kernel/fs.c:384-395 | a new block in an empty direct or indirect slot keeps single ownership and every byte of every file |
| FileBlocks.AttachWord | kernel/fs.c:396-402 | so does a new block in an empty slot of the indirect block |
| FileBlocks.SetWordIs | kernel/fs.c:397-400 | writing one 32-bit word of an indirect block changes that number and no other |
| FileBlocks.WriteStep | kernel/fs.c:497-506 | writing into a file's block changes those bytes of that file, no other byte of any file, and no ownership |
| FileBlocks.WroteIsSplice | kernel/fs.c:486-518 | what was written chunk by chunk is a splice of the file's byte sequence, and all other files are as they were |
| FileBlocks.NoLeakKept | kernel/fs.c:65-104 | if every marked block has an owner, it stays so |
| FileSpace.NoSpare | kernel/fs.c:65-87 | no block is spare exactly if all are marked |
| FileSpace.NeedGained | kernel/fs.c:378-406 | what a range of a file needs goes down by just what one of its blocks needed, the indirect block counted once |
| FileSpace.NoNeedIff | kernel/fs.c:378-406 | nothing is needed if and only if every slot of the range has a block |
| FileSpace.RangeBlocksAre | kernel/fs.c:497-499 | the blocks counted for a write are those that have a byte of it |
| FileBlocks.FreeStep | kernel/fs.c:419-437 | the next block of the file is still marked, so "freeing free block" is not reached, and freeing it frees exactly it |
| FileBlocks.FreedAll | kernel/fs.c:413-441 | with all slots freed, ownership is sound and every other file is as it was |
| Files.FileSystem.FirstClear | kernel/fs.c:73-82 | the first clear bit of a bitmap block |
| Files.FileSystem.Balloc | kernel/fs.c:65-87 | the first unmarked block, now marked and zeroed; fails exactly when every block is marked |
| Files.FileSystem.NewBlock | kernel/fs.c:65-87 | the block was nobody's and is no metadata, and no file changes |
| Files.FileSystem.Bfree | kernel/fs.c:90-104 | exactly the one bit is cleared |
| Files.FileSystem.Bmap | kernel/fs.c:378-406 | the block of the file's block number; a block that is there is returned with no change at all, a new one is owned by this slot only, and no byte of any file changes; it fails exactly when too few blocks are unmarked, and otherwise takes just those it needs |
| Files.FileSystem.Readi | kernel/fs.c:459-480 | returns the exact slice of the file, cut at its end, -1 past the end or on 32-bit overflow, and never allocates |
| Files.FileSystem.Writei | kernel/fs.c:486-518 | splices the file, changes no other file, loses no block; -1 past the end, on overflow or beyond the largest file, with no change; balloc panics if and only if fewer blocks are unmarked than the range needs |
| Files.FileSystem.Itrunc | kernel/fs.c:413-441 | frees exactly the file's blocks, each once, and changes no other file |
| SleepLock.ApplyKeepsInv | kernel/proc.c:551-597 | every step of every process keeps the invariant that whoever waits is owed a wakeup |
| SleepLock.RunKeepsInv | kernel/proc.c:551-597 | so does every interleaving |
| SleepLock.NoLostWakeup | kernel/sleeplock.c:21-41 | in every reachable state with the inner spinlock free and the lock not taken, nobody sleeps on it or is past releasing the spinlock on the way to sleep |
| SleepLock.WaitersAreOwedAWakeup | kernel/proc.c:585-597 | whoever waits has a holder to wait for or a waker still to pass it |
| SleepLock.MutualExclusion | kernel/sleeplock.c:21-41 | at most one process holds a sleep lock, and one does exactly when it is taken |
| SleepLock.HoldsAtExit | kernel/sleeplock.c:21-41 | at the end of acquiresleep the caller holds the lock, at the end of releasesleep it does not |
| SleepLock.AcquireReturnsHolding | kernel/sleeplock.c:21-31 | in every run a process that is back from acquiresleep holds that lock besides those it held, and nobody else holds it |
| SleepLock.ReleaseReturnsWithout | kernel/sleeplock.c:33-41 | and one that is back from releasesleep holds all but that lock |
| SleepLock.HoldingSleepIff | kernel/sleeplock.c:43-52 | holdingsleep is true if and only if the caller holds the lock |
| SleepLock.GetsFreeLock | kernel/sleeplock.c:21-31 | when the lock and its spinlock are free, whoever wants it, woken or not yet asleep, gets it by its own next five steps at most |
| SleepLock.NeverStuck | kernel/proc.c:551-597 | while a process inside a call is not asleep, some process inside a call can take its next step |
| SleepLock.WokenOnlyBy | kernel/proc.c:585-597 | a sleeper is woken if and only if a releaser of its own lock looks at it or it is killed |
| SleepLock.CanWait | kernel/sleeplock.c:21-31 | a state is reachable in which a process sleeps on a lock that another holds |
| Virtio.AtMostTwo | kernel/virtio_disk.c:180-261 | at most two requests are in flight and the rings never fill |
| Virtio.UsedTest | kernel/virtio_disk.c:268-269 | the mod-8 test sees completions exactly when there are some |
| Virtio.PostingTables | kernel/virtio_disk.c:205-248 | a new chain keeps the tables sound |
| Virtio.PostingRings | kernel/virtio_disk.c:236-248 | and the avail ring holds the requests in order, through the wrap of the 16-bit index |
| Virtio.FetchingInv | kernel/virtio_disk.c:236-248 | the device reads the oldest request it has not seen |
| Virtio.ReportingInv | kernel/virtio_disk.c:263-281 | the device may complete any taken request at any time |
| Virtio.HandlingInv | kernel/virtio_disk.c:269-278 | the handler reads the oldest completion not yet handled |
| Virtio.DrainedIs | kernel/virtio_disk.c:263-281 | an interrupt completes every reported request and changes no other |
| Virtio.FreeingInv | kernel/virtio_disk.c:257-260 | freeing a completed chain keeps everything sound |
| VirtioRuns.StepKeepsInv | kernel/virtio_disk.c:180-281 | every step of driver, device and handler keeps the invariant |
| VirtioRuns.RunsAreSafe | kernel/virtio_disk.c:128-281 | in every reachable state the descriptors are partitioned into free ones and linked chains of three, in which the device finds the header, the data and the status byte of the request with their lengths and directions; at most two requests are in flight, the buffers on the disk are those of the requests not yet handled, and no completion is missed |
| VirtioRuns.CanPostIff | kernel/virtio_disk.c:180-248 | in every reachable state a request for a buffer that has none can be posted if and only if fewer than two are in flight |
| VirtioRuns.RequestCompletes | kernel/virtio_disk.c:180-281 | from every reachable state each request can be completed and its descriptors given back |
| Virtio.Disk.constructor | kernel/virtio_disk.c:109-121 | all descriptors free, rings empty |
| Virtio.Disk.AllocDesc | kernel/virtio_disk.c:128-138 | a free descriptor, or failure exactly when there is none |
| Virtio.Disk.FreeDesc | kernel/virtio_disk.c:141-151 | exactly the one descriptor becomes free |
| Virtio.Disk.Alloc3 | kernel/virtio_disk.c:166-178 | three distinct free descriptors exactly when there are three, otherwise no change |
| Virtio.Disk.FreeChain | kernel/virtio_disk.c:154-164 | ends, frees exactly the three, and meets neither panic |
| Virtio.Disk.Submit | kernel/virtio_disk.c:180-248 | posts a request exactly when fewer than two are in flight; from its first descriptor the device finds the header, the data, writable exactly for a read, and the status byte, each at its address; the next avail slot holds that descriptor and the buffer is on the disk |
| Virtio.Disk.DeviceFetch | kernel/virtio_disk.c:236-251 | what the device takes from the avail ring is the oldest request posted |
| Virtio.Disk.DeviceReport | kernel/virtio_disk.c:263-281 | the device may report any request it has taken, in any order, with a status of its own |
| Virtio.Disk.Intr | kernel/virtio_disk.c:263-281 | drains the used ring; panics exactly when a completion carries an error |
| Virtio.Disk.Finish | kernel/virtio_disk.c:256-260 | gives the three descriptors of a completed request back |
| Pipe.CountersFaithful | kernel/pipe.c:82-96 | the wrapping 32-bit counters tell full and empty rings apart and index the ring as unbounded ones would |
| Pipe.Pipe.constructor | kernel/pipe.c:22-56 | an empty pipe, open at both ends |
| Pipe.Pipe.Write | kernel/pipe.c:76-100 | the bytes stored are exactly the next ones of the source; the bytes read stay a prefix of them, at most a ring behind; sleeps, fails and returns exactly when the source does, and what it returns is the length asked for; readers are left asleep beside data if and only if they slept, there are more bytes than the ring holds and the writer may not wait |
| Pipe.Pipe.Read | kernel/pipe.c:102-127 | returns the next stored bytes in order, as many as asked for and there, and their number; sleeps, fails and returns exactly when the source does; leaves no writer asleep beside room, and no reader beside data |
| Pipe.Pipe.Close | kernel/pipe.c:58-74 | closes one end and wakes the other, and the pipe is gone exactly when both are closed |
| Pipe.ReaderLeftAsleep | kernel/pipe.c:82-91 | a killed writer that fills the ring leaves a waiting reader asleep |
| Grep.Match | user/grep.c:70-80 | true if and only if some substring of the text, anchored as ^ and $ demand, is in the language of the pattern |
| Grep.MatchHere | user/grep.c:82-94 | true if and only if a prefix of the text, the whole text under $, is in the language of the pattern |
| Grep.MatchStar | user/grep.c:96-104 | true if and only if the text is a run of the character followed by a match of the rest |
| Grep.ConsUnfolds | user/grep.c:82-94 | matching an item and the rest is splitting the text between them |
| Grep.OneUnfolds | user/grep.c:82-94 | a single character takes exactly one character of the text |
| Grep.StarWord | user/grep.c:96-104 | past a character that is not accepted no longer run can match |
| Grep.ParseShow | user/grep.c:82-94 | written out again, the items of a pattern are the pattern |
| Grep.WordThen | user/grep.c:82-94 | a word of plain characters in a pattern asks for that word and then for the rest |
| Grep.RunThen | user/grep.c:96-104 | a character and a star ask for a run of that character, or of any for a dot, and then for the rest |
| Grep.WordIsFound | user/grep.c:70-94 | a plain word matches if and only if it occurs in the text; after ^, if the text begins with it; before $, if it ends with it; between both, if it is it |

## Left out

- Assembly, traps, device set-up, the console, printf, exec, path lookup and directories, link counts, exit and wait, mkfs and the other user programs.
- Spinlocks are atomic steps; memory ordering and interrupt masking are not modelled.
- Liveness: what is proved is that a wakeup is never lost, that somebody can always go on, and that who waits can be served, not that the scheduler eventually runs a process.
- Log: in `Log.FsLog` a call runs alone; in `LogRuns` steps of all processes interleave, with a change of a held buffer and its log_write as one step. Locks on single buffers are not part of this model.
- LogRuns: runs with at most LOGSIZE log blocks on disk, where log_write can panic, and runs that go on after a recovery that installed blocks.
- Log.FsLog.Take: asks that no buffer is held close to 2^32 times, so that its 32-bit count does not wrap, and not for block 0 of device 0, the boot block, whose key all buffers have at boot.
- Log.FsLog.Commit: asks the same of the counts.
- Recovery.RecoverFromLog: asks for a header of at most LOGSIZE blocks, since read_head writes past its array otherwise, with its blocks on the disk and outside the log, without that boot block, and without one block 2^32 times.
- Files.FileSystem.constructor: starts from empty files and stands for no code of the kernel.
- Buddy: addresses are offsets from the aligned base and not cut to 32 bits, which needs a heap below 2^31 bytes.
- Buddy.Allocator.constructor: asks for a heap where `bd_init` works; with one block on a list twice the list is not modelled, only the count that then panics, and neither is what lies after a bit array.
- Umalloc.Allocator.Free: asks for a block that malloc gave out and that is still in use, as the C library does.
- Buddy.Allocator.BdFree: asks for a block that bd_malloc gave out and that is still in use.
- Umalloc: addresses count header units; `sbrk` answers at or above everything obtained so far, or fails; the 32-bit cast of its argument is not modelled.
- Vm: the kernel's own page table, `uvminit` and `uvmclear`; memory is words, so a page that is freed or taken holds the fill pattern as words.
- UserCopy: frames hold bytes there, and a page table is the flat map that `Vm` proves it to be.
- Vm.Kernel.UvmCopy: asks for a size of at most MAXVA, a parent whose pages are all mapped leaves and a child that has none of them; the source panics when it reaches another page, unless memory runs out first.
- Vm.Kernel.UvmFree: asks for a size above 0, since the source panics otherwise.
- Files: inodes are the in-memory copies, which `iupdate` writes through; disk blocks are what the buffer cache shows; failed copies to or from user memory are not modelled.
- Virtio: what the header and the data hold, and a second disk, are not modelled.
- Grep: the loop that reads lines is not modelled.
