# A verified model of the kanaos kernel

kanaos is a 32-bit single-core teaching kernel. This project models the parts of it that carry the
hard invariants, and proves them for all inputs, all runs and all interleavings:

- **Disk blocks and files.** The write-back buffer cache (`BufferCache.dfy`) agrees, under eviction
  and reference counting, with a plain map from block to bytes, and what has reached the device is
  stated call by call. On top of it, `FileTrees.dfy` and
  `FileSystem.dfy` show that nine slots, one single and one double indirection behave as one flat
  byte sequence for each file: `inode_read`, `inode_write`, `bmap` with creation, and
  `inode_truncate`, which frees exactly the zones of the file's tree. `Files.dfy` adds offsets and
  access modes.
- **Threads, semaphores and locks** (`Threads.dfy`, `Locks.dfy`). A transition system whose steps are
  what runs between two points where a thread can lose the processor. Scheduling never fails to find
  a thread, the timer makes threads take turns, locks exclude and count every acquire and release of
  a run, and a semaphore is handed over first come, first served.
- **The disk elevator** (`Elevator.dfy`). The queue stays sorted and stable, is served over every run
  in one sweep each way, and hands the device over without losing a wake-up.
- **Memory** (`PageTables.dfy`, `Pages.dfy`, `Heap.dfy`, `KernelHeap.dfy`). Page tables that map
  themselves, allocation and release of kernel pages, and `sys_malloc`/`sys_free` with arenas, up to
  the statement that giving everything back restores both bitmaps.
- **Fork** (`Fork.dfy`). The byte and bit loops copy exactly the parent's pages, faithfully and onto
  frames of the child's own.
- **References** (`Refs.dfy`, `Paths.dfy`, `Names.dfy`). Every count of an in-core inode or an open
  file equals the number of its holders, over `iget`/`iput`, path lookup, `open`, `close`, `chdir`,
  `chroot`, `fork` and thread creation; path lookup terminates and succeeds exactly when the path leads
  somewhere, component by component.
- **Bitmaps and lists** (`Bitmap.dfy`, `Lists.dfy`). First-fit scanning through both of its loops, and
  the intrusive doubly linked list on the heap.

## How it is built

Code that works by changing things step by step is a class whose fields are the source's, with
methods that follow its branches and loops. Most classes have a function `Now()` that gives their
state as a value; a method's contract ties the new value to the old one, and lemmas about values say
what each step keeps. Where a contract says `Now() == Next(old(Now()), e)`, the meaning of `Next` is
what the lemmas about it state: `NextKeeps` and `RunKeeps` are the invariants, and the lemmas below
them say what the invariants mean, what single steps do, and what whole runs amount to, counted on
their events. A C assertion is an `assert` in the method, or a precondition where the
caller has to see to it. `ok == false` stands for an assertion that spins or a panic.

Words are unbounded integers with explicit ranges; masks and shifts by powers of two are written as
division and remainder; directory and page-table entries keep their flag bits.

## What the proofs found

- `balloc` does not clear a zone, and `bmap` reads a new index zone straight away. The trees stay
  disjoint exactly when the zone has no non-zero entry (`FileTrees.PlantedIndexKeepsForestIff`). The
  file system's methods take the condition "free zones are zero-filled" (`CleanFree`), which writing
  keeps and truncation breaks exactly when the truncated blocks were not all zero
  (`FileSystems.TruncatedCleanIff`, with an example in `FileSystems.TruncationCanSoil`).
- Reading a hole trips `assert(nr)`. Writing leaves a hole exactly when it starts beyond the block
  after the file's last one (`FileTrees.WriteStaysDenseIff`); `InodeRead` trips exactly on a hole.
- `bitmap_scan` for two or more bits looks one bit past the end of the map. When that matters is
  `Bitmaps.ScanIsFirstFitIff`; a set bit after the map makes every scan exact. Kernel pages are modelled
  with that bit set.
- `bitmap_test` subtracts the map's offset, `bitmap_scan` and `bitmap_set` do not, although `balloc` and
  `bfree` pass a non-zero one. `ZoneMaps.ZoneMap` follows the code, and `ZoneMaps.AllocThenFreeIff` says
  when a zone just allocated can be freed; the file system uses the allocator in the sense its callers
  rely on.
- `sys_lseek` asserts that an unsigned sum is not negative, which never fails, so `SEEK_END` can leave a
  negative offset.
- The thread that `sema_up` unblocks is dispatched at once with interrupts off, so the `while` loop of
  `sema_down` is never taken twice (`LockStates.NoBarging`, `LockRuns.HandOver`).

## Model

| member | source | states |
|---|---|---|
| CacheStates.FreshInv | src/kernel/buffer.c:220-235 | an empty cache satisfies the whole invariant, shows users exactly the device, and holds nothing |
| CacheStates.AcquireThenRelease | src/kernel/buffer.c:132-218 | giving back the reference just taken restores every reference count |
| CacheStates.RereferencedObtains | src/kernel/buffer.c:33-61 | taking a cached buffer again keeps the invariant and the disk users see, and adds one reference to that block only |
| CacheStates.AssignedObtains | src/kernel/buffer.c:132-150 | hashing an unused buffer for a new block keeps one buffer a block, each in the bucket of its hash, and the disk users see |
| CacheStates.CarvedIsLoose | src/kernel/buffer.c:82-103 | a buffer carved from the area disturbs no cached block and no reference |
| CacheStates.RecycledIsLoose | src/kernel/buffer.c:106-129 | evicting a free buffer loses no change: the disk users see is the same |
| CacheStates.RecycledIsOldest | src/kernel/buffer.c:106-129 | the buffer at the back of the free list was released no later than any other free one |
| CacheStates.FilledKeeps | src/kernel/buffer.c:153-172 | loading a block from the device keeps the invariant and what users see |
| CacheStates.WrittenKeeps | src/kernel/buffer.c:175-185 | writing a dirty buffer back changes the device but not what users see |
| CacheStates.UnreferencedDrops | src/kernel/buffer.c:188-218 | giving up a reference drops exactly one count; at zero the clean buffer joins the front of the free list, in order of release |
| CacheStates.ModifiedKeeps | src/kernel/buffer.c:188-218 | a holder's change in place with dirty set changes one block of the disk users see, and keeps the invariant |
| CacheStates.CleanIsStored | src/kernel/buffer.c:175-218 | a block that is not waiting to be written is on the device as users see it |
| BufferCache.AreaDisjoint | src/kernel/buffer.c:82-103 | the headers that grow upwards and the data blocks that grow downwards stay apart, for all buffers that fit |
| BufferCache.DirtyIsHeld | src/kernel/buffer.c:188-218 | only blocks that somebody holds can be waiting to be written |
| BufferCache.QuiescentDiskIsView | src/kernel/buffer.c:175-218 | with no reference outstanding the device itself holds the last contents written, block by block |
| BufferCache.Cache.constructor | src/kernel/buffer.c:220-235 | the cache starts valid and shows the device |
| BufferCache.Cache.GetFromHashTable | src/kernel/buffer.c:33-61 | finds the one buffer of a block if there is one, and takes it off the free list |
| BufferCache.Cache.GetNewBuffer | src/kernel/buffer.c:82-103 | succeeds exactly while fewer than 3855 buffers were carved |
| BufferCache.Cache.GetFreeBuffer | src/kernel/buffer.c:106-129 | yields an unhashed unused buffer without changing what users see or hold; when the area is used up it is one released longest ago |
| BufferCache.Cache.HeldBuffer | src/kernel/buffer.c:132-172 | a held buffer keeps its block, and its bytes are the disk users see, whatever other calls do |
| BufferCache.Cache.Getblk | src/kernel/buffer.c:132-150 | gives the one buffer of a block with one more reference, changes no byte users see, and evicts no block while the area lasts and then one only |
| BufferCache.Cache.Bread | src/kernel/buffer.c:153-172 | gives a loaded buffer whose bytes are the block map's, with exactly one more reference; the device is not written; a cached block stays where it is, and a new one pushes out none while the area lasts and then one only |
| BufferCache.Cache.Bwrite | src/kernel/buffer.c:175-185 | the device gets this block's current bytes and no other block changes; the block is no longer waiting to be written; nothing changes for users |
| BufferCache.Cache.Brelse | src/kernel/buffer.c:188-218 | exactly one reference less; a dirty buffer is first written to the device and clean, also while others still hold it; no other block of the device and no byte users see changes |
| BufferCache.Cache.Modify | src/fs/bmap.c:184-189 | a holder's change with dirty set changes one block of the block map and nothing on the device; that block waits to be written |
| BufferCache.Cache.AddReference | src/fs/bmap.c:151 | inode->buf->count += 1: one more reference to a buffer in use, and it stays off the free list |
| FileTrees.EntryOfWithEntry | src/fs/bmap.c:184-189 | setting one 16-bit entry of an index block leaves the other 511 alone |
| FileTrees.PlantedAt | src/fs/bmap.c:136-206 | a zone entered at an empty place changes what stands at that place only, in every file's tree |
| FileTrees.PlantedForest | src/fs/bmap.c:136-206 | entering a fresh zero-filled zone keeps zones and places in one-to-one correspondence: no zone is shared |
| FileTrees.PlantedIndexKeepsForestIff | src/fs/bmap.c:184-204 | a new index zone keeps the trees disjoint exactly when it begins with no non-zero entry; balloc does not see to that |
| FileTrees.DistinctBlocksDistinctZones | src/fs/bmap.c:136-206 | different file blocks, of the same or of different files, map to different non-zero zones |
| FileTrees.PlantedBytes | src/fs/bmap.c:184-189 | creating a mapping changes no byte of any file |
| FileTrees.PokedForest | src/fs/inode.c:217-256 | writing into a data zone moves no zone |
| FileTrees.PokedPatches | src/fs/inode.c:217-256 | copying a chunk into one block patches that range of one file and no byte of any other |
| FileTrees.PatchedContents | src/fs/inode.c:206-266 | for a file with nothing beyond its end, a patch of its zones is the data laid over the old contents, zeros in the gap |
| FileTrees.PatchedOther | src/fs/inode.c:206-266 | the contents of every other file stay |
| FileTrees.WrittenIsRead | src/fs/inode.c:151-266 | the range written reads back as the data written |
| FileTrees.WriteStaysDenseIff | src/fs/inode.c:168-170 | a write leaves a hole, on which reading trips an assertion, exactly when it begins beyond the block after the last one in use |
| FileTrees.BlockSlice | src/fs/inode.c:166-196 | a slice of a data zone is the matching slice of the file |
| FileTrees.BranchIsChild | src/fs/inode.c:268-288 | the places below an index zone fall apart into the 512 branches its loop visits |
| FileTrees.ClearedForest | src/fs/inode.c:291-317 | clearing a slot takes away exactly the tree below it and keeps the rest disjoint |
| FileTrees.OwnedIsReached | src/fs/inode.c:268-288 | the zones a file owns are exactly those its tree reaches |
| FileSystems.StartOfPath | src/fs/bmap.c:136-180 | where bmap's walk starts for each of the three kinds of block, and with which divider |
| FileSystems.PathStep | src/fs/bmap.c:198-204 | every turn divides by a non-zero divider and goes to the child of the entry just read |
| FileSystems.WroteThenWrote | src/fs/inode.c:217-256 | two adjacent writes are one write of the joined data |
| FileSystems.TurnWrites | src/fs/inode.c:217-256 | bmap with create, the copy and the new size together write one chunk |
| FileSystems.TruncatedCleanIff | src/fs/inode.c:268-317 | free zones are zero-filled after truncation exactly when every block of the truncated tree was all zero: bfree leaves the bytes behind |
| FileSystems.TruncationCanSoil | src/fs/inode.c:268-317 | the smallest volume on which truncation leaves a free zone with bytes in it |
| FileSystems.FileSystem.Balloc | src/fs/bmap.c:11-41 | the allocator as bmap relies on it: a zone not in use, the lowest, and only that one is marked; it fails exactly on a full volume |
| FileSystems.FileSystem.Bfree | src/fs/bmap.c:44-75 | asks for the zone's bit to be set, and clears it only |
| FileSystems.FileSystem.EnterZone | src/fs/bmap.c:184-189 | fills an empty entry of the inode or an index block with a fresh zone, marks that buffer dirty and no other, and keeps all trees disjoint |
| FileSystems.FileSystem.VisitEntry | src/fs/bmap.c:182-198 | one turn of the walk gives the buffer back with its count as found and its changes on the device |
| FileSystems.FileSystem.Bmap | src/fs/bmap.c:136-206 | the zone of a block below TOTAL_BLOCK; with create it is non-zero, no other mapping of any file changes, no byte changes, every buffer count is as before, every index block changed has reached the device, and only a full volume makes it fail |
| FileSystems.FileSystem.ReadBlock | src/fs/inode.c:166-196 | succeeds exactly when the block is mapped, and then gives that slice of the file |
| FileSystems.FileSystem.InodeRead | src/fs/inode.c:151-203 | EOF exactly at or past the end; otherwise the bytes up to the request or the end; it trips its assertion exactly on a hole; nothing changes |
| FileSystems.FileSystem.StoreZone | src/fs/inode.c:223-255 | changes one range of one block, through the cache |
| FileSystems.FileSystem.GrowTo | src/fs/inode.c:242-246 | the size only grows, of one file only, and then the inode's buffer is dirty |
| FileSystems.FileSystem.MarkDirty | src/fs/inode.c:245 | setting dirty on the inode's buffer changes no byte; the block now waits to be written |
| FileSystems.FileSystem.WriteBack | src/fs/inode.c:263 | bwrite of the inode's buffer: its block no longer waits to be written, and nothing else changes |
| FileSystems.FileSystem.WriteBlock | src/fs/inode.c:217-256 | one turn of the loop writes one chunk of the file |
| FileSystems.FileSystem.InodeWrite | src/fs/inode.c:206-266 | all data is written at the offset, the file grows if it must, no other file changes; on return nothing the write changed is waiting for the device, the inode's block included; only a full volume makes it fail |
| FileSystems.FileSystem.InodeBfree | src/fs/inode.c:268-288 | frees exactly the zones of one tree, each once: every bfree finds its bit set |
| FileSystems.FileSystem.ClearSlot | src/fs/inode.c:299-311 | one slot ends 0 and exactly its tree is freed |
| FileSystems.FileSystem.InodeTruncate | src/fs/inode.c:291-317 | the zones in use become the old ones minus the file's tree; slots and size end 0; other files keep every byte; the inode's block has reached the device |
| Files.WroteFiles | src/fs/inode.c:206-266 | on the flat view of the volume a write replaces one file's contents by the data laid over them |
| Files.WroteStaysPackedIff | src/fs/inode.c:168-170 | a volume without holes stays so exactly when the write joins the file |
| Files.TruncatedFiles | src/fs/inode.c:291-317 | truncation empties one file of the flat view, with no hole and no byte left behind |
| Files.OpenFile.Read | src/fs/file.c:96-121 | EOF and no move for write-only or at the end; otherwise the slice at the offset, which moves by its length; never trips on a volume without holes |
| Files.OpenFile.Write | src/fs/file.c:123-149 | EOF and no change for read-only; otherwise the flat file changes at the offset, which moves on, and holes appear exactly for a write beyond the end's block |
| Files.OpenFile.Lseek | src/fs/file.c:150-179 | the new 32-bit offset; only SEEK_END, whose assertion is on an unsigned sum, can leave it negative |
| Bitmaps.BitOfWithBit | src/lib/bitmap.c:111-128 | setting or clearing bit k of a byte changes bit k only |
| Bitmaps.BytesWithBit | src/lib/bitmap.c:111-128 | bitmap_set changes one bit of the whole map |
| Bitmaps.RunEndingAt | src/lib/bitmap.c:80-108 | a run of count clear bits ends here exactly when the counter reaches count |
| Bitmaps.ScanIsFirstFitIff | src/lib/bitmap.c:80-108 | the scan sees one bit too many: its answer is the map's first fit exactly when there is a fit or the run across the end is not clear |
| Bitmaps.SentinelMakesScanExact | src/lib/bitmap.c:80-108 | with a set bit after the map every answer is the first fit |
| Bitmaps.FirstFitIsUnique | src/lib/bitmap.c:41-109 | there is one first fit |
| Bitmaps.Bitmap.Test | src/lib/bitmap.c:17-34 | reads the bit counted from the offset |
| Bitmaps.Bitmap.Set | src/lib/bitmap.c:111-128 | writes the bit counted from 0, and no other |
| Bitmaps.Bitmap.FirstClear | src/lib/bitmap.c:41-72 | the first loop finds the least clear bit |
| Bitmaps.Bitmap.Scan | src/lib/bitmap.c:41-109 | the least start of count clear bits among the map and the bit after it, or -1 exactly when there is none |
| ZoneMaps.ZoneMap.Balloc | src/fs/bmap.c:11-41 | as coded: the number returned is the index of the first clear bit, whatever the offset |
| ZoneMaps.ZoneMap.Bfree | src/fs/bmap.c:44-75 | as coded: tests the bit at idx - offset and clears the one at idx |
| ZoneMaps.AllocThenFreeIff | src/fs/bmap.c:11-75 | freeing what was just allocated passes the assertion exactly for zone numbers not below the offset, and then restores the map |
| Lists.List.constructor | src/lib/list.c:6-12 | an empty chain between two sentinels |
| Lists.List.InsertBefore | src/lib/list.c:15-31 | the node stands right before the given one; the order of all others stays and the links stay a proper chain |
| Lists.List.Push | src/lib/list.c:34-37 | the node comes first |
| Lists.List.Append | src/lib/list.c:45-48 | the node comes last |
| Lists.List.Remove | src/lib/list.c:56-64 | exactly that node is gone, with both its links NULL; the two assertions hold for every node of a list |
| Lists.List.Pop | src/lib/list.c:67-72 | takes the first node |
| Lists.List.PopBack | src/lib/list.c:82-90 | takes the last node |
| Lists.List.Find | src/lib/list.c:108-120 | true exactly for nodes of the list |
| Lists.List.Len | src/lib/list.c:147-157 | the number of nodes |
| Lists.List.Empty | src/lib/list.c:160-163 | true exactly for the list without nodes |
| Lists.List.InsertSort | src/lib/list.c:179-198 | the node goes before the first larger key, hence after its equals; a sorted list stays sorted |
| Processors.UnblockedKeeps | src/kernel/thread.c:186-201 | a sleeping thread is in no list, so unblocking it keeps every thread in at most one place |
| Processors.StartedKeeps | src/kernel/thread.c:98-114 | a new thread is ready, once in the list |
| Processors.DispatchedKeeps | src/kernel/thread.c:135-161 | schedule() always finds a thread, idle being blocked whenever the list is empty; one thread runs and it is in no list; all other sleepers sleep on |
| Processors.DispatchedReady | src/kernel/thread.c:135-161 | the next thread leaves the front of the ready list and a preempted one goes to its end, behind all the others |
| Processors.DispatchedTurns | src/kernel/thread.c:135-161 | so one schedule() of running threads passes the turn on by one |
| Processors.SleeperLeaves | src/kernel/thread.c:173-183 | a thread that goes to sleep is off the processor and off the ready list; the first ready thread runs, or idle |
| LockStates.AcquireKeeps | src/kernel/lock.c:63-77 | reentry is recognised exactly when the thread is inside, and the lock's invariant is kept |
| LockStates.NoBarging | src/kernel/lock.c:21-42 | whoever finds the value free was handed it or nobody waits; a woken thread finds it free |
| LockStates.DownKeeps | src/kernel/lock.c:21-42 | queueing up or taking the value keeps the invariant of every lock and of the processor |
| LockStates.EnterKeeps | src/kernel/lock.c:63-77 | holder_repeat_nr is 0 when a new holder sets it, as the source asserts |
| LockStates.ReleaseKeeps | src/kernel/lock.c:80-93 | a thread with an outstanding acquire is the holder, and holder_repeat_nr is its number of acquires |
| LockStates.ClearKeeps | src/kernel/lock.c:80-93 | the last release finds holder_repeat_nr at 1 |
| LockStates.UpKeepsLocks | src/kernel/lock.c:45-60 | sema_up finds the value 0, and keeps the invariant of every lock |
| LockStates.HeadRunsNext | src/kernel/lock.c:45-60 | the head waiter is asleep, not idle, and the next thread schedule() picks |
| LockStates.UpKeeps | src/kernel/lock.c:45-60 | sema_up keeps the invariant of processor, threads and locks |
| LockStates.NextKeeps | src/kernel/lock.c:21-93 | every step of every thread, and every timer, wake-up and start, keeps the invariant |
| LockRuns.BootedInv | src/kernel/thread.c:163-170 | the state after thread_init satisfies the invariant |
| LockRuns.RunKeeps | src/kernel/lock.c:21-93 | so does every state that any interleaving reaches |
| LockRuns.EveryThreadInOneList | src/kernel/thread.c:135-201 | one thread is RUNNING; READY means in the ready list; a semaphore's waiter is BLOCKED and in that one list only |
| LockRuns.MutualExclusion | src/kernel/lock.c:63-93 | at most one thread is inside a lock; the lock names it and counts its outstanding acquires |
| LockRuns.HolderIsInside | src/kernel/lock.c:63-77 | in ordinary code a thread is named as holder exactly when it has acquires outstanding |
| LockRuns.HandOver | src/kernel/lock.c:21-60 | after sema_up with waiters nothing can happen before the head waiter takes the value; it does not block again |
| LockRuns.FirstComeFirstServed | src/kernel/lock.c:21-60 | threads get the semaphore in the order in which they queued for it |
| LockRuns.QueuesGrowOverRuns | src/kernel/lock.c:21-60 | over any run no place in that order is lost or changed |
| LockRuns.TicksTakeTurns | src/kernel/clock.c:36-50 | under the timer alone threads take turns: n ticks rotate the processor's queue by n and touch no lock |
| LockRuns.EveryReadyThreadRuns | src/kernel/clock.c:36-50 | each of n ready threads runs within n ticks, the one at position k after k + 1 |
| LockRuns.TicksCanFollow | src/kernel/clock.c:36-50 | with interrupts on any number of ticks can follow, so those runs exist |
| LockRuns.BlockGivesWay | src/kernel/thread.c:173-183 | after thread_block the caller sleeps in no list and the first ready thread, or idle, runs |
| LockRuns.WokenGoesFirst | src/kernel/thread.c:186-201 | a thread just unblocked is the next to run, whether the running one is preempted or blocks |
| LockRuns.NewcomerRunsLast | src/kernel/thread.c:98-114 | a new thread runs after all those that were ready before it |
| LockRuns.UpGivesWay | src/kernel/lock.c:45-60 | sema_up gives the processor to the head waiter, or else to the next ready thread, and the caller goes to the end |
| LockRuns.ReacquireCounts | src/kernel/lock.c:73-76 | a holder that acquires again has holder_repeat_nr and its outstanding acquires one higher, and goes on at once |
| LockRuns.ReleaseCounts | src/kernel/lock.c:80-93 | a release lowers the outstanding acquires by one, and holder_repeat_nr too unless it is the last one; the last one clears the holder, and holder_repeat_nr is 0 one stage later |
| LockRuns.StepCounts | src/kernel/lock.c:63-93 | no step but a completed acquire or a release changes a thread's outstanding acquires |
| LockRuns.RunCounts | src/kernel/lock.c:63-93 | over any run the outstanding acquires change by the acquires completed less the releases among its events |
| LockRuns.RepeatCountsAcquires | src/kernel/lock.c:63-93 | from the start of the kernel: a thread in ordinary code is the holder exactly when it acquired more often than it released, and holder_repeat_nr is the difference |
| Kernels.Kernel.Schedule | src/kernel/thread.c:135-161 | does what the transition system calls dispatching; its two assertions hold |
| Kernels.Kernel.ThreadBlock | src/kernel/thread.c:173-183 | puts the running thread to sleep and dispatches |
| Kernels.Kernel.ThreadUnblock | src/kernel/thread.c:186-201 | moves a sleeping thread to the front of the ready list |
| Kernels.Kernel.Tick | src/kernel/clock.c:29-50 | a timer interrupt at any point with interrupts on is a step of the system |
| Kernels.Kernel.Block | src/kernel/thread.c:173-183 | blocking on something other than a semaphore is a step of the system |
| Kernels.Kernel.Wake | src/kernel/thread.c:186-201 | unblocking a thread that waits for no semaphore is a step of the system |
| Kernels.Kernel.Start | src/kernel/thread.c:98-114 | starting a thread is a step of the system |
| Kernels.Kernel.LockAcquire | src/kernel/lock.c:63-77 | the first stage of lock_acquire is a step of the system |
| Kernels.Kernel.SemaDown | src/kernel/lock.c:21-42 | one pass of the loop is a step of the system; the value is 0 after taking it and the thread was in no wait list |
| Kernels.Kernel.SetHolder | src/kernel/lock.c:63-77 | naming the holder, after a point where the thread can be preempted, is a step of the system |
| Kernels.Kernel.SetRepeat | src/kernel/lock.c:63-77 | the end of lock_acquire is a step of the system, and its assertion holds |
| Kernels.Kernel.LockRelease | src/kernel/lock.c:80-93 | the first stage of lock_release is a step of the system, and its assertions hold |
| Kernels.Kernel.ClearRepeat | src/kernel/lock.c:80-93 | clearing the count is a step of the system |
| Kernels.Kernel.SemaUp | src/kernel/lock.c:45-60 | sema_up is a step of the system; the value goes from 0 to 1 |
| Requests.InsertedIsSorted | src/kernel/device.c:201 | the queue stays sorted by sector, and requests for one sector stand in order of arrival |
| Requests.NextPos | src/kernel/device.c:143-172 | NULL exactly when the served request is alone; otherwise another request of the queue |
| Requests.SweepOrder | src/kernel/device.c:143-172 | with no arrivals the queue is served in one sweep in the current direction and one in the other |
| Requests.WorkedOffIsQueue | src/kernel/device.c:143-172 | every request once, in as many steps as there are requests |
| Requests.SweepsAt | src/kernel/device.c:143-172 | the two sweeps by position: on to the end of the queue, then back from where they began |
| Elevators.ArrivedKeeps | src/kernel/device.c:196-207 | arriving at an empty or a busy device keeps the hand-over invariant |
| Elevators.FinishedKeeps | src/kernel/device.c:209-212 | choosing the next request and leaving the list keeps it, in any state of the other threads |
| Elevators.FreedKeeps | src/kernel/device.c:213-218 | so does unblocking the chosen thread after free(req), whoever arrived meanwhile |
| Elevators.RunKeeps | src/kernel/device.c:175-219 | every run of arrivals, services and hand-overs of any number of threads keeps it |
| Elevators.NoWakeUpIsLost | src/kernel/device.c:196-218 | at most one request is served or designated, there is one exactly when the list is non-empty, and all others are blocked with a non-NULL task |
| Elevators.SomebodyMoves | src/kernel/device.c:196-218 | a non-empty list is never stuck: a thread that has begun can take its next step |
| Elevators.FinishedRemaining | src/kernel/device.c:209-212 | finishing a request takes the first one off the two sweeps that remain, in the direction the device then has |
| Elevators.RunServesInOrder | src/kernel/device.c:175-219 | over any run without arrivals the requests finished, followed by those remaining, are those that remained at first, in that order |
| Elevators.ServedInSweeps | src/kernel/device.c:143-219 | however the threads interleave, without arrivals requests are finished in the order of one sweep in the current direction and one in the other, each once by the time the list is empty |
| Elevators.Elevator.InsertSort | src/lib/list.c:179-198 | the loop finds the one place that keeps the queue sorted |
| Elevators.Elevator.Resume | src/kernel/device.c:206-209 | an unblocked thread enters do_request, as a step of the system |
| Elevators.Elevator.NextReq | src/kernel/device.c:143-172 | turns round exactly at the end of the list in its direction and gives the neighbour in the direction it then has, or NULL |
| Elevators.Elevator.Arrive | src/kernel/device.c:175-207 | the part of device_request before do_request is a step of the system |
| Elevators.Elevator.TakeOut | src/kernel/device.c:209-212 | request_nextreq while the served request is still linked, then list_remove: the step of which FinishedRemaining says that it designates the next of the two sweeps |
| Elevators.Elevator.Finish | src/kernel/device.c:208-212 | the part from the end of do_request to free(req) is a step of the system |
| Elevators.Elevator.AfterFree | src/kernel/device.c:213-218 | the thread unblocked is asleep and is the one its request names |
| PageTables.PdtIsPtOfPt | src/kernel/memory.c:135-143 | vaddr_in_pdt(v) is vaddr_in_pt(vaddr_in_pt(v)) |
| PageTables.VaddrInPtInjective | src/kernel/memory.c:140-143 | two addresses have one entry address exactly when they lie on one page |
| PageTables.EntriesAreReached | src/kernel/memory.c:135-143 | through the self-mapped directory the two addresses lead to v's directory entry and page-table entry, the latter exactly when the table is present |
| PageTables.TabledTables | src/kernel/memory.c:158-163 | adding a page table keeps the tables distinct from each other and from the directory |
| PageTables.TabledLookup | src/kernel/memory.c:158-163 | a new cleared table maps nothing and unmaps nothing |
| PageTables.EnteredLookup | src/kernel/memory.c:145-166 | writing one entry changes the translation of one page only |
| PageStates.FreeUndoesMalloc | src/kernel/memory.c:169-189 | free_page after malloc_page restores both bitmaps and every mapping |
| PageStates.MallocedKeeps | src/kernel/memory.c:169-189 | after malloc_page a virtual bit is set exactly for mapped pages, on distinct frames marked in the pool |
| PageStates.FreedKeeps | src/kernel/memory.c:525-580 | the same holds after free_page |
| Memories.Memory.GetPagePhy | src/kernel/memory.c:124-133 | the first free frame of the pool, which is marked; no other bit changes |
| Memories.Memory.InstallTable | src/kernel/memory.c:158-160 | clearing the page through its recursive address clears the new table and nothing else |
| Memories.Memory.Bind | src/kernel/memory.c:145-166 | both branches end with one entry written in a proper table; a new table comes from the kernel pool; the assertions hold for unmapped pages |
| Memories.Memory.GetUserPage | src/kernel/memory.c:344-357 | one free user frame is bound to the page |
| Memories.Memory.GetPageVaddr | src/kernel/memory.c:87-122 | the first run of free virtual pages is marked, or -1 exactly when there is none |
| Memories.Memory.MapPage | src/kernel/memory.c:178-187 | one heap page gets a frame that was free; all other pages and all contents stay |
| Memories.Memory.MallocPage | src/kernel/memory.c:169-189 | the first run of virtual pages, each on a frame of its own, the lowest frames that were free; no contents change |
| Memories.Memory.FreePagePhy | src/kernel/memory.c:473-488 | the frame goes back to the pool it belongs to |
| Memories.Memory.UnmapPage | src/kernel/memory.c:560-577 | the frame found through the page table goes back, and the page is unmapped |
| Memories.Memory.VaddrRemove | src/kernel/memory.c:499-522 | exactly the bits of the span are cleared |
| Memories.Memory.FreePage | src/kernel/memory.c:525-580 | exactly the span's pages lose their mapping and exactly their frames become free |
| HeapStates.GridOfBlock | src/kernel/memory.c:35-38 | each block of an arena lies on its page, past the header, and block_in_arena leads back from it |
| HeapStates.BlockOfGrid | src/kernel/memory.c:35-43 | and it is recovered from its address |
| HeapStates.LiveInArena | src/kernel/memory.c:360-470 | a block handed out lies within its own arena, past the header, with the requested size |
| HeapStates.LiveDisjoint | src/kernel/memory.c:360-470 | no two blocks handed out overlap over their whole extent, small or large |
| HeapStates.OpenedKeeps | src/kernel/memory.c:428-457 | a new arena's blocks join the free list once each, and cnt counts them |
| HeapStates.HandedKeeps | src/kernel/memory.c:459-468 | handing out the head of a free list keeps the invariant: each list holds exactly its class's blocks not handed out, once each, and cnt counts an arena's |
| HeapStates.ReturnedKeeps | src/kernel/memory.c:612-616 | taking a block back keeps the invariant |
| HeapStates.ClosedKeeps | src/kernel/memory.c:617-627 | exactly the blocks of a wholly free arena leave the free list, and exactly its page leaves the heap |
| HeapStates.SpannedKeeps | src/kernel/memory.c:394-415 | a large span keeps the invariant |
| HeapStates.UnspannedKeeps | src/kernel/memory.c:608-611 | so does releasing one |
| HeapStates.ReleasedKeeps | src/kernel/memory.c:583-632 | sys_free takes away exactly one block, keeps the invariant, and leaves no arena wholly free |
| HeapStates.ReleasedLists | src/kernel/memory.c:612-627 | sys_free puts the block at the end of its free list; when it was the last of its arena, exactly the arena's blocks leave and the others keep their order; other lists stay |
| HeapStates.EmptyHeap | src/kernel/memory.c:583-632 | with nothing handed out there is no arena, no page and no free block |
| HeapPages.MallocedRest | src/kernel/memory.c:394-441 | taking pages leaves everything that is not the heap's as it was |
| HeapPages.FreedRest | src/kernel/memory.c:583-632 | so does giving pages back |
| HeapPages.NothingTaken | src/kernel/memory.c:583-632 | without heap pages the kernel's bitmaps and mappings are the initial ones |
| KernelHeaps.BlockDescInit | src/kernel/memory.c:23-33 | the seven classes are 16 to 1024 bytes with 255, 127, 63, 31, 15, 7 and 3 blocks |
| KernelHeaps.KernelHeap.FindClass | src/kernel/memory.c:421-427 | the smallest class that holds the request |
| KernelHeaps.KernelHeap.OpenArena | src/kernel/memory.c:428-457 | fails exactly when no virtual page is free |
| KernelHeaps.KernelHeap.MallocLarge | src/kernel/memory.c:394-415 | NULL exactly when there is no run of pages for request and header |
| KernelHeaps.KernelHeap.MallocSmall | src/kernel/memory.c:416-469 | takes a page only when the class has no free block, and otherwise hands out the head of its list, the others moving up |
| KernelHeaps.KernelHeap.SysMalloc | src/kernel/memory.c:360-470 | NULL exactly for size 0, a size of the pool's or more, or no run of pages; otherwise a block not in use: up to 1024 bytes from the smallest class that holds it, the head of its list if there is one, beyond that from the fewest pages that hold it and the header; the heap's invariant is kept |
| KernelHeaps.KernelHeap.FreeBlock | src/kernel/memory.c:612-628 | the arena is released exactly when this was its last block in use |
| KernelHeaps.KernelHeap.SysFree | src/kernel/memory.c:583-632 | exactly that block is no longer in use, and the heap's invariant is kept |
| KernelHeaps.KernelHeap.AllGivenBack | src/kernel/memory.c:583-632 | when everything is given back the kernel's frame and virtual bitmaps equal their initial values |
| ForkStates.SteppedTables | src/kernel/fork.c:44-88 | copying one page changes no frame in use but the child's directory and tables |
| ForkStates.SteppedLookup | src/kernel/fork.c:44-88 | copying one page maps that page of the child and no other |
| ForkStates.CopyingKeeps | src/kernel/fork.c:44-88 | after a set bit the child maps one page more, with the parent's contents, on a frame of its own |
| ForkStates.CopyingSkips | src/kernel/fork.c:54-64 | clear bits change nothing |
| Forks.ParentSame | src/kernel/fork.c:44-88 | the parent's mapping and contents are unaffected |
| Forks.CopiedAll | src/kernel/fork.c:44-88 | when the loop is over the copy is faithful and isolated |
| Forks.CopyPage | src/kernel/fork.c:61-83 | one turn of the inner loop, with the page directory switched to the child's and back |
| Forks.CopyByte | src/kernel/fork.c:56-86 | the inner loop copies exactly the pages of the set bits |
| Forks.CopyBodyStack3 | src/kernel/fork.c:44-88 | the child maps exactly the pages set in the parent's bitmap with the parent's contents, on frames of no page of the parent and each for one page; the parent is unchanged |
| RefStates.SharedKeeps | src/fs/inode.c:72-82 | a reference to an inode in core is counted |
| RefStates.LoadedKeeps | src/fs/inode.c:84-108 | a loaded inode stands once in the list under its own number |
| RefStates.DroppedKeeps | src/fs/inode.c:111-139 | the last reference frees the slot, which is never the root's |
| RefStates.WithPwdKeeps | src/fs/namei.c:803-827 | changing the directory moves one reference |
| RefStates.WithRootKeeps | src/fs/namei.c:829-852 | changing the root moves one reference |
| RefStates.WithOpenKeeps | src/fs/file.c:36-61 | a new file takes over the call's reference, and its count is its one descriptor |
| RefStates.NamedFile | src/fs/file.c:68-81 | a descriptor in use is at least 3 and names a file with a positive count |
| RefStates.WithoutOpenKeeps | src/fs/file.c:25-33 | the last descriptor gives the file's reference to the inode up |
| RefStates.ForkedKeeps | src/kernel/fork.c:127-147 | after fork every count includes the child's directories and descriptors, several on one file included |
| RefStates.StartedKeeps | src/kernel/thread.c:67-95 | a new thread's two directories are counted at the root |
| RefStates.MountedInv | src/fs/super.c:103-116 | after mounting, the root's count is the superblock's two |
| Paths.MatchName | src/fs/namei.c:52-76 | a match means the entry's name stands there followed by a separator or the end, and the walk goes on after it |
| Paths.MatchesComponent | src/fs/namei.c:52-76 | for names without separators that is equality with the path's component |
| Paths.LastSeparator | src/lib/string.c:172-187 | the last separator, or none exactly when there is none |
| Paths.FindEntry | src/fs/namei.c:79-116 | finds the first entry of that name, and fails exactly when there is none |
| Paths.AddEntry | src/fs/namei.c:119-172 | the first entry out of use is taken, otherwise one is appended |
| Paths.AddedIsFound | src/fs/namei.c:119-172 | what was added is then found, and no entry in use is lost |
| Paths.AfterWithin | src/fs/namei.c:215-238 | the walk comes strictly nearer to the last component and never passes it |
| Paths.WalkEndsInDir | src/fs/namei.c:215-238 | a successful walk ends in a directory |
| Paths.WalkIffTrail | src/fs/namei.c:214-237 | the walk finds x exactly when there is a sequence of passable directories, each the entry of the one before under the next component, that ends in x where the last component begins |
| Paths.HolderIffLeads | src/fs/namei.c:175-247 | named's directory and position are exactly those such a sequence leads to, from the root for an absolute path and from the current directory otherwise |
| Paths.TargetIffNames | src/fs/namei.c:250-277 | namei's result is exactly the last component's entry in that directory, or the directory when the path ends in a separator |
| Names.Kernel.FindInode | src/fs/inode.c:54-69 | finds the in-core inode of a number, and fails exactly when there is none |
| Names.Kernel.GetFreeInode | src/fs/inode.c:19-30 | the first free slot; fails exactly when all 64 slots are in use |
| Names.Kernel.Iget | src/fs/inode.c:72-108 | one more reference to the one in-core inode of a number; it panics only on a full table |
| Names.Kernel.Iput | src/fs/inode.c:111-139 | one reference less, and the counts still equal the holders |
| Names.Kernel.Descend | src/fs/namei.c:217-237 | one turn of the loop exchanges the reference to a directory for one to the directory below, or for none |
| Names.Kernel.FollowPath | src/fs/namei.c:213-247 | the loop ends, with one reference to the directory a sequence of passable directories leads to component by component, or with none exactly when there is no such sequence |
| Names.Kernel.Named | src/fs/namei.c:175-247 | the directory that the path leads to component by component and the position of the last component, with one reference on success; failure, with none, exactly when it leads to none |
| Names.Kernel.Namei | src/fs/namei.c:250-277 | what the path names, with one reference on success; failure, with none, exactly when it names nothing; nothing in use is disturbed |
| Names.Kernel.OpenIn | src/fs/namei.c:649-719 | refuses exactly a missing name that may not be created, a file that may not be opened in this mode, or a directory to be written; after success the name leads to what was opened, and nothing else found before is lost |
| Names.Kernel.InodeOpen | src/fs/namei.c:630-719 | what the path and flags open or create, with one reference on success; failure, with none, exactly when the path leads nowhere or opening there is refused; a path that ends in a separator opens its directory unchecked |
| Names.Kernel.TaskGetFd | src/kernel/thread.c:203-218 | the first free descriptor from 3 on; it panics exactly when there is none |
| Names.Kernel.GetFile | src/fs/file.c:11-23 | the first unused file from 3 on; it panics exactly when there is none |
| Names.Kernel.SysOpen | src/fs/file.c:36-61 | the first free descriptor on the first unused file on what the path opens, or EOF and nothing held; all counts equal the holders |
| Names.Kernel.SysClose | src/fs/file.c:68-81 | the descriptor is cleared and all counts equal the holders |
| Names.Kernel.SysChdir | src/fs/namei.c:803-827 | succeeds exactly for another directory, to which the process then moves; all counts equal the holders |
| Names.Kernel.SysChroot | src/fs/namei.c:829-852 | succeeds exactly for another directory, which becomes the process's root; all counts equal the holders |
| Names.Kernel.Fork | src/kernel/fork.c:127-147 | the child has the parent's directories and descriptors, and all counts equal the holders |
| Names.Kernel.InitThread | src/kernel/thread.c:67-95 | a new thread stands at the root twice, and all counts equal the holders |

## Left out

- CacheStates.Hash: hash values are computed on 32-bit words, and nothing beyond their range is stated about them.
- Buffer headers are entries of a sequence, named by the order in which they were carved, and so are in-core inodes and open files; pointers become positions, and hash chains and free lists are sequences of them.
- BufferCache.Cache.GetFreeBuffer: the branch that blocks when every buffer is in use never joins `wait_list`, so the model asks for an unused buffer; waking a waiter in `brelse` is left out with it.
- BufferCache.Cache.Bread: other threads that run while a block is being read or written are not modelled, nor is the lock around loading.
- FileSystems.FileSystem.Balloc: follows the contract its callers rely on, not the offset handling; the bits are a set of zone numbers, not blocks of the device. `ZoneMaps.ZoneMap` is the code itself, for the first bitmap block, the only one a scan can get past without tripping its assertion.
- FileSystems.FileSystem.Bmap: the inode descriptors are a table of their own and not bytes of the inode blocks, so that `inode->desc` aliases the buffer `inode->buf` is left out; the buffer's count and its dirty flag are modelled.
- `ialloc` and `ifree`, whose bitmaps have a wrong length; new inode numbers are parameters.
- FileSystems.FileSystem.InodeWrite: offsets are not negative and the end lies below the largest file size; what a negative offset from `SEEK_END` does to a write is not modelled.
- File modes, owners, permission bits and time stamps; `permission` is an arbitrary predicate, and directories are the inodes that have entries.
- Reading and writing descriptors 0 to 2, which go to the keyboard and the console.
- Processors.Dispatched: ticks and priorities; the timer may strike at any point where interrupts are on.
- LockStates.NextKeeps: the semaphores are those of locks, which is all the kernel uses them for; that a thread releases only what it acquired is asked of the threads, and so is that nobody unblocks a semaphore's waiter by hand.
- Elevators.Elevator.Arrive: runs without interruption up to `do_request` or `thread_block`, as in a system call, whose gate disables interrupts. A kernel thread with interrupts on that is preempted between the test for an empty list and the insertion is not covered.
- Requests are kernel-wide objects named by their thread; `malloc` for them in the caller's own heap is left out, and so are the transfer itself and partitions.
- Memories.Memory.MallocPage: asks for enough frames, because running out trips an assertion of the scan; the loop does not roll back.
- Memories.Memory.FreePage: the branch for the user pool differs only in the pool; `FreePagePhy` has both.
- Memories.Memory.Bind: entries are written as frame times page size plus 7, which is what the bitwise or gives for page-aligned addresses; stale translations in the TLB are left out.
- The three bitmaps are separate arrays with one byte behind each, where the source lays them out one after the other.
- KernelHeaps.KernelHeap.SysMalloc: for kernel threads; processes use the same code on their own lists and pages. That blocks are cleared, and the pool's lock, are left out.
- HeapStates.GridOfBlock: the header takes 12 bytes, the size the three fields have with 32-bit pointers.
- Forks.CopyBodyStack3: starts with a page directory that has no table of the process's own, as `create_page_dir` leaves it; failure for want of frames, heap use after fork and the kernel stack are left out.
- Names.Kernel.Named: names are strings without terminator; an entry whose name fills all 14 bytes, which the source compares past its end, is left out, and the buffers that `find_entry` holds are not counted here.
- Paths.FindEntry: as in the code an entry whose number is 0 can match; nothing is claimed about lookup after deletion.
- Names.Kernel.SysOpen: truncation on opening is `FileSystems.FileSystem.InodeTruncate` and not repeated; offsets are in `Files.OpenFile`, whose caller gives the first one (the file's size with `O_APPEND`).
- Names.Kernel.SysClose: clears the descriptor before the counts go down, where the source does it last; `SysChdir` and `SysChroot` likewise set the new directory before the old one is given back.
- Names.Kernel.InitThread: the main and the idle thread take their references before the root is mounted; the model mounts first.
- RefStates.MountedInv: one device with one superblock; mounting others is left out.
- `sys_mkdir`, `sys_rmdir`, `sys_link` and `sys_unlink`, which would add calls of the same shape, and the semantics of deletion.
- `abspath` and `sys_getcwd`, whose final component overwrites its terminator.
- Boot and assembly code, port I/O, IDE, interrupts and descriptor tables, console, shell, keyboard, `fifo.c`, `time.c`, `stdlib.c`, `vsprintf.c` and the rest of `string.c`.
