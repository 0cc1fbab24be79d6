# Verified model of the xv6 kernel's core

This project models the parts of an x86 xv6 kernel, and of some of its user code, whose correctness is hard to see
by reading: the write-ahead log and the buffer cache, the file layer and its link counts, paging, the process table and
its scheduler, sleep locks and pipes, the user heap allocator, the shell parser and the pattern matcher of grep. It
proves properties of that model for every input, every run and every reachable state.

How the model is built:

- Code that changes state step by step is a class with `modifies` clauses, or a loop in a method. Each such method is
  proved against a specification on values; what the code promises is then proved of that specification.
- Where processes interleave, each section under a lock is one step of a state machine, and a run is any sequence of
  steps of any number of processes. The methods for the buffer cache, the process table and the directories are proved
  to be those steps. The methods for pipes compute the functions on the ring of which the steps of `PipeProtocol` are
  made. The methods of the log and the steps of `LogProtocol` share the admission test, the check for a full log, the
  absorption and the sequence of writes of a commit. Memory is sequentially consistent. In `SleepLock` the steps of
  `sleep` itself are taken one by one.
- The disk is a sequence of blocks, one block write is atomic, and a crash can come between any two writes.
- Whole pages are named by their page numbers, integers are unbounded, and 32-bit wrap-around is written out where it
  matters (pipe counters, `malloc` sizes, file offsets). Clock readings are parameters that never go back.
- A panic of the source is a result of the model, a demand on the caller, or proved not to happen.

The files, in the order in which they are best read:

| part | files |
|---|---|
| log | `LogDisk` (writes, crash, recovery), `Log` (the code), `LogProtocol` (interleaved operations) |
| buffer cache | `BufferCache` (state machine), `Bio` (the linked list and the code) |
| file layer | `FsBytes`, `FsState` (ownership of blocks), `Fs` (the code) |
| directories and links | `Links` (state machine), `Sysfile` (the code) |
| paging | `PageTables`, `PageStates`, `PageSteps` (values), `Vm` (the code) |
| processes | `ProcTable` (state machine), `Proc` (the code) |
| sleep locks, pipes | `SleepLock`, `Pipe` |
| user heap | `Umalloc` |
| shell | `ShellGrammar`, `ShellProps`, `ShellRoundTrip`, `Shell` (the code) |
| grep | `Grep` |

Where the code does not do what one would expect, the model follows the code, and a lemma says exactly when:

- With a log of at most LOGSIZE blocks, which is what mkfs makes, "too big a transaction" can be reached by operations
  that keep to MAXOPBLOCKS (`LogProtocol.SmallLogPanics`); with a larger log it cannot (`LogProtocol.Reservation`).
  Whether the operations of this kernel ever need all of MAXOPBLOCKS is not part of that result.
- A killed writer that finds the pipe full leaves without waking readers. `PipeProtocol.NextStrands` says that exactly
  such a step leaves somebody asleep, and `PipeProtocol.RunStranded` the same of runs;
  `PipeProtocol.KilledWriterStrandsReader` is one.
- For requests above 0x7FFFFFF0 bytes the sizes that `malloc` computes wrap around (`Umalloc.RequestLimit`).
- `kill(0)` marks an unused slot, and the next process born there is killed at birth (`ProcTable.BornKilled`,
  `ProcTable.MarkedUnused`).
- The scheduler's `switch` has no `break`, so one pass of strategy F goes on to choose by priority.
  `Proc.PriorityAfterFcfs` says exactly when that keeps first-come-first-served order, and `Proc.FallThrough` is a run
  in which it does not.
- Two calls of `iput` that check before either counts down leave an inode allocated for ever. `Links.LastCheck` gives
  the exact condition, and `Links.LeakHappens` a run.
- `create` and `link` work in a directory that was removed, and the count is then wrong: exactly when the directory has
  no links (`Links.CreateNeedsTree`, `Links.LinkNeedsTree`), which can happen (`Links.RemovedInUse`).
- A lookup in a directory that a process holds can reach an inode that is free: exactly when it is a lookup of ".." in a
  removed directory whose old parent has gone too (`Links.LookupReaches`). `Links.DanglingParent` is a run that comes
  to it, and `Links.OwnedIsAllocated` says that nothing else can make `ilock` panic.

A comment in sh.c marks ">>" as a redirection of its own, but the code builds the same command as for ">", and so does
the model.

## Model

| member | source | states |
|---|---|---|
| LogDisk.HeaderRoundTrip | log.c:85-111 | reading a header block gives back the list of blocks that was written to it |
| LogDisk.RecoverCleared | log.c:115-122 | with a cleared header, recovery stopped and restarted any number of times leaves every home block as it was |
| LogDisk.RecoverCommitted | log.c:69-122 | with a committed header, recovery stopped any number of times and then completed gives the home blocks of the new transaction |
| LogDisk.CommitBeforeHeader | log.c:177-202 | up to the header write no home block and no header has changed on disk |
| LogDisk.CommitHeader | log.c:192-202 | the header write is what makes the transaction one that recovery must install |
| LogDisk.CommitDurable | log.c:192-202 | it stays one through every later prefix of the writes up to the clearing of the header |
| LogDisk.CommitComplete | log.c:192-202 | a commit that is not interrupted installs every logged block and clears the header |
| LogDisk.CrashAtomic | log.c:69-202 | a commit stopped after any prefix of its writes, then recovered with any number of interruptions, gives all blocks old or all new; all new exactly when the first header write landed |
| Log.Log.ReadHead | log.c:85-96 | the list in memory becomes the one in the header block |
| Log.Log.WriteHead | log.c:101-111 | one write, of the header block for the list in memory |
| Log.Log.InstallTrans | log.c:69-81 | the writes are exactly the copies of the log blocks to their homes, in order; the buffers are clean again |
| Log.Log.RecoverFromLog | log.c:115-122 | performs exactly the recovery writes, and leaves an empty log |
| Log.Log.WriteLog | log.c:177-188 | copies every cached block of the transaction to its log slot |
| Log.Log.Commit | log.c:192-202 | performs exactly the commit writes whose every prefix is crash-safe, or none if nothing was logged |
| Log.Log.LogWrite | log.c:213-233 | refuses exactly at the two panics; otherwise absorbs a repeated block, appends a new one, and pins the data |
| Log.Log.BeginOp | log.c:125-141 | admits exactly when no commit runs and the worst case of all operations still fits |
| Log.Log.EndOp | log.c:145-174 | the last operation commits, the others only count down |
| LogProtocol.RunInv | log.c:125-233 | the invariant of the log holds after every prefix of every interleaving of operations, commits, crashes and recoveries |
| LogProtocol.CheckNeverPanics | log.c:218-219 | though made without the lock and before absorption, the check for a full log never fires when the log is larger than LOGSIZE |
| LogProtocol.Reservation | log.c:126-174 | at every moment the logged blocks and the unused budgets of all active operations fit in LOGSIZE, nobody is active during a commit, and nobody waits without someone to wake them |
| LogProtocol.CommitPoint | log.c:146-202 | the header write makes exactly the finished operations durable, all of them |
| LogProtocol.RecoversDurable | log.c:115-122 | recovery from any reachable disk gives the state after exactly the durable writes |
| LogProtocol.CrashConsistency | log.c:69-233 | at any moment of any run, crash and recovery with interruptions give a prefix of the history that never splits an operation |
| LogProtocol.CacheSeesHistory | log.c:213-233 | outside a commit, cache over disk is the state after all writes so far |
| LogProtocol.SmallLogPanics | mkfs.c:25 | for every log of at most LOGSIZE blocks there is a run of operations, each within MAXOPBLOCKS, that panics |
| BufferCache.NextKeeps | bio.c:61-141 | every step of every process keeps one buffer per block, correct reference counts, and disk, cache and stored data in agreement |
| BufferCache.RunInv | bio.c:38-141 | so it does after every prefix of every run from `binit` |
| BufferCache.OneBufferPerBlock | bio.c:61-93 | no block other than the initial (0,0) is in two buffers |
| BufferCache.BreadLatest | bio.c:96-106 | a process that holds a valid buffer sees the data last given to `bwrite` or `log_write` for that block by anybody |
| BufferCache.DirtyStays | bio.c:78-91 | from `log_write` to the next `bwrite` a buffer stays dirty and keeps its block |
| BufferCache.UserKeepsBlock | bio.c:61-93 | between getting a buffer and giving it back a process has the block it asked for in it |
| BufferList.ToFrontCircle | bio.c:132-137 | the six pointer assignments keep one circle through all buffers and move exactly one buffer to its front |
| Bio.Bcache.constructor | bio.c:38-56 | the list is a circle through all buffers, newest first, and nothing is cached |
| Bio.Bcache.Bget | bio.c:61-93 | a cached block is found; else the least recently released clean unused buffer is taken; fails exactly when the block is not cached and there is no such buffer |
| Bio.Bcache.Find | bio.c:68-76 | walking the next links finds a buffer exactly when the block is cached |
| Bio.Bcache.FindIdle | bio.c:81-91 | walking the prev links finds the idle buffer of least release time, if there is one |
| Bio.Bcache.Iderw | memide.c:38-60 | writes a dirty buffer out, or reads an invalid one in; the "nothing to do" panic does not occur in its callers |
| Bio.Bcache.Bread | bio.c:96-106 | afterwards the buffer is valid and holds what was last stored for its block |
| Bio.Bcache.Bwrite | bio.c:109-116 | the data reach the disk, and the buffer is clean |
| Bio.Bcache.Release | bio.c:121-141 | a step of the machine; the last reference makes the buffer the most recently released one, an earlier one leaves the list alone |
| FsBytes.BlockBitChange | fs.c:57-95 | setting or clearing bit i of a bitmap block changes that bit and no other |
| FsBytes.WordChange | fs.c:390-396 | storing a word in an indirect block changes that word and no other |
| FsState.FreshInv | mkfs.c:93-111 | an empty file system with exactly its metadata blocks marked satisfies the ownership invariant |
| FsState.FreshWhole | mkfs.c:93-111 | and no file of it has holes |
| Fs.FileSystem.constructor | mkfs.c:93-111 | such a file system is sound: ownership is exact, no file has holes, and every inode on disk equals the one in memory |
| FsState.Ownership | fs.c:372-402 | every nonzero direct, indirect or listed address is a marked data block, and no two slots of any inodes share one |
| FsState.GiveDirect | fs.c:378-381 | entering a newly allocated block in a direct slot keeps ownership exact |
| FsState.GiveIndirect | fs.c:386-388 | so does giving a file its indirect block |
| FsState.GiveEntry | fs.c:389-396 | so does a new entry of the indirect block, written in the block itself |
| FsState.DinodeChange | fs.c:220-236 | storing an inode in a block changes that inode and none of the other seven there |
| FsState.PutUpdates | fs.c:220-236 | so the write changes exactly one inode of the whole inode area |
| FsState.EmptiedWhole | fs.c:407-435 | emptying one file makes no hole in any |
| Fs.FileSystem.Balloc | fs.c:56-78 | returns the first unmarked block, now marked and zeroed and nothing else changed; fails exactly when all are marked |
| Fs.FileSystem.Bfree | fs.c:81-95 | clears exactly that bit; refuses exactly a block that is free |
| Fs.FileSystem.Bmap | fs.c:372-402 | gives the address of block bn, allocating at most the block and the indirect block, keeping all other slots and their bytes, and logging what it should |
| Fs.FileSystem.Iupdate | fs.c:220-236 | in the bytes of the inode blocks, the inode becomes the one in memory, and every other inode, also of the same block, stays |
| Fs.FileSystem.Itrunc | fs.c:407-435 | frees exactly the blocks of this inode, never a free one; no other file changes, and none gets a hole |
| Fs.TruncatedBits | fs.c:407-435 | after truncation a block is marked exactly if it was and did not belong to the inode |
| Fs.FileSystem.Readi | fs.c:452-478 | in every sound file system, returns exactly the bytes of the file from off, up to n of them; fails exactly when off is beyond the end or off + n wraps; changes nothing |
| Fs.FileSystem.WriteTurn | fs.c:493-499 | one turn of the loop writes its part of one block and logs no more than its share |
| Fs.FileSystem.Writei | fs.c:481-511 | in every sound file system, which it keeps sound: the contents become the old ones overwritten at off and extended if needed, all other files keep their bytes, and the disk inode equals the one in memory; a chunk logs at most 10 distinct blocks |
| Fs.WrittenWhole | fs.c:481-511 | a write makes no hole in any file |
| Fs.FileSystem.WriteThenRead | fs.c:452-511 | a read of the range that a successful write stored gives back exactly the bytes written |
| Fs.ChunkBound | file.c:127-134 | a piece of at most 3*512 bytes, at any alignment and over any bitmap blocks, accounts for at most 9 blocks besides the inode |
| Fs.FileSystem.Filewrite | file.c:118-153 | all chunks together overwrite the contents as one write would; each chunk logs at most 10 distinct blocks, and at most 9 before any of its calls; everything is written exactly when it fits |
| Links.NextKeeps | sysfile.c:118-283 | each step of create, link, unlink, lookup in any directory in use, and iput keeps link counts, unique names, the dot entries and the shape of the tree |
| Links.RunInv | sysfile.c:118-283 | so they hold after every prefix of every run from an empty file system |
| Links.LinkCounts | sysfile.c:118-283 | nlink is the number of entries other than "." naming the inode from directories in the tree, plus the calls that are half done |
| Links.UniqueNames | fs.c:550-578 | no directory ever holds a name twice |
| Links.LookupReaches | fs.c:524-548 | a lookup in any directory in use reaches an inode that is free or being freed exactly when it is of ".." in a removed directory and the parent it had is gone |
| Links.StrayOrigin | fs.c:624-657 | every reference to such an inode comes from a step of the run that made such a lookup |
| Links.FreedAlone | fs.c:331-352 | while an inode is truncated and freed it has no link, no entry of the tree names it, and the only reference other than from such lookups is the one of the process that frees it |
| Links.OwnedIsAllocated | fs.c:287-312 | whoever holds a reference has an allocated inode, so that "ilock: no type" does not fire, unless an earlier step of the run looked up the ".." of a removed directory and reached this inode when it was free or being freed |
| Links.UnlinkFindsLink | sysfile.c:207-212 | the inode that unlink finds has a link, so "unlink: nlink < 1" does not fire |
| Links.LastCheck | fs.c:331-352 | an unlinked inode always has a reference whose iput will free it, unless an iput finds only references of calls that have already checked; both directions |
| Links.Leak | fs.c:331-352 | from any moment of any run at which an unlinked inode has two references, the run can go on so that it stays allocated with neither links nor references |
| Links.LeakHappens | fs.c:331-352 | a run from an empty file system that ends with such an inode |
| Links.DanglingParent | fs.c:624-657 | a run from an empty file system after which a process works in a removed directory whose ".." entry names a free inode, and one more lookup takes a reference to it |
| Links.CreateNeedsTree | sysfile.c:241-283 | for a new file or directory, in any directory in use of which no unlink is half done: the counts are right afterwards if and only if the directory has links |
| Links.LinkNeedsTree | sysfile.c:118-164 | the same for the new entry of link |
| Links.LinkedByCount | sysfile.c:184-238 | a directory of which no unlink is half done is in the tree if and only if its link count is positive |
| Links.RemovedInUse | sysfile.c:184-238 | a run from an empty file system that removes a directory while a process works in it |
| Sysfile.SameName | fs.c:516-520 | names are equal exactly when their first 14 characters are |
| Sysfile.Inodes.DirLookup | fs.c:524-548 | finds a live entry of that name exactly when there is one |
| Sysfile.Inodes.FreeEntry | fs.c:564-570 | the first free entry, or the place behind the last |
| Sysfile.Inodes.IsDirEmpty | sysfile.c:168-181 | true exactly when nothing but the first two entries is live |
| Sysfile.Inodes.Ialloc | fs.c:194-214 | the first free inode |
| Sysfile.Inodes.Create | sysfile.c:241-283 | makes a new inode exactly when the name is absent and an inode is free, as one step that keeps all counts; finds a file only for a file |
| Sysfile.Inodes.LinkEntry | sysfile.c:144-164 | enters the name exactly when it is absent, and otherwise takes the count back |
| Sysfile.Inodes.UnlinkName | sysfile.c:201-229 | removes the entry exactly when it is not a dot entry and not a directory with entries |
| Sysfile.Inodes.IputCheck | fs.c:331-347 | frees exactly when nlink is 0 and this is the only reference, and then no entry names the inode |
| PageStates.PushGood | kalloc.c:59-77 | giving back a held page keeps every page in exactly one place |
| PageStates.PopGood | kalloc.c:82-95 | so does taking the head of the free list |
| PageStates.KeptMeaning | vm.c:35-80 | an operation on one address space leaves the mappings of every other, and the words of its frames, as they were |
| PageSteps.UnmapStep | vm.c:265-277 | unmapping a page frees exactly its frame and clears exactly its entry |
| PageSteps.PlainUnmaps | vm.c:255-279 | the plain page-by-page loop unmaps exactly the range |
| PageSteps.PlainSkip | vm.c:266-268 | pages under an absent directory entry may be skipped without changing the outcome |
| PageSteps.FramesDisjoint | vm.c:221-345 | no two user pages, in one address space or in two, share a frame |
| PageSteps.KeptReleased | vm.c:283-298 | freeing an address space that was made out of free pages puts every page back where it was |
| Vm.KmapMeaning | vm.c:105-115 | the four ranges of the kernel map are physical memory at KERNBASE, read-only up to the data, and the devices |
| Vm.Memory32.constructor | kalloc.c:31-44 | the machine before any page was freed |
| Vm.Memory32.FreeRange | kalloc.c:46-53 | exactly the pages of the range become free |
| Vm.Memory32.Kfree | kalloc.c:59-77 | the page is the new head of the free list, filled with junk |
| Vm.Memory32.Kalloc | kalloc.c:82-95 | takes a free page; fails exactly when there is none |
| Vm.Memory32.Walk | vm.c:35-55 | finds the table of a page, or makes an empty one without changing any translation; fails only when there is none and none may or can be made |
| Vm.Memory32.MapPages | vm.c:60-80 | adds exactly the requested translations if the free pages are as many as the page tables that are missing, and else the first of them until memory runs out; changes no other translation |
| Vm.Memory32.SetupKvm | vm.c:118-136 | a new address space whose translations are exactly the kernel map; fails exactly when fewer than 65 pages are free, and then puts every page back |
| Vm.Memory32.AllocUvm | vm.c:221-249 | maps exactly the new pages, zeroed, writable and for the user, exactly when as many pages are free as there are new pages and missing tables; else restores every mapping, and the only pages not given back are page tables |
| Vm.Memory32.DeallocUvm | vm.c:255-279 | with its skip, leaves exactly the state of the plain page-by-page loop, free list included, for sizes up to KERNBASE |
| Vm.Memory32.FreeVm | vm.c:283-298 | exactly the directory, tables and user frames of the address space become free, each once |
| Vm.Memory32.CopyUvm | vm.c:315-345 | every page below sz has the same words and flags in a frame of its own, and nothing else changes; fails exactly when fewer pages are free than 65 and the pages and tables of the copy, and then puts every page back |
| Vm.AllocUndone | vm.c:234-246 | the clean-up after a partial allocation restores the old mappings and the old roles |
| ProcTable.NextKeeps | proc.c:73-647 | every critical section keeps the invariant of the process table |
| ProcTable.RunInv | proc.c:73-647 | so it holds after every prefix of every interleaving |
| ProcTable.NoMissedExit | proc.c:231-318 | at no moment does a process sleep in wait while a child of it is a zombie |
| ProcTable.LiveParents | proc.c:185-273 | every started or zombie process but init has a parent that is alive |
| ProcTable.DistinctPids | proc.c:88-90 | no two slots in use have the same pid |
| ProcTable.ChildrenAreReal | proc.c:288-312 | the slots that wait counts as children are in use |
| ProcTable.Accounting | proc.c:348-349 | creation time and running time together never exceed the time of the last accounting, nor that the clock, so waiting time on one snapshot is not negative; priorities stay in 0..100 |
| ProcTable.MarkedUnused | proc.c:630-647 | the steps that mark an unused slot as killed are exactly a kill that finds its pid there first and a fork that gives up a killed child |
| ProcTable.BornKilled | proc.c:630-647 | from every start, kill(0) makes the next child be born killed |
| Proc.Ptable.Wakeup1 | proc.c:607-615 | exactly the processes asleep on the channel become runnable |
| Proc.Ptable.AllocProc | proc.c:73-96 | takes the first unused slot, if any, as a step of the machine |
| Proc.Ptable.Exit | proc.c:254-271 | waking the parent, passing children to init one by one and waking it, is one step that misses no zombie |
| Proc.Ptable.Wait | proc.c:284-317 | reaps exactly when there is a zombie child, returns only without children or when killed, and else sleeps |
| Proc.Ptable.Kill | proc.c:629-647 | marks the first slot with the pid, or reports that there is none |
| Proc.Ptable.UpdateTimes | proc.c:417-422 | the accounting loop, with two clock reads for each slot, is a step of the machine |
| Proc.Ptable.PickFcfs | proc.c:428-438 | picks the first of the runnable processes of least creation time, exactly when one is runnable |
| Proc.Ptable.PickPriority | proc.c:453-459 | 101 exactly when nothing is runnable; otherwise the number that exactly the runnable processes of least priority number have |
| Proc.Ptable.NextOfPriority | proc.c:460-473 | the next slot of a runnable process of the chosen number, if there is one |
| Proc.PriorityAfterFcfs | proc.c:424-502 | on whatever table the second stage finds, everything it may choose is a first-come-first-served choice if and only if no runnable process of least priority number is younger than a runnable one |
| Proc.FallThrough | proc.c:424-502 | a run from boot in which a pass of strategy F runs a process while an older one can run |
| SleepLock.StepKeeps | sleeplock.c:22-53 | every single step of acquiresleep, releasesleep, holdingsleep, sleep and wakeup keeps the invariant |
| SleepLock.RunInv | proc.c:567-624 | so it holds after every prefix of every interleaving of any number of processes |
| SleepLock.MutualExclusion | sleeplock.c:22-53 | at most one process owns the lock, and holdingsleep answers correctly |
| SleepLock.NoLostWakeup | sleeplock.c:22-42 | when the inner lock is free and the sleep lock is not held, nobody sleeps or is about to sleep on it |
| PipeBuffer.FullTest | pipe.c:85-107 | the full and empty tests on wrapping 32-bit counters are exact |
| PipeBuffer.SlotOfCounter | pipe.c:93 | the slot of a wrapped counter is the slot of the count |
| PipeBuffer.PutAllHolds | pipe.c:84-94 | the loop of pipewrite on a ring with 32-bit counters stores as many bytes as there is room for, in order, behind those accepted before |
| PipeBuffer.GetAllHolds | pipe.c:113-117 | the loop of piperead takes out of the slots exactly the oldest bytes not yet taken, as many as are there and asked for |
| PipeBuffer.Pipe.Write | pipe.c:78-98 | the array and counters change as by that loop on the ring, and then the call ends, sleeps or fails as the source does |
| PipeBuffer.Pipe.Read | pipe.c:100-121 | the array and counters change, and the bytes come out, as by that loop, or the call sleeps or fails as the source does |
| PipeProtocol.NextKeeps | pipe.c:59-121 | every step of any reader, writer, closer or killer keeps in the slots of the ring exactly the accepted bytes that are not delivered, and those delivered are the first accepted |
| PipeProtocol.RunInv | pipe.c:59-121 | so it is after every prefix of every run |
| PipeProtocol.RunFifo | pipe.c:59-121 | in every run the bytes delivered are a prefix of those accepted, at most PIPESIZE behind |
| PipeProtocol.RunNoneStranded | pipe.c:59-121 | without kills no reader sleeps with data or a closed write end, and no writer with room or a closed read end |
| PipeProtocol.WritePassStrands | pipe.c:84-97 | a pass of a writer strands someone exactly when the writer is killed, filled the pipe, has bytes left, and a reader sleeps |
| PipeProtocol.NextStrands | pipe.c:59-121 | of all steps, kills included, exactly such a pass leaves somebody asleep next to data, room or a closed end |
| PipeProtocol.RunStranded | pipe.c:59-121 | so in every run nobody is left asleep up to a moment if and only if no step before it was such a pass |
| PipeProtocol.KilledWriterStrandsReader | pipe.c:85-89 | a run in which a killed writer leaves a reader asleep before a full pipe |
| Umalloc.RequestLimit | umalloc.c:52-69 | the rounding and the call of sbrk are right exactly for requests of at most 0x7FFFFFF0 bytes |
| FreeList.GapTest | umalloc.c:30-32 | the exit test of the search loop holds at exactly one place of the ring |
| Umalloc.FreeKeeps | umalloc.c:33-43 | relinking and joining with either neighbour, both or none keeps the heap invariant |
| Umalloc.GrowKeeps | umalloc.c:46-60 | a region from sbrk joins the heap as one allocated block |
| Umalloc.TakeKeeps | umalloc.c:75-82 | taking a whole block, or the tail of one, keeps the heap invariant |
| Umalloc.OneOwner | umalloc.c:24-90 | every unit obtained from sbrk is in exactly one block, free or allocated |
| Umalloc.Heap.FindPlace | umalloc.c:30-32 | the search loop ends, at the one place where the block belongs |
| Umalloc.Heap.Splice | umalloc.c:33-42 | the headers then link exactly the ring with the freed block at its place, joined with the neighbours that it touches |
| Umalloc.Heap.Cut | umalloc.c:75-82 | the headers then link exactly the ring without the units taken, which are a whole block or the tail of one |
| Umalloc.Heap.Free | umalloc.c:24-44 | the block is free and no longer live; nothing else is |
| Umalloc.Heap.Morecore | umalloc.c:46-60 | the heap grows by exactly the region that sbrk gave, and then has a block that fits |
| Umalloc.Heap.Scan | umalloc.c:74-87 | one walk round the ring finds a block that fits exactly when there is one |
| Umalloc.Heap.Take | umalloc.c:75-85 | a block of exactly the requested units becomes live, and it was not before |
| Umalloc.Heap.Malloc | umalloc.c:63-90 | returns a new block of the requested size, disjoint from all live ones; null exactly when nothing fits and sbrk fails; at most one call of morecore |
| ShellProps.LineWords | sh.c:344-446 | for every line the parser ends, and the words it recorded are whole tokens, disjoint, and all of those in the part it read |
| ShellProps.EndsOfSpans | sh.c:449-493 | nulterminate writes behind exactly the recorded words |
| ShellProps.ReadsBack | sh.c:449-493 | after nulterminate each recorded word is a C string equal to its token |
| ShellProps.ParsedWords | sh.c:327-342 | on success of parsecmd both hold for the whole line |
| ShellProps.EveryWordOnce | sh.c:327-446 | on success every word of the line is recorded in the command tree exactly once |
| ShellRoundTrip.SpellParses | sh.c:265-446 | every command tree of ordinary words, fewer than MAXARGS in each command, has a parenthesised spelling that parses back to it |
| ShellRoundTrip.LineParses | sh.c:344-359 | so does every such spelling inside a line, up to the end or a closing parenthesis |
| Shell.Parser.GetToken | sh.c:265-308 | the token and cursor that the grammar gives |
| Shell.Parser.Peek | sh.c:310-320 | skips space, and tests the next character |
| Shell.Parser.ParseRedirs | sh.c:374-397 | the redirections, cursor or panic that the grammar gives |
| Shell.Parser.ParseArgs | sh.c:431-446 | the words and redirections of a simple command, or the panic, that the grammar gives |
| Shell.Parser.ParseExec | sh.c:415-446 | the command, cursor or panic that the grammar gives |
| Shell.Parser.ParseBlock | sh.c:399-413 | the command, cursor or panic that the grammar gives |
| Shell.Parser.ParsePipe | sh.c:361-372 | the command, cursor or panic that the grammar gives |
| Shell.Parser.ParseLine | sh.c:344-359 | the command, cursor or panic that the grammar gives |
| Shell.NulTerminate | sh.c:449-493 | overwrites exactly the characters behind the recorded words |
| Shell.ParseCmd | sh.c:327-342 | gives the grammar's tree or panic; on success every word of the tree is a C string in the buffer equal to its token |
| Grep.OccursHereStar | grep.c:98-106 | the meaning of c* in terms of runs of the character |
| Grep.MatchHere | grep.c:85-96 | true exactly when a prefix of the text is in the pattern's language, with $ at the end of the text |
| Grep.MatchStar | grep.c:98-106 | true exactly when the rest matches after some run of the character |
| Grep.Match | grep.c:72-82 | true exactly when some substring, or under a leading ^ some prefix, is in the language of the pattern |

## Left out

- Device and boot code, context switches, trap frames, console, system call argument fetching: hardware access or thin wrappers.
- exec.c, `loaduvm`, `inituvm`, `clearpteu`, `copyout`: sequencing of operations that are modelled, or easy members.
- `growproc`: a wrapper of `AllocUvm` and `DeallocUvm` that takes a resulting size of 0 as failure.
- The reference counts of `ftable` (`filealloc`, `filedup`, `fileclose`), and the slots of `icache` (`iget`): they would repeat the counting of `BufferCache` and `Links` in an easier form; `Links` counts references for each inode instead.
- Path walking (`namex`, `skipelem`): lookups are steps on one directory at a time.
- Devices as files: the branches of `readi`, `writei` and `create` for device inodes.
- Type, device numbers and link count of the inodes in `Fs`: size and addresses are bytes of the inode blocks, and those words stay as they are; `Links` has kinds and link counts. The inode blocks are a sequence of their own beside the other blocks.
- `Fs`, `Links` and `Log` are separate models: that an operation of `filewrite` stays within the log's budget is the bound of `Fs.FileSystem.Filewrite` set against the budget in `LogProtocol`, both counted in distinct blocks.
- BufferCache.Next: a process passes changed data to `bwrite` or `log_write` before it releases the buffer, and asks only for blocks of the disk; bio.c relies on its callers for both.
- Links.Next: entries are added to directories of the tree only; `CreateNeedsTree` and `LinkNeedsTree` say what happens otherwise. A reference taken to an inode that is free or being freed has no further steps unless the inode is allocated again: the source passes it to `ilock`, which panics. A directory that is full (`dirlink` panics) is not modelled.
- ProcTable.Accounting: `waitx` reads the times after it has given up the lock; the bound is for times read in one state.
- Shell.Parser.ParseExec: the source wraps a simple command in its redirections while it is still filling in its words; the model collects both and wraps at the end, so the aliasing of that node is not modelled.
- Vm.Memory32.CopyUvm: pages of the parent below sz have to be present; the source panics otherwise.
- Vm.Memory32.AllocUvm: the pages to be added have to be unmapped before the call; the source panics with "remap" otherwise.
- Wrap-around of `ticks` and of `nextpid`.
- The empty multi-level-feedback case of the scheduler, and the order in which the later picks of one priority or round-robin stage run.
- Fairness and progress: the results on sleeping say that nobody is left asleep who should be awake, not that they are scheduled.
- The buffering loop of `grep()` and the other user programs.
