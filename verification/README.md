# Verified models of PugOS

PugOS is an x86-64 kernel derived from Chickadee. This project models the parts of it that carry
the most intricate state, and proves what the rest of the kernel relies on. `dafny verify
dfyconfig.toml` checks everything.

| part | source | modules |
|---|---|---|
| journal replay | journalreplayer.cc, chickadeefs.hh | `JournalFormat`, `JournalScan`, `JournalTransactions`, `JournalReplay`, `JournalMarks`, `JournalOrder`, `Journal` |
| page-table iterators | k-vmiter.cc, k-vmiter.hh | `PageTable`, `VmMotion`, `VmUpdate`, `VmIter`, `PtTree`, `PtIter` |
| buddy allocator | k-alloc.cc | `Dyadic`, `BuddyTiling`, `FreeLists`, `BuddyInit`, `Buddy` |
| memory range set | k-memrange.hh | `MemRange` |
| file block map | k-chkfsiter.cc, k-chkfs.cc | `FileMap`, `FileIter` |
| buffer cache | k-chkfs.cc | `CacheState`, `BufCache` |
| scheduling, wait queues, pipes | k-cpu.cc, kernel.hh, k-wait.hh, k-vfs.cc | `Sched`, `PipeProtocol`, `PipeInvariant`, `PipeRuns`, `BoundedBuffer` |
| CRC32C | crc32c.cc | `Crc32c` |
| shared definitions | | `Collections`, `Arithmetic` |

Code that updates objects in place is modelled by classes and methods with loops, each proved
against a specification on values (`Pruned`, `Walk`, `LowNodes`, `Lookup`, `Latest`,
`Transferred`, `Reference`, ...); what the system promises is then proved about those
specifications. Scheduling and blocking are modelled as a state machine over interleaved steps.

## What the main results say

* **Journal.** `analyze` answers true exactly for replayable journals. The pruned list of writes
  that `run` performs leaves any disk as the naive replay of every reference in sequence order
  does, writes no block twice, and may be interrupted and started over. Data runs of accepted
  metablocks never overlap, although they wrap around.
* **Page tables.** An iterator moved about by `find`, `next` and `step` is where a new one would
  be. `map` is a functional update of the translation wherever tables are not shared. `ptiter`
  visits every page-table page below the low half once, children first, and never reads one it has
  visited.
* **Buddy allocator.** After any sequence of calls from the initial state the free blocks are the
  maximal aligned ones, so that the blocks in use determine the whole page array.
* **Pipes.** In every reachable interleaving a sleeper whose condition has become true has a
  wake-up on its way, run queues are sound, and bytes are neither lost, duplicated nor reordered.
* **File map and cache.** `map` is a functional update of the flat block map, with exact
  conditions; over any sequence of requests a block handed out holds what was written to it last.
* **CRC32C.** The four-table computation equals the bit-serial definition.

Five promises turn out not to hold without a condition; the model keeps the code's behaviour and
states the condition in full.

* The buddy of a block can lie outside the page array (`Dyadic.BuddyEscapesAt30MB`); it never does
  exactly if the number of pages is a multiple of twice the number in a largest block, 32 MB
  (`Dyadic.BuddiesInRange`).
* `kalloc` passes the size through an `int`: a request of 4 GB or more can be handed a block that
  is too small (`Buddy.TruncatedRequest`); a block handed out holds the request exactly if the
  size is below 2^32 (`Buddy.BlockHoldsRequest`).
* `check_range` on a range whose last region ends at the top of the address space wraps to
  address 0: it answers false if any address below the end of the range lacks the permissions, and
  otherwise never ends (`VmMotion.CheckRangeAtTop`, `VmMotion.CheckRangeTopExample`). A range whose
  end exceeds the address space is not read at all (`VmMotion.CheckRangeAnswers`).
* Metablocks are listed by plain comparison of sequence numbers that wrap around: in a
  log of any number of transactions, a committed one is refused exactly if the numbers wrap
  between its start and its last metablock (`JournalOrder.ContainedUnlessWrapped`,
  `JournalOrder.TwoBlocksReplayable`).
* `chkfs_fileiter::map`, called after `find` could not load an existing pointer block, replaces it
  by an empty one (`FileIter.UpdateExact`, `FileIter.LosesMapping`), and may do so even if it fails
  (`FileIter.FailureExact`, `FileIter.LosesOnFailure`).

One more is a subtlety rather than a fault: the scan sets the error flag inside rejected
metablocks, which a later metablock may then accept as data (`JournalScan.DataUnaltered`).

## Model

| member | source | states |
|---|---|---|
| `JournalFormat.WindowIsEnumerated` | journalreplayer.cc:111-128 | with 16-bit wrap-around, the tids passing the window test are exactly those the loop over the committable region enumerates |
| `JournalScan.ScanKeeps` | journalreplayer.cc:147-202 | after any prefix of the scan: listed metablocks are unaltered, acceptable, distinct and in sequence order; other blocks differ from the original by the error flag at most |
| `JournalScan.ScanAllWell` | journalreplayer.cc:42-50 | the same after the whole scan |
| `JournalScan.DataIsNotMeta` | journalreplayer.cc:204-226 | no data block of a listed metablock is itself a listed metablock |
| `JournalScan.LayoutDisjoint` | journalreplayer.cc:147-226 | if the scan succeeds, the circular data runs of all listed metablocks occupy pairwise different journal blocks |
| `JournalScan.DataUnaltered` | journalreplayer.cc:160-222 | a data block holds what the journal held if and only if it did not look like a metablock; otherwise it precedes its metablock and differs by the error flag |
| `JournalScan.AlteredDataExample` | journalreplayer.cc:160-222 | a journal in which such an alteration happens |
| `JournalTransactions.ReachedNext` | journalreplayer.cc:231-275 | one accepted turn of `analyze_tid` keeps the progress described for the metablocks seen |
| `JournalTransactions.NoSpan` | journalreplayer.cc:231-275 | a turn that reports an error means the transaction is not contained in the log |
| `JournalTransactions.EndOfLog` | journalreplayer.cc:277-281 | at the end, contained if and only if a commit was seen |
| `JournalTransactions.ReplayedIsContained` | journalreplayer.cc:106-117 | atomicity: each replayed tid's data-carrying metablocks lie in one gap-free sequence run from its only start block to a block that commits it |
| `JournalTransactions.StrictSequence` | journalreplayer.cc:59-104 | listed sequence numbers increase strictly |
| `JournalOrder.ListedTurned` | journalreplayer.cc:181-192 | metablocks numbered consecutively modulo 2^16 are listed as written, except that those from the wrap on come first |
| `JournalOrder.ListedInOrderWritten` | journalreplayer.cc:181-192 | metablocks numbered consecutively modulo 2^16 are listed in the order written if and only if the numbers do not wrap around |
| `JournalOrder.ContainedUnlessWrapped` | journalreplayer.cc:228-281 | in a log of any number of transactions, one that is contained in the order written passes the transaction check if and only if the sequence numbers do not wrap around between its start and its last metablock |
| `JournalOrder.TwoBlocksReplayable` | journalreplayer.cc:183-246 | the committed two-block transaction numbered from `first` on is replayable if and only if `first` is not 65535 |
| `JournalReplay.PrunedIsNaive` | journalreplayer.cc:119-128 | applying only the last write to each block, unless cancelled later, gives the same disk as applying every reference in order |
| `JournalReplay.PrunedWritesOnce` | journalreplayer.cc:119-128 | the pruned writes hit no block twice |
| `JournalReplay.CrashIdempotent` | journalreplayer.cc:315-344 | stopping after any number of writes and replaying in full gives the same disk |
| `JournalMarks.MarkedStep` | journalreplayer.cc:283-292 | passing a reference already marked keeps the description of the marks |
| `JournalMarks.UnmarkedStep` | journalreplayer.cc:283-309 | marking all earlier references to the same block keeps the description of the marks |
| `JournalMarks.RunStep` | journalreplayer.cc:323-339 | unescaping one data block in place disturbs no metablock and no data block still to be written |
| `JournalMarks.RunDelta` | journalreplayer.cc:323-339 | the delta that `run` counts leads to exactly the data block that the analysis checked |
| `JournalMarks.RunReads` | journalreplayer.cc:323-339 | what `run` finds at a reference decides exactly whether the pruned list has a write there, and which |
| `JournalMarks.RunEffect` | journalreplayer.cc:324-340 | one turn of the inner loop writes what the pruned list has for the reference, and keeps all that is still to be written |
| `Journal.JournalReplayer.AnalyzeBlockReference` | journalreplayer.cc:204-226 | the error flag, the delta and `ok_` after one reference |
| `Journal.JournalReplayer.AnalyzeBlock` | journalreplayer.cc:147-202 | one block of the scan: error flag, insertion in sequence order, overlong runs |
| `Journal.JournalReplayer.CheckMetablocks` | journalreplayer.cc:59-104 | `ok_` stays true exactly if every link of the chain satisfies the metablock rules |
| `Journal.JournalReplayer.AnalyzeTid` | journalreplayer.cc:228-281 | `ok_` stays true exactly if the transaction is contained in the log |
| `Journal.JournalReplayer.MarkOverwrittenBlock` | journalreplayer.cc:294-309 | marks exactly the references to the block before the given position |
| `Journal.JournalReplayer.MarkSuperseded` | journalreplayer.cc:119-128 | in the end a reference is marked exactly if it was, or a later replayed reference is to the same block |
| `Journal.JournalReplayer.Analyze` | journalreplayer.cc:33-131 | true if and only if the scanned journal is replayable; then the marks are right |
| `Journal.JournalReplayer.Run` | journalreplayer.cc:315-344 | performs exactly the pruned writes, with unescaped data |
| `Journal.ReplayEquivalence` | journalreplayer.cc:315-344 | for every disk and every interruption, the writes of `run` give the naive replay, and hit no block twice |
| `Journal.ReplayJournal` | journalreplayer.cc:33-344 | `analyze` then `run` on any journal: replayed exactly if replayable, and then every disk, interrupted or not, becomes the naive replay |
| `PageTable.SharedWalk` | k-vmiter.cc:13-24 | addresses that agree above a level share their walk down to it |
| `PageTable.WalkResumes` | k-vmiter.cc:3-24 | a walk may be resumed wherever it passes |
| `PageTable.SameRegion` | k-vmiter.cc:3-24 | addresses in the region where a walk ends share walk and entry |
| `VmMotion.StepSpan` | k-vmiter.hh:117-119 | up to `last_va`, addresses translate alike, with the offset added |
| `VmMotion.NextSkipsNothing` | k-vmiter.cc:26-32 | `next` passes over the current page and unmapped addresses only |
| `VmMotion.CheckRangeClear` | k-vmiter.cc:61-69 | if the last region does not end at the top of the address space, `check_range` ends, with true if and only if every byte of the range has the permissions |
| `VmMotion.CheckRangeAtTop` | k-vmiter.cc:61-69 | if it does, the answer is never true; it is false if and only if some address from 0 up to the end of the range lacks the permissions, and otherwise the loop never ends |
| `VmMotion.CheckRangeAnswers` | k-vmiter.cc:61-69 | for every start and size below 2^64, exactly when the answer is true, when it is false, and when there is none; if the end wraps it is true |
| `VmMotion.CheckRangeTopExample` | k-vmiter.cc:61-69 | a fully permitted range on which the loop never ends |
| `VmUpdate.GrowTranslates` | k-vmiter.cc:43-53 | linking a new empty table, for any address whose tables are not shared, changes no translation |
| `VmUpdate.GrowKeepsTree` | k-vmiter.cc:43-53 | and leaves unshared whatever was |
| `VmUpdate.LeafTranslates` | k-vmiter.cc:55-57 | a last-level entry of an address whose tables are not shared is what its page translates through, and no other page |
| `VmUpdate.LeafKeepsTree` | k-vmiter.cc:55-57 | writing it leaves unshared whatever was |
| `VmIter.VmIter.Down` | k-vmiter.cc:3-11 | completes the walk from where the iterator stands |
| `VmIter.VmIter.RealFind` | k-vmiter.cc:13-24 | afterwards level, entry and permissions are those of a fresh walk of the address |
| `VmIter.VmIter.Read` | k-vmiter.hh:123-145 | `pa` and `perm` give the translation of the current address |
| `VmIter.VmIter.Next` | k-vmiter.cc:26-32 | moves to the end of the region that `NextSkipsNothing` speaks of |
| `VmIter.VmIter.Step` | k-vmiter.hh:168-170 | moves to `last_va` |
| `VmIter.VmIter.CheckRange` | k-vmiter.cc:61-69 | the loop, cut off after any number of turns, on every range; clear of the top region as many turns as bytes suffice, and the answer is true if and only if every byte has the permissions; where the iterator goes round for ever no number of turns suffices |
| `VmIter.VmIter.Map` | k-vmiter.cc:34-59 | for any address whose tables are not shared: on success the page translates to `pa` with the requested bits and every other address as before; on allocation failure no translation changes; fails exactly if pages run out; what was unshared stays so |
| `VmIter.RequestedBits` | k-vmiter.cc:41 | the requested P, W and U bits are those in effect after `map` |
| `PtTree.EntriesProper` | k-vmiter.cc:79-109 | the depth-first list holds page-table pages met on walks, in order, children first |
| `PtTree.EntriesComplete` | k-vmiter.cc:79-109 | and holds every one of the region |
| `PtTree.LowNodesExact` | k-vmiter.cc:72-109 | the low list is exactly the page-table pages reachable from the low half |
| `PtTree.ChildrenFirst` | k-vmiter.hh:67-76 | each page-table page comes before its parent |
| `PtTree.TableTellsNode` | k-vmiter.cc:72-109 | an unshared page-table page is met in one place only, and is not the root |
| `PtTree.RestDescends` | k-vmiter.cc:82-91 | going down a level leaves the same pages to visit |
| `PtTree.RestAdvances` | k-vmiter.cc:103-106 | so does moving on within a table |
| `PtIter.ReadsUnvisited` | k-vmiter.cc:79-109 | every entry read is in the root or in a table still to be visited |
| `PtIter.PtIter.Down` | k-vmiter.cc:79-109 | ends, at the entry leading to the first page still to be visited, or at the end |
| `PtIter.LowComesFirst` | k-vmiter.hh:195-203 | low pages come first, each once |
| `PtIter.FreeLowTables` | k-vmiter.hh:67-76 | the freeing loop, with each page overwritten once visited, yields the low list exactly, without repetition, and ends |
| `Dyadic.BuddyFacts` | k-alloc.cc:214-222 | two buddies are adjacent, aligned, and make up one block of the next order |
| `Dyadic.BuddyPindexIsBuddy` | k-alloc.cc:214-222 | `buddy_pindex` computes the buddy |
| `Dyadic.BuddiesInRange` | k-alloc.cc:259-261 | every block's buddy lies in the page array if and only if the number of pages is a multiple of twice the number in a largest block (32 MB) |
| `Dyadic.BuddyEscapesAt30MB` | k-alloc.cc:259-261 | with 30 MB it does not |
| `BuddyTiling.Saturated` | k-alloc.cc:257-279 | in a canonical tiling, an aligned region of free pages lies in one free block |
| `BuddyTiling.FreeBlocksAreMaximal` | k-alloc.cc:257-279 | a free block is exactly a maximal aligned region of free pages |
| `BuddyTiling.SameFreePagesSameBlocks` | k-alloc.cc:257-279 | the set of free pages fixes the free blocks |
| `BuddyTiling.SplitTiling` | k-alloc.cc:188-203 | splitting a block keeps the tiling and the free pages |
| `BuddyTiling.MergeTiling` | k-alloc.cc:268-276 | merging buddies keeps the tiling and the free pages |
| `FreeLists.SplitStep` | k-alloc.cc:185-204 | the split loop keeps tiling, lists and the set of blocks in use |
| `FreeLists.TakeStep` | k-alloc.cc:206-209 | taking the front block |
| `FreeLists.MergeStep` | k-alloc.cc:257-277 | a coalescing step |
| `FreeLists.ReturnStep` | k-alloc.cc:279 | when no merge is possible, putting the block back restores canonical form |
| `FreeLists.UsedDeterminesPages` | k-alloc.cc:163-284 | the blocks in use determine the whole page array |
| `BuddyInit.GreedyIsCanonical` | k-alloc.cc:114-142 | cutting ranges greedily leaves no two free buddies |
| `Buddy.FindMaxOrder` | k-alloc.cc:77-84 | the largest order that fits and is aligned |
| `Buddy.RequestOrderIsLeast` | k-alloc.cc:37-44 | for sizes below 2^32, the order of a request is the least whose block holds it |
| `Buddy.BlockHoldsRequest` | k-alloc.cc:37-44 | a block that can be handed out holds the request if and only if its size is below 2^32 |
| `Buddy.TruncatedRequest` | k-alloc.cc:163-167 | a request for 4 GB and one byte is taken for a single page |
| `Buddy.Allocator.constructor` | k-alloc.cc:110-144 | a consistent, canonical state whose free pages are exactly the available ones |
| `Buddy.Allocator.MinLargerOrder` | k-alloc.cc:149-157 | the least order from the given one on with a free block, or -1 |
| `Buddy.Allocator.Kalloc` | k-alloc.cc:163-210 | for every size: null exactly for size 0 or when no free block of the requested order or larger exists; else an aligned block of that order taken from free pages, everything else unchanged |
| `Buddy.Allocator.Kfree` | k-alloc.cc:228-284 | frees exactly the block; a pointer heading no block in use is ignored; the state stays canonical |
| `Buddy.Allocator.Serve` | k-alloc.cc:163-284 | what a request comes to, and what that does to the blocks in use |
| `Buddy.RunRestores` | k-alloc.cc:163-284 | in a run, states with the same blocks in use have the same page array |
| `Buddy.RunRequests` | k-alloc.cc:110-284 | any run of `kalloc` and `kfree` from the state `init_kalloc` builds: every state is tiled and canonical, its blocks in use are those the calls account for, and it is determined by them |
| `MemRange.SplitKeeps` | k-memrange.hh:110-117 | splitting a range changes no address's type |
| `MemRange.CollapseAssigns` | k-memrange.hh:167-173 | collapsing ranges gives the new type to exactly their addresses |
| `MemRange.CollapseNormal` | k-memrange.hh:125-173 | and leaves no equal-typed neighbours |
| `MemRange.MemRangeSet.Find` | k-memrange.hh:96-102 | the range that holds the address, or the end |
| `MemRange.MemRangeSet.Type` | k-memrange.hh:104-108 | the type of an address |
| `MemRange.MemRangeSet.Split` | k-memrange.hh:110-117 | in place, inserts a boundary |
| `MemRange.MemRangeSet.Set` | k-memrange.hh:119-175 | true exactly if the cuts needed fit; then a pointwise assignment in normal form, else unchanged |
| `FileMap.IclassFacts` | k-chkfsiter.cc:130-133 | the two ways of indexing pointer blocks agree |
| `FileMap.StoreData` | k-chkfsiter.cc:113-118 | storing a data pointer changes one slot and keeps pointers distinct and off the free bitmap |
| `FileMap.LinkKeeps` | k-chkfsiter.cc:84-111 | linking a new pointer block hides what its slot led to and nothing else; pointers stay distinct and off the free bitmap |
| `FileIter.Volume.AllocateBlock` | k-chkfs.cc:599-631 | the first free block, no longer free; none exactly if none is free |
| `FileIter.Volume.LinkBlock` | k-chkfsiter.cc:163-182 | succeeds exactly if a block is free and can be loaded; on failure the file is unchanged |
| `FileIter.DataBlockNumber` | k-chkfs.cc:501-554 | `get_data_block` returns the block that the flat map has, exactly if there is one and every load needed succeeds |
| `FileIter.FileIter.Find` | k-chkfsiter.cc:6-47 | the loaded entries are those of the offset; settled if all loads succeed |
| `FileIter.FileIter.BlockNum` | k-chkfsiter.hh:99-101 | the flat map at the current offset |
| `FileIter.FileIter.Map` | k-chkfsiter.cc:71-121 | for every block number: the whole flat map after success; after failure unchanged, except exactly if a doubly indirect block that was not loaded could be replaced, when everything from the first doubly indirect index on is lost; succeeds exactly if the pointer blocks lacking can be allocated and loaded; for 0 or a newly allocated number pointers stay distinct and off the free bitmap |
| `FileIter.SettledUpdate` | k-chkfsiter.cc:71-121 | from a settled iterator, success is a functional update |
| `FileIter.UpdateExact` | k-chkfsiter.cc:71-121 | other indexes are unchanged if and only if those behind pointer blocks not loaded were empty |
| `FileIter.LosesMapping` | k-chkfsiter.cc:30-40 | a file and a failed load for which another index is lost |
| `FileIter.FailureExact` | k-chkfsiter.cc:84-103 | a failed `map` leaves the flat map alone if and only if it linked no new doubly indirect block, or nothing was mapped from the first doubly indirect index on |
| `FileIter.LosesOnFailure` | k-chkfsiter.cc:84-103 | a file with one free block for which a failed `map` loses an index |
| `CacheState.EvictKeeps` | k-chkfs.cc:46-75 | evicting a clean, unreferenced slot loses nothing |
| `CacheState.WriteBackKeeps` | k-chkfs.cc:342-350 | writing a dirty slot back keeps the contents of every block |
| `CacheState.DeliverKeeps` | k-chkfs.cc:229-248 | taking delivery of a block, cleaned or not, keeps contents |
| `CacheState.WriteKeeps` | k-chkfs.cc:299-329 | a write changes the contents of its block and of no other |
| `CacheState.CleanMeansOnDisk` | k-chkfs.cc:337-350 | with nothing dirty the disk agrees with every block |
| `BufCache.BufCache.GetSlot` | k-chkfs.cc:24-88 | the slot of the block, found or made, moved to the back; -1 only if every slot is referenced or waiting for the disk; referenced slots and contents are kept |
| `BufCache.BufCache.EvictUsed` | k-chkfs.cc:46-58 | evicts the least recently used slot that is neither referenced nor dirty |
| `BufCache.BufCache.EvictPrefetched` | k-chkfs.cc:60-75 | evicts a delivered, clean block from the prefetch list, which is never referenced |
| `BufCache.BufCache.FindEmpty` | k-chkfs.cc:35-44 | the first empty slot; otherwise no unreferenced slot is left dirty; only dirty flags change |
| `BufCache.BufCache.PrefetchOne` | k-chkfs.cc:190-215 | the block ends up cached, or every slot is taken; contents and references are kept |
| `BufCache.BufCache.GetDiskEntry` | k-chkfs.cc:157-253 | one more reference to a slot holding the block's latest contents; all other referenced slots keep what they hold |
| `BufCache.BufCache.PutEntry` | k-chkfs.cc:284-293 | drops one reference |
| `BufCache.BufCache.WriteEntry` | k-chkfs.cc:299-329 | the new contents, and the slot is dirty |
| `BufCache.BufCache.Sync` | k-chkfs.cc:337-371 | the disk holds the contents of every block; with `drop` only referenced slots remain |
| `BufCache.RunRequests` | k-chkfs.cc:24-371 | coherence: over any sequence of requests each block handed out holds what was written last, and each sync leaves the disk so; a block is refused only if it is in no slot and no slot can be freed; a write to a loaded, referenced slot takes effect |
| `Sched.RunQueueSafety` | k-cpu.cc:105-183 | a task is in at most one run queue, once, that of its CPU, never while current; a started runnable task is current or queued |
| `Sched.WakeKeeps` | kernel.hh:504-511 | `wake` keeps the invariant, and the assertion in `enqueue` holds |
| `Sched.ScheduleKeeps` | k-cpu.cc:148-183 | so does every turn of the scheduler loop |
| `Sched.PutBackAssertion` | k-cpu.cc:160-165 | the assertion in `enqueue` holds when a task is put back |
| `Sched.IdleOnlyIfEmpty` | k-cpu.cc:173-182 | the idle task is fallen back on exactly if nothing else can run |
| `Sched.QueueAdvances` | k-cpu.cc:159-177 | first in, first out: each switch of its CPU moves a queued task up one place, and the first is taken |
| `Sched.QueueKept` | k-cpu.cc:105-183 | no other step changes the place of a queued task |
| `Sched.PutBackLast` | k-cpu.cc:160-165 | the task given up, if runnable, takes the last place |
| `PipeInvariant.StepKeeps` | k-wait.hh:71-204 | every step of every task and CPU keeps the invariant |
| `PipeInvariant.NobodyLeft` | k-wait.hh:198-204 | when `wake_all` finds its queue empty, nobody blocked waits on it |
| `PipeRuns.RunKeeps` | k-wait.hh:71-204 | every run keeps the invariant |
| `PipeRuns.NoLostWakeups` | k-vfs.cc:119-204 | in every reachable state, a task that saw its predicate false and is blocked is linked on its queue or about to be woken; if its predicate holds now, some task has yet to finish `wake_all` there, and is current or queued |
| `PipeRuns.QuiescentSleepersWait` | k-vfs.cc:127-176 | with no `wake_all` outstanding, sleepers' predicates are false |
| `PipeRuns.ReachableRunQueues` | k-cpu.cc:105-183 | run-queue safety in every reachable state |
| `PipeRuns.LockHoldersExecute` | k-cpu.cc:135 | a task off its CPU holds no spinlock |
| `PipeRuns.LocksExclude` | k-vfs.cc:119-204 | two tasks never hold the same lock |
| `PipeRuns.LockProgress` | k-wait.hh:71-204 | a task holding a lock can take its next step, or the holder of the wait-queue lock it waits for can |
| `PipeRuns.PipeConservation` | k-vfs.cc:119-204 | bytes delivered followed by bytes buffered are the bytes accepted; the buffer never exceeds its capacity; no call returns -1 |
| `PipeRuns.ReportedResult` | k-vfs.cc:134-204 | end of file exactly when the writer is closed and every accepted byte was delivered; a broken pipe exactly when the reader is closed; else a count, zero only for a request of zero |
| `PipeRuns.ExampleSleeps` | k-vfs.cc:119-132 | a reachable state in which a reader sleeps |
| `BoundedBuffer.RingFront` | k-vfs.cc:139-151 | a chunk read from the ring is a prefix of its contents |
| `BoundedBuffer.RingBack` | k-vfs.cc:183-195 | a chunk written extends its contents |
| `BoundedBuffer.BBuffer.Read` | k-vfs.cc:134-159 | the copying loop transfers what the protocol says, into the caller's buffer |
| `BoundedBuffer.BBuffer.Write` | k-vfs.cc:178-203 | likewise for writing |
| `Crc32c.LookupIsShift` | crc32c.cc:171-195 | entry of table `k` for a byte is the register after `8(k + 1)` clocks |
| `Crc32c.LookupLinear` | crc32c.cc:171-195 | tables are linear |
| `Crc32c.LookupTopBit` | crc32c.cc:50 | entry 128 of table 0 is the polynomial |
| `Crc32c.TableByteStep` | crc32c.cc:175-178 | one byte step with table 0 is eight bit-serial steps |
| `Crc32c.TableWordStep` | crc32c.cc:180-187 | one four-table step is four byte steps |
| `Crc32c.Compute` | crc32c.cc:171-195 | equals the bit-serial CRC32C for every buffer, length and alignment |
| `Crc32c.Chaining` | crc32c.cc:171-195 | chaining over a split buffer is one call over the whole |

## Left out

Parts of the repository:

- boot loader, interrupt controllers, PCI, disk registers, console, keyboard: device access.
- assembly for saving and restoring registers: a task's saved state is a flag, yield and resume are steps.
- `process_exit`, `sys_waitpid` and the `exiting_` branch of `block_until`: waiting is proved for pipes only.
- the user-level allocator, user programs, sanitizers and the memory viewer.
- k-list.hh as linked nodes: lists are sequences.
- `vmiter::kfree_page`, `ptiter::kfree_ptp` and `chkfs_fileiter::next`: they add no new kind of state.

What the model does not capture, part by part:

- Journal: checksums are abstract functions; references beyond the last slot of a metablock read an arbitrary `stray` value; target blocks lie outside the journal; the host is little-endian; error and message callbacks are not modelled. References already marked overwritten are ignored by `analyze` and `run` alike, and so by the naive replay. Lines 236-242 of journalreplayer.cc have no effect on the result.
- Page tables: memory is a total function from frames to words; virtual addresses are numbers below 2^64. Unmapping above the last level has no effect, even on a large page, as in the code.
- `VmIter.VmIter.CheckRange`: takes the number of turns after which to stop, since at the top of the address space the loop need not end; `VmMotion.CheckRangeAnswers` says when it does, and with what.
- `Buddy.Allocator.Kfree`: a buddy beyond the page array is never merged with, where the code reads past the array; the clearing of freed memory is not modelled.
- `Buddy.Allocator.Kalloc`: the conversion of sizes to `int` is taken to wrap, also at exactly 2^31, where the code's subtraction overflows.
- `Buddy.Allocator.constructor`: initial ranges are page-aligned with a boundary at the end of memory, as the kernel sets them up.
- `FileIter.FileIter.Find`: offsets at or beyond the size limit are not modelled, since the code then reads past the doubly indirect block.
- File map: block 0, the superblock, is never free; one inode.
- `BufCache.BufCache.GetDiskEntry`: memory and disk commands are at hand; one kernel task at a time; reads in flight complete at arbitrary times.
- `BufCache.BufCache.WriteEntry`: a write reference is taken, used and released in one step, so that there is never one to wait for.
- Pipes: `wake_all`, `prepare` and `clear` are interleaved lock by lock, but each step of the scheduler under a run-queue lock, and each copy under a pipe's lock, is one step. Closing an end while the same end is being used is allowed.
- `PipeInvariant.StepKeeps`: describes the protocol on values rather than by objects updated in place, since its subject is the interleaving.
- CRC32C: the tables are given by their recurrence from the polynomial 0x82F63B78 of section 12.1 of RFC 3720, in place of the 1024 literals.
