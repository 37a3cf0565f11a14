# CXLMC: a verified model

CXLMC is a model checker for programs that share crash-prone CXL memory. It runs such a program
over and over, decides at each point of choice which process crashes and which stores survive,
and backtracks until every combination has been seen. This project models the parts of it that
must be right for its answers to mean anything, and proves them right, or says exactly when they
are not. It consists of six models:

1. **The crash-persistency memory.** Each thread has a store buffer and a flush buffer. A store
   that leaves its buffer gets a sequence number and is appended to the list of its 8-byte slot.
   Per process and cache line there is an interval `[begin, end)`: what is known about the time
   of the last store that persisted. A load walks its slot from the newest store to the oldest,
   fills its bytes, and decides on the way whether a writer crashes and whether a store of a
   crashed process persisted. `ReadAssembly`, `CrashLoads` and `LoadTheorems` deal with one load,
   `Memory` and `Execution` are the code in its own form (classes, loops, updates in place), and
   `Runs`, `RunExactness`, `LoadedBytes`, `FlushGuarantee`, `FlushTimes`, `StoreOrder` and
   `FlushAfterLoss` deal with whole runs. The simple semantics it is measured against: each crashed
   process has, for each line, one cut, and of its stores exactly those up to the cut exist
   (`NewestByte` and `PlainBytes`).
2. **The backtracking search.** A stack of choices with two marks replays a prefix, takes the next
   choice at the mark and forgets the rest. `DecisionTree` is the independent meaning (the list of
   leaves of a tree), `NodeStacks` the code, `Exploration` and `SavedStacks` the theorems.
3. **The scheduler with mutexes, joins and condition variables**, in steps from one yield to the
   next: `SchedulerState`, `SchedulerSafety`, `SchedulerTheorems`, `WakeUps`, `LockLevels`, and the code
   in `Schedulers`.
4. **The bins of the allocator**: bitwise tries whose nodes lead rings of chunks of one size, and
   rings of small chunks through a sentinel. `TreeIndex`, `TrieBits` and `BitMaps` are the
   arithmetic, `Trie`, `Rings`, `TreeBins`, `TreeUnlink` and `SmallBins` the structure, `BestFit` the
   search, and `MallocStates` the code.
5. **The allocator itself**, over one fixed segment and with the alignment of 8 that this build has
   (`src/allocators/malloc.c:614-615`): `HeapShape` (boundary tags), `HeapBins` (where
   the free chunks are kept), `HeapServe`, `HeapDispose` and `HeapResize` (what the operations come
   to), `HeapChoice` (which chunk serves a request), `Alignments`, and `Spaces`, the code of malloc,
   free, realloc and memalign.
6. **The chained hash table**, in `HashTables`.

Where the code changes state, so does the model: a class with the code's fields, and methods that
are proved against a specification on values (`Value()`, `Lay()`, `Kept()`, `contents`). The
lemmas are about those specifications.

## What the code does differently from what it is meant to do

- A flush raises `begin` for every process without a look at `end` (`src/model/model.cc:104-111`).
  If a load has already decided that a store did not persist, a later flush of the line brings it
  back: `FlushAfterLoss.UnsafeFlushRevives` for every such flush, and `FlushAfterLoss.NoCutExplains`
  for a run of eight steps whose two loads no cut explains. `Runs.FlushSafeIff` is the exact
  condition a caller could test before the flush, and the theorems about whole runs are about runs
  whose flushes meet it.
- The copy constructor of an action leaves out `earliest_effect` (`include/action.h:67`), and the
  number of an sfence is always 0 (`src/model/thread_memory.cc:66`). So the effect time of a
  clflushopt is the last store or clflush of its own thread on the line (`FlushTimes.EffectExact`). The
  flush guarantee (`FlushGuarantee.FlushedForGood`) holds nevertheless and is proved of that time.
- Sequence numbers begin with 0 (`include/model.h:46`, `include/model.h:63`), and so does `begin`
  where nothing is known (`include/cacheline.h:14`). So the first store an execution evicts, if no
  clflush took the number 0 before, counts as persisted from the start. `LoadTheorems.LostIff` is exact about it, and `FlushTimes.JustEvicted`
  says that this is the only store that counts so when it is evicted.
- `get_overlaps` takes too many bytes from a store that begins before the load and ends inside it
  (`include/thread_memory.h:20-22`). `ReadAssembly.ReachedIsCovered` says that it takes exactly the
  covered bytes if and only if the store does not hang over in that way, and
  `ReadAssembly.AlignedNeverHangsOver` that natural alignment rules it out.
- `save_state` opens the file without truncating it (`src/model/nodestack.cc:110`), and writes 16
  bits of the mark and 8 bits of each choice. `SavedStacks.RoundTrip` is the exact condition for a
  saved stack to be read back as it was.
- `compute_tree_index` cuts the shifted size to 32 bits (`src/allocators/malloc.c:2827`).
  `TreeIndex.RightBinIff` says for exactly which sizes the bin is the right one: all below 2^40, and
  above that those whose cut size is still large enough.
- `full_reset` makes the mark the search has left the place to diverge at, after its node is deleted
  (`src/model/nodestack.cc:154-160`, `src/model/nodestack.cc:184`). So `set_state` leaves such a mark
  on a stack that has been used, unless the file has a mark of its own (`SavedStacks.LoadState`).
- The iterator that `erase` returns remembers the erased node as the one before
  (`include/hash_table.h:57`, `include/hash_table.h:229`), unless it goes on to another bucket;
  `HashTables.HashTable.Erase` is exact about it.
- `ATOMIC_WAIT` on a recursive mutex that is held more than once only counts down and returns
  (`src/model/executor.cc:124-127`). The model does the same.

## Model

| member | source | states |
|---|---|---|
| ReadAssembly.GetOverlaps | include/thread_memory.h:7-32 | The loop, early exit included, comes to `Fill`; the count of empty bytes stays right, and it reports a change exactly if there is one |
| ReadAssembly.GetOverlapsSaveOld | include/thread_memory.h:34-60 | As above, and it hands back a separate copy of the sources from before exactly if they changed |
| ReadAssembly.ReachedIsCovered | include/thread_memory.h:20-22 | The bytes taken from a store are exactly those it covers if and only if it does not begin before the load and end inside it |
| ReadAssembly.AlignedNeverHangsOver | include/thread_memory.h:20-22 | Naturally aligned accesses of 1, 2, 4 or 8 bytes are nested or apart, so no byte is taken from the wrong place |
| ReadAssembly.GetReadValue | include/thread_memory.h:62-74 | Byte `i` of the assembled value is the byte its source stored at that address, or 0 without a source, little-endian |
| ReadAssembly.BytesDetermine | include/thread_memory.h:62-74 | Those bytes determine the value |
| CrashLoads.ReachProgress | src/model/model.cc:164-275 | A load only fills empty bytes, only crashes processes, only narrows intervals and keeps them non-empty, and touches only its own line |
| CrashLoads.InitialFills | src/model/model.cc:189-274 | The entry for the initial value provides every byte still missing, so the walk never falls off the list and the assertion at its end is never met |
| CrashLoads.SkippedByte | src/model/model.cc:230-238 | Passing over a store that is followed by an equivalent older one does not change the newest byte, for any cut |
| CrashLoads.ReachSound | src/model/model.cc:189-271 | From any point of the walk: each byte of an outcome is the newest one that is live, or at or below any cut the outcome still admits |
| CrashLoads.CrashedExact | src/model/model.cc:224-254 | From any point of the walk, with the process crashed: each admitted cut is admitted by exactly one outcome, every other cut by none |
| CrashLoads.UncrashedExact | src/model/model.cc:195-223 | From any point of the walk, with nothing crashed yet: each admitted cut of a process that may crash is accounted for once, by the outcome that crashes it there or by the one that lets it run on past all it has read |
| LoadTheorems.LoadSound | src/model/model.cc:164-275 | Every outcome of a load returns, byte by byte, what the one-cut semantics returns for each cut the outcome leaves open |
| LoadTheorems.LoadNarrows | src/model/model.cc:189-271 | No outcome widens or empties an interval, forgets a crash, crashes the reader or a completed process, or touches another line |
| LoadTheorems.CrashedLoadExact | src/model/model.cc:224-254 | With backtracking on, the outcomes of a load partition the cuts of a crashed process: each cut in the interval lies in exactly one outcome's final interval, a cut outside it in none; with or without the skip |
| LoadTheorems.CrashedLoadOutcome | src/model/model.cc:224-254 | For each such cut that one outcome exists and returns the bytes of the cut |
| LoadTheorems.UncrashedLoadExact | src/model/model.cc:195-254 | The same for a load that may itself crash the writer: for each cut there is an outcome that admits it and returns its bytes, and at most one that has the process crashed |
| LoadTheorems.OneUncrashed | src/model/model.cc:195-223 | A load that starts without a crash has an outcome without one |
| LoadTheorems.UncrashedOnce | src/model/model.cc:195-223 | And exactly one does |
| LoadTheorems.SkipAgrees | src/model/model.cc:230-238 | For each cut left open, the outcomes with and without the equivalent-store skip return the same bytes |
| LoadTheorems.SkipSameValues | src/model/model.cc:230-238 | Every value a load can return without the skip it can return with it, and the other way round, with no more crashes |
| LoadTheorems.LoadAgain | src/model/model.cc:164-275 | Repeating a load at once makes no decision, returns the same bytes from the same stores and changes nothing, even if the first one crashed a writer midway |
| LoadTheorems.EndSource | src/model/model.cc:170-174 | What the own buffer provided stays, and every other byte of a finished load is read from a store of the slot |
| LoadTheorems.LostIff | include/model.h:46 | Of a line of which nothing is known, a store of a crashed process can be found lost if and only if its number is not 0 |
| MemoryState.RaiseEffect | src/model/model.cc:104-111 | Raising `begin` process by process comes to the larger of the two times for each process of that line, with `end` and all other lines as before |
| MemoryState.FlushLeaves | src/model/model.cc:92-124 | A flush changes the clock and the intervals of its line, and crashes at most the one live writer of the newest store it is the first to flush |
| MemoryState.LeastIs | src/model/model.cc:102-111 | A number is above the least `begin` a flush raises exactly if it is above one of those it raises, or above the time of the flush |
| MemoryState.CandidateIs | src/model/model.cc:112-123 | The reverse search finds a process exactly if it wrote the newest store of a live process and neither that store nor a newer one was flushed before |
| MemoryState.FlushCrashes | src/model/model.cc:92-124 | A flush has an outcome in which a process has newly crashed if and only if crashes are explored, one more is allowed, and the process is the live writer of a store numbered above the least `begin` raised, with every newer store also above it and its writer not live |
| Memory.DriveLeaf | src/model/nodestack.cc:189-204 | Whatever the stack of choices holds, a sequence of two-way decisions leads to a leaf of their tree |
| Memory.CrashedStepDrives | src/model/model.cc:224-254 | One round of the walk over a store of a crashed process, with the choice taken from the stack, is a step of the decision tree of the load |
| Memory.RunningStepDrives | src/model/model.cc:195-223 | The same for a store of a running process, whether it is crashed or read |
| Memory.FlushStepDrives | src/model/model.cc:92-124 | The same for the decision a flush makes |
| Memory.Model.constructor | src/model/model.cc:355-370 | An execution begins with empty lists, no interval, no crash and the clock at 0 |
| Memory.Model.DecisionPoint | src/model/model.cc:372-376 | Takes the next choice of the stack, below 2 |
| Memory.Model.EnsureInitialValue | src/model/model.cc:401-407 | A slot without entries gets one entry, numbered 0, with the 8 bytes that memory holds there; a slot that has some, and all other slots, stay as they are; all lists stay well-formed |
| Memory.Model.EvictStore | src/model/model.cc:84-90 | The store gets the next number and ends the list of its slot; if the slot has its initial entry, all lists stay well-formed and ordered by number |
| Memory.Model.InsertCrash | src/model/model.cc:387-399 | Crashes the process at the present time exactly if a crash is still possible and the choice says so |
| Memory.Model.RaiseAll | src/model/model.cc:103-111 | Returns the least `begin` it raised |
| Memory.Model.CrashWriter | src/model/model.cc:112-123 | Puts the question exactly if one more crash is allowed and there is a store of a live process such that it and all newer ones are numbered above the least time given; whoever crashes is the writer of the newest such store |
| Memory.Model.EvictClflush | src/model/model.cc:92-124 | The flush takes the branch of its decision tree that the stack dictates; a choice is taken exactly if the question of a crash comes up, and exactly the process it is of crashes if that is the choice |
| Memory.Model.AskCrash | src/model/model.cc:198-207 | The question whether a writer crashes is put exactly when the limits allow it, the writer still runs and its store is not known to have persisted |
| Memory.Model.ReadFromRunning | src/model/model.cc:194-223 | A store of a running process is read, or its process crashes and the sources are as before |
| Memory.Model.DecidePersist | src/model/model.cc:239-252 | Not persisted: the sources are as before and `end` is the number of the store; persisted: `begin` is |
| Memory.Model.ReadFromCrashed | src/model/model.cc:224-254 | Persisted, lost, skipped or to be decided, by the interval and the next older store |
| Memory.Model.VisitStore | src/model/model.cc:189-271 | One round of the reverse walk is one step of the load's decision tree |
| Memory.Model.BuildReadFrom | src/model/model.cc:164-275 | The whole load, on the fields and arrays of the checker, ends in the leaf of its decision tree that the stack dictates and returns the value of that leaf's sources |
| Memory.ThreadMemory.AddToStoreBuffer | src/model/thread_memory.cc:6-17 | The action is the newest of the store buffer |
| Memory.BypassForwards | src/model/thread_memory.cc:19-30 | Forwarding gives a byte without a source the newest plain store of the buffer that writes it, and nothing if there is none |
| Memory.LoadTakes | src/model/model.cc:164-275 | Each byte of a finished load comes from that store, or, if there is none, from a store of the slot that covers it |
| Memory.ThreadMemory.LocalBypassing | src/model/thread_memory.cc:19-30 | A byte that has no source yet gets the newest buffered non-atomic store that writes it, or none if there is none; it says whether nothing is missing |
| Memory.ThreadMemory.PopStore | src/model/thread_memory.cc:41-48 | The oldest store is evicted, whatever its slot, and its number is the last write of its line; lists and buffers that were well-formed stay so |
| Memory.ThreadMemory.PopClflush | src/model/thread_memory.cc:49-54 | The flush takes effect now, unless the process that drains the buffer crashes in it |
| Memory.ThreadMemory.PopClflushOpt | src/model/thread_memory.cc:55-63 | It waits in the flush buffer, with an effect no earlier than the last sfence and the thread's last write or flush of the line |
| Memory.ThreadMemory.PopSfence | src/model/thread_memory.cc:64-69 | The flush buffer is drained first |
| Memory.ThreadMemory.PopFromStoreBuffer | src/model/thread_memory.cc:32-75 | One action leaves the front; the change of memory and buffers is a chain of permitted steps |
| Memory.ThreadMemory.EmptyStoreBuffer | src/model/thread_memory.cc:77-80 | Without a crash of the process the buffer ends empty, by a chain of permitted steps |
| Memory.ThreadMemory.EmptyFlushBuffer | src/model/thread_memory.cc:82-90 | The same for the flush buffer |
| Memory.ThreadMemory.Load | src/model/model.cc:164-174 | A load of a thread: each byte of the value is that of the newest plain store of it in the own buffer, or, if there is none, of a store of the slot; the value is that of an outcome of the load |
| Runs.BuffersHold | src/model/model.cc:401-407 | In every state of every run the slot of each buffered store already has its initial entry, and lists and buffers are well-formed |
| Runs.FlushSafeIff | src/model/model.cc:104-111 | A flush leaves every interval of its line non-empty if and only if its time is below `end` for each process with one |
| Runs.RangesHold | src/model/model.cc:84-124 | In every state of every run without an unsafe flush, all intervals are non-empty |
| Runs.RunNarrows | src/model/model.cc:164-275 | Over such a run intervals only narrow, and crashes stay |
| Runs.RunExplained | src/model/model.cc:164-275 | Over such a run any one cut that is left for the crashed process and a line at the end explains every byte of every load of that line made during the run (the loads of the process itself before it crashed excepted) |
| Runs.CutExists | src/model/model.cc:84-124 | Such a cut exists for every process and line |
| LoadedBytes.InitialHolds | src/model/model.cc:401-407 | In every run a slot has a list exactly if a step has touched it, and the list begins with what memory held when the first one did |
| LoadedBytes.RunTakes | src/model/model.cc:164-275 | In every run each byte of a load is that of the newest plain store of it in the own buffer, or, if there is none, of a store of the slot |
| LoadedBytes.InitialRead | src/model/model.cc:401-407 | A byte that nothing evicted and nothing in the own buffer has written is read as memory held it when the slot was touched first |
| LoadedBytes.RunReads | src/model/model.cc:164-275 | What one cut explains, byte by byte: the newest plain store of the byte in the own buffer, or, if there is none, the newest evicted store that the cut leaves |
| RunExactness.LoadFor | src/model/model.cc:164-275 | For each cut of a process that has crashed or still may, some outcome of a load leaves it possible, crashes nobody else and, unless the process itself reads before its crash, returns the bytes of the cut |
| RunExactness.OneLoadFor | src/model/model.cc:189-271 | And no other outcome does, given whether it crashes the process |
| RunExactness.EveryCutHappens | src/model/model.cc:164-275 | Every stretch of a run without a new crash, from any sound state and for any choice of one cut for each line of a process that has crashed or may, can be redone with the same steps so that exactly these cuts are left possible, provided no flush of a line comes after its cut; it is a safe run, and each of its loads by another process, or after the crash, returns what the cuts say |
| RunExactness.OneRunPerCut | src/model/model.cc:164-275 | Two runs with the same steps and the same buffers that leave the same cuts possible, and crash the process at the same time, decide every load alike |
| RunExactness.OneRunAfterCrash | src/model/model.cc:164-275 | After the crash there is at most one such run |
| RunExactness.ExactAfterCrash | src/model/model.cc:84-124 | After the crash there is one if and only if the cuts were possible at the start and no flush comes after its cut |
| RunExactness.EveryCutFromStart | src/model/model.cc:164-275 | From the start of an execution: whatever cuts a process may have, and whatever the threads do without flushing a line past its cut, some safe run has these steps and every load of it returns what the cuts say |
| Execution.ChainSegment | src/model/thread_memory.cc:77-90 | What the draining loops do is a stretch of a run, so that the theorems about runs apply to it |
| Execution.Drain | src/model/executor.cc:186-191 | Both buffers are drained; unless the process crashes in it the stretch ends with a fence and both are empty |
| Execution.ExecuteStore | src/model/executor.cc:147-159 | A store is issued; a sequentially consistent one, or the second half of a read-modify-write, is followed by draining steps and a fence |
| Execution.ExecuteFlush | src/model/executor.cc:179-185 | A flush or sfence is issued as a copy that has lost its earliest effect |
| Execution.ExecuteMfence | src/model/executor.cc:186-191 | An mfence is draining steps and a fence |
| Execution.ExecuteLoad | src/model/executor.cc:160-178 | A load is a load step of a run, with the value of the sources the step ends with, each byte from the newest plain store of it in the buffer or else from the slot; the first load of an untouched slot returns what memory holds there; the first half of a read-modify-write drains and fences before |
| FlushGuarantee.HistoryHolds | src/model/thread_memory.cc:32-90 | In every state of every run, safe or not, the flush buffer, the last-write map and the intervals agree with what each thread has done |
| FlushGuarantee.RunLater | src/model/model.cc:104-111 | `begin` and the clock never go down |
| FlushGuarantee.FlushedForGood | src/model/thread_memory.cc:32-90 | A store followed in its thread by a drained clflush of its line, or by a clflushopt of its line and then a drained sfence or mfence, stays at or below `begin` for every process for the rest of the run |
| FlushGuarantee.FlushedNeverLost | src/model/model.cc:224-254 | No later load of the line leaves open a cut under which that store is lost |
| FlushTimes.EffectIsMax | src/model/thread_memory.cc:55-63 | The effect of a clflushopt is the largest of its own, the last sfence and the thread's last write or flush of the line |
| FlushTimes.TimesHold | src/model/thread_memory.cc:32-90 | In every run that effect is 0 or the time of an earlier store or clflush of the same thread on the line; and the flush buffer holds the last clflushopts that left the store buffer, in order |
| FlushTimes.EffectExact | src/model/thread_memory.cc:32-75 | As long as nobody has crashed it is exactly the time of the last one |
| FlushTimes.NothingUncaused | src/model/model.cc:92-124 | The converse of the guarantee: in every run each `begin` is 0, or the time of a flush of the line, or the number of a store to the line by that process |
| FlushTimes.JustEvicted | src/model/model.cc:84-90 | In every run each `begin` is below the clock or both are 0, so a store that is just evicted counts as persisted for nobody, unless its number is 0 |
| StoreOrder.OrderHolds | src/model/thread_memory.cc:6-80 | In every state of every run what a thread issued is what it evicted, in order, followed by its buffer; numbers increase strictly along one global order, and each slot list is its initial entry followed by the part of that order that concerns the slot |
| FlushAfterLoss.UnsafeFlushRevives | src/model/model.cc:104-111 | After a flush that is not safe, a store that every admitted cut had lost counts as persisted, and no cut is admitted |
| FlushAfterLoss.NoCutExplains | src/model/model.cc:104-111 | A run with two loads before and after such a flush, which no single cut explains |
| DecisionTree.Exhaustive | src/model/nodestack.cc:189-204 | Every leaf some choices lead to is in the list of outcomes |
| DecisionTree.ListedLeads | src/model/nodestack.cc:189-204 | Nothing else is |
| DecisionTree.Sorted | src/model/nodestack.cc:189-204 | The list is strictly lexicographic, so no leaf is in it twice |
| DecisionTree.UniqueOutcome | src/model/nodestack.cc:189-204 | If exactly one leaf has a property, exactly one place of the list has it |
| NodeStacks.NodeStack.constructor | src/model/nodestack.cc:82-88 | No node, no marks, and the head before the first node |
| NodeStacks.NodeStack.GetNext | src/model/nodestack.cc:169-181 | Moves to the next node if there is one; otherwise nothing changes |
| NodeStacks.NodeStack.CreateNode | src/model/nodestack.cc:206-211 | A new node, at its first choice, ends the list and is current |
| NodeStacks.NodeStack.PopRestOfStack | src/model/nodestack.cc:144-151 | Keeps just the nodes up to the given place |
| NodeStacks.NodeStack.ExploreNext | src/model/nodestack.cc:189-204 | Keeps both marks on nodes of the list (or on none), never fails the replay assertion while the program agrees with what was recorded, and gives a choice below the number of choices |
| NodeStacks.NodeStack.ResetExecution | src/model/nodestack.cc:183-187 | The deepest node with choices left becomes the place to diverge; the head goes back to before the first node |
| NodeStacks.NodeStack.HasAnotherExecution | include/nodestack.h:65 | True exactly if the last execution passed a node with choices left |
| NodeStacks.NodeStack.FullReset | src/model/nodestack.cc:154-160 | The stack is empty; the place to diverge is a node that is gone if and only if the search had left a mark |
| Exploration.FirstLeaf | src/model/nodestack.cc:189-204 | With nothing to replay an execution ends in the first leaf |
| Exploration.LastLeaf | src/model/nodestack.cc:64-69 | A leaf is the last one if and only if no decision on the way to it has choices left |
| Exploration.ReplayBelowMark | src/model/nodestack.cc:189-204 | Below the mark the recorded choice is taken again |
| Exploration.TakeNextChoice | src/model/nodestack.cc:195-199 | At the mark the next choice is taken and everything recorded above is gone |
| Exploration.NextLeaf | src/model/nodestack.cc:189-204 | Replaying up to the mark leads from each leaf to the next one in lexicographic order |
| Exploration.ExecutionStep | src/model/model.cc:326-333 | After any number of leaves one execution agrees with the record at every decision, returns the result of the next leaf, and leaves a mark exactly if there is another leaf |
| Exploration.RunExecution | src/model/nodestack.cc:189-204 | An execution on the code's stack is the one on values |
| Exploration.RunAndFinish | src/model/model.cc:307-338 | And goes on exactly while leaves are left |
| Exploration.ExploreAll | src/model/model.cc:307-338 | From a fresh stack (or one that has seen some leaves) the main loop ends, having visited exactly the leaves (left), each once, in order |
| SavedStacks.SaveState | src/model/nodestack.cc:108-134 | The bytes written over what the file held before |
| SavedStacks.LoadState | src/model/nodestack.cc:213-252 | The stack and number the bytes stand for, or -1 and an empty stack if the header is too short; the stack can be used if and only if the search had left no mark before or the file has one |
| SavedStacks.HeaderRoundTrip | src/model/nodestack.cc:116-126 | The number comes back; the mark comes back in 16 bits |
| SavedStacks.NodesRestored | src/model/nodestack.cc:127-132 | The nodes come back if and only if all choices and sizes are bytes and the old file was not longer |
| SavedStacks.MarkRestored | src/model/nodestack.cc:248-249 | The mark comes back if and only if it fits; no mark does if and only if 65535 is not a node |
| SavedStacks.RoundTrip | src/model/nodestack.cc:108-252 | Loading what was saved restores number, nodes and mark if and only if they fit their widths and the old file was not longer |
| Resumption.SaveAndResume | src/model/model.cc:326-333 | A search that is saved, loaded into a fresh stack and resumed visits exactly the leaves that were left, in order |
| SchedulerSafety.YieldKeeps | src/model/scheduler.cc:43-64 | A yield keeps the invariant |
| SchedulerSafety.LastYieldKeeps | src/model/scheduler.cc:66-91 | So does the last yield of a thread |
| SchedulerSafety.TakeKeeps | src/model/mutex.cc:16-30 | Taking a free mutex keeps it, and the insertion into the owned set is new |
| SchedulerSafety.ReleaseKeeps | src/model/executor.cc:129-130 | Giving a mutex up and waking all who wait for it keeps it, and the mutex was in the owned set |
| SchedulerSafety.FinishKeeps | src/model/executor.cc:30-44 | Finishing and waking the joiners keeps it |
| SchedulerSafety.CrashEffect | src/model/scheduler.cc:120-133 | What crashing the threads of a process one after the other, with the wake-ups in between, comes to for each thread |
| SchedulerSafety.CrashEnds | src/model/scheduler.cc:120-133 | After a crash the unfinished threads of the process are crashed, and a thread of another process runs if it waited for one of their mutexes and is unchanged otherwise |
| SchedulerSafety.ShutdownEnds | src/model/scheduler.cc:102-118 | The same of a shutdown, with a crash at any thread on the way |
| SchedulerSafety.LockKeeps | src/model/executor.cc:81-111 | A lock, at once or after waiting, keeps the invariant |
| SchedulerSafety.UnlockKeeps | src/model/executor.cc:112-136 | So does an unlock or a wait |
| SchedulerSafety.JoinKeeps | src/model/executor.cc:52-65 | So does a join |
| SchedulerSafety.TryLockKeeps | src/model/executor.cc:66-80 | So does a trylock |
| SchedulerSafety.StepKeeps | src/model/executor.cc:25-146 | So does every step |
| SchedulerSafety.RunKeeps | src/model/executor.cc:25-146 | So the invariant holds in every state of every run |
| SchedulerTheorems.NoLostWakeUp | src/model/executor.cc:14-65 | In every state of every run a thread blocked on a lock faces an owner other than itself that has not crashed; one blocked on a join waits for an unfinished thread of its own process; nobody is blocked for nothing |
| SchedulerTheorems.DeadlockIsReal | src/model/scheduler.cc:43-91 | DEADLOCK is reported if and only if no thread runs and some thread is blocked; the run is over if and only if all threads are done (a thread that locks its own plain mutex aborts, and is a separate outcome) |
| SchedulerTheorems.JoinReturns | src/model/executor.cc:52-65 | A join returns only when its thread has completed |
| SchedulerTheorems.OwnershipStep | src/model/mutex.cc:16-30 | In one step a mutex changes hands exactly if the active thread releases or takes it |
| SchedulerTheorems.OwnershipLeaves | src/model/executor.cc:66-136 | Over any stretch of a run ownership leaves a thread only by its own unlock or wait, or because it crashed and another thread took the mutex |
| SchedulerTheorems.SetOwnerAsserts | src/model/mutex.cc:16-30 | In every state of every run the owned set of a thread that has not crashed is exactly the mutexes that name it, so both assertions hold whenever the owner is set |
| SchedulerTheorems.StepCloser | src/model/scheduler.cc:43-64 | Each switch brings the active thread strictly closer, going round, to a thread that stays running; without a switch it stays |
| SchedulerTheorems.BoundedWaiting | src/model/scheduler.cc:43-64 | With a fixed number n of threads, one that stays running becomes active within n - 1 switches |
| WakeUps.NotifyAllWakes | src/model/executor.cc:142-146 | A notify of all runs every thread that is blocked in a wait on the condition variable and leaves all others as they are |
| WakeUps.NotifyOneWakes | src/model/executor.cc:137-141 | A notify of one runs exactly the first such thread after the active one, going round, if there is one |
| WakeUps.WokenExactly | src/model/scheduler.cc:147-168 | In any step a blocked thread runs again if and only if the holder of its mutex gives it up or crashes, the thread it joins ends, or a notify reaches it; otherwise it stays blocked, unless its own process ends |
| WakeUps.OthersKept | src/model/executor.cc:25-146 | The threads that are not active and not blocked are left alone by every step, but for those of a process that ends |
| WakeUps.ShutdownStates | src/model/scheduler.cc:102-118 | A shutdown completes the threads of the process, and if it crashes at one of them the later ones crash |
| WakeUps.WaitsUntil | src/model/executor.cc:112-146 | Over any stretch of a run a thread waits on a condition variable until a notify reaches it or its process ends |
| WakeUps.WaitingUnnotified | src/model/executor.cc:137-146 | And as long as it waits no notify that reaches it has been carried out |
| WakeUps.Announced | src/model/model.cc:24-36 | Announcing an operation puts it before the active thread and changes nothing else but the turn |
| WakeUps.BlocksExactly | src/model/executor.cc:14-136 | An operation leaves its thread blocked exactly if it joins an uncompleted thread, locks a mutex another thread holds that has not crashed, or gives a mutex up in a wait; the execution ends in a self-deadlock exactly if a thread locks a plain mutex it holds; otherwise the operation is done |
| LockLevels.LevelStep | src/model/executor.cc:81-136 | How often a thread holds a recursive mutex goes up by one with each lock and down by one with each unlock of its own, and by nothing else |
| LockLevels.LevelsCount | src/model/executor.cc:81-136 | Over any stretch of a run: one taken n times is given up by the n-th unlock and not before |
| LockLevels.ThreadsStep | src/model/executor.cc:45-51 | A step adds a thread exactly if it is a creation, running and of its creator's process, and no thread changes its process |
| Schedulers.Scheduler.constructor | src/model/scheduler.cc:10-16 | One running thread for each process, the first one active |
| Schedulers.Scheduler.WakeAllThreadsWaitingOn | src/model/scheduler.cc:147-155 | Runs exactly the blocked threads that wait for it |
| Schedulers.Scheduler.WakeThreadWaitingOn | src/model/scheduler.cc:157-168 | Runs the first one after the active thread, going round, or none |
| Schedulers.Scheduler.Yield | src/model/scheduler.cc:43-64 | The next running thread, going round, is active; if there is none the active one goes on if it runs, and otherwise it is a deadlock |
| Schedulers.Scheduler.LastYield | src/model/scheduler.cc:66-91 | The same for a thread that is done; over if nobody is blocked |
| Schedulers.Scheduler.ProcessCrash | src/model/scheduler.cc:120-133 | The loop over all threads comes to the crash on values |
| Schedulers.Scheduler.ProcessShutdown | src/model/scheduler.cc:102-118 | The loop of the shutdown, cut short by a crash or not |
| Schedulers.Scheduler.SetOwner | src/model/mutex.cc:16-30 | The owner, the count and the owned sets of the old and the new owner |
| Schedulers.Scheduler.ThreadWait | src/model/executor.cc:14-23 | The active thread blocks and the next one goes on |
| Schedulers.Scheduler.Announce | src/model/model.cc:24-36 | An operation is announced and the others go first: a step of the machine |
| Schedulers.Scheduler.CrashProcess | src/model/model.cc:26-29 | A crashed process ends and hands over: a step of the machine |
| Schedulers.Scheduler.ExecuteLock | src/model/executor.cc:81-111 | Takes a free mutex, or one whose owner crashed, which the result tells; counts, refuses or aborts if it is the thread's own; waits otherwise |
| Schedulers.Scheduler.ExecuteTryLock | src/model/executor.cc:66-80 | The same without waiting: 0 if held, 1 if taken, 2 if taken from a crashed owner |
| Schedulers.Scheduler.ExecuteUnlock | src/model/executor.cc:112-136 | Only the owner; counts down a recursive mutex; otherwise frees it, wakes its waiters and, for a wait, blocks |
| Schedulers.Scheduler.ExecuteFinish | src/model/executor.cc:30-44 | The thread completes, its joiners run, and it never comes back |
| Schedulers.Scheduler.Execute | src/model/executor.cc:25-146 | Every operation is a step of the machine (whose effects are in `WakeUps` and `LockLevels`); a lock reports whether it took the mutex from a crashed owner, a trylock whether it took it at all |
| TreeIndex.RightBinIff | src/allocators/malloc.c:2825-2836 | The bin of a size is the one whose range holds it if and only if the size is below 2^40 or its 32 bits from bit 8 on are at least 0xC000 |
| TreeIndex.BinsOrdered | src/allocators/malloc.c:2897-2899 | A size of a later bin is larger |
| TreeIndex.SameBin | src/allocators/malloc.c:2892-2894 | Sizes of one bin agree in the bits the shift drops |
| TrieBits.ShiftedBit | src/allocators/malloc.c:2892-2894 | After the bin's shift and one more for each level, the top bit of the 64-bit word is the bit of the size that decides at that level |
| TrieBits.GreaterSize | src/allocators/malloc.c:3280-3328 | Sizes are ordered like the first bits they differ in |
| BitMaps.NegatedBits | src/allocators/malloc.c:2917-2920 | Two's complement negation keeps a word up to its least bit and flips the rest |
| BitMaps.LeastBitIs | src/allocators/malloc.c:2917-2917 | The and of a word and its negation is its least bit alone |
| BitMaps.LeftBitsOf | src/allocators/malloc.c:2920-2920 | `left_bits` of a single bit is all bits to its left |
| BitMaps.LeastOf | src/allocators/malloc.c:2917-2932 | The index of the least bit is the least bin marked |
| BitMaps.LeftOf | src/allocators/malloc.c:2920-2920 | Masked so, a map marks just the later bins |
| BitMaps.MarkOne | src/allocators/malloc.c:2905-2914 | Marking a bin adds just that bin |
| BitMaps.ClearOne | src/allocators/malloc.c:2905-2914 | Clearing a bin takes just that bin away |
| SmallBins.NoneHeld | src/allocators/malloc.c:3891-3898 | Empty bins are well-formed |
| SmallBins.InsertOk | src/allocators/malloc.c:3549-3565 | A chunk linked in behind the sentinel keeps every ring a ring of chunks of its bin's size, doubly linked, and the map marks just the bins that are not empty; the links of an empty bin's sentinel are not looked at |
| SmallBins.UnlinkOk | src/allocators/malloc.c:3568-3609 | So does a chunk linked out, first or not; with the last chunk of a bin only the mark goes |
| SmallBins.FirstOf | src/allocators/malloc.c:5496-5499 | The sentinel of a marked bin points to a chunk of the bin's size |
| Trie.Unique | src/allocators/malloc.c:3280-3328 | At each place of a trie, given by bin and bits, there is at most one node |
| Trie.Below | src/allocators/malloc.c:3366-3400 | A node below another is below the child that its next bit says |
| Trie.AddRoot | src/allocators/malloc.c:3634-3639 | An empty bin gets a root, and the trie invariant holds |
| Trie.AddLeaf | src/allocators/malloc.c:3643-3654 | A new leaf under the last node of its path keeps it |
| Trie.DetachLeaf | src/allocators/malloc.c:3709-3724 | Cutting off a leaf keeps it |
| Trie.Replace | src/allocators/malloc.c:3725-3763 | A leaf with the same path put in the place of a node, with all links of its parent, children and bin redone, keeps it |
| Rings.InsertInRing | src/allocators/malloc.c:3660-3668 | A chunk of a size already there joins its ring behind the first: double links, one size, no chunk twice |
| Rings.RemoveFromRing | src/allocators/malloc.c:3698-3704 | A chunk leaves a ring of several, which stays a ring |
| TreeBins.SearchStep | src/allocators/malloc.c:3366-3400 | Going to the child the next bit says misses no chunk of the size sought |
| TreeBins.InsertRoot | src/allocators/malloc.c:3634-3639 | The bins with tries, rings and marks together stay well-formed, the bin now marked |
| TreeBins.InsertLeaf | src/allocators/malloc.c:3643-3654 | They stay so under a new leaf |
| TreeBins.InsertChained | src/allocators/malloc.c:3660-3668 | And with a chunk of a size already there |
| TreeBins.UnlinkChained | src/allocators/malloc.c:3698-3704 | And without a chunk that is in a ring only |
| TreeUnlink.UnlinkLeading | src/allocators/malloc.c:3698-3763 | The node of a ring of several is replaced by the one before it |
| TreeUnlink.UnlinkInner | src/allocators/malloc.c:3709-3763 | A node alone in its ring is replaced by a leaf below it |
| TreeUnlink.UnlinkLast | src/allocators/malloc.c:3725-3730 | A leaf alone in its ring leaves, and the mark goes if the bin is empty then |
| BestFit.DescentStep | src/allocators/malloc.c:4421-4438 | Going down by the bits of the request keeps: what may fit better is below the present node, or in the deepest right subtree not taken, and everything else is settled |
| BestFit.ScanStep | src/allocators/malloc.c:4450-4457 | Going down the leftmost path keeps: what may fit better is below the present node |
| BestFit.NextBin | src/allocators/malloc.c:4440-4448 | If the bin of the request has nothing, the next marked one holds a best fit |
| BestFit.NoNextBin | src/allocators/malloc.c:4440-4448 | If there is none, nothing fits |
| MallocStates.MallocState.InsertLarge | src/allocators/malloc.c:3627-3676 | The chunks in the tree bins are those from before and this one, with its size; all invariants hold |
| MallocStates.MallocState.UnlinkLarge | src/allocators/malloc.c:3695-3764 | The chunks in the tree bins are those from before without this one, whichever of the cases it is; all invariants hold |
| MallocStates.MallocState.InsertSmall | src/allocators/malloc.c:3549-3565 | The chunks in the small bins are those from before and this one |
| MallocStates.MallocState.UnlinkSmall | src/allocators/malloc.c:3568-3609 | The chunks in the small bins are those from before without this one |
| MallocStates.MallocState.ReplaceVictim | src/allocators/malloc.c:3613-3622 | The old victim, if there was one, is in its small bin, and there is a new one |
| MallocStates.MallocState.LeastTree | src/allocators/malloc.c:4486-4488 | The least tree bin that is not empty |
| MallocStates.MallocState.NextTree | src/allocators/malloc.c:4440-4448 | The next tree bin after the given one that is not empty, or none |
| MallocStates.MallocState.BinFind | src/allocators/malloc.c:3366-3400 | Says whether a chunk is in a bin, small or tree, by its bits and once round the ring of its size |
| MallocStates.MallocState.LookAt | src/allocators/malloc.c:4423-4428 | The comparison of remainders modulo 2^64 never takes a chunk that is too small and never misses a better one |
| MallocStates.MallocState.Descend | src/allocators/malloc.c:4417-4439 | The loop over the bin of the request |
| MallocStates.MallocState.Scan | src/allocators/malloc.c:4450-4457 | The last loop ends with nothing better anywhere |
| MallocStates.MallocState.FindLarge | src/allocators/malloc.c:4411-4457 | The search finds a smallest chunk that is large enough, over all bins, or says that there is none |
| MallocStates.MallocState.TmallocLarge | src/allocators/malloc.c:4411-4479 | Null exactly if no chunk fits or the designated victim fits at least as well; otherwise a best fit leaves the bins, and its remainder goes where its size says |
| MallocStates.MallocState.TmallocSmall | src/allocators/malloc.c:4482-4515 | A smallest chunk of all leaves the bins, and its remainder becomes the designated victim |
| MallocStates.BestOfAll | src/allocators/malloc.c:4411-4457 | A node that nothing in the tries betters is best among all chunks, those in rings included |
| MallocStates.TakenOrderly | src/allocators/malloc.c:4461-4474 | Taking a part of a chunk leaves free chunks, in all bins and the victim, that do not overlap and are on the grid |
| MallocStates.VictimTaken | src/allocators/malloc.c:4499-4511 | So does making the rest the victim and binning the old one |
| MallocStates.VictimFits | src/allocators/malloc.c:4459-4460 | The comparison modulo 2^64 with the victim's remainder decides as stated |
| HeapShape.Tiled | src/allocators/malloc.c:3402-3431 | Every address of the segment belongs to exactly one chunk |
| HeapShape.Payloads | src/allocators/malloc.c:3232-3241 | The payloads of two chunks in use are aligned, do not overlap and lie within the segment |
| HeapShape.CoalesceOk | src/allocators/malloc.c:4340-4406 | Making one free chunk of neighbours, with one head, one foot and one bit behind, keeps the boundary tags right and leaves no two free chunks side by side |
| HeapShape.ToppedUpOk | src/allocators/malloc.c:4371-4380 | So does merging everything up to the top chunk into it |
| HeapShape.CutOk | src/allocators/malloc.c:3041-3044 | So does cutting a chunk in use in two |
| HeapShape.OccupyOk | src/allocators/malloc.c:3046-3048 | So does taking a free chunk into use |
| HeapShape.FromTopOk | src/allocators/malloc.c:5569-5579 | So does taking the front of the top chunk |
| HeapShape.IntoTopOk | src/allocators/malloc.c:4808-4819 | So does extending a chunk into the top chunk |
| HeapShape.JoinOk | src/allocators/malloc.c:4847-4850 | So does joining two chunks in use |
| HeapBins.PlacedAt | src/allocators/malloc.c:3243-3264 | Each free chunk is the designated victim or in one bin, never both, and what is there is a free chunk of that size (how the bins hold it is in `SmallBins` and `TreeBins`) |
| HeapServe.ServeState | src/allocators/malloc.c:5477-5590 | Serving a request from a free chunk keeps the layout well-formed, and the live chunks are those from before and the one handed out |
| HeapServe.ServeVictim | src/allocators/malloc.c:3613-3622 | With the remainder as the new victim and the old victim in its small bin, every free chunk is in its one place |
| HeapServe.ServeTop | src/allocators/malloc.c:5569-5579 | The same for the top chunk |
| HeapChoice.ExactFit | src/allocators/malloc.c:5494-5504 | A small request for which a small bin has a chunk of its size, or else of the next, gets a chunk of exactly that size |
| HeapChoice.TopLast | src/allocators/malloc.c:5542-5579 | If any other free chunk fits the top chunk is not cut; what is taken is no larger than any that fits, unless one of the two is the victim |
| HeapDispose.DisposeState | src/allocators/malloc.c:4340-4406 | Freeing a chunk, in any of the cases of its two neighbours, keeps the whole state well-formed and takes exactly that chunk from the live ones |
| HeapDispose.PutAwayCases | src/allocators/malloc.c:4369-4402 | The cases of the code, for victim, top, free and used neighbours, come to: the neighbours leave their places and the merged chunk gets one |
| HeapDispose.FreedVictim | src/allocators/malloc.c:4352-4392 | The victim after a free: the same, unless it lies next to the freed chunk; then it is part of the top chunk, or the chunk the freed one became part of |
| HeapResize.AbsorbState | src/allocators/malloc.c:4847-4850 | A chunk that swallows the free one behind it is live with the sum of the sizes |
| HeapResize.CutState | src/allocators/malloc.c:4798-4807 | Cutting a live chunk gives two live ones |
| HeapResize.TailVictim | src/allocators/malloc.c:4824-4832 | The tail becomes the designated victim, and the rest of the state stays right |
| HeapResize.IntoTopState | src/allocators/malloc.c:4808-4819 | Extending into the top chunk keeps the state right |
| Alignments.Rounded | src/allocators/malloc.c:4870-4876 | The alignment used is a power of two, at least a chunk and at least what was asked |
| Alignments.PowersOnGrid | src/allocators/malloc.c:4870-4876 | So it keeps chunks on the allocation grid |
| Spaces.RequestToSize | src/allocators/malloc.c:2218-2223 | A chunk size on the grid with room for the request and its overhead, and less than one grid step more, or the least chunk |
| Spaces.Space.constructor | src/allocators/malloc.c:5379-5400 | The space begins with everything in the top chunk, well-formed and with nothing live |
| Spaces.Space.FreeChunk | src/allocators/malloc.c:3243-3264 | In a well-formed space a free chunk has neighbours in use, its size at its foot, and exactly one place, right for its size |
| Spaces.Space.LiveChunks | src/allocators/malloc.c:3402-3431 | In a well-formed space live payloads are aligned and disjoint |
| Spaces.Space.MallocFromBins | src/allocators/malloc.c:5486-5538 | A small request gets a smallest chunk in the bins that fits, even if the victim fits too when that chunk is of its size or the next; it is passed on exactly when the victim is to serve it or nothing in the bins can |
| Spaces.Space.SmallBits | src/allocators/malloc.c:5491-5513 | The two tests and the least bit of the shifted map find the bin of the size, the next one, or the next one that is not empty; if no bit is left nothing small is large enough |
| Spaces.Space.SmallSizes | src/allocators/malloc.c:5491-5513 | And no smaller chunk of the small bins that fits is missed by them |
| Spaces.Space.FromSmall | src/allocators/malloc.c:5494-5531 | The request gets a chunk of exactly the size of the bin, and what is left of it becomes the victim if it can be a chunk |
| Spaces.Space.FromTreeSmall | src/allocators/malloc.c:5533-5536 | A small request gets a smallest chunk of the tree bins, and what is left of it becomes the victim if it can be a chunk |
| Spaces.Space.FromTreeLarge | src/allocators/malloc.c:5542-5547 | A large request gets a smallest chunk of the tree bins that fits, if it is smaller than a victim that fits; otherwise null, and nothing has changed |
| Spaces.Space.FromVictim | src/allocators/malloc.c:5549-5567 | The victim serves a request it is large enough for, and stays the victim with what is left of it |
| Spaces.Space.FromTopChunk | src/allocators/malloc.c:5569-5579 | The front of the top chunk becomes live |
| Spaces.Space.Malloc | src/allocators/malloc.c:5477-5590 | Null if and only if neither the top chunk nor any free chunk can serve the request, and then nothing has changed; otherwise exactly one chunk becomes live, of the size asked or less than a least chunk more, and it is the one the policy picks: from the bins a smallest that fits, the victim unless the bins have a better one, the top chunk only if nothing else fits |
| Spaces.Space.Dispose | src/allocators/malloc.c:4340-4406 | The freed chunk, and only it, stops being live, and it is merged with its free neighbours; the victim changes only if it is one of them |
| Spaces.Space.Free | src/allocators/malloc.c:5592-5662 | Freeing takes exactly that chunk from the live ones (null: nothing), keeps the space well-formed, and leaves the victim alone unless it lies next to the chunk |
| Spaces.Space.TryRealloc | src/allocators/malloc.c:4788-4866 | Resizes in place if and only if the chunk, with what is free right behind it, is large enough; otherwise nothing has changed |
| Spaces.Space.Realloc | src/allocators/malloc.c:5714-5760 | The chunk stays where it is if and only if it fits in place; otherwise a new chunk is live instead of the old; null if and only if neither is possible, and then nothing has changed |
| Spaces.Space.MoveUp | src/allocators/malloc.c:4891-4919 | The front of the chunk goes back, and an aligned chunk that is large enough is live in its place |
| Spaces.Space.Memalign | src/allocators/malloc.c:4868-4940 | The payload is aligned as asked; exactly one chunk becomes live, with less than a least chunk and a grid step to spare; null if and only if there is no room for request and alignment together, and then nothing has changed |
| Spaces.RoundAlignment | src/allocators/malloc.c:4870-4876 | The doubling loop gives the rounded alignment |
| Spaces.AlignedSpot | src/allocators/malloc.c:4891-4908 | The first aligned place that leaves room for a chunk before it is at most one alignment and 24 bytes on |
| HashTables.AppendTable | include/hash_table.h:160-180 | A new node at the end of its chain keeps each chain a chain of its bucket |
| HashTables.RemoveTable | include/hash_table.h:222-230 | So does taking out any node of any chain |
| HashTables.MoveOne | include/hash_table.h:271-277 | So does moving a node to the head of its new bucket, for the nodes moved so far |
| HashTables.AllMoved | include/hash_table.h:258-281 | When all are moved, every entry is in the bucket of its key in the new table, once, and the map is the same |
| HashTables.HashTable.constructor | include/hash_table.h:84-91 | An empty map |
| HashTables.HashTable.Find | include/hash_table.h:208-220 | The node of the key with the value of the map, or null exactly if the map does not have the key |
| HashTables.HashTable.Resize | include/hash_table.h:258-281 | Doubles the buckets exactly if the threshold is reached; the map stays the same |
| HashTables.HashTable.Emplace | include/hash_table.h:160-180 | Adds the entry exactly if the key is new, and gives the entry of the key either way |
| HashTables.HashTable.Put | include/hash_table.h:125-145 | The map with that key at that value |
| HashTables.HashTable.Remove | include/hash_table.h:208-230 | Finding and erasing gives the map without the key |
| HashTables.HashTable.Erase | include/hash_table.h:222-230 | Erasing where an iterator stands gives the map without that entry, and the iterator returned stands at the next entry; what it remembers as the node before is right if and only if it has left the chain |
| HashTables.HashTable.Clear | include/hash_table.h:245-256 | The empty map |
| HashTables.HashTable.Advance | include/hash_table.h:56-68 | The next node of the chain, or the first of the next chain that has one |
| HashTables.HashTable.Iterate | include/hash_table.h:232-243 | A whole iteration meets every node exactly once |
| HashTables.HashTable.Copy | include/hash_table.h:93-103 | The copy represents the same map |

## Left out

The memory:

- Clocks are unbounded; the wrap-around of 32-bit sequence numbers is not modelled.
- Loads and stores are naturally aligned and of 1, 2, 4 or 8 bytes; what happens to others is said only of `get_overlaps`.
- `ATOMIC_INIT` stores of the program itself: the only such entries are those `ensureInitialValue` makes.
- The store of the thread id that `PTHREAD_CREATE` puts into the buffer without an initial entry (`src/model/executor.cc:48`).
- Which buffer is popped and how often is left open instead of random, so the theorems hold for every such policy.
- Atomicity of read-modify-write operations is not claimed: buffers may drain between the two halves.
- That a crashed process evicts nothing is not claimed: its thread may be between the crash check and the yield.
- `check_memory_poisoning` and `GPF_ALWAYS_SUCCEEDS`, which are compiled out; the latter is the model with backtracking off.
- The map of cache lines gives an absent line the interval `[0, 0)`; that looking one up inserts it is not modelled.
- RunExactness.OneRunPerCut: compares runs that crash the process at the same time, since a cut past all that was read is left possible by a crash now and by a later one alike.
- RunExactness.EveryCutHappens: is about processes that do not complete before they crash, since a completed process is never crashed, and about stretches without a crash of their own, into which it puts the crash.
- Runs.RunExplained: says nothing of loads a process made before it crashed itself, since it reads its own stores whether or not they persist; and it is about runs whose flushes are safe, because of the counterexample above.

The search:

- NodeStacks.NodeStack.ExploreNext: assumes that a replayed program offers as many choices as before, which `Exploration.ExecutionStep` proves of a deterministic one.
- The limit of 50000 executions; the search is modelled without it.
- Files are byte sequences; failing reads and writes are not modelled.
- SavedStacks.SaveState: keeps a longer old file's tail, as the code does.

The scheduler:

- Threads, mutexes and condition variables are numbers, not pointers; memory reclaimed by a crash is not modelled.
- `ATOMIC_TIMEDWAIT`, destroying mutexes and condition variables, error numbers, and the early end by `set_terminating`.
- Context switches, futexes, processes, signals and the wrappers of the pthread library.
- Schedulers.Scheduler.Execute: memory operations are steps that leave threads and mutexes alone; their effect is in the memory model.

The allocator:

- The RTCHECK tests, which hold in every well-formed space; locks, footers, mapped memory and further segments, which this build does not have; statistics, calloc, bulk operations and trimming.
- What a chunk holds: the copying of `mspace_realloc` is not modelled.
- Chunks are maps from addresses to heads, feet and links, not memory words.
- MallocStates.MallocState.TmallocLarge: for chunks below 2^40, as the bin index is wrong above (`TreeIndex.RightBinIff` is exact); the shared segment is of 2^32 bytes (`include/config.h:8`).
- Spaces.Space.constructor: begins with what `init_user_mstate` leaves as the top chunk; the chunk that holds the allocator's own state, and the foot of the top chunk, are outside.
- Spaces.Space.Dispose: stands for both `dispose_chunk` and the same steps inside `mspace_free`, which differ only in the trimming that is left out.
- Spaces.Space.Free: takes chunks that are live; what happens to others is a usage error.
- Spaces.Space.Memalign: for alignments up to 2^63; beyond, the doubling loop of the code does not end.

The hash table:

- Nodes are a map from addresses to entries, and the load factor is a real number.
- `at` (which aborts on a missing key), `try_emplace` and assignment.
- Allocation failures.

Elsewhere: `List` and `Vector` are sequences; `src/user/memapi.cc`, `src/user/api.cc`, snapshots, and start-up are not part of this model.
