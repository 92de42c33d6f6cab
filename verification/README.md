# Memory fast counter and planner: a verified model

The program receives a trace of memory operations in chunks. Eight counting workers turn it into
per-word lists of (chunk, count) entries, packed into blocks of a flat array. Read in address order
these lists are one long stream of *rows*. Planners cut that stream into segments of a fixed number of
rows, and summarise each segment by one checkpoint per chunk. One planner does this in parallel: a
generator publishes resume points (locators), and any number of workers rebuild one segment each.
Another does it in one pass and also counts an implicit row for every skipped word. A third counter
packs unaligned operations into segments of its own.

This project states what all of that code must agree on, independently of its loops, and proves that the
code computes it.

| module | what it holds |
|---|---|
| MemConfig, Bits | sizes, 32-bit wrap, bit masks |
| AddressMap | the word / (offset, thread) bijection and its order |
| Chains | what a counter has recorded, as a mathematical object, and its block chains |
| SlotHeap | how the slot array represents the chains; the reads that walk it |
| Trace | traces, the ideal record of a word, each worker's share, the plain operation count |
| LostEntries | which words of a trace lose entries when their chain is read |
| Capacity | which traces a worker can count at all |
| MemCounter | one counting worker, over its arrays |
| RowStream | the row stream and its ideal cut |
| CheckPoints, RowMeaning | checkpoints and segments, and what a summary says of the rows its segment stands for |
| Workers | the eight counters as planners read them, and which pages are scanned |
| Locators, LocatorQueue, QueueRuns | the locator queue as an object, every interleaving of its atomic steps, and that a worker that asks is served |
| MemPlanner | the parallel planner's generator and rebuilder |
| ParallelPlan | the parallel result is the sequential cut, and the stream is the trace |
| GapRows, GapPlanner, GapSegments, GapMeaning | the sequential planner: its row axis, its code, where its segments resume, what their checkpoints say |
| AlignCounter, AlignMeaning | packing of unaligned operations, and what each of its checkpoints says |
| HashIndex | the versioned chunk index |
| RingQueue, RingRuns | the single-producer single-consumer ring, what its runs push, and that pushes and pops succeed |
| ChunkFeed, FeedRuns | the append-only feed of chunks, and that its readers get through it |
| EndToEnd | from the feed and the trace to the segments of both planners |
| Phases | the counting and the planning phase over the program's objects |
| Instances | two-operation traces that show what the planners do at segment boundaries |

Methods of the imperative parts are specified against a function or a predicate on values; what the
program promises is then proved of that function or predicate. Concurrent parts are systems of atomic
steps: safety holds in every interleaving of every run, and from every reachable state in which a thread
asks for something that is there, its own steps get it.

## What the proofs found

- **A two-block chain rooted at block 0 loses its first block.** Header word 0 of a block is the block
  before it, and 0 also means "this is the only block". The chain whose first block is block 0 is
  therefore read from its second block while it has exactly two (`Chains.WalkSeesTheList`). In terms of
  the trace: a word is affected if and only if it is the first one its worker counts and 8 to 14 chunks
  touch it (`LostEntries.LosesIffFirstWord`; a trace in `LostEntries.EightChunksLoseSeven`). What the
  planners then miss is exactly the operations in the first seven entries
  (`EndToEnd.EveryOperationIsPlannedOnce`), and they plan every operation if and only if no planned word
  is affected (`EndToEnd.AllPlannedIff`).
- **A cut at the end of an entry leaves a checkpoint without rows.** The next segment gets a checkpoint for
  the finished entry's chunk, whether or not the chunk has rows there, and it starts at that entry, all
  of its rows skipped (`ParallelPlan.CheckPointsTellRows`, `GapMeaning.SegmentsTellRows`; a trace in
  `Instances.CutLeavesCheckPoint`).
- **The last page of every planned range is not scanned.** `to_page` is the page of the last byte, and
  the loops stop before it (`Workers.LastPageIsNotScanned`, the program's own ranges in
  `Workers.ConfiguredPages`).
- **Workers and readers can quit early.** `get_next_locator` and `get_chunk` test completion after an
  older empty poll. The exact conditions are `LocatorQueue.NothingLeftIff` and
  `ChunkFeed.MissesNothingIff`; losing runs are `LocatorQueue.EarlyQuitLosesALocator` and
  `ChunkFeed.EarlyQuitMissesAChunk`.
- **The sequential planner can count a row twice.** When a gap ends exactly where a segment does, the
  full segment gets one extra row for the next operation. Its checkpoints count every row once if and
  only if no gap ends on a segment boundary (`GapMeaning.EachRowOnceIff`; a trace in
  `Instances.GapCountsTwice`).
- **A position above the index's mask does not come back** (`HashIndex.SetThenGet`).
- A row total that is a positive multiple of the segment size gives the parallel planner one last
  segment without rows, which the sequential planner does not have
  (`ParallelPlan.SlicesAreTheStream`, `GapSegments.PlannersAgree`).

## Model

| member | source | states |
|---|---|---|
| AddressMap.TablesAgree | mem_counter.hpp:283-365 | the three switches agree page by page: an address has an offset exactly if it has a page, lies within that page's 64 MB, and its offset is its group of eight words in that page |
| AddressMap.AddrRoundTrip | mem_counter.hpp:277-309 | for every address: its offset, if any, lies in the table and in the page reported for it, and the address of (offset, owner) is the address rounded down to its word |
| AddressMap.OffsetRoundTrip | mem_counter.hpp:277-309 | every table entry of every thread has a word address of its own, owned by that thread, that maps back to it |
| AddressMap.ScanOrderIsAddressOrder | immutable_mem_planner.hpp:103-122 | (offset, thread) pairs are ordered exactly as their word addresses, and are equal exactly if those are |
| AddressMap.NextWord | mem_planner.hpp:173-178 | the running addr += 8 is right from thread to thread and from offset to offset within a page |
| AddressMap.EmptyPageOffsetIsHarmless | immutable_mem_planner.hpp:104-106 | the limits of an unused page ask for the address of offset 0xFFFFFFFF, which is mapped and so throws nothing |
| Chains.RecordKeepsWf | mem_counter.hpp:198-263 | every recording keeps the heap's shape: each allocated block is in exactly one chain at one place, chains have ceil(entries/7) blocks, lists are non-empty |
| Chains.ChainsAreDisjoint | mem_counter.hpp:198-263 | two places of two chains hold the same block exactly if they are the same place of the same chain |
| Chains.RecordKeepsSlotsExact | mem_counter.hpp:198-205 | the blocks allocated are the sum over all offsets of ceil(entries/7), after every recording |
| Chains.RecordAddsToGrandTotal | mem_counter.hpp:206-263 | a recording adds its count, and nothing else, to the sum of all counts |
| Chains.WalkSeesTheList | mem_counter.hpp:152-182 | walking a chain shows the whole recorded list if and only if the chain is not two blocks rooted at block 0; then it shows the list without its first seven entries |
| Chains.WalkPositionsDiffer | mem_planner.hpp:213 | two entries of a chain have the same position only if they are the same entry, so stopping at the last position stops at the last entry |
| Chains.EveryRunKeepsShape | mem_counter.hpp:206-263 | the shape and the exact slot count hold after every sequence of recordings |
| Chains.FirstAddressLosesEntries | mem_counter.hpp:77-159 | the first address recorded, in eight chunks, is read back with its eighth entry only |
| Chains.LosesIff | mem_counter.hpp:77-159 | the chain that loses its first block is that of the first offset recorded, exactly while it has 8 to 14 entries |
| SlotHeap.OpenChainRepresents | mem_counter.hpp:216-231 | writing a first block makes the array represent the book with the new chain, all other chains untouched |
| SlotHeap.BumpRepresents | mem_counter.hpp:236-239 | adding to the last entry's count does too, for a repeated chunk |
| SlotHeap.ExtendChainRepresents | mem_counter.hpp:240-254 | so does linking a new block behind a full one, the circular link included |
| SlotHeap.AppendRepresents | mem_counter.hpp:255-262 | so does appending a pair in a block with room |
| SlotHeap.InitialPosIsFirstStep | mem_counter.hpp:152-164 | get_initial_pos of the last position is where the walk starts |
| SlotHeap.ReadsWalk | mem_counter.hpp:152-182 | on every array that represents a book, get_initial_pos, get_pos_value and get_next_pos perform the walk step by step and meet the last position exactly at its last entry |
| Trace.IdealListAscends | mem_counter.hpp:206-263 | the ideal record of a word has strictly increasing chunks and positive counts |
| Trace.TouchIsWordOps | mem_counter.hpp:108-135 | a worker counts of an operation on the word of a table entry of its own exactly the operations that word gets; the else-if loses nothing |
| Trace.ListsAreIdeal | mem_counter.hpp:98-135 | after any well-formed trace a worker's list for each offset is the ideal record of that word |
| Trace.SharesAddUp | mem_counter.hpp:108-135 | the eight workers' counts of one operation add up to what the plain count gives it |
| Trace.WorkersCountEverything | tools.hpp:56-79 | over any well-formed trace the eight workers' totals sum to the plain operation count |
| Trace.CountOperations | tools.hpp:56-79 | the loop returns the sum of the operations' costs, modulo 2^32 |
| Capacity.CountingSucceedsIff | mem_counter.hpp:198-262 | a worker counts a well-formed trace without an error if and only if every word it counts is mapped and the blocks its words need, ceil(entries/7) each, are at most ADDR_SLOTS |
| Capacity.RunUsesNeeded | mem_counter.hpp:198-205 | a run has used exactly the blocks its trace needs |
| LostEntries.LosesIffFirstWord | mem_counter.hpp:77-159 | after any well-formed trace, a worker's chain loses its first block if and only if its word is the first one the worker counts and 8 to 14 chunks touch it |
| LostEntries.EightChunksLoseSeven | mem_counter.hpp:77-182 | a trace of eight chunks that access one mapped word once each: the chain is read back with the eighth entry only |
| MemCounter.CountedHolds | mem_counter.hpp:206-263 | one step of count_aligned takes arrays that hold a book to arrays that hold the book with the recording, or fails exactly if a block is needed and none is left |
| MemCounter.MemCounter.constructor | mem_counter.hpp:56-79 | a new counter holds the empty book |
| MemCounter.MemCounter.GetNextSlotPos | mem_counter.hpp:198-205 | the next free block's position, or the error when all are taken |
| MemCounter.MemCounter.CountAt | mem_counter.hpp:206-263 | the four branches, on the arrays, and the number of addresses |
| MemCounter.MemCounter.CountAligned | mem_counter.hpp:206-263 | records the count for the address's offset, keeps the representation and the table's counts; fails exactly on an unmapped address or without room, and then has recorded nothing |
| MemCounter.MemCounter.CountOp | mem_counter.hpp:111-134 | one operation of a chunk, branch by branch |
| MemCounter.MemCounter.ExecuteChunk | mem_counter.hpp:108-135 | the operations of a chunk in order, stopping at the first failure |
| MemCounter.MemCounter.Execute | mem_counter.hpp:98-107 | the chunks in order; a well-formed trace succeeds exactly if every word the worker counts is mapped and its words fit the slots, and then the counter holds the run's book |
| MemCounter.MemCounter.TableReads | mem_counter.hpp:183-189 | the table tells used offsets from unused ones and leads into the walk |
| MemCounter.MemCounter.StepReads | mem_counter.hpp:152-182 | the object's reads perform the walk of its book |
| MemCounter.MemCounter.PageLimits | mem_counter.hpp:228-230 | first and last offset of a page are the least and greatest used ones, or the empty-page marks |
| RowStream.StreamAscends | mem_planner.hpp:240-287 | addresses never decrease along the stream |
| RowStream.Locate | mem_planner.hpp:240-287 | every visit of the stream comes from one place of one cell |
| RowStream.EntryIsUnique | mem_planner.hpp:263-282 | exactly one entry holds row r |
| RowStream.SegmentIsSlice | mem_planner.hpp:152-222 | the pieces of segment [a, b) stand for exactly rows a to min(b, total) of the stream |
| Workers.VisitReads | mem_planner.hpp:196-215 | a planner reading a counter's chain gets the visits of the cell, in order, with their address |
| Workers.GetOffsetLimits | mem_planner.hpp:292-299 | the limits are the least and greatest offset of the page that any worker uses, or an empty range marked as such |
| Workers.PageIsCovered | mem_planner.hpp:242-243 | scanning between the limits is scanning the whole page |
| Workers.LastPageIsNotScanned | mem_planner.hpp:94-95 | a word of the planned range has a cell of its own, which is scanned if and only if the word is not in the page of the last byte |
| Workers.ConfiguredPages | mem_count_and_plan.hpp:82-88 | the three configured ranges leave out pages 11, 1 and 3 |
| CheckPoints.FoldDescribes | mem_segment.hpp:144-155 | in terms of the calls made: a summary has a checkpoint for exactly the chunks with a call, and each gives their rows, first address, rows there, last address, rows there and first skip |
| CheckPoints.ExtendDescribes | mem_check_point.hpp:37-48 | add_rows keeps a checkpoint right when one more piece comes |
| CheckPoints.PiecesCountRows | mem_check_point.hpp:37-48 | the pieces of a chunk count the chunk's rows |
| CheckPoints.MemCheckPoint.constructor | mem_check_point.hpp:18-34 | a checkpoint of one piece |
| CheckPoints.MemCheckPoint.AddRows | mem_check_point.hpp:37-48 | the fields after one more piece |
| CheckPoints.MemSegment.Of | mem_segment.hpp:114-118 | a segment with its first checkpoint |
| CheckPoints.MemSegment.AddOrUpdate | mem_segment.hpp:144-155 | opens the chunk's checkpoint or adds to it, and leaves all others alone |
| RowMeaning.FoldTellsRows | mem_segment.hpp:144-155 | in terms of rows: a chunk has a checkpoint exactly if it has rows in the segment or is that of a resumed entry without rows; the checkpoint counts the rows, ends with the last of them, and starts with the first unless it is that of the resumed entry |
| Locators.MemLocators.PushLocator | mem_locators.hpp:34-41 | appends a locator to those pushed |
| Locators.MemLocators.GetLocator | mem_locators.hpp:42-59 | a lone consumer claims the next unread locator, or gets null exactly if all are read |
| Locators.MemLocators.SetCompleted | mem_locators.hpp:60-62 | marks the plan completed |
| MemPlanner.CutHere | mem_planner.hpp:267-279 | when an entry fills the segment, the locator pushed is the plan's next |
| MemPlanner.PlanIsDone | mem_planner.hpp:234-291 | a generator at the end of the stream has pushed the whole plan: none for no visits, otherwise floor(rows/size) + 1 |
| MemPlanner.MemPlanner.CutEntry | mem_planner.hpp:258-282 | an entry is cut as often as it fills a segment |
| MemPlanner.MemPlanner.CutChain | mem_planner.hpp:257-285 | so is every entry of a chain |
| MemPlanner.MemPlanner.CutCell | mem_planner.hpp:245-285 | and of a cell, which may push the first locator |
| MemPlanner.MemPlanner.GenerateLocators | mem_planner.hpp:234-291 | the locators pushed are exactly the plan of the row stream, and the queue is completed |
| MemPlanner.LocatorEnters | mem_planner.hpp:160-166 | a plan's locator names an existing entry of a scanned cell, with skip at most its count, where its segment starts |
| MemPlanner.MemPlanner.Create | mem_planner.hpp:93-100 | the pages of the first and the last byte; the runtime_error exactly for memory that is unmapped or does not start a page |
| MemPlanner.MemPlanner.AddChunk | mem_planner.hpp:307-327 | opens or extends the segment, uses up its rows, and says whether more are wanted |
| MemPlanner.MemPlanner.AddVisit | mem_planner.hpp:197-212 | one more visit's rows; skip never exceeds count |
| MemPlanner.MemPlanner.RebuildChain | mem_planner.hpp:188-215 | the rest of a chain |
| MemPlanner.MemPlanner.ExecuteFromLocator | mem_planner.hpp:152-222 | from its locator alone, the segment rebuilt is the fold of exactly its pieces of the stream |
| MemPlanner.MemPlanner.ExecuteFromLocators | mem_planner.hpp:132-151 | a lone worker rebuilds every segment of the plan |
| LocatorQueue.StepKeepsInv | mem_locators.hpp:34-62 | every atomic step of the producer and of any worker keeps the queue's invariant |
| LocatorQueue.EmptyPoll | mem_locators.hpp:48-49 | a null result means the queue is empty at the load of write_pos; if it is completed by then, everything has been claimed |
| LocatorQueue.ClaimsAreExclusive | mem_locators.hpp:42-59 | in every interleaving the claimed slots are exactly those below read_pos, each claimed once, by one worker |
| LocatorQueue.PublishedSlotsAreFinal | mem_locators.hpp:34-41 | a published slot is fully written and never changes |
| LocatorQueue.AllClaimedMeansAllRight | mem_planner.hpp:132-151 | once all locators are claimed and stored, the segment map is the same whatever the schedule |
| LocatorQueue.NothingLeftIff | mem_planner.hpp:114-130 | when all workers have quit, nothing is left over if and only if one of them polled after the last publication |
| LocatorQueue.EarlyQuitLosesALocator | mem_planner.hpp:114-130 | a concrete run that quits with a locator unclaimed |
| QueueRuns.AskingGetsALocator | mem_locators.hpp:42-59 | in every reachable state with a locator in the queue, a worker that polls, or has loaded read_pos, gets the next one, after one failed compare-and-swap if its load is old |
| QueueRuns.AskingAnEmptyQueue | mem_planner.hpp:114-130 | a worker that asks an empty queue polls twice, then tests completion, and quits exactly if the plan is completed |
| QueueRuns.QuitsWhenCompleted | mem_planner.hpp:118-121 | no worker has quit before the plan is completed and published |
| QueueRuns.EveryPlanCanBeCarriedOut | mem_planner.hpp:132-151 | for every plan that fits the array and every number of workers there is a run that claims all of it, stores every result under its own number, and ends with all workers quit |
| ParallelPlan.RebuildIsExecute | mem_planner.hpp:144-146 | the queue's rebuild step is what ExecuteFromLocator ensures |
| ParallelPlan.ParallelIsSequential | mem_planner.hpp:132-222 | for every stream, segment size and interleaving in which all locators are claimed, key k of the segment map is exactly segment k of the sequential cut, and there are no other keys |
| ParallelPlan.ParallelPlanIsCarriedOut | mem_planner.hpp:132-222 | there are such runs, for every stream, every plan of it and any number of workers, and they end with the sequential cut |
| ParallelPlan.LocatorsCut | mem_planner.hpp:258-282 | locator k >= 1 names the entry that holds row k * rows, counting from 1, and its skip is the number of the entry's rows up to that one |
| ParallelPlan.PlanExists | mem_planner.hpp:234-291 | every stream of counters has a plan: no locators without visits, else floor(total/rows) + 1 |
| ParallelPlan.SegmentStandsForSlice | mem_planner.hpp:152-222 | segment k stands for rows [k * rows, min((k + 1) * rows, total)) |
| ParallelPlan.SliceLength | mem_planner.hpp:307-327 | every slice has `rows` rows, but for what is left of the stream at its end |
| ParallelPlan.SlicesAreTheStream | mem_planner.hpp:234-291 | all slices in order are the whole stream; the last is empty exactly if the rows are a multiple of the segment size |
| ParallelPlan.OnlyFirstSkips | mem_planner.hpp:188-212 | of a segment's calls only the first can have a skip; what that means for the checkpoints is ParallelPlan.CheckPointsTellRows |
| ParallelPlan.CheckPointMeaning | mem_check_point.hpp:37-48 | in every segment, whatever the entries' counts, each chunk's checkpoint counts the chunk's rows in the slice and describes the calls made for it |
| ParallelPlan.CheckPointsTellRows | mem_planner.hpp:307-327 | in every segment of a tidy stream: a chunk has a checkpoint exactly if it has rows in the slice or is that of the entry the cut falls at the end of; count, last address and rows there, first address and rows there and first row are those of the slice, except that the finished entry's chunk starts at that entry; all other chunks but the resumed one have from_skip 0 |
| ParallelPlan.CheckPointWithoutRows | mem_planner.hpp:307-318 | of two one-row visits cut into one-row segments, the second segment also has a checkpoint of the first visit's chunk, without rows |
| Instances.CutLeavesCheckPoint | mem_planner.hpp:307-318 | a two-operation trace for it, with its counters' books and its stream |
| ParallelPlan.TraceIsTidy | mem_counter.hpp:206-263 | the streams of counted traces are tidy: ascending addresses, positive counts, one entry at most for a chunk at an address |
| ParallelPlan.CellShowsWord | mem_counter.hpp:152-182 | a cell shows the ideal record of its word, without the first seven entries exactly in the two-block case |
| ParallelPlan.StreamIsTrace | mem_planner.hpp:240-287 | the rows planned never exceed the trace's operations on the scanned words, and equal them if and only if no scanned word has a two-block chain rooted at block 0 |
| ParallelPlan.ShortChunksFit | mem_counter.hpp:111-134 | chunks of fewer than 2^31 operations keep every count in its 32-bit word |
| EndToEnd.RecordHoldsOps | mem_counter.hpp:206-263 | a word's record holds, for each chunk, exactly the chunk's operations on it |
| EndToEnd.StreamHoldsOps | mem_planner.hpp:240-287 | the row stream holds, for each chunk, its operations on the scanned words, less exactly those in the entries that reading loses |
| EndToEnd.EveryOperationIsPlannedOnce | mem_count_and_plan.hpp:97-140 | for every trace, segment size and interleaving in which all locators are claimed and stored: over all segments the checkpoints of a chunk count the chunk's operations on the planned words, less exactly those in the entries that reading loses |
| EndToEnd.AllPlannedIff | mem_count_and_plan.hpp:97-140 | they count all operations of all chunks if and only if no planned word is the first one its worker counts and is touched by 8 to 14 chunks |
| EndToEnd.SequentialPlanCounts | mem_count_and_plan.hpp:97-145 | the same sum for the segments the sequential planner leaves behind: the operations, less those that reading loses, and one more for every gap before an operation of the chunk that ends on a segment boundary |
| EndToEnd.TraceIsPlanned | mem_count_and_plan.hpp:97-140 | every well-formed trace of short chunks that the counters can count and whose plan fits has the counters' books, a plan and a run of any number of workers, after which the checkpoints of a chunk count its operations on the planned words, less those that reading loses |
| EndToEnd.TraceIsFeed | mem_counter.hpp:98-111 | the trace of a feed has, for every chunk added, that chunk's first `count` operations in its place |
| EndToEnd.FeedIsCounted | mem_counter.hpp:98-107 | if all counters have quit and none missed a chunk, their books count the trace whose chunk k is the first added[k].count operations of added[k].data |
| EndToEnd.FeedAddsUp | tools.hpp:56-79 | the books of such counters sum to the plain count of added[k].data[i] over all k and all i < added[k].count |
| EndToEnd.FeedCanBeCounted | mem_context.hpp:37-54 | and there are such counters: every feed whose words fit has a run in which eight readers see all of it, count it and quit |
| Phases.CountPhase | mem_count_and_plan.hpp:107-120 | eight new counters over a trace go well exactly if each one's words are mapped and fit, and then are ready for the planners, with the books of the trace |
| Phases.PlanParallel | mem_count_and_plan.hpp:122-133 | the generator and then one worker leave exactly the segments of the sequential cut of the configured range |
| Phases.PlanSequential | mem_count_and_plan.hpp:127-128 | the sequential planner's closed segments are those of the row axis of its range, skipped words as a set included |
| GapRows.NewOpAtEndIsGood | immutable_mem_planner.hpp:208-215 | an operation that starts where a segment ends: the full segment gets the extra row if a gap led up to it, and the next one resumes at the previous operation |
| GapRows.OpenedIsGood | immutable_mem_planner.hpp:183-197 | a segment opened when the last is full resumes at the last operation started |
| GapRows.RowsAreGood | immutable_mem_planner.hpp:228-230 | rows placed in the current segment are one more piece of it, and of no other |
| GapRows.GapIsDistance | immutable_mem_planner.hpp:280-288 | a gap of n implicit rows leads from a word to the word 8 * (n + 1) bytes further |
| GapRows.GapTotalIs | immutable_mem_planner.hpp:269-288 | the row axis has the rows of all visits and one for each word between the base and the last visit that no visit names |
| GapRows.LayoutPlaces | immutable_mem_planner.hpp:137-143 | a visit starts on the axis after the rows of the visits before it and one row for each word skipped up to it |
| GapPlanner.PlaceAllIsGood | immutable_mem_planner.hpp:259-267 | placing all rows of an operation, over as many segments as it takes, keeps every segment right |
| GapPlanner.SkipAllIsGood | immutable_mem_planner.hpp:250-257 | so does placing implicit rows |
| GapPlanner.AddedIsGood | immutable_mem_planner.hpp:137-143 | adding an entry keeps every segment, closed or current, equal to its part of the row axis |
| GapPlanner.LastClosed | immutable_mem_planner.hpp:152-159 | at the end there are ceil(total/rows) segments, each right |
| GapPlanner.ImmutableMemPlanner.Create | immutable_mem_planner.hpp:60-83 | an empty first segment, nothing referenced, the pages of the first and the last byte; the runtime_error exactly for memory that is unmapped or does not start a page |
| GapPlanner.ImmutableMemPlanner.OpenSegment | immutable_mem_planner.hpp:183-197 | closes the current segment and opens the next with the reference operation and its skip |
| GapPlanner.ImmutableMemPlanner.ConsumeRows | immutable_mem_planner.hpp:216-231 | the too-many-rows error occurs exactly if more rows are asked for than are left |
| GapPlanner.ImmutableMemPlanner.AddRows | immutable_mem_planner.hpp:259-267 | terminates although passes may place no row, and never meets the error |
| GapPlanner.ImmutableMemPlanner.AddIntermediateRows | immutable_mem_planner.hpp:250-257 | likewise for implicit rows |
| GapPlanner.ImmutableMemPlanner.AddIntermediates | immutable_mem_planner.hpp:269-288 | places as many implicit rows as there are words strictly between the last address and this one, and returns their number |
| GapPlanner.ImmutableMemPlanner.AddToCurrentSegment | immutable_mem_planner.hpp:137-143 | the whole effect of one entry |
| GapPlanner.ImmutableMemPlanner.CloseLastSegment | immutable_mem_planner.hpp:152-159 | closes the current segment exactly if it has rows |
| GapPlanner.ImmutableMemPlanner.AddChain | immutable_mem_planner.hpp:110-120 | the entries of a chain, in order |
| GapPlanner.ImmutableMemPlanner.AddOffset | immutable_mem_planner.hpp:107-122 | the eight cells of an offset, with the running address |
| GapPlanner.ImmutableMemPlanner.Execute | immutable_mem_planner.hpp:97-126 | the segments left behind are ceil(total/rows) many, each records exactly its part of the row axis, and total is the visits' rows plus the size of the set of words the scan skips |
| GapPlanner.SegmentsOfScan | immutable_mem_planner.hpp:97-126 | so the number of segments is given by the visits' rows and the set of skipped words alone |
| GapSegments.SegmentResumes | immutable_mem_planner.hpp:183-197 | every later segment resumes at the last operation started before it, with from_skip its rows already placed |
| GapMeaning.SegmentsTellRows | immutable_mem_planner.hpp:183-231 | the checkpoints of every segment left behind count the chunk's rows on its part of the row axis, the odd row included, and start and end with them, except that a finished operation the segment resumes has one that starts at that operation |
| GapMeaning.SegmentsRecordTheStream | immutable_mem_planner.hpp:97-126 | over all segments left behind, the checkpoints of a chunk count each of its rows once, and one more for every gap before an operation of the chunk that ends on a segment boundary |
| GapMeaning.EachRowOnceIff | immutable_mem_planner.hpp:97-126 | they count every row of every chunk once if and only if no gap ends on a segment boundary |
| GapMeaning.OneRowIsRecordedTwice | immutable_mem_planner.hpp:208-215 | of two one-row visits a word apart, in two-row segments, the second is counted by the checkpoints of both segments |
| Instances.GapCountsTwice | immutable_mem_planner.hpp:208-215 | a two-operation trace for it, with its counters' books and its stream |
| GapSegments.PlannersAgree | immutable_mem_planner.hpp:97-126 | where no word is skipped, the sequential planner's segments are the parallel planner's, less a last empty one |
| GapSegments.TraceIsScannable | immutable_mem_planner.hpp:97-126 | counters filled from a trace meet the planner's assumptions, and their stream is tidy |
| AlignCounter.SlotsMatch | mem_align_counter.hpp:66-88 | the last checkpoint ends with the last operation packed, within its segment |
| AlignCounter.CheckPointsTile | mem_align_counter.hpp:50-88 | the (skip, count) runs of the checkpoints name exactly the unaligned operations of the chunks, in order, without gap or overlap |
| AlignCounter.SegmentsArePacked | mem_align_counter.hpp:66-88 | no segment exceeds its rows, every one before the last wastes at most four, and each checkpoint's offset is the sum of the rows before it in its segment |
| AlignCounter.SegmentBound | mem_align_counter.hpp:66-88 | the segments are at most ceil(total/(rows - 4)) and hold all rows |
| AlignCounter.RowsAreOperations | mem_align_counter.hpp:56-62 | the rows packed are the plain count's operations of the unaligned accesses plus one for each |
| AlignMeaning.ItemOfOp | mem_align_counter.hpp:50-65 | every unaligned operation of every chunk is packed, in trace order, under its number in its chunk, with one row more than its plain count |
| AlignMeaning.UnalignedCount | mem_align_counter.hpp:56-63 | that number is how many operations before it in its chunk are not full aligned words |
| AlignMeaning.CheckPointSays | mem_align_counter.hpp:66-88 | each checkpoint names the next `count` operations, of one chunk and consecutively numbered from skip, takes exactly their rows, and starts right behind the one before it if its first operation fits there, else in a new segment; all checkpoints together account for all operations |
| AlignCounter.TraceInSequence | mem_align_counter.hpp:50-65 | the operations to pack take two to five rows and are numbered from 0 in each chunk |
| AlignCounter.MemAlignCounter.AddMemAlignOp | mem_align_counter.hpp:66-79 | one more operation: the counter holds the ideal packing with it |
| AlignCounter.MemAlignCounter.ExecuteChunk | mem_align_counter.hpp:50-65 | all unaligned operations of a chunk |
| AlignCounter.MemAlignCounter.Execute | mem_align_counter.hpp:40-49 | the checkpoints are the ideal packing of the whole trace |
| HashIndex.SetIsMapUpdate | mem_segment.hpp:41-43 | set is a map update, for every position the mask covers |
| HashIndex.LookupIsMap | mem_segment.hpp:44-51 | get finds a key exactly if it was set since the last reset, and with its position |
| HashIndex.ResetIsEmptyMap | mem_segment.hpp:52-61 | fast_reset empties the map in every generation, and clears the table exactly when the tags run out |
| HashIndex.ValuesBelowNextTag | mem_segment.hpp:41-61 | every stored value lies below the next generation's tag |
| HashIndex.SetThenGet | mem_segment.hpp:41-51 | a position comes back if and only if it is at most the mask |
| HashIndex.IndexIsMap | mem_segment.hpp:41-61 | over every sequence of operations, wraparounds included, the answers are those of a plain map that resets empty |
| HashIndex.UsableCommands | mem_segment.hpp:41-61 | usable sequences may be continued by any get, any reset, and any set of a position the mask covers |
| HashIndex.FloorLogBounds | mem_segment.hpp:17-24 | the tag unit is the largest power of two not above the number of keys |
| HashIndex.MemSegmentHashTable.GetHashBits | mem_segment.hpp:17-24 | the loop computes that exponent |
| HashIndex.MemSegmentHashTable.constructor | mem_segment.hpp:26-31 | a new table is empty |
| HashIndex.MemSegmentHashTable.Set | mem_segment.hpp:41-43 | writes the tagged position, whatever it is; the table stays a map, with the key updated, if the mask covers it |
| HashIndex.MemSegmentHashTable.Get | mem_segment.hpp:44-51 | the map's answer |
| HashIndex.MemSegmentHashTable.FullReset | mem_segment.hpp:52-55 | clears the table |
| HashIndex.MemSegmentHashTable.FastReset | mem_segment.hpp:56-61 | empties the map |
| RingQueue.MaskCountsModulo | circular_queue.hpp:19-29 | a capacity that passes the compile-time test makes the mask count modulo the capacity |
| RingQueue.StepKeepsInv | circular_queue.hpp:27-53 | every atomic step of either thread keeps the ring's invariant |
| RingQueue.FirstInFirstOut | circular_queue.hpp:27-53 | in every interleaving the items popped are the first ones pushed, in order, and at most capacity - 1 are in flight |
| RingQueue.WritesFreeCell | circular_queue.hpp:36 | the cell written is not that of any unread item |
| RingQueue.GivingUp | circular_queue.hpp:31-48 | push and pop give up only on a full or an empty queue, and then change nothing |
| RingQueue.FullTest | circular_queue.hpp:32 | the producer's test holds exactly if capacity - 1 items are in flight |
| RingQueue.EmptyTest | circular_queue.hpp:46 | the consumer's test holds exactly if none is |
| RingRuns.PushedIsCompleted | circular_queue.hpp:27-39 | in every run the items pushed are those of the pushes that stored the tail, in order |
| RingRuns.RoomMeansPush | circular_queue.hpp:27-39 | in every reachable state with room, an idle producer's four steps push its item |
| RingRuns.ItemMeansPop | circular_queue.hpp:42-53 | in every reachable state with an item in flight, an idle consumer's four steps pop the oldest |
| RingRuns.ItemsGoThrough | circular_queue.hpp:27-53 | any sequence of items can be sent through any ring of two cells or more |
| RingQueue.CircularQueue.Push | circular_queue.hpp:27-39 | appends the item, or fails exactly if the queue is full |
| RingQueue.CircularQueue.Pop | circular_queue.hpp:42-53 | takes the oldest item, or fails exactly if the queue is empty |
| Bits.MaskIsRemainder | circular_queue.hpp:22 | masking with 2^n - 1 is the remainder by 2^n |
| Bits.OrIsSum | mem_segment.hpp:42 | setting low bits of a multiple of 2^n is adding them |
| Bits.PowerOfTwoTest | circular_queue.hpp:19-20 | c & (c - 1) is 0 if and only if c is a power of two |
| ChunkFeed.MemContext.AddChunk | mem_context.hpp:49-54 | appends a chunk to those added |
| ChunkFeed.MemContext.Clear | mem_context.hpp:33-36 | empties the feed |
| ChunkFeed.MemContext.SetCompleted | mem_context.hpp:55-57 | marks the feed completed |
| ChunkFeed.MemContext.Size | mem_context.hpp:58-60 | the number of chunks added |
| ChunkFeed.ReadersSeePrefixes | mem_context.hpp:37-54 | in every interleaving each reader has seen a prefix of the chunks added, in order and whole |
| ChunkFeed.MissesNothingIff | mem_context.hpp:37-45 | a reader that quit has seen every chunk if and only if none was published after its last load of the count; a load after completion is enough |
| ChunkFeed.EarlyQuitMissesAChunk | mem_context.hpp:37-45 | a concrete run that quits without a chunk |
| FeedRuns.AskingSeesTheNext | mem_context.hpp:37-45 | in every reachable state in which an asking reader has not seen all that is published, its next three steps read the next chunk, whole |
| FeedRuns.AskingForMore | mem_context.hpp:37-43 | a reader that has seen all there is, and asks, quits exactly if the feed is completed |
| FeedRuns.QuitsWhenCompleted | mem_context.hpp:37-43 | no reader has quit before the feed is completed |
| FeedRuns.EveryFeedCanBeSeen | mem_context.hpp:37-54 | for every sequence of chunks that fits and every number of readers there is a run after which all of them have seen all of it and quit |

## Left out

- Machine memory orders: atomic steps are sequentially consistent, the relaxed publication of `push_locator` included; `MemSegments::set` is one atomic map update.
- That no worker or reader quits early: false; the exact conditions are stated instead.
- MemCounter.MemCounter.CountAligned: the book's counts are unbounded and the array holds them modulo 2^32; that they fit is a premise where rows are compared with the trace (`CountsFit`), met by chunks of fewer than 2^31 operations (`ParallelPlan.ShortChunksFit`).
- MemCounter.MemCounter.Execute: after a failure (an exception in the source, which ends the program) the table's counts may be ahead of the book, and nothing is said of later reads.
- MemPlanner.MemPlanner.GenerateLocators: assumes that the plan fits the locator array, which the source does not check.
- Locators.MemLocators.PushLocator: assumes room in the array, likewise; ChunkFeed.MemContext.AddChunk does so for chunks.
- GapPlanner.ImmutableMemPlanner.Execute: assumes no chunk is numbered NO_CHUNK_ID, which holds of every trace (`GapSegments.TraceIsScannable`), and pages inside the map.
- GapPlanner.ImmutableMemPlanner.AddIntermediates: assumes both addresses are words, as the scan guarantees.
- AlignCounter.MemAlignCounter.Execute: assumes fewer than 2^31 unaligned operations, so that segment numbers fit; sizes other than 1, 2, 4 and 8 fail an assertion in the source and are excluded.
- HashIndex.MemSegmentHashTable.Set: for a position above the mask only the array is stated, and not what later calls make of it, since `HashIndex.SetThenGet` shows that it is lost.
- HashIndex.IndexIsMap: assumes positions the mask covers.
- RingQueue.CircularQueue.Push: the object runs one operation at a time; concurrent use is the step system beside it.
- RingQueue.CircularQueue.Pop: likewise.
- Locators.MemLocators.GetLocator: a lone consumer, whose compare-and-swap succeeds at once; contention is in LocatorQueue.
- MemPlanner.MemPlanner.ExecuteFromLocators: a lone worker on a completed queue, without the polling loop; many workers are in LocatorQueue.
- Polling loops of `get_chunk` and `get_next_locator` appear as steps only, since alone they need not end.
- The nested scanning loops are split into one method per loop; the order of visits and the running address are kept.
- Masks and shifts of addresses and positions are written as division and remainder by powers of two.
- `tot_count`, `debug_row` and `is_last_segment`, which are diagnostic only.
- `get_new_hash_id` (unused), `collect_segments` (moves the finished segments into a map by index), `DIRECT_MEM_LOCATOR`, `MEM_PLANNER_STATS` and `SEGMENT_STATS` code.
- The branches compiled without `MEM_CHECK_POINT_MAP`, except the hash table itself; mem_planner_org.hpp, which is not compiled.
- Threads, timing, sleeping, printing, statistics, memory allocation, file loading, main.cpp, mem_test.hpp and tools.cpp.
- Phases.CountPhase: the counters run one after the other, since they share nothing but the feed; how readers of the feed interleave is ChunkFeed's. The align counter of the same phase is AlignCounter's.
- Phases.PlanParallel: one worker after the generator; any number of them at once is LocatorQueue's. All counting is joined before planning starts, which is why planners read counters that do not change.
- That the scheduler serves every thread: progress is stated of a thread's own next steps.
