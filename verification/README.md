# SimpleSSD: a verified model of its allocators, mapping tables and queues

This project models the parts of SimpleSSD that keep invariants over whole runs, and proves what
each of them promises. The models follow the C++ code branch by branch; where code and intent part,
the code is kept, a concrete input shows the difference, and the exact condition under which the
promise holds is proved. Nothing was executed.

| file | models |
|---|---|
| `Timelines.dfy`, `Pal2.dfy` | PAL2, which places DMA0, the cell operation and DMA1 of a command on one channel and one die |
| `Blocks.dfy`, `MappingTable.dfy`, `FreeLists.dfy`, `Collection.dfy`, `VictimSelection.dfy`, `OpenCursor.dfy`, `PageMapping.dfy`, `SingleUnit.dfy` | the page-mapping FTL: blocks, the mapping table, the wear-sorted free list, the open blocks, garbage collection, and the latter with one unit per page |
| `Fifo.dfy`, `WriteFifo.dfy`, `ReadFifo.dfy` | the DMA FIFO: splitting, and the two event-driven pipelines |
| `CacheLines.dfy`, `Eviction.dfy`, `EvictedLines.dfy`, `Flush.dfy`, `WriteCache.dfy` | the write cache: placement, eviction, flush |
| `Superblock.dfy` | the geometry of superblocks and their expansion to flash pages |
| `LbaFormat.dfy`, `Chunks.dfy` | Open-Channel SSD 2.0: packed addresses, chunk states, vector writes and resets |
| `Namespaces.dfy` | the namespace page allocator and namespace IDs |
| `NvmeQueues.dfy` | the NVMe completion ring with its phase tag, and the submission ring |
| `Arithmetic.dfy`, `Options.dfy` | shared arithmetic facts, the option type |

Objects that the source changes in place are classes whose methods change their fields; arrays it
works in are arrays. Each method's `ensures` gives the new state as a function of the old one, or by
a predicate of both, and the lemmas are about those functions and predicates. A panic of the source is
an `ok` result that is false.
SimpleSSD stores no user data, so every write carries a ghost number, and "the data" of a unit means
the number of the write it came from. `hide` statements only keep proofs small. Automatic induction
is off on every lemma.

## Where the code falls short

Each of these is proved, with an input and the exact condition.

- PAL2 forgets free pieces shorter than its smallest bucket key. The room found for DMA1 can be in
  such a piece, and DMA1 then ends after the die reservation (`Pal2.RoomCanBeLost`). The condition is
  exact (`Pal2.Dma1AfterDma0`, `Pal2.GrantedInOrder`), and a smallest key of at most latDMA1 + latANTI
  rules it out (`Pal2.SmallKeyKeepsRoom`).
- The nested placement search does not always pick the first possible start (`Pal2.StartIsPassedOver`).
  A possible start is passed over exactly if it lies between a candidate that was rejected and the tick
  the search goes on at (`Pal2.PassedOverExactly`, `Pal2.ScheduleIsFirstExactly`).
- Garbage collection can erase a block that is still open, and the next write to its position panics
  (`PageMappings.OpenBlockIsErased`). With open
  blocks in use before, they are in use afterwards exactly if every victim that is open is at a position
  that the cursor visits for the victims' pages with valid units
  (`PageMappings.PageMapping.DoGarbageCollection`, `OpenCursors.OpenOutlastErase`).
- With one unit per page the collector copies the invalid pages of its victims as well. A collection
  panics exactly if a page of a victim stores a logical page that is not in the table
  (`SingleUnits.CollectionReads`). Otherwise a logical page reads as before exactly if no page of a
  victim stores it or the last one that does, in the order of collection, is its valid page, unless
  two writes of it had the same data (`SingleUnits.ReadKeptExactly`). On an input greedy selection
  brings overwritten data back (`SingleUnits.OldDataReturn`).
- A trim panics exactly on a logical page that is in the table with some unit not mapped, that is, one
  that does not read (`PageMappings.PageMapping.Trim`, `PageMappings.TrimReadyByReads`,
  `PageMappings.PartlyMappedPage`).
- A cache flush never resets its I/O flag, so later requests name units of earlier lines, and it
  writes dirty lines that are no longer valid. Two inputs lose data (`Flushes.FlushLosesData`,
  `Flushes.StaleLineLosesData`). The newest data of a logical cache address (LCA) survive a flush
  exactly if a dirty line keeps them, or the last line in scan order whose request names the LCA holds
  them, or no request names it and the FTL has them (`Flushes.FlushKeepsExactly`). The requests write
  only units of valid lines, each from its own line, exactly if the flushable lines are valid and share
  a unit position (`Flushes.FlushIsExact`).
- After a refused entry a vector chunk reset still frees the descriptors of later closed chunks, whose
  erases are not sent. Descriptor and flash of a chunk agree exactly if it is not one of those
  (`Chunks.ResetExactly`); otherwise a page of it can be programmed twice without an erase
  (`Chunks.ResetThenWriteTwice`).
- Packed addresses are shifted as 32-bit words, and one can be lost (`LbaFormat.AddressIsLost`). All
  addresses are parsed back exactly if the largest shifted coordinates fit in 32 bits
  (`LbaFormat.RoundTripExactly`).

## Assumptions

- PAL2: latDMA0, latDMA1 and latANTI are at least 1; ticks do not overflow 64 bits.
- FTL: at least two units per page, with the random tweak on or off (collections with one unit: see
  `SingleUnits.CollectionReads`).
- FIFO: the upstream calls back exactly once for each transfer, not from within the call; a handler may
  submit further requests. The events may be interleaved in any way.
- Cache: read caching is off; ticks stored in lines are below the largest 64-bit value and otherwise
  arbitrary.
- Open-Channel: LBAs are in range; a page is a whole number of logical blocks; a vector command has
  at most 64 LBAs, as its 6-bit count gives.
- Namespaces: a creation or deletion runs as a whole, and a creation starts from a description with
  an empty range.
- Completion ring: the host only acknowledges entries that are there.

## Model

| member | source | states |
|---|---|---|
| `Timelines.UpperBound` | pal/old/PAL2.cc:754-755 | the first slot starting after a tick splits an ordered row |
| `Timelines.MapInsert` | pal/old/PAL2.cc:859-860 | insertion keeps the row ordered and does nothing for a start tick that is taken |
| `Timelines.SearchBucket` | pal/old/PAL2.cc:754-777 | the search of one bucket finds the slot that can serve earliest, or none exactly if none can |
| `Timelines.FindFreeTime` | pal/old/PAL2.cc:721-789 | the answer over the buckets is the best over all tracked slots, and fails exactly if no slot can serve |
| `Timelines.SearchIsScan` | pal/old/PAL2.cc:721-789 | such an answer is that of trying every tick in turn: the earliest free tick, and failure exactly if no tracked slot can serve |
| `Timelines.EarliestFit` | pal/old/PAL2.cc:235-249 | the naive scan ends by the start point at the first free tick |
| `Timelines.Timeline.constructor` | pal/old/PAL2.cc:24-178 | a new timeline tracks nothing and is free from tick 0 |
| `Timelines.Timeline.Place` | pal/old/PAL2.cc:235-249 | a caller settles on the earliest tick and the stretch it lies in |
| `Timelines.Timeline.AddFreeSlot` | pal/old/PAL2.cc:852-862 | a slot is tracked in the bucket of its length, or dropped if it is shorter than every key |
| `Timelines.Timeline.InsertFreeSlot` | pal/old/PAL2.cc:791-850 | the interval leaves the free stretch, what is long enough of the rest stays tracked, and reservations stay disjoint from each other and from what is free |
| `Timelines.Timeline.EraseSlot` | pal/old/PAL2.cc:815-847 | exactly the slot with the start tick is erased |
| `Timelines.RegionUnique` | pal/old/PAL2.cc:819-824 | a free interval lies in one stretch only, so the start tick names it |
| `Timelines.RoomAfterCarve` | pal/old/PAL2.cc:791-862 | after an interval is taken a later free interval is still free exactly unless the rest of its slot was dropped |
| `Timelines.CarvedReserved` | pal/old/PAL2.cc:791-850 | carving keeps all reservations pairwise disjoint and out of the free track |
| `Timelines.CarvedTicks` | pal/old/PAL2.cc:791-862 | taking or cutting out an interval leaves every other free tick free, but for remainders shorter than the smallest key |
| `Timelines.CutSeparates` | pal/old/PAL2.cc:375-396 | where a free stretch was cut, no tracked slot reaches across either end of the cut, and the start point is not before it |
| `Timelines.FlushKeepsAnswers` | pal/old/PAL2.cc:660-677 | flushing at a tick changes no answer for searches from that tick on |
| `Timelines.FlushBucket` | pal/old/PAL2.cc:660-677 | exactly the slots that ended before the tick leave the bucket |
| `Timelines.Timeline.Flush` | pal/old/PAL2.cc:660-677 | exactly the slots that ended before the tick leave the timeline |
| `Pal2.JointFit` | pal/old/PAL2.cc:233-292 | the first tick at which both DMA0 and the cell operation fit, never past the start points |
| `Pal2.Schedule` | pal/old/PAL2.cc:230-327 | the scheduled tick is not past the start points, and DMA0, the cell operation and the die time fit there |
| `Pal2.JointRound` | pal/old/PAL2.cc:233-292 | one round of the inner loop finishes at the joint tick or moves on without passing one |
| `Pal2.FindJoint` | pal/old/PAL2.cc:233-292 | the inner loop ends, at the first joint tick |
| `Pal2.FindDma1` | pal/old/PAL2.cc:294-313 | room for DMA1 is the first after the cell operation, and the die is held to its end |
| `Pal2.ScheduleRound` | pal/old/PAL2.cc:231-327 | one round of the outer loop finishes at the schedule or moves on, by at least a tick, without changing it |
| `Pal2.FindSlots` | pal/old/PAL2.cc:230-327 | the outer loop ends, at the schedule |
| `Pal2.ScheduleSkips` | pal/old/PAL2.cc:230-327 | a possible start before the schedule was passed over only for a candidate with a longer die time |
| `Pal2.PassedOverExactly` | pal/old/PAL2.cc:230-327 | a possible start is passed over exactly if it lies between a rejected candidate and the tick the search goes on at |
| `Pal2.ScheduleIsFirstExactly` | pal/old/PAL2.cc:230-327 | the schedule is the first possible start exactly if no possible start lies in such a gap |
| `Pal2.StartIsPassedOver` | pal/old/PAL2.cc:230-327 | an input on which a possible start at tick 20 is passed over for tick 1000 |
| `Pal2.ScheduleIsEarliest` | pal/old/PAL2.cc:230-327 | when DMA1 never waits for the channel, the schedule is the first possible start |
| `Pal2.Dma1AfterDma0` | pal/old/PAL2.cc:331-353 | once DMA0 is taken, DMA1 still goes where it was planned exactly unless its room was dropped |
| `Pal2.SmallKeyKeepsRoom` | pal/old/PAL2.cc:852-862 | a smallest key of at most latDMA1 + latANTI keeps the room |
| `Pal2.RoomCanBeLost` | pal/old/PAL2.cc:331-347 | an input on which the room for DMA1 is lost |
| `Pal2.AssignDmas` | pal/old/PAL2.cc:331-353 | DMA0 and DMA1 are reserved on the channel, DMA1 at the end of the room found again for it |
| `Pal2.TimelineScheduling` | pal/old/PAL2.cc:207-588 | the command is granted its schedule, exactly its intervals are reserved, and they are taken from the free ticks of its channel and die; the stretch after DMA0 is cut two gaps further on exactly if it is free that far |
| `Pal2.CommandTicks` | pal/old/PAL2.cc:331-396 | after a command a tick of the channel is free exactly if it was, is in neither DMA and in no remainder too short to be kept; if the two gaps after DMA0 were free, no slot reaches across their end, and the start point is not before it |
| `Pal2.GrantedInOrder` | pal/old/PAL2.cc:207-588 | arrival, DMA0, cell operation and DMA1 come in order, and DMA1 ends with the die reservation exactly if its room was not lost |
| `Pal2.DieIdxInRange` | pal/old/PAL2.cc:864-872 | the die index of an address in the geometry is in range |
| `Pal2.DieIdxInjective` | pal/old/PAL2.cc:864-872 | different dies have different indices |
| `Pal2.PAL2.constructor` | pal/old/PAL2.cc:24-178 | one separate, empty timeline for each channel and each die |
| `Pal2.PAL2.Submit` | pal/old/PAL2.cc:590-592 | the grant is the schedule at the free ticks found, and goes on record with its channel and its die; their free ticks are those the command leaves, and all other channels and dies stay as they are |
| `Pal2.PAL2.FlushFreeSlots` | pal/old/PAL2.cc:646-658 | on every channel and die exactly the slots that ended before the tick go, and all reservations stay |
| `Pal2.PAL2.Run` | pal/old/PAL2.cc:207-677 | in any run of submits and flushes each grant is the schedule at the free ticks that the commands before it led to; every command is served in order of its phases, and no two commands overlap on a channel or a die |
| `Blocks.Block.Write` | ftl/common/block.cc:294-335 | a unit is written exactly if it is erased and not before the write pointer; it becomes valid, owned and not erased, and the pointer follows |
| `Blocks.Block.Invalidate` | ftl/common/block.cc:356-363 | exactly that valid bit is cleared |
| `Blocks.Block.Erase` | ftl/common/block.cc:337-354 | every unit is erased, none valid, all pointers are back and the erase count is one higher |
| `Blocks.Block.GetNextWritePageIndex` | ftl/common/block.cc:240-250 | the furthest write pointer |
| `Blocks.Block.GetValidPageCount` | ftl/common/block.cc:189-204 | the number of pages with a valid unit |
| `Blocks.NoValidPages` | ftl/common/block.cc:189-204 | that number is zero exactly if no unit is valid |
| `Blocks.Block.GetValidPageCountRaw` | ftl/common/block.cc:206-220 | the number of valid units |
| `Blocks.WriteKeeps` | ftl/common/block.cc:294-335 | units stay written in page order, exactly those from the pointer on erased |
| `Blocks.EraseMakesFresh` | ftl/common/block.cc:337-354 | an erased block is as good as new |
| `MappingTable.MappingIsBijection` | ftl/page_mapping.cc:674-778 | the table names a unit exactly if that unit is valid, in a block in use, and owned by the entry |
| `MappingTable.MappedEqualsValid` | ftl/page_mapping.cc:682-760 | as many logical units are mapped as the blocks in use count valid ones |
| `MappingTable.InvalidateStep` | ftl/page_mapping.cc:682-696 | invalidating an entry's unit keeps the bijection but for that entry |
| `MappingTable.WriteStep` | ftl/page_mapping.cc:734-760 | writing the unit at the write pointer restores it |
| `MappingTable.WriteLooks` | ftl/page_mapping.cc:734-760 | the written unit reads as the new data, every other as before |
| `MappingTable.MoveStep` | ftl/page_mapping.cc:539-559 | moving a valid unit finds its entry, hits an erased unit at its pointer, keeps the bijection and changes no read |
| `MappingTable.RemoveStep` | ftl/page_mapping.cc:825-838 | a logical page with all units invalidated can leave the table |
| `MappingTable.RemoveBlockStep` | ftl/page_mapping.cc:844-894 | nothing is mapped to a block without valid units |
| `FreeLists.FirstOfClassIsLeastWorn` | ftl/page_mapping.cc:305-347 | the block taken is a least-worn one of its class, or a least-worn one overall if the class is empty |
| `FreeLists.TakeKeeps` | ftl/page_mapping.cc:305-347 | taking it keeps wear order and the partition of blocks into in use, free and retired |
| `FreeLists.FindByWear` | ftl/page_mapping.cc:866-883 | the search from the most worn end stops behind every block worn no more |
| `FreeLists.InsertKeeps` | ftl/page_mapping.cc:866-888 | inserting there keeps wear order and the partition |
| `FreeLists.RetireKeeps` | ftl/page_mapping.cc:863-891 | retiring a worn-out block keeps the partition |
| `FreeLists.FreeCount` | ftl/page_mapping.cc:863-891 | free, used and retired blocks add up to all blocks |
| `FreeLists.OpenedKeeps` | ftl/page_mapping.cc:349-379 | opening a block keeps every mapping and leaves a block with room |
| `FreeLists.FillOfReplacement` | ftl/page_mapping.cc:366-376 | replacing a full open block takes a block's worth of pages off what the open blocks hold |
| `Collections.MovingNext` | ftl/page_mapping.cc:539-577 | each valid unit of a victim's page has an entry and room in the open block, and moving it changes no read |
| `Collections.MovedPageCollected` | ftl/page_mapping.cc:519-581 | the page ends empty, other full blocks are untouched, and its valid units were each moved once |
| `Collections.EmptiedNext` | ftl/page_mapping.cc:511-589 | victim by victim, the moves add up to their valid counts |
| `Collections.FundedCanOpen` | ftl/page_mapping.cc:349-379 | while moves are due, a full open block finds a free block |
| `Collections.FundedEnd` | ftl/page_mapping.cc:511-615 | collecting n victims with P open blocks takes at most n + P - 1 free ones, so one is left when erases begin |
| `Collections.FundedStep` | ftl/page_mapping.cc:521-577 | one page move is paid for by a page of an open block |
| `OpenCursors.OpenedReplaces` | ftl/page_mapping.cc:366-376 | a visit to an open position leaves no full block open there, and the other positions as they are |
| `OpenCursors.TurnsGoRound` | ftl/page_mapping.cc:349-364 | the open positions are taken in turn, round and round |
| `OpenCursors.AdvancesExactly` | ftl/page_mapping.cc:349-364 | in any sequence of requests the cursor advances exactly on a request for a unit that was used since it last advanced |
| `OpenCursors.PagesTurnNext` | ftl/page_mapping.cc:517-528 | page by page, the positions visited are those of the fold over the pages with valid units |
| `OpenCursors.OpenOutlastErase` | ftl/page_mapping.cc:511-615 | the open blocks outlast the erasing exactly if every open victim was at a position visited |
| `SingleUnits.CopyPageCopies` | ftl/page_mapping.cc:519-576 | with one unit per page a page of a full block is copied, valid or not, to the entry of the logical page it stores; panics exactly without an entry or a free block |
| `SingleUnits.CollectReads` | ftl/page_mapping.cc:517-581 | after a number of pages every logical page reads as the last of them that stores it, or as before; with enough free blocks it panics exactly if one stores a logical page that is not in the table |
| `SingleUnits.CollectionReads` | ftl/page_mapping.cc:493-615 | the same for the victims of a collection, which can then be erased without a panic and which no entry points to |
| `SingleUnits.ReadKeptExactly` | ftl/common/block.cc:256-272 | a logical page reads as before exactly if no page of a victim stores it or the last one is its valid page, up to equal data |
| `SingleUnits.OldDataReturn` | ftl/common/block.cc:256-272 | an input on which a collection that greedy selection starts brings overwritten data back |
| `VictimSelection.CalculateVictimWeight` | ftl/page_mapping.cc:382-419 | the weights are those of exactly the full blocks, each once |
| `VictimSelection.SortByWeight` | ftl/page_mapping.cc:476-481 | sorting by weight permutes the weights and puts them in ascending order |
| `VictimSelection.SelectVictimBlock` | ftl/page_mapping.cc:421-491 | victims are full and distinct, as many as asked for or all there are, and no full block left out has fewer valid units |
| `PageMappings.PageMapping.constructor` | ftl/page_mapping.cc:33-63 | all blocks are accounted for, one per open position is open, and nothing is mapped |
| `PageMappings.PageMapping.GetFreeBlock` | ftl/page_mapping.cc:305-347 | panics exactly on an index that is no class or on an empty list; otherwise the first block of the class, or of the list, comes into use |
| `PageMappings.PageMapping.GetLastFreeBlock` | ftl/page_mapping.cc:349-379 | the cursor and its unit map move on, the open block in turn is replaced by a free one if full, which is noted for the next collection; panics exactly if it is not in use, or full with none free |
| `PageMappings.PageMapping.StoreUnits` | ftl/page_mapping.cc:674-778 | panics exactly if the open block in turn cannot be had; otherwise the selected units read as the new data and all others as before, the cursor moves on, and the open block in turn, a free one if it was full, takes at most one page |
| `PageMappings.PageMapping.MoveUnit` | ftl/page_mapping.cc:542-575 | one valid unit moves with its data and entry, and is counted once |
| `PageMappings.PageMapping.GetPageInfo` | ftl/common/block.cc:256-272 | the valid bits and owners of a page, and whether a unit is valid |
| `PageMappings.PageMapping.CollectBlock` | ftl/page_mapping.cc:511-589 | a victim's units move away, each once, no read changes, and the cursor visits the positions of the fold |
| `PageMappings.PageMapping.EraseInternal` | ftl/page_mapping.cc:844-894 | panics exactly on a block not in use, with a valid unit, or with no free block to search; otherwise the block is erased and goes to its place by wear, or retires |
| `PageMappings.PageMapping.DoGarbageCollection` | ftl/page_mapping.cc:493-619 | no read changes, the copy counter grows by the victims' valid counts and all victims leave use; with a free block for each victim and open block nothing panics; open blocks stay in use exactly if every open victim is at a position visited; the free blocks are those before, less those opened, plus the victims not worn out, and an open block that filled up is noted |
| `PageMappings.OpenBlockIsErased` | ftl/page_mapping.cc:393-399 | a state after two writes in which greedy selection takes an open block whose position is not visited, and after which the next write panics |
| `PageMappings.PageMapping.ReclaimCount` | ftl/page_mapping.cc:428-445 | the number configured, or what the free blocks lack of the configured share of all, rounded down, and none if they lack nothing |
| `PageMappings.PageMapping.SelectVictims` | ftl/page_mapping.cc:421-491 | as many victims as configured, by number or by share, one more per open block after one filled up |
| `PageMappings.PageMapping.CollectsBelowShare` | ftl/page_mapping.cc:297-299 | the ratio is below the threshold exactly if fewer blocks are free than that share of all |
| `PageMappings.PageMapping.WriteInternal` | ftl/page_mapping.cc:674-812 | the units are stored first, and exactly if the free blocks are then below the threshold a collection of the configured number of lightest blocks follows; in the end the selected units read as the new data and everything else as before; with open blocks in use and enough free ones for what it may collect it succeeds, losing at most one free block for each open block other than to wear; with room in the open blocks these stay in use |
| `PageMappings.PageMapping.Collect` | ftl/page_mapping.cc:789-811 | an on-demand collection takes as many of the lightest full blocks as configured out of use and changes no read; with enough free blocks it succeeds with that loss |
| `PageMappings.RoomStays` | ftl/page_mapping.cc:349-379 | with room for one more page no open block is full after a write |
| `PageMappings.PageMapping.Write` | ftl/page_mapping.cc:204-220 | a request with no unit flagged changes nothing; others are writes as above and succeed under the same conditions |
| `PageMappings.PageMapping.Trim` | ftl/page_mapping.cc:814-842 | panics exactly on a logical page with some unit not mapped; otherwise that page alone reads as never written |
| `PageMappings.TrimReadyByReads` | ftl/page_mapping.cc:814-842 | a trim succeeds exactly on a page not in the table or with every unit readable |
| `PageMappings.PartlyMappedPage` | ftl/page_mapping.cc:827-832 | a page with one unit written, on which a trim panics |
| `PageMappings.PageMapping.Read` | ftl/page_mapping.cc:621-672 | each selected unit that was written is read once, in order, from the one valid unit that belongs to it, with its newest data |
| `PageMappings.PageMapping.Run` | ftl/page_mapping.cc:204-233 | any run of writes and trims leaves the FTL reading as a flat array indexed by page and unit, up to the first panic, which comes only on an operation that is not ready in the state the ones before led to, each write collecting exactly when it has to; a run in which every operation is ready wherever the ones before can lead succeeds with open blocks in use |
| `PageMappings.PageMapping.QuietIsSafe` | ftl/page_mapping.cc:674-812 | writes that never bring the free blocks down to where a collection is needed are such a run |
| `PageMappings.PageMapping.QuietButLastIsSafe` | ftl/page_mapping.cc:674-812 | so are writes of which the last may start a collection, with room in the open blocks and enough free blocks |
| `Fragments.CalcSize` | util/fifo.cc:99-107 | sizes are rounded up to the next multiple of the unit, except below one unit |
| `Fragments.CoversSplit` | util/fifo.cc:121-142 | cutting a fragment after one unit keeps the cover of the requests |
| `Fragments.CoversBytes` | util/fifo.cc:109-187 | fragments that cover the requests move exactly the bytes asked for, in order |
| `Fragments.FiredInOrder` | util/fifo.cc:206-216 | handlers run in submission order, each once, and only when all fragments of their request are done |
| `Fragments.FiredAll` | util/fifo.cc:206-216 | when all fragments are done all handlers have run |
| `Fragments.LargeFragment` | util/fifo.cc:121-122 | a fragment larger than the FIFO comes from a request larger than it |
| `WriteFifos.WriteFifo.constructor` | util/fifo.cc:55-83 | a new FIFO is quiet |
| `WriteFifos.WriteFifo.InsertWrite` | util/fifo.cc:109-162 | the front entry, cut if larger than the FIFO, is fed in exactly if nothing is being inserted and there is room, with both events scheduled for their ticks |
| `WriteFifos.WriteFifo.InsertWriteDone` | util/fifo.cc:164-173 | the inserted entry leaves the waiting queue, and the next one is fed in, cut if too large, exactly if there is room |
| `WriteFifos.WriteFifo.TransferWrite` | util/fifo.cc:175-187 | the front fragment is sent upstream unless a transfer is under way |
| `WriteFifos.WriteFifo.BeginTransfer` | util/fifo.cc:175-187 | the event finds a fragment, and starts it unless a transfer is under way |
| `WriteFifos.WriteFifo.TransferWriteDone` | util/fifo.cc:189-204 | the fragment finishes at once if one unit's latency has passed since its insertion, and otherwise an event is scheduled for then and nothing else changes; no event is scheduled in the past |
| `WriteFifos.WriteFifo.SubmitCompletion` | util/fifo.cc:75-76 | the fragment finishes at the tick of the event, and what waited goes on |
| `WriteFifos.WriteFifo.TransferWriteDoneNext` | util/fifo.cc:206-232 | the fragment is finished and its handler called if it was the last one; the requests that the handler submits and then the next waiting entry go on at that tick, and the next fragment is sent unless the event for that is still to come; no event is scheduled in the past |
| `WriteFifos.WriteFifo.CallHandler` | util/fifo.cc:212-215 | the handler runs exactly for a last fragment, and the requests it submits are taken in one by one at that tick |
| `WriteFifos.WriteFifo.Retire` | util/fifo.cc:217-231 | the front fragment leaves with its space; the next is sent unless the event for that is still to come, and the next waiting entry is fed in exactly if it can be, with its events scheduled from that tick on |
| `WriteFifos.WriteFifo.DmaWrite` | util/fifo.cc:408-419 | a zero-size request changes nothing; any other joins the waiting entries, and the front one is fed in exactly if it can be, with its events scheduled from that tick on, never in the past |
| `WriteFifos.WriteFifo.HandlersInOrder` | util/fifo.cc:206-216 | in every state the handlers called are those of the first requests, whose fragments are all finished |
| `WriteFifos.WriteFifo.SentTiles` | util/fifo.cc:184-186 | in every state the fragments sent upstream are the first ones of a cover of the requests |
| `WriteFifos.WriteFifo.QuietMeansFinished` | util/fifo.cc:109-232 | no wakeup is lost: with nothing scheduled or owed, both queues are empty and every request is finished |
| `WriteFifos.WriteFifo.Drain` | util/fifo.cc:109-232 | however events and callbacks are interleaved, finitely many finish every request |
| `ReadFifos.ReadFifo.constructor` | util/fifo.cc:55-83 | a new FIFO is quiet |
| `ReadFifos.ReadFifo.Find` | util/fifo.cc:87-97 | the first record with the id, or the end |
| `ReadFifos.ReadFifo.TransferRead` | util/fifo.cc:234-286 | the front entry, cut if larger than the FIFO, is asked of the upstream under a fresh id exactly if no read is under way and there is room |
| `ReadFifos.ReadFifo.TransferReadDone` | util/fifo.cc:288-313 | without a record of the fragment one is added and nothing finishes; with one the two signals are merged, and the fragment finishes or an event is scheduled for when it is due; then the entry leaves the waiting queue and the next one is asked for exactly if there is room; no event is scheduled in the past |
| `ReadFifos.ReadFifo.InsertRead` | util/fifo.cc:315-334 | the front fragment is inserted unless an insertion is under way |
| `ReadFifos.ReadFifo.InsertReadDone` | util/fifo.cc:336-349 | without a record of the fragment one is added and nothing finishes; with one the two signals are merged, and the fragment finishes or an event is scheduled for when it is due; no event is scheduled in the past |
| `ReadFifos.ReadFifo.InsertReadDoneMerge` | util/fifo.cc:351-365 | the record is dropped; the fragment finishes at once if one unit's latency has passed since its read, and otherwise an event is scheduled for then |
| `ReadFifos.ReadFifo.SubmitCompletion` | util/fifo.cc:80-81 | the fragment finishes at the tick of the event, and what waited goes on |
| `ReadFifos.ReadFifo.InsertReadDoneNext` | util/fifo.cc:367-393 | the fragment is finished and its handler called if it was the last one; the requests that the handler submits and then the next waiting entry go on at that tick, and the next insertion ends its latency later unless it is still to begin |
| `ReadFifos.ReadFifo.Retire` | util/fifo.cc:378-392 | the front fragment leaves with its space; the insertion of the next one ends its latency later unless it is still to begin, and the next waiting entry is asked for exactly if it can be |
| `ReadFifos.ReadFifo.DmaRead` | util/fifo.cc:395-406 | a zero-size request changes nothing; any other joins the waiting entries, and the front one is asked of the upstream exactly if it can be, with the event that begins its insertion scheduled from that tick on, never in the past |
| `ReadFifos.LandingFind` | util/fifo.cc:87-97 | the record of the fragment being read is there only if it was inserted first, and then is the only one |
| `ReadFifos.LandingInserted` | util/fifo.cc:336-345 | an inserted fragment without a record was not read yet |
| `ReadFifos.ReadFifo.HandlersInOrder` | util/fifo.cc:367-376 | in every state the handlers called are those of the first requests, whose fragments are all finished |
| `ReadFifos.ReadFifo.QuietMeansFinished` | util/fifo.cc:234-393 | no wakeup is lost: with nothing scheduled or owed, both queues are empty and every request is finished |
| `ReadFifos.ReadFifo.Drain` | util/fifo.cc:234-393 | however events and callbacks are interleaved, finitely many finish every request |
| `CacheLines.PositionOf` | icl/generic_cache.cc:226-231 | the row of a line is its unit in the logical page, and the column is below the number of planes |
| `CacheLines.PositionIsRemainder` | icl/generic_cache.cc:226-231 | column and row are the digits of the LCA's remainder modulo the lines of an I/O over all planes |
| `CacheLines.SamePositionExactly` | icl/generic_cache.cc:226-231 | LCAs share a position exactly if they are congruent modulo that number |
| `CacheLines.StoreKeepsPlaced` | icl/generic_cache.cc:566-719 | storing an LCA in its line or in a free one of its set keeps one line per LCA, in its home set |
| `CacheLines.StoreKeepsData` | icl/generic_cache.cc:566-719 | afterwards the line holds the newest data of its LCA, which are not lost, and no other data are lost or found |
| `CacheLines.GiveUpKeeps` | icl/generic_cache.cc:320-335 | giving up a line after writing it if dirty loses nothing, and newest data stay given or held |
| `CacheLines.OwnRequestWrites` | icl/generic_cache.cc:320-326 | the request for a line writes exactly its unit |
| `CacheLines.GivenWasSent` | icl/generic_cache.cc:320-326 | data given to an LCA are those of a request sent that names its unit |
| `Evictions.ScanStep` | icl/generic_cache.cc:645-654 | each line scanned leaves the preferred valid line at every position |
| `Evictions.MergeStep` | icl/generic_cache.cc:656-666 | merging two columns leaves the preferred line of both |
| `Evictions.SelectedMakesRoom` | icl/generic_cache.cc:669-696 | the lines selected always include one of the full set |
| `Evictions.EvictStep` | icl/generic_cache.cc:312-342 | exactly the picked lines are evicted |
| `Evictions.SentStep` | icl/generic_cache.cc:320-326 | exactly the valid dirty picked lines are sent, each to its logical page and unit |
| `Evictions.EvictedHasRoom` | icl/generic_cache.cc:700-708 | after the eviction the full set has a free line |
| `EvictedLines.ChosenArePerClass` | icl/generic_cache.cc:645-666 | the lines chosen are one for each class of congruent LCAs with a valid line, the oldest under FIFO and LRU |
| `EvictedLines.SelectedAreLost` | icl/generic_cache.cc:645-696 | they are the lines lost if one of them is of the full set; otherwise the oldest line of that set takes the place of its class's line or, in super-page mode but for the last plane, comes in addition |
| `EvictedLines.RoomMade` | icl/generic_cache.cc:643-708 | exactly those lines are freed, all others stay as they are, and exactly the dirty ones of them are sent |
| `Flushes.FlushVisits` | icl/generic_cache.cc:761-776 | the requests are for the dirty lines in range, and each flag names all units seen so far |
| `Flushes.FlushLineGives` | icl/generic_cache.cc:767-778 | every line flushed is named by its own request, so its newest data are given to the FTL |
| `Flushes.FlushGives` | icl/generic_cache.cc:755-785 | after a flush the FTL holds the data of the last line in scan order whose request names the LCA, and else what it held |
| `Flushes.FlushKeepsExactly` | icl/generic_cache.cc:755-785 | a flush keeps the newest data of an LCA exactly if a dirty line outside the range has them, or the last line whose request names the LCA, or none names it and the FTL has them |
| `Flushes.CleanKeeps` | icl/generic_cache.cc:755-785 | with flushable lines valid and of one unit position a flush keeps all newest data |
| `Flushes.FlushIsExact` | icl/generic_cache.cc:755-785 | each request writes the one unit of a valid line exactly if the flushable lines are valid and of one unit position |
| `Flushes.CleanRequest` | icl/generic_cache.cc:768-775 | in a clean flush a request stores the line's data in its own unit |
| `Flushes.FlushLosesData` | icl/generic_cache.cc:755-785 | an input with lines of two unit positions on which a flush loses newest data |
| `Flushes.StaleLineLosesData` | icl/generic_cache.cc:768-778 | an input with a freed but dirty line on which a flush loses newest data |
| `WriteCaches.GenericCache.constructor` | icl/generic_cache.cc:32-199 | all lines are free |
| `WriteCaches.GenericCache.GetEmptyWay` | icl/generic_cache.cc:233-253 | the free way inserted into first, or none exactly if all are valid |
| `WriteCaches.GenericCache.GetValidWay` | icl/generic_cache.cc:255-272 | the way that holds the LCA, or none exactly if no line of the cache does |
| `WriteCaches.GenericCache.Compare` | icl/generic_cache.cc:103-190 | the older line under FIFO and LRU, either under random |
| `WriteCaches.GenericCache.ScanLines` | icl/generic_cache.cc:645-654 | the preferred valid line of every position |
| `WriteCaches.GenericCache.MergeColumns` | icl/generic_cache.cc:656-666 | in super-page mode the preferred line of every row, in the last column |
| `WriteCaches.GenericCache.HavePick` | icl/generic_cache.cc:669-678 | whether a pick belongs to the full set |
| `WriteCaches.GenericCache.BestOfSet` | icl/generic_cache.cc:682-689 | the preferred line of the full set |
| `WriteCaches.GenericCache.SelectLines` | icl/generic_cache.cc:643-696 | the chosen lines, plus the best one of the full set if none of them is in it |
| `WriteCaches.GenericCache.EvictCache` | icl/generic_cache.cc:305-345 | exactly the picked lines are given up, the dirty ones sent to their own units, and no data are lost |
| `WriteCaches.GenericCache.EvictFor` | icl/generic_cache.cc:641-708 | each class of congruent LCAs with a valid line loses one, the oldest under FIFO and LRU, and the full set loses its oldest if none of those is in it; exactly the dirty ones are sent; a way is always found, so the panic for a corrupted cache is unreachable |
| `WriteCaches.GenericCache.Store` | icl/generic_cache.cc:565-719 | the LCA is in a line with the new stamps; it is a hit or a cold miss exactly if the LCA was cached or its set had a free way, and then no other line changes; otherwise an eviction as above comes first |
| `WriteCaches.GenericCache.Write` | icl/generic_cache.cc:548-752 | a full line also goes to the FTL, first; without room an eviction as above comes before the line is stored; the newest data are the write's and not lost; no other data are lost |
| `WriteCaches.GenericCache.Flush` | icl/generic_cache.cc:755-785 | the lines in range are freed, the requests sent are those of the flush specification, and exactly the newest data that the flush does not keep are lost; a clean flush loses none |
| `WriteCaches.GenericCache.NothingLost` | icl/generic_cache.cc:548-785 | in every state newest data were sent to the FTL in a request naming their unit, or are in the one valid line of their LCA, which is dirty and in its home set; the FTL or that line has them exactly if they are not lost |
| `WriteCaches.GenericCache.Run` | icl/generic_cache.cc:548-785 | the same after any run of writes and flushes; the newest data are those last written, and writes alone lose none |
| `Superblocks.PAL.constructor` | pal/pal.cc:34-87 | the number of superblocks and the pages of a super page are the products of the dimensions outside and inside, and the page size follows |
| `Superblocks.PAL.MultiplyUp` | pal/pal.cc:41-79 | the branches multiply each dimension into one of the two |
| `Superblocks.ProductOfAll` | pal/pal.cc:41-87 | the products do not depend on the allocation order |
| `Superblocks.PAL.SplitIndex` | pal/pal_old.cc:182-241 | the block index's digits go to the dimensions outside the superblock, in order, and the rest is the block |
| `Superblocks.CounterDigits` | pal/pal_old.cc:244-312 | the flag counter has the loop variables as its digits |
| `Superblocks.PAL.ExpandFlags` | pal/pal_old.cc:244-317 | the loops visit the flag positions in order and end at their number |
| `Superblocks.PAL.ConvertCPDPBP` | pal/pal_old.cc:159-318 | the pages at the set flags, in order; it panics only on a flag of the wrong size under the random tweak |
| `Superblocks.ExpandIsInjective` | pal/pal_old.cc:182-317 | every superblock and position gives a page in the geometry that names them again |
| `Superblocks.ExpandIsOnto` | pal/pal_old.cc:182-317 | every page of the geometry comes from one superblock and position |
| `Superblocks.DigitsInOrder` | pal/pal_old.cc:182-241 | in the order of allocation each dimension takes its digit from the flag position if a superblock spans it, and else from the block index; what is left of that is the block |
| `Superblocks.ExpandedExactly` | pal/pal_old.cc:244-317 | the list is that of the pages of the superblock with the page index, one for each flag that is set, in order |
| `LbaFormat.GenerateMask` | util/algorithm.hh:83-102 | the mask is a field of the value's width above the bits used |
| `LbaFormat.WidthIsLeast` | util/algorithm.hh:83-102 | the width is the least that can tell the values apart |
| `LbaFormat.BitLengthsAgree` | util/algorithm.hh:87-94 | leading zeros and the lowest set bit give that width |
| `LbaFormat.InitMasks` | hil/nvme/ocssd.cc:1249-1258 | the four masks are adjacent fields from the lowest bit on |
| `LbaFormat.ParseOfMake` | hil/nvme/ocssd.cc:1409-1427 | parsing a packed address gives each coordinate as far as it survived its 32-bit shift |
| `LbaFormat.MakeIsSum` | hil/nvme/ocssd.cc:1409-1419 | an address that fits is the sum of its shifted coordinates, blocks first, then chunks, parallel units and groups |
| `LbaFormat.KeptExactly` | hil/nvme/ocssd.cc:1409-1419 | a coordinate survives exactly if its shifted value fits in 32 bits |
| `LbaFormat.RoundTripExactly` | hil/nvme/ocssd.cc:1409-1427 | all addresses of a structure are parsed back exactly if the largest shifted coordinates fit |
| `LbaFormat.AddressIsLost` | hil/nvme/ocssd.cc:1409-1427 | an address whose parallel unit is shifted out of the word |
| `Chunks.IndexInRange` | hil/nvme/ocssd.cc:1403-1407 | coordinates in range give a descriptor |
| `Chunks.NandIsAddress` | hil/nvme/ocssd.cc:1446-1462 | the flash address is in the flash; package and die make up the parallel unit, block and plane the chunk |
| `Chunks.IndexIsBlock` | hil/nvme/ocssd.cc:1403-1463 | two coordinates share a descriptor exactly if they name the same flash block |
| `Chunks.SameUnit` | hil/nvme/ocssd.cc:1465-1473 | comparing flash addresses is comparing chunks and pages |
| `Chunks.WriteKeeps` | hil/nvme/ocssd.cc:1590-1630 | a write keeps FREE, OPEN and CLOSED in step with the write pointer; the accepted pages of every chunk whose descriptor agrees with its block are programmed in order, none twice |
| `Chunks.AcceptsInOrder` | hil/nvme/ocssd.cc:1590-1618 | the entries accepted are exactly those before the first that names a page below the next one of its chunk, a full chunk having none that is not below |
| `Chunks.AcceptedExactly` | hil/nvme/ocssd.cc:1590-1618 | a write is accepted as a whole exactly if it names, chunk by chunk, ascending pages from the next one on |
| `Chunks.ResetKeeps` | hil/nvme/ocssd.cc:1703-1740 | a reset keeps them in step |
| `Chunks.ResetEffect` | hil/nvme/ocssd.cc:1703-1740 | exactly the closed chunks named are freed |
| `Chunks.ResetsFullOnce` | hil/nvme/ocssd.cc:1703-1740 | a reset is accepted as a whole exactly if it names full chunks, each once |
| `Chunks.ResetExactly` | hil/nvme/ocssd.cc:1703-1763 | descriptor and flash of a chunk agree after a reset exactly if it is not a closed chunk named only after the first refused entry |
| `Chunks.FreeKeeps` | hil/nvme/ocssd.cc:1703-1740 | after a reset the descriptors still tell which pages were accepted since each chunk was last freed |
| `Chunks.ResetThenWriteTwice` | hil/nvme/ocssd.cc:1703-1763 | an input on which a page is then programmed twice without an erase |
| `Chunks.OpenChannelSSD20.constructor` | hil/nvme/ocssd.cc:1249-1276 | every chunk starts free at its own packed address |
| `Chunks.OpenChannelSSD20.ConvertUnit` | hil/nvme/ocssd.cc:1429-1488 | neighbours on one page, or for a reset in one chunk, give one entry, in order |
| `Chunks.OpenChannelSSD20.RemoveMarked` | hil/nvme/ocssd.cc:1642-1659 | exactly the entries before the first refused one remain |
| `Chunks.OpenChannelSSD20.WriteInternal` | hil/nvme/ocssd.cc:1577-1686 | it fails exactly if some entry names a page below the next one of its chunk at that point; the pages sent to the flash are those of the entries before the first such one, the status bits mark the others, and the descriptors follow |
| `Chunks.OpenChannelSSD20.EraseInternal` | hil/nvme/ocssd.cc:1688-1790 | it fails exactly if it does not name full chunks, each once; the erases sent are those before the first refused entry, the status bits mark the others, all closed chunks named are freed, and those of them not erased are known |
| `Chunks.OpenChannelSSD20.Run` | hil/nvme/ocssd.cc:1577-1790 | over any run each write fails exactly if it is not ascending after what was accepted before, and each reset exactly if it does not name full chunks, each once; the states stay in step, no page of a chunk is accepted twice without the chunk being freed in between, and no page of a chunk that was never freed without an erase is programmed twice without an erase |
| `Namespaces.SortedInOrder` | hil/nvme/subsystem.cc:151-159 | sorting disjoint ranges by start puts them end to end |
| `Namespaces.Subsystem.Invert` | hil/nvme/subsystem.cc:184-200 | the gaps between the ranges; the panic is not reached |
| `Namespaces.GapFits` | hil/nvme/subsystem.cc:202-210 | the first long enough gap gives the lowest free range, and without one no range is free |
| `Namespaces.Subsystem.FindRange` | hil/nvme/subsystem.cc:151-214 | the lowest free range of the length, or none exactly if none fits |
| `Namespaces.Subsystem.RequestedWraps` | hil/nvme/subsystem.cc:143-144 | the pages asked for are the LBA size once for each whole multiple of the page size, modulo 2^64 |
| `Namespaces.Subsystem.FreeWith` | hil/nvme/subsystem.cc:145 | with the pages counted as allocated they add up to all pages, modulo 2^64 |
| `Namespaces.Subsystem.CreateNamespace` | hil/nvme/subsystem.cc:138-236 | created exactly if the pages, counted in 64 bits, are counted as free, not zero and fit in one range; it takes the lowest such range, and IDs stay in order; the page counter grows by the pages |
| `Namespaces.Subsystem.DestroyNamespace` | hil/nvme/subsystem.cc:238-260 | exactly the namespace with the ID goes, if there is one; the page counter falls by its pages in the rounding of the deletion |
| `Namespaces.Subsystem.NewId` | hil/nvme/subsystem.cc:1041-1051 | the smallest unused ID |
| `Namespaces.Run` | hil/nvme/subsystem.cc:965-1093 | over any run ranges are non-empty, inside the device and disjoint, and IDs distinct and sorted; each creation gets the smallest free ID and the first fit for its pages, and fails exactly without an ID or a fit; each deletion takes exactly the namespace with its ID |
| `NvmeQueues.NextSlot` | hil/nvme/queue.cc:118-125 | the next entry's slot and phase, with wrap-around |
| `NvmeQueues.RingWrite` | hil/nvme/queue.cc:109-130 | the tagged entry n goes to slot n modulo the size and the other recent entries stay |
| `NvmeQueues.HostSees` | hil/nvme/queue.cc:111-113 | a host polling with its expected phase sees a new entry exactly if one is outstanding, and it is the right one |
| `NvmeQueues.CQueue.constructor` | hil/nvme/queue.cc:106-107 | an empty ring, the first pass tagged true |
| `NvmeQueues.CQueue.GetItemCount` | hil/nvme/queue.cc:80-87 | entries produced minus entries acknowledged, below the size |
| `NvmeQueues.CQueue.SetData` | hil/nvme/queue.cc:109-130 | the entry is tagged and written at the tail; it panics exactly on the entry that fills the ring |
| `NvmeQueues.CQueue.SetHead` | hil/nvme/queue.cc:142-144 | the host's new head acknowledges the entries up to it |
| `NvmeQueues.CQueue.Poll` | hil/nvme/queue.cc:109-130 | the host's view of the ring agrees with the log of completions |
| `NvmeQueues.SQueue.GetItemCount` | hil/nvme/queue.cc:80-87 | commands submitted minus commands fetched |
| `NvmeQueues.SQueue.SetTail` | hil/nvme/queue.cc:161-163 | the host's new tail submits the commands up to it |
| `NvmeQueues.SQueue.GetData` | hil/nvme/queue.cc:165-177 | commands are fetched in order, one at a time, exactly if one is there |

## Left out

- Pal2.TimelineScheduling: does not model MergedTimeSlots, OpTimeStamp, conflict flags and statistics, which are bookkeeping, nor the older list-based FindFreeTime, which it does not call.
- Blocks.Block.Write: does not model the time of last access, nor the special single-unit representation of a block, which behaves the same.
- PageMappings.PageMapping.DoGarbageCollection: does not model the read, write and erase requests it collects and sends afterwards, nor their ticks.
- PageMappings.PageMapping.SelectVictims: models the greedy policy; random, d-choice and cost-benefit selection are not modelled. The share is a real number where the code uses a float, and a negative number of blocks to reclaim, undefined in C++, counts as zero.
- PageMappings.PageMapping.WriteInternal: compares the free-block ratio as a real number, where the code uses a float. Its condition for success is sufficient: which blocks are collected depends on an unordered map and an unstable sort.
- PageMappings.PageMapping.constructor: does not model the warm-up in initialize.
- SingleUnits.CollectionReads: collections with one unit per page are modelled on values, without the copy counter.
- PageMapping holds blocks by value in a map; Blocks.Block shows that the in-place methods compute the same functions.
- The FTL's format, wear-leveling and status figures.
- WriteFifos.WriteFifo.TransferWriteDone: handlers and buffers are contexts and addresses; the times of arrival and of the begin of an insertion, which nothing reads, are not kept.
- ReadFifos.ReadFifo.InsertRead: the tick the insertion ends at is that of its event and is not also kept in the entry.
- ReadFifos.ReadFifo.InsertReadDoneMerge: drops the record before it completes the fragment, the code after; nothing in between reads the records.
- Read and write FIFO are two objects; the code has both pipelines, which share only parameters, in one.
- WriteCaches.GenericCache.Write: does not model latencies of the cache and the DRAM; the ticks stored in lines are parameters.
- Cache reads, prefetch, trim and format: the cache does not promise coherence there.
- Superblocks.PAL.ExpandFlags: the five loop nests by number of spanned dimensions are one nest of four loops in which a missing dimension runs once; products are not truncated to 32 bits.
- LbaFormat.RoundTripExactly: a shift by 32 or more, undefined in C++, counts as multiplication modulo 2^32; more than 64 address bits are not modelled.
- Chunks.OpenChannelSSD20.WriteInternal: does not model the disk image, status codes and times, nor scalar commands, whose LBA loop is not the one the command asks for.
- Namespaces.Subsystem.CreateNamespace: the merge of adjacent ranges is left out because its loop ends before its first step; validity checks of the request and attachment are not modelled.
- Vector reads, OCSSD 1.2, queue arbitration, PRP and SGL lists, SATA and UFS, configuration, statistics, power and the processor model.
