# Atrinik toolkit: a Dafny model

This project models the stateful cores of the Atrinik toolkit and proves what they
promise. Nothing of the original program is executed here; every statement below is a
contract or a lemma over the model.

| part | original | files |
|---|---|---|
| graph search engine | `pathfinding/pathfinding.c` | `PathGraph`, `SearchModel`, `SearchInvariant`, `SearchTheorems`, `SearchTermination`, `SearchAccounts`, `SearchVerdicts`, `SearchReports`, `UnhinderedSearch`, `OverflowBound`, `MonotonePops`, `ExactPaths`, `GreedyTotals`, `BreadthFirst`, `Reachability`, `TraversalAccounts`, `HashIndex`, `HeapOrder`, `SearchContext`, `Folds` |
| packet codec | `packet.c` | `PacketFormat`, `PacketWriter`, `PacketReader`, `PacketExchange`, `PacketBytes` |
| MAP command validator | `map_protocol.c` | `MapGrammar`, `MapReading`, `MapTiles`, `MapCommand`, `MapValidator`, `MapLimits` |
| chunk allocator | `mempool.c` | `ChunkLists`, `MemoryPool` |
| list merge sort | `math.c` | `LinkedListSort` |
| shared strings | `shstr.c` | `SharedStrings` |
| QUIC candidate race | `socket_quic.c` | `CandidateOrder`, `CandidateRace`, `CandidateTries`, `CandidateConnect` |
| module initialisation | `toolkit.h`, `toolkit.c` | `ToolkitInit`, `ToolkitOrder` |
| (shared by all parts) | | `Wrappers` |

## How the search engine is modelled

`SearchModel` is the search as a value: a node table, the set of open nodes, counters and
a stop. `Step` is one turn of the main loop and `After(c, n)` the state after n turns.
`SearchInvariant` proves what every step keeps (states are unique, parent links are real
transitions and form no cycle, each node is open or closed, and every transition out of a
closed node has been relaxed), and the theorems follow from it. `SearchContext.Context` is
the mutable object of the source: it keeps the node table, the probing hash index and the
indexed heap, and each method is proved to compute what the value model says, up to
`FindRoute` and `FindReachable`, which return an `Outcome` of the value model whatever
the context was used for before; `OutcomeIsUnique` makes that outcome the same for a
fresh and for a reused context.

An adapter is a record of pure functions: the transitions a state emits (a missing
transition models a NULL argument), whether enumeration succeeds, goal test, heuristic and
partial rank. Cancellation is an oracle over the number of the poll, so it may begin at any
moment. An adapter may keep emitting after it was told to stop. Costs, heuristics and states
are 64-bit words: an addition that would overflow stops the search and a priority saturates,
as in the source. A budget of zero means no budget.

## Where the code and its promises differ

- `packet_ensure` compares the capped growth with the whole request instead of the missing
  bytes, so it can refuse a write that fits the limit (packet.c:277-284).
  `PacketWriter.FittingWriteRefused` shows one, `PacketWriter.Writer.Ensure` states exactly
  when a write goes through, and `PacketWriter.HeadroomSuffices` gives callers a safe margin.
- `sort_linked_list` promises that sorting an empty list returns the end marker
  (math.c:338-339); it returns NULL, and a single record is left with a NULL link. The last
  clause of `LinkedListSort.Sorter.Sort` says exactly when the result ends with the marker.
- An initialisation body can be executed twice when DEPENDS and IMPORTS edges form a mixed cycle;
  `ToolkitInit.RunsTwiceIffMixedCycle` is the exact condition for one module,
  `ToolkitInit.RunsOnceIffNoMixedCycle` for all of them, and `ToolkitInit.ShippedRunsTwice` shows
  that the shipped modules `math` and `logger` are such a case (string.c:38, logger.c:109, math.c:53).
- For array sizes above the expansion size, expansion makes one chunk per puddle while
  reclaiming counts on none, and gives back puddles in use (mempool.c:140 against
  mempool.c:473-476). `MemoryPool.ReclaimIsSafeIff` is the exact condition,
  `MemoryPool.Pool.FreePuddles` says what reclaiming does on either side of it, and
  `MemoryPool.GetThenReclaim` is the shortest run in which a chunk is lost. The counters are
  not lowered then, so that the next get can take the end marker of the free list for a chunk;
  `MemoryPool.ReclaimThenGet` says exactly when.
- `total_cost` is the cost stored with the last node of a path (pathfinding/pathfinding.c:528-556),
  and a path can be cheaper than that: `GreedyTotals.GreedyOverstates` reports 11 for a path of
  cost 2. `ExactPaths.ReportedCostsTotal` says when the two agree, partial results included.
- `query_refcount` returns an `int`, so it is right up to `INT_MAX` only (shstr.c:206-209);
  `SharedStrings.Table.QueryRefcount` states both sides.

## Model

| member | source | states |
|---|---|---|
| `SearchInvariant.StepKeeps` | pathfinding/pathfinding.c:601-639 | one turn of the main loop, for all four algorithms, keeps the whole invariant: distinct states, recomputable scores, genuine parent links without cycles, every node open or closed, every transition out of a closed node relaxed, best partial node |
| `SearchInvariant.AlwaysInv` | pathfinding/pathfinding.c:558-642 | the invariant holds after any number of turns of any search |
| `SearchInvariant.EmitKeeps` | pathfinding/pathfinding.c:328-458 | each emitted transition leaves the structure intact, never raises a cost and counts as relaxed afterwards unless the search stopped |
| `SearchInvariant.LowerKeeps` | pathfinding/pathfinding.c:438-457 | lowering a cost in place, reparenting and reopening keep the structure, even with zero-cost cycles |
| `SearchInvariant.DiscoverKeeps` | pathfinding/pathfinding.c:394-436 | adding a new state keeps the structure and reaches it at the transition's cost |
| `SearchInvariant.ReparentKeepsAcyclic` | pathfinding/pathfinding.c:443-446 | giving a node a strictly cheaper parent cannot close a cycle of parent links |
| `SearchTheorems.FoundIsOptimal` | pathfinding/pathfinding.c:601-639 | when Dijkstra, breadth-first or A* with any admissible heuristic stops at a goal, no path to any goal is cheaper, despite saturation and reopening |
| `SearchTheorems.FoundIsShortest` | pathfinding/pathfinding.c:528-556 | the reported path leads from the start to a goal, costs exactly the reported total, and no goal path costs less |
| `SearchTheorems.BreadthFirstIsFewest` | pathfinding/pathfinding.c:388-389 | a breadth-first result has the fewest transitions of all goal paths |
| `SearchTheorems.ReportedPathIsGenuine` | pathfinding/pathfinding.c:460-486 | every reported path, partial ones included, begins at the start, follows emitted transitions with their own data, and costs at most the reported total |
| `ExactPaths.ReportedCostsTotal` | pathfinding/pathfinding.c:438-556 | with a consistent heuristic, while no popped node's priority saturates, every reported path, partial ones included, costs exactly the reported total |
| `ExactPaths.UninformedReportsCost` | pathfinding/pathfinding.c:438-556 | Dijkstra and breadth-first search report the exact cost of every path, partial ones included, without any condition |
| `ExactPaths.RunExact` | pathfinding/pathfinding.c:388-457 | at every turn, even one that stopped half way, each stored cost is that of a closed parent and the transition from it |
| `GreedyTotals.GreedyOverstates` | pathfinding/pathfinding.c:438-556 | a greedy search whose partial result says 11 of a path that costs 2 |
| `SearchTheorems.ChainIsPath` | pathfinding/pathfinding.c:460-486 | following parent links back to the start spells a real path of that length whose cost is at most the stored cost |
| `SearchTheorems.ExhaustedMeansUnreachable` | pathfinding/pathfinding.c:640-641 | running out of open nodes means that no reachable state is a goal, for all four algorithms |
| `SearchTheorems.DecidesReachability` | pathfinding/pathfinding.c:601-641 | a search that ends at a goal or exhausted answers correctly whether a goal is reachable |
| `SearchTheorems.PartialIsBest` | pathfinding/pathfinding.c:297-321 | a partial result ends at a node that no other discovered node beats by rank, cost and sequence |
| `SearchTheorems.EveryStopIsLegal` | pathfinding/pathfinding.c:260-265 | status and termination of a stop always belong together |
| `SearchTheorems.OutcomeIsUnique` | pathfinding/pathfinding.c:267-285 | a request has one outcome, whichever context computes it |
| `PathGraph.CostIsSum` | pathfinding/pathfinding.c:388-389 | a path costs the sum of what the adapter says its transitions cost, in breadth-first search their number |
| `SearchAccounts.AlwaysSound` | pathfinding/pathfinding.c:328-457 | at every turn all budgets are kept, no poll that answered yes is overlooked, and every stop has the cause its termination names |
| `SearchAccounts.BudgetsHold` | pathfinding/pathfinding.c:343-353 | a search never expands, examines or generates more than its budgets allow |
| `SearchAccounts.FrontierHolds` | pathfinding/pathfinding.c:399-446 | the open nodes never exceed the budget for the frontier |
| `SearchAccounts.LimitMeansUsedUp` | pathfinding/pathfinding.c:348-446 | a search stops at a limit only if one of its nonzero budgets is used up exactly |
| `SearchAccounts.CancelledIffPolled` | pathfinding/pathfinding.c:343-347 | a search is cancelled exactly if a poll answered yes, and that poll is its last |
| `SearchAccounts.AdapterErrorMeansFailure` | pathfinding/pathfinding.c:339-342 | an adapter error is a missing transition or a failed enumeration of a reachable state |
| `SearchAccounts.OverflowMeansTooDear` | pathfinding/pathfinding.c:388-393 | a search overflows only at a transition that leads beyond 64 bits |
| `SearchVerdicts.EveryTurnGoes` | pathfinding/pathfinding.c:601-641 | which check decides each turn - empty frontier, poll, goal, expansion budget, in this order - with every counter, and for an expansion that none of its transitions overflows, or the one emission at which it stops and why |
| `SearchVerdicts.RunningCounts` | pathfinding/pathfinding.c:601-639 | after n turns a running search has expanded n nodes, examined all their transitions and polled once for each node and transition |
| `SearchReports.StatusIs` | pathfinding/pathfinding.c:528-556 | a partial result is reported exactly if one is asked for and the search was exhausted, cut short or cancelled; else the status is that of the termination |
| `SearchReports.PopsByKeys` | pathfinding/pathfinding.c:174-185 | greedy search pops by heuristic alone, Dijkstra and breadth-first by cost alone, A* by capped sum and then heuristic, ties by discovery |
| `SearchReports.TurnKeepsOrder` | pathfinding/pathfinding.c:394-457 | states are discovered in the order in which the popped node first emits them, and a node changes parent and data only together with a lower cost |
| `SearchTermination.StepShrinks` | pathfinding/pathfinding.c:394-457 | a turn that does not stop shrinks (undiscovered states, sum of stored costs, open nodes) lexicographically, reopening included |
| `SearchTermination.EverySearchEnds` | pathfinding/pathfinding.c:601-639 | every search of every adapter ends with an outcome, without any budget |
| `UnhinderedSearch.UnhinderedDecides` | pathfinding/pathfinding.c:601-641 | without budgets, cancellation and adapter errors every search ends at a goal, exhausted or by cost overflow, and the first two verdicts are right |
| `OverflowBound.OverflowNeedsRoom` | pathfinding/pathfinding.c:388-392 | a search of any kind overflows only if the number of reachable states times the dearest step exceeds the largest cost |
| `OverflowBound.SmallGraphDecides` | pathfinding/pathfinding.c:558-642 | within that bound a search without budgets, cancellation and adapter errors ends at a goal or exhausted, and so decides whether a goal is reachable |
| `OverflowBound.AlwaysWithin` | pathfinding/pathfinding.c:388-457 | whenever n states have been found, each stored cost is that of fewer than n of the dearest steps, reopening included |
| `MonotonePops.PopsAreMonotone` | pathfinding/pathfinding.c:610-623 | with a consistent heuristic, while no popped node's priority saturates, popped priorities never decrease and no state is expanded twice |
| `MonotonePops.UninformedPopsAreMonotone` | pathfinding/pathfinding.c:287-295 | for Dijkstra and breadth-first search this holds without any condition |
| `BreadthFirst.BreadthFirstFollowsListing` | pathfinding/pathfinding.c:174-185 | breadth-first search, though run through the heap, discovers and pops states in exactly the order in which the traversal lists them |
| `Reachability.CompleteListsReachable` | pathfinding/pathfinding.c:682-729 | a complete traversal lists exactly the reachable states, each once |
| `Reachability.CompleteListsByDistance` | pathfinding/pathfinding.c:682-706 | the listing is in order of hop distance from the start |
| `Reachability.StoppedListsPrefix` | pathfinding/pathfinding.c:336-386 | a traversal stopped by a budget or by cancellation lists a prefix of the unlimited listing, even if the adapter keeps emitting |
| `Reachability.AlwaysReachInv` | pathfinding/pathfinding.c:355-386 | every state listed is reached from an earlier one, first come first listed, and visited states are fully covered |
| `Reachability.EveryTraversalEnds` | pathfinding/pathfinding.c:682-706 | every traversal ends with an outcome |
| `TraversalAccounts.StopHasItsCause` | pathfinding/pathfinding.c:682-729 | the status goes with the termination; a traversal is complete if all entries were visited, at a limit only if a nonzero budget is used up, cancelled exactly if its last poll answered yes, failed only by a missing transition or a failed enumeration of a listed state |
| `TraversalAccounts.TraversalBudgetsHold` | pathfinding/pathfinding.c:348-369 | no budget of a traversal is exceeded at any turn, that for the entries not yet visited included |
| `TraversalAccounts.UnhinderedCompletes` | pathfinding/pathfinding.c:682-729 | without budgets, cancellation and adapter errors a traversal is complete |
| `TraversalAccounts.EveryVisitGoes` | pathfinding/pathfinding.c:682-706 | which check decides each turn, with every counter, and the one emission at which a visit stops and why |
| `TraversalAccounts.VisitedCounts` | pathfinding/pathfinding.c:682-706 | after n turns a running traversal has visited the first n entries, examined all their transitions and polled once for each |
| `TraversalAccounts.EveryVisitListsInOrder` | pathfinding/pathfinding.c:355-386 | the states listed for one entry come in the order in which it first emits them |
| `HashIndex.FreeSlot` | pathfinding/pathfinding.c:103-110 | at load one half or less there is a free slot, so probing ends |
| `HashIndex.FreeMeansAbsent` | pathfinding/pathfinding.c:147-155 | a probe that reaches a free slot proves that no node has the state |
| `HashIndex.InsertKeeps` | pathfinding/pathfinding.c:157-172 | filling the slot that probing found keeps every other state findable |
| `HeapOrder.RootIsLeast` | pathfinding/pathfinding.c:247-258 | the root of a heap is the unique least open node by priority, heuristic, sequence |
| `HeapOrder.SwapUp` | pathfinding/pathfinding.c:196-206 | one swap of the sift-up moves the only defect to the parent |
| `HeapOrder.SwapDown` | pathfinding/pathfinding.c:208-227 | one swap of the sift-down with the first child moves the only defect to that child |
| `HeapOrder.CheapenedHeap` | pathfinding/pathfinding.c:443-456 | lowering the key of an entry in place leaves a heap with that one defect |
| `HeapOrder.MembersCount` | pathfinding/pathfinding.c:187-194 | the back links name exactly the entries, so the heap size is the number of open nodes |
| `SearchContext.Context.HashSlot` | pathfinding/pathfinding.c:103-110 | probing ends at the slot of the state or at a free slot that shows its absence |
| `SearchContext.Context.RebuildHash` | pathfinding/pathfinding.c:112-132 | succeeds exactly for powers of two of at least two and then indexes every node |
| `SearchContext.Context.PrepareHash` | pathfinding/pathfinding.c:134-145 | keeps the load at one half or less with room for one more node |
| `SearchContext.Context.FindNode` | pathfinding/pathfinding.c:147-155 | finds a state exactly when it is stored |
| `SearchContext.Context.AddNode` | pathfinding/pathfinding.c:157-172 | appends a node and keeps index, heap and back links in agreement |
| `SearchContext.Context.HeapSwap` | pathfinding/pathfinding.c:187-194 | swaps two entries together with their back links |
| `SearchContext.Context.HeapUp` | pathfinding/pathfinding.c:196-206 | restores heap order from a defect towards the root, members unchanged |
| `SearchContext.Context.HeapDown` | pathfinding/pathfinding.c:208-227 | restores heap order from a defect towards the leaves, members unchanged |
| `SearchContext.Context.HeapPush` | pathfinding/pathfinding.c:229-245 | adds one node to the set of open nodes |
| `SearchContext.Context.HeapPop` | pathfinding/pathfinding.c:247-258 | removes exactly the least open node |
| `SearchContext.Context.Reset` | pathfinding/pathfinding.c:267-285 | leaves any used context empty and coherent |
| `SearchContext.Context.ConsiderPartial` | pathfinding/pathfinding.c:297-321 | keeps the preferable of the best node so far and the given one |
| `SearchContext.Context.RelaxTransition` | pathfinding/pathfinding.c:388-457 | one relaxation over table, index and heap does what the model's relaxation does, overflow and budgets included |
| `SearchContext.Context.VisitTransition` | pathfinding/pathfinding.c:355-386 | one emission during a traversal does what the model's visit does |
| `SearchContext.Context.EmitTransition` | pathfinding/pathfinding.c:328-458 | the emit callback does what the model says, and returns whether to go on |
| `SearchContext.Context.BuildPath` | pathfinding/pathfinding.c:460-486 | returns the states and data along the parent links, start first |
| `SearchContext.Context.FinishSearch` | pathfinding/pathfinding.c:528-556 | reports the path of the goal, of the best partial node, or none |
| `SearchContext.Context.FindRoute` | pathfinding/pathfinding.c:558-642 | returns the one outcome of the request, or an invalid-input result, from any reusable context |
| `SearchContext.Context.FindReachable` | pathfinding/pathfinding.c:644-731 | returns the one outcome of the traversal, or an invalid-input result, from any reusable context |
| `PacketFormat.DecodeEncoded` | packet.c:821-873 | a field written at a position is read back from there and the cursor ends right behind it |
| `PacketFormat.DecodedIsEncoding` | packet.c:705-777 | whatever is read fits its kind, and the bytes passed over are its encoding |
| `PacketFormat.CutFieldTruncated` | packet.c:709-712 | a field cut short anywhere is reported as truncated |
| `PacketFormat.SignedBytes` | packet.c:431-446 | the bytes shifted out of a signed integer are those of its two's complement pattern |
| `PacketFormat.BigEndianRoundTrip` | packet.c:859-866 | joining the bytes of an integer gives it back, for every width |
| `PacketBytes.NumbersCompareByBytes` | packet.c:859-866 | unsigned integers of one width compare like their bytes from the first on: the first byte is the most significant |
| `PacketWriter.Writer.constructor` | packet.c:105-128 | a new packet is empty, without error, and limited to the payload maximum |
| `PacketWriter.Writer.SetLimit` | packet.c:314-321 | a limit below the present length is an error and changes nothing else |
| `PacketWriter.Writer.Ensure` | packet.c:261-289 | makes room exactly when there is no error, the limit admits the bytes, and they fit the buffer or the limit admits them beyond the whole buffer; says which error otherwise |
| `PacketWriter.Writer.WriteInteger` | packet.c:328-446 | appends the bytes of the integer, most significant first, or records the refusal |
| `PacketWriter.Writer.WriteBytes` | packet.c:468-533 | appends the bytes or records the refusal; writing nothing is never refused |
| `PacketWriter.Writer.WriteText` | packet.c:544-562 | appends the string and its NUL, or records the refusal |
| `PacketWriter.Writer.Finish` | packet.c:323-326 | reports whether any write was refused |
| `PacketWriter.FinishedHoldsAll` | packet.c:323-326 | a writer that finishes without error holds every write, whole and in order, within the limit |
| `PacketWriter.FittingWriteRefused` | packet.c:277-284 | a write that fits the payload limit can be refused, after one write to a new packet |
| `PacketWriter.HeadroomSuffices` | packet.c:261-289 | with headroom for one growth step and one more write, no write of a whole sequence is refused |
| `PacketBytes.FirstRefusalDecides` | packet.c:261-326 | a writer has an error exactly if some write was the first to fail; all before it is kept, nothing of it or after it is added, and the error says whether it exceeded the limit or the buffer could not grow for it |
| `PacketBytes.BufferHolds` | packet.c:261-289 | the buffer always holds what was written and grows only within the limit |
| `PacketReader.Reader.constructor` | packet.c:594-619 | a cursor beyond the data starts with an error at position zero |
| `PacketReader.Reader.Take` | packet.c:705-726 | passes over the bytes asked for exactly when they are there, never beyond the data |
| `PacketReader.Reader.Skip` | packet.c:728-733 | passes over bytes like a raw read |
| `PacketReader.Reader.ReadView` | packet.c:735-741 | returns the bytes passed over, or none after an error |
| `PacketReader.Reader.ReadUnsigned` | packet.c:821-866 | returns the integer at the cursor, or zero after an error |
| `PacketReader.Reader.ReadSigned` | packet.c:826-873 | the same bits read as two's complement |
| `PacketReader.Reader.ReadText` | packet.c:743-777 | returns the NUL-free run at the cursor if it is terminated and within the bound, else the right one of two errors |
| `PacketReader.Reader.Finish` | packet.c:677-683 | succeeds exactly when there is no error and nothing is left over |
| `PacketBytes.TextReads` | packet.c:743-777 | a string is read exactly if a NUL follows within the bound, is too long exactly if more bytes than the bound have none, and truncated exactly if the data ends before |
| `PacketBytes.BlankAfterError` | packet.c:705-726 | the first read that fails and every read after it return zero or nothing and do not move the cursor |
| `PacketReader.CheckOnceAtTheEnd` | packet.c:668-683 | reading on after an error and checking once at the end equals checking every read: same values, first error |
| `PacketReader.RoundTrip` | packet.c:323-571 | what a writer finished without error, a reader with the same schema reads back to the last byte |
| `PacketReader.PrefixIsTruncated` | packet.c:705-777 | every strict prefix of a message is rejected as truncated |
| `PacketReader.ExtensionIsTrailing` | packet.c:677-683 | every proper extension of a message is rejected for trailing data |
| `PacketReader.AcceptsExactlyEncodings` | packet.c:677-873 | a reader finishes exactly on the encodings of its schema, and each encodes one list of values |
| `PacketExchange.WriteFields` | packet.c:328-562 | the calls for the fields of a schema, one after the other, leave the draft that the writes of their encodings make, signed integers included |
| `PacketExchange.ReadFields` | packet.c:705-873 | the calls for the fields of a schema return the values, and leave the cursor, that the schema prescribes |
| `PacketExchange.ReadMessage` | packet.c:594-873 | a reader on any data finishes exactly if the data is the encoding of a value list, and has then read that list |
| `PacketExchange.Exchange` | packet.c:105-873 | from writer to reader: if the writer finishes without error, so does the reader, with every value; the writer does exactly if no write was refused |
| `MapReading.Peel` | map_protocol.c:21-53 | bounded integers, strings and skipped bytes spelled at a position are read back from there |
| `MapReading.Join` | map_protocol.c:21-53 | what is read is within its bounds and spelled by the bytes passed over |
| `MapReading.LayerBack` | map_protocol.c:116-202 | a well-formed layer, wiped or drawn with all its flag-dependent parts, is read back |
| `MapReading.LayerIs` | map_protocol.c:116-202 | whatever is read as a layer is well formed and spelled by its bytes |
| `MapReading.ManyBack` | map_protocol.c:110-131 | a counted list of items with different keys is read back |
| `MapReading.ManyIs` | map_protocol.c:110-131 | a counted list that is read has different keys and is spelled by its bytes |
| `MapReading.ToEndBack` | map_protocol.c:65-70 | items that fill the data are read back one after the other |
| `MapTiles.TileBack` | map_protocol.c:65-230 | a well-formed tile update, cleared or shown, is read back |
| `MapTiles.TileIs` | map_protocol.c:65-230 | whatever is read as a tile is in range, has a legal mask and is spelled by its bytes |
| `MapTiles.TilesIff` | map_protocol.c:56-233 | the bytes of a level are read as a list of tiles exactly when they spell it |
| `MapCommand.LevelBack` | map_protocol.c:302-324 | a well-formed level with its depth and size is read back |
| `MapCommand.LevelIs` | map_protocol.c:302-324 | whatever is read as a level has a legal depth, a size that matches, and is spelled by its bytes |
| `MapCommand.AcceptsExactlyCommands` | map_protocol.c:236-328 | bytes are read exactly when they spell a well-formed MAP command, and they spell at most one |
| `MapValidator.CheckPiece` | map_protocol.c:21-53 | one read with its error and range check agrees with the grammar |
| `MapValidator.CheckLook` | map_protocol.c:142-154 | multi-part, names and animation are there exactly as the flags say |
| `MapValidator.CheckShape` | map_protocol.c:155-165 | moving direction, height and alignment are there exactly as the flags say |
| `MapValidator.CheckExtras` | map_protocol.c:167-201 | the parts announced by the second flag word are there and within their ranges |
| `MapValidator.CheckLayer` | map_protocol.c:117-202 | accepts a layer exactly when the grammar reads it and its number is new, and marks the number |
| `MapValidator.CheckLayers` | map_protocol.c:115-202 | the loop over the layers accepts exactly what the grammar reads |
| `MapValidator.CheckAnimList` | map_protocol.c:210-229 | the loop over the animations accepts exactly those with different sub-layers |
| `MapValidator.CheckTile` | map_protocol.c:65-230 | one turn of the tile loop accepts exactly what the grammar reads, and moves on |
| `MapValidator.CheckLevel` | map_protocol.c:56-233 | the tile loop ends on every input and accepts exactly the bytes that are tiles to the end |
| `MapValidator.CheckAgreement` | map_protocol.c:282-298 | the player's place and the depth offset fit the announced map |
| `MapValidator.CheckLevels` | map_protocol.c:301-328 | accepts exactly levels of different depths and tells whether depth 0 is among them |
| `MapValidator.Validate` | map_protocol.c:236-328 | the verdict is favourable exactly when data, position and limits are legal and the bytes encode a well-formed MAP command |
| `MapLimits.CommandLimits` | map_protocol.c:65-328 | an accepted command has 1 to 13 levels of different depths from -6 to 6 with depth 0 among them, tiles in view, different layers below 49 and up to seven animations on different sub-layers |
| `MapLimits.PlayerPlaced` | map_protocol.c:264-298 | on a new map the player stands within it; through a tile the depth offset is that of the tile |
| `MemoryPool.Pool.Expand` | mempool.c:460-506 | adds one puddle of chunks, all free and linked in order |
| `MemoryPool.Pool.Get` | mempool.c:508-542 | goes by the counter: takes the first free chunk, or the first of a new puddle, and exactly this chunk becomes used; takes the end marker exactly if nothing is free and the counter is not zero |
| `MemoryPool.Pool.Return` | mempool.c:544-578 | puts a used chunk in front of the free list and aborts on a free one; no other chunk changes hands |
| `MemoryPool.Pool.Scan` | mempool.c:147-168 | chains the free chunks of a puddle, counts them, and touches nothing else |
| `MemoryPool.Pool.Sweep` | mempool.c:142-187 | gives back the puddles that are free altogether, lists the others anew, and keeps both counters right |
| `MemoryPool.Pool.SortPuddles` | mempool.c:189-194 | orders the puddles by their number of free chunks, through the list merge sort |
| `MemoryPool.Pool.Relink` | mempool.c:196-211 | joins the chains of the puddles to one free list in the order of the puddle list |
| `MemoryPool.Pool.FreePuddles` | mempool.c:125-215 | frees exactly the puddles without a used chunk, keeps every used chunk, rebuilds the free list with the fullest puddles first, each free chunk on it once and the counters the real counts - if the array size does not exceed the expansion size; else frees everything, used chunks included, and leaves both counters as they were |
| `MemoryPool.Pool.Reclaim` | mempool.c:580-588 | the same, order of the free list included, if the pool allows freeing, else nothing |
| `MemoryPool.FreeListAfterReclaim` | mempool.c:189-211 | after reclaiming, chunks of puddles with fewer free chunks come first, and within a puddle those with higher addresses |
| `MemoryPool.ReclaimIsSafeIff` | mempool.c:140-173 | giving back what looks empty spares all used chunks exactly when the array size does not exceed the expansion size |
| `MemoryPool.GetThenReclaim` | mempool.c:508-588 | a chunk taken from a new pool is still in use after reclaiming exactly if the array size does not exceed the expansion size |
| `MemoryPool.ReclaimThenGet` | mempool.c:508-588 | the get after a reclaim takes the end marker exactly if the array size exceeds the expansion size and a chunk was free before |
| `MemoryPool.EmptyIff` | mempool.c:170-173 | a puddle's count of free chunks reaches its size exactly when none of them is used |
| `LinkedListSort.Sorter.Sort` | math.c:341-436 | returns the sorted permutation of any list under any total preorder, says exactly when the list ends with the marker, and leaves the links of all other records alone |
| `LinkedListSort.Sorter.Distribute` | math.c:358-370 | deals the records alternately: one tape gets those at even places, the other those at odd places, each last record first |
| `LinkedListSort.Sorter.Pass` | math.c:374-425 | one pass merges blocks of a size pairwise to sorted blocks of twice the size, dealt alternately |
| `LinkedListSort.Sorter.MergeBlocks` | math.c:387-423 | merges the leading blocks of two tapes to one sorted block |
| `LinkedListSort.Sorter.MoveFirst` | math.c:411-422 | moves one record between tapes, and no record is lost or doubled |
| `LinkedListSort.PairDealt` | math.c:383-424 | the tape invariant: the first tape has zero or one block more, and only the last block is short |
| `LinkedListSort.OneBlockLeft` | math.c:372-435 | when the second tape is empty, the first holds one sorted block with all records |
| `SharedStrings.Table.AddString` | shstr.c:122-196 | returns the handle of a known string with its count raised, or a new handle with count one |
| `SharedStrings.Table.AddRefcount` | shstr.c:198-204 | raises the count of a handle by one |
| `SharedStrings.Table.QueryRefcount` | shstr.c:206-209 | returns the count without the mark bit, exactly up to `INT_MAX` and modulo 2^32 beyond |
| `SharedStrings.Table.FindString` | shstr.c:211-248 | finds a string exactly while it is live |
| `SharedStrings.Table.FreeString` | shstr.c:250-281 | lowers the count, and unlinks the record when it reaches zero |
| `SharedStrings.Table.Unlink` | shstr.c:258-280 | removes a record from its chain, at the head or later, and keeps every other string |
| `SharedStrings.ChainAppend` | shstr.c:164-174 | a record linked behind the last keeps the chain: mark bit on the head only, back links elsewhere |
| `SharedStrings.ChainRemoveHead` | shstr.c:260-270 | the successor of a removed head becomes the marked head of its bucket |
| `SharedStrings.ChainRemoveLater` | shstr.c:271-279 | removing a later record joins its neighbours |
| `SharedStrings.HandlesAreCanonical` | shstr.c:122-248 | two live handles are the same exactly when their contents are equal |
| `SharedStrings.CountIsBalance` | shstr.c:122-281 | over every sequence of operations the count is adds plus references minus frees, and a string is live exactly while it is positive |
| `SharedStrings.HandleIsStable` | shstr.c:122-281 | a string keeps its handle for as long as it stays live |
| `CandidateOrder.OrderKinds` | socket_quic.c:785-818 | computes the order of route kinds with the preferred kind in front of its class |
| `CandidateOrder.KindOrderShape` | socket_quic.c:785-818 | every kind occurs exactly once, local kinds come before all others, the preferred kind leads its class, and within a class the kinds not preferred keep the order of the table |
| `CandidateOrder.RankCandidates` | socket_quic.c:820-830 | computes the ranking by kind |
| `CandidateOrder.RankedIsPermutation` | socket_quic.c:820-830 | ranking loses and doubles no candidate |
| `CandidateOrder.RankedIsStable` | socket_quic.c:820-830 | candidates of one kind are ranked in the order in which they stood, and no candidate is ranked twice |
| `CandidateOrder.RankedByKind` | socket_quic.c:820-830 | a better rank never has a less preferred kind |
| `CandidateOrder.GroupCandidates` | socket_quic.c:831-864 | every resolvable candidate is in exactly one group, ranks ascend within each group and from group to group, and all NAT candidates share one |
| `CandidateRace.StepKeeps` | socket_quic.c:593-683 | every step of every thread keeps the invariant of the race |
| `CandidateRace.RunInv` | socket_quic.c:883-932 | the invariant holds in every state of every interleaving |
| `CandidateRace.ReturnedOrDestroyedOnce` | socket_quic.c:606-683 | when the race is over every socket was returned or destroyed, exactly once |
| `CandidateRace.ReturnsBest` | socket_quic.c:918-932 | the socket returned was connected by a successful handshake, no successful handshake had a lower rank, and there is such a socket exactly if a handshake succeeded |
| `CandidateRace.ReturnsResultOfSelected` | socket_quic.c:918-932 | the socket and the rank returned are those of the selected task |
| `CandidateRace.ReturnsNothingOnlyIfAllFailed` | socket_quic.c:918-932 | nothing is returned only after every candidate was tried and failed |
| `CandidateRace.CancelledOnlyAfterSuccess` | socket_quic.c:897-910 | cancellation is set only after a success was recorded |
| `CandidateRace.RunsAreBounded` | socket_quic.c:606-683 | no interleaving goes on for ever |
| `CandidateRace.EveryRunCanFinish` | socket_quic.c:883-932 | every run, wherever it stands, extends to one in which the race is over |
| `CandidateRace.NeverStuck` | socket_quic.c:886-916 | some thread can always go on until the race is over |
| `CandidateRace.WonByTask` | socket_quic.c:606-668 | every success is the result of a task and has a rank that this task was given |
| `CandidateTries.TriesInOrder` | socket_quic.c:606-675 | a worker tries its candidates from the first on and leaves none out; only the last one tried can have connected |
| `CandidateTries.NothingReturnedAllTried` | socket_quic.c:606-683 | when nothing is returned, each worker has tried all its candidates and none connected |
| `CandidateTries.OneSocketPerTask` | socket_quic.c:613-659 | a worker tries everything on one socket, opens at most one, and none if it was given one |
| `CandidateTries.FirstSocketKept` | socket_quic.c:606-681 | the worker given the signalling socket tries all its candidates on it, connects on it if at all, and does not destroy it before it has ended |
| `CandidateTries.RunWinsTried` | socket_quic.c:644-675 | the successes are exactly the attempts that connected, with rank and socket |
| `CandidateTries.CancelledAfterWaiting` | socket_quic.c:895-910 | the main thread never stops waiting before a success is recorded or all workers have ended, and cancels the workers that have not |
| `CandidateTries.FirstSuccessEndsWaiting` | socket_quic.c:895-910 | as soon as one worker has ended with a success the wait can end, whatever the others are at, which cancels them |
| `CandidateTries.NothingBegunAfterCancel` | socket_quic.c:608-612 | once cancelled no worker begins another attempt |
| `CandidateConnect.PlanRace` | socket_quic.c:738-889 | from candidates to the race: there is one exactly if some candidate resolves, it starts as the race theorems require, with the groups as tasks and the signalling socket in the NAT task, else in the first directory task |
| `CandidateConnect.RanksAreDistinct` | socket_quic.c:831-864 | no rank is given to two tasks, or twice to one |
| `CandidateConnect.WinsAreDistinct` | socket_quic.c:831-932 | in no run do two different successes have the same rank |
| `CandidateConnect.BestKindReturned` | socket_quic.c:785-932 | no candidate that connected has a better rank or an earlier kind than the one returned: local kinds first, the preferred kind first in its class, the others as in the table |
| `CandidateConnect.NatOnFirstSocket` | socket_quic.c:866-881 | every NAT-derived candidate is tried, and connects, on the signalling socket and on no other |
| `CandidateConnect.PreferredKindReturned` | socket_quic.c:785-932 | the connection has the preferred kind exactly if a candidate of that kind connected and, unless the kind is local, no local candidate did |
| `ToolkitInit.Toolkit.CheckImported` | toolkit.c:82-95 | tells whether a module is registered |
| `ToolkitInit.Toolkit.ImportRegister` | toolkit.c:59-80 | registers a module once |
| `ToolkitInit.Toolkit.Import` | toolkit.h:82-106 | importing a module terminates and does what the recursive model says |
| `ToolkitInit.Toolkit.Deinit` | toolkit.c:97-123 | tears the modules down in reverse order of registration |
| `ToolkitInit.InitOrdered` | toolkit.h:82-106 | each module is registered once and after all its DEPENDS |
| `ToolkitOrder.DependsInOrder` | toolkit.h:90-94 | an entry of the DEPENDS array is registered and run before a later new one to which no entry up to it leads |
| `ToolkitOrder.ImportsInOrder` | toolkit.h:100-105 | likewise for IMPORTS, for entries to which no DEPENDS entry leads, and all of that after the module itself |
| `ToolkitOrder.EarlierEntryDrags` | toolkit.h:90-94 | it is not enough that the entry itself does not lead to the later one: an entry before both can bring that one in first |
| `ToolkitInit.ImportKeepsClosed` | toolkit.h:82-106 | the registry stays closed under DEPENDS and IMPORTS, cyclic imports included |
| `ToolkitInit.InitAccounted` | toolkit.h:82-106 | only modules that the request leads to are registered |
| `ToolkitInit.RunsOnceIffNoMixedCycle` | toolkit.h:82-106 | no import executes a body twice exactly if no cycle of edges contains a DEPENDS edge |
| `ToolkitInit.RunsTwiceIffMixedCycle` | toolkit.h:82-106 | a module imported first runs its body more than once exactly if it is on such a cycle itself |
| `ToolkitInit.RunsInOrder` | toolkit.h:82-106 | without such a cycle the bodies run in the order of registration, each once |
| `ToolkitInit.MixedCycleRunsTwice` | toolkit.h:82-106 | importing a module on such a cycle first executes that module's body at two different places of the log |
| `ToolkitInit.ShippedRunsTwice` | math.c:53 | importing `math` first executes the body of `math` twice, and `logger` first that of `logger` |
| `ToolkitInit.TornDownBeforeDepends` | toolkit.c:97-123 | every module is torn down before the modules it depends on |

## Left out

- Allocation failure, `realloc` growth and capacity overflow in the pathfinder: arrays are unbounded sequences.
- The mixing function of the pathfinder's hash and the string hash of shared strings: any function in their place.
- `peak_frontier`, statistics counters, log messages, status and error names: reporting only.
- NULL contexts, adapters and options, and the default options.
- SearchContext.Context.AddNode: `heap_index` is kept in a sequence of its own beside the node table, and `& (capacity - 1)` is a remainder by a power of two.
- PacketWriter.Writer.WriteInteger: one method for all widths, signed and unsigned, with a loop over the bytes in place of unrolled stores; floats and doubles are their bit patterns and have no method of their own.
- PacketReader.Reader.ReadUnsigned: likewise one method for all widths.
- Reader scopes, position mirrors, writer marks, debug text, packet copies and compression in `packet.c`.
- `packet_reader_read_string*` into caller buffers and `packet_reader_read_count*`: a bounded read followed by a copy or a comparison.
- MapValidator.CheckPieces: chains of reads are a list of pieces checked in order; the level mask is a table of flags.
- MemoryPool.Pool.Get: what becomes of the pool once the end marker has been handed out is not described.
- MemoryPool.Pool.Expand: addresses are never handed out again, and puddle records are numbered instead of coming from a pool of their own.
- `mempool.c` outside one array size: the loop over the eight sizes, which are independent; pools that bypass pooling; chunk callbacks; reclaiming the pool of puddle records itself; teardown and leak reports.
- LinkedListSort.Sorter.Sort: link offsets are one store of links; the count is returned instead of stored through a pointer.
- SharedStrings.Table.AddString: assumes that a reference count stays below the mark bit, as does `AddRefcount`; addresses come from an allocator that returns unused ones.
- CandidateConnect.PlanRace: the list of candidates is given, the directory candidate included, and whether the candidate of a rank resolves is any function; addresses and certificates are not carried along.
- CandidateRace.StepKeeps: handshakes, socket creation and thread creation succeed or fail arbitrarily; time is left out, so the main thread may stop waiting at any moment after a success.
- The QUIC handshake, rendezvous and STUN exchanges, and everything else in `socket_quic.c`.
- `curl.c`, `process.c`, `console.c`, `signals.c`, `logger.c`, `clioptions.c`, `binreloc.c`, `password.c`, `datetime.c`, `porting.c`: I/O, operating system wrappers and configuration.
- `socket_asset.c`, stream prefaces and hex helpers: they would only add easy members beside the packet round trip.
- `path_normalize`, `colorspace.c`, ellipses, `isqrt`, random numbers and base64 in `math.c` and `path.c`: floating point or much easier properties.
