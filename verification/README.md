# Deplug verification

Dafny models of Deplug's packet engine, with proofs.  `dafny verify dfyconfig.toml` checks
everything.

Deplug numbers captured frames, dissects them on several threads, puts them back in order in a frame
store, hands the leaf layers of each frame to stream dissector threads, publishes frames up to a
watermark computed from the progress of those threads, and lets display filter threads scan what is
published.  Around this pipeline sit an allocator that threads its free lists through the memory it
hands out, a number of codecs, and a small compiler for display filters.

- **Frame pipeline.**  `Pipeline.dfy` is a state machine over the whole pipeline; each step is one
  lock-protected section together with the thread-local work around it, and a run is any interleaving
  of steps, with any number of threads and any batch sizes.  `PipelineIntake`, `PipelineDispatch` and
  `PipelineFilter` hold the three invariants, and `PipelineSafety` the theorems about every reachable
  state.  `PipelineTraces` records along a run which watermarks were computed and published, and says
  when published views are withdrawn and what is published at rest; `PipelineRuns` and
  `PipelineSplit` construct runs, with every batch as large as buffers and supply allow, that show
  which stronger promises are false.  The steps are made
  of the functions that specify the methods of the program's classes: `Queue.dfy`, `FrameStore.dfy`,
  `ThreadStats.dfy`, `FilterPool.dfy`, `StageThreads.dfy`, with the reordering shared by two of them
  in `ReorderBuffer.dfy` and the frames in `Frames.dfy`.
- **Dissection of a frame.**  `TagFilter.dfy`, `Layers.dfy`, `DissectorThread.dfy` (a dissector is an
  arbitrary step that appends layers, tags and attributes anywhere in the tree), `FrameView.dfy`,
  `StreamLevels.dfy` (the level loop of a stream thread), `Linkage.dfy`.
- **Memory.**  `BlockAllocator.dfy`, `BlockVector.dfy`.
- **Codecs and streams.**  `Strings.dfy`, `Ipv6.dfy`, `Ipv6RoundTrip.dfy`, `Pcap.dfy`,
  `FileExporter.dfy`, `ExporterRuns.dfy`, `Reassembly.dfy`, `StreamReader.dfy`, `RangeMerge.dfy`.
- **Display filter compiler.**  `Runtime.dfy`, `FilterCompiler.dfy`, `FilterMeaning.dfy`.
- `Common.dfy` holds what several of these share.

Where the code does not keep a promise, the project has a lemma with the run or input that shows it
and states exactly when the promise holds:

- Published views can be withdrawn, for two reasons and no other (`WithdrawnBecause`): a mark for a
  thread that is idle with an older report lowers the watermark (`LoweredWithdraws`,
  `MarkLowersIff`), or a watermark is published after one computed later, since it is applied after
  the table's lock is released (`OvertakenWithdraws`; everything is dissected and nothing stays
  published).  In a run with neither the views only grow (`ViewsNeverShrink`).  When the pipeline
  comes to rest, everything is published exactly if the last publication says what the last
  computation did (`RestPublishes`), with one leaf per frame and thread exactly if it is that of the
  last computation (`RestPublishesIff`).
- A frame can be published with a leaf not analysed exactly if two of its leaves go to one stream
  thread (`HalfPublishedIff`).
- A request for 1023 slots passes the allocator's guard but leaves a list head one slot past the
  block, unless the newest block serves it (`AllocUninitialized`).
- A capture file imports as what was exported exactly when there is at least one frame, all have one
  link type, and times and lengths fit 32 bits (`ExportImport`, `ExportedImports`).
- A compiled filter evaluates to what its source does where `void` and `delete`, which the runtime does
  not know, evaluate their operand and yield false, and throws if an operand does that the source skips,
  or an identifier under `typeof` is undeclared (`Rewritten`).  So without those two operators it means
  the same exactly when the source throws or nothing it skips would, and with them exactly when moreover
  the source means the same with false in their place (`MeaningPreserved`, as for `!void 0`:
  `NotVoidKept`).  `SkippedOperandThrows` has a filter that is false in the source and throws when
  compiled; `VoidLost` and `DeleteLost` say when the two operators alone are kept.
- An export reads the live store block by block and goes wrong exactly when a block finds fewer views
  than it asks for (`Callback`), which withdrawn views bring about (`ExportComesUpShort`).
- A stream reader's read past the end throws unless it starts where the last slice does (`Read`); a
  search finds the first occurrence if that starts in the slice that holds the start of the search
  (`SearchComplete`), and may otherwise miss it or report one from before the start (`SearchMisses`,
  `SearchReturnsEarlier`), although `plugkit/js/stream_reader.js:50-52` promises the first occurrence;
  `SearchReturnsIff` says exactly what is returned.
- `<=` on iterables is not `<` or `==`: it also holds from and to a proper prefix
  (`LessEqualMeans`).
- A TCP stream hangs for ever, so that no further calls hand out anything, exactly when a segment was put
  from below the offset, or a fetch handed out a segment inside which another stored one starts
  (`HungIff`).
- After any linking calls, repeats included, each layer's `next` and `prev` read as its neighbours in
  every list exactly when no layer is twice in a list and lists that share a layer are the same
  (`RightIff`).  One call keeps them so exactly when a new layer joins a list whose last layer is the last
  of no other list, or a layer linked before starts a new list and has no neighbours (`AddLayerLinkage`).
  Linking `a` under two keys and then `b` under one of them breaks a list: `b` leads back to `a`, but `a`
  leads nowhere (`LinkedTwiceBreaks`).
- A stream thread's level loop ends within as many rounds as there are ids if ids on a path do not repeat
  (`LevelsBounded`), but two dissectors that each put a layer for the other below their own keep it going
  for ever (`LevelsUnbounded`); the frame dissection thread's loop always ends (`DissectFrame`).
- A vector can grow exactly when a free slot follows or a copy with one more element fits a block
  (`EmplaceBack`, `CopyRun`).

## Model

| member | source | states |
|---|---|---|
| `PipelineSafety.PipelineConserves` | plugkit/src/frame_store.cpp:43-60 | In every interleaving of producers and dissector threads the store's list is the gap-free beginning of the issued frames, each once; a missing next frame is still in flight; when nothing is in flight all issued frames are listed. |
| `PipelineSafety.PublicationInBounds` | plugkit/src/frame_store.cpp:124-135 | In every reachable state each published view wraps the frame at its position, whose index is that position plus one, and every watermark still to be published, however stale, lies within the frame list. |
| `PipelineSafety.WatermarkSafe` | plugkit/src/stream_dissector_thread_pool.cpp:41-69 | For any index offered for publication, every leaf of every frame up to it is analysed, or waits at its thread and belongs to the very frame that thread last reported. |
| `PipelineSafety.PublishedAreDissected` | plugkit/src/stream_dissector_thread_pool.cpp:154-197 | If no two leaves of a frame go to one thread, every leaf of it is analysed as soon as publication up to it is offered, also when the dispatcher has only half marked later frames. |
| `PipelineSafety.CaughtUp` | plugkit/src/stream_dissector_thread_pool.cpp:54-68 | When no thread lags, the watermark is the last frame the dispatcher marked completely. |
| `PipelineSafety.FilterRefines` | plugkit/src/filter_thread_pool.cpp:75-96 | In every interleaving of filter threads the merged result is the sequential filter's result over frames 1 to `maxSeq`, ascending and without repetition, and `maxSeq` is how far the fastest thread has come. |
| `PipelineSafety.StepKeeps` | plugkit/src/stream_dissector_thread_pool.cpp:128-197 | Every step of every thread keeps the invariant of the whole pipeline, and every publication a reachable state allows is within bounds. |
| `PipelineSafety.RunKeeps` | plugkit/src/stream_dissector_thread_pool.cpp:117-198 | So does every run, whatever the interleaving. |
| `PipelineTraces.WithdrawnBecause` | plugkit/src/stream_dissector_thread_pool.cpp:129-132 | A publication withdraws views only if one computed later came before it, or a mark lowered the watermark between the computation last published and its own. |
| `PipelineTraces.ViewsNeverShrink` | plugkit/src/frame_store.cpp:124-135 | In a run without lowering marks and overtaken publications the published views only grow. |
| `PipelineTraces.MarkLowers` | plugkit/src/stream_dissector_thread_pool.cpp:180-189 | In every reachable state the next mark lowers the watermark exactly if it is for a thread that is idle with an older report. |
| `PipelineTraces.RestPublishes` | plugkit/src/stream_dissector_thread_pool.cpp:128-132 | With nothing under way every issued frame is listed and analysed, the last computed watermark is the whole list, and all of it is published exactly if the last publication has that value. |
| `PipelineTraces.RestPublishesIff` | plugkit/src/stream_dissector_thread_pool.cpp:128-132 | With one leaf per frame and thread that is so exactly if the last publication is that of the last computation. |
| `PipelineRuns.LoweredWithdraws` | plugkit/src/stream_dissector_thread_pool.cpp:60-66 | A run with full batches that publishes in the order of computation, and yet withdraws a view. |
| `PipelineRuns.OvertakenWithdraws` | plugkit/src/stream_dissector_thread_pool.cpp:129-132 | A run with full batches in which no mark lowers the watermark, and which ends at rest with everything dissected and nothing published. |
| `PipelineSplit.HalfPublishedIff` | plugkit/src/stream_dissector_thread.cpp:157-192 | For every number of threads and every frame, some run with full batches publishes the frame with a leaf not analysed exactly if two of its leaves go to one thread. |
| `PipelineIntake.ListIsLongestPrefix` | plugkit/src/frame_store.cpp:48-53 | Conservation makes the store's list the longest beginning of the issued frames of which nothing is missing. |
| `PipelineIntake.NumberConserves` | plugkit/src/session.cpp:90-92 | Numbering a frame adds exactly that frame to what is in flight and gives it the next index. |
| `PipelineIntake.DeliverConserves` | plugkit/src/dissector_thread.cpp:152-154 | Handing a batch to the store moves its frames from the thread to the store, loses none, and only extends the list. |
| `PipelineDispatch.WatermarkSettles` | plugkit/src/stream_dissector_thread_pool.cpp:60-68 | What the table yields is an index up to which all frames are marked and whose backlog is covered by each thread's last report. |
| `PipelineDispatch.MarkKeeps` | plugkit/src/stream_dissector_thread_pool.cpp:180-189 | Marking a leaf keeps, for every thread, that done and pending work together are its share of the marked leaves in order, and keeps every watermark on its way settled. |
| `PipelineDispatch.ReportKeeps` | plugkit/src/stream_dissector_thread.cpp:173-190 | So does reporting a finished batch and asking for a new watermark. |
| `PipelineFilter.CoveringKeeps` | plugkit/src/filter_thread.cpp:53-59 | Merging one thread's report keeps the pool exactly as far as the fastest thread, although every thread tests every frame. |
| `StageThreads.Distribute` | plugkit/src/stream_dissector_thread_pool.cpp:178-189 | The dispatcher's loop over dequeued frames sorts their leaves by thread and notes each in the table, as the state machine's marking steps do. |
| `StageThreads.DistributeIsRun` | plugkit/src/stream_dissector_thread_pool.cpp:163-189 | That loop is a run of marking steps, between which other threads may act. |
| `StageThreads.MaxFrameIndex` | plugkit/src/stream_dissector_thread.cpp:173-178 | The running maximum is the batch's highest frame index, which the reported progress relies on. |
| `StageThreads.FilterThread.Loop` | plugkit/src/filter_thread.cpp:40-61 | One pass tests the window of views from the thread's offset, merges the verdicts and advances by the window; a closed thread or store ends it, an empty window changes nothing. |
| `StageThreads.PassIsRun` | plugkit/src/filter_thread.cpp:46-60 | Such a pass is a scan step followed by a merge step of the state machine. |
| `StageThreads.PassCatchesUp` | plugkit/src/filter_thread.cpp:46-60 | In every reachable state one pass of a filter thread over views it has not tested merges the sequential result at least up to their end. |
| `ReorderBuffer.TrimKeeps` | plugkit/src/frame_store.cpp:49-57 | Dropping consumed keys with `erase(begin, end)` loses nothing above the consumed run, and the last consumed key that stays behind is never consumed again; exactly the keys below it go. |
| `FrameStores.InsertConserves` | plugkit/src/frame_store.cpp:43-60 | Inserting a batch conserves frames between the map and the list. |
| `FrameStores.PublishingAgrees` | plugkit/src/frame_store.cpp:124-135 | Publishing any index within the list, and inserting frames, keep views and frames in agreement. |
| `FrameStores.ListedAreIssued` | plugkit/src/frame_store.cpp:50-53 | The list is a beginning of what was issued. |
| `FrameStores.FrameStore.InsertBatch` | plugkit/src/frame_store.cpp:43-60 | The method computes the insertion the proofs are about. |
| `FrameStores.FrameStore.DequeueFrames` | plugkit/src/frame_store.cpp:62-77 | The frames from an offset on, at most `max`; none when closed. |
| `FrameStores.FrameStore.DequeueViews` | plugkit/src/frame_store.cpp:79-107 | The views from an offset on, at most `size`; a closed thread is told so once. |
| `FrameStores.FrameStore.Get` | plugkit/src/frame_store.cpp:109-117 | The views of a range, as far as they exist. |
| `FrameStores.FrameStore.UpdateViews` | plugkit/src/frame_store.cpp:124-135 | Shrinks or extends the views to exactly the index, wrapping the frames at the new positions. |
| `BatchQueue.Queue.Enqueue` | plugkit/src/queue.hpp:47-57 | Appends the whole batch in order unless closed. |
| `BatchQueue.Queue.Dequeue` | plugkit/src/queue.hpp:59-83 | Taken and remaining elements make up the old buffer; as many as fit are taken; a closed queue gives nothing. |
| `ThreadStats.WatermarkIsGreatest` | plugkit/src/stream_dissector_thread_pool.cpp:54-68 | The watermark is the greatest index that was pushed to some thread and that no lagging thread has ahead of its report. |
| `ThreadStats.ReportNeverLowers` | plugkit/src/stream_dissector_thread_pool.cpp:50-52 | A report never lowers the watermark. |
| `ThreadStats.MarkLowersIff` | plugkit/src/stream_dissector_thread_pool.cpp:47-68 | A mark lowers it exactly when the marked thread was idle with an older report, and then to that report. |
| `ThreadStats.Lowest` | plugkit/src/stream_dissector_thread_pool.cpp:46-68 | The two passes over the table compute the watermark. |
| `ThreadStats.StatsTable.UpdateIndex` | plugkit/src/stream_dissector_thread_pool.cpp:41-69 | Raises the thread's entry and returns the watermark of the new table. |
| `FilterPools.CollectSound` | plugkit/src/filter_thread_pool.cpp:75-95 | Merging a correct report, new, late or overlapping, keeps the result equal to the sequential one; every reported index is merged or waiting. |
| `FilterPools.MatchingMember` | plugkit/src/filter_thread_pool.cpp:84-89 | The sequential result holds exactly the indices of matching frames. |
| `FilterPools.MatchingAscends` | plugkit/src/filter_thread_pool.cpp:84-89 | It is strictly ascending. |
| `FilterPools.FilterThreadPool.ThreadCallback` | plugkit/src/filter_thread_pool.cpp:75-96 | The callback's loops compute that merge, keeping verdicts already present. |
| `FilterPools.FilterThreadPool.Get` | plugkit/src/filter_thread_pool.cpp:125-134 | The results of a range, as far as they exist. |
| `TagFilters.TagFilter.Match` | plugkit/src/tag_filter.cpp:15-36 | Bloom precheck and exact test together decide the subset relation. |
| `TagFilters.BloomCoversSubset` | plugkit/src/tag_filter.cpp:16-22 | The precheck never rejects a layer that has all filter tags. |
| `TagFilters.StreamMatch` | plugkit/src/stream_dissector_thread.cpp:105-118 | The stream threads' matcher without bloom word decides the same relation for hints that are not all null. |
| `Layers.Tree.AddLayer` | plugkit/src/layer.cpp:105-110 | Appends a layer with the given id, parent and confidence at the end of its parent's children, changes nothing else, and keeps the tree well formed. |
| `Layers.Tree.AddTag` | plugkit/src/layer.cpp:55 | Appends a tag to one layer and keeps the tree well formed. |
| `Layers.Tree.AddAttr` | plugkit/src/layer.cpp:103 | Appends an attribute to one layer and keeps the tree well formed. |
| `DissectorThreads.DissectFrame` | plugkit/src/dissector_thread.cpp:101-150 | With layer ids from a finite set dissection ends after at most as many levels as ids. The dissector calls made are exactly those of the recorded visits; in each visit every dissector matching the tags the layer ended with was asked once and no other, those that were confident analyzed the layer directly afterwards, and no tag the layer had got before was overlooked; and every child a dissector left is visited, unless its id was dissected when that visit began. |
| `DissectorThreads.DissectLevel` | plugkit/src/dissector_thread.cpp:111-148 | One level visits each queued layer once, in order, and makes the calls of those visits and no others. |
| `DissectorThreads.VisitLayer` | plugkit/src/dissector_thread.cpp:116-146 | The inner fixpoint ends although tags grow while it runs; the log of calls grows by exactly one examination for each dissector matching the final tags and none for any other, each followed by an analysis exactly if it was confident; and the children left by each analysis are queued unless their id is dissected. |
| `DissectorThreads.RunBatch` | plugkit/src/dissector_thread.cpp:130-145 | Each selected dissector examines the layer once. |
| `DissectorThreads.ReadyBounded` | plugkit/src/dissector_thread.cpp:139-144 | No layer can be queued at a level beyond the number of ids. |
| `FrameViews.LeavesOnce` | plugkit/src/frame_view.cpp:14-26 | The collected list holds each leaf below a layer exactly once and nothing else, and so does the dispatcher's list. |
| `FrameViews.ViewHoldsLeaves` | plugkit/src/frame_view.cpp:11-35 | A list with the elements of the collected one, in whatever order, holds each leaf of the tree exactly once and nothing else. |
| `FrameViews.StreamedSameLeaves` | plugkit/src/stream_dissector_thread_pool.cpp:163-176 | The dispatcher walks the same leaves as the view, each once. |
| `FrameViews.FrameView.constructor` | plugkit/src/frame_view.cpp:11-35 | Builds that list and puts it in display order: more confident leaves first, then smaller ids. |
| `FrameViews.FrameView.Query` | plugkit/src/frame_view.cpp:52-97 | Finds something exactly when some layer anywhere in the tree has the id or leads to an attribute by its aliases, and then what the layer shows that is nearest to the first leaf, in display order, with such a layer above it; `attr` is the same without ids. |
| `FrameViews.LayerAttr` | plugkit/src/layer.cpp:89-101 | The answer is an attribute exactly if a chain of positions leads to it: it starts at the first attribute with the token, each next position is the first behind with the alias target of the one before, and the last is no alias. |
| `FrameViews.FindAttrChain` | plugkit/src/layer.cpp:89-101 | There is at most one such chain. |
| `StreamLevels.LevelIff` | plugkit/src/stream_dissector_thread.cpp:180-188 | Each round visits exactly the layers that many steps below those handed over, a step leading to a child with another id than its parent's. |
| `StreamLevels.LevelsBounded` | plugkit/src/stream_dissector_thread.cpp:180-188 | If no id repeats on a path, the loop ends after at most as many rounds as there are ids. |
| `StreamLevels.LevelsUnbounded` | plugkit/src/stream_dissector_thread.cpp:73-76 | Since each visit's set of seen ids starts with that layer's own alone, two ids in turn keep the loop going for ever. |
| `StreamLevels.Analyze` | plugkit/src/stream_dissector_thread.cpp:135-140 | The visit's loop queues exactly the children with another id, in order. |
| `StreamLevels.AnalyzeLevel` | plugkit/src/stream_dissector_thread.cpp:180-188 | One round computes the next one's layers. |
| `Linkage.Context.AddLayerLinkage` | plugkit/src/context.cpp:71-90 | Records the call; where all lists are right, they stay so exactly if a layer without links joins a list whose last layer no other list ends with, or a linked one starts a new list and reads neither `next` nor `prev`. |
| `Linkage.Context.Reads` | plugkit/src/wrapper/layer_w.cpp:225-265 | What the wrapper reads from a linked layer is determined by the calls: `next` by its first linking, `prev` by its first linking that was not the first of its list. |
| `Linkage.Context.ListsRightIff` | plugkit/src/wrapper/layer_w.cpp:225-265 | The wrapper yields the neighbours in every list exactly if the calls so far leave the lists right. |
| `Linkage.RightIff` | plugkit/src/context.cpp:71-90 | After any calls, repeats included, all lists are right exactly if no layer is twice in a list and lists that share a layer are the same. |
| `Linkage.FitsIff` | plugkit/src/context.cpp:71-90 | One more call keeps right lists right exactly under the condition of `AddLayerLinkage`. |
| `Linkage.LinkedTwiceBreaks` | plugkit/src/context.cpp:76-89 | A layer linked under two keys leaves both lists right; a second layer under one of them then leads back to it while its own `next` leads nowhere. |
| `Linkage.Walk` | plugkit/src/wrapper/layer_w.cpp:246-265 | Where lists are right, following `next` from the first layer visits all layers of a list in call order and ends at null. |
| `Linkage.Inverse` | plugkit/src/wrapper/layer_w.cpp:225-265 | Where lists are right, `prev` and `next` are inverse to each other wherever they are not null. |
| `Linkage.TargetIsNext` | plugkit/src/context.cpp:83-89 | The `next` attribute a call makes ends up pointing to the layer behind its own in the list of its key. |
| `Linkage.PrevIsPrevious` | plugkit/src/context.cpp:77-82 | The `prev` read from a layer is the layer before it in some list, if it is not the first in all of them. |
| `Linkage.Layer.Linked` | plugkit/src/wrapper/layer_w.cpp:225-265 | The wrapper's loop returns the target of the first attribute of its kind. |
| `Linkage.FindAppended` | plugkit/src/context.cpp:79-88 | A second attribute of a kind is never the one found. |
| `BlockAllocators.BlockAllocator.AllocUninitialized` | plugkit/src/allocator.hpp:57-91 | Returns adjacent slots none of which was live, leaves live slots alone, and keeps every block split between an acyclic free list and the live slots, exactly unless 1023 slots are asked for and the newest block cannot serve them; they come from the newest block if its free list starts with so many adjacent slots, and else from a new one. |
| `BlockAllocators.BlockAllocator.Allocable` | plugkit/src/allocator.hpp:93-97 | Tells whether the slot is the one the next single request gets. |
| `BlockAllocators.BlockAllocator.Dealloc` | plugkit/src/allocator.hpp:99-111 | Returns exactly that slot to its own block. |
| `BlockAllocators.FindRun` | plugkit/src/allocator.hpp:61-73 | The walk finds the front of the free list exactly when its first slots are adjacent. |
| `BlockAllocators.PopRun` | plugkit/src/allocator.hpp:74-80 | Unlinks exactly those slots. |
| `BlockAllocators.NewBlock` | plugkit/src/allocator.hpp:81-90 | A fresh block's links thread the slots behind the request. |
| `BlockAllocators.PastEndInvalid` | plugkit/src/allocator.hpp:84 | No free list belongs to a block whose header points past its end. |
| `BlockVectors.BlockVector.EmplaceBack` | plugkit/src/allocator.hpp:142-161 | Whenever a free slot follows or a copy fits, it appends one element to its own vector and leaves every other vector with its place, length and elements, and no slot goes live but its own. |
| `BlockVectors.BlockVector.CopyRun` | plugkit/src/allocator.hpp:149-150 | The run asked for a copy is there, with the allocator intact, exactly if a copy with one more element fits a block. |
| `BlockVectors.BlockVector.Relocate` | plugkit/src/allocator.hpp:149-153 | Copying keeps the elements and adds one. |
| `BlockVectors.BlockVector.Extend` | plugkit/src/allocator.hpp:146-147 | Growing in place keeps the elements and adds one. |
| `Ipv6RoundTrip.RoundTrip` | package/ipv6/macro.js:1-23 | For every 16-byte address parsing the printed text gives the address back, whichever zero run is compressed. |
| `Ipv6RoundTrip.PrintsTextForm` | package/ipv6/macro-rev.js:1-29 | What is printed is a text form of RFC 4291, section 2.2, with `::` in at most one place. |
| `Ipv6RoundTrip.PrintsDenoting` | package/ipv6/macro-rev.js:1-29 | What is printed denotes the address it was printed from. |
| `Ipv6RoundTrip.ParsesDenoted` | package/ipv6/macro.js:1-23 | Every text form of RFC 4291, section 2.2, is parsed to the address it denotes: the numbers of its fields with zeros for what `::` leaves out, where a digit of either case, leading zeros allowed, stands for its position among the sixteen digits of its case. |
| `Ipv6RoundTrip.DigitMeans` | package/ipv6/macro.js:16 | The parser takes exactly the digits 0 to 9, a to f and A to F, as their positions. |
| `Ipv6RoundTrip.EightFields` | package/ipv6/macro.js:9-12 | Around `::` eight fields are taken as an address, although it then stands for nothing. |
| `Ipv6RoundTrip.TooManyFields` | package/ipv6/macro.js:9-12 | On more fields around `::` the parser fails with a range error. |
| `Ipv6RoundTrip.WrongCount` | package/ipv6/macro.js:13 | Fields without `::` that are not eight are no address. |
| `Ipv6RoundTrip.NumeralIsRead` | package/ipv6/macro.js:16 | White space, a sign, a prefix, digits and a rest that does not go on with a digit are read as the number the digits write. |
| `Ipv6RoundTrip.ReadIsNumeral` | package/ipv6/macro.js:16 | Nothing else is read as a number. |
| `Ipv6RoundTrip.TextFormDenotes` | package/ipv6/macro.js:1-23 | Every canonical text form denotes an address. |
| `Ipv6RoundTrip.ExecCovers` | package/ipv6/macro-rev.js:14-22 | Each match of the pattern is a run of whole zero groups with the colons around it, and the search resumes at a group that is not zero. |
| `Ipv6RoundTrip.Padded` | package/ipv6/macro.js:9-12 | The parser inserts exactly as many zero groups as were compressed. |
| `Ipv6RoundTrip.ParseHex` | package/ipv6/macro.js:16 | Reading a printed group gives its number. |
| `Ipv6.Print` | package/ipv6/macro-rev.js:13-28 | The loop over matches computes the printed text. |
| `Ipv6RoundTrip.KeepsFirstLongest` | package/ipv6/macro-rev.js:18-23 | Of all matches the first among the longest is compressed. |
| `Ipv6RoundTrip.PrintsCompressed` | package/ipv6/macro-rev.js:13-28 | The plain text with the first of the longest runs of zero groups replaced by `::`, or the plain text itself if there is none; every zero group lies in one of the runs. |
| `Ipv6.ParseText` | package/ipv6/macro.js:1-23 | The in-place edits of the sections compute the parse, errors included, whose meaning is stated by `ParsesDenoted`, `EightFields`, `TooManyFields`, `WrongCount` and `NumeralIsRead`. |
| `Pcap.Write` | package/pcap-file/crates/exporter/src/lib.rs:24-68 | For any division into batches the bytes are one capture file of the frames before the first empty batch, with the header written once and only if there is a frame; it starts with the 24 bytes of magic number, version 2.4, zeros, snapshot length and first link type. |
| `Pcap.RecordBytes` | package/pcap-file/crates/exporter/src/lib.rs:55-64 | A record is seconds, nanoseconds, payload length and captured length, each as four bytes with the least significant first, and the payload. |
| `Pcap.WrittenHeader` | package/pcap-file/crates/exporter/src/lib.rs:27-52 | The 24 bytes a file with frames starts with. |
| `Pcap.Start` | package/pcap-file/crates/importer/src/lib.rs:24-107 | For any capacity of at least one the batches handed over make up exactly the imported frames, all full but the last; a bad magic number or a short header is an error. |
| `Pcap.ReadBatch` | package/pcap-file/crates/importer/src/lib.rs:62-100 | One batch holds the next records until it is full or a record is incomplete. |
| `PcapRoundTrip.ExportImport` | package/pcap-file/crates/importer/src/lib.rs:30-106 | Import undoes export exactly for a non-empty list of frames of one link type whose fields fit 32 bits. |
| `PcapRoundTrip.AnyFormatImports` | package/pcap-file/crates/importer/src/lib.rs:34-60 | The reader takes all four variants: either byte order, microseconds or nanoseconds. |
| `PcapRoundTrip.TruncatedImport` | package/pcap-file/crates/importer/src/lib.rs:62-105 | A file cut anywhere in its record area imports as exactly its complete leading frames. |
| `PcapRoundTrip.ImportErrors` | package/pcap-file/crates/importer/src/lib.rs:39-73 | An import fails exactly on a magic number other than the four known, or if the file ends before its header does. |
| `PcapRoundTrip.RecordRoundTrip` | package/pcap-file/crates/exporter/src/lib.rs:56-65 | A written record followed by anything is read back. |
| `Pcap.FieldValue` | package/pcap-file/crates/exporter/src/lib.rs:60-63 | A 32-bit field holds its number modulo 2^32 in either byte order. |
| `FileExporter.ExportSource.Callback` | plugkit/src/file_exporter_task.cpp:65-104 | On the live store, with anything happening between blocks, each call hands out the next frames that pass the filter, at most 1024, and none only when no more will; it goes wrong exactly when a block finds fewer views than it asks for; the batch carries, in order, exactly the listed frames from the old offset to the new one that the filter accepts, each with its first slice, time, length and mapped link type. |
| `ExporterRuns.ExportComesUpShort` | plugkit/src/file_exporter_task.cpp:83-95 | A run in which an export's first block finds fewer views than were published when it started. |
| `FileExporter.Export` | plugkit/src/file_exporter_task.cpp:121-134 | While the store keeps as many views as at the start, all batches are non-empty and make up the filtered views of the start, which is what the written file holds; these are the frames the filter accepts, at their positions, each once. |
| `FileExporter.RawFrameFits` | plugkit/src/file_exporter_task.cpp:32-63 | The raw frame's time is the view's to the nanosecond, and it fits a capture file exactly when the view's time and lengths do. |
| `FileExporter.ExportedImports` | plugkit/src/file_exporter_task.cpp:65-134 | From views to file to frames: the import is what was selected exactly when something was, all times and lengths fit, and the link type is one. |
| `FilterRuntime.Less` | plugkit/runtime.js:98-105 | `<` is true exactly if the first difference within the common length is smaller on the left. |
| `FilterRuntime.Greater` | plugkit/runtime.js:106-113 | `>` is `<` with its sides exchanged. |
| `FilterRuntime.LessEqual` | plugkit/runtime.js:114-121 | `<=` is exactly not `>`. |
| `FilterRuntime.GreaterEqual` | plugkit/runtime.js:122-129 | `>=` is exactly not `<`. |
| `FilterRuntime.Equal` | plugkit/runtime.js:80-88 | `==` is equality of sequences. |
| `FilterRuntime.NotEqual` | plugkit/runtime.js:89-97 | `!=` is its negation. |
| `FilterRuntime.Compare` | plugkit/runtime.js:73-133 | Each comparison opcode yields what equality or the first difference within the common length says, and other opcodes have no meaning on iterables. |
| `FilterRuntime.Trichotomy` | plugkit/runtime.js:98-113 | One of two iterables is below the other or one is a prefix of the other, exclusively. |
| `FilterRuntime.BelowTransitive` | plugkit/runtime.js:98-105 | `<` is transitive. |
| `FilterRuntime.TotalOnEqualLengths` | plugkit/runtime.js:98-121 | On equal lengths `<` is a strict total order with `<=` its reflexive closure. |
| `FilterRuntime.LessEqualMeans` | plugkit/runtime.js:114-121 | `<=` differs from `<` or `==` exactly between a sequence and a proper prefix. |
| `FilterMeaning.MeaningPreserved` | plugkit/filter.js:39-98 | The rewritten tree evaluated by the eager runtime equals the source evaluated lazily exactly when no skipped operand would throw, no identifier under `typeof` is undeclared and the source means the same with false for what `void` and `delete` yield, or else the source throws; without those operators exactly when the source throws or the first two hold. |
| `FilterMeaning.TotalMeaningPreserved` | plugkit/filter.js:39-98 | With operators that never throw every filter means what its source does with false for what `void` and `delete` yield, and without those operators exactly what its source does. |
| `FilterMeaning.Rewritten` | plugkit/runtime.js:47-191 | For every source tree the rewritten one evaluates to the source's outcome with false for what `void` and `delete` yield if nothing the source does not evaluate would throw, and throws otherwise. |
| `FilterMeaning.ComparesIterables` | plugkit/runtime.js:73-133 | On operands that yield iterables of integers each comparison, compiled and in the source, yields what the first difference of the two lists says. |
| `FilterMeaning.ChoicesMean` | plugkit/runtime.js:56-71 | Negation and the conditional, compiled and in the source, go by the truth of their operand. |
| `FilterMeaning.LogicalsMean` | plugkit/runtime.js:180-187 | `&&` and `||` yield the operand they do in the source. |
| `FilterMeaning.PipesMean` | plugkit/runtime.js:39-45 | The functions of an attribute are applied to its value in order. |
| `FilterMeaning.KnownPlain` | plugkit/runtime.js:56-71 | Without `void` and `delete` it makes no difference what they yield. |
| `FilterMeaning.SkippedOperandThrows` | plugkit/runtime.js:180-187 | `false && (1 in 2)` is false in the source and throws when compiled. |
| `FilterMeaning.VoidLost` | plugkit/runtime.js:56-71 | A filter that is a `void` keeps its meaning exactly if its operand throws, before and after the rewriting. |
| `FilterMeaning.DeleteLost` | plugkit/runtime.js:56-71 | A filter that is a `delete` keeps its meaning exactly if it yields false and its rewritten operand has a value, or both throw. |
| `FilterMeaning.NotVoidKept` | plugkit/runtime.js:56-71 | `!void a`, with neither of the two operators in `a`, keeps its meaning exactly if `a` throws or nothing it skips would. |
| `FilterMeaning.TraverseConditional` | plugkit/filter.js:55-62 | A conditional's test is negated twice by runtime calls, the inserted negation being rewritten as well. |
| `FilterMeaning.TraverseCompiles` | plugkit/filter.js:47-96 | No operator or attribute of the source is left in the output. |
| `FilterCompiler.BuildAttr` | plugkit/filter.js:74-93 | The loop nests pipeline calls around the resolved attribute, the first function innermost. |
| `FilterCompiler.ChildrenLighter` | plugkit/filter.js:47-96 | The traversal ends although replacements are traversed again. |
| `Reassembly.EmitsPrefix` | package/tcp/crates/tcp-stream/src/lib.rs:34-63 | If segments tile the original and each is put at most once, in any order with fetches anywhere, the bytes handed out are always its first `offset` bytes. |
| `Reassembly.FetchReachesGap` | package/tcp/crates/tcp-stream/src/lib.rs:45-63 | A fetch hands out everything up to the first byte not received. |
| `Reassembly.LastFetch` | package/tcp/crates/tcp-stream/src/lib.rs:45-63 | Once all segments were put a fetch completes the original and empties the map. |
| `Reassembly.StaleBlocks` | package/tcp/crates/tcp-stream/src/lib.rs:49-56 | With a segment below the offset in the map no fetch hands out anything, whatever is put. |
| `Reassembly.PutMakesStale` | package/tcp/crates/tcp-stream/src/lib.rs:34-36 | Putting makes a stream hang exactly with a non-empty segment from below the offset. |
| `Reassembly.FetchMakesStale` | package/tcp/crates/tcp-stream/src/lib.rs:45-63 | Fetching does exactly if it hands out a segment inside which another stored one starts. |
| `Reassembly.StaleIff` | package/tcp/crates/tcp-stream/src/lib.rs:34-63 | After any calls whatsoever a segment lies below the offset exactly if one of them was of these kinds. |
| `Reassembly.NotStaleHandsOut` | package/tcp/crates/tcp-stream/src/lib.rs:34-63 | Without such a segment the next one put at the offset is handed out. |
| `Reassembly.HungIff` | package/tcp/crates/tcp-stream/src/lib.rs:34-63 | After any calls whatsoever no continuation hands out anything exactly if one of them was of these kinds. |
| `Reassembly.Stream.Put` | package/tcp/crates/tcp-stream/src/lib.rs:34-43 | Stores a non-empty segment under its start. |
| `Reassembly.Stream.Fetch` | package/tcp/crates/tcp-stream/src/lib.rs:45-63 | The loop over the ordered map drains it as specified and returns those bytes, moves the offset by as much, and ends where the first segment left, if any, is not due. |
| `StreamReader.Reader.AddSlice` | plugkit/js/stream_reader.js:42-48 | Appends the slice to the flat stream and keeps the length. |
| `StreamReader.Reader.Read` | plugkit/js/stream_reader.js:102-144 | For any slicing a read inside the stream returns the flat bytes, one behind the end nothing, and one that runs past the end throws unless it starts where the stream's last slice does. |
| `StreamReader.FitsFirst` | plugkit/js/stream_reader.js:128-132 | When the shortcut through the first slice serves a read past the end. |
| `StreamReader.Reader.Search` | plugkit/js/stream_reader.js:56-97 | The loops probe the positions the specification probes. |
| `StreamReader.SearchSound` | plugkit/js/stream_reader.js:87-91 | A returned position is the end of a true occurrence. |
| `StreamReader.SearchComplete` | plugkit/js/stream_reader.js:80-94 | The first occurrence is found if it starts in the slice that holds the start of the search. |
| `StreamReader.SearchReturnsIff` | plugkit/js/stream_reader.js:79-94 | A position is returned, in whatever slice, exactly if the first probe that matches or throws matches and ends there, counted from the start of the first slice searched. |
| `StreamReader.SearchMisses` | plugkit/js/stream_reader.js:79-88 | Two slices suffice to miss an occurrence. |
| `StreamReader.SearchReturnsEarlier` | plugkit/js/stream_reader.js:79-88 | Two slices suffice to report one before the start of the search. |
| `RangeMerge.ParseRange` | core/view/pcap/export-dialog.js:3-36 | The merged intervals are in order with a strict gap between an end and the next begin and cover exactly the points of the given ranges, hence exactly the numbers the clauses name. |
| `RangeMerge.RangesCover` | core/view/pcap/export-dialog.js:9-26 | The normalised ranges hold exactly the numbers the clauses name, reversed and open ones included. |
| `RangeMerge.OpenClauses` | core/view/pcap/export-dialog.js:15-23 | A clause open at its end reaches up to 2^53-1, one open at the front from 0. |
| `RangeMerge.OrderIrrelevant` | core/view/pcap/export-dialog.js:27-36 | The result does not depend on how the sort orders equal begins, nor on the order or repetition of ranges. |
| `RangeMerge.Determined` | core/view/pcap/export-dialog.js:28-36 | A separated list of intervals is determined by the points it covers. |
| `RangeMerge.Merge` | core/view/pcap/export-dialog.js:28-36 | The loop that widens the last interval computes the merge. |

## Left out

- Blocking waits, timeouts, wake-ups, shutdown of a closed queue inside the state machine, and liveness: a step is the locked section that runs once the wait is over.
- In the state machine a batch may have any size, which includes the threads' buffers of 128 and 2048; the constructed runs use those.
- The leaves of a frame are fixed when it is numbered, standing for whatever dissection leaves; leaves without a frame and frames without a root layer are not modelled.
- 32-bit wrap of frame indices and of the queue's element count.
- StreamLevels.AnalyzeLevel: a visit's tags and dissectors; the children it sees are a function of the layer's path, and the loop itself, which need not end, is the sequence of its rounds.
- DissectorThreads.VisitLayer: in which order the dissectors selected in one round are called, which is that of their registration.
- Creation and destruction of dissector workers and the stream threads' worker tables.
- FileExporter.ExportSource.Callback: what the program does after a block came up short, when it reads past its list.
- BlockVectors.BlockVector.EmplaceBack: what the program does with a vector that cannot grow (`CopyRun`): it copies to a null pointer, or goes on with a broken allocator.
- Memory obtained for a block never fails, and a vector's old run stays allocated after a copy, as in the program.
- Linkage.Context.AddLayerLinkage: what is read from a layer that already had a link from elsewhere, say another context, when it was first linked.
- Pcap.Start: with a capacity of zero the reader would call back for ever; file opening and write errors are not modelled; a microsecond value wraps modulo 2^32 as in a release build.
- The reader trusts the record length it reads and reserves that much; the model has no memory limit.
- FilterMeaning.MeaningPreserved: what `delete`, calls and member accesses change in the host; errors are not told apart; operators on scalars, truthiness, identifiers, calls, member accesses and the pipeline functions are parameters.
- The runtime's `()` opcode, which the compiler does not emit; macros; the parser plugin and the generated text.
- FilterRuntime.Compare: iterables of integers; elements of other types compare by the host's own operators.
- StreamReader.Reader.Read: non-negative integers only; negative arguments count from a slice's end.
- StreamReader.SearchComplete: an occurrence that starts in a later slice is returned only as far as `SearchReturnsIff` says; non-negative start positions only.
- RangeMerge.ParseRange: starts from clauses split at commas and dashes and numbers up to 2^53-1; clauses that are no numbers, and the filter text made of the intervals, are not modelled.
- `TCPStreamWorker::analyze`: how sequence numbers become offsets (package/tcp/crates/tcp-stream/src/lib.rs:119-144).
- The unused scan of the segments in `put` (package/tcp/crates/tcp-stream/src/lib.rs:37-41).
- Ipv6.ParseText: yields the byte list, not its JSON text.
- Protocol header decoders, token table, string pool, variant packing, layer bit fields, logging, progress events, V8 wrappers other than `prev` and `next`, capture, user interface.
