# Superconductor: layouts, kernels, selectors, chunks and the video decoder

Superconductor lays out large trees on a GPU. A JSON tree is flattened into structure-of-arrays buffers;
visit kernels run over the buffers level by level; a CSS-like selector engine styles the nodes; buffers
travel as sparse chunks that several workers inflate. The repository also carries a modified Chromium
media source, whose GPU video decoder is modelled as well. This project models these stages in Dafny and
proves what each fast form owes to the simple one.

| stage | files |
|---|---|
| trees, breadth-first layouts, flattening, reading back | `Trees`, `Layouts`, `Flattener`, `RoundTrip` |
| visits as instructions, level launches, the treemap kernels | `LevelLaunch`, `Kernels`, `Passes`, `PassEffects` |
| vertex-buffer slots (passes 3 and 4) | `Intervals`, `RenderSlots` |
| treemap rectangles (passes 1 and 2) | `Treemap`, `Tiling` |
| documents, selector matching, compilation | `Documents`, `Selectors`, `SelectorCompiler` |
| cascade, emitted kernel, array form | `Cascade`, `Painting`, `Cascades`, `KernelMerge`, `EmittedKernel`, `SelectorArrays` |
| sparse arrays, chunks, the inflation protocol | `Sparse`, `Chunks`, `InflateProtocol` |
| the GPU video decoder | `DecoderStates`, `DecoderRuns`, `DecoderAnswers`, `DecoderResets`, `GpuVideoDecoder` |

Code that works by changing buffers is modelled by classes and loops (`CLRunner`, `Fields`, `Painter`,
`Page`, `GpuVideoDecoder` and the methods on arrays); each is tied to a specification function or predicate,
and the theorems are about those. `dafny verify dfyconfig.toml` checks everything.

How to read the main parts:

- A layout is one number per node, the index where its children begin. Flattening is proved to produce one
  for every tree, and everything downstream relies on nothing else.
- A visit is a list of instructions, each of which loads cells and stores one. On the CPU visits run one
  after the other; on the GPU the instructions of a level's visits interleave in any way. The visits' own
  loops along sibling links are proved to run exactly these lists.
- Numbers in kernels are exact, with a NaN for division by zero: a node whose polling places are all
  filtered out has total 0, and its children's shares are 0 / 0. The theorems say exactly which nodes that
  concerns.
- Runs (of the inflation protocol and of the decoder) are sequences of states related by legal events, and
  the theorems are about every state of every run.

Where the code does something other than its documentation or a first reading suggests, the code is
followed and the exact condition is proved:

- an empty child array still gets a leftmost-child link, so the tree reads back exactly when there is none
  (`RoundTrip.ReadsBack`);
- a node without an id is left with id 0, which is also the first token (`RoundTrip.IdTestExact`);
- the descendant combinator does not backtrack (`Selectors.ExactIffSafe`, `Selectors.GreedyMisses`);
- the interpreters never try the star bucket (`Painting.CandidatesComplete`), so a star rule
  that should win loses exactly when the other rules give another value (`Cascades.StarsMissedIff`);
- the generated three-way merge prefers the larger of tag and star (`KernelMerge.Merge3InOrder`);
- the recorded end of a chunk's span ignores the length of its first block (`Chunks.RecordedSpan`);
- four ids overflow the emitted 32-bit specificity (`Cascade.WeightFits`);
- Stop does not answer a deferred Reset: it is answered exactly when it is retried outside draining mode or with
  aborted factories, and a decoder stopped while draining stays in that mode (`DecoderResets.StopAnswersAllIff`,
  `DecoderResets.DeferredAnsweredIff`, `DecoderResets.StoppedWhileDraining`);
- a Reset pending when the accelerator is lost is answered exactly by a later Stop
  (`DecoderResets.PendingAnsweredIff`, `DecoderResets.FailedWhileResetting`);
- textures created when the accelerator is gone are never deleted (`DecoderResets.TexturesDeletedInTheEnd`).

## Model

| member | source | states |
|---|---|---|
| `Flattener.CLRunner.TreeSize` | superconductor/superconductorjs/superconductor.js:1649-1662 | the loop over all child fields returns the recursive node count |
| `Flattener.CLRunner.WriteArray` | superconductor/superconductorjs/superconductor.js:1676-1690 | for a child array: right links 1 up to the last child and 0 there, parents, left links 0 only for the node's very first child; nothing else changes |
| `Flattener.CLRunner.FlattenEdges` | superconductor/superconductorjs/superconductor.js:1664-1703 | fails exactly when a label has no child field in the grammar; otherwise every label's leftmost link is its first child's distance, all other rows of the node stay 0, and the sibling and parent links of all children are set |
| `Flattener.CLRunner.FlattenNode` | superconductor/superconductorjs/superconductor.js:1718-1753 | class and id tokens of the node, its links, and a frame: only its own column and its children's columns change |
| `Flattener.CLRunner.Tokenize` | superconductor/superconductorjs/superconductor.js:1707-1712 | the returned index holds the string, tokens stay pairwise different, old tokens keep their place |
| `Flattener.CLRunner.Flatten` | superconductor/superconductorjs/superconductor.js:1755-1806 | succeeds exactly when every label in the tree is declared; then the buffers hold a breadth-first layout of the whole tree and the returned levels cut it |
| `Flattener.LoadData` | superconductor/superconductorjs/superconductor.js:1808-1824 | sizing, allocating and flattening together, for every tree with distinct object keys |
| `Layouts.LevelsPartition` | superconductor/superconductorjs/superconductor.js:1763-1804 | every node is in exactly one level, only the root in the first, and a node's parent is one level up |
| `Layouts.Partition` | superconductor/examples/treemap/kernels.visualization.js:1109-1296 | the principle behind both tiling theorems: if at each node what it covers is its own part plus its children's covers, without overlap, each covered point has exactly one owner |
| `RoundTrip.ReadsBack` | superconductor/superconductorjs/superconductor.js:1664-1806 | following class tokens, leftmost-child and right-sibling links from index 0 gives back the flattened tree if and only if it has no empty child array |
| `RoundTrip.IdTestExact` | superconductor/superconductorjs/superconductor.js:1735-1746 | a test against an id token picks exactly the nodes with that id if and only if it is not token 0 or every node has an id |
| `LevelLaunch.Projection` | superconductor/superconductorjs/superconductor.js:2338-2343 | at every moment of any interleaving of a race-free level, each visit's cells are as if it had run alone and all other cells are unchanged |
| `LevelLaunch.ScheduleDoesNotMatter` | superconductor/superconductorjs/superconductor.js:2338-2343 | every complete interleaving of a race-free level leaves what running its visits in turn leaves |
| `LevelLaunch.LocalIsRaceFree` | superconductor/superconductorjs/superconductor.js:2321-2367 | visits that touch only their node and its children cannot race within a level |
| `LevelLaunch.LaunchesRefineLoops` | superconductor/superconductorjs/superconductor.js:2321-2367 | launching whole levels, under any interleaving of their instructions, leaves after each level the buffers of the sequential loops, top down and bottom up |
| `Kernels.KernelsLocal` | superconductor/examples/treemap/kernels.visualization.js:885-1296 | every instruction of every visit of passes 1 to 4 stays within the buffers and touches only the node and its children |
| `Kernels.FlattenedTreemap` | superconductor/superconductorjs/superconductor.js:1664-1806 | the buffers of every flattened tree the treemap grammar allows have the links and classes the kernels rely on |
| `Passes.Fields.SumChildren` | superconductor/examples/treemap/kernels.visualization.js:902-911 | the loop along sibling links that adds up the children's field runs exactly the summing instructions |
| `Passes.Fields.PlaceChildren` | superconductor/examples/treemap/kernels.visualization.js:1013-1016 | the loop with `step` and `prev_child_idx` runs exactly the prefix-sum instructions |
| `Passes.Fields.VisitHorizontal2` | superconductor/examples/treemap/kernels.visualization.js:997-1017 | refines the instruction list of a horizontal pass-2 visit |
| `Passes.Fields.VisitVertical2` | superconductor/examples/treemap/kernels.visualization.js:1030-1048 | refines the instruction list of a vertical pass-2 visit |
| `Passes.Fields.VisitRoot3` | superconductor/examples/treemap/kernels.visualization.js:1109-1121 | refines the instruction list of the root's pass-3 visit |
| `Passes.Fields.VisitNode` | superconductor/examples/treemap/kernels.visualization.js:1324-1428 | the dispatcher runs the visit of the node's class |
| `Passes.Fields.TopDownTraversal` | superconductor/superconductorjs/superconductor.js:2321-2344 | the nested loops run the visits level by level in order |
| `Passes.Fields.BottomUpTraversal` | superconductor/superconductorjs/superconductor.js:2346-2367 | the nested loops run the visits level by level in reverse |
| `PassEffects.PassDone` | superconductor/examples/treemap/kernels.visualization.js:885-1296 | after a whole pass every node satisfies the equations of its visit: no later visit disturbs them |
| `PassEffects.LaunchedPass` | superconductor/superconductorjs/superconductor.js:2321-2367 | the same buffers when the pass is launched level by level on the GPU |
| `RenderSlots.SlotsTile` | superconductor/examples/treemap/kernels.visualization.js:1109-1296 | sizes and offsets related as the attribute equations say make the own slots tile [0, size of the root) |
| `RenderSlots.AllocateSlots` | superconductor/examples/treemap/kernels.visualization.js:28-31 | passes 3 and 4 on the buffers leave the specified buffers |
| `RenderSlots.SlotsTileTheBuffer` | superconductor/examples/treemap/kernels.visualization.js:1109-1296 | after passes 3 and 4, for any non-negative self sizes with root 0, the slots [renderoffset, renderoffset + selfrendersize) of all nodes are disjoint and fill exactly [0, rendersize of the root) |
| `RenderSlots.SlotsInOrder` | superconductor/examples/treemap/kernels.visualization.js:1109-1296 | a node's size is its own plus its children's, the root starts at 0, and each child starts after its parent's own slot and the earlier children |
| `RenderSlots.LastDrawIsSize` | superconductor/examples/treemap/kernels.visualization.js:1109-1121 | the root's last-draw mark is the size of the whole buffer |
| `RenderSlots.LaunchedSlotsTile` | superconductor/examples/treemap/kernels.visualization.js:1109-1296 | the same for every interleaving of level launches |
| `RenderSlots.OffsetsAreWhole` | superconductor/examples/treemap/kernels.visualization.js:1109-1296 | whole self sizes give whole offsets |
| `Tiling.TotalsAreLeafSums` | superconductor/examples/treemap/kernels.visualization.js:885-988 | pass 1 makes each totalmag the sum of the magnitudes of the polling places below it |
| `Tiling.AreasAreShares` | superconductor/examples/treemap/kernels.visualization.js:989-1107 | a node has a rectangle (no NaN) if and only if it is the root's child or its parent's total is positive; its area is then its share of the total times the area of the root's child |
| `Tiling.RootChildStands` | superconductor/examples/treemap/kernels.visualization.js:655-666 | the root's child gets the root's height, and its width unless fixed, times its total over 63895164, and its corner from its right and bottom edges |
| `Tiling.ChildrenStand` | superconductor/examples/treemap/kernels.visualization.js:989-1107 | below a node with a rectangle and a positive total: in districts, hsquares and country containers each child has the full height, its share of the width and the earlier children to its left; in regions and vsquares the same with the axes exchanged; and these are all the classes with children |
| `Tiling.ChildrenTileTheirParent` | superconductor/examples/treemap/kernels.visualization.js:989-1107 | the children of a node with a rectangle and a positive total tile that rectangle, side by side or on top of each other by class |
| `Tiling.PollingPlacesTile` | superconductor/examples/treemap/kernels.visualization.js:989-1107 | the polling places' rectangles tile the rectangle of the root's child, zero magnitudes included |
| `Tiling.LayOut` | superconductor/examples/treemap/kernels.visualization.js:19-27 | passes 1 and 2 on the buffers leave the specified buffers |
| `Tiling.LaunchedLayout` | superconductor/superconductorjs/superconductor.js:2321-2367 | and so do level launches, whatever the interleaving |
| `Documents.FlattenedIsDoc` | superconductor/superconductorjs/superconductor.js:1664-1806 | flattened buffers satisfy what the matcher needs: parents to the left, `left_siblings` 1 exactly between siblings |
| `Documents.FlattenedIffOrdered` | superconductor/superconductorjs/superconductor.js:1664-1806 | the documents that flattening leaves of some tree are exactly those with parents to the left and in order and with `left_siblings` 1 exactly between siblings, whatever the classes and ids |
| `Selectors.MatchNodeSelector` | superconductor/superconductorjs/selectors.js:262-314 | the loops over sibling runs and ancestors compute the greedy match of a selector |
| `Selectors.OnePredicate` | superconductor/superconductorjs/selectors.js:248-260 | a selector of one predicate matches exactly the nodes with its id, if it names one, and its class, unless that is `*` |
| `Selectors.TwoPredicates` | superconductor/superconductorjs/selectors.js:262-314 | one of two predicates matches exactly the nodes that match the right one and whose parent, left sibling or some ancestor matches the left one, by combinator |
| `Selectors.MatchesSound` | superconductor/superconductorjs/selectors.js:262-314 | a match means the selector holds declaratively (descendant, child, adjacent) |
| `Selectors.ExactIffSafe` | superconductor/superconductorjs/selectors.js:262-314 | the matcher finds exactly the selected nodes of every flattened tree if and only if no `+`, and no `>` with a non-universal left predicate, stands to the left of a descendant combinator; the tree that shows the failure has the classes and ids the selector names, and one node with another class and id |
| `Selectors.GreedyMisses` | superconductor/superconductorjs/selectors.js:277-288 | `A > B C` fails on a concrete flattened tree where it holds: no backtracking |
| `SelectorCompiler.MakeMatchSelector` | superconductor/superconductorjs/superconductor.js:2656-2706 | the generator's loops emit exactly the specified instruction list |
| `SelectorCompiler.CodeMeansMatches` | superconductor/superconductorjs/superconductor.js:2656-2706 | running the emitted code for any selector, document and node returns what the interpreter returns, within as many loop turns as the node has index |
| `Cascade.Specificity` | superconductor/superconductorjs/superconductor.js:2533-2545 | the accumulating loop counts ids and tags; the number is their weighted sum with the line |
| `Cascade.SpecificityCounts` | superconductor/superconductorjs/superconductor.js:2533-2545 | the counts are the numbers of predicates with an id and with a class other than `*` |
| `Cascade.HitAt` | superconductor/superconductorjs/selectors.js:167-199 | every selector of every rule gives a hit, at its place in rule order, with its own selector, properties and specificity, the weighted numbers of id and class places and the line |
| `Cascade.WeightIsLexicographic` | superconductor/superconductorjs/superconductor.js:2533-2545 | with tag count below 2^18 and line below 2^12 the numbers order by (ids, tags, line), and equal numbers have equal triples |
| `Cascade.WeightFits` | superconductor/superconductorjs/superconductor.js:2621-2633 | the emitted 32-bit constant is the number if and only if there are at most 3 ids, the greatest then being 2^32 - 1 |
| `Cascade.Hash` | superconductor/superconductorjs/selectors.js:167-199 | the hits of all rules are put into buckets, nothing lost or added, and the id and tag buckets are sorted; `IndexFiles` says which bucket |
| `Cascade.IndexFiles` | superconductor/superconductorjs/selectors.js:182-199 | a hit whose last predicate names an id lies in that id's bucket, one that names only a class in that class's, and only one that names neither in star, each as often as it was given |
| `Painting.CandidatesComplete` | superconductor/superconductorjs/selectors.js:316-344 | the two-way merge tries candidates by non-decreasing specificity; a matching hit whose last predicate names an id or a class is tried exactly as often as it was given, any other never |
| `Painting.Painter.MatchNode` | superconductor/superconductorjs/selectors.js:316-344 | the merge loop paints the node as the candidate list says and no other node |
| `Painting.CascadeWinner` | superconductor/superconductorjs/selectors.js:316-344 | each property ends with the value of an applicable hit of greatest specificity, or unchanged if none applies, whatever the order of ties |
| `Painting.CascadeIsNaive` | superconductor/superconductorjs/selectors.js:167-197 | for rules in range the value is that of the greatest applicable hit, the same for every bucket order |
| `KernelMerge.Merge3Hits` | superconductor/superconductorjs/superconductor.js:2768-2797 | the three-way merge tries each id, tag and star candidate exactly once, for arbitrary specificities |
| `KernelMerge.Merge3IsMerge` | superconductor/superconductorjs/superconductor.js:2768-2797 | with an empty star bucket it tries them in the order of the two-way merge |
| `KernelMerge.AppliedCounts` | superconductor/superconductorjs/superconductor.js:2768-2797 | the number the kernel returns is the number of pairs of a tried matching hit and a property it sets |
| `KernelMerge.Merge3InOrder` | superconductor/superconductorjs/superconductor.js:2787 | the order is by specificity if and only if the star bucket is sorted and, where tags and stars meet, the tags are level with the first star |
| `EmittedKernel.MatchNodeKernel` | superconductor/superconductorjs/superconductor.js:2731-2806 | the generated loop, with three cursors over emitted numbers and emitted match functions, paints along the three-way merge of the index's buckets and counts the properties set |
| `EmittedKernel.StyleByKernel` | superconductor/superconductorjs/superconductor.js:2590-2870 | the whole emitted kernel, generated from its own index over the rules: with rules in range, at most three ids in a selector and no star rule, it leaves at every node what the object engine leaves |
| `Cascades.SameStyles` | superconductor/superconductorjs/selectors.js:182-199 | for rules in range any two sorted indexes over them leave the same styles |
| `Cascades.StyleFromRules` | superconductor/superconductorjs/selectors.js:167-344 | from the rules alone, for safe selectors in range and any sorted index: a property ends with the value of a selector that holds at the node and is outranked by none, comparing ids, then classes, then lines |
| `Cascades.UnstyledByRules` | superconductor/superconductorjs/selectors.js:167-344 | and it stays as it was when no selector holding at the node sets it |
| `Cascades.StarsMissedIff` | superconductor/superconductorjs/selectors.js:316-344 | a property ends with the value of the greatest of all matching hits, star hits included, if and only if that hit is not a star hit to which the others give a different value |
| `SelectorArrays.FlattenHash` | superconductor/superconductorjs/selectorsGPU.js:201-229 | hits are appended to the shared arrays with tag and id aligned and combinators at (i-1)/2; earlier entries stay what they were |
| `SelectorArrays.MatchNodeSelectorGPU` | superconductor/superconductorjs/selectorsGPU.js:285-339 | on a stored hit the array matcher answers as the object matcher |
| `SelectorArrays.RunGPU` | superconductor/superconductorjs/selectorsGPU.js:341-395 | a whole run leaves every node as the candidate list says |
| `SelectorArrays.StyleBoth` | superconductor/superconductorjs/selectorsGPU.js:201-395 | the object engine and the array engine, each with its own index over the rules, leave at every node what its candidates say, and for rules in range the same properties |
| `Sparse.Deflate` | superconductor/superconductorjs/superconductor.js:1832-1868 | the blocks describe the array: dense blocks verbatim, disjoint, at most the block size; zero runs at least the block size; and few enough blocks |
| `Sparse.FewBlocksIsCeiling` | superconductor/superconductorjs/superconductor.js:1832-1868 | that is, at most ceil(n / block size) blocks |
| `Sparse.InflateChunk` | superconductor/superconductorjs/superconductor.js:1937-1955 | writes exactly the described cells, zeros only into a plain Array, and leaves the others |
| `Sparse.DeflateInflate` | superconductor/superconductorjs/superconductor.js:1832-1969 | inflating a deflated array gives back the array, typed or plain |
| `Chunks.DeflateMT` | superconductor/superconductorjs/superconductor.js:1870-1922 | terminates; D dense elements give floor(D/m)+1 chunks, all but the last of exactly m elements; the chunks account for consecutive ranges that make up the array |
| `Chunks.AscUnique` | superconductor/superconductorjs/superconductor.js:1890-1894 | an object's entries have one enumeration in key order |
| `Chunks.WeightCounts` | superconductor/superconductorjs/superconductor.js:1870-1922 | a chunk's weight is the number of its dense elements, over all blocks |
| `Chunks.RecordedSpan` | superconductor/superconductorjs/superconductor.js:1923-1933 | the recorded [min, max) is the chunk's true span if and only if it does not have exactly one, non-empty block |
| `Chunks.Expand` | superconductor/superconductorjs/superconductor.js:2003-2028 | a worker's result carries the source over its span, gap zeros included, and nothing of the chunk's range outside the span is non-zero |
| `InflateProtocol.Summarize` | superconductor/superconductorjs/src/jzlib.js:165-205 | the files of all buffers account for every index of every buffer |
| `InflateProtocol.Page.OnMessage` | superconductor/superconductorjs/superconductor.js:2092-2109 | receiving a result: copy, count, completion callback, next file or stop |
| `InflateProtocol.Page.Launch` | superconductor/superconductorjs/superconductor.js:2080-2112 | min(workers, files) workers are launched, each taking the next file |
| `InflateProtocol.Work` | superconductor/superconductorjs/superconductor.js:2003-2038 | what a worker posts is a legal message for its file |
| `InflateProtocol.ExactlyOnePlace` | superconductor/superconductorjs/superconductor.js:1978-2112 | in every reachable state each file is in exactly one of queued, in flight (with one worker), written; at most maxNumWorkers workers are busy, 4 if that is 0, and no more than there are files |
| `InflateProtocol.WorkersBusy` | superconductor/superconductorjs/superconductor.js:1972-2112 | in every reachable state exactly min(workers, files not yet received) workers are busy, workers being maxNumWorkers or 4 if that is 0, and the queue holds the files after those, in order |
| `InflateProtocol.FiresOnce` | superconductor/superconductorjs/superconductor.js:2092-2109 | the completion callback fires exactly at the last result, never for an empty summary; every buffer then equals its source; before that some worker is busy, after it none |
| `DecoderStates.NewPicturesAre` | src/media/filters/gpu_video_decoder.cc:369-375 | new pictures are numbered without gaps, one for each texture |
| `GpuVideo.GpuVideoDecoder.Decode` | src/media/filters/gpu_video_decoder.cc:215-287 | the method refines the state function, by mode |
| `GpuVideo.GpuVideoDecoder.Reset` | src/media/filters/gpu_video_decoder.cc:71-100 | likewise, with deferral while draining |
| `GpuVideo.GpuVideoDecoder.Stop` | src/media/filters/gpu_video_decoder.cc:102-111 | likewise |
| `GpuVideo.GpuVideoDecoder.DestroyVDA` | src/media/filters/gpu_video_decoder.cc:194-213 | deletes the texture of every assigned picture once |
| `GpuVideo.GpuVideoDecoder.ProvidePictureBuffers` | src/media/filters/gpu_video_decoder.cc:344-382 | likewise, with failure to create textures |
| `GpuVideo.GpuVideoDecoder.DismissPictureBuffer` | src/media/filters/gpu_video_decoder.cc:384-411 | likewise, at once or postponed |
| `GpuVideo.GpuVideoDecoder.PictureReady` | src/media/filters/gpu_video_decoder.cc:413-460 | likewise |
| `GpuVideo.GpuVideoDecoder.EnqueueFrameAndTriggerFrameDelivery` | src/media/filters/gpu_video_decoder.cc:462-482 | likewise, dropping frames during a reset |
| `GpuVideo.GpuVideoDecoder.ReusePictureBuffer` | src/media/filters/gpu_video_decoder.cc:484-513 | likewise, deleting a dismissed picture's texture |
| `GpuVideo.GpuVideoDecoder.NotifyEndOfBitstreamBuffer` | src/media/filters/gpu_video_decoder.cc:536-555 | likewise |
| `GpuVideo.GpuVideoDecoder.NotifyFlushDone` | src/media/filters/gpu_video_decoder.cc:577-583 | likewise |
| `GpuVideo.GpuVideoDecoder.NotifyResetDone` | src/media/filters/gpu_video_decoder.cc:585-599 | likewise |
| `GpuVideo.GpuVideoDecoder.NotifyError` | src/media/filters/gpu_video_decoder.cc:601-615 | likewise |
| `GpuVideo.GpuVideoDecoder.Destruct` | src/media/filters/gpu_video_decoder.cc:557-575 | deletes all remaining textures |
| `DecoderRuns.LedgerKept` | src/media/filters/gpu_video_decoder.cc:194-213 | whatever client and accelerator do, one step keeps each recorded texture in exactly one of assigned, dismissed, deleted |
| `DecoderRuns.TexturesAccounted` | src/media/filters/gpu_video_decoder.cc:557-575 | in every run, well-behaved or not, no texture of a recorded picture is deleted twice, and the destructor leaves each deleted exactly once |
| `DecoderRuns.CountsAreRight` | src/media/filters/gpu_video_decoder.cc:384-411 | in every contract-abiding run no CHECK fails, and while the accelerator lives the available count is the number of assigned pictures not at display and dismissed pictures are at display |
| `DecoderRuns.BalanceKept` | src/media/filters/gpu_video_decoder.cc:453-457 | one step of such a run keeps the accounts of who has which picture |
| `DecoderRuns.EachDecodeAnsweredOnce` | src/media/filters/gpu_video_decoder.cc:71-111 | never a Decode and a Reset pending together; no ready frame during a reset; the k-th answer is to the k-th Decode; after Stop neither a Decode nor a Reset in the accelerator is pending |
| `DecoderRuns.FramesInOrder` | src/media/filters/gpu_video_decoder.cc:462-482 | frames are handed out in the order of their creation |
| `DecoderAnswers.DecodeIsAnswered` | src/media/filters/gpu_video_decoder.cc:215-287 | what a Decode is answered in each mode, status and frame, or that it stays pending, and which frames stay ready |
| `DecoderAnswers.PendingIsAnswered` | src/media/filters/gpu_video_decoder.cc:462-555 | which events answer a pending Decode, with what status and frame, and which frames stay ready |
| `DecoderAnswers.AnswersFit` | src/media/filters/gpu_video_decoder.cc:215-287 | in every run an event gives at most one answer, and that fits the moment: Ok exactly with a frame; NotEnoughData only with no frame ready, fewer than four buffers in the decoder and no draining; DecodeError only in error mode, without an accelerator or without shared memory |
| `DecoderAnswers.OkIffFrame` | src/media/filters/gpu_video_decoder.cc:215-287 | in every state of every run exactly the answers with a frame are Ok |
| `DecoderAnswers.FlushEndsDraining` | src/media/filters/gpu_video_decoder.cc:577-583 | in every run the end of a flush turns draining into drained, leaves no Decode pending, and answers the one there was with the first frame in line, the empty frame being the last |
| `DecoderAnswers.ModeStep` | src/media/filters/gpu_video_decoder.cc:215-287 | which events change the mode, to what, and which end the accelerator, in any state |
| `DecoderAnswers.BufferStep` | src/media/filters/gpu_video_decoder.cc:215-287 | which Decodes hand a buffer to the accelerator, under which number, and which event takes one back |
| `DecoderAnswers.BuffersNumbered` | src/media/filters/gpu_video_decoder.cc:215-287 | in every run the next buffer number is the number of buffers handed over, modulo 2^30 |
| `DecoderAnswers.ErrorStep` | src/media/filters/gpu_video_decoder.cc:601-615 | an error ends the accelerator, deletes the assigned textures and answers the pending Decode with an error |
| `DecoderAnswers.ResetDropsReady` | src/media/filters/gpu_video_decoder.cc:71-100 | a Reset drops the ready frames unless it is put off while a Decode is pending |
| `DecoderResets.ResetsAnsweredInOrder` | src/media/filters/gpu_video_decoder.cc:71-111 | in every run the Resets called are, in call order, those answered and then the one pending or deferred: each is answered at most once, in order, and at most the last is not |
| `DecoderResets.ResetCalled` | src/media/filters/gpu_video_decoder.cc:71-100 | what a Reset call leaves in any run: deferred while draining unless aborted, answered at once without an accelerator, else pending |
| `DecoderResets.ResetDoneAnswers` | src/media/filters/gpu_video_decoder.cc:585-599 | in every run the end of a reset answers the pending Reset, after which every Reset called is answered |
| `DecoderResets.StopAnswersAllIff` | src/media/filters/gpu_video_decoder.cc:102-111 | Stop leaves every Reset answered if and only if none is deferred when it is called |
| `DecoderResets.DeferredAnsweredIff` | src/media/filters/gpu_video_decoder.cc:75-83 | a Reset deferred at Stop has been answered by a given moment if and only if it has been retried by then outside draining mode or with aborted factories |
| `DecoderResets.PendingAnsweredIff` | src/media/filters/gpu_video_decoder.cc:601-615 | a Reset pending when the accelerator is lost has been answered by a given moment if and only if Stop has been called by then, and stays pending until then |
| `DecoderResets.StoppedWhileDraining` | src/media/filters/gpu_video_decoder.cc:71-111 | a run that reaches Stop with a Reset deferred while draining |
| `DecoderResets.FailedWhileResetting` | src/media/filters/gpu_video_decoder.cc:601-615 | a run in which the accelerator fails with a Reset pending |
| `DecoderResets.TexturesDeletedInTheEnd` | src/media/filters/gpu_video_decoder.cc:344-382 | the textures deleted once the destructor has run and those created when the accelerator was gone make up all created; so all are deleted if and only if none was created then, as in every contract-abiding run |

## Left out

- WebCL and WebGL calls, XHR, Blob and Worker creation, `eval`: foreign or I/O; a kernel launch is modelled by the interleavings of its visits, a worker by its messages.
- Worker errors, and retries, in `inflateMt`: the error-message path is not modelled; every file is delivered.
- Web-worker layout (`runKernelRange`, `traverseAsync`, `makeLayoutWorker`) and `computeReadWriteSets`: the footprints are stated from the kernels instead.
- The CSS text front end: selectors are given as predicates and combinators in turn; properties as a map.
- Flattener.CLRunner.FlattenNode: not the fields other than class, id and children of a JSON node, nor the warnings about ignored fields; they are copied to their own columns and add only easy members.
- Case folding and underscore removal in labels and class names: names are numbers here, so collisions of folded names are not modelled.
- Two child fields that share one buffer row: the schema gives every (class, label) pair its own row, as the generated tables do.
- Pass 0, colours, turnout, `votesur`, self render sizes and draw calls of the treemap kernels: plain copies or arithmetic without structure. What they set for later passes is assumed: `Treemap.Ready` assumes what pass 0 sets; `RenderSlots.Ready` assumes the self render sizes that pass 0 sets, and those that pass 2 sets for districts, country containers and polling places, with the render size of polling places.
- Passes.Fields.SumChildren: only the sum of the modelled field; pass 1 also adds up `votesur` in the same loop, in the same way.
- Passes.Fields.VisitHorizontal2: not the stores of `selfrendersize`, the number of vertices the node draws, which pass 3 takes as given.
- Kernels.KernelsLocal: about the modelled instructions; the other stores of passes 1 to 4 (`votesur`, `selfrendersize`, drawing, and outside the root's visit `dorenderinglast`) are not in the instruction lists.
- Floating-point rounding and the 32-bit range of the integer buffers: numbers are exact.
- The per-class copies of a field (such as one child-size field for each class): one row stands for all of them, since a node has one class; likewise the root's own fields.
- Loops with empty bodies in the generated visits: they compute nothing that is used.
- The order in which a JavaScript sort leaves ties: any sorted order is allowed, and the results are proved independent of it.
- Array contents other than numbers in `deflate`, and property order other than ascending for objects with integer keys.
- Codec configuration, shared-memory segments, timestamps, mailboxes, sync points and UMA of the video decoder; Initialize appears only as the two initial states.
- Re-entrant callbacks of the accelerator: callbacks are events of their own, after the call that causes them.
- A bound on in-flight decodes: a ready frame answers a Decode regardless of it.
- Selectors.MatchNodeSelector: the document is taken as a value, since the matcher does not change it.
- InflateProtocol.Page.OnMessage: only copying into CPU buffers is modelled, not into GPU buffers.
- Chunks.DeflateMT: a queue item is its list of blocks; the other fields of the chunk objects are carried along only in the first chunk.
