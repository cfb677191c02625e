# Text regions, highlighting, text edits and diagnostics

A Dafny model of four parts of an IDE library, with proofs. `dafny verify
dfyconfig.toml` checks everything.

**The text region** (`TextRegion.dfy`). `CjhTextRegion` labels every character of
a text with a B+tree of runs. The model keeps its records, one map for each field
of the C structures (parent, prev, next, runs, children), the cached lengths, the
one-entry search cache, and every procedure: search, splits towards the root,
insertion, removal with compaction and collapse, iteration. What it stands for is
a sequence with one label per character. `Valid()` says that the tree is well
formed (`Trees.Good`); `Balance.dfy` reads that invariant off the real child
pointers: equal depth, exact cached lengths, sibling lists, fill. The ghost field
`levels` lists the nodes of each level in order.

* `Runs` has the runs of one leaf, `Levels` and `Forest` the theory of levels,
  `Trees` and `Dissolution` the steps that restructure the tree, `Splitting`,
  `Settling`, `Compacting`, `Locating`, `Editing`, `Traversal` and `Searching` the
  lemmas behind the procedures of the same kind, `Iteration` the meaning of the
  callbacks. `Overflow` and `BranchOverflow` have states that meet the missing
  capacity checks.
* `SortedArray.dfy` is the array inside a node: slots in a fixed array, ordered by
  a linked queue of indices, proved to be a sequence.

**The highlight engine** (`HighlightEngine.dfy`, `Marking.dfy`, `Ticking.dfy`) is a
client of the region. A ghost field, `stale`, records for every character whether
its line was edited since a highlighter passed it; the invariant says that no
checked character is stale.

**Text edits** (`TextEdits.dfy`, `Substitution.dfy`, `Blocks.dfy`, `Staging.dfy`,
`Swallowing.dfy`, `EditBatch.dfy`): what edits staged with marks and applied one
by one make of a text, and exactly when that is the simultaneous substitution; a
batch waits for its loads. `Blocks` and `Swallowing` have the theory of ranges
that touch or overlap.

**Diagnostics** (`Diagnosing.dfy`, `Outcomes.dfy`, `Diagnostics.dfy`): a state
machine of the groups, the shared timer and the calls under way, what each of its
steps does to everything that can be seen, and the class whose handlers take them.

## What is not as one might expect

* `_cjh_text_region_remove` adds a run without asking whether there is room
  (src/libide/code/cjhtextregion.c:1178-1179), and `branch_compact` splits a
  neighbour without looking at its parent
  (src/libide/code/cjhtextregion.c:942, 967). The model returns `ok == false` where
  an assertion of the program would then fail. `OverflowIsReached` is a program
  that starts with a new region and gets there. For `branch_compact`,
  `FullParentIsMet` is a tree with all invariants in which the split finds its
  parent full; whether insertions and removals can build such a tree is open.
* A provider that is removed while its call is under way never gives back the
  counter (src/libide/code/ide-diagnostics-manager.c:336-344). The counter still
  protects against a lost wake-up in the sense of `NoLostWakeUp`, but the group is
  never diagnosed again: `LossIsForGood`, `LossMeansStuck`,
  `ReplacedProviderSticks`, `NeverStuckWithoutLoss`. Also, the branch that
  disposes of a group in the completion handler cannot be reached (`GroupsStay`),
  although its comment expects it to be.
* Text edits whose ranges touch lose the text of the one applied first, although
  each has marks of its own. Even edits that do not touch can: an edit between
  them that is applied earlier joins them (`OneByOneExactly`,
  `TouchingIsNotEnough`).
* `rebuild` may leave one label more than there are characters; the comment speaks
  of an empty region only (src/libide/code/ide-highlight-engine.c:1070-1082). When
  that label is unchecked, a tick that comes to the end of the text looks as if it
  had not moved, and asks for no further one (`AtLeftOver`).

## Model

| member | source | states |
|---|---|---|
| `TextRegions.TextRegion.Insert` | src/libide/code/cjhtextregion.c:664-809 | For every reachable region the labels become `old[..offset]`, `count` times `data`, `old[offset..]`; the region stays valid (the invariant below), never overflowing an array. The runs are the old ones with the new one between the two sides of the place, in one with a neighbour only where the join callback accepts. |
| `TextRegions.TextRegion.Remove` | src/libide/code/cjhtextregion.c:1099-1233 | When it returns, the labels are `old[..offset] + old[offset + n..]`, across any number of leaves, compactions and a root collapse, and where a run is cut in two the runs are exactly the old ones with that run replaced by its two ends. `ok` is false where a capacity assertion of the program would fail: always when the cut falls inside a run of a leaf with 26 runs and is not joined, never otherwise below 1663 runs. |
| `TextRegions.TextRegion.RemovePass` | src/libide/code/cjhtextregion.c:1124-1229 | One pass deletes exactly what the leaf of `offset` holds of the range: up to the end of the range or of the leaf, whichever is nearer. It restores the invariant, keeps the length equal to the sum of all runs, and only the last pass can overflow a leaf. |
| `TextRegions.TextRegion.SettleLeaf` | src/libide/code/cjhtextregion.c:1223-1227 | After a leaf has lost characters its ancestors are told and it is compacted if it holds too few runs; the runs of the whole tree and their order do not change, and the tree is good again. |
| `TextRegions.TextRegion.Replace` | src/libide/code/cjhtextregion.c:812-829 | The labels of the range become `data`, all others stay; a range of length 0 changes nothing. It fails whenever the removal overflows the leaf, and otherwise only with 1663 runs or more. |
| `TextRegions.TextRegion.constructor` | src/libide/code/cjhtextregion.c:576-600 | A new region is valid and labels nothing. |
| `TextRegions.TextRegion.SearchWithRoom` | src/libide/code/cjhtextregion.c:682-717 | The leaf found for an insertion holds the offset and has three free slots, also after the split and the second search; labels and runs are unchanged. |
| `TextRegions.TextRegion.Search` | src/libide/code/cjhtextregion.c:274-313 | Cached or not, the answer is the one leaf that holds the offset and the offset in it (the only leaf with the end of the text for the end), and the new cache entry is right again. |
| `TextRegions.TextRegion.SearchUncached` | src/libide/code/cjhtextregion.c:300-303 | The descent alone gives the same answer. |
| `TextRegions.TextRegion.SearchRecurse` | src/libide/code/cjhtextregion.c:232-271 | Below any node the descent by cached lengths reaches the leaf that holds the offset. |
| `TextRegions.TextRegion.FirstLeaf` | src/libide/code/cjhtextregionbtree.h:548-560 | The leftmost path ends in the first leaf of the in-order list. |
| `Searching.FindsUnique` | src/libide/code/cjhtextregion.c:274-313 | There is one place in the list of leaves for each offset. |
| `Searching.OneAnswer` | src/libide/code/cjhtextregion.c:274-313 | For each offset there is one leaf and one offset in it, so that the cached search and the plain descent always agree. |
| `Locating.CacheHit` | src/libide/code/cjhtextregion.c:285-298 | A cached leaf answers an offset at or before its end only where the descent would find the same leaf. |
| `Editing.AfterInsert` | src/libide/code/cjhtextregion.c:664-809 | An insertion that does not clear the cache leaves it right: the cached leaf still starts after the labels of all leaves before it. |
| `Editing.InsertedContents` | src/libide/code/cjhtextregion.c:719-777 | An insertion into its leaf changes the runs of the whole region exactly there. |
| `TextRegions.TextRegion.NodeLength` | src/libide/code/cjhtextregionbtree.h:525-546 | The loop adds up the lengths of all runs, or of all children, of a node. |
| `TextRegions.TextRegion.SplitLeaf` | src/libide/code/cjhtextregion.c:443-526 | Splitting a leaf keeps the tree good, keeps the runs in order and halves the leaf; the parent must have a slot. |
| `TextRegions.TextRegion.SplitBranch` | src/libide/code/cjhtextregion.c:360-440 | Splitting a branch succeeds if and only if its parent has a slot; then the tree is good and the children are halved in order. |
| `TextRegions.TextRegion.SplitRoot` | src/libide/code/cjhtextregion.c:316-357 | A full root gets two children that share what it held; the tree grows by one level and stays good. |
| `TextRegions.TextRegion.NodeSplit` | src/libide/code/cjhtextregion.c:544-573 | Splitting full ancestors first gives every split a free slot above it, so that no overflow can happen and the tree is good. A leaf is halved in order; of a branch it is stated that afterwards there is room above each of its children. |
| `TextRegions.TextRegion.AdjustParents` | src/libide/code/cjhtextregion.c:177-224 | A change of length is carried through all ancestors, and afterwards every cached length is exact; the search cache is dropped. |
| `TextRegions.TextRegion.GrowAncestors` | src/libide/code/cjhtextregion.c:787-804 | The upward loop of an insertion makes every cached length exact again. |
| `TextRegions.TextRegion.DetachNode` | src/libide/code/cjhtextregion.c:905-927 | A node leaves its parent and its level: lengths, links and order stay right for the rest, and only the parent lost an entry. |
| `TextRegions.TextRegion.MergeInto` | src/libide/code/cjhtextregion.c:929-979 | The loops that hand the children of a dissolved branch to a neighbour keep the tree good, and fail if and only if the children do not fit and the parent of the neighbour is full. |
| `TextRegions.TextRegion.HalveNeighbour` | src/libide/code/cjhtextregion.c:937-968 | The neighbour is split in the middle of the loop; it fails if and only if its parent has no slot. |
| `TextRegions.TextRegion.DissolveBranch` | src/libide/code/cjhtextregion.c:905-979 | Dissolving an underfilled branch fails if and only if the neighbour the program picks is too full, and hangs under another parent that is full; otherwise the tree is good but for the fill of the parent. |
| `TextRegions.TextRegion.BranchCompact` | src/libide/code/cjhtextregion.c:841-990 | Compaction up to the root restores minimum fill; leaves, their order and their runs are untouched; it can fail only with 1664 runs or more. |
| `TextRegions.TextRegion.MergeLeafInto` | src/libide/code/cjhtextregion.c:1042-1087 | The loops that hand the runs of a leaf to a neighbour, splitting it where needed, keep all runs in order. |
| `TextRegions.TextRegion.LeafCompact` | src/libide/code/cjhtextregion.c:993-1096 | Compacting an underfilled leaf keeps the runs of the whole tree in order and restores all invariants. |
| `TextRegions.TextRegion.Foreach` | src/libide/code/cjhtextregion.c:1236-1258 | The callback sees every run of the tree in order with its true offset until it asks to stop. |
| `TextRegions.TextRegion.ForeachInRange` | src/libide/code/cjhtextregion.c:1261-1311 | The callback sees exactly the runs that meet `[begin, end)`, in order, each with its true start; a malformed range calls nothing. |
| `Iteration.PlacedAt` | src/libide/code/cjhtextregion.c:1246-1257 | The offset passed with a run is the total length of all runs before it. |
| `Iteration.OverlappingMembers` | src/libide/code/cjhtextregion.c:1286-1309 | Among the runs called back for a range are those that share a character with it, and no others. |
| `Iteration.VisitLeaf` | src/libide/code/cjhtextregion.c:1250-1256 | The inner loop calls the runs of one leaf in order and passes the stop on. |
| `Iteration.VisitLeafInRange` | src/libide/code/cjhtextregion.c:1288-1306 | The inner loop skips to the range and stops at its end, calling exactly the runs that meet it. |
| `Runs.InsertIntoRuns` | src/libide/code/cjhtextregion.c:719-777 | Inserting into the runs of a leaf, before, inside or after a run, inserts the labels at that place and leaves exactly these runs: the two sides of the place with the new run between them, joined by the rules of the loop (the next run first inside a run, the previous one first behind a run). |
| `Runs.InsertAfterRun` | src/libide/code/cjhtextregion.c:737-770 | Inserting inside or after a run expands to the insertion of the labels there. |
| `Runs.SidesExpand` | src/libide/code/cjhtextregion.c:751-757 | The runs before and from a place hold the labels before and from it. |
| `Runs.PlainInsert` | src/libide/code/cjhtextregion.c:634-662 | Without a join callback, as for the highlight engine, every other run stays and the new one stands between the two sides. |
| `Runs.RemoveFromRuns` | src/libide/code/cjhtextregion.c:1126-1221 | Removing from the runs of a leaf deletes the labels; it fails if and only if the removal splits a run, without a join, in a leaf that is full. |
| `Runs.OnlyRunSplit` | src/libide/code/cjhtextregion.c:1132-1185 | At most one run of a leaf can be split by a removal: the one that holds its start. |
| `Runs.OnlyCut` | src/libide/code/cjhtextregion.c:1157-1179 | Whether the run that holds the start is cut in two depends on that run and the join callback alone; if so, its two ends take its place. |
| `Runs.JoinedExpands` | src/libide/code/cjhtextregion.c:634-662 | Joining runs of equal data leaves every label as it was. |
| `Overflow.OverflowIsReached` | src/libide/code/cjhtextregion.c:1178-1179 | From a new region, one insertion of 60 characters and 26 removals of one character end in the missing capacity check: `ok` is false at the end of every run of this program. |
| `BranchOverflow.FullParentIsMet` | src/libide/code/cjhtextregion.c:942-967 | A tree that satisfies every invariant, but for one branch that has just lost a child, in which the exact failure condition of `DissolveBranch` holds. |
| `Editing.OnlyLeafSplits` | src/libide/code/cjhtextregion.c:1157-1185 | Whether a removal overflows is decided in the leaf that holds its start. |
| `Editing.SplitsBetweenEqual` | src/libide/code/cjhtextregion.c:1157-1185 | A removal can overflow a leaf only if it starts between two characters of one label, so never at the start of the region and never where the label changes. |
| `Editing.CutContents` | src/libide/code/cjhtextregion.c:1178-1179 | Cutting a run inside its leaf changes the runs of the whole region exactly there. |
| `Editing.NoSecondSplit` | src/libide/code/cjhtextregion.c:1231-1232 | After a pass that ended at the end of its leaf, the rest of the removal starts at the beginning of a run and cannot split one. |
| `Balance.EqualDepth` | src/libide/code/cjhtextregion.c:56-136 | Read from the root, every path ends in a leaf after the same number of steps, and the in-order leaves hold the labels. |
| `Balance.NeighboursInOrder` | src/libide/code/cjhtextregion.c:109-131 | On every level `prev` and `next` are exactly the in-order list, also across different parents, and parent pointers agree with child entries. |
| `Balance.EntryIsSubtreeLength` | src/libide/code/cjhtextregion.c:82-84 | Every child entry caches the total length of all runs below it. |
| `Balance.FillBounds` | src/libide/code/cjhtextregion.c:899-903 | A node that shares its level holds at least 8 entries and never more than 26; only the root has a single child; a leaf is empty only in an empty region. |
| `Balance.NoEmptyRun` | src/libide/code/cjhtextregion.c:94-97 | No run of length zero exists. |
| `Compacting.OnlyChild` | src/libide/code/cjhtextregion.c:871-897 | Where a branch with one child hangs under a parent with one child, the parent is the root and both are alone on their levels. |
| `Compacting.TallyFull` | src/libide/code/cjhtextregion.c:937-968 | While children move, a neighbour found full is the one the loop began with, so that it is split at most once, and its parent decides. |
| `Dissolution.Crowded` | src/libide/code/cjhtextregion.c:942-967 | A branch split in compaction that finds the parent full needs 1664 runs in the tree. |
| `Trees.LeafSplitSound` | src/libide/code/cjhtextregion.c:443-526 | A leaf split keeps levels, links, parents and order. |
| `Trees.AddSiblingSound` | src/libide/code/cjhtextregion.c:390-400 | A new right sibling takes its place in the order of its level. |
| `Trees.ShuffleSound` | src/libide/code/cjhtextregion.c:937-952 | Moving entries between two neighbouring nodes keeps the tree sound. |
| `Trees.DetachSound` | src/libide/code/cjhtextregion.c:908-927 | Taking a node off its level keeps all other nodes linked and covered. |
| `SortedArrays.SortedArray.PushHead` | src/libide/code/cjhtextregionbtree.h:434-440 | The element comes before the old contents; occupied slots stay 0..length-1. |
| `SortedArrays.SortedArray.PushTail` | src/libide/code/cjhtextregionbtree.h:441-447 | The element comes after the old contents. |
| `SortedArrays.SortedArray.InsertVal` | src/libide/code/cjhtextregionbtree.h:282-292 | The element comes in at the position, all others keep their order. |
| `SortedArrays.SortedArray.RemoveIndex` | src/libide/code/cjhtextregionbtree.h:293-320 | Returns and removes the element at the position, the last one for a position past the end. |
| `SortedArrays.SortedArray.RemoveSlot` | src/libide/code/cjhtextregionbtree.h:294-319 | Moving the last slot into the hole leaves the order of the other elements and packs the slots again. |
| `SortedArrays.SortedArray.ForeachRemove` | src/libide/code/cjhtextregionbtree.h:326-354 | Removing the current element keeps the iterator on the same next element, even when that is the slot that moves. |
| `SortedArrays.SortedArray.Foreach` | src/libide/code/cjhtextregionbtree.h:366-377 | Every original element is visited once, in order, whatever the block removes; the survivors stay in order. |
| `SortedArrays.SortedArray.ForeachReverse` | src/libide/code/cjhtextregionbtree.h:378-389 | The same from the tail to the head. |
| `SortedArrays.SortedArray.Split` | src/libide/code/cjhtextregionbtree.h:393-407 | The last half, rounded down, moves to the other array, both in order. |
| `SortedArrays.SortedArray.Split2` | src/libide/code/cjhtextregionbtree.h:408-430 | The array is emptied into two others, in order. |
| `SortedArrays.SortedArray.Init` | src/libide/code/cjhtextregionbtree.h:49-60 | An array in use is empty afterwards. |
| `SortedArrays.SortedArray.constructor` | src/libide/code/cjhtextregionbtree.h:235-239 | A new array is empty. |
| `SortedArrays.SortedArray.QueuePushHead` | src/libide/code/cjhtextregionbtree.h:82-93 | The slot becomes the first of the queue. |
| `SortedArrays.SortedArray.QueuePushTail` | src/libide/code/cjhtextregionbtree.h:94-105 | The slot becomes the last of the queue. |
| `SortedArrays.SortedArray.QueueInsert` | src/libide/code/cjhtextregionbtree.h:106-144 | The slot stands at the position asked for. |
| `SortedArrays.SortedArray.QueuePopAt` | src/libide/code/cjhtextregionbtree.h:147-167 | The slot leaves the queue, the others keep their order. |
| `SortedArrays.SortedArray.QueueNth` | src/libide/code/cjhtextregionbtree.h:182-199 | The slot at a position, the tail for a position past the end, none for an empty queue. |
| `SortedArrays.SortedArray.QueueMove` | src/libide/code/cjhtextregionbtree.h:200-212 | One slot is renamed in place. |
| `SortedArrays.Occupied` | src/libide/code/cjhtextregionbtree.h:305-318 | With distinct slots below the length every slot below the length is in use, so that the last slot can be moved. |
| `SortedArrays.ArrangedRepacked` | src/libide/code/cjhtextregionbtree.h:293-320 | Filling the hole with the last slot is removal of one element from the sequence. |
| `SortedArrays.RepackedNear` | src/libide/code/cjhtextregionbtree.h:345-352 | The slots next to the hole are where they were, or in the hole. |
| `SortedArrays.ChainInsert` | src/libide/code/cjhtextregionbtree.h:82-144 | Linking a slot before another gives the chain of the longer order. |
| `SortedArrays.ChainRemove` | src/libide/code/cjhtextregionbtree.h:147-167 | Unlinking a slot gives the chain of the shorter order. |
| `HighlightEngines.HighlightEngine.InsertText` | src/libide/code/ide-highlight-engine.c:605-643 | An insertion with its hooks unchecks exactly the lines it touches, up to the final line end, carries all other labels along and keeps region length minus buffer length. It aborts if the after hook starts inside a run of a full leaf of the region between the two hooks, and otherwise only in a large tree. |
| `HighlightEngines.HighlightEngine.DeleteText` | src/libide/code/ide-highlight-engine.c:647-684 | The same for a deletion, whose before hook can abort in the same two ways. |
| `HighlightEngines.HighlightEngine.MarkLines` | src/libide/code/ide-highlight-engine.c:618-643 | The after hook unchecks from the start of the first line to the end of the last; it aborts if that start cuts a run of a full leaf, and otherwise only in a large tree. |
| `HighlightEngines.HighlightEngine.MarkUnchecked` | src/libide/code/ide-highlight-engine.c:563-602 | Unchecks the range, widened to whole words inside its lines; the same exact condition for a leaf, on the widened range. |
| `HighlightEngines.WordStart` | src/libide/code/ide-highlight-engine.c:575-587 | The place found backwards is the line start, or the nearest character that is not part of a word; only word characters lie between. |
| `HighlightEngines.WordEnd` | src/libide/code/ide-highlight-engine.c:589-600 | The same forwards, looking at the character moved to. |
| `HighlightEngines.HighlightEngine.Invalidate` | src/libide/code/ide-highlight-engine.c:1108-1132 | Unchecks the range and nothing else, and queues the worker; it aborts if the range starts inside a run of a full leaf, and otherwise only with 1663 runs or more. |
| `HighlightEngines.HighlightEngine.Rebuild` | src/libide/code/ide-highlight-engine.c:1054-1093 | All characters are unchecked; one label is left over exactly if there was any label before. No leaf can overflow: an abort needs 1663 runs. |
| `HighlightEngines.HighlightEngine.Reload` | src/libide/code/ide-highlight-engine.c:442-476 | All characters are unchecked and the worker is queued if there is a highlighter; no leaf can overflow. |
| `HighlightEngines.HighlightEngine.SetHighlighter` | src/libide/code/ide-highlight-engine.c:479-496 | A change of the highlighter unchecks everything; without one no work is scheduled; no leaf can overflow. |
| `HighlightEngines.HighlightEngine.SettingsChanged` | src/libide/code/ide-highlight-engine.c:795-812 | Turning semantic highlighting on rebuilds and queues the worker if there is a highlighter, turning it off leaves labels and worker; no leaf can overflow. |
| `HighlightEngines.HighlightEngine.GetNextRange` | src/libide/code/ide-highlight-engine.c:298-314 | Finds the first maximal unchecked range of the text, or that there is none; in that case it gives the end of the text if a label past it is unchecked, and else nothing. |
| `HighlightEngines.HighlightEngine.Tick` | src/libide/code/ide-highlight-engine.c:317-385 | A tick makes the passes of a trace that ends where everything is checked or the highlighter stopped before the end of its range, and asks for another tick exactly if its last pass moved and did not come to an unchecked label past the end of the text. No pass can overflow a leaf: an abort needs 1663 runs, less three for each pass made. |
| `Ticking.OneTick` | src/libide/code/ide-highlight-engine.c:317-385 | The labels and the highlighter determine the passes of a tick and where it ends. |
| `HighlightEngines.HighlightEngine.HighlightRange` | src/libide/code/ide-highlight-engine.c:348-372 | One pass checks from the start of the range to the reported location, after skipped line ends, and nothing else. It starts where the label changes, so that no leaf can overflow. |
| `HighlightEngines.CutsNothing` | src/libide/code/ide-highlight-engine.c:366-372 | A range that starts at the first label, or where the label changes, never cuts a run of a full leaf. |
| `HighlightEngines.HighlightEngine.Worker` | src/libide/code/ide-highlight-engine.c:388-404 | The worker makes one such tick if the engine is enabled and none otherwise; it stays scheduled exactly if the engine is enabled and the tick asked for another one. |
| `HighlightEngines.HighlightEngine.QueueWork` | src/libide/code/ide-highlight-engine.c:407-422 | Work is scheduled if it was, or if the engine is enabled and has a highlighter. |
| `HighlightEngines.HighlightEngine.constructor` | src/libide/code/ide-highlight-engine.c:955-963 | A new engine labels an empty buffer. |
| `Marking.VisitFindsFirst` | src/libide/code/ide-highlight-engine.c:274-295 | The callback, visiting the runs of any labels, yields their first maximal unchecked interval. |
| `Marking.EditedLines` | src/libide/code/ide-highlight-engine.c:631-638 | The characters of the touched lines, except line breaks, are exactly those between the computed line start and line end, unless the edit ends inside a two-character break. |
| `Marking.InsertSafe` | src/libide/code/ide-highlight-engine.c:605-643 | After an insertion every checked character that is no line break is on a line not edited since it was checked. |
| `Marking.DeleteSafe` | src/libide/code/ide-highlight-engine.c:647-684 | The same after a deletion. |
| `Marking.LineStart` | src/libide/code/ide-highlight-engine.c:634-635 | The nearest line start at or before a position. |
| `Marking.LineEnd` | src/libide/code/ide-highlight-engine.c:637-638 | The nearest line end at or after a position. |
| `Ticking.ClampedRange` | src/libide/code/ide-highlight-engine.c:305-313 | The interval clamped to the text is the first unchecked range of the text, or empty when every character is checked. |
| `Ticking.PassShrinks` | src/libide/code/ide-highlight-engine.c:368-378 | A pass that moves leaves strictly fewer unchecked characters, so that the loop ends. |
| `Ticking.TraceBound` | src/libide/code/ide-highlight-engine.c:338-378 | A tick has at most as many passes as there were unchecked characters. |
| `Ticking.FlipsOnlyReported` | src/libide/code/ide-highlight-engine.c:348-372 | A label changes if and only if a pass reported the character as passed or skipped it as a line end; it changes to checked. |
| `Ticking.TickSafe` | src/libide/code/ide-highlight-engine.c:317-385 | After any tick every checked character is still on a line not edited since the highlighter passed it. |
| `Staging.DoApplyEdits` | src/libide/code/ide-buffer-manager.c:899-970 | Staging all marks and applying the edits one by one replaces every group of ranges without an untouched character between them by the text of the edit applied last; for separated ranges that is the simultaneous substitution, and otherwise it is exactly if the other edits of each group put in nothing. All marks are gone again. |
| `Staging.StageEdit` | src/libide/code/ide-buffer-manager.c:911-931 | One edit gets its two marks in the buffer of its file; edits without a buffer are skipped. |
| `Staging.ApplyEdit` | src/libide/code/ide-buffer-manager.c:934-952 | One edit is applied; the marks of the edits to come stand where their ranges have moved. |
| `TextEdits.TextEdit.Prepare` | src/libide/code/ide-text-edit.c:199-223 | A left-gravity mark at the beginning and a right-gravity mark at the end of the range. |
| `TextEdits.TextEdit.Apply` | src/libide/code/ide-text-edit.c:178-196 | What lies between the marks is replaced by the text, other marks move along, the two marks go. |
| `Staging.ApplyOn` | src/libide/code/ide-text-edit.c:178-196 | Applying the next edit between its marks replaces the groups of ranges it meets and its own range by its text, and moves the other marks to where they have to stand, whatever was applied before. |
| `Staging.StandsOn` | src/libide/code/ide-text-edit.c:187-193 | The marks of an edit still to come stand before and behind the groups of applied ranges that its own range meets. |
| `Staging.LowMark` | src/libide/code/ide-text-edit.c:212-216 | A left-gravity mark stays in front of the group at its position when another edit is applied. |
| `Staging.HighMark` | src/libide/code/ide-text-edit.c:218-222 | A right-gravity mark stays behind the group at its position. |
| `Blocks.AbsorbText` | src/libide/code/ide-text-edit.c:178-196 | Replacing what the marks of one more edit enclose gives the substitution of the groups, with those it meets joined into one. |
| `Blocks.MergedSeparated` | src/libide/code/ide-buffer-manager.c:911-952 | Of separated edits each is a group of its own. |
| `Substitution.AnyOrder` | src/libide/code/ide-buffer-manager.c:911-952 | The order of the list does not matter. |
| `Swallowing.OneByOneExactly` | src/libide/code/ide-text-edit.c:178-196 | For any list of edits: what applying them one by one yields is the simultaneous substitution if and only if, of any two edits without an untouched character between them, the one applied first has an empty text. |
| `Swallowing.TouchingIsNotEnough` | src/libide/code/ide-text-edit.c:178-196 | That edits with a text touch none applied later does not suffice: of three, the outer two meet once the middle one is applied. |
| `EditBatches.EditBatch.Start` | src/libide/code/ide-buffer-manager.c:1095-1182 | Every file with an edit is looked up or requested once; without loads the edits are applied at once, and otherwise no text changes yet. Buffers of other files are untouched and none is to be closed. |
| `EditBatches.EditBatch.BufferLoaded` | src/libide/code/ide-buffer-manager.c:979-1038 | A completion applies the edits only when it is the last, all loads have succeeded, and they were not applied before; after a failure nothing more is stored, neither to edit nor to close, and one error is returned. |
| `EditBatches.EditBatch.KeepBuffer` | src/libide/code/ide-buffer-manager.c:1021-1034 | The buffer is kept, and the edits are applied with the last one. |
| `EditBatches.AppliedExactlyOnce` | src/libide/code/ide-buffer-manager.c:979-1038 | For every order of completions the edits are applied once if all loads succeed, and never otherwise. |
| `Diagnosing.NoLostWakeUp` | src/libide/code/ide-diagnostics-manager.c:407-416 | After every run of events a group that wants a diagnosis and has an adapter has the timer queued or a diagnosis counted as under way. |
| `Diagnosing.StepOk` | src/libide/code/ide-diagnostics-manager.c:492-542 | Every event keeps the invariant: counters are the calls under way plus the lost calls, adapters and attached providers agree. |
| `Diagnosing.LeakStep` | src/libide/code/ide-diagnostics-manager.c:336-344 | The calls lost by an event are exactly those under way whose provider it takes away. |
| `Diagnosing.StuckOnlyByLeak` | src/libide/code/ide-diagnostics-manager.c:336-344 | A group that wants a diagnosis with nothing under way and no timer has lost a call. |
| `Diagnosing.NeverStuckWithoutLoss` | src/libide/code/ide-diagnostics-manager.c:407-416 | Without such a loss the timer is queued or a call is really under way. |
| `Diagnosing.LossIsForGood` | src/libide/code/ide-diagnostics-manager.c:513-514 | After a loss no call for the group is ever started again, whatever happens. |
| `Diagnosing.LossMeansStuck` | src/libide/code/ide-diagnostics-manager.c:336-344 | A group has lost a call if and only if some run of events that loses no further one gets it stuck. |
| `Diagnosing.WishStays` | src/libide/code/ide-diagnostics-manager.c:407-416 | Over any run a wish for a diagnosis stays until an event starts a call of every provider of the group, or the file is closed. |
| `Diagnosing.ReplacedProviderSticks` | src/libide/code/ide-diagnostics-manager.c:336-344 | A run of five events in which a group gets stuck: its provider is replaced while its call is under way. |
| `Diagnosing.GroupsStay` | src/libide/code/ide-diagnostics-manager.c:407-416 | No event takes a group out of the table; a completion never disposes of its own group. |
| `Diagnosing.ReportReplaces` | src/libide/code/ide-diagnostics-manager.c:348-379 | After a completion the entries of its provider are, for every file, the reported diagnostics of that file in order; all other entries are untouched. |
| `Diagnosing.RemovalClears` | src/libide/code/ide-diagnostics-manager.c:826-863 | Removing a provider clears its diagnostics everywhere; its late completion changes no group. |
| `Outcomes.OpenedMeans` | src/libide/code/ide-diagnostics-manager.c:1133-1184 | The opening step attaches every extension of a new adapter and none otherwise; entries, calls and other groups stay. |
| `Outcomes.ClosedMeans` | src/libide/code/ide-diagnostics-manager.c:1031-1089 | The closing step takes back what the extensions of the file have reported, everywhere, and nothing that others have. |
| `Outcomes.FiredMeans` | src/libide/code/ide-diagnostics-manager.c:492-517 | The timer asks exactly the groups with a wish, an adapter and no call counted, and leaves all others alone. |
| `Outcomes.CallsOnlyWhenWished` | src/libide/code/ide-diagnostics-manager.c:513-514 | Over any event, a call that was not under way before was started by the timer, for a group that wanted a diagnosis and counted no call. |
| `Outcomes.RemovedMeans` | src/libide/code/ide-diagnostics-manager.c:826-863 | Removing a provider takes it from its extensions and its reports from every file, and changes nothing else. |
| `Outcomes.ReportedMeans` | src/libide/code/ide-diagnostics-manager.c:300-419 | A completion replaces the reports of its provider for every file, counts each of them in the sequence number of its file, and queues the timer exactly if its group wants a diagnosis and counted one call. |
| `Diagnostics.DiagnosticsManager.Handle` | src/libide/code/ide-diagnostics-manager.c:492-512 | Every handler takes its step of the state machine and keeps the invariant. |
| `Diagnostics.DiagnosticsManager.DiagnoseCb` | src/libide/code/ide-diagnostics-manager.c:300-419 | A completion clears, adds the reports, counts down, and queues the next diagnosis exactly if one is wanted and this was the last call counted; entries, flags and sequence numbers of every file are stated, and when `changed` is emitted. Without its group it only ends the call. |
| `Diagnostics.DiagnosticsManager.ClearByProvider` | src/libide/code/ide-diagnostics-manager.c:781-823 | The loop removes the provider from the table of every group and tells whether there was any table. |
| `Diagnostics.DiagnosticsManager.AddDiagnostic` | src/libide/code/ide-diagnostics-manager.c:623-656 | A diagnostic goes to the end of what its provider has reported for its file; every other entry of every file and provider, every other group and all scheduling stay as they were; the invariant is kept. |
| `Diagnostics.DiagnosticsManager.BeginDiagnose` | src/libide/code/ide-diagnostics-manager.c:492-517 | When the timer fires, exactly the groups that want a diagnosis, have an adapter and count no call are asked: every provider of theirs then has a counted call under way and the wish is gone. All other groups and their calls stay as they are. |
| `Diagnostics.DiagnosticsManager.GroupDiagnose` | src/libide/code/ide-diagnostics-manager.c:466-488 | Every extension of the group starts a call, and the counter counts them. |
| `Diagnostics.DiagnosticsManager.QueueDiagnose` | src/libide/code/ide-diagnostics-manager.c:521-542 | The wish is noted, and the timer queued unless calls of the group are counted; the invariant is kept, no entry changes, no other group is touched. |
| `Diagnostics.DiagnosticsManager.FileOpened` | src/libide/code/ide-diagnostics-manager.c:1133-1184 | With a new adapter all its extensions are attached, with nothing reported; an old adapter stays as it is. A diagnosis is wished for and nothing else changes. |
| `Diagnostics.DiagnosticsManager.FileClosed` | src/libide/code/ide-diagnostics-manager.c:1031-1089 | The adapter, its extensions and all they have reported, for any file, are gone, and so is the wish; what other providers have reported stays, also for the closed file, and is remembered in its flag. |
| `Diagnostics.DiagnosticsManager.FileChanged` | src/libide/code/ide-diagnostics-manager.c:1092-1111 | Whatever the state, the file has a group afterwards that wants a diagnosis, with the timer queued unless calls are counted; otherwise the group is as it was, and no entry, provider, call or other group changes; the invariant is kept. A change of language and an explicit request do the same. |
| `Diagnostics.DiagnosticsManager.ExtensionAdded` | src/libide/code/ide-diagnostics-manager.c:728-777 | The provider is attached to the group as one more extension of it, with nothing reported while all other entries stay; a diagnosis is wished for, with the timer queued unless calls are counted, and no other group is touched; the invariant is kept for a new provider. |
| `Diagnostics.DiagnosticsManager.ExtensionRemoved` | src/libide/code/ide-diagnostics-manager.c:826-863 | The provider is detached and no longer an extension, all it has reported is gone from every file; wishes, counters, calls and the entries of others stay. |
| `Diagnostics.DiagnosticsManager.GroupHasDiagnostics` | src/libide/code/ide-diagnostics-manager.c:227-250 | True exactly if some provider has a non-empty list. |

## Left out

- Remove: that `ok` is false is stated exactly for the leaf, and exactly for each single dissolved branch (`DissolveBranch`); for the branches of a whole removal it says only that 1663 runs or more are needed, because which parent is full is decided by trees in between.
- BranchCompact: as above; a failure needs 1664 runs.
- NodeSplit: for a branch it says that there is room above its children, not how they were halved; `SplitBranch` does.
- FullParentIsMet: gives a tree, not a run of insertions and removals that builds it.
- LeafCompact: as above; a failure needs 1664 runs.
- Tick: in the branches of a large tree an abort is bounded by the number of runs and passes, not characterised; likewise for HighlightRange, Worker, Rebuild, Reload, SetHighlighter, SettingsChanged and, once no leaf overflows, InsertText, DeleteText, MarkLines, MarkUnchecked and Invalidate.
- DoApplyEdits: of a file with a range that is given backwards and meets another range of the list it says only that all marks go, because its two marks have the opposite gravities.
- FlipsOnlyReported: the highlighter is a function of the pass and the range whose location lies in the range; what it does to the text tags is not modelled.
- ForeachReverse: as for Foreach.
- Foreach: of a sorted array; the block is a decision to remove, made from the elements seen and the current one; blocks that insert and break are written out where they occur.
- EditedLines: where an edit ends between the two characters of a line break, the next line is unchecked as well; the line end search of the text widget is taken as the nearest line end further on.
- The split callback of the region: taken as NULL, as its only client passes it; callbacks that change lengths are not handled by the arithmetic of `remove`.
- The join callback: a pure function of offset and runs that joins only equal data, or NULL.
- Nodes on the heap: the tree keeps one map per field, indexed by node ids; the leaf tag in the parent pointer is membership in the map of runs, freeing a node is not modelled, and the node arrays are sequences in the tree, refined separately by `SortedArray`.
- The sweep of children whose node is NULL in `branch_compact`: such children are only left in nodes about to be freed.
- The left and right loops of the two merge procedures: written once with a direction.
- Overflow of `gsize`, `guint` and the eight-bit queue length: the numbers are unbounded; the array capacity is below 255.
- The text buffer: a sequence of characters with line breaks, or with marks; tags, signals, undo groups and cursors are left out.
- The location of an edit: a character offset, clamped to the text; resolving lines and columns is left out.
- Binding and unbinding buffers, style schemes, settings storage and private tags of the highlight engine.
- Loading and saving of files: a completion with or without a buffer; that the buffer belongs to the file asked for is assumed, saving after the edits is left out.
- Contents, language ids and the plugin engine of the diagnostics: extensions come and go as events, new providers are new objects, and calls complete later, never at once.
- The order in which hash tables are walked: any order.
- Getters, serialisers, the line cache of a list of diagnostics, `get_busy` and the collection of diagnostics of a file: they would only add easy members.
