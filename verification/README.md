# Multi-entry search trees: a verified model

The extension gives PostgreSQL two index methods for values that are indexed by several
entries each: MGiST, a multi-entry GiST, and MSP-GiST, a multi-entry SP-GiST. One trajectory,
path or multirange is cut into boxes or ranges, every piece becomes an index entry, and a scan
has to bring the entries of one heap tuple together again. This project models the parts of
the extension where that is hard to get right and proves what they promise.

| modules | what they model |
|---|---|
| `Boxes`, `MinHeap`, `MergeState`, `MergeSplit`, `MergeGreedy`, `LinearSplit` | cutting trajectories and paths into boxes |
| `Lists`, `LeafPage`, `LeafChains`, `LeafBuffer` | SP-GiST leaf pages: tuples by offset, chains, counters |
| `VacuumPlan`, `VacuumPage`, `VacuumCounts`, `VacuumLeaf`, `VacuumRun`, `VacuumTheorems` | vacuuming a leaf page and replaying it |
| `LeafPlace`, `AddLeaf`, `MoveLeafs`, `MoveTheorems` | adding a leaf tuple, moving a leaf chain to another page, and recovering from a crash |
| `TextStrings`, `TextTree`, `TextChoose`, `TextSplit`, `TextInsert`, `TextDescend` | inserting into the radix tree over text |
| `TextConsistent`, `TextSearch` | searching the radix tree |
| `GistPages`, `GistPlace`, `GistLinks`, `GistKeys`, `GistSteps`, `GistScan`, `GistEntries`, `GistReport` | page splits, right links and scans that run at the same time |
| `Distances`, `OrderedScan`, `NearestSearch` | the scan ordered by distance, with one answer for each heap tuple |
| `RangeBounds`, `MultirangeEntries`, `RangeQuad`, `RangeSearch` | the quadtree over the ranges of multiranges |
| `Positions`, `ColumnDivision`, `SplitByKey`, `PageSplit`, `PenaltyChoice` | dividing a page by several columns, and choosing a subtree |
| `NodeBuffers`, `BuildBuffers`, `BufferRelocation` | the node buffers of a buffering index build |

## The main results

* **Box splitters.** The merge loop keeps one heap entry for each live box other than the
  first. A merge always uses the current penalty of two neighbours, and no stored penalty is
  smaller. The loop ends because the box count or the number of stale flags falls. The result
  has exactly the requested number of boxes, each the hull of a run, and the runs are a
  partition of the segments. A merge is the cheapest one over *all* neighbours exactly when no
  pair with a stale flag has become cheaper (`MergeGreedy.CheapestExactly`). With the
  splitter's own penalty this can fail: on the trajectory of
  `MergeGreedy.StaleElementHidesCheaperMerge` every run of the loop passes over a cheaper
  merge. The query-driven splitter cuts a pending run exactly where widening it costs more
  than it saves, into pieces of the size its formula picks.
* **Vacuum.** Every live chain is, read from its unchanged head, the old chain without the
  deletable tuples, in the same order, or one DEAD tuple. Links stay sound, all other offsets
  stay as they were, counters stay right, and replay reaches the same page.
* **Adding and moving leaf tuples.** A new tuple comes second in its chain, whose head stays,
  or is a chain of its own, at a place of its own or in place of a DEAD tuple.
  When a chain is moved, the new chain holds the new tuple and then the old tuples in reverse; the
  old head redirects to it. Recovery reaches the same pages whichever of them had been written
  before the crash. Reusing placeholders agrees with replay exactly when the
  placeholder counter is not stale.
* **Text tree.** Inserting always ends, never fails for size, keeps the tree well formed and
  adds exactly the one string. Walking the tree returns exactly the tuples with a string that
  satisfies all keys, each once.
* **GiST.** In every interleaving of inserters and one scan, from an empty index on, an entry
  that was there when the scan began and that the query accepts is seen before the scan's
  queue is empty, and nothing is reported but what the query accepts and the index holds. A
  heap tuple with several such entries is returned once. The index holds exactly what was
  inserted, each entry on one page.
* **Ordered scan.** Every matching heap tuple comes out exactly once, at the least distance of
  its entries, in order of distance.
* **Quadtree.** If an operator holds between a multirange and a query, some entry survives
  every quadrant test on its path, with the rule on the previous centroid, and passes the leaf
  test. A quadrant is ruled out exactly if nothing in it can be looked for. With several keys a multirange is found for all keys that hold exactly when it has a
  single entry (`RangeSearch.FoundForAllKeys`); `RangeSearch.TwoKeysMiss` is an input on which
  two keys miss it.
* **Page splits by several columns.** Each tuple goes where the first column that can tell
  sends it: nulls apart from keys, then by the operator class's division, and what a column
  leaves open by the next ones. The sides are a partition, and one is empty exactly when
  the last resort halves fewer than four tuples. Repeated splitting then never ends: two or
  three tuples that overflow a page and that no column can divide use up any stack. If none of
  the tuples are stuck in this way, splitting yields non-empty pages that fit and hold each
  tuple once, or reports a tuple that is larger than a page. With a single column the outcome
  is known beforehand: it depends on where halving the nulls first meets an overflow.
* **Node buffers.** Under any sequence of pushing, popping, loading, unloading and relocating,
  each buffer is a stack of its own, every block of the shared file is free or in the chain of
  one buffer, and dealing out the buffer of a split page loses no tuple, duplicates none,
  sends each to the page of least penalty under the downlinks of that moment and leaves it
  covered by that page's downlink.

## Model

| member | source | states |
|---|---|---|
| `MinHeap.Heap.HeapifyDown` | contrib/mobilitydb/tpoint_mest.c:421-440 | Started where only one element may be larger than its children, sifting down gives a valid heap of the same elements. |
| `MinHeap.Heap.HeapifyUp` | contrib/mobilitydb/tpoint_mest.c:442-451 | Started where only one element may be smaller than its parent, sifting up gives a valid heap of the same elements. |
| `MinHeap.Heap.Insert` | contrib/mobilitydb/tpoint_mest.c:453-466 | A full heap stays as it is; otherwise the heap has exactly one element more, the given one. |
| `MinHeap.Heap.DeleteMin` | contrib/mobilitydb/tpoint_mest.c:468-479 | Fails exactly on an empty heap; otherwise takes out one element whose penalty is least of all and keeps the others. |
| `MinHeap.RootLeastOfAll` | contrib/mobilitydb/tpoint_mest.c:468-479 | In a heap in which no child is below its parent, the root has the least penalty of all elements. |
| `Boxes.HullJoin` | contrib/mobilitydb/tpoint_mest.c:601 | Expanding the hull of a run by the hull of the run before it gives the hull of both. |
| `Boxes.HullIsLeast` | contrib/mobilitydb/tpoint_mest.c:601 | The hull of a run covers each of its boxes, and a box covers the hull exactly if it covers each of them. |
| `MergeState.MergeKeepsInv` | contrib/mobilitydb/tpoint_mest.c:596-605 | Merging two neighbours removes one live box and its heap entry; boxes stay the hulls of their runs, and every remaining entry still names its live predecessor exactly where that one's right flag is fresh. |
| `MergeState.RefreshKeepsInv` | contrib/mobilitydb/tpoint_mest.c:606-630 | Refreshing an entry leaves the live boxes as they are and makes the entry current again, with the invariant kept. |
| `MergeState.RefreshLessStale` | contrib/mobilitydb/tpoint_mest.c:606-630 | A refresh lowers the number of stale flags: the second part of the loop's termination measure. |
| `MergeSplit.MergeStepIsGreedy` | contrib/mobilitydb/tpoint_mest.c:594-605 | The merge that is carried out joins two neighbouring live boxes at the current penalty of the hulls of their runs, and no stored penalty is smaller. |
| `MergeSplit.RoundKeepsInv` | contrib/mobilitydb/tpoint_mest.c:594-631 | A round keeps the invariant, and removes the second of the two boxes from the live ones exactly if the element taken was current. |
| `MergeSplit.HistoryKeepsInv` | contrib/mobilitydb/tpoint_mest.c:579-631 | Every state of every run of the loop satisfies the invariant: one element for each live box but the first, boxes are hulls of runs, current elements have current penalties. |
| `MergeSplit.InitialState` | contrib/mobilitydb/tpoint_mest.c:579-592 | The loop's invariant holds at the start: one heap entry for each box but the first. |
| `MergeSplit.Freshen` | contrib/mobilitydb/tpoint_mest.c:608-628 | The backward search stops at the live predecessor; its right flag and the left flag of the second box become fresh and the penalty is recomputed for these two. |
| `MergeSplit.Process` | contrib/mobilitydb/tpoint_mest.c:594-631 | One entry taken from the heap leads to a merge with one box less, or goes back refreshed with fewer stale flags; the invariant is kept. |
| `MergeSplit.Step` | contrib/mobilitydb/tpoint_mest.c:594-631 | The loop body with the heap: the heap always has one entry less than there are live boxes, never overflows, runs empty only when one box is left, and (count, stale flags) falls. |
| `MergeSplit.MergeLoop` | contrib/mobilitydb/tpoint_mest.c:579-642 | Ends with exactly the requested number of boxes (at least one), which are the hulls of a partition of the segments, and the rounds it went through are a run in which every round takes a least element and merges or refreshes it. |
| `MergeSplit.MergeSplit` | contrib/mobilitydb/tpoint_mest.c:549-643 | For any penalty and any limit, also zero or negative: the number of boxes, and that they are hulls of consecutive runs that together cover every instant in order. |
| `MergeSplit.AdaptSplit` | contrib/mobilitydb/tpoint_mest.c:952-1046 | The same for a number of segments per box, whose quotient is truncated: the number of boxes and the partition, for every value but zero. |
| `MergeSplit.EverySegmentOnce` | contrib/mobilitydb/tpoint_mest.c:633-642 | Every segment belongs to exactly one of the output boxes and is covered by it. |
| `MergeGreedy.CheapestExactly` | contrib/mobilitydb/tpoint_mest.c:594-605 | For every penalty: the merge that is carried out is the cheapest of all neighbouring live boxes exactly if no pair with a stale flag between them has a smaller current penalty. |
| `MergeGreedy.CheapestWhenFresh` | contrib/mobilitydb/tpoint_mest.c:594-605 | It is the cheapest while no flag is stale. |
| `MergeGreedy.MonotoneIsCheapest` | contrib/mobilitydb/tpoint_mest.c:594-630 | With a penalty that never falls when boxes grow, every merge of every run would be the cheapest. |
| `MergeGreedy.NotMonotone` | contrib/mobilitydb/tpoint_mest.c:489-547 | The splitter's penalty, union minus both sizes plus the common part, can fall when a box grows. |
| `MergeGreedy.StaleElementHidesCheaperMerge` | contrib/mobilitydb/tpoint_mest.c:489-642 | On a trajectory of five instants every run with the splitter's penalty that gets down to two boxes merges the last two segments although merging the first three is cheaper by then. |
| `MergeGreedy.TwoRounds` | contrib/mobilitydb/tpoint_mest.c:594-631 | There is a run of this kind: two rounds lead from four boxes to two. |
| `LinearSplit.SplitRun` | contrib/mobilitydb/tpoint_mest.c:848-862 | Emits the hulls of as many whole groups of `c` segments as fit before `v`, keeps the hull of the rest, and starts runs at exactly the ends of these groups. |
| `LinearSplit.LinearSplit` | contrib/mobilitydb/tpoint_mest.c:819-878 | For any cost and any result of the group-size formula, the boxes are hulls of a partition of the segments, never more than the array has room for, and the runs start exactly where the cut rule says. |
| `LinearSplit.CutRule` | contrib/mobilitydb/tpoint_mest.c:842-867 | With `u` the start of the pending run when instant `v` is reached, new runs start only if the cost is positive of widening the hull from `u` to `v` towards the hull of `v` and `v + 1`; then exactly at the multiples of the group size beyond `u`, up to `v`. |
| `LinearSplit.UncutIsOneHull` | contrib/mobilitydb/tpoint_mest.c:842-877 | If the cost is never positive, the one box is the hull of all instants. |
| `LinearSplit.PointExpandIsExpand` | src/path_mest.c:595-607 | Expanding a box by a point, which compares each coordinate with one limit only, gives the hull of the box and the point. |
| `LinearSplit.PathSplit` | src/path_mest.c:611-635 | For `S` segments the path yields exactly ceil(S / ceil(S / c)) boxes, at most `c`, hulls of a partition in which each run starts ceil(S / c) segments after the one before; for a single point the count is set but no box is filled in. |
| `LinearSplit.CeilTwice` | src/path_mest.c:616-618 | Recomputing the number of boxes from the rounded-up group size never gives more boxes than were asked for. |
| `LeafPage.DeleteThenInsert` | src/mspgist/mspgdoinsert.c:131-179 | Deleting sorted offsets and putting dead tuples back in increasing order leaves every other tuple at its offset. |
| `LeafBuffer.Buffer.MultiDeleteInPlace` | src/mspgist/mspgdoinsert.c:131-179 | Exactly the named offsets are replaced, the first named one (not the lowest) by its own kind, and the redirect and placeholder counters grow by what was put in. |
| `LeafChains.ChainUnique` | src/mspgist/mspgvacuum.c:254-307 | A head starts only one chain. |
| `LeafChains.ChainsDisjoint` | src/mspgist/mspgvacuum.c:170-181 | If no two tuples link to the same offset, two chains that share a tuple are the same chain. |
| `LeafChains.HeadsStartChains` | src/mspgist/mspgvacuum.c:254-307 | If links are sound and lead to live tuples, following them from a head ends: there is no cycle to be caught in. |
| `VacuumLeaf.RecordLink` | src/mspgist/mspgvacuum.c:170-181 | The check on a tuple's link fails exactly if the link leaves the page or its target has a predecessor already. |
| `VacuumLeaf.ScanPage` | src/mspgist/mspgvacuum.c:143-208 | The first pass fails exactly if some link of the page is unsound; otherwise it records all predecessors and counts the deletable tuples. |
| `VacuumLeaf.PlanChain` | src/mspgist/mspgvacuum.c:250-321 | Walking one chain produces exactly the plan of that chain, and fails only if some link leads to a tuple that is not live. |
| `VacuumLeaf.PlanPage` | src/mspgist/mspgvacuum.c:234-322 | Planning fails exactly if some link leads to a tuple that is not live; otherwise the plan is that of all chains in order of their heads. |
| `VacuumLeaf.CountsAgree` | src/mspgist/mspgvacuum.c:324-326 | The planned numbers of dead, placeholder and moved tuples add up to the number of deletable ones exactly if every deletable tuple lies on a chain. |
| `VacuumPlan.ChainPlanMeaning` | src/mspgist/mspgvacuum.c:254-321 | A page changed at each member as the chain's plan says has that chain vacuumed: survivors keep their order, the first at the head, and every other place is given up. |
| `VacuumPage.ApplyPlanAt` | src/mspgist/mspgvacuum.c:328-372 | The four kinds of change, carried out one after the other for the whole page, give at each offset what the plan says for that offset alone. |
| `VacuumCounts.PlanVacuums` | src/mspgist/mspgvacuum.c:234-372 | The plan never names an offset off the page or twice, and carrying it out vacuums every chain. |
| `VacuumRun.MakePlan` | src/mspgist/mspgvacuum.c:143-326 | When each of the three errors, the early return and a finished plan come about, in terms of the page and the callback. |
| `VacuumRun.CarryOut` | src/mspgist/mspgvacuum.c:328-398 | The page afterwards: tuples, both counters and LSN. |
| `VacuumRun.VacuumLeafPage` | src/mspgist/mspgvacuum.c:125-401 | The whole operation: an error or nothing to delete leaves the page as it was; otherwise every chain is vacuumed. |
| `VacuumRun.RedoVacuumLeaf` | src/mspgist/mspgxlog.c:750-831 | Replay changes the page exactly as the forward action, and only if the page is older than the record. |
| `VacuumRun.ReplayAgrees` | src/mspgist/mspgxlog.c:782-828 | Vacuuming a page and replaying the record on a copy of it give equal pages, counters included. |
| `VacuumTheorems.ChainAfterVacuum` | src/mspgist/mspgvacuum.c:234-372 | Read from the unchanged head offset, a chain holds the old entries without the deletable ones, in the same order; if none is left, there is a DEAD tuple. |
| `VacuumTheorems.VacuumKeepsLinks` | src/mspgist/mspgvacuum.c:364-372 | After vacuum all links are sound and lead to live tuples. |
| `VacuumTheorems.HeadStaysHead` | src/mspgist/mspgvacuum.c:277-289 | A chain with a survivor has its head at the same offset, with no tuple before it. |
| `VacuumTheorems.NothingLeft` | src/mspgist/mspgvacuum.c:125-401 | No deletable tuple is left on the page. |
| `VacuumTheorems.OthersStay` | src/mspgist/mspgvacuum.c:245-246 | Tuples that are not live stay as they were at their offsets. |
| `VacuumTheorems.VacuumKeepsCounters` | src/mspgist/mspgvacuum.c:331-362 | If the redirect and placeholder counters were right before, they are right afterwards. |
| `LeafPlace.FindPlaceholder` | src/mspgist/mspgutils.c:838-870 | The search from the hint and then from the start finds the first placeholder at or after the hint, else the first on the page, if there is one; a useless hint is forgotten. |
| `LeafPlace.AddNewItem` | src/mspgist/mspgutils.c:822-909 | Which offset is used, what the next hint is, and when the tuple does not fit; the page is the one replay would make exactly if the placeholder counter did not promise placeholders that are not there. |
| `LeafPlace.AddOrReplaceTuple` | src/mspgist/mspgxlog.c:49-71 | Deleting the placeholder and adding the tuple at its offset leaves every other tuple where it was, and takes one off the placeholder counter; fails, with the page unchanged, if another tuple is at the offset or the offset is not the next one. |
| `LeafPlace.PlacedIsReplay` | src/mspgist/mspgxlog.c:49-71 | These facts determine the page: it is the one that the forward action made. |
| `LeafPlace.PlacedAll` | src/mspgist/mspgxlog.c:222-238 | After putting several tuples, each is at its own recorded offset and all other tuples but placeholders are where they were. |
| `LeafPlace.CountsAll` | src/mspgist/mspgutils.c:872-897 | Putting live tuples keeps right counters right. |
| `MoveLeafs.CollectChain` | src/mspgist/mspgdoinsert.c:419-450 | The walk lists exactly the chain, and notices a lone DEAD tuple. |
| `MoveLeafs.CopyChain` | src/mspgist/mspgdoinsert.c:463-492 | The old tuples are put on the other page, each linked to the one put before, and the list of offsets replays to the same page. |
| `MoveLeafs.Move` | src/mspgist/mspgdoinsert.c:387-559 | Both leaf pages and the downlink afterwards, and that the record describes the old chain and the new tuple. |
| `MoveLeafs.RedoMoveLeafs` | src/mspgist/mspgxlog.c:170-281 | Replay changes each of the three pages as the forward action did, and only those older than the record; a new page is always made again from a blank one. |
| `MoveLeafs.RecoveryAgrees` | src/mspgist/mspgxlog.c:170-281 | Whichever of the three pages had reached disk before a crash, replay makes all three equal to those of the forward action. |
| `MoveTheorems.MovedChain` | src/mspgist/mspgdoinsert.c:463-502 | On the other page the new tuple and the old ones are one chain that ends, and the recorded target is its head. |
| `MoveTheorems.MovedContents` | src/mspgist/mspgdoinsert.c:463-502 | That chain holds the new tuple, then the old entries in reverse order; nothing of a DEAD tuple. |
| `MoveTheorems.OldHeadLeadsOn` | src/mspgist/mspgdoinsert.c:504-512 | The old head redirects to the block and the last offset of the record (or is a placeholder in an index build), the other old places are placeholders, and everything else stays. |
| `MoveTheorems.OldLinkSeesAll` | src/mspgist/mspgdoinsert.c:463-515 | A scan that comes by the old head is redirected to the head of the new chain, which ends and holds the new entry and all old ones. |
| `MoveTheorems.OthersOnDest` | src/mspgist/mspgdoinsert.c:496-500 | Tuples on the other page that are not placeholders stay where they are. |
| `MoveTheorems.MoveKeepsCounters` | src/mspgist/mspgdoinsert.c:463-502 | Right counters of the destination page stay right. |
| `MoveTheorems.SourceCounters` | src/mspgist/mspgdoinsert.c:504-512 | Right counters of the source page stay right. |
| `AddLeaf.AddLeafTuple` | src/mspgist/mspgdoinsert.c:203-321 | The page, the downlink and the record for a tuple on its own, second in a chain or in place of a DEAD tuple, what each of these means for the page being stated below; fails exactly if the head is neither live nor DEAD. |
| `AddLeaf.RedoAddLeaf` | src/mspgist/mspgxlog.c:73-168 | Replay changes leaf page and downlink as the forward action did, and only if they are older than the record; a new page is made again from a blank one. |
| `AddLeaf.AddRecoveryAgrees` | src/mspgist/mspgxlog.c:73-168 | Whichever of the two pages had reached disk before a crash, replay makes both equal to those of the forward action. |
| `AddLeaf.AddedAlone` | src/mspgist/mspgdoinsert.c:220-233 | Without a head, the tuple stands at the offset of the record without a link, every other tuple is where it was, and counters and length are those of placing one tuple. |
| `AddLeaf.AddedForDead` | src/mspgist/mspgdoinsert.c:273-286 | In place of a DEAD tuple the new one stands at its offset, and every other offset, the length and the counters are as they were. |
| `AddLeaf.AloneKeepsLinks` | src/mspgist/mspgdoinsert.c:220-286 | In both cases all links stay sound and lead to live tuples. |
| `AddLeaf.ChainOfItsOwn` | src/mspgist/mspgdoinsert.c:220-286 | In both cases the new tuple is a chain of its own, which holds exactly the new entry. |
| `AddLeaf.ChainsBesideStay` | src/mspgist/mspgdoinsert.c:220-286 | In both cases every old chain keeps its tuples and its entries. |
| `AddLeaf.AddKeepsCounters` | src/mspgist/mspgdoinsert.c:203-321 | Right counters stay right in all three cases. |
| `AddLeaf.AddedSecond` | src/mspgist/mspgdoinsert.c:236-272 | Behind a live head, the tuple stands at the recorded offset with the head's old link, the head links to it, and every other offset stays as it was. |
| `AddLeaf.SecondKeepsLinks` | src/mspgist/mspgdoinsert.c:250-272 | After an insertion behind the head all links are sound and lead to live tuples. |
| `AddLeaf.ChainWithSecond` | src/mspgist/mspgdoinsert.c:250-272 | From the unchanged head the chain is the old one with the new tuple second. |
| `AddLeaf.ContentsWithSecond` | src/mspgist/mspgdoinsert.c:250-272 | Its entries are the old ones in their order with the new entry second. |
| `AddLeaf.OtherChainStays` | src/mspgist/mspgdoinsert.c:250-272 | Every other chain of the page keeps its tuples and its entries. |
| `TextStrings.CommonPrefix` | src/text_mspgist.c:137-150 | The loop finds the length of the longest common prefix. |
| `TextStrings.CompareIsOrder` | src/text_mspgist.c:661-669 | Comparing the common length and then the lengths is the byte order of strings. |
| `TextStrings.MemCmpOfPrefix` | src/text_mspgist.c:526-527 | What comparing only a known beginning of a string says about the whole string. |
| `TextChoose.SearchChar` | src/text_mspgist.c:157-181 | Binary search finds a label exactly if it is there, and otherwise the place that keeps the order. |
| `TextChoose.Choose` | src/text_mspgist.c:183-320 | Descends only where prefix and label spell out the beginning of the string; adds a node where the order stays strict; splits the prefix where the string leaves it, or with a dummy label at an all-the-same tuple. |
| `TextChoose.SortNodes` | src/text_mspgist.c:388-393 | The nodes are in order of their labels, none lost and none added. |
| `TextChoose.PickSplit` | src/text_mspgist.c:332-423 | The prefix is the longest that all strings share, cut at the limit; prefix, label and rest of each string spell out that string again; the labels are strictly increasing, and each is that of some string. |
| `TextChoose.CheckAllTheSame` | src/mspgist/mspgdoinsert.c:599-650 | No old tuple ever gets another label, and the new one only if it is excluded; it is excluded only if the tuples are too big for one page. If they are too big, two or more old tuples go to more than one node. |
| `TextConsistent.PruningKeepsMatches` | src/text_mspgist.c:500-557 | A test on a beginning of a string never rules out a string that satisfies the key. |
| `TextConsistent.PassesExactly` | src/text_mspgist.c:500-557 | The test keeps a node exactly if some string with its beginning satisfies the key, but for one case: nodes that start with the bound of `<` or `<=` are visited in vain. |
| `TextConsistent.AllOrNone` | src/mspgist/mspgscan.c:792-794 | Of an all-the-same tuple either every node or none is chosen, so that error cannot be reached. |
| `TextConsistent.InnerConsistent` | src/text_mspgist.c:425-571 | Exactly the nodes whose spelled-out beginning passes all keys are chosen, with that beginning. |
| `TextConsistent.LeafConsistent` | src/text_mspgist.c:573-701 | Exact on the whole string; the shortcut for prefix keys is right because the beginning had been checked above. |
| `TextSplit.FillNodes` | src/mspgist/mspgdoinsert.c:925-960 | The new inner tuple and its groups store exactly the tuples that are included. |
| `TextSplit.DivideGroups` | src/mspgist/mspgdoinsert.c:1062-1079 | Each group goes to the current page exactly if it fits there beside those put there before. It succeeds exactly if the groups put on each page fit there together, and always if all of them fit on the second page. |
| `TextSplit.PlaceGroups` | src/mspgist/mspgdoinsert.c:995-1126 | Never fails to divide the groups when the old tuples fit on one page; the groups chosen for each of the two pages fit in its free space together; the new tuple is included whenever everything fits on one page. |
| `TextInsert.DoPickSplit` | src/mspgist/mspgdoinsert.c:677-1454 | The new subtree is well formed and stores the old tuples, and the new one if it says so; the chains chosen for each leaf page fit there together. If the new one is left out, every chain below holds strictly fewer of the old tuples when there were two or more, and otherwise the new value loses a byte on its way down. |
| `TextInsert.LeftOver` | src/mspgist/mspgdoinsert.c:901-915 | If the tuples are too big for one page, the split without the new one makes progress: two or more old tuples are spread over several nodes, and fewer leave the new value a node that takes a byte off it. |
| `TextInsert.ProcessInner` | src/mspgist/mspgdoinsert.c:2170-2316 | Going through an inner tuple, with nodes added and prefixes split as needed: what is stored does not change, and the node reached spells the beginning of the string. |
| `TextDescend.AddLeafTuple` | src/mspgist/mspgdoinsert.c:203-321 | Adds one entry to the chain, second in it (last on the root page); the others keep their order, and below the root the old head stays the head. |
| `TextDescend.MoveLeafs` | src/mspgist/mspgdoinsert.c:463-502 | The moved chain has the new tuple first and then the old ones in reverse order. |
| `TextDescend.CheckSplitConditions` | src/mspgist/mspgdoinsert.c:332-378 | The size and number of the tuples of a chain; for the root a size that forces a split. |
| `TextDescend.InsertIntoLeaf` | src/mspgist/mspgdoinsert.c:2108-2153 | A tuple that fits on the page is added; otherwise a chain below the root that is short, smaller than half a page and fits a page with the new tuple is moved; otherwise it is split. This adds exactly the one entry, or leaves it out after a split that makes progress. |
| `TextDescend.Step` | src/mspgist/mspgdoinsert.c:2108-2322 | One turn of the loop ends with the entry stored, or is at a node nearer to the end with the same entries stored. |
| `TextDescend.Insert` | src/mspgist/mspgdoinsert.c:1914-2358 | For every well-formed tree and every string: the loop ends, the tree stays well formed, the stored multiset grows by exactly this entry, and the error for values that do not get small enough is not reached. |
| `TextSearch.InnerTest` | src/mspgist/mspgscan.c:760-836 | Queues exactly the chosen children, each with the string spelled out so far. |
| `TextSearch.InnerVisited` | src/mspgist/mspgscan.c:760-836 | Replacing an inner tuple in the queue by the chosen children loses no match. |
| `TextSearch.VisitLeaf` | src/mspgist/mspgscan.c:969-995 | A chain adds each of its matches that was not reported before, and nothing else. |
| `TextSearch.Walk` | src/mspgist/mspgscan.c:910-1027 | Returns exactly the heap tuples with a stored string that satisfies all keys, and each of them once. |
| `TextSearch.InsertionSeenBySearch` | src/mspgist/mspgscan.c:910-1027 | After an insertion the answers to every query are those from before, and the new tuple if its string satisfies the keys. |
| `GistPages.HeadIsUnique` | src/mgist/mgist.c:471-474 | A page with no downlink yet is reached by flags from one downlink only. |
| `GistPages.HeldOnce` | src/mgist/mgist.c:1036-1144 | Every page belongs to one downlink on one parent. |
| `GistPlace.SplitPending` | src/mgist/mgist.c:364-482 | A page that a running scan will come to is still on its way after a split, and so is the new right half. |
| `GistPlace.PublishPending` | src/mgist/mgist.c:615-636 | Inserting the downlink, setting the NSN and clearing the flag in one step leave every page on the way of every running scan. |
| `GistPlace.RootSplitPending` | src/mgist/mgist.c:392-417 | After a root split every page is on the way of a scan if it was before, one level deeper. |
| `GistLinks.SplitLinks` | src/mgist/mgist.c:456-482 | A split keeps the rules on links, flags and sequence numbers: one downlink for each page, one flagged left neighbour, none for an unpublished page. |
| `GistLinks.PublishLinks` | src/mgist/mgist.c:615-636 | Publishing keeps these rules. |
| `GistLinks.RootSplitLinks` | src/mgist/mgist.c:392-482 | A root split keeps these rules. |
| `GistKeys.SplitKeyed` | src/mgist/mgist.c:364-482 | After a split the old downlink still covers both halves. |
| `GistKeys.PublishKeyed` | src/mgist/mgist.c:1149-1203 | New downlink keys formed from the pages' contents cover what belongs to them. |
| `GistKeys.PublishCursors` | src/mgist/mgist.c:738-752 | An inserter on its way either still has a downlink that covers its entry or is told by flag or NSN to go back. |
| `GistSteps.CheckedPage` | src/mgist/mgist.c:719-752 | After the checks on arrival, the downlink that holds the page is its own and covers the entry. |
| `GistSteps.OverflowGood` | src/mgist/mgist.c:295-547 | Whatever way an overfull page is divided, also into many pages or under a new root, all rules are kept. |
| `GistSteps.OverflowLocated` | src/mgist/mgist.c:295-547 | No entry that a scan will come to gets out of its way. |
| `GistScan.InsertKeepsInv` | src/mgist/mgist.c:843-909 | Putting an entry on a leaf that passed the checks keeps the invariant; in particular every downlink above covers the entry. |
| `GistScan.AdjustKeepsInv` | src/mgist/mgist.c:784-841 | Enlarging a downlink on the way down keeps the invariant, although the downlinks further up were enlarged earlier and under other locks. |
| `GistScan.FinishKeepsInv` | src/mgist/mgist.c:1363-1452 | Inserting one downlink of a split, by whoever finishes it, keeps the invariant. |
| `GistScan.NextKeepsInv` | src/mgist/mgist.c:648-912 | Every step of every inserter keeps the invariant. |
| `GistScan.AlwaysInv` | src/mgist/mgist.c:648-912 | Every state reached from an empty index satisfies the invariant. |
| `GistScan.EntriesStay` | src/mgist/mgist.c:310-482 | No step of an inserter loses an entry. |
| `GistScan.NextKeepsLocated` | src/mgist/mgist.c:239-641 | No step of an inserter takes an entry out of the way of a running scan. |
| `GistScan.ReadKeeps` | src/mgist/mgistget.c:387-418 | Reading a page, following its right link by the parent's LSN and queueing the accepted downlinks leave no accepted entry out of the scan's way, except those now seen. |
| `GistScan.RunKeeps` | src/mgist/mgistget.c:365-646 | Along every run of scan and inserters an accepted entry is seen already or still on the way. |
| `GistScan.NoEntryMissed` | src/mgist/mgistget.c:365-646 | An accepted entry that was present when the scan began has been seen when the scan's queue is empty, in every interleaving. |
| `GistScan.OnlyAccepted` | src/mgist/mgistget.c:471-531 | Along every run of scan and inserters, whatever the scan reports meets the query and was in the index at some moment of the run. |
| `GistScan.AnswerBounds` | src/mgist/mgistget.c:365-646 | When the queue is empty, the scan has reported every accepted entry that was there at the beginning, and only accepted entries that are there at the end. |
| `GistReport.ReportPage` | src/mgist/mgistget.c:482-514 | From a leaf, each heap tuple of an accepted entry that was not found before is returned, once, and is found from then on. |
| `GistReport.PageReturned` | src/mgist/mgistget.c:482-514 | What is found on a page in this way is what a step of the scan adds. |
| `GistReport.ReturnedOnce` | src/mgist/mgistget.c:494-514 | At every moment of a run the heap tuples returned are those of the entries seen, and none of them was returned twice. |
| `GistReport.EachTupleOnce` | src/mgist/mgistget.c:365-646 | When the scan ends, each heap tuple that had an accepted entry at the beginning has been returned, exactly once, and every heap tuple returned has an accepted entry at the end. |
| `GistEntries.NextEntries` | src/mgist/mgist.c:239-641 | A step of an inserter adds exactly the entry that it inserts, if any, loses none, and leaves each entry on one page. |
| `GistEntries.HoldsInsertions` | src/mgist/mgist.c:648-912 | After any steps from an empty index on, it holds exactly the entries inserted. |
| `Distances.CompareDistances` | src/mgist/mgistget.c:540-562 | The loop over the distances, nulls last, compares them in lexicographic order and says which is nearer. |
| `NearestSearch.IsNearer` | src/mgist/mgistget.c:538-565 | A new hit replaces the known one of the same heap tuple only if it is strictly nearer. |
| `NearestSearch.CompareItems` | src/mgist/mgistscan.c:30-67 | The queue's order: by distance, and at the same distance heap tuples before pages. |
| `NearestSearch.ScanOpaque.PushHeap` | src/mgist/mgistget.c:533-618 | The entry is served by the queue afterwards: by itself or by a hit of the same tuple that is no farther. |
| `NearestSearch.ScanOpaque.ScanPage` | src/mgist/mgistget.c:446-643 | Reading a page keeps the scan's invariant, and the work left in the queue falls. |
| `NearestSearch.ScanOpaque.GetNextNearest` | src/mgist/mgistget.c:675-728 | Returns one hit more with the invariant kept, or says that there is none and the queue is empty. |
| `NearestSearch.Search` | src/mgist/mgistget.c:675-728 | All hits until the end: each tuple once, in order of distance, each at the least distance of its matching entries, and no matching tuple is missing. |
| `OrderedScan.FirstIsNearest` | src/mgist/mgistget.c:696-714 | The first queued hit of a tuple not yet returned has the least distance of all entries of that tuple, those on unread pages included. |
| `OrderedScan.ReturnHit` | src/mgist/mgistget.c:696-714 | Returning it keeps the invariant. |
| `MultirangeEntries.MultirangeRanges` | src/multirangetypes_mest.c:98-148 | The entries are the spans of consecutive runs that use up all ranges, as many as asked for or one for each range; the runs have the same length, but for one range more in each of the first ones. |
| `MultirangeEntries.SomeEntryFits` | src/multirangetypes_mest.c:1156-1222 | If one of the eight operators holds between the multirange and the query, some entry lies where the tree search looks and passes the leaf test. |
| `MultirangeEntries.LeafTestIsOperator` | src/multirangetypes_mest.c:1156-1222 | For a multirange of one range the leaf test is the operator; for the two kinds of containment it is the overlap, which they imply. |
| `RangeQuad.WindowKeeps` | src/multirangetypes_mest.c:740-794 | A range that respects the limits on its bounds lies in a quadrant that is not ruled out. |
| `RangeQuad.AdjacentSide` | src/multirangetypes_mest.c:1311-1375 | The side on which a bound adjacent to the argument must lie is exactly the side the comparison gives. |
| `RangeQuad.AdjacentKept` | src/multirangetypes_mest.c:1413-1437 | The rule on the previous centroid never rules out an adjacent bound that lies below it. |
| `RangeQuad.AdjacentQuadrantsKeep` | src/multirangetypes_mest.c:1413-1437 | A range adjacent on either side lies in a quadrant that is kept. |
| `RangeQuad.KeyKeeps` | src/multirangetypes_mest.c:477-798 | For each operator the quadrant of a range that is looked for is kept. |
| `RangeQuad.WindowIsSought` | src/multirangetypes_mest.c:557-717 | The limits on the bounds are met by exactly the ranges that are looked for, but for adjacency. |
| `RangeQuad.WindowExact` | src/multirangetypes_mest.c:737-794 | A quadrant is ruled out by the limits exactly if one of them leaves no position on its side of the centroid. |
| `RangeQuad.AdjacentExact` | src/multirangetypes_mest.c:607-662 | For a query with two finite ends, a quadrant is kept for adjacency exactly if the bound adjacent to an end lies on its side of the centroid and where the previous centroid sent the search. |
| `RangeQuad.KeyExact` | src/multirangetypes_mest.c:557-794 | For each operator, both of these together are the quadrants that a key keeps: nothing is visited that can be ruled out in this way. |
| `RangeSearch.InnerConsistent` | src/multirangetypes_mest.c:346-837 | Visits exactly the nodes of the quadrants kept by all keys, or all nodes of an all-the-same tuple, and hands the centroid down exactly if a key asks for adjacency. |
| `RangeSearch.SearchLeaf` | src/multirangetypes_mest.c:846-896 | Reports exactly the entries that pass the leaf test of every key. |
| `RangeSearch.Search` | src/multirangetypes_mest.c:801-836 | Reports exactly the heap tuples of entries that pass all leaf tests and lie below visited nodes only; every one of them that all keys look for is among these. |
| `RangeSearch.MultirangeFound` | src/multirangetypes_mest.c:346-896 | A multirange for which the operator holds is found, from extraction to leaf test, however its ranges were merged. |
| `RangeSearch.FoundForAllKeys` | src/multirangetypes_mest.c:116-120 | A multirange is in every possible answer for all lists of keys that hold for it exactly if it has a single entry: one range, or one entry asked for. |
| `RangeSearch.OneEntryFound` | src/multirangetypes_mest.c:846-896 | With a single entry, it is found whatever keys hold. |
| `RangeSearch.SeveralEntriesMiss` | src/multirangetypes_mest.c:864-893 | With several entries, the keys that it contains its own first range and its own last one both hold, and no entry of its passes both leaf tests. |
| `RangeSearch.TwoKeysMiss` | src/multirangetypes_mest.c:864-893 | A multirange of two ranges and two keys that both hold, for which no entry passes both leaf tests: it is missed. |
| `SplitByKey.GenericPickSplit` | src/mgist/mgistsplit.c:345-373 | The first half of the positions goes to the left, the second to the right, and neither is empty. |
| `SplitByKey.SplitHalf` | src/mgist/mgistsplit.c:586-601 | The positions before the middle go to the right and the others to the left; the right side is empty exactly for fewer than four tuples. |
| `SplitByKey.NullTuples` | src/mgist/mgistsplit.c:639-685 | Exactly the positions with a null, in order, and exactly the others. |
| `SplitByKey.FindDontCares` | src/mgist/mgistsplit.c:114-161 | Exactly the tuples that could go to the other side for nothing are marked, and counted once each. |
| `SplitByKey.RemoveDontCares` | src/mgist/mgistsplit.c:168-193 | What is left are the unmarked positions in their order. |
| `SplitByKey.SplitVector.UserPicksplit` | src/mgist/mgistsplit.c:416-581 | A finished division has both sides non-empty, and each tuple is where the operator class sends it, or in the first half if that sends all to one side, exchanged if that fits better to what is decided; a single free tuple goes to the side with the smaller penalties. Otherwise either exactly the free tuples, two or more, are set apart and the others are on their sides, or the column is of no use; that is so exactly if a column follows and the union keys are equal or one side could as well be on the other. |
| `SplitByKey.SplitVector.Merge` | src/mgist/mgistsplit.c:738-757 | The divided don't-cares are put behind the tuples set first, each on its side; together they are all positions. |
| `SplitByKey.SplitVector.SplitByKey` | src/mgist/mgistsplit.c:624-781 | A partition of the positions for any columns, nulls and don't-cares, with every tuple on the side where the columns send it. The last resort is used exactly if the last column is all null and no column before it can divide the tuples; the right side is empty exactly if it halves fewer than four. A column with nulls and keys sends exactly the nulls to the right. |
| `ColumnDivision.SingleColumnFollows` | src/mgist/mgistsplit.c:416-478 | With one column without nulls whose operator class sends tuples to both sides, a tuple is on the left exactly if the operator class sends it there. |
| `ColumnDivision.SettledStays` | src/mgist/mgistsplit.c:490-545 | With several columns the same holds of every tuple that the first column does not leave open, whatever the columns after it. |
| `ColumnDivision.InColumnSide` | src/mgist/mgistsplit.c:440-475 | The sides that a column forms hold exactly the positions that it sends there, also after an exchange. |
| `SplitByKey.ComparePenalties` | src/mgist/mgistsplit.c:201-237 | A tuple goes to the left exactly if its penalty there is not larger in the first column where the penalties differ. |
| `PageSplit.GistSplit` | src/mgist/mgist.c:1459-1541 | The pages fit and hold each tuple once, and they come from dividing the tuples by their columns, and each side again as long as it does not fit; or a tuple larger than a page is reported, exactly if there is one. Two or three stuck tuples use up any stack; if none of the tuples are stuck, as much stack as there are tuples is enough, and no page is empty. With one column and that much stack, it is used up exactly if, halving the nulls down to fewer than four at a time, the first group that overflows a page has two or three tuples; a group of one reports a tuple too large. |
| `PageSplit.FewNullsNeverStuck` | src/mgist/mgistsplit.c:653-666 | No tuples are stuck if every two or three of them with the same columns null, the last one among these, fit on a page. |
| `PageSplit.NoKeysHalve` | src/mgist/mgistsplit.c:653-666 | Tuples without any key cannot be divided by a column, whatever the operator class. |
| `PageSplit.CombinedColumn` | src/mgist/mgist.c:1506-1538 | With one column, the first failure of the right and then the left side is the one that the nulls of all tuples predict. |
| `PageSplit.FittingHasNoMisfit` | src/mgist/mgist.c:1506-1518 | Nulls that fit on a page together have no such group. |
| `PenaltyChoice.CompareRow` | src/mgist/mgistutil.c:448-502 | Comparing one tuple column by column with the best known penalties, of which those right of the first unknown are undefined: adopted, equal or worse, and the table holds the better row. |
| `PenaltyChoice.Choose` | src/mgist/mgistutil.c:375-543 | Whatever the random choices and with the early exit, the chosen tuple's penalties are lexicographically least. |
| `PenaltyChoice.ZeroRowIsLeast` | src/mgist/mgistutil.c:524-539 | Nothing beats a tuple without any penalty, so the early exit is safe. |
| `NodeBuffers.BlockTaken` | src/mgist/mgistbuildbuffers.c:466-481 | Taking the last freed block, or a new one at the end, for one buffer keeps every block of the file in exactly one place: free, or once in the chain of one buffer. |
| `NodeBuffers.BlockReleased` | src/mgist/mgistbuildbuffers.c:483-503 | Giving the topmost block of a buffer free keeps this. |
| `NodeBuffers.OneBuffer` | src/mgist/mgistbuildbuffers.c:337-464 | A change to one buffer and its own blocks leaves the contents of all other buffers as they were. |
| `BuildBuffers.BuildBuffers.Push` | src/mgist/mgistbuildbuffers.c:334-401 | The tuple is on top of its buffer, which has a page more exactly if it had none or no room on it; all other buffers are as they were; the buffer is put first in the emptying queue exactly if it is now more than half full and was not in it. |
| `BuildBuffers.BuildBuffers.Pop` | src/mgist/mgistbuildbuffers.c:403-464 | Returns the tuple pushed last, or says that the buffer is empty exactly if it is; whether buffers are queued, and all other buffers, stay. |
| `BuildBuffers.BuildBuffers.Load` | src/mgist/mgistbuildbuffers.c:219-242 | The topmost page is in memory and no buffer's content changes. |
| `BuildBuffers.BuildBuffers.Unload` | src/mgist/mgistbuildbuffers.c:244-268 | The page is in the file and no buffer's content changes; the file grows only if no block was free. |
| `BuildBuffers.BuildBuffers.UnloadAll` | src/mgist/mgistbuildbuffers.c:270-284 | No page is left in memory, although the list of loaded buffers may name buffers twice or without a page, and no buffer's content changes. |
| `BuildBuffers.BuildBuffers.GetNodeBuffer` | src/mgist/mgistbuildbuffers.c:110-177 | A new buffer is empty; an existing one keeps its content. |
| `BufferRelocation.BestPage` | src/mgist/mgistbuildbuffers.c:640-719 | The page chosen for a tuple is the first with lexicographically least penalties, with the early exit at a page without any. |
| `BufferRelocation.Relocate` | src/mgist/mgistbuildbuffers.c:529-742 | Each new page's buffer keeps what it had and gets its share of the split page's tuples in the order of taking. Every tuple goes to the first page with the lexicographically least penalties under the downlinks of that moment; only that page's downlink is adjusted for it, and covers it from then on. |
| `BufferRelocation.RelocationConserves` | src/mgist/mgistbuildbuffers.c:620-739 | Each tuple of the split page's buffer goes to exactly one of the new pages; the buffers of other pages are as they were. |

## Left out

- LinearSplit.LinearSplit: the formulas for the cost and the group size are arbitrary functions; the rounded group size is only raised to 1, as in the source (contrib/mobilitydb/tpoint_mest.c:849). What the cut rule makes of their values is modelled.
- MergeSplit.AdaptSplit: zero segments per box divides by zero in the source, so it is excluded.
- LinearSplit.PathSplit: a box count of zero divides by zero in the source, so it is excluded.
- Boxes have real coordinates, without NaN and infinities, and except in `MergeGreedy` penalties are arbitrary real functions. MEOS is not part of this model: the common part of two boxes is formed from the larger lower and the smaller upper bounds, as it is for boxes that touch, which neighbouring runs always do. Time is measured in minutes, as the code divides (contrib/mobilitydb/tpoint_mest.c:529-530), not in seconds as its comment says.
- VacuumRun.VacuumLeafPage: the pending list of redirects, statistics, vacuum of a leaf root and of redirects and placeholders (src/mspgist/mspgvacuum.c:403-616, 684-794) are not modelled.
- VacuumRun.RedoVacuumLeaf, MoveLeafs.RedoMoveLeafs, AddLeaf.RedoAddLeaf: the record is a value, without its byte encoding; a page is replayed if its LSN is older than the record's.
- LeafPlace.AddNewItem: whether the tuple fits, and whether it fits in the place of a placeholder, are given, because the byte sizes of tuples are not part of this model of pages.
- LeafPlace.AddOrReplaceTuple: that the counter knows of a placeholder is asserted in the source and required here.
- MoveLeafs.Move: the sorting of offsets is an ordered insertion instead of `qsort`, and the page that takes the chain is given.
- AddNode, SplitTuple and PickSplit records and their replay (src/mspgist/mspgxlog.c:283-748) are not modelled; their effect on the text tree is.
- TextInsert.DoPickSplit: offsets, chain links and the redirect on the two leaf pages are not part of it; which page each chain goes to, and that the chains fit there, is.
- TextDescend.AddLeafTuple: acts on a chain as a list; the page and its links are in `AddLeaf`.
- TextDescend.MoveLeafs: acts on a chain as a list; the pages are in `MoveLeafs`.
- The text tree is a value with the path to the current node, so pages, parities, redirects and concurrent inserters of SP-GiST are not part of it.
- TextDescend.Insert: sizes of leaf tuples are an arbitrary monotone function in which alignment hides fewer than ten bytes, two empty tuples fit on a page, and free space is what it may be; values other than the key (INCLUDE columns) are left out. The retry after a failed lock is left out.
- TextSearch.Walk: collation-aware comparison, the nulls tree and redirects are left out; zero labels of trees from old servers do not occur, because text holds no zero byte.
- The GiST protocol works on entries with keys in an arbitrary preorder; each page visit under one lock is one step. Page deletion and vacuum (src/mgist/mgistvacuum.c), pruning of killed tuples, index builds without LSNs, pins and errors in the middle of a step are left out.
- GistScan.NoEntryMissed: one scan against any number of inserters; entries inserted after it began may be reported or not.
- NearestSearch.Search: on a tree that does not change; the recheck flags and index-only data are left out. The table's entry of a tuple already returned points to a freed item in the source (src/mgist/mgistget.c:537-562, 724); comparing with it may give any answer in the model.
- NearestSearch.ScanOpaque.ScanPage: right links of concurrent splits are left out; following them is in `GistScan`.
- RangeSearch.InnerConsistent: nodes without a centroid and the fifth quadrant, both for empty ranges, are left out.
- RangeSearch.MultirangeFound: equality and element queries, empty ranges, multiranges and queries, nodes without a centroid and the canonical form of discrete ranges are left out. That entries below a centroid's node lie in its quadrant is what PostgreSQL's picksplit makes sure of; picksplit is not part of this model.
- SplitByKey.SplitVector.UserPicksplit: the operator class is given by its answers, which depend on the tuples, the column and the tuples already decided for each side; union keys are not formed, they are known by their tuples. The offset arrays are sequences, and the repair of invalid last offsets for old operator classes is left out.
- PageSplit.GistSplit: the stack is a number of nested calls; union keys of the pages are left out. With several columns nothing is said about whether stuck tuples, if there are any, get isolated.
- BuildBuffers.BuildBuffers.Push: pages hold tuples with their aligned sizes instead of bytes; the temporary file has fewer than 4294967295 blocks. PostgreSQL's header with the space macros is not part of this model: a page lacks space if the tuple is larger than what is free, and a buffer is half full if it has more pages than half its number.
- BufferRelocation.Relocate: what the operator class says of a downlink and a tuple is given, with the promise that an adjusted downlink covers the new tuple and all it covered before.
- PenaltyChoice.Choose: penalties are given for all tuples and columns, with infinity for a null against another key; random bits are arbitrary.
- The buffering build's insertions and parent map (src/mgist/mgistbuild.c), its levels and emptying order, effective-area simplification, geometry serialization, and statistics, options and catalog code are left out.
