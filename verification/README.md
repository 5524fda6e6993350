# Verified model of the mpiP profiling core

mpiP records, for every MPI call site of every thread and rank, how often it was called and how much
time and data it took, merges these records, and finds the source lines of the call sites. This project
models the three parts of it that carry state across many operations, and proves what they keep over all
inputs and all runs.

**The address-range map** (`mpiP/pc_lookup_dwarf.c`). `RangeTree` says what a tree stands for: its
in-order ranges, its colours and the path above a subtree. `Rebalance` states each rebalancing move on
such a subtree and path. `AddrRangeMap` is the tree in memory, with nodes whose parent and child links,
colours and ends are overwritten in place; a ghost tree is tied to the memory by `Split`, which says
that all links agree with it. `RangeSearch` says what adding, patching and searching mean for the sorted
sequence of ranges. `Insertion` has the whole addition as one function of the shape of the tree, and the
tree in memory becomes exactly what it says. `LineTables` puts these together for line tables, with
`LeftEnd` for what rebalancing does at the left end of a tree. A tree stays red-black under additions,
an addition aborts exactly when some stored range overlaps, and a search agrees with a linear scan and
takes logarithmically many steps. A patched line table whose entries differ answers every query with the
nearest entry at or below it if and only if, before patching, the uppermost node at address zero was the
last in order of those at zero (`OnTop`, a function of the entries). With up to two entries at zero it
always is. With more than others can bear, and in particular with three or more and nothing else, it is
not, and the answers are wrong, because `maxAddress - 1` wraps around. In between the order of the
entries decides. So it does at a shared end of two functions, where the upper one of the two answers
(`EntryOrder`).

**The lock-free list** (`mpiP/mpiP-tslist.c`). `TsList` is a state machine with one step for every
access to shared memory, for any number of appenders and one dequeuer, and freed addresses may be handed
out again. Its invariant is proved for every step, and from it, over every interleaving, that values
leave in the order of the tail swaps, that nothing is lost or doubled, and that no freed element is
touched. `Dequeuing` shows that a dequeue returns, with the value that was first. The comment at line 91
waits until the link appears, while line 92 tests the opposite. The results in `TsList` are for the
documented reading. `WaitReadings` is about the text as written. It does the same as long as the swap
does not fail. As long as no append swaps the tail, the code as written is safe if and only if every
unfinished append is about to link right behind the head; for one single call, if and only if none is
about to link behind the first element; and once swaps are let in, no state is safe. When the swap has
failed, nothing is lost if and only if the dequeuer, once past the loop, reads a link that is there. If
the link is there when the loop is reached, the loop never ends; if the link is missing when it is read,
all remaining elements are lost for good; and if the append writes it just between the test and the
read, all is well.

**The statistics pipeline.** `HashTable` is the chained table with its buckets and links; `Dictionaries`
shows that over any run it answers as a finite map from what its comparator compares, and `Comparators`
what that is for each comparator in use, which is why the modules above it use maps. `CallsiteStats`
says what recording and merging mean and proves the laws on which everything else rests; `ThreadStats`
has the records and tables that are updated in place and the bracket around nested MPI calls; `Trails`
says what is due when the steps of many threads interleave, and `RankStats` has the threads of a rank
and their merging into one table. `SourceIds` has the two caches of the collector and the ids of call
sites. `Grouping` shows that records meet under ids exactly when they share operation and stack;
`Aggregation` proves that all tables of a report have the same grand total and do not depend on the
order of arrival; `Collector` has the tables as they are filled in place, with the bound on `siteData`.
`Reports` joins the stages: every table of a report is what the events of all ranks amount to.
`Histogram` has the bins of message sizes and the merging of the threads' tables of them, which counts
again in every report what an earlier one has counted. `Sequences`, `Folds`, `Powers`, `Comparing` and
`Options` hold what several of these share.

Doubles are exact reals here, `DBL_MAX` as the value of a minimum is `Unset`, and addresses are 64-bit
with the wrap-around of `maxAddress - 1` written out. Source lookup is an arbitrary function of the
program counter.

The comments at `mpiP/mpiPi.c:189-191` and `mpiP/mpiP-callsites.c:303-305` say that several program
counters of one source line share a call-site id. When stacks are reported, the comparator of the id
cache compares the program counters too, so they do not; the model follows the code, and
`SameIdIffSameStack` states the consequence.

## Model

| member | source | states |
|---|---|---|
| RangeTree.PlugRanges | mpiP/pc_lookup_dwarf.c:321-469 | putting a subtree back under its path gives the ranges before it, its own and those after it, in order |
| RangeTree.PlugShape | mpiP/pc_lookup_dwarf.c:403-468 | the whole tree is balanced and free of red-red edges exactly when path and subtree are, with the same black count |
| RangeSearch.InsertRangeSorted | mpiP/pc_lookup_dwarf.c:357-399 | a range that is accepted leaves the in-order sequence sorted, each end at or before the next start |
| RangeSearch.OverlapsMeans | mpiP/pc_lookup_dwarf.c:357-399 | the overlap test of an addition: two ranges that are not points share an address, ends excluded, or a point lies strictly inside; two points never overlap |
| RangeSearch.InsertRangeElements | mpiP/pc_lookup_dwarf.c:357-399 | an addition adds exactly the new range |
| RangeSearch.PlaceIsInsertion | mpiP/pc_lookup_dwarf.c:357-399 | one root-to-leaf descent stops early if and only if some stored range overlaps, and otherwise ends where the sorted order puts the range |
| RangeSearch.AddAllSorts | mpiP/pc_lookup_dwarf.c:321-469 | any run of additions in any order is refused exactly when two of the ranges overlap, and otherwise leaves all of them, once each, sorted |
| RangeSearch.LookupIsScan | mpiP/pc_lookup_dwarf.c:474-512 | the search finds something exactly when a linear scan over the closed ranges would, and then the information of a range that contains the address |
| RangeSearch.LookupIsUppermost | mpiP/pc_lookup_dwarf.c:474-512 | of several ranges that contain the address the search answers with the uppermost: no range on the way down to it contains the address |
| RangeSearch.PatchedRanges | mpiP/pc_lookup_dwarf.c:600-646 | the recursion with its bounds rewrites each end to just below the start of the next range in order |
| RangeSearch.PatchedShape | mpiP/pc_lookup_dwarf.c:600-646 | patching changes neither the nodes nor the balance nor the colours |
| RangeSearch.PatchTiles | mpiP/pc_lookup_dwarf.c:651-667 | after patching each end plus one is the next start, up to the maximum, if and only if no range but the first starts at zero |
| RangeSearch.PatchSeqCovers | mpiP/pc_lookup_dwarf.c:600-667 | a patched range contains an address exactly when it is the last one that starts at or below it |
| LineTables.PatchedLookup | mpiP/pc_lookup_dwarf.c:651-679 | with different information at every range, a search in the patched tree is a predecessor query on the starts for every address below the maximum, if and only if the uppermost node at zero is the last of those at zero |
| LineTables.OnTopAnswers | mpiP/pc_lookup_dwarf.c:600-679 | where that is so, the predecessor query holds whatever the information |
| LineTables.NotOnTopMisleads | mpiP/pc_lookup_dwarf.c:643 | where it is not, the search at address zero stops at a range that is not the last at zero |
| LineTables.PointsAccepted | mpiP/pc_lookup_dwarf.c:571-593 | entering line addresses as points never aborts, whatever their order and repetition |
| LineTables.NearestMeans | mpiP/pc_lookup_dwarf.c:571-593 | the answer that is promised: the greatest entered address at or below the query, and of several entries there the first entered |
| LineTables.LineTable | mpiP/pc_lookup_dwarf.c:571-679 | after entering points in any order and patching, every search gives the promised answer, and nothing at the maximum, if zero was on top before patching; and if it was not, and entries differ, a search at zero gives a wrong one |
| LineTables.FewZerosOnTop | mpiP/pc_lookup_dwarf.c:357-468 | with at most two entries at zero, of which the second is hung below the first, zero is on top |
| LineTables.ZerosNeedOthers | mpiP/pc_lookup_dwarf.c:357-468 | if zero is on top, the entries at zero are no more than twice the square of the greatest power of two that is not above the number of others plus one |
| LineTables.LoadedOnTop | mpiP/pc_lookup_dwarf.c:357-468 | so whether zero is on top is known from counting the entries when at most two, or too many for the others, are at zero |
| LineTables.OnlyZerosMislead | mpiP/pc_lookup_dwarf.c:643 | with three or more entries, all at zero, every tree that additions can build answers every query with the entry at its root, which was not entered first; of three, with the second |
| EntryOrder.OrderMatters | mpiP/pc_lookup_dwarf.c:321-469 | of the same four entries, three of them at zero, zero is on top in one order and not in another |
| EntryOrder.SearchAfterRun | mpiP/pc_lookup_dwarf.c:321-512 | after any run of additions a search finds something exactly if some entry contains the address, and then answers with such an entry, the uppermost in the tree built from the entries |
| EntryOrder.SharedEndOfTwo | mpiP/pc_lookup_dwarf.c:729-764 | at the shared end of two neighbours, alone in the map, the first entered answers |
| EntryOrder.SharedEndsOfThree | mpiP/pc_lookup_dwarf.c:729-764 | of three neighbours entered in ascending order, the second answers at both its ends, though the first was entered before it |
| Insertion.RebalancedMeans | mpiP/pc_lookup_dwarf.c:410-468 | the rebalancing loop as a function gives a red-black tree with the same ranges in order |
| Insertion.AddedMeans | mpiP/pc_lookup_dwarf.c:321-469 | addition as a function is refused exactly for an overlap, and otherwise gives a red-black tree with the range inserted at its sorted place |
| Insertion.ShapeAdded | mpiP/pc_lookup_dwarf.c:321-469 | the shape, colours and ranges after an addition follow from those before, whatever the nodes |
| Insertion.BuiltMeans | mpiP/pc_lookup_dwarf.c:321-469 | the tree that a run of additions builds is a function of the ranges; it is a red-black tree of the sorted ranges, and exists exactly if no two overlap |
| LeftEnd.NewLeafBare | mpiP/pc_lookup_dwarf.c:357-399 | a new node that comes first has no child, and one that does not come second is not hung below the first |
| LeftEnd.RecolouredBare | mpiP/pc_lookup_dwarf.c:420-427 | recolouring leaves a childless first node childless |
| LeftEnd.TurnedOutBare | mpiP/pc_lookup_dwarf.c:431-435 | so does rotating an inner grandchild outward |
| LeftEnd.TurnedDownBare | mpiP/pc_lookup_dwarf.c:436-438 | so does turning the grandparent down |
| RangeSearch.HeightBound | mpiP/pc_lookup_dwarf.c:474-512 | a red-black tree of n ranges is at most 2 log2(n + 1) high |
| Rebalance.NewLeaf | mpiP/pc_lookup_dwarf.c:339-352 | a red leaf hung into a red-black tree gives the state from which rebalancing starts |
| Rebalance.RecolourShape | mpiP/pc_lookup_dwarf.c:420-427 | recolouring keeps the loop's invariant two levels up and lowers its measure |
| Rebalance.RecolourOrder | mpiP/pc_lookup_dwarf.c:420-427 | recolouring changes neither the order of the ranges nor the nodes |
| Rebalance.TurnOutShape | mpiP/pc_lookup_dwarf.c:431-435 | rotating an inner grandchild outward keeps the loop's invariant with a red parent |
| Rebalance.TurnOutOrder | mpiP/pc_lookup_dwarf.c:431-435 | and keeps the order of the ranges and the nodes |
| Rebalance.TurnDownShape | mpiP/pc_lookup_dwarf.c:436-438 | repainting and turning the grandparent down restores the balance under a black parent |
| Rebalance.TurnDownOrder | mpiP/pc_lookup_dwarf.c:436-438 | and keeps the order of the ranges and the nodes |
| Rebalance.RotationOrder | mpiP/pc_lookup_dwarf.c:236-314 | a rotation in either direction keeps the in-order sequence |
| Rebalance.BlackenedIsRedBlack | mpiP/pc_lookup_dwarf.c:467-468 | painting the root black at the end gives a red-black tree |
| AddrRangeMap.SplitIsWhole | mpiP/pc_lookup_dwarf.c:186-190 | memory seen as a subtree and the path above it is the memory of the whole tree |
| AddrRangeMap.SplitKin | mpiP/pc_lookup_dwarf.c:416-445 | the links to parent, grandparent and uncle that an iteration follows exist and are those of the path |
| AddrRangeMap.TurnedLeftSplits | mpiP/pc_lookup_dwarf.c:249-272 | the link updates of a left rotation, seen from the path, rotate the ghost tree and leave all other links in agreement |
| AddrRangeMap.TurnedRightSplits | mpiP/pc_lookup_dwarf.c:290-313 | the same for a right rotation |
| AddrRangeMap.AddrRangeMap.LeftRotate | mpiP/pc_lookup_dwarf.c:236-273 | the right child takes the place of the node, with every link of the nodes involved and the root as they are afterwards, and nothing else changed |
| AddrRangeMap.AddrRangeMap.RightRotate | mpiP/pc_lookup_dwarf.c:277-314 | the mirror image |
| AddrRangeMap.AddrRangeMap.FindPlace | mpiP/pc_lookup_dwarf.c:357-399 | the cursor loop ends at the place of the descent, or at an overlap |
| AddrRangeMap.AddrRangeMap.Step | mpiP/pc_lookup_dwarf.c:411-466 | one iteration keeps the invariant and the order and lowers the measure; all dereferences and the rotations' asserts are justified |
| AddrRangeMap.AddrRangeMap.Rebalance | mpiP/pc_lookup_dwarf.c:410-468 | the loop terminates in a valid red-black tree with the same ranges in order, the one that rebalancing as a function gives |
| AddrRangeMap.AddrRangeMap.Add | mpiP/pc_lookup_dwarf.c:321-469 | aborts if and only if a stored range overlaps the new one, with nothing changed; otherwise the tree is valid, sorted, has the new range at its place, and is in shape and colours exactly what addition as a function gives |
| AddrRangeMap.AddrRangeMap.Find | mpiP/pc_lookup_dwarf.c:474-512 | the search as a function of the tree, in at most 2 log2(n + 1) iterations; it answers with the uppermost node whose range contains the address |
| AddrRangeMap.AddrRangeMap.PatchRangesAux | mpiP/pc_lookup_dwarf.c:600-646 | patches exactly the subtree and returns its lowest address |
| AddrRangeMap.AddrRangeMap.PatchRanges | mpiP/pc_lookup_dwarf.c:651-667 | every range ends just below the next one, and the tree stays valid |
| LineTables.LoadLines | mpiP/pc_lookup_dwarf.c:545-667 | a line table loaded into an empty map is never refused; then every search gives the promised answer if the entries, in their order, put zero on top, and with different information only then |
| TsList.SwapInv | mpiP/mpiP-tslist.c:46 | a tail swap keeps the list's invariant |
| TsList.LinkInv | mpiP/mpiP-tslist.c:47 | writing the link keeps the list's invariant |
| TsList.DeqInv | mpiP/mpiP-tslist.c:50-102 | each step of the dequeuer keeps the list's invariant |
| TsList.StepInv | mpiP/mpiP-tslist.c:38-102 | so does every step of any thread, with the wait as documented |
| TsList.RunInv | mpiP/mpiP-tslist.c:38-102 | and every run |
| TsList.FirstInFirstOut | mpiP/mpiP-tslist.c:38-102 | over every interleaving, values returned, in hand and still queued are exactly those appended, in tail-swap order, and every queued element is linked from the one before it or its link is about to be written |
| TsList.NoUseAfterFree | mpiP/mpiP-tslist.c:46-101 | over every interleaving nothing is read or written through freed memory, and no two appends hold the same predecessor |
| TsList.QuietWalk | mpiP/mpiP-tslist.c:104-112 | with no append or dequeue half done, first and next visit exactly the values not yet returned, in order |
| Dequeuing.DequeueReturns | mpiP/mpiP-tslist.c:50-102 | whatever the appenders do, a dequeue has returned after at most ten more steps of its own, not counting those in the documented wait while the link is missing |
| Dequeuing.DequeueDelivers | mpiP/mpiP-tslist.c:60-102 | once it has read the first link it returns, and just the value that was first then |
| Dequeuing.EmptyHanded | mpiP/mpiP-tslist.c:55-58 | a dequeue from an empty list ends at once with nothing changed; from any other it goes on |
| Dequeuing.LinkMissing | mpiP/mpiP-tslist.c:60-63 | if the link behind the head is still to be written, the dequeue ends with nothing returned and nothing changed |
| Dequeuing.QuietDequeue | mpiP/mpiP-tslist.c:50-102 | from a quiet list a dequeue by itself returns exactly the first value within eleven steps and leaves the rest in order and linked, and returns nothing only if the list is empty |
| Dequeuing.AppendDelivers | mpiP/mpiP-tslist.c:38-48 | whatever happens between its steps, an append puts the value it was called with, once, at the end |
| WaitReadings.WaitEnds | mpiP/mpiP-tslist.c:91-94 | the documented wait always has an append that will end it |
| WaitReadings.AsWrittenUntilWait | mpiP/mpiP-tslist.c:83-97 | on runs in which the swap never fails the code as written is the code as documented |
| WaitReadings.AsWrittenUndisturbed | mpiP/mpiP-tslist.c:50-102 | from a state with no dequeue under way and every unfinished append right behind the head, no run without a tail swap makes the swap fail, and the code as written is right |
| WaitReadings.SafeExactly | mpiP/mpiP-tslist.c:38-102 | that condition is exact: if and only if it holds, no run without a tail swap gets into the wait, and no such run loses anything |
| WaitReadings.SafeCallExactly | mpiP/mpiP-tslist.c:50-102 | for a single call without a tail swap, the swap can fail if and only if some append is about to link behind the first element |
| WaitReadings.SwapsEndanger | mpiP/mpiP-tslist.c:38-102 | with tail swaps let in, some run loses elements from every state without a dequeue under way |
| WaitReadings.SwapCanFail | mpiP/mpiP-tslist.c:77-94 | from an empty list runs lead to a failed swap with the link missing, and to one with the link there |
| WaitReadings.AsWrittenExactly | mpiP/mpiP-tslist.c:38-102 | a run of the code as written loses nothing, and touches nothing freed, if and only if the dequeuer, whenever it is past the loop, reads a link that is there |
| WaitReadings.IntactMeans | mpiP/mpiP-tslist.c:38-102 | intact means that no value is lost, doubled or out of order, each queued element is linked or about to be, and nothing freed was touched |
| WaitReadings.LostForever | mpiP/mpiP-tslist.c:55-63 | once the head has lost its elements, no dequeue ever returns anything again, although elements are queued |
| WaitReadings.AsWrittenRecovers | mpiP/mpiP-tslist.c:92-96 | after a failed swap it still goes well if the append writes the link between the test and the read |
| WaitReadings.AsWrittenLoses | mpiP/mpiP-tslist.c:92-96 | as written, with the link not there yet and three undisturbed steps of the dequeuer, the head loses all remaining elements with nobody to link them |
| WaitReadings.AsWrittenFaults | mpiP/mpiP-tslist.c:92-101 | after two more such steps the awaited append writes to freed memory |
| WaitReadings.AsWrittenSpins | mpiP/mpiP-tslist.c:92-94 | as written, with the link there when the loop is reached, the loop never ends, whatever other threads do |
| HashTable.BucketDecides | mpiP/mpiP-hash.c:124-139 | an equal element is in the table exactly when it is in the bucket of the key |
| HashTable.NoTwoEqual | mpiP/mpiP-hash.c:92-100 | no two elements of the table compare equal |
| HashTable.HashTable.constructor | mpiP/mpiP-hash.c:27-48 | an empty table of at least two buckets |
| HashTable.HashTable.Scan | mpiP/mpiP-hash.c:161-176 | the chain loop finds the first equal entry and the entry in front of it, or there is none in the table |
| HashTable.HashTable.Search | mpiP/mpiP-hash.c:113-141 | an element that compares equal, or none exists |
| HashTable.HashTable.Insert | mpiP/mpiP-hash.c:72-110 | adds the element and counts it, or returns one and changes nothing if an equal one is there |
| HashTable.HashTable.Delete | mpiP/mpiP-hash.c:144-179 | takes exactly one equal element out of its chain, or none exists |
| HashTable.HashTable.Gather | mpiP/mpiP-hash.c:182-206 | fills exactly `count` slots with every element once |
| HashTable.HashTable.Drain | mpiP/mpiP-hash.c:209-231 | returns every element once and leaves the table empty |
| Dictionaries.RunRefines | mpiP/mpiP-hash.c:72-231 | over any run of insertions, searches, deletions, gatherings and drainings the answers are those of a finite map |
| Dictionaries.Perform | mpiP/mpiP-hash.c:72-231 | each operation of the table in memory is a step of such a run |
| Dictionaries.PerformAll | mpiP/mpiP-hash.c:72-231 | any sequence of operations on an empty table in memory gives the answers of the map |
| Comparators.ThreadHashKey | mpiP/mpiP-stats.c:77-88 | the hash loop computes the exclusive or over the stack levels |
| Comparators.HashStackIs | mpiP/mpiP-stats.c:77-88 | the sum over the levels is the exclusive or of their words |
| Comparing.XorAllChange | mpiP/mpiP-stats.c:77-88 | every word tells: changing one changes the result by just the difference |
| Comparators.WhatIsCompared | mpiP/mpiP-stats.c:90-110 | the comparators of the record tables in terms of the fields: operation, rank and stack; operation, id and rank; operation and id; operation |
| Comparators.ThreadTableLawful | mpiP/mpiP-stats.c:77-110 | the thread tables' comparator decides by operation, rank and stack, and equal keys hash alike |
| Comparators.SrcTableLawful | mpiP/mpiPi.c:24-47 | the collector's table by operation, id and rank, likewise |
| Comparators.SrcIdTableLawful | mpiP/mpiPi.c:50-72 | the table by operation and id, likewise |
| Comparators.OpTableLawful | mpiP/mpiPi.c:281-301 | the table by operation, likewise |
| Comparators.PcCacheLawful | mpiP/mpiP-callsites.c:122-144 | the cache of source locations, by program counter |
| Comparators.IdCacheLawful | mpiP/mpiP-callsites.c:147-214 | the id cache, by the frames that can be built for a stack |
| Comparators.StacklessCacheLawful | mpiP/mpiP-callsites.c:154-158 | the id cache when stacks are not reported, by the number of the operation |
| CallsiteStats.UpdateSound | mpiP/mpiP-callsites.c:52-78 | for non-negative durations the asserted sums stay non-negative |
| CallsiteStats.UpdatesCommute | mpiP/mpiP-callsites.c:52-78 | two events can be recorded in either order |
| CallsiteStats.UpdateMerge | mpiP/mpiP-callsites.c:52-99 | recording into a merged record is recording into one of its parts |
| CallsiteStats.MergeLaws | mpiP/mpiP-callsites.c:82-99 | merging is commutative and associative, keeps soundness, and a fresh record is its neutral element |
| CallsiteStats.RecordAllSums | mpiP/mpiP-stats.c:193-236 | what a table says about a key: an entry exactly if there was an event, their number, what time, data, IO and RMA add up to, and how many messages reached the threshold |
| CallsiteStats.OneEvent | mpiP/mpiP-callsites.c:52-78 | a record after its first event, field by field |
| CallsiteStats.RecordAllExtremes | mpiP/mpiP-callsites.c:61-71 | and the shortest and longest event, the least and most data sent, the least and most IO |
| CallsiteStats.RecordAllPermutation | mpiP/mpiP-stats.c:193-236 | the table does not depend on the order of events |
| CallsiteStats.MergeIsRecording | mpiP/mpiP-stats.c:282-307 | merging in the table of some events is recording these events |
| CallsiteStats.MergeIsOneTable | mpiP/mpiP-mt-stats.c:142-162 | merging all threads' tables gives the table that would have been fed all events, in any interleaving |
| ThreadStats.Callsite.constructor | mpiP/mpiP-callsites.c:38-50 | a new record is neutral for merging |
| ThreadStats.Callsite.ResetStat | mpiP/mpiP-callsites.c:20-36 | clears all statistics but the RMA sum |
| ThreadStats.Callsite.Update | mpiP/mpiP-callsites.c:52-78 | updates the record in place as recording means, within the asserts |
| ThreadStats.Callsite.Merge | mpiP/mpiP-callsites.c:82-99 | merges in place as merging means, within the asserts |
| ThreadStats.NothingBelowZero | mpiP/mpiP-stats.c:177-206 | with the counter below zero nothing in a whole tree of calls is recorded |
| ThreadStats.OutermostOnly | mpiP/mpiP-wrappers.c:32-54 | of any tree of nested calls exactly the outermost is recorded, if profiling is enabled at both times it is asked and the duration is not negative |
| ThreadStats.OutermostCounts | mpiP/mpiP-wrappers.c:32-54 | a tree of calls adds exactly one under the key of the outermost call if that is enabled both times and took no negative time, and nothing otherwise or elsewhere |
| ThreadStats.ThreadStats.CsUpd | mpiP/mpiP-stats.c:193-236 | records the event under its key when profiling is on, and otherwise nothing |
| ThreadStats.ThreadStats.Profile | mpiP/mpiP-wrappers.c:32-54 | the bracket around any tree of nested calls returns the counter to its value; from zero the table gets the outermost event if profiling is enabled both times and the duration is not negative, and from below zero nothing |
| Trails.ByThread | mpiP/mpiP-stats.c:177-206 | in any interleaving, the counter of a thread and what is due for it are what its own steps make them |
| Trails.TraceMeans | mpiP/mpiP-wrappers.c:30-54 | the steps of a call with all calls inside bring the counter back and make due exactly what the bracket records |
| Trails.InterleavedCalls | mpiP/mpiP-wrappers.c:30-54 | however the calls of any threads interleave, even inside calls, the table of what is due is that of the outermost calls, thread after thread |
| Trails.InterleavedCounts | mpiP/mpiP-wrappers.c:30-54 | and each outermost call that is enabled both times and took no negative time is counted once under its key, and nothing else is |
| Trails.DueIsEnded | mpiP/mpiP-wrappers.c:42-52 | what is due is, in order, the events of the calls that ended since the last reset with their thread having left as many calls as it entered, enabled both times and with no negative duration |
| Trails.DueTable | mpiP/mpiP-stats.c:193-236 | and their table counts exactly these under every key |
| Trails.DueTimed | mpiP/mpiP-wrappers.c:47-51 | nothing due has a negative duration, as the recording asserts |
| ThreadStats.ThreadStats.Gather | mpiP/mpiP-stats.c:238-242 | every record once |
| ThreadStats.ThreadStats.CsReset | mpiP/mpiP-stats.c:244-258 | an empty table |
| ThreadStats.ThreadStats.CsMerge | mpiP/mpiP-stats.c:282-307 | the table becomes the merge of both, key by key |
| RankStats.MtStats.GetTls | mpiP/mpiP-mt-stats.c:103-140 | each thread gets the same statistics every time, its own, and joins the list once |
| RankStats.MtStats.ConcludeThread | mpiP/mpiP-wrappers.c:42-52 | the end of a call by a thread records the event in this thread's table if its counter is zero, profiling is enabled both times and the duration is not negative, and changes no other table |
| RankStats.MtStats.EndThread | mpiP/mpiP-mt-stats.c:14-22 | a thread that ends leaves its table in the list and records no more; its number can be taken by a new one |
| RankStats.MtStats.Merge | mpiP/mpiP-mt-stats.c:142-162 | the rank's table becomes the merge of all threads' tables, which stay as they are, so merging again changes nothing |
| RankStats.MtStats.Run | mpiP/mpiP-mt-stats.c:102-272 | over any run of steps of any threads, interleaved also inside calls, with mergings and resets, a merging leaves the rank with the table of the outermost enabled calls that ended since the last reset, each counted once under its key |
| RankStats.MtStats.CsReset | mpiP/mpiP-mt-stats.c:252-272 | all tables are empty and the threads still listed |
| SourceIds.StrCmpZero | mpiP/mpiP-callsites.c:165-182 | comparison of strings is zero exactly for equal strings |
| SourceIds.CompareZero | mpiP/mpiP-callsites.c:147-213 | on keys built here the id comparator is zero exactly for equal keys, so these hash alike, NULL file names included |
| SourceIds.FramesAreBuilt | mpiP/mpiP-callsites.c:306-327 | the keys built for a stack have names exactly where there is a program counter |
| SourceIds.HashKey | mpiP/mpiP-callsites.c:192-214 | the nested hash loops compute the exclusive or over names and lines |
| SourceIds.HashFramesIs | mpiP/mpiP-callsites.c:192-214 | and this is the exclusive or of all characters and lines of all levels |
| SourceIds.SameFrames | mpiP/mpiP-callsites.c:306-327 | two stacks build the same key exactly when they agree up to the first NULL |
| SourceIds.FramesMean | mpiP/mpiP-callsites.c:306-327 | a level before the first NULL has its program counter, and the file, function and line of its lookup; from there on everything is zero |
| SourceIds.NormalisedMeans | mpiP/mpiP-callsites.c:250-284 | a found file, function and line come back as they are; a name is "[unknown]" exactly if the lookup failed, the name is missing or is that very name, or the file is "??" |
| SourceIds.SameIdIffSameFrames | mpiP/mpiP-callsites.c:333-356 | over any run of queries and drains two queries get the same id exactly when their keys are the same with no drain between, so no id is reused |
| SourceIds.SameIdIffSameStack | mpiP/mpiP-callsites.c:296-357 | in terms of stacks: the same id exactly when they agree up to the first NULL and there was no drain between |
| SourceIds.StacklessIds | mpiP/mpiP-callsites.c:329-347 | without stacks the id is the number of the operation over any run of queries and drains, so different operations have different ids |
| SourceIds.SourceCache.QueryPc | mpiP/mpiP-callsites.c:232-290 | the cache never shows: file, function and line are those that the lookup finds, "[unknown]" exactly where it fails or a name is missing or the file is "??", remembered failures included |
| SourceIds.SourceCache.BuildFrames | mpiP/mpiP-callsites.c:308-327 | the key of a stack up to its first NULL |
| SourceIds.SourceCache.QuerySrc | mpiP/mpiP-callsites.c:296-357 | with stacks the cached id of equal frames, or the next number, kept for later; without stacks the number of the operation |
| SourceIds.SourceCache.DrainIds | mpiP/pcontrol.c:31-41 | the ids are forgotten but the counter goes on |
| Grouping.GroupsAreSelections | mpiP/mpiPi.c:183-239 | records meet in one row exactly when they share operation and stack, and rank where ranks are kept apart |
| Aggregation.TotalsAreSums | mpiP/mpiPi.c:244-248 | the global time, size, IO and RMA are those of all records merged |
| Aggregation.CountsAreSelections | mpiP/mpiPi.c:249-256 | the counts are those of the records that took time, and the messages and calls of the records that sent data |
| Aggregation.TaskTimesAddUp | mpiP/mpiPi.c:242-244 | the times of the ranks add up to the global time |
| Aggregation.SitesTotal | mpiP/mpiPi.c:196-239 | everything in a table of sites merged is everything in the records merged |
| Aggregation.OpTableMeans | mpiP/mpiPi.c:305-352 | the table of operations has a row exactly for the operations that have records, and it is what these amount to |
| Aggregation.SameTotals | mpiP/mpiPi.c:183-352 | the three tables of a report have the same grand total in every statistic, that of the records |
| Aggregation.TimeIsConserved | mpiP/mpiPi.c:183-352 | the time by rank, the global time and the times of all three tables add up to the time of the records |
| Aggregation.TotalsInAnyOrder | mpiP/mpiPi.c:242-256 | totals and times by rank do not depend on the order of records |
| Aggregation.SitesInAnyOrder | mpiP/mpiPi.c:437-463 | tables of sites from two orders agree up to a one-to-one renaming of ids and the order of `siteData` |
| Aggregation.OpsInAnyOrder | mpiP/mpiPi.c:321-348 | the table of operations depends neither on the order of records nor on the order of gathering |
| Aggregation.SitesHaveRoom | mpiP/mpiPi.c:220-238 | no more records meet at a site than there are ranks |
| Aggregation.TimesAddUp | mpiP/mpiPi.c:220-238 | the times kept in `siteData` are those of the records of the site, and add up to its time |
| Collector.BatchesOncePerRank | mpiP/mpiPi.c:437-463 | batches listed from the ranks' tables, with NULL-padded stacks, bring at most one record per rank, operation and stack |
| Collector.GatheredIsBatch | mpiP/mpiPi.c:367-476 | what a rank gathers from its table is such a batch |
| Collector.RoomForOneMore | mpiP/mpiPi.c:234-238 | before any further record is entered its row has a free slot |
| Collector.SiteTable.InsertAt | mpiP/mpiPi.c:212-239 | inserts a copy or merges, and appends the time within the bounds of `siteData` |
| Collector.Collector.InsertCallsiteRecord | mpiP/mpiPi.c:183-259 | all tables and totals go from what the earlier records say to what they and the new one say |
| Collector.Collector.InsertMPIRecords | mpiP/mpiPi.c:305-352 | afterwards the table of operations is what the records of each operation amount to, numbered from the operation |
| Collector.Collector.constructor | mpiP/mpiPi.c:424-435 | opens empty tables; time and size start from zero, and the other totals from what earlier reports left |
| Collector.Collector.MergeResults | mpiP/mpiPi.c:437-463 | after the local and all arriving batches the tables hold exactly their records, and the totals have grown by these |
| Collector.ArrivalOrder | mpiP/mpiPi.c:445-462 | batches may arrive in any order: the same operations, totals and times by rank, and the same sites up to renaming of ids |
| Reports.ChosenMeans | mpiP/mpiP-stats.c:193-236 | the records of any selection of keys in a table, merged, are one record into which the events of these keys are entered |
| Reports.AmountMeans | mpiP/mpiP-callsites.c:52-78 | and such a record has their number, sums and extremes |
| Reports.SelectionMeans | mpiP/mpiPi.c:183-352 | any selection of what the collector gets, by operation, rank, call site or all, merged, is what the events of all ranks that it is about amount to; and it is empty exactly if there are none |
| Reports.EventTestMeans | mpiP/mpiPi.c:183-239 | the events that a selection is about: those of an operation, of a rank, or of an operation and a stack up to its first NULL |
| Reports.SitesOfOps | mpiP/mpiPi.c:183-239 | without stacks every site is numbered from its operation |
| Reports.GatherResults | mpiP/mpiPi.c:716-727 | after any steps of its threads a rank gathers a listing of the table of the outermost enabled calls since the last reset, with their number under every key |
| Reports.GenerateReport | mpiP/mpiPi.c:749-754 | from the batches of all ranks: every row of the tables of operations and of sites, the time of each rank and the totals are what the events they are about amount to; the table of operations only without stacks, and then every site has the id of its operation there |
| Histogram.BinLabel | mpiP/mpiP-stats.c:47-66 | the printed ends are the first value of the bin and the last before the next |
| Histogram.LabelsFit | mpiP/mpiP-stats.c:59-62 | with the first bin in use, a label is within 32 bits exactly up to bin 27 |
| Histogram.LabelsPartition | mpiP/mpiP-stats.c:47-66 | every natural number is within exactly one label |
| Histogram.GetHistogramBin | mpiP/mpiP-stats.c:15-35 | the bin whose label contains the value; capped exactly when the value is beyond the last label |
| Histogram.IntsHaveBins | mpiP/mpiP-stats.c:118-129 | no 32-bit value is beyond the labels of the tables in use |
| Histogram.MessageStats.Update | mpiP/mpiP-stats.c:310-331 | adds to exactly the cell of the two bins, within the table |
| Histogram.MessageStats.Merge | mpiP/mpiP-stats.c:365-372 | adds every cell of another table to the same cell, within the table |
| Histogram.MessageStats.MergeThreads | mpiP/mpiP-mt-stats.c:142-162 | merging all threads adds what they have together; a cell is that sum if and only if it was empty before, since nothing is cleared |

## Left out

- LineTables.LoadedOnTop: between two entries at zero and too many, the order decides; there the condition is to run the additions (`OnTop`), and no shorter test is given.
- TsList.FirstInFirstOut: is about the wait as its comment describes it; the wait as written is in `WaitReadings`.
- TsList: weaker memory orders than sequential consistency, allocation failure, and release of the list.
- Histogram.BinLabel: labels are unbounded integers; `LabelsFit` says where 32 bits suffice. Custom intervals, which the code does not implement, and the conversion of a message size above 32 bits are not modelled.
- CallsiteStats.MergeLaws: floating-point rounding is not modelled; sums are exact.
- Minimum and maximum of RMA sizes, which merging and resetting do not handle.
- RankStats.MtStats.Merge: is about the tables of call sites; tables of message sizes are merged in `Histogram`, and cumulative time, clocks and timers are not modelled; the list of threads is a sequence here, justified by `QuietWalk`.
- RankStats.MtStats.Run: a step of a thread, a merging and a reset are each taken whole; what happens when a merging or a reset reads a table while its thread writes it is not modelled.
- Collector.Collector.InsertMPIRecords: goes through the sites in an arbitrary order, of which the sort by operation is one.
- Collector.Collector.MergeResults: failing allocation and the message passing itself are not modelled.
- SourceIds.SourceCache.QuerySrc: the id counter is unbounded; lookup is an arbitrary function of the program counter, and the build without any lookup is the one that always fails.
- The records of threads, ranks and the collector are kept in maps rather than in the chained tables; `Dictionaries` says why. Aliasing between a row of a table and its caller is not modelled there.
- Freeing of nodes, entries and tables (`AddrRangeMap_DestroyAux`, `h_close`), which would add easy members.
- Reading of DWARF, BFD, symbols and stacks, report printing, environment and argument parsing, and the generated wrappers beyond their common bracket.
