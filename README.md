# Traffic and working-set engine of the loop-nest analyzer, in Dafny

This project models the core of a static performance analyzer for loop nests. The analyzer
walks a program tree of flops, scalar and array events nested in loops and branches. For
each array it gathers:

- the flop counts;
- the loop-invariant accesses kept in registers ("state variables");
- the streamed accesses ("array variables");
- a working set: the union of the boxes of integer points the accesses touch;
- the memory traffic.

At every loop it decides whether the working sets of all arrays of the loop body fit in the
cache. If they fit, the traffic is the blocked working set, once per block. If they do not,
the traffic of one iteration is repeated once per iteration.

Two versions of the engine are modelled:

- `tools/post/analyze.py`, the current one. It weighs every contribution by the probability
  of the branch conditions that guard it. Word sizes, access scale factors and the cache size
  come from a machine table.
- `tools/post-new/analyze.py`, an older one. It counts every event in full, gives working
  sets a block count, counts 8 bytes per word against a fixed cache, and prints each loop's
  reuse report once.

Modules:

| module | file | what it holds |
|---|---|---|
| `Wrappers` | wrappers.dfy | `Option`, `Result` and the two errors the analyzer raises |
| `Program` | program.dfy | accesses with resolved integer indexes, events, conditions, loops, `split('.')[0]`, the text of an index tuple |
| `Box` | box.dfy | `accessSize`, as the cardinality of a union of finite point sets, with its union bound |
| `Conditions` | conditions.dfy | `TableCondsChecker`: the product of `p` or `1-p` along a condition chain |
| `Counters` | counters.dfy | the `FlopCount`, `StateVar` and `ArrayVar` classes and their algebra |
| `Unroll` | unroll.dfy | the unroll of a working set along a loop, shared by both versions |
| `PostAnalyze` | post_analyze.dfy | current version: `get_access_type`, `WorkingSet`, `TrafficRegion`, `Traffic` and the loop decision |
| `PostCollectors` | post_collectors.dfy | current version: the `collector` closures, as value functions plus methods that build the objects |
| `PostNewAnalyze` | post_new_analyze.dfy | older version: `reportReuse` and its `_reported` set, the counted `WorkingSet`, `Traffic` |
| `PostNewVisitors` | post_new_visitors.dfy | older version: the `visitor` closures |
| `Versions` | versions.dfy | how the two versions agree and where they differ |
| `Seqs` | seqs.dfy | three prefix facts used by loop proofs |

Each stateful part of the source is a class:

- The working sets, traffic regions, traffic objects and counters are classes whose methods
  update their fields in place, as the `+=`, `*=`, `consume` and `size` of the source do.
- A traffic region built by the reuse branch holds the working set whose list it was built
  over, as the source's region holds that very list. When the working set grows by `+=`, so
  do the region's accesses. Each traffic object's `SharesWs()` says which of its regions
  share its working set's list.
- The reuse reporter of the older version is a class holding the set of reported lines.
- Each loop of the source (the `(r, w)` scan, bucket sorting, bucket merging, the per-region
  scaling, the sibling sum) is a `while`/`for` loop with invariants. It is proved against a
  value function of the old state.

## Model

| member | source | states |
|---|---|---|
| `Box.MakeBox` | tools/post/analyze.py:50-52 | the box of an access has one interval per index dimension; a point `x` becomes `[x, x+1)` and a range `(lo, hi)` becomes `[lo, hi+1)` |
| `Box.IntervalMembership` | tools/post/analyze.py:51-52 | an integer is in a dimension's interval exactly when `lo <= x < hi+1`, so the upper bound is inclusive |
| `Box.BoxPointsMembership` | tools/post/analyze.py:50-52 | a point is in a box exactly when it has the box's rank and every coordinate lies in its interval |
| `Box.AccessPoints` | tools/post/analyze.py:50-52 | the points of an access's box are exactly the points the access touches |
| `Box.UnionMembership` | tools/post/analyze.py:53-54 | a point is in the union exactly when some access of the list touches it |
| `Box.SameAccessesSameUnion` | tools/post/analyze.py:53-54 | the union depends only on which accesses occur, not on their order or repetition |
| `Box.UnionAppend` | tools/post/analyze.py:53-54 | the union of a concatenation is the union of the two unions |
| `Box.DuplicateIdempotent` | tools/post/analyze.py:48-54 | repeating every access leaves `accessSize` unchanged: overlaps are not double-counted |
| `Box.IntervalCard` | tools/post/analyze.py:52 | an interval holds `hi + 1 - lo` points for a range `(lo, hi)` with `lo <= hi`, and none otherwise |
| `Box.BoxCardinality` | tools/post/analyze.py:52-54 | a box holds the product of its interval widths |
| `Box.UnionBound` | tools/post/analyze.py:53-54 | the union holds at most the sum of the box sizes |
| `Box.AccessSizeUnionBound` | tools/post/analyze.py:48-54 | `accessSize` is at most the sum of the individual box sizes |
| `Box.SingleAccessSize` | tools/post/analyze.py:48-54 | the size of one access is the size of its box |
| `Box.OverlapCountedOnce` | tools/post/analyze.py:48-54 | two ranges `[a, b]` and `[b, c]` sharing the point `b` measure `c - a + 1` points |
| `Box.UnionPoints` | tools/post/analyze.py:53-54 | the union of the boxes holds the points of every access's box |
| `Box.AccessSize` | tools/post/analyze.py:48-54 | `accessSize` of a non-empty list is at least the size of each access's own box |
| `Conditions.Sats` | tools/post/analyze.py:75-76 | checking a chain gives one probability per condition, or the error of a missing one |
| `Conditions.Weights` | tools/post/analyze.py:73-74 | the reference weight of each known condition: `p` when `when` holds, `1-p` otherwise |
| `Conditions.ReduceMulIsProduct` | tools/post/analyze.py:79 | the left fold of `*` from `acc` equals `acc` times the product |
| `Conditions.ProductAppend` | tools/post/analyze.py:79 | the product of a concatenation is the product of the products |
| `Conditions.ProductIsProbability` | tools/post/analyze.py:79 | a product of values in [0, 1] lies in [0, 1] |
| `Conditions.ProductZero` | tools/post/analyze.py:79 | one zero factor makes the product zero |
| `Conditions.SatsAreWeights` | tools/post/analyze.py:68-76 | the chain check succeeds exactly when every condition is in the table, and then it gives the reference weights |
| `Conditions.CheckCondsIsProduct` | tools/post/analyze.py:75-79 | `check_conds` succeeds exactly when every condition is known, and then equals the product of the weights |
| `Conditions.EmptyChainIsCertain` | tools/post/analyze.py:79 | the empty chain yields 1.0 |
| `Conditions.SatsFailIffMissing` | tools/post/analyze.py:68-76 | the chain check fails exactly when some condition is missing, and the error names the first missing one |
| `Conditions.CheckCondsFailsIffMissing` | tools/post/analyze.py:68-79 | `check_conds` raises exactly when some condition is missing from the table, naming the first one |
| `Conditions.CheckCondsAppend` | tools/post/analyze.py:75-79 | the probability of a concatenated chain is the product of the two chains' probabilities |
| `Conditions.CheckCondsIsProbability` | tools/post/analyze.py:73-79 | with table values in [0, 1], every chain's probability is in [0, 1] |
| `Conditions.CheckCondsZero` | tools/post/analyze.py:75-79 | a condition of weight 0 anywhere makes the whole chain 0 |
| `Conditions.IgnoreMakesCertain` | tools/post/analyze.py:80-83 | with the ignore flag every chain is certain, even one whose conditions are missing |
| `Conditions.TwoGuardsExample` | tools/post/analyze.py:68-79 | a chain `c1` taken (0.5) and `c2` not taken (0.6) has probability 0.2 |
| `Conditions.CheckCond` | tools/post/analyze.py:68-74 | succeeds exactly when the condition is in the table, else fails naming it; a table probability in [0, 1] gives a weight in [0, 1] |
| `Conditions.CheckConds` | tools/post/analyze.py:75-79 | succeeds exactly when every condition of the chain is in the table; the empty chain weighs 1 |
| `Conditions.Call` | tools/post/analyze.py:80-88 | with conditions ignored, every block weighs 1; otherwise succeeds exactly when every condition is known |
| `Conditions.CallOne` | tools/post/analyze.py:84-85 | calling the checker on one condition is calling it on the chain of that condition alone |
| `Program.NonStateAccesses` | tools/post/analyze.py:367 | the streamed accesses are exactly the accesses that are not state variables |
| `Program.StateAccesses` | tools/post/analyze.py:178 | the loop-invariant accesses are exactly the accesses that are state variables |
| `Program.OnlyStateVars` | tools/post/analyze.py:468 | an array holds only loop-invariant accesses exactly when its list of streamed accesses is empty |
| `Program.BaseName` | tools/post-new/analyze.py:133 | `name.split('.')[0]`: the longest prefix of the name without a '.', followed by a '.' when it is shorter than the name |
| `Program.IsStateVar` | tools/post/analyze.py:178 | an access is loop-invariant exactly when none of its dimensions names a loop variable |
| `Program.IndexString` | tools/post/analyze.py:147 | the text of an index tuple is parenthesised, with the trailing comma of a one-element tuple |
| `Program.LoopNode.IterN` | tools/post/analyze.py:459 | the iteration count `ub - lb + 1` is positive exactly when the loop runs |
| `Counters.FlopCount.FromFlops` | tools/post/analyze.py:94-99 | a flop count takes the four counts of the flops event, with an empty name |
| `Counters.FlopCount.Copy` | tools/post/analyze.py:112 | the copy has the same counts |
| `Counters.FlopCount.AddFrom` | tools/post/analyze.py:105-110 | `+=` adds the four counts elementwise |
| `Counters.FlopCount.Mul` | tools/post/analyze.py:111-117 | `*n` gives a fresh count with every field times `n` and leaves the operand unchanged |
| `Counters.FlopCount.Loop` | tools/post/analyze.py:100-101 | `loop` multiplies by the iteration count `ub - lb + 1` |
| `Counters.StateVar.FromScalar` | tools/post/analyze.py:134-138 | a scalar's entry keeps its name, type, reads and writes |
| `Counters.StateVar.Pointer` | tools/post/analyze.py:139-144 | an array's pointer entry: base name, type `T *`, reads = the sum of reads and writes of all accesses, writes 0 |
| `Counters.StateVar.Element` | tools/post/analyze.py:145-150 | a loop-invariant access's entry: array name plus the index tuple's text, the element type, that access's reads and writes |
| `Counters.StateVar.Copy` | tools/post/analyze.py:162-163 | the copy has the same name, type and counts |
| `Counters.StateVar.AddFrom` | tools/post/analyze.py:157-161 | `+=` requires the same name and type and adds reads and writes |
| `Counters.StateVar.Mul` | tools/post/analyze.py:162-166 | `*n` gives a fresh entry with both counts times `n` |
| `Counters.StateVar.Loop` | tools/post/analyze.py:153-154 | `loop` multiplies both counts by the iteration count |
| `Counters.ArrayVar.FromArray` | tools/post/analyze.py:192-197 | an array's entry keeps its name and type and counts only the streamed reads and writes |
| `Counters.ArrayVar.FromArrayBaseName` | tools/post-new/analyze.py:131-136 | the older entry is the same except that its name is the part before the first '.' |
| `Counters.ArrayVar.Copy` | tools/post/analyze.py:186-191 | the copy constructor keeps name, type and counts |
| `Counters.ArrayVar.AddFrom` | tools/post/analyze.py:204-208 | `+=` requires the same name and type and adds reads and writes |
| `Counters.ArrayVar.Mul` | tools/post/analyze.py:209-213 | `*n` gives a fresh entry with both counts times `n` |
| `Counters.ArrayVar.Loop` | tools/post/analyze.py:200-201 | `loop` multiplies both counts by the iteration count |
| `Counters.FlopValues` | tools/post/analyze.py:126 | the values of a list of flop counts, entry by entry |
| `Counters.ArrayVarValues` | tools/post/analyze.py:221 | the name, type and counts of each array entry, in order |
| `Counters.PlusCommutes` | tools/post/analyze.py:105-110 | adding counters does not depend on the order of the operands |
| `Counters.PlusAssociates` | tools/post/analyze.py:157-161 | accumulating counters does not depend on how the `+=` are grouped |
| `Counters.LoopDistributes` | tools/post/analyze.py:100-117 | looping over a sum of contributions equals summing the looped contributions |
| `Counters.StateAndStreamedPartition` | tools/post/analyze.py:196-197 | the reads (writes) of the loop-invariant accesses plus the streamed reads (writes) are all the array's reads (writes) |
| `Counters.SumsOfAppend` | tools/post/analyze.py:141 | reads, writes and total traffic are additive over concatenation |
| `Counters.PointerTrafficSplits` | tools/post/analyze.py:141-142 | the pointer's reads are the array's reads plus its writes |
| `Counters.TotalTraffic` | tools/post/analyze.py:143 | the pointer's load count is at least the reads plus writes of each access |
| `Counters.TallyOf` | tools/post/analyze.py:94-99 | the counts of a flops event, none negative, totalling the event's operations |
| `Counters.FlopTally.Plus` | tools/post/analyze.py:105-110 | adding two flop counts adds their totals |
| `Counters.FlopTally.Scale` | tools/post/analyze.py:111-117 | scaling flop counts by `n` scales their total by `n` |
| `Counters.RWTally.Plus` | tools/post/analyze.py:157-161 | adding two read/write counts adds their traffic |
| `Counters.RWTally.Scale` | tools/post/analyze.py:162-166 | scaling read/write counts by `n` scales their traffic by `n` |
| `PostAnalyze.Flags` | tools/post/analyze.py:40-42 | the accumulated flags say whether some access reads and whether some writes |
| `PostAnalyze.AccessTypeOf` | tools/post/analyze.py:39-46 | `ld` exactly when something reads and nothing writes, `st` exactly the reverse, `ls` when both do, and an error when neither does |
| `PostAnalyze.GetAccessType` | tools/post/analyze.py:39-46 | the flag loop gives that access type |
| `PostAnalyze.MakeAccByteN` | tools/post/analyze.py:380-383 | the bytes per access of each kind are the machine's scale factor times the element size |
| `PostAnalyze.CacheByteN` | tools/post/analyze.py:33-34 | the cache in bytes is the table's kibibytes times 1024 |
| `PostAnalyze.WorkingSet.FromArray` | tools/post/analyze.py:238-244 | a working set of an array holds its streamed accesses, the word size of its type, and no size |
| `PostAnalyze.WorkingSet.ShallowCopy` | tools/post/analyze.py:230-236 | the shallow copy keeps name, type and word size, with no accesses and no size |
| `PostAnalyze.WorkingSet.Size` | tools/post/analyze.py:257-261 | the size is `accessSize` of the accesses, remembered afterwards; a remembered 0 is recomputed |
| `PostAnalyze.WorkingSet.Bytes` | tools/post/analyze.py:262-263 | the bytes are the size times the word size |
| `PostAnalyze.WorkingSet.Consume` | tools/post/analyze.py:264-267 | an access is appended and the remembered size dropped |
| `PostAnalyze.WorkingSet.AddFrom` | tools/post/analyze.py:253-256 | `+=` requires the same name and type and appends every access of the other set in order, dropping the remembered size unless nothing was added |
| `PostAnalyze.WorkingSet.Loop` | tools/post/analyze.py:268-303 | the result is a fresh working set of the same array whose accesses are the unroll of these along the loop, with no size |
| `PostAnalyze.WorkingSet.SortInto` | tools/post/analyze.py:280-290 | the sorting loop passes the untouched accesses through to the result and builds the buckets as the reference sort does |
| `PostAnalyze.WorkingSet.MergeInto` | tools/post/analyze.py:294-301 | the merging loop appends one merged access per bucket key, with the bucket's summed counts |
| `PostAnalyze.RegionWords` | tools/post/analyze.py:334-335 | a region counted once moves its size in words |
| `PostAnalyze.RegionBytes` | tools/post/analyze.py:336-337 | defined exactly when the region reads or writes, else the no-reads-or-writes error; a read-only region is charged the load factor per word |
| `PostAnalyze.SumSize` | tools/post/analyze.py:413-414 | 0 for no region, the region's size for one (with `AppendWords`, the sum) |
| `PostAnalyze.SumWords` | tools/post/analyze.py:415-416 | 0 for no region, the region's words for one (with `AppendWords`, the sum) |
| `PostAnalyze.SumBytes` | tools/post/analyze.py:417-418 | defined exactly when every region has an access type; one region gives its own bytes |
| `PostAnalyze.ScaleWords` | tools/post/analyze.py:331-335 | scaling every region by `n` multiplies the total words by `n` and keeps the total size |
| `PostAnalyze.ScaleRegionBytes` | tools/post/analyze.py:336-337 | scaling a region by `n` multiplies its bytes by `n`, or keeps its access-type error |
| `PostAnalyze.ScaleBytes` | tools/post/analyze.py:417-418 | scaling every region by `n` multiplies the total bytes by `n` |
| `PostAnalyze.AppendWords` | tools/post/analyze.py:413-416 | size and words are additive over concatenated regions |
| `PostAnalyze.TrafficRegion.constructor` | tools/post/analyze.py:321-324 | a region keeps its accesses and count and measures their `accessSize` once |
| `PostAnalyze.TrafficRegion.Over` | tools/post/analyze.py:453-455 | a region built over a working set's list shares that list, and its size is the list's `accessSize` when it is built |
| `PostAnalyze.Regrown` | tools/post/analyze.py:321-337 | after the shared list grows, a shared region has the list's new accesses and keeps its size and count; an unshared region is unchanged |
| `PostAnalyze.RegrownWords` | tools/post/analyze.py:323-335 | growing a shared list changes neither the total size nor the total words, since a region's size is fixed when it is built |
| `PostAnalyze.GrownByStoreIsLoadStore` | tools/post/analyze.py:336-337 | a region of reads whose shared list gains a write is re-typed `ls`, so it is charged the load-store cost per word |
| `PostAnalyze.TrafficRegion.MulBy` | tools/post/analyze.py:331-333 | `*= n` multiplies the count in place |
| `PostAnalyze.RegionValsAppend` | tools/post/analyze.py:412 | the values of concatenated region lists are the concatenated values |
| `PostAnalyze.ScaleRegions` | tools/post/analyze.py:403-404 | multiplying each distinct region in place scales every region value by `n` |
| `PostAnalyze.WsViews` | tools/post/analyze.py:426 | the accesses and word size of each sibling working set |
| `PostAnalyze.SumWsBytesOf` | tools/post/analyze.py:426 | the sum of `ws.bytes()` over the siblings, leaving their accesses unchanged |
| `PostAnalyze.WorkingSets` | tools/post/analyze.py:426 | the working set of each sibling |
| `PostAnalyze.LoopedRegions` | tools/post/analyze.py:449-459 | the reference decision: one region when the set fits, which fails only if the loop's conditions do; otherwise one region per original region |
| `PostAnalyze.Fits` | tools/post/analyze.py:449 | the working set fits when it leaves no negative room in the cache, so a working set equal to the cache fits |
| `PostAnalyze.NumBlocks` | tools/post/analyze.py:436-438 | the number of blocks times the blocked loop's iterations is the loop's iterations |
| `PostAnalyze.BlockCount` | tools/post/analyze.py:442 | from a single block the count is the number of blocks of this loop; no blocks stay none |
| `PostAnalyze.Traffic.FromArray` | tools/post/analyze.py:361-389 | the traffic of an array is one region over its streamed accesses weighted by the branch probability, a working set over the same accesses with the element's word size and no size, block count 1, and the machine sizes |
| `PostAnalyze.Traffic.Size` | tools/post/analyze.py:413-414 | a traffic of one region has that region's size |
| `PostAnalyze.Traffic.Words` | tools/post/analyze.py:415-416 | a traffic of one region moves that region's words |
| `PostAnalyze.Traffic.Bytes` | tools/post/analyze.py:417-418 | a traffic of one region moves that region's bytes, at this traffic's access factors |
| `PostAnalyze.Traffic.Looped` | tools/post/analyze.py:351-360 | the copy keeps the identity and sizes, and takes the given regions, working set and block count |
| `PostAnalyze.Traffic.MulBy` | tools/post/analyze.py:402-405 | `*= n` scales every region by `n` |
| `PostAnalyze.Traffic.AddFrom` | tools/post/analyze.py:397-401 | `+=` requires the same name and type, merges the working sets and appends the other's regions unmerged; the regions built over this working set's list see the other's accesses too |
| `PostAnalyze.Traffic.GrowWs` | tools/post/analyze.py:399 | the working set takes the other's accesses, and every region sharing its list grows with it |
| `PostAnalyze.Traffic.AppendRegions` | tools/post/analyze.py:400 | the other's regions are appended one by one, in order, and stay distinct |
| `PostAnalyze.Traffic.Reused` | tools/post/analyze.py:453-455 | reuse gives one region over the blocked working set's own list, sharing it, with count the block count, scaled by the loop's probability, or the probability's error |
| `PostAnalyze.Traffic.Repeated` | tools/post/analyze.py:458-459 | no reuse shares this traffic's regions with the result and multiplies their counts by the iteration count |
| `PostAnalyze.Traffic.Prepare` | tools/post/analyze.py:426-441 | the siblings' summed working-set bytes, and a fresh working set unrolled along the blocked loop, with this working set's word size |
| `PostAnalyze.Traffic.Decide` | tools/post/analyze.py:449-459 | the result's regions are the reference decision; with reuse its one region shares the new working set's list; this traffic's regions are left alone when the set fits and scaled in place when it does not |
| `PostAnalyze.Traffic.Loop` | tools/post/analyze.py:419-460 | the whole loop rule: bytes compared with `<=`, working set unrolled along the blocked loop, block count times the number of blocks, regions as the reference decision, and a report only from the first sibling; the new working set keeps the word size; exactly the reuse region shares the new working set's list |
| `PostAnalyze.ReuseTraffic` | tools/post/analyze.py:449-455 | with reuse the traffic measures the unrolled set's size, and its words are that size times the block count times the loop's probability |
| `PostAnalyze.NoReuseTraffic` | tools/post/analyze.py:456-459 | without reuse the words and bytes are those of one iteration times the iteration count, and the size is unchanged |
| `PostAnalyze.LoopErrorIsMissingCondition` | tools/post/analyze.py:455 | the loop rule fails only on the reuse path, with conditions weighed, and then for a condition missing from the table |
| `PostAnalyze.StreamingWorkingSetExample` | tools/post/analyze.py:449 | one 8-byte word fits in a cache of its own size, since equality counts as fitting |
| `PostAnalyze.StreamingLoopExample` | tools/post/analyze.py:449-455 | a unit-stride load over 128 iterations that fits moves 128 words, which is 1024 bytes |
| `PostCollectors.FlopsCollected` | tools/post/analyze.py:119-128 | fails exactly when the condition checker does; one entry exactly for a flops event of probability above 0, each of its four counts times the probability |
| `PostCollectors.ElementsCollected` | tools/post/analyze.py:177-178 | one weighted entry per loop-invariant access |
| `PostCollectors.StateVarsCollected` | tools/post/analyze.py:168-180 | fails exactly when the condition checker does; nothing for probability 0; for an array the pointer entry followed by one entry per loop-invariant access |
| `PostCollectors.StateVarsOf` | tools/post/analyze.py:173-178 | for an array, one pointer entry and one entry per loop-invariant access |
| `PostCollectors.ArrayVarsCollected` | tools/post/analyze.py:215-223 | fails exactly when the condition checker does, and gives at most one entry |
| `PostCollectors.ArrayVarsOf` | tools/post/analyze.py:220-221 | exactly one entry for an array with streamed accesses, none otherwise |
| `PostCollectors.WorkingSetsCollected` | tools/post/analyze.py:305-314 | fails only for an array with streamed accesses whose check fails; gives at most one non-empty working set |
| `PostCollectors.TrafficCollected` | tools/post/analyze.py:462-471 | fails exactly when the condition checker does; one region exactly for an array with streamed accesses and probability above 0, over those accesses, measured by their `accessSize`, with the probability as its count |
| `PostCollectors.DeadBlockCollectsNothing` | tools/post/analyze.py:125-127 | a block of probability 0 contributes an empty collection to every collector, not a zero entry |
| `PostCollectors.MissingConditionPropagates` | tools/post/analyze.py:69-72 | a missing condition makes every collector raise, with the first missing condition, and the working-set collector for a streamed array |
| `PostCollectors.IgnoredConditionsCollectEverything` | tools/post/analyze.py:82-83 | with conditions ignored, every contribution counts in full |
| `PostCollectors.ElementsSum` | tools/post/analyze.py:177-178 | the element entries sum to the weighted reads and writes of their accesses |
| `PostCollectors.ArrayTrafficSplits` | tools/post/analyze.py:173-222 | no access is counted twice: the element entries plus the array entry carry the array's weighted reads and writes, and the pointer is read once per read and write |
| `PostCollectors.ArrayTalliesSplit` | tools/post/analyze.py:176-178 | the same split for a given probability |
| `PostCollectors.ElementsAndStreamedSplit` | tools/post/analyze.py:196-197 | the element entries and the streamed counts partition the weighted reads and writes |
| `PostCollectors.PointerSplit` | tools/post/analyze.py:176 | the weighted pointer reads are the weighted reads plus writes |
| `PostCollectors.CollectFlops` | tools/post/analyze.py:122-127 | builds flop count objects whose values are the collected ones, or fails the same way |
| `PostCollectors.ScaledElement` | tools/post/analyze.py:177 | the element entry built and then scaled is the collected element |
| `PostCollectors.CollectElements` | tools/post/analyze.py:177-178 | appends the collected element entries, in order, after the given ones |
| `PostCollectors.CollectStateVars` | tools/post/analyze.py:170-179 | builds state variable objects whose values are the collected ones, or fails the same way |
| `PostCollectors.CollectArrayVars` | tools/post/analyze.py:217-222 | builds array variable objects whose values are the collected ones, or fails the same way |
| `PostCollectors.CollectWorkingSets` | tools/post/analyze.py:307-313 | builds unscaled working sets with no size, whose accesses are the collected ones, or fails the same way |
| `PostCollectors.CollectTraffic` | tools/post/analyze.py:465-470 | builds the traffic object whose regions are the collected ones, with block count 1, or fails the same way |
| `PostNewAnalyze.ReportStep` | tools/post-new/analyze.py:28-32 | a line is added to the reported set, and reported with its `<=` verdict only if it was not in the set before |
| `PostNewAnalyze.ReportIdempotent` | tools/post-new/analyze.py:29-30 | a second report of the same line changes nothing and prints nothing |
| `PostNewAnalyze.ReportedOncePerLine` | tools/post-new/analyze.py:27-32 | over any sequence of calls the set only grows by the lines called, and each new line is reported exactly once |
| `PostNewAnalyze.ReuseReporter.constructor` | tools/post-new/analyze.py:27 | nothing has been reported yet |
| `PostNewAnalyze.ReuseReporter.Report` | tools/post-new/analyze.py:28-32 | the reporter's set and output follow that report step |
| `PostNewAnalyze.WorkingSet.FromArray` | tools/post-new/analyze.py:166-175 | a working set of an array holds its streamed accesses, count 1, and no size |
| `PostNewAnalyze.WorkingSet.Cleared` | tools/post-new/analyze.py:166-175 | the cleared copy keeps name and type, takes the given count, and has no accesses and no size |
| `PostNewAnalyze.WorkingSet.Size` | tools/post-new/analyze.py:185-189 | the size is `accessSize` of the accesses, remembered afterwards; a remembered 0 is recomputed |
| `PostNewAnalyze.WorkingSet.Bytes` | tools/post-new/analyze.py:190-191 | the bytes are the size times 8 |
| `PostNewAnalyze.WorkingSet.Consume` | tools/post-new/analyze.py:192-195 | an access is appended and the remembered size dropped |
| `PostNewAnalyze.WorkingSet.AddFrom` | tools/post-new/analyze.py:181-184 | `+=` requires the same name, type and count, and appends every access of the other set in order |
| `PostNewAnalyze.WorkingSet.Loop` | tools/post-new/analyze.py:196-227 | the result has count `count * numBlocks`, and its accesses are the unroll along the loop, the merged ones without counts |
| `PostNewAnalyze.WorkingSet.SortInto` | tools/post-new/analyze.py:210-217 | the sorting loop passes the untouched accesses through and builds the buckets as the reference sort does |
| `PostNewAnalyze.WorkingSet.MergeInto` | tools/post-new/analyze.py:219-225 | the merging loop appends one merged access per bucket key |
| `PostNewAnalyze.WsAccesses` | tools/post-new/analyze.py:319 | the accesses of each sibling working set |
| `PostNewAnalyze.WsBytes` | tools/post-new/analyze.py:190-191 | the bytes of a working set, at 8 bytes per word, are its `accessSize` in words |
| `PostNewAnalyze.SumWsBytesOf` | tools/post-new/analyze.py:319 | the sum of `ws.bytes()` over the siblings, leaving their accesses unchanged |
| `PostNewAnalyze.TrafficRegion.constructor` | tools/post-new/analyze.py:241-243 | a region keeps its accesses and count |
| `PostNewAnalyze.TrafficRegion.Over` | tools/post-new/analyze.py:325 | a region built over a working set's list shares that list |
| `PostNewAnalyze.TrafficRegion.MulBy` | tools/post-new/analyze.py:249-250 | `*= n` multiplies the count in place |
| `PostNewAnalyze.LazySize` | tools/post-new/analyze.py:251-252 | the size of a non-empty list is its `accessSize`; an empty list measures 0 |
| `PostNewAnalyze.Measure` | tools/post-new/analyze.py:251-252 | a region's value keeps its accesses and count, and is the reference region for a non-empty list |
| `PostNewAnalyze.RegionValsAppend` | tools/post-new/analyze.py:293 | the values of concatenated region lists are the concatenated values |
| `PostNewAnalyze.ScaleRegions` | tools/post-new/analyze.py:295-298 | multiplying each distinct region in place scales every region value by `n` |
| `PostNewAnalyze.Regrown` | tools/post-new/analyze.py:251-252 | after the shared list grows, a shared region has the list's new accesses and is measured over them; an unshared region is unchanged |
| `PostNewAnalyze.SiblingReuseSum` | tools/post-new/analyze.py:251-252 | two fitting sibling loops summed by `+=`: the first loop's region is measured over both loops' accesses, the second over its own |
| `PostNewAnalyze.WorkingSets` | tools/post-new/analyze.py:319 | the working set of each sibling |
| `PostNewAnalyze.LoopedRegions` | tools/post-new/analyze.py:322-329 | the reference decision: one region over the unrolled accesses when the set fits, otherwise one region per original region |
| `PostNewAnalyze.NumBlocks` | tools/post-new/analyze.py:314-315 | the number of blocks times the blocked loop's iterations is the loop's iterations |
| `PostNewAnalyze.BlockCount` | tools/post-new/analyze.py:208 | a count of 1 gives the number of blocks, and a single block keeps the count |
| `PostNewAnalyze.Traffic.FromArray` | tools/post-new/analyze.py:269-284 | the traffic of an array is one region of count 1 over its streamed accesses resolved by the problem parameters, a working set of count 1 with no size over the accesses resolved by the block parameters, and the cache |
| `PostNewAnalyze.Traffic.Size` | tools/post-new/analyze.py:306-307 | a traffic of one region has that region's words |
| `PostNewAnalyze.Traffic.Bytes` | tools/post-new/analyze.py:304-305 | the bytes are the size at 8 bytes per word |
| `PostNewAnalyze.Traffic.Looped` | tools/post-new/analyze.py:261-267 | the copy keeps name, type and cache, and takes the given regions and working set |
| `PostNewAnalyze.Traffic.MulBy` | tools/post-new/analyze.py:295-298 | `*= n` multiplies every region's count in place |
| `PostNewAnalyze.Traffic.AddFrom` | tools/post-new/analyze.py:290-294 | `+=` requires the same name and type, merges the working sets and appends the other's regions unmerged; the regions built over this working set's list see the other's accesses and are measured over them |
| `PostNewAnalyze.Traffic.GrowWs` | tools/post-new/analyze.py:292 | the working set takes the other's accesses, and every region sharing its list grows with it |
| `PostNewAnalyze.Traffic.AppendRegions` | tools/post-new/analyze.py:293 | the other's regions are appended one by one, in order, and stay distinct |
| `PostNewAnalyze.Traffic.Reused` | tools/post-new/analyze.py:325 | reuse gives one region over the blocked working set's own list, sharing it, with count the working set's count |
| `PostNewAnalyze.Traffic.Repeated` | tools/post-new/analyze.py:328-329 | no reuse shares the regions and multiplies their counts by the iteration count |
| `PostNewAnalyze.Traffic.Prepare` | tools/post-new/analyze.py:312-321 | the working set unrolled along the blocked loop with count times the number of blocks, the siblings' summed bytes, and the report step for the loop's line |
| `PostNewAnalyze.Traffic.Decide` | tools/post-new/analyze.py:322-329 | the result's regions are the reference decision; with reuse its one region shares the new working set's list; this traffic's regions are left alone when the set fits and scaled in place when it does not |
| `PostNewAnalyze.Traffic.Loop` | tools/post-new/analyze.py:308-330 | the whole loop rule: every sibling reports but each line prints once, bytes compared with `<=`, the working set has count times the number of blocks, the regions follow the reference decision, and exactly the reuse region shares the new working set's list |
| `PostNewAnalyze.ReuseTraffic` | tools/post-new/analyze.py:322-325 | with reuse the size is the unrolled set's size and the words are that size times the block count |
| `PostNewAnalyze.NoReuseTraffic` | tools/post-new/analyze.py:326-329 | without reuse the words are those of one iteration times the iteration count, and the size is unchanged |
| `PostNewAnalyze.UnblockedIsOneBlock` | tools/post-new/analyze.py:314-315 | blocking a loop by its own range gives one block |
| `PostNewVisitors.FlopsVisited` | tools/post-new/analyze.py:63-69 | exactly one entry for a flops event, none otherwise |
| `PostNewVisitors.ElementsVisited` | tools/post-new/analyze.py:116-117 | one entry per loop-invariant access |
| `PostNewVisitors.StateVarsVisited` | tools/post-new/analyze.py:109-119 | nothing for flops; a scalar itself; for an array the pointer entry and one entry per loop-invariant access |
| `PostNewVisitors.ArrayVarsVisited` | tools/post-new/analyze.py:154-160 | exactly one entry for an array with streamed accesses |
| `PostNewVisitors.WorkingSetsVisited` | tools/post-new/analyze.py:229-235 | exactly one non-empty working set for an array with streamed accesses |
| `PostNewVisitors.TrafficVisited` | tools/post-new/analyze.py:332-341 | exactly one region for an array with streamed accesses |
| `PostNewVisitors.VisitedTalliesSplit` | tools/post-new/analyze.py:84-136 | no access is counted twice: the element entries plus the array entry carry all reads and writes, and the pointer is read once per read and write |
| `PostNewVisitors.ElementsVisitedSum` | tools/post-new/analyze.py:86-91 | the element entries sum to the reads and writes of their accesses |
| `PostNewVisitors.VisitFlops` | tools/post-new/analyze.py:64-69 | builds flop count objects with the visited values |
| `PostNewVisitors.VisitStateVars` | tools/post-new/analyze.py:110-119 | builds state variable objects with the visited values, pointer first |
| `PostNewVisitors.VisitElements` | tools/post-new/analyze.py:116-117 | appends one element object per loop-invariant access, in order |
| `PostNewVisitors.VisitArrayVars` | tools/post-new/analyze.py:155-160 | builds the array variable object with the visited value |
| `PostNewVisitors.VisitWorkingSets` | tools/post-new/analyze.py:230-235 | builds working sets of count 1 with no size, over the visited accesses |
| `PostNewVisitors.VisitTraffic` | tools/post-new/analyze.py:333-341 | builds the traffic object with the visited region, a working set of count 1 over the block-resolved accesses, and the cache |
| `Unroll.IndexOf` | tools/post/analyze.py:287 | `list.index`: the first position holding the loop variable |
| `Unroll.Del` | tools/post/analyze.py:271-272 | removing one position of a tuple shortens it by one (`DelAt`: the others keep their order) |
| `Unroll.Ins` | tools/post/analyze.py:273-274 | `tupleIns` puts the value at the position and shifts the rest |
| `Unroll.InsDel` | tools/post/analyze.py:271-274 | inserting at the position just deleted replaces that entry |
| `Unroll.SortStep` | tools/post/analyze.py:283-290 | one access either passes through or joins its bucket, adding at most one output |
| `Unroll.Sort` | tools/post/analyze.py:282-290 | sorting gives no more pass-throughs plus keys than accesses, and at least one for a non-empty list |
| `Unroll.MinOff` | tools/post/analyze.py:298 | `min(offsets)`: no larger than any offset and equal to one |
| `Unroll.MaxOff` | tools/post/analyze.py:298 | `max(offsets)`: no smaller than any offset and equal to one |
| `Unroll.MergeBucket` | tools/post/analyze.py:295-301 | the merged access keeps the other dimensions, and its loop dimension is `(lb + min, ub + max)` with loop variable `''` |
| `Unroll.MergeAll` | tools/post/analyze.py:294-301 | one merged access per bucket key |
| `Unroll.MergeAllAt` | tools/post/analyze.py:294-301 | the `j`-th merged access is the merge of the `j`-th key's bucket |
| `Unroll.Unrolled` | tools/post/analyze.py:280-303 | the unroll never has more accesses than its input, and has at least one when the input does |
| `Unroll.PassThroughIsFilter` | tools/post/analyze.py:283-284 | the accesses that do not use the loop variable come first, unchanged and in order |
| `Unroll.SortBucketsExactly` | tools/post/analyze.py:286-290 | an entry is in a bucket exactly when some access using the loop variable has that key and entry |
| `Unroll.SortKeysExactly` | tools/post/analyze.py:286-290 | the bucket keys are exactly the keys of the accesses using the loop variable |
| `Unroll.UnrolledWellFormed` | tools/post/analyze.py:299-301 | every unrolled access has an index and loop variables of equal length |
| `Unroll.SortCounts` | tools/post/analyze.py:282-290 | sorting loses no read or write: the pass-throughs plus the buckets carry them all |
| `Unroll.MergeAllKeepsCounts` | tools/post/analyze.py:301 | the merged accesses carry the bucket sums of reads and writes |
| `Unroll.MergeAllDropsCounts` | tools/post-new/analyze.py:225 | the older merged accesses carry no reads or writes |
| `Unroll.UnrolledKeepsCounts` | tools/post/analyze.py:280-303 | the current unroll keeps the total reads and writes |
| `Unroll.UnrolledDropsMergedCounts` | tools/post-new/analyze.py:208-227 | the older unroll keeps only the reads and writes of the accesses that pass through |
| `Unroll.MergedInUnrolled` | tools/post/analyze.py:294-301 | each bucket's merged access is in the unroll |
| `Unroll.UnrolledCovers` | tools/post/analyze.py:292-298 | every point an access touches at an iteration of the loop is in the unrolled working set |
| `Unroll.PassThroughCovered` | tools/post/analyze.py:283-284 | a point touched by an access that does not use the loop variable stays covered |
| `Unroll.BucketedCovered` | tools/post/analyze.py:292-301 | a point touched by a bucketed access at an iteration in `[lb, ub]` is covered by its bucket's merge |
| `Unroll.UnitStrideExample` | tools/post/analyze.py:280-303 | `a[i]` over `i` in `[lb, ub]` unrolls to the single range `(lb, ub)` of `ub - lb + 1` points |
| `Versions.FlopsAgree` | tools/post-new/analyze.py:63-69 | with conditions ignored, the current flops collector gives what the older visitor does |
| `Versions.StateVarsAgree` | tools/post-new/analyze.py:109-119 | with conditions ignored, both versions give the same state variables |
| `Versions.ArrayVarsDifferInName` | tools/post-new/analyze.py:131-136 | with conditions ignored, the array entries agree except that the older one is named by the base name |
| `Versions.TrafficAgrees` | tools/post-new/analyze.py:332-341 | with conditions ignored, both versions give an array the same traffic region |
| `Versions.WorkingSetsAgree` | tools/post-new/analyze.py:229-235 | with conditions ignored, both versions give an array a working set over the same accesses |
| `Versions.SameIndexesSameUnion` | tools/post-new/analyze.py:19-25 | accesses with the same indexes have the same union, whatever their counts |
| `Versions.UnrolledSameIndexes` | tools/post-new/analyze.py:219-225 | both unrolls build the same indexes and loop variables, in the same order |
| `Versions.UnrolledSameSize` | tools/post-new/analyze.py:196-227 | both unrolls produce the same point set, so the same working-set size |

## Left out

- External code is not part of this model. It supplies resolved integers and accesses as
  inputs: the XML parsers, the `Collection` tree walk, `Box` (given only its union-cardinality
  meaning through explicit point sets), `subParams`, `blocked`, and the symbolic layers
  (`sympy`, `parse_expr`, `doSymSubs`).
- `ArrayAccess.isStateVar` is not part of the source shown. It is modelled as "no index
  dimension is tied to a loop variable".
- Output is left out: `print`, every `__str__`, `StaticAnalysis`, `dump`, `main`, the verbose
  and warning messages, and tools/post-new/runModel.py (batch drivers around an external
  runner). The reuse reports are returned as `ReuseReport` values; their `%`-formatting is
  not modelled.
- Python floats are modelled as exact `real`s: probabilities, `numBlocks`, byte counts. The
  integer counts are `nat` and are not bounded.
- Dictionary order: bucket keys are visited in the order they first appear. The size, reads,
  writes and coverage, which are what the rest of the analyzer uses, do not depend on the order.
- The global `options` flags become parameters: the ignore flag is a field of `CondsChecker`,
  and the verbose flag only prints. The machine table is a `map<string, real>`, and the older
  version's cache size is a parameter of its traffic visitor.
- Python `assert`s, and lookups that raise `KeyError` (a machine word type, a Python list
  index), become `requires`. So do two errors the source raises without meaning to:
  `PostAnalyze.NumBlocks` and `PostNewAnalyze.NumBlocks` (and the `Traffic.Loop`s that use
  them) require a blocked loop with a non-zero iteration count, where the source divides by
  zero (`ZeroDivisionError`); and `Box.AccessSize` requires a non-empty list, where the
  source's `reduce` over no boxes raises `TypeError`. A condition missing from the probability table raises in the
  source, so that is modelled as an `Err` result. So is `get_access_type` on an access list
  with no reads and no writes.
- `Conditions.Call`: with the ignore flag the source returns `True`, which the collectors' `> 0.0`
  and `*` then use as 1. It is modelled as 1.0.
- Both `ArrayVar` constructors have the always-true test `type(array == Array)`. It is modelled
  as the from-array branch, and the "unknown arg type" error cannot occur.
- `PostNewAnalyze.WorkingSet.Loop`: the source builds each merged access with `ArrayAccess(index, loopvars)`
  and nothing else. The parser's default counts are not shown, so merged accesses are
  modelled with 0 reads and 0 writes. Working-set size depends only on indexes, and
  `Versions.UnrolledSameSize` proves the two versions measure the same size.
- `PostNewAnalyze.Traffic.Size`: the older `TrafficRegion.size()` recomputes `accessSize`
  on every call, so a region sharing a working set's list is measured over that list as it
  is when `size()` is called. The model measures each region's current accesses the same
  way. Over an empty list the source's `accessSize` raises; `LazySize` gives 0 there, which
  cannot be observed, since a region is only built over a non-empty list.
- `TrafficRegion.__imul__` in the older version returns `None`, so `region *= n` rebinds a
  loop variable to `None`. The count is still multiplied in place, and that in-place effect
  is what the model keeps.
- `PostNewAnalyze.Traffic.Loop` sums the siblings' bytes before it unrolls the working set;
  the source unrolls first. Neither step can observe the other.
- `PostAnalyze.Traffic.Loop` and `PostNewAnalyze.Traffic.Loop` state that this traffic stays
  valid, but not that the other siblings do. Their working sets only gain a remembered size.
- The no-reuse branch of both `Traffic.loop`s shares the region objects with the result and
  multiplies them in place, so this traffic's own regions change too. The model keeps that
  sharing and states it in the `Repeated`/`Decide` contracts. It keeps the list of regions
  as a value, so a later append to the result's list (by `+=`) does not show in this
  traffic, as it would in the source, where the list object itself is shared.
- The reuse region of both versions is built over the blocked working set's own list, and
  the model shares it (`TrafficRegion.Over`): a later `+=` of a sibling's traffic grows that
  region's accesses. In the current version the size stays as measured but the access type
  is taken again, so reads can become `ls` (`PostAnalyze.GrownByStoreIsLoadStore`); in the
  older one the size is measured again (`PostNewAnalyze.SiblingReuseSum`). `+=` assumes the
  two traffic objects have distinct regions and distinct working sets, as they do when built
  by the visitors.
- `PostNewAnalyze.Traffic.FromArray` and `PostNewVisitors.VisitTraffic` take the array
  twice: resolved by the problem-size parameters for the region and by the block parameters
  for the working set, since `subParams` is not part of this model.
- `Unroll.UnrolledCovers` is stated for accesses that use the loop variable in at most one
  dimension. For an access that uses it in several dimensions, the source unrolls only the
  first, and the coverage is not claimed.
- `PostAnalyze.Traffic.Loop` takes the loop and the blocked loop with their bounds already
  resolved. The source computes the blocked loop from the block parameters.
