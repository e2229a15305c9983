# Verified models of the Embree common library

This project models the parallel array algorithms, the linear motion bounds, the lexer streams and two SIMD helper loops of the `common` directory, and proves what they promise. Everything that changes an array or an object in place there is a method over arrays or a class here, proved against a specification function; the theorems are about those functions.

## What is modelled

- **Tasks.** `parallel_for` runs its bodies in any order: a loop picks any task that is left (`Tasks`). The second phases of the radix sort and of the prefix sum go further: any task makes its next step, so every interleaving of their steps is covered. For partitioning and filtering every schedule in which the tasks take turns, one exchange or copy at a time, is shown to give the same array (`Interleavings`). The cuts `t*N/T` are handled for every task count (`Cuts`).
- **Sorting** (`Digits`, `StablePass`, `ParallelRadixSort`, `RadixSort32`, `QuickSort`, `Rearranging`). Items are a key and a rest; the stable distribution by a digit is a function, and the rank of an item in it is where the tasks write it. `radixsort32` is the in-place variant with exchange cycles.
- **Partitioning and filtering** (`SerialPartition`, `Ranks`, `Misplaced`, `ParallelPartition`, `HoleFilling`, `ParallelFilter`). Both work on blocks first and then repair what is out of place, pair by pair or hole by hole.
- **Jagged loops, prefix sums, reductions** (`JaggedArrays`, `ForFor`, `PrefixSum`, `ForForPrefixSum`, `ParallelReduce`). Calls that tile a flat index range visit its elements once, and a monoid makes the results those of the sequential fold.
- **Map and set** (`ParallelMap`). A sorted vector, searched by bisection, against a linear search of the original pairs.
- **Motion bounds** (`MotionBounds`, `LinearBounds`). One coordinate, over the reals. The keyframes are a sequence of boxes, between which the box moves linearly.
- **Lexing** (`Streams`, `CharStreams`, `LineComments`, `Lexing`, `LexingLaws`, `TokenLaws`, `TokenStreams`). The ring buffer is a cursor over an unbounded sequence of items with a window of what can be put back. The comment filter and the tokenizer are proved against functions of the text and a position, and what these functions find is said by the characters of the text in `LexingLaws` and `TokenLaws`.
- **Vector loops** (`Foreach2`). Calls of the closure are recorded as the list of their valid lanes.

`Seqs` holds the common vocabulary: filtering, counting, folds, monoids.

## Where the code does not do what one would expect

- An integer of 1024 characters or more, its sign included, is not read although `tryInt` would read it: `tryFloat` is tried first, fails, and throws since it cannot put back that many characters. The same happens where 1024 or more characters stand before what follows an exponent letter (and its sign) instead of a digit (`LexingLaws.IntegerRead`, `LexingLaws.NumberRead`, `LexingLaws.NumberLost`, `LexingLaws.LongIntegerThrows`; all cases in which `next` throws are in `LexingLaws.LexThrows`). Symbols and comment markers have the same limit (`LexingLaws.SymbolsThrow`, `LineComments.LineCommentFilter.Deliver`).
- With an empty symbol, wherever it stands in the list, `next` never delivers the end: where the text is over, at the latest, it delivers the empty symbol for ever. Without one the end is reached unless a token throws (`LexingLaws.EmptySymbolStalls`, `LexingLaws.EndReached`).
- Identifiers that start with `nan` are split, and no others whose first character cannot start another token (`LexingLaws.NanFirst`, `LexingLaws.NanoIsSplit`).
- `parallel_reduce` with a threshold returns `func` of the empty range, not the identity, when the range is empty (`ParallelReduce.ParallelReduceThreshold`).
- `parallel_map` need not return the first of several different values of a key for 8192 pairs or fewer; with a single value it always does (`ParallelMap.UnstableLookup`, `ParallelMap.SecondValueFound`).
- `quicksort_ascending` keeps the split point in an `int`, which changes a split point, and with it the recursion, on every range of two items or more whose last index is above 2^31, and on no other (`QuickSort.QuickSort`, `QuickSort.NarrowedSplit`).
- The bounds for a time range ask for keyframes that do not exist when the range is one of the end points of [0,1] (`LinearBounds.ForTimeRange`, `LinearBounds.EndPointsAsk`).

## Model

| member | source | states |
|---|---|---|
| `Cuts.CutStrict` | common/algorithms/parallel_for_for.h:51-72 | with no more tasks than items every piece `[t*N/T, (t+1)*N/T)` is non-empty, which is what lets the loop over arrays advance |
| `Cuts.CutIsShare` | common/algorithms/parallel_partition.h:148-150 | the cut is `t*N/T`: the largest number of items that is at most `t` shares of the work |
| `Cuts.OwnerExists` | common/algorithms/parallel_partition.h:148-150 | the pieces cover the index range: every item lies in the piece of some task, for every task count |
| `Cuts.OwnerUnique` | common/algorithms/parallel_partition.h:148-150 | the pieces are disjoint: no item lies in the pieces of two tasks |
| `Cuts.TaskCount` | common/algorithms/parallel_sort.h:287-290 | the number of tasks is at most the item count, the thread count and the limit, and positive when there is work |
| `Cuts.TaskCountIs` | common/algorithms/parallel_sort.h:287-290 | as many tasks as there are blocks, unless the thread count or the limit is smaller |
| `Digits.DigitStep` | common/algorithms/parallel_sort.h:322-324 | the digit at `shift` and the bits below it make up the next longer suffix of the key; the bits above it are what is left of the key |
| `Digits.StableUnique` | common/algorithms/parallel_sort.h:403-424 | a stable sort by key is determined by its input, so the radix sort has exactly one correct result |
| `Digits.StableIsPerm` | common/algorithms/parallel_sort.h:403-424 | a stable sort is a permutation of its input |
| `StablePass.RankIsPlace` | common/algorithms/parallel_sort.h:362-390 | the stable rank of an item (items of smaller digit, plus earlier items of the same digit) is its place in the distribution |
| `StablePass.RankInjective` | common/algorithms/parallel_sort.h:383-390 | two items never have the same rank: the tasks write disjoint slots |
| `StablePass.RankOnto` | common/algorithms/parallel_sort.h:383-390 | every slot is the rank of some item: the slots tile `dst` |
| `StablePass.PassStable` | common/algorithms/parallel_sort.h:394-401 | a pass turns a stable sort by the low `shift` bits into a stable sort by eight bits more |
| `StablePass.PassesSort` | common/algorithms/parallel_sort.h:403-424 | as many passes as the key has bytes give a stable sort by the whole key |
| `ParallelRadixSort.Sorter.constructor` | common/algorithms/parallel_sort.h:271-273 | the sorter works on the two arrays it is given and has no counters yet |
| `ParallelRadixSort.Sorter.CountPiece` | common/algorithms/parallel_sort.h:312-328 | a counting task leaves, in its own row only, the digit counts of its own piece |
| `ParallelRadixSort.Sorter.Iteration0` | common/algorithms/parallel_sort.h:302-329 | task `t` of the first phase counts the digits of `[t*N/T, (t+1)*N/T)` and touches no other row |
| `ParallelRadixSort.Sorter.AddRows` | common/algorithms/parallel_sort.h:352-361 | adding the rows of the first tasks gives the digit counts of everything those tasks own |
| `ParallelRadixSort.BucketOffsets` | common/algorithms/parallel_sort.h:363-366 | the running sums of the totals are the starts of the buckets |
| `ParallelRadixSort.Sorter.StartOffsets` | common/algorithms/parallel_sort.h:341-380 | the first write position of a task in bucket `b` is the bucket start plus the items of that digit in earlier pieces |
| `ParallelRadixSort.Sorter.CopyOne` | common/algorithms/parallel_sort.h:383-390 | copying an item writes it at exactly its stable rank and leaves everything else alone |
| `ParallelRadixSort.Sorter.Step` | common/algorithms/parallel_sort.h:332-391 | one step of one task (computing its offsets, or copying one item) keeps all items copied so far, by whatever task, at their ranks |
| `ParallelRadixSort.Sorter.Iteration1` | common/algorithms/parallel_sort.h:332-399 | the second phase, its tasks interleaved step by step in any order and in any number, leaves the stable distribution by the digit in `dst` and does not change `src` |
| `ParallelRadixSort.PlacedAll` | common/algorithms/parallel_sort.h:383-390 | once every item stands at its rank the destination is the stable distribution, in whatever order they were copied |
| `ParallelRadixSort.Sorter.CountAll` | common/algorithms/parallel_sort.h:394-397 | the first phase, its tasks in any order, counts all pieces |
| `ParallelRadixSort.Sorter.Iteration` | common/algorithms/parallel_sort.h:394-401 | both phases: `dst` becomes the stable distribution of `src` |
| `ParallelRadixSort.Sorter.RadixSort` | common/algorithms/parallel_sort.h:403-424 | 4 or 8 passes, ping-ponging between the arrays, end in `src`, which then holds the successive distributions by all digits |
| `ParallelRadixSort.Sorter.Sort` | common/algorithms/parallel_sort.h:275-292 | `src` is a sorted permutation of what it was; for more items than `blockSize` it is the stable sort, whatever the number of threads |
| `QuickSort.InsertionSort` | common/algorithms/parallel_sort.h:12-26 | the stretch is sorted, the array outside of it unchanged, the items are the same, and items of one key stay in their order |
| `QuickSort.Insert` | common/algorithms/parallel_sort.h:15-24 | one round of the outer loop moves `t[i]` into the sorted stretch before it, behind items with its key |
| `QuickSort.ScanDown` | common/algorithms/parallel_sort.h:123-123 | the scan from the right stops inside the range, at the last item not above the pivot, without a sentinel |
| `QuickSort.ScanUp` | common/algorithms/parallel_sort.h:124-124 | the scan from the left stops inside the range, at the first item not below the pivot, without a sentinel |
| `QuickSort.HoareSplit` | common/algorithms/parallel_sort.h:114-132 | the split satisfies `begin <= right < end`, so both recursive calls shrink; items up to it are at most the pivot, items behind it at least the pivot |
| `QuickSort.QuickInsertionSort` | common/algorithms/parallel_sort.h:103-139 | sorts and permutes every input, duplicates included, for every insertion-sort cutoff |
| `QuickSort.QuickSort` | common/algorithms/parallel_sort.h:44-71 | sorts and permutes every range unless some split point does not fit the 32-bit `int` it passes through, which happens if and only if the range has two items and its last index is above 2^31; up to there the array is only permuted within the range |
| `QuickSort.ToInt32Fits` | common/algorithms/parallel_sort.h:67-69 | a value passes through the `int` unchanged if and only if it lies in [-2^31, 2^31) |
| `QuickSort.NarrowedSplit` | common/algorithms/parallel_sort.h:67-69 | where it goes wrong: behind every changed split point below 2^32-1 the second recursive call starts at a negative index, for instance for the two indices 2^31 and 2^31+1 |
| `QuickSort.StdSort` | common/algorithms/parallel_sort.h:280-284 | the contract of `std::sort`: ascending and the same items, no promise about equal keys |
| `RadixSort32.CountDigits` | common/algorithms/parallel_sort.h:186-200 | counts the items of every digit in the stretch |
| `RadixSort32.HeadsAndTails` | common/algorithms/parallel_sort.h:202-210 | heads and tails are the bounds of the buckets |
| `RadixSort32.RoomFor` | common/algorithms/parallel_sort.h:215-229 | an item held out of its bucket always finds `head[b] < tail[b]` in its own (by counting) |
| `RadixSort32.Exchange` | common/algorithms/parallel_sort.h:221-228 | one exchange keeps every bucket filled with its own items up to its head, and keeps the items |
| `RadixSort32.RoomStep` | common/algorithms/parallel_sort.h:215-229 | every exchange uses up room: the sum of `tail - head` decreases |
| `RadixSort32.Cycle` | common/algorithms/parallel_sort.h:218-229 | a cycle of exchanges comes back to the bucket it started from, keeps the invariant and makes progress |
| `RadixSort32.Distribute` | common/algorithms/parallel_sort.h:212-230 | afterwards every bucket holds exactly the items of its digit, in place |
| `RadixSort32.DistributedReady` | common/algorithms/parallel_sort.h:215-230 | the items of a bucket agree on one digit more than before |
| `RadixSort32.AllSorted` | common/algorithms/parallel_sort.h:233-250 | buckets that are sorted, one after the other in digit order, are sorted |
| `RadixSort32.SortBuckets` | common/algorithms/parallel_sort.h:233-250 | sorts every bucket in place without disturbing the others |
| `RadixSort32.SortFrom` | common/algorithms/parallel_sort.h:179-251 | sorts a stretch whose keys agree above the current digit |
| `RadixSort32.RadixSort` | common/algorithms/parallel_sort.h:179-251 | a sorted permutation for every array of items with 32-bit keys |
| `SerialPartition.AdvanceLeft` | common/algorithms/parallel_partition.h:26-31 | skips and reduces the left items from the left end |
| `SerialPartition.RetreatRight` | common/algorithms/parallel_partition.h:33-38 | skips and reduces the right items from the right end, last one first |
| `SerialPartition.SerialPartitioning` | common/algorithms/parallel_partition.h:12-49 | returns begin plus the number of left items, all of them before that point and no others; a wrong item changes places with the one that has as many wrong ones on its outer side, all others stay; the results are the folds over the two sides in the order visited, and for a reduction whose order does not matter those over the left and right items |
| `Ranks.PassedOver` | common/algorithms/parallel_partition.h:26-38 | passing over right items keeps every item in its place |
| `Ranks.ExchangedInPlace` | common/algorithms/parallel_partition.h:41-43 | the exchange puts the next two wrong items where they belong |
| `Ranks.PartitionedInWindow` | common/algorithms/parallel_partition.h:148-153 | the same, seen from the block of a task |
| `Misplaced.CursorIndex` | common/algorithms/parallel_partition.h:134-141 | the pointer into a range stands at the k-th misplaced index, for every k |
| `Misplaced.ExchangeOne` | common/algorithms/parallel_partition.h:138-141 | exchanging one more pair exchanges exactly that pair |
| `Misplaced.AnyExchangeOrder` | common/algorithms/parallel_partition.h:207-211 | any order of exchanges of different pairs, hence any interleaving of the swap tasks, exchanges exactly those pairs |
| `Misplaced.ExchangeOrderIrrelevant` | common/algorithms/parallel_partition.h:207-211 | two complete runs of all exchanges, in whatever order, leave the same array |
| `Misplaced.EveryRunExchanges` | common/algorithms/parallel_partition.h:206-211 | every complete run of exchanges leaves what is left when all pairs are exchanged |
| `Interleavings.RunDistinct` | common/algorithms/parallel_partition.h:206-211 | tasks with steps of their own, taking turns in any way, never make a step twice |
| `Interleavings.RunComplete` | common/algorithms/parallel_partition.h:206-211 | when all tasks are through, exactly their steps have been made |
| `Interleavings.PiecesRun` | common/algorithms/parallel_partition.h:206-211 | tasks with equal pieces of the exchanges make each exchange exactly once, however they take turns |
| `ParallelPartition.FindStartRange` | common/algorithms/parallel_partition.h:87-97 | finds the range and the index in it of the given misplaced item |
| `ParallelPartition.Balanced` | common/algorithms/parallel_partition.h:199-204 | as many items are misplaced on the left as on the right (what the assertion claims), and no index occurs twice |
| `ParallelPartition.JoinPiece` | common/algorithms/parallel_partition.h:162-166 | joining the reduction of a piece extends the fold by the piece |
| `ParallelPartition.ExchangedSplits` | common/algorithms/parallel_partition.h:206-213 | exchanging all k-th/k-th misplaced pairs partitions at `mid` |
| `Ranks.ExchangedIsPaired` | common/algorithms/parallel_partition.h:206-213 | after all exchanges the k-th wrong item from the front and the k-th wrong one behind `mid` have changed places, and no other item has moved |
| `ParallelPartition.PartitionTask.constructor` | common/algorithms/parallel_partition.h:76-85 | as many tasks as blocks, threads and the limit allow, at least one whenever there are items |
| `ParallelPartition.PartitionTask.PartitionBlock` | common/algorithms/parallel_partition.h:148-159 | a first-phase task partitions its own block and changes no other |
| `ParallelPartition.PartitionTask.PartitionBlocks` | common/algorithms/parallel_partition.h:148-161 | the first phase, its tasks in any order, partitions every block |
| `ParallelPartition.PartitionTask.Combine` | common/algorithms/parallel_partition.h:162-173 | the joined reductions are the folds over all left and all right items, and `mid` is the number of left items |
| `ParallelPartition.PartitionTask.FindMisplaced` | common/algorithms/parallel_partition.h:174-199 | the two range lists hold, in ascending order, exactly the indices of the items on the wrong side |
| `ParallelPartition.PartitionTask.SwapItems` | common/algorithms/parallel_partition.h:99-143 | a swap task exchanges exactly the misplaced pairs of its own slice |
| `ParallelPartition.PartitionTask.SwapAll` | common/algorithms/parallel_partition.h:206-211 | the second phase exchanges every misplaced pair once; the outcome is that of every schedule in which the tasks take turns, pair by pair |
| `ParallelPartition.AnySchedule` | common/algorithms/parallel_partition.h:206-211 | however the swap tasks take turns, pair by pair, the array is the same |
| `ParallelPartition.PartitionTask.Partition` | common/algorithms/parallel_partition.h:145-214 | the number of left items; all left items before the point and no others; a permutation; both reductions equal to the folds, for every task count; and the exact outcome: every block partitioned, then the wrong items of both sides exchanged in order |
| `ParallelPartition.ParallelPartitioning` | common/algorithms/parallel_partition.h:241-264 | the same for `[begin, end)` of an array, below the threshold with the outcome of the serial loop |
| `ParallelFilter.SequentialFilter` | common/algorithms/parallel_filter.h:10-19 | the prefix is the filtered sequence, in order; nothing before the stretch or behind the result changes |
| `HoleFilling.HolesMatchFillers` | common/algorithms/parallel_filter.h:63-90 | there are as many holes before `begin+sused` as kept items behind it; all holes lie before, all fillers at or behind that point |
| `HoleFilling.FillOne` | common/algorithms/parallel_filter.h:81-85 | the k-th hole from the front receives the k-th kept item from the back; what it reads no task writes |
| `HoleFilling.AnyFillOrder` | common/algorithms/parallel_filter.h:63-90 | any order of the copies, hence any interleaving of the tasks, fills the same holes with the same items |
| `HoleFilling.FillOrderIrrelevant` | common/algorithms/parallel_filter.h:63-90 | two complete runs of all copies, in whatever order, leave the same array |
| `HoleFilling.EveryRunFills` | common/algorithms/parallel_filter.h:63-90 | every complete run of copies leaves what is left when all holes are filled |
| `HoleFilling.FilledBag` | common/algorithms/parallel_filter.h:63-91 | with all holes filled the first `sused` items are exactly the kept ones |
| `HoleFilling.FilledIsByRank` | common/algorithms/parallel_filter.h:63-91 | each hole holds the kept item that has as many kept items behind it as there are holes in front of the hole; nothing else has changed |
| `HoleFilling.DescendingRank` | common/algorithms/parallel_filter.h:74-88 | the k-th kept item from the back has k kept items behind it |
| `ParallelFilter.FilterBlock` | common/algorithms/parallel_filter.h:37-46 | a first-phase task compacts its own block and changes no other |
| `ParallelFilter.FilterBlocks` | common/algorithms/parallel_filter.h:37-46 | the first phase, its tasks in any order, compacts every block |
| `ParallelFilter.BlocksAre` | common/algorithms/parallel_filter.h:37-46 | after the first phase the array is the sequence of compacted blocks: kept items in front, in order, the rest as it was |
| `ParallelFilter.NothingFiltered` | common/algorithms/parallel_filter.h:56-60 | if every item is kept nothing changes |
| `ParallelFilter.Offsets` | common/algorithms/parallel_filter.h:48-54 | `sused` is the number of kept items, and `pfree[t]` the number of holes before block `t` |
| `ParallelFilter.HolesOfTask` | common/algorithms/parallel_filter.h:65-73 | the holes of block `t` before `begin+sused` are the ones numbered `r0 .. r1-1` |
| `ParallelFilter.RunOfBlock` | common/algorithms/parallel_filter.h:74-88 | the kept items of source block `i`, counted from the back, are the ones numbered `k0 .. k1-1`, at the indices `src-k+k0-1` |
| `ParallelFilter.CopyRun` | common/algorithms/parallel_filter.h:81-85 | copies a run of kept items from the back into a run of holes |
| `ParallelFilter.FillFromBack` | common/algorithms/parallel_filter.h:74-88 | the loop over source blocks fills all holes of its block, and never needs block 0 |
| `ParallelFilter.FillTask` | common/algorithms/parallel_filter.h:63-89 | a second-phase task fills exactly the holes of its own block |
| `ParallelFilter.FillHoles` | common/algorithms/parallel_filter.h:63-89 | the second phase fills every hole; the outcome is that of every schedule in which the tasks take turns, copy by copy |
| `ParallelFilter.CopiesOfTasks` | common/algorithms/parallel_filter.h:63-90 | the copies of all tasks together are exactly the copies there are to make |
| `ParallelFilter.AnySchedule` | common/algorithms/parallel_filter.h:63-90 | however the fill tasks take turns, copy by copy, the array is the same |
| `ParallelFilter.ParallelFilter` | common/algorithms/parallel_filter.h:21-92 | returns begin plus the number of kept items; the prefix holds exactly the multiset of kept items; nothing outside `[begin, end)` changes; up to the step size the outcome is that of the sequential filter, above it the blocks compacted one by one with each hole filled by its rank; if every item is kept nothing changes |
| `JaggedArrays.ElementAt` | common/algorithms/parallel_for_for.h:99-113 | element `(i, j)` has the flat index `prefix(i) + j` |
| `JaggedArrays.ElementsDistinct` | common/algorithms/parallel_for_for.h:93-114 | different flat indices are different elements: visiting the flat range once visits every element once |
| `JaggedArrays.TilesVisits` | common/algorithms/parallel_for_for.h:93-114 | calls that tile a flat range visit exactly its elements, in order |
| `JaggedArrays.TilesNext` | common/algorithms/parallel_for_for.h:93-114 | every call starts where the one before it ends |
| `ForFor.State.constructor` | common/algorithms/parallel_for_for.h:35-38 | a state built from the sizes is valid for them and has as many tasks as the sizes, the step and the threads allow |
| `ForFor.State.Init` | common/algorithms/parallel_for_for.h:41-73 | never indexes past the last array, terminates, and gives every task the one `(i0,j0)` with `0 < j0 <= size(i0)` (or the very beginning) and `prefix(i0)+j0 == t*N/taskCount`, for any mix of empty and non-empty arrays |
| `ForFor.State.CutArray` | common/algorithms/parallel_for_for.h:62-71 | the inner loop places exactly the tasks that start in the current array |
| `ForFor.Walk` | common/algorithms/parallel_for_for.h:97-113 | a task makes non-empty calls that tile its own flat range, each with the flat index of its first element and each as long as its array allows, and accumulates their values |
| `ForFor.SequentialForFor` | common/algorithms/parallel_for_for.h:10-19 | the sequential loop tiles the flat range with one call for each array that is not empty |
| `ForFor.RunTasks` | common/algorithms/parallel_for_for.h:97-114 | all tasks, in any order: each has walked its own flat range |
| `ForFor.TasksTile` | common/algorithms/parallel_for_for.h:93-114 | the calls of all tasks together tile the whole flat range, for every task count |
| `ForFor.AllTaskCalls` | common/algorithms/parallel_for_for.h:93-114 | a call ends where its array or its task ends, starts likewise, and belongs to one task alone |
| `ForFor.ParallelForFor` | common/algorithms/parallel_for_for.h:93-114 | every element of every array is visited exactly once; each call gets the flat index of its first element and is cut only by the ends of arrays and tasks |
| `ForFor.CallIsFold` | common/algorithms/parallel_for_for.h:122-153 | a `func` that splits over ranges is the fold over the values of single elements |
| `ForFor.AccumulateIsFold` | common/algorithms/parallel_for_for.h:131-148 | accumulating over calls that tile a flat range folds the values of its elements |
| `ForFor.ParallelForForReduce` | common/algorithms/parallel_for_for.h:122-153 | for a monoid and a splitting `func` the result is the left fold over all elements, whatever the task count |
| `PrefixSum.PrefixSumState.Scan` | common/algorithms/parallel_prefix_sum.h:34-43 | `sums[i]` is the sum of the counts before `i`; the sum of all of them is returned |
| `PrefixSum.SequentialPrefixSum` | common/algorithms/parallel_prefix_sum.h:51-56 | the single-threaded loop: `dst[i]` is the fold of the elements before `i` |
| `PrefixSum.CountsAdd` | common/algorithms/parallel_prefix_sum.h:25-43 | the first `t` counts add up to everything before piece `t` |
| `PrefixSum.InitialRun` | common/algorithms/parallel_prefix_sum.h:60-70 | the first pass, its tasks in any order, sums each piece and sets up the start values |
| `PrefixSum.ScannerWrites` | common/algorithms/parallel_prefix_sum.h:73-82 | what a task writes is the prefix sum: the sum before its piece and the sum inside it |
| `PrefixSum.FinalStep` | common/algorithms/parallel_prefix_sum.h:73-82 | one step of one task writes one prefix sum, or stores the count the first pass had stored |
| `PrefixSum.FinalRun` | common/algorithms/parallel_prefix_sum.h:72-83 | the second pass, its tasks interleaved step by step in any order, writes all prefix sums and returns the total |
| `PrefixSum.ParallelPrefixSum` | common/algorithms/parallel_prefix_sum.h:47-84 | `dst` and the result are those of the single-threaded loop, for every associative `add` with identity and every thread count |
| `ForForPrefixSum.PrefixSum0` | common/algorithms/parallel_for_for_prefix_sum.h:27-64 | the first pass returns the fold over all elements and leaves, for every task, the value of everything before its range |
| `ForForPrefixSum.SecondPass` | common/algorithms/parallel_for_for_prefix_sum.h:84-92 | as long as both passes return the same values, a task of the second pass accumulates what it did in the first |
| `ForForPrefixSum.TaskBases` | common/algorithms/parallel_for_for_prefix_sum.h:74-93 | every call of a task of the second pass is given the fold of all values at earlier flat indices |
| `ForForPrefixSum.PrefixSum1` | common/algorithms/parallel_for_for_prefix_sum.h:66-103 | the calls tile the flat range, cut only by the ends of arrays and tasks, each with the right base; the result and the start values of the tasks are again those of the first pass |
| `ForForPrefixSum.SlicesTile` | common/algorithms/parallel_for_for_prefix_sum.h:66-103 | with counts as values the slices `[base, base+count)` follow each other without gap or overlap from 0 to the total |
| `ParallelReduce.ParallelReduceInternal` | common/algorithms/parallel_reduce.h:22-41 | for a monoid and a `func` that splits over ranges the result is `func` of the whole range (the identity if it is empty); `func` of empty ranges matters only if more tasks are asked for than there are items |
| `ParallelReduce.Combine` | common/algorithms/parallel_reduce.h:37-40 | the loop over the values of the tasks puts the whole range together |
| `ParallelReduce.ParallelReduceRange` | common/algorithms/parallel_reduce.h:43-54 | the same with the task count the function computes itself, for every step size and thread count |
| `ParallelReduce.ParallelReduceThreshold` | common/algorithms/parallel_reduce.h:113-121 | with a threshold: the same, except that an empty range below the threshold gives `func` of it instead of the identity |
| `ParallelReduce.RangeFoldSplits` | common/algorithms/parallel_reduce.h:132-138 | the fold over a range of indices splits, so the theorem applies to it |
| `ParallelReduce.ParallelReduceEach` | common/algorithms/parallel_reduce.h:129-139 | the left fold over all indices, whatever the number of tasks |
| `ParallelMap.LowerBound` | common/algorithms/parallel_map.h:62-62 | the contract of `std::lower_bound` on a sorted vector |
| `ParallelMap.SearchFindsFirst` | common/algorithms/parallel_map.h:60-66 | the linear search finds the value of the first pair with the key |
| `ParallelMap.LookupFinds` | common/algorithms/parallel_map.h:60-66 | a search in the sorted vector finds a key if and only if some pair has it, and then a value paired with it |
| `ParallelMap.StableLookup` | common/algorithms/parallel_map.h:55-66 | after a stable sort it finds what a linear search from the front of the original pairs finds |
| `ParallelMap.UnstableLookup` | common/algorithms/parallel_map.h:55-66 | every outcome of a sort that need not be stable gives the value a search from the front gives, if and only if all pairs with the key are the same |
| `ParallelMap.AnyMayBeFirst` | common/algorithms/parallel_map.h:55-66 | each of the pairs with a key is what some sorted order of the pairs makes `lookup` find |
| `ParallelMap.SecondValueFound` | common/algorithms/parallel_map.h:55-66 | an input on which the order matters: two values with one key |
| `ParallelMap.ParallelMap.constructor` | common/algorithms/parallel_map.h:33-33 | a new map is built from no pairs |
| `ParallelMap.ParallelMap.Init` | common/algorithms/parallel_map.h:41-57 | the vector is a sorted permutation of the pairs, a stable one for more than 8192 of them |
| `ParallelMap.ParallelMap.Lookup` | common/algorithms/parallel_map.h:60-66 | finds a key if and only if it was given, with a value paired with it; with the earliest one for more than 8192 pairs, or if all pairs with this key are the same |
| `ParallelMap.ParallelMap.LookupDefault` | common/algorithms/parallel_map.h:69-75 | the same, with the default value for a missing key |
| `ParallelMap.ParallelMap.Clear` | common/algorithms/parallel_map.h:78-80 | afterwards the map holds no pairs |
| `ParallelMap.ParallelSet.constructor` | common/algorithms/parallel_set.h:17-17 | a new set holds no elements |
| `ParallelMap.ParallelSet.Init` | common/algorithms/parallel_set.h:24-37 | the vector is a sorted permutation of the input |
| `ParallelMap.ParallelSet.Lookup` | common/algorithms/parallel_set.h:40-42 | true if and only if the element was in the input |
| `ParallelMap.ParallelSet.Clear` | common/algorithms/parallel_set.h:45-47 | afterwards the set holds no elements |
| `MotionBounds.CoversBetween` | common/math/lbbox.h:50-55 | keyframe motion and bounds are both linear within a segment: containment at two moments gives containment between them |
| `MotionBounds.PointsSuffice` | common/math/lbbox.h:50-55 | containment at both ends and at the keyframes strictly between them gives containment at every moment |
| `MotionBounds.WidenCovers` | common/math/lbbox.h:127-140 | the correction for a keyframe puts it inside and takes nothing out that was inside at any moment |
| `MotionBounds.LeastStep` | common/math/lbbox.h:127-140 | each round of the loop keeps the bounds the least outward shift that covers the keyframes so far |
| `MotionBounds.LeastIsConservative` | common/math/lbbox.h:127-140 | going over the keyframes strictly inside makes bounds conservative that are right at both ends |
| `LinearBounds.FromKeyframes` | common/math/lbbox.h:43-58 | conservative at every moment between the first and the last keyframe, and the least shift of the chord with that property |
| `LinearBounds.ForTimeRange` | common/math/lbbox.h:61-98 | asks only for keyframes that exist if and only if `0 <= lower < 1` and `0 < upper <= 1` (so for all ordered ranges within [0,1] but the two end points); then conservative at every moment of an ordered range, and the least shift of the chord of the range that covers the keyframes inside |
| `LinearBounds.InsideExactly` | common/math/lbbox.h:115-130 | the keyframes gone over are exactly those strictly inside the range |
| `LinearBounds.EndPointsAsk` | common/math/lbbox.h:64-85 | the failing inputs: the range of the end point 1 alone asks for keyframe `segments + 1`, the one of 0 for keyframe -1 |
| `LinearBounds.EarlyReturn` | common/math/lbbox.h:113-128 | under the assertion the early return is taken only when the range lies within one segment |
| `LinearBounds.ForGeometry` | common/math/lbbox.h:100-148 | at every time that is both in the given range and in that of the geometry the keyframe box is inside the interpolated bounds, also for ranges that stick out on either side, for all inputs that meet the assertion; and the bounds are the least shift of the chord |
| `LinearBounds.ForKeys` | common/math/lbbox.h:150-180 | conservative from keyframe `begin` to keyframe `end`, and the least shift of the chord |
| `LinearBounds.ForTarget` | common/math/lbbox.h:182-218 | at every time in both ranges the given linear bounds are inside the new ones; the new ones are the least outward shift of the clipped bounds that holds the given boxes at both ends of the given range; for a target range inside they are equal |
| `LinearBounds.WidenTwice` | common/math/lbbox.h:197-213 | the two corrections give the least outward shift that holds both boxes |
| `LinearBounds.GlobalAt` | common/math/lbbox.h:257-264 | the global bounds at time t are the given bounds at the local time of t |
| `LinearBounds.GlobalRoundTrip` | common/math/lbbox.h:238-264 | `global` and `interpolate` over the same range undo each other, in both orders |
| `LinearBounds.InterpolateWithin` | common/math/lbbox.h:234-240 | interpolating within an interpolated range is interpolating at the time it stands for |
| `Streams.Stream.constructor` | common/lexers/stream.h:67-67 | an empty buffer at the start of the items |
| `Streams.Stream.PopFront` | common/lexers/stream.h:59-62 | throws if and only if nothing is behind the cursor; otherwise the oldest item goes |
| `Streams.Stream.PushBack` | common/lexers/stream.h:54-58 | never throws: when the buffer is full there is an old item to give up; the slots hold the matching window of the items |
| `Streams.Stream.Fill` | common/lexers/stream.h:72-77 | asks for an item only when none is left to deliver |
| `Streams.Stream.Peek` | common/lexers/stream.h:79-82 | the item at the cursor, which does not move; exactly what fits the buffer stays available |
| `Streams.Stream.Get` | common/lexers/stream.h:73-78 | the item at the cursor, which moves on by one |
| `Streams.Stream.Drop` | common/lexers/stream.h:88-91 | moves the cursor on by one |
| `Streams.Stream.Unget` | common/lexers/stream.h:83-87 | moves the cursor back, and throws if and only if one of the items is no longer stored, then changing nothing |
| `Streams.ReadAgain` | common/lexers/stream.h:73-87 | `n` items just read can be put back if and only if `n <= 1024`, and are then read again |
| `CharStreams.StrStream.constructor` | common/lexers/stream.h:162-163 | starts at the first character |
| `CharStreams.StrStream.Next` | common/lexers/stream.h:170-177 | delivers the characters in order, then EOF for ever; the line number counts newlines and the column the characters since, without carriage returns |
| `CharStreams.ColumnSince` | common/lexers/stream.h:170-177 | the column counts the characters since the last newline, carriage returns not included |
| `LineComments.LineCommentFilter.constructor` | common/lexers/streamfilters.h:16-17 | filters the given stream |
| `LineComments.LineCommentFilter.EatLine` | common/lexers/streamfilters.h:28-29 | stops at the first newline, or at the end |
| `LineComments.LineCommentFilter.Next` | common/lexers/streamfilters.h:21-33 | the next character outside of comments; throws if and only if at least 1024 characters agree with the marker before one does not |
| `LineComments.LineCommentFilter.Deliver` | common/lexers/streamfilters.h:21-33 | calling it over and over delivers the stripped text and then EOF; it throws if and only if one of the calls does, and never with markers of at most 1024 characters |
| `LineComments.Delivered` | common/lexers/streamfilters.h:21-33 | the k-th character delivered is the k-th character of the recursively stripped text |
| `LineComments.NoMarkerLeft` | common/lexers/streamfilters.h:21-33 | the stripped text contains no marker anywhere (for a marker without line ends) |
| `LineComments.StripIdempotent` | common/lexers/streamfilters.h:21-33 | stripping twice is stripping once |
| `LineComments.StripIsByLine` | common/lexers/streamfilters.h:21-33 | stripping keeps of each line what stands before its first marker, and the end of the line |
| `LineComments.StripFirstComment` | common/lexers/streamfilters.h:21-33 | up to the first marker everything is kept, then nothing up to the next newline or end of the text, which is kept, and so on from there; for any marker, said by the characters |
| `LineComments.LongMarkerThrows` | common/lexers/streamfilters.h:24-27 | an input on which it does throw: a marker of 1025 equal characters and a text of 1024 |
| `TokenStreams.TokenStream.constructor` | common/lexers/tokenstream.cpp:24-32 | tokenizes the given stream |
| `TokenStreams.TokenStream.TakeRun` | common/lexers/tokenstream.cpp:39-39 | takes exactly the longest run of characters of the category |
| `TokenStreams.TokenStream.DecDigits` | common/lexers/tokenstream.cpp:34-43 | succeeds if and only if an optional sign and at least one digit stand there; takes exactly them, or nothing |
| `TokenStreams.TokenStream.TrySymbol` | common/lexers/tokenstream.cpp:54-62 | takes the symbol, or leaves the cursor where it was, or throws if and only if more characters agree than can be put back |
| `TokenStreams.TokenStream.TrySymbols` | common/lexers/tokenstream.cpp:64-72 | the symbol that is found at the cursor, taken; if none is the cursor is where it was |
| `TokenStreams.TokenStream.ScanNumber` | common/lexers/tokenstream.cpp:91-119 | reads exactly the characters of the number; what it has looked at is known exactly, too |
| `TokenStreams.TokenStream.TryFloat` | common/lexers/tokenstream.cpp:74-125 | the float there, spelled by exactly the characters taken; a failing attempt leaves the cursor where it was, or throws if and only if it had to look more than 1024 characters ahead |
| `TokenStreams.TokenStream.TryInt` | common/lexers/tokenstream.cpp:127-134 | the integer there, spelled by the characters taken, or nothing taken |
| `TokenStreams.TokenStream.TryString` | common/lexers/tokenstream.cpp:136-149 | the text between quotes; nothing taken without an opening quote; throws if and only if another character comes before the closing one |
| `TokenStreams.TokenStream.TryIdentifier` | common/lexers/tokenstream.cpp:151-159 | the longest identifier there, or nothing taken |
| `TokenStreams.TokenStream.SkipSeps` | common/lexers/tokenstream.cpp:161-166 | stops at the first character that is no separator |
| `TokenStreams.TokenStream.Next` | common/lexers/tokenstream.cpp:168-180 | skips separators, then delivers what the first matching alternative finds, and ends exactly behind it |
| `TokenStreams.ReadAll` | common/lexers/tokenstream.cpp:168-180 | calling `next` until the end terminates and delivers the tokens that spell the text |
| `LexingLaws.NumberIsLongest` | common/lexers/tokenstream.cpp:91-119 | a number token is the longest float of the grammar at its position |
| `LexingLaws.NumberFails` | common/lexers/tokenstream.cpp:91-119 | the attempt fails only where no float stands, or where the longest one is a mantissa followed by an exponent letter without digits |
| `LexingLaws.LexThrows` | common/lexers/tokenstream.cpp:168-180 | `next` throws if and only if the first symbol not passed agrees for too long, or no symbol stands there and the failure of a number shows only 1024 or more characters on, or a string has another character in front of its closing quote; all read off the characters of the text |
| `LexingLaws.NumberLost` | common/lexers/tokenstream.cpp:91-124 | a failed attempt to read a float cannot be put back if and only if 1024 or more characters stand before the end of an integer, or before what follows an exponent letter and its sign instead of a digit |
| `LexingLaws.NumberRead` | common/lexers/tokenstream.cpp:74-134 | at any position where a number starts: the float if one stands there, else a throw if the failure shows too late, else the integer |
| `LexingLaws.IntegerRead` | common/lexers/tokenstream.cpp:74-134 | at any position of any text an integer is read if and only if it has fewer than 1024 characters, the sign included; otherwise it throws |
| `LexingLaws.SymbolsThrow` | common/lexers/tokenstream.cpp:64-72 | a list of symbols throws if and only if the first symbol that neither stands there nor is put back in time disagrees only after 1024 or more characters |
| `LexingLaws.ShortSymbolsNeverThrow` | common/lexers/tokenstream.cpp:64-72 | symbols of at most 1024 characters never throw |
| `LexingLaws.LongIntegerThrows` | common/lexers/tokenstream.cpp:74-134 | inputs on which it throws: a minus with 1023 digits, which `tryInt` would read, and a minus with 1022 digits and a bare exponent letter; with 1022 digits alone the integer is read |
| `LexingLaws.NanFirst` | common/lexers/tokenstream.cpp:74-81 | an identifier (starting with a character that starts nothing else) is found whole if and only if it does not start with `nan`, which is otherwise found as a float |
| `LexingLaws.NanoIsSplit` | common/lexers/tokenstream.cpp:74-81 | an input on which it is not: the letters of nano become the float nan and a rest |
| `LexingLaws.LexSpelled` | common/lexers/tokenstream.cpp:168-180 | every token is spelled by the part of the text it covers, and covers at least one character unless the text is over |
| `LexingLaws.EmptySymbolStalls` | common/lexers/tokenstream.cpp:168-180 | the end is delivered if and only if the text is over and no symbol is empty; with an empty symbol `next` delivers that symbol there, for ever |
| `LexingLaws.SymbolAtEnd` | common/lexers/tokenstream.cpp:64-72 | where the text is over an empty symbol anywhere in the list is found, and no other |
| `LexingLaws.EndReached` | common/lexers/tokenstream.cpp:168-180 | calling `next` again and again delivers the end at some point if and only if no symbol is empty and no token throws |
| `LexingLaws.TokenizeWritesText` | common/lexers/tokenstream.cpp:168-180 | separators and spellings of all tokens, one after the other, are the text that was read; at its end there are only separators left, or the next token throws |
| `TokenLaws.TokensAreCalls` | common/lexers/tokenstream.cpp:168-180 | the n-th token is what the n-th call of `next` delivers; the call after the last one delivers the end or throws |
| `TokenLaws.Characters` | common/lexers/tokenstream.cpp:9-14 | the categories of characters and the special words, written out |
| `TokenLaws.SymbolFound` | common/lexers/tokenstream.cpp:64-72 | the first symbol of the list that stands there is found, whatever stands further back in the list |
| `TokenLaws.NoSymbolFound` | common/lexers/tokenstream.cpp:64-72 | no symbol is found if and only if each of them disagrees early enough to be put back |
| `TokenLaws.SpecialFloatFound` | common/lexers/tokenstream.cpp:78-89 | `nan`, `+inf` and `-inf` are found as floats |
| `TokenLaws.FloatFound` | common/lexers/tokenstream.cpp:91-122 | the longest float of the grammar is found, unless it is a mantissa in front of an exponent letter without digits |
| `TokenLaws.StringFound` | common/lexers/tokenstream.cpp:136-149 | a text between quotes that consists of letters, digits and the listed marks is a string token of that text |
| `TokenLaws.IdentifierFound` | common/lexers/tokenstream.cpp:151-159 | a word of letters of the alphabet and digits that starts like no other token is an identifier as a whole |
| `TokenLaws.AnyIdentifierFound` | common/lexers/tokenstream.cpp:151-159 | the same for a word whose first letter could start a number, if no number stands there |
| `TokenLaws.CharFound` | common/lexers/tokenstream.cpp:178-179 | a character at which no token starts is delivered as it is |
| `TokenLaws.SeparatorsSkipped` | common/lexers/tokenstream.cpp:161-166 | a whole run of separators is skipped, and nothing else |
| `Foreach2.ForRow` | common/simd/simd.h:93-109 | one row: stores stay inside the buffers of twice the vector width, the roll-back stays in the row and leaves progress, and nothing is left in the buffer at the end of the last row |
| `Foreach2.ForEach2` | common/simd/simd.h:84-110 | the valid lanes of all calls, in order, are the points of the grid row by row; every call uses a lane, and all but the last use every lane |
| `Foreach2.RowsHold` | common/simd/simd.h:84-110 | the listed points are exactly those of [x0,x1) x [y0,y1) |
| `Foreach2.RowsDistinct` | common/simd/simd.h:84-110 | no point is listed twice |
| `Foreach2.RowsAt` | common/simd/simd.h:84-110 | the points come row by row, and from left to right within a row: the point (u,v) has the number `(v-y0)*(x1-x0) + (u-x0)` |
| `Foreach2.LanesStored` | common/simd/simd.h:95-100 | after a store the buffers hold the lanes before and then the next points of the row |
| `Foreach2.ForEachUnique` | common/simd/simd.h:33-44 | one call for each value of a valid lane, with exactly the valid lanes that hold it, in the order of the first lanes |

## Left out

- `TaskScheduler`, TBB and PPL, cancellation, exceptions in task bodies, affinity: only "every body runs once, in any order" is kept. The number of threads is a parameter. `parallel_reduce` is the variant with internal tasking.
- First phases (counting, block partitioning, block filtering, block sums) and the swap and fill tasks run as whole tasks in any order; their footprints are disjoint. Step-by-step interleaving is modelled for the copying phase of the radix sort and the writing phase of the prefix sum, and by schedules of single exchanges and copies for partitioning and filtering. Weak memory is not modelled.
- SIMD registers, aligned loads, prefetching: the scalar loops given in the comments of the radix sort are modelled, and lanes are lists of points.
- Floating point: bounds are over exact reals, without rounding, NaN or infinities, and for one coordinate; `numTimeSegments` is a whole number. Reciprocals, areas, `extend`, `merge` and `subset` are left out as one-line formulas.
- Machine integers: no overflow in `(t+1)*N`, counters below 2^32, `x+VSIZEX` below 2^31. The narrowing to `int` in `quicksort_ascending` is modelled.
- QuickSort.QuickSort: stops where a split point is changed by the narrowing, because the recursion of the source would then go on over a wrong range; what happens there is not modelled.
- QuickSort.StdSort: only the contract of `std::sort` is modelled; its body here is the quicksort of the same file. `std::lower_bound` and `std::binary_search` likewise are a plain bisection.
- Keys are unsigned: signed keys of the LSD sort would come out in another order than `compare` gives.
- The descending sorts mirror the ascending ones.
- ParallelFilter.ParallelFilter: requires `minStepSize > 0` for a range that is not empty, as the block count divides by it.
- `ForForPrefixSum.Finish` stores the counts of the tasks after the last task, not inside each of them; nothing reads them in between.
- The per-task counter and reduction arrays of the partitioning task are one sequence of records, and the range lists are sequences instead of arrays with a length.
- PrefixSum.ParallelPrefixSum: `src` and `dst` are different arrays, and the thread count is the same in both passes.
- LinearBounds.ForTimeRange: stops where a keyframe outside of the sequence is asked for; what the caller's function returns there is not modelled.
- Source locations of tokens, error texts, the values `atof` and `atoi` give, file and command-line streams: tokens are modelled by their text. `decDigits1` is not used.
- The token stream as a buffered stream of tokens: `Streams.Stream` covers the buffer for any item type; only the production of tokens is modelled.
- `foreach_unique_index`, `next_unique` and `next_unique_index` repeat the loop body of `foreach_unique`.
- `parallel_any_of.h`, the vector, matrix, color and quaternion headers, the kernels and the public interface: not part of this model.
