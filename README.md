# HSS per-worker logic, modelled in Dafny

The program `hss.cpp` sorts an integer array with p worker threads using
Histogram Sort with Sampling. Each worker:

1. copies its chunk of the input and sorts it;
2. takes part in sampling rounds, where worker 0 picks splitters and every
   worker builds a capped histogram;
3. keeps the values of its own bucket and sorts them.

At the end, `main` concatenates the workers' vectors in thread-id order,
checks the element count and checks the order.

This project models the sequential logic of one worker and of the final
checks in `main`. The threads, barriers and mutex are not modelled. Shared
state is passed explicitly as values:

- the sample pool (`config.splitters`);
- a worker's `splitter_intervals`;
- the `target_max` cap.

Modules, one per component of `hss_thread` and `main`:

- `Sorting`: `Sorted` (the order `std::sort` gives and `std::is_sorted` checks), and `Sort`, a model of `std::sort` that returns a sorted permutation. A sorted permutation is unique, so this contract fixes the result.
- `Chunking`: the chunk range planner, the `Chunk` a worker copies, and the owner of each index.
- `Bins`: the bin `distance(begin, upper_bound(splitters, v))`. `UpperBoundFrom` spells out the halving search, so the bin is defined on any pool. Lemmas tie it to "number of entries <= v" on partitioned or sorted pools, and prove it monotone in the value on every pool.
- `Partition`: `OwnBucket` (the values a worker keeps) and the `push_back` loop that builds it.
- `Histogram`: the capped `local_hist` loop.
- `Splitters`: the selection by worker 0, the rank formula, and the line that adds counters into the pool.
- `Assembly`: the concatenate, count and validate steps of `main`, with their `Outcome` and exit code.
- `Worker`: the class `ThreadData`. Its `localData` field is loaded, sorted and replaced in place.
- `Pipeline`: all workers run against a given final pool, plus the end-to-end properties.
- `Arithmetic`: small multiplication and division facts used by the index arithmetic.

What `hss.cpp` does, which the model follows:

- The splitter rank is `(i + 1) * (T / p)` for a pool of T samples (line 81). When T < p every rank is 0, so every interval is the smallest sample. With p >= 2 the pool must be non-empty for line 81 to read it (`SelectSplitters`).
- Each thread owns its `splitter_intervals`, created as p - 1 zeros (line 63, `InitialIntervals`). Only worker 0, in round 0, fills them (lines 78-83). Every other worker builds its histogram against zeros, which puts every negative value in bin 0 and every other value in bin p - 1 (`ZeroIntervalsBin`).
- The histogram counters are added into the first p entries of the shared pool (line 98, `AddHistogram`), which can turn a sorted pool into an unsorted one (`AddHistogramCanUnsort`). For p >= 3 the round loop at line 65 runs at least twice. Line 73 appends the later rounds' samples after the pool, and only round 0 sorts it (lines 78-79). So the final pool is in general unsorted.
- The final partition searches that pool (`config.splitters`, line 106), not `splitter_intervals`. The bin is not clamped, so a bin of p or more belongs to no worker.
- Calling `upper_bound` on a range that is not partitioned with respect to the value is undefined behaviour in C++. The model follows the halving loop that the usual standard libraries run in release builds. That loop is monotone in the value on every sequence, sorted or not (`UpperBoundFromMonotone`). So, with that loop, the buckets come out in order whatever the pool is (`OutputSorted`), and the "Sorting failed!" branch (line 168) is never taken (`RunPipeline`). A library build that checks the precondition would abort at line 106 instead.
- Workers exchange no values. Each worker keeps only the values of its own chunk whose bin is its own id, and drops the rest (lines 104-110). So the count check at line 155 fails exactly when some value's bin is not the worker that loaded it (`NoLossIffNoneMisplaced`, `RunPipeline`). When it passes, the output is exactly the sorted input (`ValidatedIsSortedInput`).
- Two workers on [2, 1] lose a value. `TwoWorkersRound` traces their single sampling round through the model's operations. It assumes `target_max` >= 1, which `(1 + ε) * (2 / 2)` is for every ε >= 0. The round ends with the pool [1, 4]. `TwoWorkersLoseOne` shows that the final partition against [1, 4] keeps only the value 1.
- ε is used: it sets the histogram cap `target_max` (line 62).

## Model

| member | source | states |
|---|---|---|
| `Sorting.Sort` | hss.cpp:57 | the result is non-decreasing and a permutation of the input (what `std::sort` guarantees) |
| `Sorting.SortedPermutationUnique` | hss.cpp:111 | two sorted sequences with the same multiset are equal, so a sort's result is determined and re-sorting sorted output changes nothing |
| `Chunking.ChunkEnd` | hss.cpp:53-55 | every worker's range is well formed: start <= end <= n |
| `Chunking.ChunksAdjacent` | hss.cpp:53-55 | worker 0 starts at 0, worker p-1 ends at n, and worker tid ends where worker tid+1 starts |
| `Chunking.ChunksDisjoint` | hss.cpp:53-55 | an earlier worker's range ends no later than a later worker's range starts |
| `Chunking.OwnerHoldsIndex` | hss.cpp:53-55 | every index in [0, n) lies in the range of a worker below p |
| `Chunking.OwnerUnique` | hss.cpp:53-55 | that worker is the only one whose range holds the index |
| `Bins.UpperBoundFrom` | hss.cpp:90 | the `upper_bound` search over [first, first+len) returns a position in that range |
| `Bins.Bin` | hss.cpp:90-91 | the bin lies in [0, \|splitters\|] for every pool, sorted or not |
| `Bins.UpperBoundFromSplits` | hss.cpp:90 | on a range partitioned with respect to v, the search stops exactly between the entries <= v and the entries > v |
| `Bins.BinIsCountAtMost` | hss.cpp:90-91 | on a partitioned (for example sorted) pool the bin equals the number of entries <= v |
| `Bins.UpperBoundFromMonotone` | hss.cpp:90 | on every range, sorted or not, the search result does not decrease as the value grows |
| `Bins.BinMonotone` | hss.cpp:106 | on every pool, v <= w implies bin(v) <= bin(w) |
| `Bins.BinsOrdered` | hss.cpp:106-107 | on every pool, a value in a lower bin is strictly below a value in a higher bin |
| `Partition.KeepOwnBucket` | hss.cpp:104-110 | the `push_back` loop yields exactly `OwnBucket`: the values whose bin is tid, in input order |
| `Partition.OwnBucketCount` | hss.cpp:104-110 | the bucket keeps every copy of a value whose bin is tid and no copy of any other value |
| `Partition.OwnBucketSubMultiset` | hss.cpp:104-110 | the bucket is a sub-multiset of the worker's data |
| `Partition.OwnBucketMembers` | hss.cpp:107-108 | every kept value comes from the worker's data and has bin tid |
| `Partition.OwnBucketKeepsAll` | hss.cpp:104-110 | nothing is dropped if and only if every value of the data has bin tid |
| `Partition.OwnBucketPermutation` | hss.cpp:57 | which values are kept depends only on the multiset of the data, not on its order (the data is the sorted chunk) |
| `Histogram.LocalHistogram` | hss.cpp:88-95 | p counters; counter b ends at min(size of bin b, max(0, target_max)); so every counter is in [0, max(0, target_max)], each access is in bounds, and the counters sum to at most \|local_data\| |
| `Splitters.ZeroIntervalsBin` | hss.cpp:63 | against the p-1 zero intervals a worker other than 0 keeps, a negative value has bin 0 and every other value bin p-1 |
| `Splitters.SplitterRank` | hss.cpp:81 | for a pool of T >= 1 samples, each of the p-1 ranks (i+1)*(T/p) is a valid index (< T) |
| `Splitters.RankMonotone` | hss.cpp:80-82 | ranks do not decrease with the interval index |
| `Splitters.SelectSplitters` | hss.cpp:78-83 | worker 0 in round 0 sorts the pool (a permutation) and writes exactly p-1 intervals, each the sample at its rank, so they are non-decreasing; otherwise pool and intervals are unchanged |
| `Splitters.AddHistogram` | hss.cpp:98 | entry i of the pool grows by counter i for i < p; later entries are unchanged |
| `Splitters.AddHistogramCanUnsort` | hss.cpp:98 | on any sorted pool, adding the counters entry by entry, where counter 0 exceeds counter 1 by more than the gap between the first two samples, leaves the pool unsorted |
| `Assembly.FlattenLength` | hss.cpp:150-151 | the concatenation's length equals the sum of the bucket sizes |
| `Assembly.FlattenSubMultiset` | hss.cpp:150 | parts that are sub-multisets, position by position, concatenate to a sub-multiset |
| `Assembly.TotalSizeAtMost` | hss.cpp:151 | part-wise bounded sizes sum to at most the bound's total, with equality if and only if every part reaches its bound |
| `Assembly.FlattenSorted` | hss.cpp:165 | sorted parts, each below every later part, concatenate to a sorted sequence |
| `Assembly.Assemble` | hss.cpp:147-152 | `sorted` is the tid-order concatenation of the buckets, and `total_elements` is the sum of their sizes and equals \|sorted\| |
| `Assembly.Validate` | hss.cpp:155-169 | the loss error (exit code 1) is taken exactly when the total differs from `array_size`; it reports that difference modulo 2^64 (`size_t` subtraction); otherwise the run validates exactly when the output is sorted |
| `Worker.ThreadData.constructor` | hss.cpp:139-141 | a new worker has the given tid and an empty `local_data` |
| `Worker.ThreadData.LoadChunk` | hss.cpp:53-57 | afterwards `local_data` is sorted and a permutation of data[start..end) |
| `Worker.ThreadData.SortLocalData` | hss.cpp:57 | `local_data` becomes a sorted permutation of itself |
| `Worker.ThreadData.ExtractBucket` | hss.cpp:104-112 | afterwards `local_data` is sorted and, as a multiset, equals the old values whose bin is tid; every other value is dropped |
| `Pipeline.RunWorker` | hss.cpp:53-112 | a worker ends with the sorted values of its own chunk whose bin is its tid |
| `Pipeline.RunPipeline` | hss.cpp:140-169 | with all p workers run, against any pool, the loss error is reported exactly when some value's bin is not its owner; otherwise the run validates, so the order check never fails, and a validated run outputs exactly the sorted input (same multiset, in order) |
| `Pipeline.ChunksTile` | hss.cpp:53-56 | the chunks, concatenated in worker-id order, are exactly the input |
| `Pipeline.OutputSubMultiset` | hss.cpp:104-112 | no value is created: the assembled output is a sub-multiset of the input |
| `Pipeline.OutputSorted` | hss.cpp:165 | whatever the pool, sorted or not, the assembled output is sorted |
| `Pipeline.NoLossIffNoneMisplaced` | hss.cpp:147-158 | the total is at most n, and equals n if and only if every value's bin is the worker owning its index |
| `Pipeline.ValidatedIsSortedInput` | hss.cpp:147-166 | for any number of workers, when no value is misplaced the output is sorted and has exactly the input's multiset |
| `Pipeline.SingleWorker` | hss.cpp:65 | given the empty pool of a one-worker run (the loop runs log2(1) = 0 times), nothing is lost and the output is a sorted permutation of the input |
| `Pipeline.SortedFiveValues` | hss.cpp:57 | the only sorted permutation of [5, 3, 1, 4, 2] is [1, 2, 3, 4, 5] |
| `Pipeline.FiveValuesOneWorker` | hss.cpp:147-150 | one worker on [5, 3, 1, 4, 2] outputs [1, 2, 3, 4, 5] |
| `Pipeline.TwoWorkersSplitters` | hss.cpp:53-83 | two workers on [2, 1] load [2] and [1]; worker 0 sorts the pooled samples to [1, 2] and gets the interval [2]; worker 1 keeps [0] |
| `Pipeline.TwoWorkersHistograms` | hss.cpp:88-95 | with those intervals and target_max >= 1, both workers' histograms are [0, 1] |
| `Pipeline.TwoWorkersRound` | hss.cpp:53-98 | with target_max >= 1 (every ε >= 0), that round leaves the pool [1, 4] |
| `Pipeline.TwoWorkersBucketContents` | hss.cpp:104-110 | on [2, 1] with pool [1, 4], worker 0 keeps nothing and worker 1 keeps the value 1 |
| `Pipeline.TwoWorkersLoseOne` | hss.cpp:147-158 | in that run the output is [1] and the total is 1, so the loss error path is taken |

`Chunking.ChunkStart` (hss.cpp:54), `Chunking.Chunk` (hss.cpp:56), `Splitters.InitialIntervals` (hss.cpp:63) and `Assembly.Outcome.ExitCode` (hss.cpp:158, 173) model source lines but have no row of their own. Their meaning is stated by `ChunkEnd` and `ChunksTile`, by `LoadChunk`, by `ZeroIntervalsBin`, and by `Validate`.

## Left out

- Threads, the barrier and the mutex (hss.cpp:16-17, 59, 72-76, 85, 97-101, 135-145, 171-172): they only order the steps. Each step is modelled as a sequential function or method, and shared data is passed as values.
- Sampling with `std::sample` and `std::random_device` (hss.cpp:67-70) is random. Appending the samples to the pool (hss.cpp:73) is left out with it: the pool is an input of `SelectSplitters`, and the final pool is an input of `RunPipeline`.
- The sampling-round loop (hss.cpp:65-66) has a `log2(p)` bound and a sample size computed in floating point. Its rounds are not iterated. The `iter` parameter of `SelectSplitters` marks the round.
- `target_max` (hss.cpp:62) is computed in floating point and truncated to `int`. It is an integer parameter here.
- `generate_data` with `mt19937` (hss.cpp:29-34), `print_array` and all console output (hss.cpp:36-44, 131-133, 161-169): these are randomness and I/O. `Validate` models only which message is chosen and the exit code.
- Argument parsing and the usage error (hss.cpp:117-127): this is I/O and configuration.
- Integer width: indices, sizes, `int` counters and pool additions are unbounded integers here with no overflow. Only the reported loss count wraps modulo 2^64.
- `std::sort` is modelled by its contract. `Sort` is an insertion sort over a sequence. Vectors are `seq` values, and in-place updates reassign the field or variable.
- `Bins.Bin`: on a range that is not partitioned with respect to the value, calling `upper_bound` is undefined behaviour. The model follows the library's halving loop there. On such a range it proves only the bound and monotonicity in the value, and the order results rely on that monotonicity. A checking library build, which aborts on such a call, is not modelled.
- `Splitters.AddHistogram` requires the pool to have at least p entries. The program indexes past the end of a smaller pool at hss.cpp:98, which is undefined behaviour and is not modelled.
- `Splitters.SelectSplitters` requires a non-empty pool when p >= 2. At hss.cpp:81, with an empty pool (n = 0), the program reads past the end.
- p = 0 is not modelled. Every member requires at least one worker. With p = 0, `main` (hss.cpp:138-158) would start no thread and report all n values lost, or validate when n = 0.
