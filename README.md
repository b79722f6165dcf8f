# Multiple-snapshot attack on Artifice: a verified model

The repository studies an attacker who compares several snapshots of a disk
and tries to spot a hidden Artifice volume. The attacker looks for runs ("chains")
of consecutive changed blocks. Artifice writes its shares to scattered free
blocks, so it leaves an excess of chains of length 1 ("singletons"). This
project models the computational core of that study in Dafny and proves what
each step computes:

- `uniform_writes.py`, in `chain_stats.dfy` and `combinatorics.dfy`:
  - tabulating the chains of a change record into a dictionary `length -> count`, and turning that dictionary into a
    `length | count | share` table;
  - the closed-form chain distribution for `k` uniform writes over `n` blocks (`comb`, `chains_per_partition`,
    `partition`, `all_partitions`, `chain_probability`);
  - the simulation of `k` distinct random writes.
- `experiment_utils.py`, in `experiment_utils.dfy`:
  - sampling a chain dictionary from a real disk's chain table until a target number of changes is reached, best of
    ten runs;
  - planting Artifice singletons in a dictionary;
  - building the labelled data set;
  - the singleton-fraction feature;
  - the classifier metrics.
- `artifice_utils.py`, in `artifice_utils.dfy`: the size of an Artifice instance's metadata (map blocks, map-of-map
  blocks, pointer blocks and replicas) and its total footprint under AONT-RS.

`histograms.dfy` holds the dictionary model shared by the others:
- a chain dictionary is a `map<int, int>`;
- `TotalCount` is the number of chains; `TotalChanges` is the number of changed blocks, `length * count` summed over
  the map;
- `HistogramOf` is the dictionary of a list of chain lengths, and it is proved to be that list's multiset.

Randomness is a parameter.
- `get_clean_chains` reads its uniform draws from a stream `rng: nat -> real` starting at position `start` and
  reports how many draws it used. The generators that call it chain these positions.
- `random_writes` picks any unwritten slot; the proof does not depend on which one.
- Each call of `get_clean_chains` made by `gen_data` is recorded as a ghost `SampleTrace`: where it started in the
  stream, the chain lists of its ten runs and the run it returned. `BestOfEach` states that every sample in the data
  set is the earliest fewest-changes run of its trace for its table and target. `Chained` states that the calls
  follow one another in the stream.

`partition(n)` in the code builds every ordered tuple of positive integers summing to `n`. Those are compositions,
not the integer partitions its docstring names, so `(1, 2)` and `(2, 1)` are both present. The model follows the
code. `Combinatorics.PartitionCard` proves there are `2^(n-1)` of them. `chain_probability` then weights each
composition separately.

## Model

| member | source | states |
|---|---|---|
| ChainStats.ConstructConsecutiveChangesDict | src/uniform_writes.py:5-32 | The dictionary is exactly the multiset of maximal runs of 1s, including a run still open when the record ends. Every key is a positive length no longer than the record. The lengths times counts add up to the number of 1s. The counts add up to the number of runs. |
| ChainStats.ChainsHistogram | src/uniform_writes.py:14-32 | The dictionary of a record's runs is valid, has keys no longer than the record, and its changes and counts add up to the number of 1s and the number of runs. |
| ChainStats.ChainsFacts | src/uniform_writes.py:14-30 | The run lengths add up to the number of 1s. There is one run per 1 that is not preceded by a 1. Every length is between 1 and the record length. |
| ChainStats.RunFacts | src/uniform_writes.py:14-23 | The same facts for the closed runs plus the trailing open run, stated for every prefix the loop passes through. |
| ChainStats.RunStep | src/uniform_writes.py:15-23 | Reading a 1 extends the open run. Reading anything else closes a non-empty open run and appends it to the closed runs. |
| ChainStats.HistogramOfSnoc | src/uniform_writes.py:18-21 | Recording one more chain adds 1 to that length's count, inserting the key with count 1 when it is new. |
| ChainStats.ConsecutiveChangeDictToMatrix | src/uniform_writes.py:34-51 | An empty dictionary is an error; numpy's max fails on it. Otherwise the table has one row per length from 1 to the largest key. Row i holds length i+1, its count (0 if absent) and count / total chains. The count column adds up to the number of chains and the share column adds up to 1. |
| ChainStats.FillCounts | src/uniform_writes.py:46-49 | Writes each key's count and share into row key-1, leaves column 0 alone and leaves unlisted rows at 0. |
| ChainStats.ColumnSums | src/uniform_writes.py:41-49 | When the rows hold a dictionary's counts and shares, the columns add up to the dictionary's total count and to that total's share. |
| ChainStats.ChainShare | src/uniform_writes.py:49 | The share column entry value / total_chains lies in [0, 1]. It is 0 exactly when the length is absent and 1 exactly when it is the only length. |
| Histograms.MaxKey | src/uniform_writes.py:42 | The largest key of a non-empty dictionary: it is a key and no key exceeds it. |
| Histograms.Record | src/uniform_writes.py:18-21 | Recording chain c adds c to the keys, sets its count to the old count plus 1, and keeps every other count. |
| Histograms.HistogramOfCounts | src/uniform_writes.py:14-30 | The dictionary built from a chain list has exactly that list's lengths as keys, and each count is that length's multiplicity. |
| Histograms.HistogramOfSums | src/uniform_writes.py:14-30 | The changes in a list's dictionary add up to the list's sum, and its counts add up to the list's length. |
| Histograms.HistogramOfValid | src/uniform_writes.py:14-30 | The dictionary of positive chain lengths has positive keys and positive counts. |
| Histograms.MapSumRemove | src/uniform_writes.py:41 | Summing a dictionary's values equals one entry's term plus the sum of the rest, whichever key is taken out. |
| Histograms.MapSumAdd | src/experiment_utils.py:52-55 | Adding a to one key's count raises the count sum by a, and the change sum by a times the key. |
| Histograms.MapSumAsRange | src/uniform_writes.py:44-49 | The sum over a dictionary's keys equals the sum over lengths 1..n of the counts, absent lengths counting 0. |
| Histograms.CountAtMostTotal | src/experiment_utils.py:102-104 | With non-negative counts, any one count lies between 0 and the total count. |
| Histograms.NonNegativeTotal | src/experiment_utils.py:102 | Non-negative counts have a non-negative total. |
| Histograms.TotalCount | src/uniform_writes.py:41 | The number of chains, sum(dict.values()): 0 for an empty dictionary and at least the number of keys when every count is positive. |
| Histograms.ShareBounds | src/uniform_writes.py:49 | In a non-empty valid dictionary a length's share count / total lies in [0, 1]. It is 0 exactly when the length is absent and 1 exactly when it is the only length. |
| Combinatorics.FactBinomial | src/uniform_writes.py:60-61 | For r <= n, the Pascal-triangle binomial times r!(n-r)! is n!. |
| Combinatorics.CombIsBinomial | src/uniform_writes.py:53-63 | comb(n, r), a factorial quotient for r <= n and 0 otherwise, equals the Pascal-triangle binomial coefficient. |
| Combinatorics.CombPositive | src/uniform_writes.py:60-63 | comb(n, r) is positive exactly when r <= n. |
| Combinatorics.BinomialBeyond | src/uniform_writes.py:62-63 | The reference binomial is 0 when r > n, agreeing with comb's else branch. |
| Combinatorics.BinomialPositive | src/uniform_writes.py:60-61 | The reference binomial is at least 1 when r <= n. |
| Combinatorics.FactBinomialStep | src/uniform_writes.py:60-61 | Pascal's rule carries the factorial identity from n - 1 to n. |
| Combinatorics.ChainsPerPartition | src/uniform_writes.py:65-75 | The vector has one slot per unit of the partition's sum. Slot i holds how many parts equal i+1. The slots add up to the number of parts, and weighted by length to the sum. |
| Combinatorics.PartsAtMostSum | src/uniform_writes.py:71-73 | Each positive part is at most the sum, so r[p - 1] is in range, and there are at most sum-many parts. |
| Combinatorics.CountsUpToParts | src/uniform_writes.py:72-73 | Counting parts by length over 1..n recovers the number of parts and, weighted, their sum. |
| Combinatorics.Partition | src/uniform_writes.py:77-88 | partition(n) always contains the one-part tuple (n). |
| Combinatorics.TailsMembers | src/uniform_writes.py:85-87 | A tuple comes from the loop up to x = m exactly when it starts with some x in 1..m followed by a member of partition(n - x). |
| Combinatorics.PartitionIsCompositions | src/uniform_writes.py:77-88 | For n >= 1, a tuple is in partition(n) exactly when it is non-empty, all its entries are positive and they add up to n. |
| Combinatorics.CompositionSplit | src/uniform_writes.py:85-87 | A tuple other than (n) is a composition of n exactly when its head is positive and its tail is a composition of the rest. |
| Combinatorics.PartitionSplit | src/uniform_writes.py:83-87 | A tuple other than (n) is in partition(n) exactly when its head x is in 1..n-1 and its tail is in partition(n - x). |
| Combinatorics.PartitionCard | src/uniform_writes.py:77-88 | partition(n) has 2^(n-1) members. |
| Combinatorics.PrefixedCard | src/uniform_writes.py:87 | Prefixing every tuple with the same x loses none of them. |
| Combinatorics.AllPartitions | src/uniform_writes.py:90-96 | The list holds exactly the members of partition(n), each once. |
| ChainStats.ChainProbability | src/uniform_writes.py:98-120 | For 1 <= k <= n, each entry is the sum over the compositions p of k of its term. prob_per_chain[i] sums P(p) times the share of p's parts of length i+1. expected_chains_by_size[i] sums P(p) times the count of such parts. expected_chains sums P(p) times len(p). P(p) = comb(n-k+1, len(p)) / comb(n, k). The by-size vector adds up to expected_chains. prob_per_chain adds up to the total probability of all compositions. |
| ChainStats.PartitionProbability | src/uniform_writes.py:109 | For 1 <= k <= n, partition_probability is binomial(n-k+1, len(p)) / binomial(n, k) with a non-zero denominator. It is never negative and is positive exactly when len(p) <= n-k+1. |
| ChainStats.CombQuotient | src/uniform_writes.py:109 | comb(n-k+1, m) / comb(n, k) is the quotient of the reference binomials, with comb(n, k) > 0, and is positive exactly when m <= n-k+1. |
| ChainStats.AccumulatePartition | src/uniform_writes.py:109-118 | One loop step adds P(p) times p's share vector to prob_per_chain, which raises its sum by exactly P(p). It adds P(p) times p's count vector to the by-size vector and P(p) times len(p) to expected_chains. |
| ChainStats.ShareVector | src/uniform_writes.py:113-114 | chains / sum(chains) scaled by P(p) has entries P(p) times count / len(p) and adds up to P(p). |
| ChainStats.ScaledVector | src/uniform_writes.py:118 | chains scaled by P(p) adds up to P(p) times len(p). |
| ChainStats.SeqSumIsSetSum | src/uniform_writes.py:108 | Summing over a duplicate-free list of the compositions gives the same total as summing over the set, whatever the list's order. |
| ChainStats.AddVector | src/uniform_writes.py:114 | Element-wise `+=` adds v to each entry and adds v's sum to the array's sum. |
| ChainStats.RandomWrites | src/uniform_writes.py:122-136 | Given writes <= disk_size, the disk holds only 0s and 1s and exactly max(writes, 0) 1s. |
| ChainStats.OnesUpdate | src/uniform_writes.py:134 | Writing one slot changes the number of 1s by the difference it makes at that slot. |
| ChainStats.UnwrittenSlot | src/uniform_writes.py:131-133 | While fewer than disk_size slots hold 1, some slot does not, so the rejection loop has a slot to find. |
| ChainStats.OnesZeros | src/uniform_writes.py:129 | A zeroed disk has no 1s. |
| ExperimentUtils.Cumulative | src/experiment_utils.py:16-17 | The cumulative probability column has one entry per row. Entry i is the sum of the first i+1 probabilities, except the last, which is forced to 1.0. |
| ExperimentUtils.FirstAtLeastIsFirst | src/experiment_utils.py:28 | argmax(c >= x) is the first index whose entry reaches x. When no entry reaches x it is 0, as numpy's argmax of an all-false vector is. |
| ExperimentUtils.DrawFindsRow | src/experiment_utils.py:17-28 | With the last entry forced to 1.0, every draw x <= 1 lands on a row whose cumulative entry reaches x, after rows that do not. |
| ExperimentUtils.ChainAt | src/experiment_utils.py:27-29 | The drawn chain is the length column of some row of the table. |
| ExperimentUtils.SampleRun | src/experiment_utils.py:23-36 | One run draws chains from the stream until the changes reach the target and stops at the first such draw. Its dictionary is the multiset of the drawn chains and its change count is their sum. The dictionary meets the sampling guarantees of `RunSummary`, and its changes equal the returned count. |
| ExperimentUtils.StopsEmpty | src/experiment_utils.py:26 | With a target of 0 or less, a run draws nothing. |
| ExperimentUtils.StopsOvershoot | src/experiment_utils.py:26-36 | With a positive target, a run draws something and overshoots the target by less than its last chain. |
| ExperimentUtils.RunSummary | src/experiment_utils.py:23-36 | A run's dictionary lists only table lengths with positive counts. Its changes equal the chains' sum, reach the target, and stay below target plus the longest table length. A non-positive target gives the empty dictionary. |
| ExperimentUtils.SmallestFirstSnoc | src/experiment_utils.py:38-40 | The strict `changes < min_changes` update keeps the earliest run with the fewest changes. |
| ExperimentUtils.RunsSnoc | src/experiment_utils.py:22-42 | Appending a finished run to the runs so far extends the draw bookkeeping: draws consumed and totals per run. |
| ExperimentUtils.GetCleanChains | src/experiment_utils.py:6-43 | Performs runs >= 1 independent runs, consecutive in the stream. The result is the dictionary of the earliest run with the fewest changes, and it satisfies the sampling guarantees of `RunSummary`. |
| ExperimentUtils.RecordSample | src/experiment_utils.py:75-89 | Appending one call of get_clean_chains that starts where the previous calls stopped, on the next table and target, extends the record of best-of-ten samples and the stream chaining. |
| ExperimentUtils.BestOfEachSampled | src/experiment_utils.py:75-89 | Every dictionary recorded as a best-of-ten sample meets the sampling guarantees for its table and target. |
| ExperimentUtils.ChainedSnoc | src/experiment_utils.py:76-80 | A call that starts where the earlier calls ended extends the chain of stream positions to its own end. |
| ExperimentUtils.ChainedAppend | src/experiment_utils.py:75-89 | The clean loop's calls followed by the Artifice loop's calls, the second starting where the first ended, chain from the first start to the last end. |
| ExperimentUtils.WithArtificeOnes | src/experiment_utils.py:52-55 | Planting a singletons keeps every key and adds length 1. The count at length 1 becomes the old count (0 if absent) plus a, and every other count is unchanged. |
| ExperimentUtils.ArtificeOnesEffect | src/experiment_utils.py:45-57 | Planting a singletons raises the total count and the total changes both by exactly a. A valid dictionary stays valid for a >= 1. |
| ExperimentUtils.ChainDict.AddArtificeOnes | src/experiment_utils.py:45-57 | Updates the dictionary in place to the planted dictionary and returns the same object. |
| ExperimentUtils.CleanSample | src/experiment_utils.py:77-78 | One clean sample: a new dictionary holding the best-of-ten sample of table i mod len(in_data) toward the target, recorded after the earlier samples and starting in the stream where they stopped. |
| ExperimentUtils.NewPlanted | src/experiment_utils.py:85-86 | A new dictionary object holding the sample with a singletons planted. |
| ExperimentUtils.ArtificeSample | src/experiment_utils.py:84-86 | One Artifice sample: a new dictionary holding the best-of-ten sample of table i mod len(in_data) toward public_changes[i mod len], with artifice_singletons[i mod len] singletons planted, recorded after the earlier samples and starting in the stream where they stopped. |
| ExperimentUtils.CleanSamples | src/experiment_utils.py:75-80 | Produces max(clean_samples, 0) distinct new dictionaries. Dictionary i is what get_clean_chains returns for table i mod len(in_data) and clean_changes: the earliest fewest-changes run of ten, each run stopping at the target. Its keys are table lengths and its changes reach clean_changes with overshoot below the longest length. The calls draw from the stream one after another, and the returned position follows the last one. |
| ExperimentUtils.ArtificeSamples | src/experiment_utils.py:82-89 | Produces max(artifice_samples, 0) distinct new dictionaries. Dictionary i is the get_clean_chains result for table i mod len(in_data) toward public_changes[i mod len], best of ten runs, with artifice_singletons[i mod len] singletons planted. The calls draw from the stream one after another. |
| ExperimentUtils.GenData | src/experiment_utils.py:59-91 | Clean samples come first, then Artifice samples, all distinct objects. The truth labels are 0 for the first max(clean_samples, 0) entries and 1 for the rest. Each clean entry is the best-of-ten sample of its table toward clean_changes. Each Artifice entry is the best-of-ten sample toward its public target plus its planted singletons. All get_clean_chains calls, clean then Artifice, draw from the stream one after another. |
| ExperimentUtils.SingletonFractionBounds | src/experiment_utils.py:102-104 | With non-negative counts the feature num_singletons / total lies in [0, 1] and is 0 when length 1 is absent. For a valid dictionary it is 0 exactly when length 1 is absent and 1 exactly when every chain is a singleton. |
| ExperimentUtils.ConstructFeatures | src/experiment_utils.py:93-105 | One feature per dictionary: its singleton count over its total count. |
| ExperimentUtils.Metrics | src/experiment_utils.py:119-134 | Every rate lies in [0, 1]. Accuracy is 1 exactly when there are no false positives or false negatives. ppv is 0 when nothing was predicted positive. recall + fnr = 1. Recall is 1 exactly when fn = 0, and fpr is 0 exactly when fp = 0. |
| ArtificeUtils.CeilDiv | src/artifice_utils.py:27-29 | math.ceil of a / b: the fewest b-sized units holding a, at least 1 for a > 0. |
| ArtificeUtils.FloorDiv | src/artifice_utils.py:26 | math.floor of a / b: the most whole b-sized units inside a. |
| ArtificeUtils.CeilDivMonotone | src/artifice_utils.py:27-29 | A larger numerator never needs fewer units. |
| ArtificeUtils.EntriesPerBlock | src/artifice_utils.py:22-26 | Entries per map block is the floor of 4096 over the record size, parity * (4 + 0) + 16 bytes. |
| ArtificeUtils.EntriesPositive | src/artifice_utils.py:23-27 | A map block holds at least one record exactly when parity <= 1020. |
| ArtificeUtils.CalcMetadataSizeAont | src/artifice_utils.py:8-51 | Map blocks cover all blocks at data * entries_per_block per map block, and map-of-map blocks cover the map blocks the same way. Pointer blocks cover the map-of-map blocks at 1023 per block. Each count is at least 1. The metadata size is (pointer + 1) * replicas + map-of-map + map blocks, at least 2 * replicas + 2. The effective data size is the ceiling of blocks * (parity + data) / data, at least blocks. shares_per_block is floor(4096 / data). |
| ArtificeUtils.AmplifiedAtLeast | src/artifice_utils.py:21-32 | The amplified data size is at least the volume size. |
| ArtificeUtils.MetadataMonotone | src/artifice_utils.py:27-30 | A larger volume never needs less metadata. |
| ArtificeUtils.CalcTotalSizeAont | src/artifice_utils.py:63-72 | The total footprint is metadata with 8 replicas plus effective data. It is at least the metadata plus the volume size, and at least the volume size plus 18. |
| ArtificeUtils.TotalSizeMonotone | src/artifice_utils.py:63-72 | A larger volume never has a smaller total footprint. |

## Left out

- File loading (`get_csv_files` and the CSV readers): I/O; the model starts from the in-memory tables.
- `experimental_proportion_of_singletons_per_write`: a Monte-Carlo driver that only repeats `random_writes` and `construct_consecutive_changes_dict` and averages floats.
- `train_lr` and the confusion matrix inside `metrics`: scikit-learn code. `Metrics` takes the four confusion counts tn, fp, fn, tp as inputs.
- `get_ci` and the `prob_*` functions: scipy distributions and floating-point powers.
- The `verbose` printing in `calc_metadata_size_aont`: output only. `metadata_overhead` is computed there but never returned. Its division by `blocks` is why `blocks > 0` is required.
- Floating point is modelled as exact rationals (`real`). The ceilings and floors in the metadata computation are taken of exact quotients. `ceil((blocks / data) / entries)` is modelled as the ceiling of blocks / (data * entries), which is equal for exact arithmetic.
- Divisions numpy would turn into `nan` or `inf` are excluded by `requires`:
  - `ExperimentUtils.ConstructFeatures` requires non-empty dictionaries;
  - `ExperimentUtils.Metrics` requires both classes to be present.
- ArtificeUtils.CalcMetadataSizeAont: requires parity <= 1020. Beyond that a record is longer than a block, entries_per_block is 0, and `artifice_utils.py` line 27 raises ZeroDivisionError. It requires data > 0 because line 21 divides by data (ZeroDivisionError). Negative blocks, parity, data or replicas are not modelled: the parameters are `nat`. `ArtificeUtils.CalcTotalSizeAont` carries the same requires.
- ChainStats.ChainProbability: requires 1 <= k <= n. With k = 0, `all_partitions(0)` is `[[0]]` and `chains_per_partition` does `r[-1] += 1` on an empty vector, an IndexError (`uniform_writes.py` lines 71-73). With k > n, comb(n, k) is 0 and line 109 raises ZeroDivisionError. A negative k makes `np.zeros(k)` raise ValueError (line 105).
- ChainStats.PartitionProbability: requires 1 <= k <= n, for the same reason: comb(n, k) is 0 for k > n and line 109 divides by it.
- Combinatorics.Comb: r is a `nat`. A negative r with r <= n makes `math.factorial(r)` raise ValueError at `uniform_writes.py` line 61.
- ExperimentUtils.GetCleanChains: requires a non-empty table, runs >= 1 and chain lengths >= 1. An empty table makes `disk_cumulative_prob[-1] = 1.0` raise IndexError (`experiment_utils.py` line 17). With runs <= 0, `dicts` stays empty and `dicts[min_idx]` raises IndexError (line 43). A row of length 0 or less does not raise `changes` when drawn, so the loop at line 26 may never end; the model's termination measure needs lengths >= 1.
- ExperimentUtils.CleanSamples: requires a non-empty in_data when clean_samples > 0, because `i % len(in_data)` with an empty list raises ZeroDivisionError (line 77). `ExperimentUtils.CleanSample` requires it too.
- ExperimentUtils.ArtificeSamples: requires non-empty in_data, public_changes and artifice_singletons when artifice_samples > 0, because each `i % len(...)` on lines 84-86 raises ZeroDivisionError on an empty list. `ExperimentUtils.ArtificeSample` requires them too.
- ExperimentUtils.GenData: carries both loops' requires, for the same ZeroDivisionError at lines 77 and 84-86.
- ChainStats.RandomWrites: requires writes <= disk_size, because beyond that the source's rejection loop never ends. It requires disk_size >= 0 because `np.zeros` of a negative size raises ValueError. The uniform choice of the slot is not modelled: any unwritten slot may be chosen.
- ExperimentUtils.GetCleanChains: `np.random.rand()` is a supplied stream `rng`, whose values the proofs do not assume lie in [0, 1). The sampling guarantees hold for any draws. The draws' distribution is not modelled.
- ChainStats.ChainProbability: the sum of the composition probabilities is stated as a sum, not proved equal to 1 (a Vandermonde identity the source neither states nor relies on).
- `ChainStats.ConsecutiveChangeDictToMatrix` returns a three-column `array2<real>`; the length column is written as reals as numpy does. `ExperimentUtils.ConstructFeatures` returns a flat array where the source reshapes it into one column.
- Trace tables (`TraceRow`) hold integer chain lengths; the source stores them in a float matrix and uses them as dictionary keys.
- Iteration order of Python sets and dicts is not modelled. `AllPartitions` returns the compositions in some order, and the chain-probability sums are proved independent of that order.
