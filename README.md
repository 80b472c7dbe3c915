# AlgoAudit core, modelled in Dafny

AlgoAudit is a browser sorting benchmark. Most of its code is React rendering;
this project models the logic under it and proves what that logic promises:

- **External-algorithm loader**: the user's code returns algorithm definitions, as an array or an
  object map. The loader turns them into a registry keyed by an explicit key or by a derived
  `ext-<slug>` key. It rejects blank source, missing runners, blank names and duplicate keys. Each
  user routine is wrapped so that it runs on a copy of its input, a Promise is refused, an error it
  throws ends the run, and its return value is normalised into `{time, operations, result}`.
- **Built-in sorts**: bubble, quick (three-way filter), merge, insertion and selection sort. Each
  returns a sorted permutation of its input and leaves the caller's array alone, with exact
  identities for the operation counters: bubble and insertion count inversions, selection counts
  n(n-1)/2, quick sort's count is given by its recursion, and merge sort's is bounded.
- **Test data**: the fixed five-entry catalogue, and generation of 1..n ascending, descending
  (which wins over ascending) or in an arbitrary shuffled order.
- **Complexity estimator**: groups rows by algorithm, keeps rows with a positive size, clamps
  times to at least 0.01 and averages them per size. It classifies the log-log slope between the
  smallest and the largest size against inclusive thresholds, and rewrites only `timeComplexity`.
- **Benchmark runner state** (a class with `results`, `isRunning`, `progress` and
  `externalAlgorithms`):
  - the algorithm-major schedule of (algorithm, test case) pairs, with unknown keys skipped;
  - progress arithmetic;
  - the single-run mode for custom code, with its replace-by-name merge;
  - registry import and clearing.
- **Report aggregation**: one block per row, per-algorithm count/min/average/max in
  first-appearance order, and the first fastest row.
- **Page data shaping** (a class holding the two selections): the selection toggles, clearing
  external algorithms, the chart pivot, the distinct-name list and the radar scores.

Modules follow the source files:
- `Types` holds the records of `types/index.ts`.
- `ExternalAlgorithms`, `ComplexityEstimator`, `Algorithms` (with the inversion and
  sortedness facts in `SortFacts`), `TestCases`, `Benchmark`, `ReportGenerator` and `App` each
  model one core file.
- `Strings`, `Seqs` and `Wrappers` hold shared helpers: `trim`, number printing, filter,
  distinct-in-order, sum, mean, min and max, and `Option`/`Result`.

Things outside the model become inputs:
- Measured times are parameters (`elapsed`, or a `timing` function of the pair).
- `Math.log` is a parameter `ln`.
- Evaluating user text is an `Evaluation` (threw with a message, or returned a value).
- A user routine is a function from its argument to an `Invocation`: either the error it threw,
  or the argument's contents after the call plus the returned value as a sum type
  `Thenable | Record | BareArray | Primitive`. Neither wrapper catches a throw, so the error ends
  the run that made the call.
- Errors the source throws are `Failure` values carrying the same message.

Where the code and its description disagree, the model follows the code, with one exception:
the two bugs under "## Findings" are modelled as written beside a corrected version, and the rest
of the model (`Load` and `ImportExternalAlgorithms`, `WithEstimatedComplexity` with
`RunBenchmarks` and `RunCustomCode`, and `GenerateReport`) uses the corrected loader and groupings. When a user routine
returns an array directly, rather than a record holding `result`, `wrappedCode`
(`algoaudit/src/utils/externalAlgorithms.ts:61-64`) does not report that array. It reports the
input copy as the routine left it, with 0 operations (`ExternalAlgorithms.BareArrayIsIgnored`).

## Model

| member | source | states |
|---|---|---|
| `ExternalAlgorithms.ToLowerAscii` | algoaudit/src/utils/externalAlgorithms.ts:16 | lower-casing keeps the length, maps each ASCII capital to its small letter and leaves every other character alone |
| `ExternalAlgorithms.ReplaceRunsShape` | algoaudit/src/utils/externalAlgorithms.ts:17 | replacing runs of non-`[a-z0-9]` by one dash leaves only `[a-z0-9-]`, never two dashes in a row, the same set of letters and digits as the input, and a final dash exactly when the input ended in a non-slug character |
| `ExternalAlgorithms.ReplaceRunsKeepsOrder` | algoaudit/src/utils/externalAlgorithms.ts:17 | the letters and digits of the replaced text are exactly those of the input, in the same order and number |
| `ExternalAlgorithms.StripLeadingDashes` | algoaudit/src/utils/externalAlgorithms.ts:18 | the result is a suffix of the input that does not start with a dash, and everything removed was a dash |
| `ExternalAlgorithms.StripTrailingDashes` | algoaudit/src/utils/externalAlgorithms.ts:18 | the result is a prefix of the input that does not end with a dash, and everything removed was a dash |
| `ExternalAlgorithms.StripDashesKeepsSlugChars` | algoaudit/src/utils/externalAlgorithms.ts:18-20 | stripping the edge dashes of slug text leaves it empty exactly when it had no letter or digit |
| `ExternalAlgorithms.StripDashesIsValid` | algoaudit/src/utils/externalAlgorithms.ts:18 | stripping the edge dashes of slug text without double dashes leaves a valid slug or nothing |
| `ExternalAlgorithms.SlugShape` | algoaudit/src/utils/externalAlgorithms.ts:14-18 | the slug of a name is non-empty exactly when the trimmed, lower-cased name has an ASCII letter or digit, and a non-empty slug is `[a-z0-9-]` only, with no edge dash and no double dash |
| `ExternalAlgorithms.FallbackIsValidSlug` | algoaudit/src/utils/externalAlgorithms.ts:20 | the ordinal fallback `algorithm-<n>` is itself a valid slug |
| `ExternalAlgorithms.ToKeyShape` | algoaudit/src/utils/externalAlgorithms.ts:13-21 | every derived key is `ext-` followed by a valid slug |
| `ExternalAlgorithms.ToKeyFallback` | algoaudit/src/utils/externalAlgorithms.ts:18-20 | a name with no ASCII letter or digit gets the key `ext-algorithm-<fallback>` |
| `ExternalAlgorithms.ToKeyOfSlug` | algoaudit/src/utils/externalAlgorithms.ts:13-21 | a name that is already a valid slug keeps its spelling under `ext-`, so deriving a key is idempotent on slugs |
| `ExternalAlgorithms.WrapOutcome` | algoaudit/src/utils/externalAlgorithms.ts:39-71 | the call fails exactly when the routine threw, with its own error, or returned a thenable, with the Promise message naming the algorithm; a successful outcome carries the measured time, the numeric `operations` field or 0 and the array `result` field or the input copy as the routine left it, so a full record keeps its result and operations |
| `ExternalAlgorithms.BareArrayIsIgnored` | algoaudit/src/utils/externalAlgorithms.ts:61-64 | an array returned directly is not reported: the result is the input copy, with 0 operations |
| `ExternalAlgorithms.NormalizeChecksRunnerFirst` | algoaudit/src/utils/externalAlgorithms.ts:27-30 | `run` is used when truthy, else `code`; a definition fails with "missing a runnable function" and ordinal index+1 exactly when that member is not a function, before the name is looked at |
| `ExternalAlgorithms.NormalizeChecksName` | algoaudit/src/utils/externalAlgorithms.ts:32-35 | with a runner present, a definition fails with "missing a valid name" and ordinal index+1 exactly when its name is absent or blank |
| `ExternalAlgorithms.NormalizedEntry` | algoaudit/src/utils/externalAlgorithms.ts:73-82 | a normalized entry has the trimmed name, the wrapped runner, the complexity fields or `Unknown` when falsy, and the `External` source |
| `ExternalAlgorithms.NormalizedKey` | algoaudit/src/utils/externalAlgorithms.ts:37 | a non-blank explicit key is used trimmed and without prefix; otherwise the key is derived from the trimmed name with fallback index+1 |
| `ExternalAlgorithms.FromEntry` | algoaudit/src/utils/externalAlgorithms.ts:91-95 | an object-map entry takes the map key as its `key` and `name` where those are absent or empty, and keeps its other members |
| `ExternalAlgorithms.ToDefinitions` | algoaudit/src/utils/externalAlgorithms.ts:85-101 | an array passes through unchanged, an object map becomes one definition per entry in order, and any other value is rejected with the "must return an array" error |
| `ExternalAlgorithms.AccumulateSucceedsIff` | algoaudit/src/utils/externalAlgorithms.ts:121-128 | the keyed reduce succeeds exactly when every entry normalizes and no two keys coincide |
| `ExternalAlgorithms.AccumulateContents` | algoaudit/src/utils/externalAlgorithms.ts:121-128 | a successful reduce holds exactly one entry per definition, under its key |
| `ExternalAlgorithms.AccumulateFailurePersists` | algoaudit/src/utils/externalAlgorithms.ts:121-128 | once the reduce has thrown on a prefix, later definitions do not change the error |
| `ExternalAlgorithms.RegistrySucceedsIff` | algoaudit/src/utils/externalAlgorithms.ts:121-128 | loading definitions succeeds exactly when every definition normalizes and their keys are pairwise distinct |
| `ExternalAlgorithms.RegistryContents` | algoaudit/src/utils/externalAlgorithms.ts:121-128 | on success the registry has exactly one entry per definition, the keys are the definitions' keys, and each maps to that definition's entry |
| `ExternalAlgorithms.RegistryFailsAt` | algoaudit/src/utils/externalAlgorithms.ts:122 | the first definition that fails to normalize decides the error of the whole load |
| `ExternalAlgorithms.RegistryDuplicateAt` | algoaudit/src/utils/externalAlgorithms.ts:123-125 | a definition whose key an earlier one took makes the load fail with the duplicate-key error naming that key, and no registry is returned |
| `ExternalAlgorithms.RegistryExtends` | algoaudit/src/utils/externalAlgorithms.ts:126-127 | a definition with a fresh key extends the registry of the earlier ones by its entry |
| `ExternalAlgorithms.Load` | algoaudit/src/utils/externalAlgorithms.ts:103-129 | blank source fails with "External code is empty", an evaluation error is reported with its message, the error of a non-definitions value passes through, an empty list is rejected, and a non-empty list of definitions loads exactly as their registry |
| `ExternalAlgorithms.LoadExternalAlgorithms` | algoaudit/src/utils/externalAlgorithms.ts:103-129 | the accumulating loop throws or returns exactly what `Load` specifies |
| `ExternalAlgorithms.LoadedEntryCount` | algoaudit/src/utils/externalAlgorithms.ts:116-128 | a successful load has exactly as many entries as definitions, and at least one |
| `ExternalAlgorithms.InheritedKeyIsReportedDuplicate` | algoaudit/src/utils/externalAlgorithms.ts:123 | as written, a lone definition with key `constructor` is reported as a duplicate although the corrected loader accepts it |
| `ExternalAlgorithms.RegistryAsWrittenAgrees` | algoaudit/src/utils/externalAlgorithms.ts:121-128 | when no key is an inherited object member, the loader as written and the corrected one agree |
| `Strings.Trim` | algoaudit/src/utils/externalAlgorithms.ts:15 | the result is the input with only whitespace removed, at its two ends, and no whitespace is left at either end |
| `Strings.TrimIdempotent` | algoaudit/src/utils/externalAlgorithms.ts:32-37 | trimming a trimmed name again changes nothing |
| `Strings.BlankIffAllWhitespace` | algoaudit/src/utils/externalAlgorithms.ts:104 | a string is blank after trimming exactly when all its characters are whitespace |
| `Strings.NatToString` | algoaudit/src/utils/externalAlgorithms.ts:29 | an ordinal prints as decimal digits, with no leading zero, that denote exactly that ordinal |
| `Strings.NatToStringInjective` | algoaudit/src/utils/externalAlgorithms.ts:20 | different ordinals print differently, so the fallback keys `ext-algorithm-<n>` of different positions differ |
| `ComplexityEstimator.MapSlopeToComplexity` | algoaudit/src/utils/complexityEstimator.ts:5-13 | the classifier always returns one of the seven labels |
| `ComplexityEstimator.SlopeBands` | algoaudit/src/utils/complexityEstimator.ts:5-13 | label k is returned exactly when the slope is above threshold k-1 and at most threshold k |
| `ComplexityEstimator.SlopeClassMonotone` | algoaudit/src/utils/complexityEstimator.ts:5-13 | a larger slope never gets a lower label |
| `ComplexityEstimator.ThresholdsAreInclusive` | algoaudit/src/utils/complexityEstimator.ts:6-11 | a slope exactly on a threshold gets the lower label |
| `ComplexityEstimator.SizedRows` | algoaudit/src/utils/complexityEstimator.ts:16 | the estimate uses exactly the rows with a positive input size |
| `ComplexityEstimator.ClampTime` | algoaudit/src/utils/complexityEstimator.ts:22 | a clamped time is at least 0.01 and at least the time, and is one of the two |
| `ComplexityEstimator.TimesAt` | algoaudit/src/utils/complexityEstimator.ts:19-24 | every time collected for a size is at least 0.01 |
| `ComplexityEstimator.AverageAt` | algoaudit/src/utils/complexityEstimator.ts:27-29 | the average time at a present size is at least 0.01 |
| `ComplexityEstimator.Points` | algoaudit/src/utils/complexityEstimator.ts:26-30 | one point per distinct size, each holding the average time of that size, and every size has its point |
| `ComplexityEstimator.PositiveFilterKeepsAll` | algoaudit/src/utils/complexityEstimator.ts:31 | the positivity filter on points never removes one, because every average is at least 0.01 |
| `ComplexityEstimator.FirstBySize` | algoaudit/src/utils/complexityEstimator.ts:32-36 | the first point after sorting by size is a point of least size |
| `ComplexityEstimator.LastBySize` | algoaudit/src/utils/complexityEstimator.ts:32-37 | the last point after sorting by size is a point of greatest size |
| `ComplexityEstimator.Classify` | algoaudit/src/utils/complexityEstimator.ts:38-42 | the slope classification is `Insufficient data` or one of the seven labels |
| `ComplexityEstimator.EstimateForAlgorithm` | algoaudit/src/utils/complexityEstimator.ts:15-43 | the estimate is a label or `Insufficient data`, and it is `Insufficient data` when fewer than two rows have a positive size or they all share one size |
| `ComplexityEstimator.EstimateFromExtremes` | algoaudit/src/utils/complexityEstimator.ts:32-41 | the estimate is the classification of the averaged points at the smallest and largest sizes |
| `ComplexityEstimator.IntermediateRowIgnored` | algoaudit/src/utils/complexityEstimator.ts:32-41 | a row whose size lies strictly between the smallest and largest size does not change the estimate |
| `ComplexityEstimator.EstimateNotEmpty` | algoaudit/src/utils/complexityEstimator.ts:59 | an estimate is never the empty string, so the `Insufficient data` default never replaces one |
| `ComplexityEstimator.GroupByAlgorithm` | algoaudit/src/utils/complexityEstimator.ts:46-50 | the groups are keyed by exactly the algorithm names that occur |
| `ComplexityEstimator.GroupIsRowsOf` | algoaudit/src/utils/complexityEstimator.ts:46-50 | each group holds exactly the rows of its algorithm, in input order |
| `ComplexityEstimator.GroupByAlgorithmAsWrittenFails` | algoaudit/src/utils/complexityEstimator.ts:46-50 | as written, grouping throws exactly when some algorithm name is an inherited object member, and otherwise it equals the corrected grouping |
| `ComplexityEstimator.InheritedNameThrows` | algoaudit/src/utils/complexityEstimator.ts:47-48 | as written, a row for an algorithm named `constructor` makes the grouping throw |
| `ComplexityEstimator.EstimatesByAlgorithm` | algoaudit/src/utils/complexityEstimator.ts:52-55 | each algorithm's label is the estimate of its own group |
| `ComplexityEstimator.WithEstimatedComplexity` | algoaudit/src/utils/complexityEstimator.ts:57-60 | the same number of rows in the same order, each equal to its input row except for `timeComplexity` |
| `ComplexityEstimator.LabelOfRow` | algoaudit/src/utils/complexityEstimator.ts:57-60 | each row's label is the estimate computed from exactly the rows of its algorithm |
| `ComplexityEstimator.SameAlgorithmSameLabel` | algoaudit/src/utils/complexityEstimator.ts:46-59 | rows of the same algorithm get the same label |
| `ComplexityEstimator.OtherRowsDoNotMatter` | algoaudit/src/utils/complexityEstimator.ts:46-55 | adding rows of other algorithms does not change an algorithm's estimate |
| `SortFacts.SwapAdjacentRemovesOneInversion` | algoaudit/src/utils/algorithms.ts:12-13 | swapping an adjacent out-of-order pair removes exactly one inversion |
| `SortFacts.SortedHasNoInversions` | algoaudit/src/utils/algorithms.ts:10-16 | sorted data has no inversions, so bubble and insertion sort count 0 on it |
| `SortFacts.SortedPermutationIsUnique` | algoaudit/src/utils/algorithms.ts:3-134 | two sorted permutations of the same data are equal |
| `Algorithms.SwapOutOfOrderPair` | algoaudit/src/utils/algorithms.ts:12-14 | the swap exchanges the two neighbours, keeps the multiset and removes one inversion |
| `Algorithms.CompareAndSwap` | algoaudit/src/utils/algorithms.ts:12-15 | one inner step swaps at most once, counting it, and carries the largest element seen forward |
| `Algorithms.BubblePass` | algoaudit/src/utils/algorithms.ts:11-16 | one pass keeps the multiset, its swap count is the number of inversions it removes, and it grows the sorted suffix by one |
| `Algorithms.BubbleSort` | algoaudit/src/utils/algorithms.ts:6-20 | the result is a sorted permutation of the input, the input is unchanged, and operations equals the number of inversions of the input |
| `Algorithms.ShiftIntoGap` | algoaudit/src/utils/algorithms.ts:97-98 | shifting an element past the key keeps the multiset and removes one inversion |
| `Algorithms.FillGap` | algoaudit/src/utils/algorithms.ts:100 | writing the key into the gap leaves the prefix sorted |
| `Algorithms.InsertKey` | algoaudit/src/utils/algorithms.ts:93-100 | inserting element i keeps the multiset, sorts the prefix up to i, leaves the rest alone, and its shift count is the number of inversions it removes |
| `Algorithms.InsertionSort` | algoaudit/src/utils/algorithms.ts:88-104 | the result is a sorted permutation of the input, the input is unchanged, and operations equals the number of inversions of the input |
| `Algorithms.FindMinFrom` | algoaudit/src/utils/algorithms.ts:116-122 | the index of a least element of the suffix, found with exactly one comparison per later element |
| `Algorithms.ComparisonsBeforeClosedForm` | algoaudit/src/utils/algorithms.ts:115-119 | the first i passes compare (n-1)+...+(n-i) = i(2n-i-1)/2 times |
| `Algorithms.AllComparisons` | algoaudit/src/utils/algorithms.ts:115-119 | all passes together compare n(n-1)/2 times |
| `Algorithms.PlaceMin` | algoaudit/src/utils/algorithms.ts:123-125 | exchanging position i with the least later element keeps the multiset and extends the sorted prefix |
| `Algorithms.SelectionSort` | algoaudit/src/utils/algorithms.ts:111-129 | the result is a sorted permutation of the input, the input is unchanged, and operations is exactly n(n-1)/2 |
| `Algorithms.ThreeWayPartition` | algoaudit/src/utils/algorithms.ts:35-37 | the below, equal and above filters together hold exactly the elements of the array |
| `Algorithms.PartitionShrinks` | algoaudit/src/utils/algorithms.ts:34-37 | with a pivot from the array, the below and above parts are strictly shorter than the array |
| `Algorithms.QuickSortStep` | algoaudit/src/utils/algorithms.ts:38 | sorted below part, equal part and sorted above part join to a sorted permutation of the array |
| `Algorithms.QuickSortHelper` | algoaudit/src/utils/algorithms.ts:31-39 | the result is a sorted permutation; arrays of length at most 1 are returned as they are with no operation counted; longer ones count at least 1+3n |
| `Algorithms.QuickSortOfConstant` | algoaudit/src/utils/algorithms.ts:31-39 | on an array of one repeated value the count is exactly 1+3n, since both sides are empty |
| `Algorithms.QuickSort` | algoaudit/src/utils/algorithms.ts:27-44 | the result is a sorted permutation of the input, the input is unchanged, and result and count are those of the helper on a copy |
| `Algorithms.Merge` | algoaudit/src/utils/algorithms.ts:55-67 | from sorted halves, a sorted permutation of their concatenation, with no comparison when either half is empty, and otherwise between the shorter length and the total length minus 1 |
| `Algorithms.MergeSortBoundOfPowerOfTwo` | algoaudit/src/utils/algorithms.ts:69-76 | the bound on merge sort's count is k·2^k for 2^k elements |
| `Algorithms.MergeSortHelper` | algoaudit/src/utils/algorithms.ts:69-76 | the result is a sorted permutation; arrays of length at most 1 are returned as they are with no count; the count is at least n-1 and at most the bound |
| `Algorithms.MergeSort` | algoaudit/src/utils/algorithms.ts:51-81 | the result is a sorted permutation of the input, the input is unchanged, and the count lies between n-1 and the bound |
| `Algorithms.BuiltInCatalogue` | algoaudit/src/utils/algorithms.ts:3-134 | the built-in catalogue has exactly the five sort keys, each a built-in routine |
| `Algorithms.RunBuiltIn` | algoaudit/src/utils/algorithms.ts:3-134 | whichever built-in runs, the result is a sorted permutation of the input with the counter identities of that sort |
| `Algorithms.BuiltInSortsAgree` | algoaudit/src/utils/algorithms.ts:3-134 | the reports of any two built-in sorts on the same input hold the same array, and bubble and insertion sort also report the same count |
| `TestCases.CatalogueShape` | algoaudit/src/utils/testCases.ts:3-9 | exactly five test cases, `small`, `medium`, `large`, `sorted` and `reversed`, of sizes 100, 1000, 5000, 1000 and 1000; `sorted` carries only the sorted flag, `reversed` only the reversed flag, and the other three carry neither |
| `TestCases.AscendingCounts` | algoaudit/src/utils/testCases.ts:12 | 1..n holds each of 1..n exactly once and nothing else |
| `TestCases.AscendingIsSorted` | algoaudit/src/utils/testCases.ts:14 | 1..n is sorted |
| `TestCases.DescendingIsStrictlyDescending` | algoaudit/src/utils/testCases.ts:13 | n..1 is strictly descending |
| `TestCases.ReversedAscending` | algoaudit/src/utils/testCases.ts:12-13 | reversing 1..n gives n..1 |
| `TestCases.ReversedIsPermutation` | algoaudit/src/utils/testCases.ts:13 | reversing keeps the multiset |
| `TestCases.ReverseInPlace` | algoaudit/src/utils/testCases.ts:13 | the array is reversed in place |
| `TestCases.Shuffle` | algoaudit/src/utils/testCases.ts:15 | the random sort leaves some permutation of the array |
| `TestCases.GenerateTestData` | algoaudit/src/utils/testCases.ts:11-16 | a fresh array of length `size` holding exactly 1..size; n..1 when `reversed` (whatever `sorted` says), 1..n when only `sorted` |
| `TestCases.GeneratedValues` | algoaudit/src/utils/testCases.ts:11-16 | generated data has length `size` and holds each of 1..size once |
| `Benchmark.CombinedCatalogue` | algoaudit/src/hooks/useBenchmark.ts:26-29 | the run catalogue has the built-in and external keys, and an external entry wins over a built-in with the same key |
| `Benchmark.RowMembership` | algoaudit/src/hooks/useBenchmark.ts:32-35 | the inner loop runs a pair exactly when its test is selected and both keys are known |
| `Benchmark.ScheduleMembership` | algoaudit/src/hooks/useBenchmark.ts:31-35 | the run covers a pair exactly when both are selected and known |
| `Benchmark.RowSize` | algoaudit/src/hooks/useBenchmark.ts:32-35 | an algorithm runs at most once per selected test, and exactly that often when every test is known for it |
| `Benchmark.ScheduleSize` | algoaudit/src/hooks/useBenchmark.ts:23-35 | at most `totalTests` pairs run, and exactly that many when every selected key is known |
| `Benchmark.Progress` | algoaudit/src/hooks/useBenchmark.ts:55 | progress lies between 0 and 100 and is 100 exactly when all pairs completed |
| `Benchmark.ProgressStep` | algoaudit/src/hooks/useBenchmark.ts:54-55 | each completed pair raises progress by 100/total, so it strictly increases |
| `Benchmark.Shown` | algoaudit/src/hooks/useBenchmark.ts:19-55 | the progress shown stays between 0 and 100, and is 100 only when something ran and everything completed |
| `Benchmark.FullProgressIffAllKnown` | algoaudit/src/hooks/useBenchmark.ts:23-57 | a run ends at 100% exactly when both selections are non-empty and no selected key was skipped |
| `Benchmark.Execute` | algoaudit/src/hooks/useBenchmark.ts:42 | calling an algorithm's code fails exactly for a wrapped routine that throws, with its own error, or returns a Promise, with the async message; otherwise it reports the built-in sort's result or the wrapper's outcome |
| `Benchmark.MeasurePair` | algoaudit/src/hooks/useBenchmark.ts:40-52 | a sample records the algorithm name, test name and size, the measured time, the operations of a run on generated data, the placeholder label and the algorithm's space complexity; a failure is the error of a wrapped routine that throws, or returns a Promise, on data generated for the test |
| `Benchmark.MeasuredRowsAt` | algoaudit/src/hooks/useBenchmark.ts:31-57 | the i-th measured row is the sample of the i-th scheduled pair |
| `Benchmark.MeasureStep` | algoaudit/src/hooks/useBenchmark.ts:33-55 | one inner iteration appends the sample of a known pair or skips an unknown one; when the pair stops the run, it is a scheduled pair that runs, the error is the one its routine stops with, and the rows so far fall short of the schedule |
| `Benchmark.FailedStepStops` | algoaudit/src/hooks/useBenchmark.ts:31-42 | a pair that stops right after the pairs measured so far sits at that index of the schedule, so it is the first scheduled pair to stop, every earlier pair having been measured |
| `Benchmark.NoOperationsOnSortedData` | algoaudit/src/hooks/useBenchmark.ts:40-49 | bubble and insertion sort report 0 operations on the already sorted test |
| `Benchmark.SelectionOperations` | algoaudit/src/hooks/useBenchmark.ts:40-49 | selection sort reports size(size-1)/2 operations on any test |
| `Benchmark.Estimated` | algoaudit/src/hooks/useBenchmark.ts:58 | estimating keeps success or failure, the error, and the number of rows |
| `Benchmark.EstimatedOutcome` | algoaudit/src/hooks/useBenchmark.ts:58 | the stored rows are the measured rows with their complexity estimated |
| `Benchmark.SucceedsUnlessAPairStops` | algoaudit/src/hooks/useBenchmark.ts:22-58 | a run none of whose scheduled pairs can throw or return a Promise succeeds, the converse of the failure case |
| `Benchmark.CustomName` | algoaudit/src/hooks/useBenchmark.ts:80 | the single-run name is the trimmed name, or `Custom Algorithm` when blank, and never empty |
| `Benchmark.CustomOperations` | algoaudit/src/hooks/useBenchmark.ts:98-109 | operations is the output's numeric field, or 0 |
| `Benchmark.CustomSpace` | algoaudit/src/hooks/useBenchmark.ts:99-112 | space complexity is the output's non-blank string field, or `Unknown` |
| `Benchmark.KnownTests` | algoaudit/src/hooks/useBenchmark.ts:85-87 | the single run measures exactly the selected test cases that exist |
| `Benchmark.CustomRowsAt` | algoaudit/src/hooks/useBenchmark.ts:85-124 | the i-th single-run row is the sample of the i-th known test, on data without a Promise |
| `Benchmark.MeasureCustom` | algoaudit/src/hooks/useBenchmark.ts:88-123 | one test case gives its sample from a call that neither threw nor returned a Promise, or fails with the thrown error, or the async message for a Promise, of a call on generated data |
| `Benchmark.MeasureCustomRows` | algoaudit/src/hooks/useBenchmark.ts:85-124 | one row per known test case in order, or the error of the first known test case on which the routine throws or returns a Promise, every earlier one having given its row |
| `Benchmark.CustomMergeReplaces` | algoaudit/src/hooks/useBenchmark.ts:126-129 | after the merge, the rows under the custom name are exactly the new rows |
| `Benchmark.CustomMergeKeepsOthers` | algoaudit/src/hooks/useBenchmark.ts:126-129 | after the merge, the rows of every other algorithm are as before, in order |
| `Benchmark.EstimatedCustomRowsNamed` | algoaudit/src/hooks/useBenchmark.ts:116-128 | every new single-run row carries the custom name |
| `Benchmark.CustomRun` | algoaudit/src/hooks/useBenchmark.ts:64-133 | blank code, an empty selection and a compile error fail with their messages; a routine that throws or returns a Promise fails with the error of the first known test case where it does so; otherwise the rows are the merge of the old rows with the estimated new ones |
| `Benchmark.CustomSucceedsUnlessStopped` | algoaudit/src/hooks/useBenchmark.ts:77-129 | past the guards and the compile step, a single run whose routine cannot throw or return a Promise on any known test case succeeds |
| `Benchmark.BenchmarkState.constructor` | algoaudit/src/hooks/useBenchmark.ts:9-12 | no results, not running, progress 0 and no external algorithms |
| `Benchmark.BenchmarkState.Store` | algoaudit/src/hooks/useBenchmark.ts:58 | `setResults` on a successful run (also at lines 126-129 for the single run); on failure the error is passed on and the results are kept |
| `Benchmark.BenchmarkState.MeasureRow` | algoaudit/src/hooks/useBenchmark.ts:32-56 | the inner loop measures the algorithm's scheduled pairs in order and keeps progress at completed/total, or stops with the error of the first scheduled pair that throws or returns a Promise, the samples of the pairs before it, and progress left at their share of the total (below 100%) |
| `Benchmark.BenchmarkState.MeasureAll` | algoaudit/src/hooks/useBenchmark.ts:19-57 | the loops measure the whole schedule and end at the final progress, or stop with the error of the first scheduled pair whose routine throws or returns a Promise, with progress left at the share of the pairs completed before it (below 100%) |
| `Benchmark.BenchmarkState.RunBenchmarks` | algoaudit/src/hooks/useBenchmark.ts:14-62 | results are replaced by the estimated samples of the schedule over the combined catalogue; when the first scheduled pair to stop throws or returns a Promise, its error is returned, the results are kept and progress stays at the share of the pairs completed before it; the registry is kept and the running flag ends false |
| `Benchmark.BenchmarkState.RunCustomCode` | algoaudit/src/hooks/useBenchmark.ts:64-133 | blank code or no test case leave all state untouched; otherwise the results become the custom-run outcome, kept on failure (including a thrown error or a Promise), and the running flag ends false |
| `Benchmark.BenchmarkState.ImportExternalAlgorithms` | algoaudit/src/hooks/useBenchmark.ts:135-139 | the registry is replaced by the loaded one and its size returned exactly when loading succeeds; on failure the registry is kept and the load error returned |
| `Benchmark.BenchmarkState.ClearExternalAlgorithms` | algoaudit/src/hooks/useBenchmark.ts:141-143 | the registry becomes empty and nothing else changes |
| `Benchmark.BenchmarkState.ClearResults` | algoaudit/src/hooks/useBenchmark.ts:145-148 | results become empty and progress 0, and nothing else changes |
| `ReportGenerator.ResultBlocks` | algoaudit/src/utils/reportGenerator.ts:13-20 | one block per row in input order, numbered from 1, with operations shown as `N/A` exactly when the count is 0 |
| `ReportGenerator.GroupedTimes` | algoaudit/src/utils/reportGenerator.ts:23-27 | times are grouped under exactly the names that occur, and no group is empty |
| `ReportGenerator.GroupedTimesAre` | algoaudit/src/utils/reportGenerator.ts:23-27 | each group holds the times of that algorithm's rows, in input order |
| `ReportGenerator.GroupTimes` | algoaudit/src/utils/reportGenerator.ts:23-27 | the grouping loop yields the names in first-appearance order and the grouped times |
| `ReportGenerator.Summarize` | algoaudit/src/utils/reportGenerator.ts:34-42 | a summary counts the times and has min ≤ average ≤ max |
| `ReportGenerator.SummaryOf` | algoaudit/src/utils/reportGenerator.ts:33-42 | an algorithm's summary has at least one test and min ≤ average ≤ max |
| `ReportGenerator.SummaryOfRows` | algoaudit/src/utils/reportGenerator.ts:33-42 | "Tests Run" is the number of that algorithm's rows, and min and max are times of its rows bounding all of them |
| `ReportGenerator.Summaries` | algoaudit/src/utils/reportGenerator.ts:33-43 | one summary per distinct algorithm, in first-appearance order |
| `ReportGenerator.Fastest` | algoaudit/src/utils/reportGenerator.ts:49 | the fastest row has the least time and comes before every other row with that time |
| `ReportGenerator.FastestIsUnique` | algoaudit/src/utils/reportGenerator.ts:49 | the first row of least time is unique |
| `ReportGenerator.GenerateReport` | algoaudit/src/utils/reportGenerator.ts:3-57 | the report fails exactly on no rows, where the fastest-row reduce has no start value; otherwise it holds the blocks, summaries and fastest row |
| `Seqs.Distinct` | algoaudit/src/App.tsx:105 | the distinct names hold each name that occurs exactly once |
| `Seqs.DistinctOrdered` | algoaudit/src/App.tsx:136 | distinct values keep the order of their first appearance |
| `Seqs.DistinctSnoc` | algoaudit/src/utils/reportGenerator.ts:24 | a new value is appended to the distinct values, and a seen one changes nothing |
| `Seqs.Min` | algoaudit/src/utils/reportGenerator.ts:35 | the minimum is one of the times and at most each |
| `Seqs.Max` | algoaudit/src/utils/reportGenerator.ts:36 | the maximum is one of the times and at least each |
| `Seqs.MeanBetweenMinAndMax` | algoaudit/src/utils/reportGenerator.ts:34-36 | the average lies between the minimum and the maximum |
| `App.Toggle` | algoaudit/src/App.tsx:43-49 | an absent key is appended at the end of the unchanged list, a present key is removed entirely, and other keys stay |
| `App.ToggleKeepsOthers` | algoaudit/src/App.tsx:44 | toggling keeps the other keys in their order |
| `App.ToggleTwiceRestores` | algoaudit/src/App.tsx:44 | toggling an absent key twice restores the list |
| `App.ToggleTwiceMovesToEnd` | algoaudit/src/App.tsx:44 | toggling a present key twice moves it, once, to the end |
| `App.KeepBuiltIns` | algoaudit/src/App.tsx:78-80 | clearing externals keeps exactly the selected keys that are built-in |
| `App.KeepBuiltInsAppend` | algoaudit/src/App.tsx:78-80 | the kept keys are in their original order |
| `App.KeepBuiltInsOfBuiltIns` | algoaudit/src/App.tsx:78-80 | a selection of built-ins only is kept as it is |
| `App.FullProgressNeedsCanRun` | algoaudit/src/App.tsx:175 | a run can only reach 100% from selections that enable the run button |
| `App.DefaultSelectionRunsFully` | algoaudit/src/App.tsx:18-19 | the default selections enable running and, whatever externals are loaded, reach 100% |
| `App.SelectedAlgoNames` | algoaudit/src/App.tsx:135-137 | each algorithm name of the results appears once, in first-appearance order |
| `App.TimesForKeys` | algoaudit/src/App.tsx:93-99 | a chart point has an entry for an algorithm exactly when some row measured it on that test case |
| `App.TimesForLast` | algoaudit/src/App.tsx:96 | the entry is the time of the last such row |
| `App.TimesForAbsent` | algoaudit/src/App.tsx:94-98 | a test case without rows has no entries |
| `App.Pivot` | algoaudit/src/App.tsx:92-102 | one chart point per distinct test case, in first-appearance order |
| `App.PivotUpdate` | algoaudit/src/App.tsx:94-96 | a row of a test case already charted overwrites its algorithm's time in that point only |
| `App.PivotExtend` | algoaudit/src/App.tsx:97-98 | a row of a new test case appends a point holding just its time |
| `App.FindPoint` | algoaudit/src/App.tsx:94 | the search finds the first point of the test case, or reports that there is none |
| `App.ChartData` | algoaudit/src/App.tsx:92-102 | the chart-building loop produces the pivot of the results |
| `App.Averages` | algoaudit/src/App.tsx:106-112 | one average per listed algorithm, in order |
| `App.Extremes` | algoaudit/src/App.tsx:114-116 | the bounds enclose every positive average and, when there is one, are attained by positive averages |
| `App.Score` | algoaudit/src/App.tsx:118-127 | the score lies between 0 and 100; it is 0 for a non-positive average and 100 when all positive averages are equal; otherwise the minimum scores 100 and the maximum 0 |
| `App.ScoreMonotone` | algoaudit/src/App.tsx:118-127 | a faster algorithm never scores lower, strictly higher when its average is smaller, and between distinct extremes the score falls by 100/(max-min) per unit of average time |
| `App.ScoreRatio` | algoaudit/src/App.tsx:124 | the scaling ratio lies between 0 and 1 and is 1 at the minimum and 0 at the maximum |
| `App.RadarData` | algoaudit/src/App.tsx:104-133 | one score per distinct algorithm, in first-appearance order, each between 0 and 100 |
| `App.ListedAverage` | algoaudit/src/App.tsx:107-110 | every listed algorithm has rows, so its average is an actual mean |
| `App.RadarExtremes` | algoaudit/src/App.tsx:114-131 | a non-positive average scores 0; the fastest, and every algorithm when all positive averages are equal, scores 100; the slowest scores 0 when some other is faster |
| `App.Page.constructor` | algoaudit/src/App.tsx:18-33 | the selections start as bubble and quick sort on the small and medium tests, with fresh benchmark state |
| `App.Page.ToggleAlgorithm` | algoaudit/src/App.tsx:43-45 | the algorithm selection becomes its toggle |
| `App.Page.ToggleTestCase` | algoaudit/src/App.tsx:47-49 | the test-case selection becomes its toggle |
| `App.Page.ClearExternalAlgorithms` | algoaudit/src/App.tsx:76-81 | the registry empties, the selection keeps only built-ins, so every selected key stays runnable, and the results are kept |
| `App.Page.DownloadReport` | algoaudit/src/App.tsx:83-90 | no report exactly when there are no results; otherwise the report of the results |

## Left out

- Evaluating user text (`new Function`) is an input (`Evaluation`, or a compiled routine for the single run); what the user's code computes is an arbitrary function.
- `performance.now()` timings are parameters, so no property depends on actual durations.
- `Math.random` in the shuffle is an arbitrary choice of permutation: the model proves only that some permutation results.
- `Math.log` is the parameter `ln`, so no property relies on its values.
- The `setTimeout` pause between pairs, `async`/`await` and React state batching are not modelled. State updates happen in program order, and the running flag is set and cleared around each run.
- Formatting is not modelled: the report's text layout, `toFixed`, `toLocaleString`, the `Date` in the report header and the file name.
- Radar scores are computed over reals without `toFixed(2)` rounding.
- Downloading through a `Blob` and the `alert` calls are I/O: `DownloadReport` returns the report or nothing.
- `ExternalAlgorithms.ToLowerAscii` lower-cases ASCII letters only; other characters keep their case. A few non-ASCII characters lower-case to ASCII in the source (U+212A KELVIN SIGN becomes `k`, U+0130 becomes `i` followed by U+0307), so a name spelled with them gets a different derived key: the name made of the Kelvin sign alone gets `ext-k` in the source and `ext-algorithm-<n>` in the model.
- `trim` uses the ECMAScript white-space set, with no Unicode normalisation.
- `Object.entries` lists integer-like keys first in the source; the model keeps insertion order for object maps, for the per-size groups and for the per-algorithm groups.
- Sizes are grouped by numeric value, not by their string form.
- Loader definitions that are `null`, names that are not strings and `NaN` times are not modelled: a name is a string or absent, and times are reals.
- Numeric fields of a returned record are modelled as integers (`operations`) and reals (`time`); the source accepts any JavaScript number as `operations` (`typeof === 'number'`), including fractions, `NaN` and infinities.
- A full record returned by a user routine keeps its extra fields in the source; the model keeps only `time`, `operations` and `result`.
- Chart points are values, so aliasing between the accumulator and the points is not modelled. An algorithm named `testCase` (or `__proto__`) would collide with the point's own fields in the source; the model keeps algorithm times in a separate map.
- Report grouping (`algoaudit/src/utils/reportGenerator.ts:23-27`) uses the same `acc[name]` on a plain object as the estimator's grouping, so it would also throw for an inherited member name. The model states only the corrected grouping there; the finding below covers the estimator's copy.
- `Algorithms.Merge`: states bounds on the comparison count (the shorter length up to the total minus 1) rather than the exact number of loop iterations.
- `Algorithms.MergeSortHelper`: states that the operation count lies between n-1 and `MergeSortBound(n)` rather than its exact value.
- `Algorithms.MergeSort`: states the same bounds on the operation count rather than its exact value.
- With an empty selection `totalTests` is 0, but then no pair completes and the source never divides by it; the model's `Shown` states that case as progress 0 instead of a division.
- A compile error of custom code (`new Function` throwing) is an input, `compiled`.
- `MeasureStep`, `MeasureRow`, `MeasureAll`, `Store`, `CustomRun` and `MeasureCustomRows` are the source's loops and bodies split into members, so that each can be verified on its own.
- React rendering, the components and the A/B toggle are not modelled; nothing in them computes data.

## Findings

| source | as written | input that shows it | evidently intended | confidence | as-written member | corrected member |
|---|---|---|---|---|---|---|
| algoaudit/src/utils/externalAlgorithms.ts:123 | `acc[key]` on a plain `{}` also finds members inherited from `Object.prototype`, so such a key counts as taken | one definition `{ key: 'constructor', name: 'Mine', run }` is rejected with `Duplicate external algorithm key "constructor".` | a key is a duplicate only when an earlier definition produced it | not executed | `ExternalAlgorithms.RegistryAsWritten`, `ExternalAlgorithms.InheritedKeyIsReportedDuplicate` | `ExternalAlgorithms.Registry`, `ExternalAlgorithms.RegistrySucceedsIff` |
| algoaudit/src/utils/complexityEstimator.ts:47-48 | `acc[row.algorithm]` on a plain `{}` is an inherited function for names such as `constructor`, so the array is never created and `push` throws | a single row whose algorithm is named `constructor` makes `withEstimatedComplexity` throw | every algorithm name gets its own group, and the estimator never throws | not executed | `ComplexityEstimator.GroupByAlgorithmAsWritten`, `ComplexityEstimator.InheritedNameThrows` | `ComplexityEstimator.GroupByAlgorithm`, `ComplexityEstimator.GroupIsRowsOf` |
