# VisualWorld evaluation, dataset and provisioning scripts in Dafny

This Dafny project models the hard logic of VisualWorld's version 0.1 and 0.2 scripts and proves
what that logic is for. Check it with `dafny verify dfyconfig.toml`.

* **Verdicts.** `OrderStatistics`, `RegressionArithmetic`, `GateEvaluation`, `RepetitionVerdict` and
  `HarnessAggregation` follow a metric from the repetitions of a benchmark, through the harness's
  and the evaluator's aggregation, to the gates, the waiver and the verdict. Everything is integer
  arithmetic with rounding; the results say when the rounded tests decide exactly what the rational
  ones would, and that aggregates never leave the range the validator accepts.
* **Detection metrics.** `DetectionMatching`, `Ranking`, `AveragePrecision` and
  `DetectionAccuracy` prove the in-place computation of the 101-point average precision against its
  definition, and the two greedy counters against each other.
* **Identity scores.** `Assignment` proves the Hungarian method of the tracking metrics, loop by
  loop, by dual feasibility: its pairs are a heaviest matching. `IdentityScores` and `Counters`
  carry that over to the identity true positives and F1 of a sequence.
* **Sampling.** `SamplingPolicies`, `MotionScores`, `TimeTable` and `Paging` cover nearest-frame
  lattices, motion windows, the adaptive selection, run-length time tables and overlapping pages.
* **Provisioning.** `CacheDirectory`, `ArtifactCache` and `RuntimeInstall` are state machines over
  a directory: an environment decides, call by call, whether a system call works, fails before or
  after its effect, or is not reached because the process dies. Invariants hold at every point of
  every run. `ArtifactCache.History` and `ArtifactCache.FailingAttempt` together say over whole
  histories when the cache recovers: exactly for well-named manifests. `TreeDigest` proves the
  digest framing uniquely decodable.
* **Pixels, movies, frames.** `Pixels`, `Resize`, `CellCenters`, `Panels`, `PanelScores`, `Ppm`,
  `DetectionItems`, `Visibility`, `TrackingLanes`, `TrackingFrames` and `DenseCrossings` prove the
  buffer loops pixel by pixel and close the circle from rendering to reading. `Bytes`,
  `QuickTimeAtoms` and `MovieFile` do the same for the raw movies.

`PixelCounts` counts the pixels of a box that lie in a region; `Wrappers`, `Arithmetic`, `Geometry`,
`Sorting` and `TextOrder` hold what else these share.

Code that updates buffers, lists, counters or the file system in steps is modelled by classes,
arrays and loops and proved against specification functions; the properties are lemmas about those
functions. Python's `Fraction` is modelled by `real`, its floor division by Dafny's division with a
positive divisor (where the two agree), and `sorted`, slices, slice assignment, `partition` and
`int` by functions with the same edge cases.

## Where the code and its promises differ

* The dispersion bound that keeps signed basis points admissible needs an odd number of
  repetitions. It is false for every even number (`OrderStatistics.DispersionBoundIffOdd`). The
  policy fixes five seeds.
* The zero-baseline sentinel makes the rounded regression test exact only for budgets up to 10000
  (`RegressionArithmetic.BudgetTestIsExactIff`); the policy validator enforces that cap.
* The worker-result validator accepts a first confidence of 1000001 millionths
  (`DetectionMatching.AcceptsConfidences`).
* Cache recovery holds for a manifest exactly when no filename is the lock, none is a name a
  temporary file can have, and none looks like a partial download of a later artifact
  (`ArtifactCache.History`, `ArtifactCache.FailingAttempt`). `fetch_artifacts` does not check
  this, but the command line cannot reach the failing case: `load_manifest` admits only the one
  manifest of the approved digest (scripts/provision_perception_runtime.py:543-545), whose
  filenames are well named (`CacheDirectory.VisibleNamesAreWellNamed`).
* The page loop ends if and only if pages hold two candidates or there is at most one
  (`Paging.TerminatesIff`). The validated configuration always asks for 64
  (scripts/run_v01_benchmark.py:119-131), so it ends.
* The detection source validator admits height limits up to 640 for a canvas of 360 rows. A fitted
  object higher than the canvas yields a frame that its own parser refuses
  (`DetectionItems.ComposeItem`, `DetectionItems.SafeHeights`). The limits shipped with the
  repository are at most 240.
* Cut clips report full visibility without computing it. That is exact only under the condition of
  `TrackingFrames.AnnotationsAreExact`.
* A failure before the rename does not always discard staging: the tree stays behind when `mkdtemp`
  took effect and the failure came before the error handler, or the discard itself failed
  (`RuntimeInstall.Host.InstallRuntime`, `RuntimeInstall.Host.InstallOverlay`; the contract names
  a failing `chmod` as an input). A descriptor-published directory ends frozen unless every
  refreezing attempt failed.

## Model

| member | source | states |
|---|---|---|
| OrderStatistics.RankIsCount | scripts/evaluate_v02_gates.py:900-914 | The k-th smallest repetition value is at most x exactly when more than k of the values are: every later reading of a sorted list goes through this count |
| OrderStatistics.SortIsCanonical | scripts/evaluate_v02_gates.py:900-914 | `sorted` only depends on which values there are, so it ignores the order of the repetitions |
| OrderStatistics.OddDispersionWithinRange | scripts/evaluate_v02_gates.py:913-914 | For every odd number of values within any bounds, twice the median absolute deviation is at most the width of the bounds |
| OrderStatistics.EvenDispersionReachesRange | scripts/evaluate_v02_gates.py:913-914 | For every even number of values the dispersion can be the whole range: the halving is false there |
| OrderStatistics.DispersionBoundIffOdd | scripts/evaluate_v02_gates.py:913-914 | The bound holds for all lists of a length exactly when the length is odd |
| OrderStatistics.DispersionIgnoresOrder | scripts/evaluate_v02_gates.py:913-914 | Sorting first, as the harnesses do, changes neither median nor dispersion |
| OrderStatistics.MedianReachesIffMajority | scripts/evaluate_v02_gates.py:899-900 | A median meets a lower or an upper limit exactly when a strict majority of an odd number of values does |
| OrderStatistics.MaximumIsGreatest | scripts/evaluate_v02_gates.py:901-902 | The maximum is one of the values, and is within a limit exactly when all of them are |
| OrderStatistics.DispersionMeaning | scripts/evaluate_v02_gates.py:913-914 | The dispersion is at most r exactly when more than half of the values, counting from the upper middle, lie within r of the median: no deviation is sorted or even formed |
| OrderStatistics.CountIsNumber | scripts/evaluate_v02_gates.py:900-914 | The counts all these readings go through are numbers of places in the list |
| OrderStatistics.SumAdds | scripts/evaluate_v02_gates.py:906-910 | The sum of a joined list is the sum of both, that of a single value the value |
| RegressionArithmetic.RegressionIsCeiling | scripts/evaluate_v02_gates.py:1160-1171 | For either sign the evaluator returns the exact ceiling of 10000 x loss / baseline, and the release comparator returns the same wherever both answer |
| RegressionArithmetic.RegressionMeaning | scripts/evaluate_v02_gates.py:1160-1171 | Negative values are refused; over a zero baseline the result is 0 or the sentinel of its direction; otherwise r is the one number with (r - 1) x baseline < 10000 x change for the worse <= r x baseline |
| RegressionArithmetic.BudgetTestIsExact | scripts/evaluate_v02_gates.py:1220-1225 | Every budget a validated policy can hold is decided exactly as over the rationals, zero baselines included, although the compared number is rounded |
| RegressionArithmetic.BudgetTestIsExactIff | scripts/evaluate_v02_gates.py:1160-1171 | Exactness for all metrics holds if and only if the budget is at most 10000, which is why the policy validator caps it: the zero-baseline sentinel 10001 is finite |
| RegressionArithmetic.ZeroBaseline | scripts/evaluate_v02_gates.py:1163-1166 | A zero baseline passes a lower-is-better budget only with a zero candidate |
| RegressionArithmetic.RegressionMonotone | scripts/evaluate_v02_gates.py:1160-1171 | A worse candidate never scores a smaller regression, zero baselines included |
| RegressionArithmetic.CompareMetrics | scripts/compare_v01_benchmarks.py:516-538 | The comparator's loop reports a receipt pair within budget exactly when it is compatible and every metric is within the budget over the rationals, for any budget; a metric that is not positive is an error |
| GateEvaluation.AdverseMeanIsExact | scripts/evaluate_v02_gates.py:906-910 | Both adverse means decide a limit exactly as the sum does, although they are rounded |
| GateEvaluation.AggregatesStayAdmissible | scripts/evaluate_v02_gates.py:892-915 | For every odd number of values the metric validator accepts, aggregate and dispersion pass that same validator, signed basis points (a range of 20000 against a bound of 10000) included; the only error is a negative value in an adverse mean |
| GateEvaluation.ExpectedAggregate | scripts/evaluate_v02_gates.py:918-935 | The aggregation loop fails exactly when some cell cannot be aggregated, and otherwise returns one row per metric and one cell per stratum, each aggregated over the column of its repetitions |
| GateEvaluation.ReceiptAggregateAdmissible | scripts/evaluate_v02_gates.py:1079-1092 | A receipt with an odd number of admissible repetitions has an aggregate and a dispersion that the metric-map check accepts |
| GateEvaluation.MedianGateIsMajority | scripts/evaluate_v02_gates.py:1142-1145 | A gate on a median passes exactly when a majority of the repetitions pass it |
| GateEvaluation.MaximumGateIsUnanimous | scripts/evaluate_v02_gates.py:1142-1145 | A limited maximum passes exactly when every repetition stays within the limit |
| GateEvaluation.AdverseMeanGateIsExact | scripts/evaluate_v02_gates.py:1142-1145 | An adverse-mean gate passes exactly when the rational mean does |
| GateEvaluation.RunStatusGate | scripts/evaluate_v02_gates.py:1080-1084 | The run-status gate passes exactly when no repetition failed |
| GateEvaluation.AbsoluteEvaluations | scripts/evaluate_v02_gates.py:1122-1157 | The failures are exactly the gate cells that are UNKNOWN or outside their limits; diagnostics only report |
| GateEvaluation.RegressionEvaluations | scripts/evaluate_v02_gates.py:1195-1236 | Succeeds exactly when every budgeted cell is known and non-negative on both sides; it then records baseline, candidate, budget, regression and status of exactly those cells, and the failures are exactly the cells whose rational loss exceeds the budget |
| GateEvaluation.PassingBaselineIsKnown | scripts/evaluate_v02_gates.py:1332-1343 | In a baseline that passed its absolute gates every gate cell is known, so UNKNOWN never reaches the regression arithmetic from that side |
| GateEvaluation.ValidatedWaiver | scripts/evaluate_v02_gates.py:1239-1294 | A waiver is accepted exactly when there are failures, its scope lists each of them once and nothing else, and its dates, owner and controls fit the policy |
| GateEvaluation.NoFailuresIffGatesHold | scripts/evaluate_v02_gates.py:1344-1356 | The combined failure set is empty exactly when every gate holds over the integers and rationals |
| GateEvaluation.Evaluate | scripts/evaluate_v02_gates.py:1297-1360 | The verdict exists under an exact condition; it is pass exactly when all gates hold, waived only with non-empty failures, exact scope and issued <= evaluated <= as-of <= expiry <= issued + maximum duration; each early error is reported under its exact condition, and invalid_baseline never comes from the regression loop |
| RepetitionVerdict.CellIsRepetitionwise | scripts/evaluate_v02_gates.py:892-915 | A gate on any aggregate, minimum or maximum, decides exactly a majority, unanimity (or existence) or sum condition on the repetitions, none of them UNKNOWN |
| RepetitionVerdict.LimitsAreRepetitionwise | scripts/evaluate_v02_gates.py:1122-1157 | All absolute gates of an aggregated receipt hold exactly when every gate cell is met by its repetitions |
| RepetitionVerdict.EvaluateReceipt | scripts/evaluate_v02_gates.py:1079-1092 | A receipt gets a verdict exactly when its metrics and dispersion are the aggregate of its repetitions (otherwise the error is invalid_receipt), they cover the policy, and baseline and waiver are evaluable; the verdict is pass exactly when every gate cell is met by its repetitions and the rational budgets hold |
| HarnessAggregation.HarnessAggregate | scripts/run_v02_tracking_benchmark.py:1137-1159 | The harness loop (tracking, or detection) returns one cell for each metric and stratum of the first repetition: the harness's aggregate and dispersion of that column |
| HarnessAggregation.CellAgrees | scripts/run_v02_detection_benchmark.py:1563-1580 | Under the policy's assignment one cell of either harness equals the evaluator's; the detection harness, which takes medians, agrees on the failure rate because it is constantly 0 (line 1551) |
| HarnessAggregation.HarnessAgrees | scripts/evaluate_v02_gates.py:918-935 | For all integer repetitions a whole harness summary is the evaluator's expected aggregate, except that the evaluator has none exactly when some averaged value is negative |
| HarnessAggregation.PassesGates | scripts/run_v02_tracking_benchmark.py:1182-1201 | The harness's own gate check is true exactly when the evaluator would report no absolute failure |
| DetectionMatching.IouMeaning | scripts/run_v02_detection_benchmark.py:803-812 | Symmetric, within 0..10000, 10000 only for equal boxes; the rounded test `>= 5000` decides exactly 2 x intersection >= union, and AreasArePixels says what these count |
| DetectionMatching.AreasArePixels | scripts/run_v02_detection_benchmark.py:803-811 | For proper boxes the intersection is the number of pixels lying in both and the union the number lying in at least one |
| DetectionMatching.IouIsPixelShare | scripts/run_v02_detection_benchmark.py:803-812 | The basis points are the floor of 10000 x pixels in both / pixels in at least one, and reach 5000 exactly when twice the shared pixels are at least all of them |
| DetectionMatching.MatchesMeaning | scripts/run_v02_detection_benchmark.py:898-903 | A detection hits an item exactly when the two boxes share at least half of all pixels they cover |
| DetectionMatching.MilliPixels | scripts/run_v02_detection_benchmark.py:785-800 | A milli-pixel lies in the scaled box exactly when its pixel lies in the box |
| DetectionMatching.ScalingKeepsHalfOverlap | scripts/run_v02_detection_benchmark.py:785-800 | Scaling two ground-truth boxes to milli-pixels does not move the overlap test |
| DetectionMatching.AcceptsConfidences | scripts/run_v02_detection_benchmark.py:1510-1531 | The confidence check accepts exactly the descending lists within 0..1000001: one millionth more than a full confidence |
| DetectionMatching.DescendingKeepsPrefix | scripts/run_v02_detection_benchmark.py:824-828 | On descending confidences a threshold keeps a prefix, and a higher one a shorter prefix |
| DetectionMatching.KeptMeaning | scripts/run_v02_detection_benchmark.py:815-828 | A detection is kept exactly when it reaches the threshold and is among the first hundred that do |
| DetectionMatching.CountItem | scripts/run_v02_detection_benchmark.py:893-907 | One true positive exactly when some kept detection overlaps by at least one half; true plus false positives are the kept detections |
| DetectionMatching.CountStratum | scripts/run_v02_detection_benchmark.py:891-907 | The stratum counters are the number of items hit and the number of kept detections |
| DetectionMatching.StratumAccuracy | scripts/run_v02_detection_benchmark.py:908-912 | Precision and recall are the floors of 10000 x items hit over kept detections and over items, as inequalities on those counts; precision is 0 when nothing is kept |
| DetectionMatching.RaisingThresholdKeepsFewerHits | scripts/run_v02_detection_benchmark.py:815-828 | On validated worker output a higher threshold hits a subset of the items and never raises recall, the cap of 100 detections included |
| DetectionMatching.UnorderedOutputBreaksMonotonicity | scripts/run_v02_detection_benchmark.py:1520-1527 | The order check is needed: a concrete unordered output on which raising the threshold turns no hit into one |
| Ranking.LeqIsTotalOrder | scripts/run_v02_detection_benchmark.py:851 | The key (-confidence, item id, box) orders the entries totally; RankMeaning says in which direction |
| Ranking.RankRanks | scripts/run_v02_detection_benchmark.py:851 | The ranking is a rearrangement of the entries in key order |
| Ranking.RankIgnoresOrder | scripts/run_v02_detection_benchmark.py:851 | The ranking depends only on which entries there are |
| Ranking.RankMeaning | scripts/run_v02_detection_benchmark.py:851 | Of two ranked entries the first has the greater confidence; on a tie the id that is the beginning of the other or has the smaller character where they first differ; on equal ids the box whose left, top, right, bottom edges are smaller at the first that differs |
| TextOrder.TextLeqMeaning | scripts/run_v02_detection_benchmark.py:851 | Text is compared at the first character that differs, a beginning coming before what continues it |
| AveragePrecision.BestIsTheMaximum | scripts/run_v02_detection_benchmark.py:864-871 | The reference sample is the maximum of TP_k / k over all ranks whose recall reaches the level, and 0 if there is none |
| AveragePrecision.SampleMeaning | scripts/run_v02_detection_benchmark.py:864-871 | A sample is the one number such that no rank counted from 1 whose true positives reach the level has a greater share of them, and one has just this share unless it is 0 |
| AveragePrecision.MatchRanked | scripts/run_v02_detection_benchmark.py:852-861 | The ranked pass returns, at each rank, the number of items hit so far and that number over the rank |
| AveragePrecision.SweepBackward | scripts/run_v02_detection_benchmark.py:862-863 | The in-place sweep leaves the maximum of each suffix |
| AveragePrecision.SampleAt | scripts/run_v02_detection_benchmark.py:866-870 | The swept value at the first qualifying rank is the maximum over all qualifying ranks |
| AveragePrecision.Ap50BasisPoints | scripts/run_v02_detection_benchmark.py:831-872 | The whole computation refines the direct 101-point definition over the ranked counts: the score is the floor of 10000 x the sum of the samples / 101, as an inequality on the sum |
| AveragePrecision.CountersAgree | scripts/run_v02_detection_benchmark.py:852-861 | The ranked pass ends with the number of true positives the per-item counter reports |
| AveragePrecision.ScoreIgnoresItemOrder | scripts/run_v02_detection_benchmark.py:831-851 | Listing the items in another order changes none of the ranked counts, hence not the score |
| AveragePrecision.Ap50Meaning | scripts/run_v02_detection_benchmark.py:831-872 | The score of n items lies in 0..10000 and is 10000 exactly when the top n ranked detections match all n items |
| AveragePrecision.SumRealsAdds | scripts/run_v02_detection_benchmark.py:864-872 | The samples are added up: sums of joined lists add, a single value is its own sum |
| AveragePrecision.LeadingHitsScoreFull | scripts/run_v02_detection_benchmark.py:831-872 | On entries: the score is 10000 when every item has a hit whose confidence exceeds that of every entry that is no item's first hit |
| AveragePrecision.LeadingMissScoresLess | scripts/run_v02_detection_benchmark.py:831-872 | And less than 10000 when some miss is more confident than every hit of one item |
| AveragePrecision.TrailingFalsePositives | scripts/run_v02_detection_benchmark.py:856-872 | Any number of false positives ranked last leave the score as it is |
| AveragePrecision.StratumMetrics | scripts/run_v02_detection_benchmark.py:891-915 | A stratum has metrics exactly when it is non-empty and every item has a prediction and a usable box; they are then the three values defined above |
| DetectionAccuracy.AccuracyMetrics | scripts/run_v02_detection_benchmark.py:875-916 | A repetition has accuracy metrics exactly when every item can be scored and neither sub-stratum is empty; each stratum is scored over exactly its own items |
| PixelCounts.RectCounts | scripts/run_v02_detection_benchmark.py:803-812 | The row-by-row count every area result goes through is the cardinality of a set of pixels |
| SamplingPolicies.Nearest | scripts/run_v02_sampling_benchmark.py:520-526 | The chosen eligible frame minimises the distance, the smaller index winning ties |
| SamplingPolicies.NearestTargets | scripts/run_v02_sampling_benchmark.py:510-531 | The loop terminates with exactly 6 x fps targets. For the k-th, over the integers: no eligible frame is nearer than the chosen c in |pts x fps - 1000 x k|, only later ones are as near, and the error e has (e - 1) x fps < |pts[c] x fps - 1000 x k| <= e x fps |
| SamplingPolicies.NearestIsNearest | scripts/run_v02_sampling_benchmark.py:520-528 | The integer reading of one target: scaling by fps turns the rational distance and its ceiling into integer inequalities |
| SamplingPolicies.CeilMsIsCeiling | scripts/run_v02_sampling_benchmark.py:527-528 | The error is the exact ceiling in milliseconds |
| SamplingPolicies.ChoicesNeverDecrease | scripts/run_v02_sampling_benchmark.py:519-530 | With increasing timestamps a later target never chooses an earlier frame |
| SamplingPolicies.ErrorWithinHalfGap | scripts/run_v02_sampling_benchmark.py:527-528 | A target between two eligible frames errs by at most the ceiling of half their gap |
| SamplingPolicies.FixedSelection | scripts/run_v02_sampling_benchmark.py:540-544 | The selection is the set of frames nearest to the lattice, with one error a target |
| SamplingPolicies.MotionWindows | scripts/run_v02_sampling_benchmark.py:577-585 | Merging yields sorted, strictly separated windows that cover exactly the union of [pts, pts + 750] over the triggered frames |
| SamplingPolicies.AdaptiveSelection | scripts/run_v02_sampling_benchmark.py:570-599 | The set is the base lattice plus the 8 FPS frames inside the windows; the error list is that of the base targets outside the windows followed by the 8 FPS targets inside |
| SamplingPolicies.AdaptiveIsBracketed | scripts/run_v02_sampling_benchmark.py:586-599 | The selection lies between the base lattice and the fixed 8 FPS selection and can only shrink as the threshold rises |
| MotionScores.Scores | scripts/run_v02_sampling_benchmark.py:547-567 | The first score is 0; a later one is the greatest tile value against the frame before, a tile value being the summed changes of the sampled bytes in millionths of the largest possible sum |
| MotionScores.GreatestMeaning | scripts/run_v02_sampling_benchmark.py:556-564 | Such a score lies in 0..1000000 and is 0 exactly when none of the sampled bytes changed: the rounding hides no change |
| MotionScores.TileValueWithin | scripts/run_v02_sampling_benchmark.py:552-563 | A tile whose sampled bytes changed by at least low and at most high has a value between low x 1000000 / 255 and high x 1000000 / 255, rounded down: exactly that when all changed alike |
| Paging.SampleAll | scripts/run_v01_benchmark.py:304-327 | With a continuing sampler and exactly the sizes for which it ends, the loop terminates having fed exactly the defined pages, threading the cursor |
| Paging.TerminatesIff | scripts/run_v01_benchmark.py:308-316 | For every page size of at least 1 and a sampler that continues, the index reaches the end after finitely many pages if and only if pages hold two candidates or there is at most one candidate |
| Paging.PagesMeaning | scripts/run_v01_benchmark.py:308-316 | Neighbouring pages overlap by exactly one candidate, none exceeds the page size, and dropping the overlaps gives the candidates back |
| Paging.PageCount | scripts/compare_v01_benchmarks.py:357 | The number of pages is the comparator's closed form |
| Paging.BatchesMeaning | scripts/run_v01_benchmark.py:241-242 | Batches concatenate to the values, none is empty or too large, and their number is the rounded-up quotient |
| Paging.TransactionCount | scripts/compare_v01_benchmarks.py:356 | Samples and as many evidence records give the transactions the comparator expects |
| TreeDigest.TreeStream | scripts/provision_perception_runtime.py:1677-1716 | The walk fails exactly when some path other than the manifest is special, breaks an octal mode, link-count or owner rule, or is an outward link, and otherwise feeds the framed entries of all other paths, sorted by name |
| TreeDigest.WalkOrderIsIrrelevant | scripts/provision_perception_runtime.py:1680 | The digest does not depend on the order in which the tree is walked |
| TreeDigest.FieldCut | scripts/provision_perception_runtime.py:1672-1674 | A length-prefixed field can be cut off a stream in one way only |
| TreeDigest.EntryReadsBack | scripts/provision_perception_runtime.py:1686-1713 | A reader that cuts four length-prefixed fields off the stream gets back kind, name, octal mode, and the link's target or the file's decimal size and digest |
| TreeDigest.ModeBits | scripts/provision_perception_runtime.py:1694-1699 | The mode tests look at the write bit of the second and third octal digit and at the search bit of the third |
| TreeDigest.FieldsDetermineNode | scripts/provision_perception_runtime.py:1686-1709 | The four fields determine kind, name, mode and payload, size and digest included |
| TreeDigest.StreamDeterminesTree | scripts/provision_perception_runtime.py:1712-1713 | The hashed byte stream determines the whole sequence of entries |
| CacheDirectory.PartialMeaning | scripts/provision_perception_runtime.py:917-921 | A partial file is named by a dot, the filename, `.partial-` and anything after it, even nothing |
| CacheDirectory.SoundFinalIsPresentable | scripts/provision_perception_runtime.py:919-930 | Once its temporary files are removed, a final name of any recoverable directory passes the single-link check |
| CacheDirectory.LinkIsSound | scripts/provision_perception_runtime.py:972 | Publishing a verified temporary file by a second link keeps every final name sound |
| CacheDirectory.CrashBetweenLinkAndUnlink | scripts/provision_perception_runtime.py:972-973 | Dying there leaves link count 2: the check refuses the complete artifact until the temporary file is removed, and accepts it after |
| CacheDirectory.AllSettledIsProvisioned | scripts/provision_perception_runtime.py:1008-1010 | When every download has succeeded, a sound directory holds exactly the final names, single-linked, plus the lock |
| CacheDirectory.LockIsNoPartial | scripts/provision_perception_runtime.py:863-867 | The lock is never taken for a partial download |
| CacheDirectory.VisibleNamesAreWellNamed | workers/perception-runtime-v1.json:88-407 | Distinct filenames that do not start with a dot, as all shipped ones, satisfy the naming condition of recovery |
| ArtifactCache.Cache.RemovePartials | scripts/provision_perception_runtime.py:919-928 | Only partial files of the artifact disappear, whatever fails; on success none is left |
| ArtifactCache.Cache.VerifyArtifact | scripts/provision_perception_runtime.py:778-791 | Accepts only a present, single-linked file of the exact size and digest, and in an undisturbed run exactly those |
| ArtifactCache.Cache.Receive | scripts/provision_perception_runtime.py:937-966 | The temporary file ends as the digested stream; success means it has the approved size and digest, through partial writes and early ends |
| ArtifactCache.Cache.LinkAndUnlink | scripts/provision_perception_runtime.py:971-975 | Wherever it stops, before or after the effect of a call, final names stay sound and earlier names keep their content; success leaves the final name and, when it was new, no temporary one |
| ArtifactCache.Cache.Publish | scripts/provision_perception_runtime.py:939-980 | The same for the whole guarded part of a download, from the first byte to the directory flush |
| ArtifactCache.Cache.DownloadArtifact | scripts/provision_perception_runtime.py:916-988 | Whatever call fails, late or not, or dies: only partial files of this artifact disappear, nothing else changes, finals stay sound; success leaves the final name and no partial file |
| ArtifactCache.Cache.VerifyCache | scripts/provision_perception_runtime.py:870-879 | Success means exactly allowed names and every artifact presentable; a provisioned cache passes undisturbed |
| ArtifactCache.Cache.FetchArtifacts | scripts/provision_perception_runtime.py:991-1010 | For any manifest: success means provisioned, exactly the final names, single-linked, plus the lock; an unknown name stops the run before any download. For a well-named one every run keeps the finals sound wherever it stops, and an undisturbed run with good downloads succeeds |
| ArtifactCache.History | scripts/provision_perception_runtime.py:916-1010 | From an empty cache, after any number of fetches each failing or dying at any call, every final name of a well-named manifest holds complete verified content, and one ideal fetch then provisions the cache |
| ArtifactCache.FailingAttempt | scripts/provision_perception_runtime.py:916-1010 | The converse: for every other manifest with distinct names, positive sizes and obtainable content, one attempt from the empty cache with good downloads either is ideal and fails, or dies leaving a final name with the wrong content |
| ArtifactCache.IllNamedManifest | scripts/provision_perception_runtime.py:919-928 | A concrete manifest of two files that meets every assumption of the converse: the first filename looks like a partial download of the second |
| RuntimeInstall.Host.PublishFrozenDirectory | scripts/provision_perception_runtime.py:1389-1430 | In every run with failures before or after any call: one close attempt for an opened descriptor, the destination is untouched or is the staged inode and tree, and after the entry check the inode ends at 0o555 exactly when it was never loosened or some refreezing call took effect |
| RuntimeInstall.Host.Prepare | scripts/provision_perception_runtime.py:1491-1551 | Success means staging holds the built tree, frozen and verified |
| RuntimeInstall.Host.InstallRuntime | scripts/provision_perception_runtime.py:1481-1562 | Wherever it fails the destination is absent or is the very tree verified in staging; a failure before the rename leaves staging behind exactly when it was made and the error handler was not yet in force or its discard failed, as a run whose chmod fails shows; one after it never deletes the destination; an undisturbed run with a good tree succeeds |
| RuntimeInstall.Host.InstallOverlay | scripts/provision_perception_runtime.py:1880-1921 | The same, staging included, for the overlay published through its descriptor, with the exact condition for the published directory being frozen |
| QuickTimeAtoms.ParseInvertsEncode | scripts/prepare_v02_crop_dataset.py:288-295 | Atoms of four-byte kinds and 32-bit sizes, the ones the writer accepts, read back one by one |
| QuickTimeAtoms.ParseWithin | scripts/prepare_v02_crop_dataset.py:288-291 | In data below four gigabytes every nested list of atoms reads back |
| TimeTable.TimeEntries | scripts/prepare_v02_sampling_dataset.py:161-169 | Expanding the run-length table (ISO/IEC 14496-12, section 8.6.1.2) gives the durations; counts are at least 1 and neighbouring deltas differ |
| TimeTable.MinimalIsUnique | scripts/prepare_v02_sampling_dataset.py:161-169 | Such a table is determined by its durations |
| TimeTable.AnnotatePts | scripts/prepare_v02_sampling_dataset.py:654-680 | Every frame's timestamp is the sum of the durations before it |
| TimeTable.PtsIncrease | scripts/prepare_v02_sampling_dataset.py:654-680 | Positive durations give strictly increasing timestamps, which the sampling policies rely on |
| MovieFile.RawvideoMovie | scripts/prepare_v02_crop_dataset.py:302-365 | Accepts exactly three frames of an admitted size, and the bytes are the nested atoms of the format |
| MovieFile.RawvideoRoundTrip | scripts/run_v02_crop_benchmark.py:431-447 | Whatever the writer produces, the crop benchmark accepts, and at its offsets it finds every frame |
| MovieFile.AcceptedAreThreeAtoms | scripts/run_v02_crop_benchmark.py:431-447 | And what it accepts are exactly three atoms: a file type of 20 bytes, the media of three frames of the size asked for, and a header |
| MovieFile.ClipMovie | scripts/prepare_v02_sampling_dataset.py:172-241 | The sampling and tracking writers accept exactly matching frames and durations that fit the 32-bit fields and the size limit; the time table is minimal and fits |
| MovieFile.ReadClip | scripts/run_v02_sampling_benchmark.py:481-507 | Returns frames exactly when size, digests, headers and every frame digest match; the frames are the consecutive stretches of the media |
| MovieFile.ClipHeaderMeaning | scripts/run_v02_sampling_benchmark.py:493-500 | The header check accepts exactly the literal bytes of a 20-byte file type and of a media box just large enough for 86 frames |
| MovieFile.ClipRoundTrip | scripts/run_v02_sampling_benchmark.py:493-506 | A written sampling clip is readable against its own annotations exactly when it has 86 frames |
| MovieFile.ReadTrackingClip | scripts/run_v02_tracking_benchmark.py:560-591 | The tracking reader, which takes the media size from the file, returns frames exactly when all of its checks hold |
| MovieFile.TrackingRoundTrip | scripts/prepare_v02_tracking_dataset.py:193-266 | A written tracking clip of any number of frames reads back frame by frame against its own annotations |
| MovieFile.StblIsFound | scripts/prepare_v02_sampling_dataset.py:204-238 | A generic reader descending through the atoms reaches each sample table |
| MovieFile.MovieIsReadable | scripts/prepare_v02_crop_dataset.py:332-365 | Read from the file's own bytes: the chunk offset points at the first frame, sample size x count fills the media, the runs read back, and the frames lie where those tables say |
| MovieFile.ClipTimesReadBack | scripts/prepare_v02_sampling_dataset.py:193-200 | Expanding the time table found in any accepted clip gives the annotated durations |
| MovieFile.CropTimesReadBack | scripts/prepare_v02_crop_dataset.py:333 | The time table found in a raw movie expands to three frames of one second, 3000 ms in all |
| MovieFile.EntrySides | scripts/prepare_v02_crop_dataset.py:320-331 | The sample entry holds width and height, in this order, as 16-bit numbers |
| MovieFile.OneChunk | scripts/prepare_v02_crop_dataset.py:334 | The chunk table read back: one entry, from the first chunk on, holding all frames under the first description |
| MovieFile.HeaderClocks | scripts/prepare_v02_crop_dataset.py:342-361 | Movie and media headers read back as 1000 ticks a second and the total duration |
| MovieFile.TrackSides | scripts/prepare_v02_crop_dataset.py:345-354 | The track header reads back as the duration and, in 16.16 fixed point, width and height |
| Pixels.Paste | scripts/prepare_v02_crop_dataset.py:248-263 | In place: refused exactly on a size mismatch; otherwise every pixel of the box shows the chip's pixel and every other one is unchanged |
| Pixels.FillBox | scripts/prepare_v02_detection_dataset.py:329-340 | In place: refused exactly when the box does not fit; otherwise the three bytes of every pixel inside the box are the color's and all others keep their value |
| Pixels.CropRgb24 | scripts/prepare_v02_detection_dataset.py:343-358 | Refused exactly when the box does not fit; otherwise every pixel of the crop is the source pixel at the box's offset |
| Resize.CoordinateBounds | scripts/prepare_v02_detection_dataset.py:375-387 | For all positive sizes the upper clamps on index and fraction never bind and both indices are in range |
| Resize.CoordinatesMonotone | scripts/prepare_v02_detection_dataset.py:375-387 | Later target samples never read earlier source coordinates |
| Resize.PositionOf | scripts/prepare_v02_detection_dataset.py:375-387 | Index pair and fraction of every target sample lie at its pixel-center position in the source, rounded to 65536ths and clamped to the image, by inequalities |
| Resize.PositionIs | scripts/prepare_v02_detection_dataset.py:375-387 | These inequalities leave no other index pair and fraction |
| Resize.ResizedMeaning | scripts/prepare_v02_detection_dataset.py:388-399 | Every read is in bounds and each output channel lies between any bounds on its four source samples |
| Resize.OutputIsWeighted | scripts/prepare_v02_detection_dataset.py:388-399 | Every output channel v has v x 2^32 <= S + 2^31 < (v + 1) x 2^32, S being the four samples at (x0,y0), (x1,y0), (x0,y1), (x1,y1) weighted by (65536-fx)(65536-fy), fx(65536-fy), (65536-fx)fy and fx x fy |
| Resize.ConstantStaysConstant | scripts/prepare_v02_detection_dataset.py:388-399 | A constant image stays constant |
| Resize.EqualSizesIdentity | scripts/prepare_v02_detection_dataset.py:361-400 | Equal dimensions give the image back |
| Resize.ResizeRgb24 | scripts/prepare_v02_detection_dataset.py:361-400 | Refused exactly for a dimension below 1; otherwise the buffer is a resized image, whose every channel OutputIsWeighted determines |
| Resize.FitMeaning | scripts/prepare_v02_detection_dataset.py:429-437 | The fitted size touches one limit and exceeds neither; the other side is that of the exact aspect ratio rounded down, but at least one pixel, by inequalities |
| Ppm.PartitionMeaning | scripts/prepare_v02_detection_dataset.py:295-297 | The parts are the only way to cut the data at its first separator |
| Ppm.IntMeaning | scripts/prepare_v02_detection_dataset.py:306-308 | Digits with single underscores between them, one sign before and white space around them are a number of the digits' value, negated by a minus |
| Ppm.IntHasParts | scripts/prepare_v02_detection_dataset.py:306-308 | Nothing else is a number |
| Ppm.WrittenReadsBack | scripts/prepare_v02_detection_dataset.py:475-476 | A written frame reads back exactly when its size is admissible, whatever bytes its pixels are |
| Ppm.AcceptedAreFrames | scripts/prepare_v02_detection_dataset.py:292-313 | Accepted data are exactly three header lines, two numbers that fit, and the pixels |
| DetectionItems.PlacedFits | scripts/prepare_v02_detection_dataset.py:460-467 | The clamped placement lies on the canvas exactly when the object is no higher than it |
| DetectionItems.ComposeItem | scripts/prepare_v02_detection_dataset.py:440-476 | The composed frame parses exactly when the fitted object is no higher than the canvas; it then shows the resized object in the annotated box over the background |
| DetectionItems.AdmittedLimitsCanFail | scripts/prepare_v02_detection_dataset.py:429-437 | A concrete admitted configuration that fails: a chip twice as high as wide, fitted to 640 rows |
| DetectionItems.SafeHeights | scripts/prepare_v02_detection_dataset.py:638-650 | That holds for every chip if and only if the height limit is at most the canvas height, while the validator admits limits up to 640 on a canvas of 360 |
| CellCenters.HitsIff | scripts/run_v02_crop_benchmark.py:464-467 | The position sampled for a cell lies in it exactly when the cell starts on a whole pixel or the extent is at least twice what the start lacks to the next one |
| CellCenters.LegibleIff | scripts/run_v02_crop_benchmark.py:464-467 | Every sampled position lies in its own cell exactly for extents that are multiples of the number of cells or at least twice that number less twice their greatest common divisor |
| Panels.RenderPanel | scripts/prepare_v02_crop_dataset.py:266-285 | In place: refused exactly for a wrong number of bits; otherwise every pixel of the panel shows its cell and nothing else changes |
| Panels.RenderFrame | scripts/prepare_v02_crop_dataset.py:574-593 | Every pixel shows the gray control, else the readable panel, else the resized object, else the background |
| Panels.SampleCells | scripts/run_v02_crop_benchmark.py:450-471 | Refused exactly for a wrong crop or box; otherwise one bit a cell, read at the cell's center |
| Panels.PanelRoundTrip | scripts/run_v02_crop_benchmark.py:450-471 | A readable panel of legible size (48 by 16 pixels and more included) inside the object box and apart from the control comes back bit for bit from the crop, over any object and background |
| Panels.PanelReads | scripts/run_v02_crop_benchmark.py:450-471 | Whatever its size, such a panel reads back as the cells its sampled positions hit |
| Panels.SampledIff | scripts/run_v02_crop_benchmark.py:450-471 | Every pattern comes back exactly when both sides of the panel are legible |
| Panels.ControlReadsOnes | scripts/run_v02_crop_benchmark.py:468-470 | The gray control reads as all ones, whatever its size |
| PanelScores.CombinedPattern | scripts/prepare_v02_crop_dataset.py:189-198 | The row-by-row loop puts each task's glyph side by side |
| PanelScores.TaskBitsInvertsCombined | scripts/run_v02_crop_benchmark.py:474-479 | Reading a task's bits out of a combined panel gives back its glyph |
| PanelScores.DistanceIsNumber | scripts/run_v02_crop_benchmark.py:482-496 | The distance classification minimises is the number of places where two glyphs differ |
| PanelScores.Classify | scripts/run_v02_crop_benchmark.py:482-496 | The result has minimal Hamming distance, the smaller label winning ties |
| PanelScores.OwnGlyph | scripts/run_v02_crop_benchmark.py:482-496 | A glyph is classified as its own label exactly when no smaller label shares it |
| PanelScores.ScorePanel | scripts/run_v02_crop_benchmark.py:509-519 | 192 readable cells exactly for the expected panel; each task of it is then correct exactly when no smaller label shares the glyph |
| PanelScores.RenderAndScore | scripts/run_v02_crop_benchmark.py:717-780 | Rendering, cropping, sampling and scoring end to end: every cell comes back, and every task is correct exactly when no smaller label shares its glyph |
| PanelScores.SourceBoxMeaning | scripts/prepare_v02_crop_dataset.py:201-222 | A detector box maps exactly when its edges lie on multiples of eight rows; it then fits the source, ten times as wide and 45/8 times as high |
| PanelScores.SourcePanelIsLegible | scripts/prepare_v02_crop_dataset.py:485-498 | A panel given by a detector box is legible in the source exactly when it is four detector pixels wide or more |
| PanelScores.SourceBoxKeepsLayout | scripts/prepare_v02_crop_dataset.py:201-222 | Nested and disjoint detector boxes stay nested and disjoint in the source |
| Visibility.LastPainterMeaning | scripts/prepare_v02_tracking_dataset.py:651-655 | A pixel's last painter is the object whose box holds it while no later one's does |
| Visibility.VisibleIsOwned | scripts/prepare_v02_tracking_dataset.py:656-663 | The count from later-drawn boxes is the number of box pixels whose last painter is that object |
| Visibility.VisibleCountsAddUp | scripts/prepare_v02_tracking_dataset.py:651-663 | Over any boxes and drawing order the visible counts add up to the area of the union |
| Visibility.FullyVisible | scripts/prepare_v02_tracking_dataset.py:592-607 | An object is fully visible exactly when no later object touches it, and visible plus covered pixels are its area |
| Visibility.VisibilityMillionths | scripts/prepare_v02_tracking_dataset.py:592-607 | The marking loop over a byte buffer returns the floor of 1000000 x pixels outside every occluder / pixels of the box, overlaps counted once |
| Visibility.PaintObjects | scripts/prepare_v02_tracking_dataset.py:651-655 | Every pixel of the canvas shows the chip of its last painter, or the background |
| TrackingLanes.BoxesFit | scripts/prepare_v02_tracking_dataset.py:542-558 | Boxes never leave the canvas, in any scenario |
| TrackingLanes.StandingLanes | scripts/prepare_v02_tracking_dataset.py:517-519 | Before a standing camera and behind masks the objects drift right by one pixel a frame, jump back by ten or eight, and stay within five or four pixels of their places |
| TrackingLanes.StandingPhases | scripts/prepare_v02_tracking_dataset.py:517-531 | Every object is three frames ahead of the one before; behind a mask each variant is one frame ahead as well |
| TrackingLanes.Baselines | scripts/prepare_v02_tracking_dataset.py:550-555 | Dense objects stand in pairs on three baselines 120 rows apart, the others 30 rows apart |
| TrackingLanes.CameraLanes | scripts/prepare_v02_tracking_dataset.py:507-522 | A moving camera moves all three lanes alike up to the edges |
| TrackingLanes.CameraJerks | scripts/prepare_v02_tracking_dataset.py:507-510 | Its shift grows by three pixels a frame within twenty, under jerks of 4 to 9 to the left and 5 to 9 to the right in turn |
| TrackingLanes.CameraRepeats | scripts/prepare_v02_tracking_dataset.py:507-510 | The jerks repeat after eight frames, the whole shift after forty |
| TrackingLanes.CutsLanes | scripts/prepare_v02_tracking_dataset.py:523-527 | Between cuts the first two objects approach at six pixels a frame and the third moves right by two up to the edge; each cut puts them back |
| TrackingLanes.LanesAreDisjoint | scripts/prepare_v02_tracking_dataset.py:517-531 | With a stationary or moving camera and in occlusion clips the three lanes are disjoint for every frame and variant at width 170 |
| TrackingLanes.CutLanes | scripts/prepare_v02_tracking_dataset.py:523-527 | In cut clips the first two lanes are apart exactly in the first seven frames of a segment |
| TrackingLanes.BoxesApart | scripts/prepare_v02_tracking_dataset.py:542-558 | The drawn boxes are pairwise disjoint, except in cut clips, where they are exactly in the first seven frames or when the first object is at most 30 rows high |
| TrackingLanes.MaskFrames | scripts/prepare_v02_tracking_dataset.py:634-639 | Objects are hidden for one, three and five frames from the twentieth on, and partly so exactly in the frame before and the one after |
| TrackingLanes.CoverMeaning | scripts/prepare_v02_tracking_dataset.py:610-612 | A partial mask is the second third of the box over its whole height |
| TrackingLanes.PartialMask | scripts/prepare_v02_tracking_dataset.py:610-612 | A partial mask over an object of width 170 leaves 670588 millionths visible |
| TrackingLanes.Annotate | scripts/prepare_v02_tracking_dataset.py:656-677 | Dense crossings fail exactly when some object keeps less than a quarter; otherwise the annotation lists, in drawing order, exactly the roles that stay visible, with the reported shares |
| TrackingLanes.TurnedPixel | scripts/prepare_v02_tracking_dataset.py:484-495 | Pixel x of a turned row is pixel (x - shift) modulo the width of the original |
| TrackingLanes.TurnBack | scripts/prepare_v02_tracking_dataset.py:484-495 | Turning back restores the row, for every shift |
| TrackingLanes.ShiftRows | scripts/prepare_v02_tracking_dataset.py:484-495 | Every row of the frame is turned by the shift |
| TrackingFrames.PaintMasks | scripts/prepare_v02_tracking_dataset.py:678-687 | After the mask loop every pixel shows its last painter, masks included; it fails exactly on a partial mask over a single column |
| TrackingFrames.RenderFrame | scripts/prepare_v02_tracking_dataset.py:615-688 | A frame is rendered exactly when every chip fits its box, no dense object is too hidden and masks can be filled; pixels and annotations are then as defined over the turned background |
| TrackingFrames.OcclusionIsExact | scripts/prepare_v02_tracking_dataset.py:656-687 | In occlusion clips the annotated visibility (0 for an unlisted role) is exactly the share of the box that shows the object once the masks are painted |
| TrackingFrames.AnnotationsAreExact | scripts/prepare_v02_tracking_dataset.py:656-687 | In every three-lane scenario the annotation is exact in that sense, except in cut clips, where it is exactly in the first seven frames of a segment or when the first object is at most 30 rows high |
| TrackingFrames.DenseAnnotationsAreExact | scripts/prepare_v02_tracking_dataset.py:661-663 | In dense crossings the annotation is exact for every drawing order |
| TrackingFrames.DrawnAtStandardWidth | scripts/prepare_v02_tracking_dataset.py:651-654 | With chips of width 170 the drawn boxes are those lanes |
| TrackingFrames.DrawingOrder | scripts/prepare_v02_tracking_dataset.py:641-649 | A dense frame draws all six roles, pair by pair, the taller of a pair first and on a tie the lower role |
| Assignment.Scan | scripts/v02_tracking_metrics.py:117-128 | One pass lowers the bound of every unused column to the new row's reduced cost where that is smaller, remembers the row that gave it, and finds the first column of least bound |
| Assignment.ShiftKeepsDual | scripts/v02_tracking_metrics.py:129-134 | Moving the potentials of the tree by the least bound keeps every reduced cost non-negative, every matched edge tight, every column price non-positive and unmatched columns unpriced |
| Assignment.Search | scripts/v02_tracking_metrics.py:109-137 | The search ends in an unmatched column that tight edges join to the waiting row, with the dual invariant intact; it ends because every round uses up a column |
| Assignment.FreeColumn | scripts/v02_tracking_metrics.py:112-128 | While fewer rows are placed than there are columns a column is free, so the least bound is never infinite |
| Assignment.Augment | scripts/v02_tracking_metrics.py:138-143 | Shifting the rows along the path leaves every row placed so far, the new one included, in exactly one column, over tight edges |
| Assignment.CertifiedIsHeaviest | scripts/v02_tracking_metrics.py:73-74 | Prices that no edge exceeds, met by the pairs and zero elsewhere, show a matching to weigh as much as any |
| Assignment.HungarianMax | scripts/v02_tracking_metrics.py:73-147 | For every admitted matrix the rows of the pairs strictly increase, the pairs form a matching of as many pairs as the smaller side has lines, and weigh at least as much as every matching of any size; each error is reported exactly under its test, in order, and empty inputs give no pairs |
| IdentityScores.Validate | scripts/v02_tracking_metrics.py:28-54 | A sequence is accepted exactly when each side of every frame has at most 64 distinct names of 1 to 128 characters with boxes of positive size inside the coordinate limit, and frames, identities and observations stay within their limits |
| IdentityScores.Tally | scripts/v02_tracking_metrics.py:357-369 | The counting loops find every identity once, count all boxes, and count for every pair of identities exactly the overlapping boxes they share |
| IdentityScores.OverlappingMeaning | scripts/v02_tracking_metrics.py:57-66 | Two boxes overlap exactly when they share at least half of all pixels they cover |
| IdentityScores.HeaviestSharesMost | scripts/v02_tracking_metrics.py:377-383 | A heaviest matching of the matrix is a one-to-one pairing of identities that shares the most boxes, even among pairings that name identities which never occur |
| IdentityScores.MostSharedWithin | scripts/v02_tracking_metrics.py:384-385 | The best count exceeds neither the boxes of the truth nor those predicted, so the two error counts are never negative |
| IdentityScores.IdentityDetails | scripts/v02_tracking_metrics.py:350-394 | Invalid sequences are refused; otherwise the true positives are the most boxes any one-to-one pairing of identities shares, the two error counts are what remains of each side, and idf1 x T <= 20000 x true positives < (idf1 + 1) x T for T boxes on both sides, 0 when T is 0 |
| IdentityScores.PerfectScore | scripts/v02_tracking_metrics.py:386-394 | The score lies within 0..10000 and reaches 10000 exactly when one pairing of identities accounts for every box of both sides |
| IdentityScores.ExchangedScore | scripts/v02_tracking_metrics.py:350-394 | Exchanging truth and predictions exchanges the totals and keeps the best count and the score |
| IdentityScores.NamesDoNotMatter | scripts/v02_tracking_metrics.py:377-383 | Renaming identities, no two alike, does not change the best count |
| DenseCrossings.RenderedLayersAreDisjoint | scripts/prepare_v02_tracking_dataset.py:148-151 | The promised three disjoint vertical lanes: in every dense frame that is rendered at all, for every variant and all chips a clip can have (the last two mirror the first two), boxes of different layers share no pixel |
| DenseCrossings.MirroredPasteable | scripts/prepare_v02_tracking_dataset.py:798-805 | The chips of a clip can be pasted exactly when both originals have at most 115 rows: they stand on the highest baseline themselves, and their mirror images fit wherever they do |
| DenseCrossings.FirstIsCovered | scripts/prepare_v02_tracking_dataset.py:661-663 | The object drawn first in its pair loses exactly the shared columns over the height of the other one |
| DenseCrossings.PairHidden | scripts/prepare_v02_tracking_dataset.py:668-669 | Only the higher object of a pair can be too hidden, and it is exactly when the shared columns over the lower one's height take more than three quarters of it |
| DenseCrossings.FrameRenders | scripts/prepare_v02_tracking_dataset.py:644-669 | A dense frame of a clip is rendered exactly when both chips have at most 115 rows and the higher one is not hidden: a test of two heights and the frame number, whatever the variant |
| DenseCrossings.ClipRenders | scripts/prepare_v02_tracking_dataset.py:828-850 | All sixty frames of a dense clip are rendered exactly when both chips have at most 115 rows and the lower one at most 45/52 of the higher one's: the sixteenth frame decides the whole clip |

## Left out

- Real descriptors, symbolic links, ownership, `O_NOFOLLOW`, flock and the durability of `fsync`: the provisioner is modelled over names, inodes, link counts, contents and modes.
- Network, redirects and URL rules: a download is denied, broken after some chunks, or complete.
- Archives, wheels, licences, privacy and schema field lists, regular expressions and calendar parsing: long conjunctions of one-branch checks. A waiver's texts are one flag, dates are day numbers.
- SHA-256, JSON encoding, OpenVINO and numpy inference: a digest is an arbitrary function of the bytes, predictions are arbitrary inputs.
- The `visualworld.*` modules (sampler, transform, tracker, coordinator) are not part of this model; the sampler is a parameter and crops use `crop_rgb24`.
- HOTA, per-frame matches, identity diagnostics, the geometry tracker and the sums over several sequences in `v02_tracking_metrics.py`: the hard part they share, the assignment, is modelled.
- Background colors, lane markings, golden constants and frozen glyphs: parameters.
- `choose_threshold`, event metrics, cut scores, recall floors and receipt assembly: they would add only easy members.
- The other checks of the comparator's verdict (profiles, statuses, resident size) and of receipts (provenance, counters): one-branch tests.
- The limits and values the evaluator copies into its per-cell records of absolute gates, beside status and failures; failure strings are the values of a datatype, whose printed form is injective for the names the policy admits.
- ArtifactCache.Cache.FetchArtifacts: other processes are kept out by the lock and not modelled, but the branch for a link that already exists is.
- RuntimeInstall.Host.Rename: an occupied destination always refuses the rename; POSIX lets a rename replace an empty directory.
- RuntimeInstall.Host.Discard: removal of the staging tree is one step that happens or does not; a partly removed tree is not represented.
- RuntimeInstall.Host.Prepare: extraction, copying and closure checks are a number of steps that may each fail; the tree they build is a parameter.
- RuntimeInstall.Host.PublishFrozenDirectory: an interrupt between `open` succeeding and its result being stored is not represented.
- TreeDigest.TreeStream: takes the paths of the tree with their metadata, in any order, as given; errors of single reads are not represented.
- Paging.SampleAll: assumes that every call before the last returns a cursor, as the sampler (not part of this model) must; without one the loop starts over at the first page.
- Ppm.AcceptedAreFrames: the interpreter's limit on the length of a digit string is not represented.
- MovieFile.ReadClip: an atom size field beyond the data is reported as a rejected clip, where the script raises an unpacking error.
- AveragePrecision.StratumMetrics: an empty stratum, a division by zero in the script, is one of its errors; which error comes first is not represented.
- DetectionItems.ComposeItem: strata other than the two, which the script refuses, are not values of the model; two digest bytes and the generated background are parameters.
- TrackingFrames.RenderFrame: track names and the clip loop around it are not represented.
- Assignment.HungarianMax: weights are rationals. The script's doubles are exact on the counts it is called with by the identity scores; on fractional weights rounding and values that are not finite are not represented.
- IdentityScores.IdentityDetails: compares exact overlap ratios with one half; the rounding of the ratio to a double, which can only matter for boxes with areas beyond 52 bits, is not represented.
