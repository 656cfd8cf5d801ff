# Verified model of the IoT device registry service

A Dafny model of the five stateful or recursive components of the service, in its in-memory
configuration, with proofs about whole runs of each of them.

- **Time-series store** (`BoundedSeries`, `TimeSeriesModel`, `TimeSeriesAggregation`,
  `TimeSeriesSums`, `TimeSeriesGaps`, `TimeSeriesLog`, `TimeSeriesStore`, `TimeSeriesService`):
  bounded, incrementally sorted series with range query, bucketed aggregation and gap detection.
- **Digital twin** (`TwinState`, `TwinDiff`, `TwinPatch`, `TwinUndo`, `TwinService`, `TwinValidation`,
  `TwinHeap`): recursive merge and structural diff over JSON trees, the document service over many
  devices, patch validation, and, on a heap of shared maps and slices, the cloning that isolates the
  repository.
- **Rule engine** (`RuleWindow`, `RuleEngine`, `RuleVerdicts`): binary-searched sliding window,
  conditions, cooldown.
- **Commands and firmware** (`CommandModel`, `CommandInvariants`, `CommandService`,
  `CommandOutcomes`, `FirmwareModel`, `FirmwareService`, `FirmwareOutcomes`): two state machines over
  repositories.
- **Rate limiters** (`TokenBucket`, `Authentication`): a token bucket over the reals and a
  fixed-window counter.

`Arithmetic`, `Strings`, `Sequences`, `Sorting` and `Results` hold lemmas on quotients, Go's string
order, sequence lemmas, `sort.Slice`, and error kinds and options.

## How the model reads the source

- Objects whose methods change fields are classes; their methods are proved against functions on
  values, and the properties of runs are lemmas about those functions.
- A service call is one atomic step. The source takes no lock across its Get and Save, so this is
  an assumption; for the firmware receipts `FirmwareModel.OverlapIsSafeIffDistinct` shows exactly
  what it costs.
- Time is integer nanoseconds since Go's zero time, so `IsZero` is `== 0`. A call reads the clock
  once, except a rule evaluation, whose four readings are kept apart. Generated ids are new.
- `float64` is `real`. `sort.Slice` is unstable and promises a sorted permutation only.
- Series keys, index keys and diff paths are pairs and key sequences instead of joined strings.

## Where the code differs from what it promises

Each of these comes with an input that shows it and the exact condition under which the code does
meet the promise.

- `Aggregate` seeds a bucket with its first value and then adds it again: a sum is the total of its
  points, and an average their mean, if and only if the first value is zero
  (`TimeSeriesSums.SumIsTotalIffFirstIsZero`); one point is reported as twice its value
  (`TimeSeriesSums.AverageOfOneIsDouble`). Counts, minima and maxima roll up from fine to coarse
  buckets; sums do if and only if the values that open the fine buckets after the first add up to
  zero (`TimeSeriesSums.RollUpSumInOrder`), which two samples of 1.0, written and summed through the
  service, do not (`TimeSeriesService.SumsOfPair`).
- A descending query with a limit keeps the tail after sorting, so like an ascending one it returns
  the oldest points. They are also the newest if and only if the limit cuts nothing off, is zero, or
  all points in range are of one time (`TimeSeriesStore.OldestIsNewestIff`); asked for the later of
  two points, the store answers with the earlier (`TimeSeriesStore.LatestIsMissed`).
- The reaper selects pending commands only. A retry budget of up to 20 is accepted, but a command
  that times out unacknowledged is retried at most once: it ends failed if and only if its budget is
  zero, and otherwise stays in `retrying` (`CommandInvariants.TimedOutFailsIffNoRetries`,
  `CommandInvariants.ThreeRetriesAreOne`).
- A failed acknowledgement records the caller's message as the reason if and only if there is one;
  without a message the reason reads "acknowledged" (`CommandInvariants.FailureReasonIsMessage`).
- The first call of a token bucket does not take out its token. In any state of a limiter, a key is
  held to 1 + rate * T calls in time T, in every run up to the next pruning, if and only if it has a
  bucket (`TokenBucket.KeepsRateIffBucket`); two calls at one instant on a key without one both pass
  (`TokenBucket.TwoAtOnce`), and 2 + rate * T is the bound from there.
- Within one counter window the fixed window lets through its limit and no more
  (`Authentication.InsideWindow`). Within an interval of the same length it lets through up to twice
  its limit less one, and one limit more for every revocation, and that number is reached
  (`Authentication.BoundIsReached`). It keeps to its limit if and only if the device is not revoked
  and the limit is one or the window a single nanosecond (`Authentication.LimitIsKeptIff`).
- The nested diff does not tell a missing key from an explicit nil, the top level does
  (`TwinPatch.NestedNilIsMissed`): it is empty if and only if the states agree up to that
  (`TwinPatch.DiffEmptyIffInSync`), and that means equal states, whatever is reported, if and only if
  no desired value is a map (`TwinPatch.EmptyMeansEqualIffFlat`).

## Model

| member | source | states |
|---|---|---|
| BoundedSeries.ReachableRetains | internal/timeseries/infrastructure/memory/store.go:27-41 | Over every arrival order the series stays sorted and of length min(n, limit), keeps the newest write whatever its key, and evicts nothing that exceeds another kept point |
| TimeSeriesModel.SeriesRetention | internal/timeseries/infrastructure/memory/store.go:24-43 | Closed form: all keys up to the limit; beyond it exactly the limit-1 greatest keys of all writes but the last, plus the last |
| TimeSeriesModel.KeyOrderMeans | internal/timeseries/infrastructure/memory/store.go:34-39 | Earlier points come first, and of points of one time those whose string is a prefix or smaller where they first differ |
| TimeSeriesModel.AgreesPastHorizon | internal/timeseries/infrastructure/memory/store.go:24-56 | However late points arrived, a range starting after the second retained timestamp (or any range of a series below its limit) holds exactly what was ever written there |
| TimeSeriesModel.HorizonIsExact | internal/timeseries/infrastructure/memory/store.go:24-56 | That horizon is optimal: for every series and range, agreement with every history of writes to this series that could have left it so holds if and only if the range is past the horizon or empty |
| TimeSeriesStore.Store.constructor | internal/timeseries/infrastructure/memory/store.go:17-22 | Empty store; a non-positive limit means 20000 |
| TimeSeriesStore.Store.Write | internal/timeseries/infrastructure/memory/store.go:24-43 | Each point joins the log of its own series, and every series stays what some run of its log leaves |
| TimeSeriesStore.Store.Query | internal/timeseries/infrastructure/memory/store.go:45-68 | Time order as asked; a cut answer keeps the oldest points in both directions, past the horizon the oldest ever written, and uncut all of them; when the oldest are also the newest |
| TimeSeriesModel.BetweenMeans | internal/timeseries/infrastructure/memory/store.go:51-55 | Both ends of a range belong to it |
| TimeSeriesStore.OldestIsNewestIff | internal/timeseries/infrastructure/memory/store.go:57-66 | The oldest points of a range are also its newest if and only if the limit cuts nothing off, is zero, or all are of one time |
| TimeSeriesStore.LatestIsMissed | internal/timeseries/infrastructure/memory/store.go:57-66 | A descending query for one of two points is answered with the earlier one |
| TimeSeriesStore.LogOfSeries | internal/timeseries/infrastructure/memory/store.go:27-41 | A batch extends each series' log by exactly its own points, in batch order |
| TimeSeriesStore.Store.Aggregate | internal/timeseries/infrastructure/memory/store.go:70-116 | One bucket per non-empty group of in-range points, in time order, each with the naive group's count, extreme, or total plus first value; past the horizon these are groups of everything ever written |
| TimeSeriesLog.AggregationOfLog | internal/timeseries/infrastructure/memory/store.go:70-116 | Where series and log agree, the aggregation is one of the log: its counts, extremes and totals, with an earliest value counted twice |
| TimeSeriesStore.Accumulate | internal/timeseries/infrastructure/memory/store.go:75-102 | The bucket map holds exactly the running summary of each naive group |
| TimeSeriesAggregation.AggregationIsUnique | internal/timeseries/infrastructure/memory/store.go:109-115 | Whatever the order in which the bucket map is scanned and the sort treats ties, there is one answer |
| TimeSeriesAggregation.BucketsPartitionTime | internal/timeseries/infrastructure/memory/store.go:80-86 | Buckets are aligned, do not overlap, and every in-range point lies inside one |
| TimeSeriesAggregation.CountsAreConserved | internal/timeseries/infrastructure/memory/store.go:76-102 | Bucket counts add up to the number of in-range points |
| TimeSeriesAggregation.TruncateComposes | internal/timeseries/infrastructure/memory/store.go:80 | Truncating finely first does not change a coarse truncation |
| TimeSeriesAggregation.RollUpCount | internal/timeseries/infrastructure/memory/store.go:76-115 | A coarse count is the sum of the counts of its fine buckets |
| TimeSeriesAggregation.RollUpExtremes | internal/timeseries/infrastructure/memory/store.go:87-95 | A coarse minimum (maximum) is the least (greatest) of its fine ones |
| TimeSeriesAggregation.RollUpSum | internal/timeseries/infrastructure/memory/store.go:84-97 | Fine sums add up to the coarse sum if and only if the values that open the fine buckets add up to the one that opens the coarse bucket |
| TimeSeriesSums.RollUpSumInOrder | internal/timeseries/infrastructure/memory/store.go:84-97 | In a time-ordered series fine sums add up if and only if the values that open the fine buckets after the first add up to zero |
| TimeSeriesSums.SumsDoNotRollUp | internal/timeseries/infrastructure/memory/store.go:84-97 | Two samples of 1.0 in two seconds: sums of 2.0 each, and 3.0 together |
| TimeSeriesService.SumsOfPair | internal/timeseries/infrastructure/memory/store.go:84-97 | The same through the service: written as a batch, the pair is summed to 2.0 for each second and 3.0 for both |
| TimeSeriesSums.SumIsTotalIffFirstIsZero | internal/timeseries/infrastructure/memory/store.go:84-97 | A sum is the total, and an average the mean, of its points if and only if the first of them is zero |
| TimeSeriesSums.AverageOfOneIsDouble | internal/timeseries/infrastructure/memory/store.go:84-97 | The sum and the average of a single point are twice its value |
| TimeSeriesStore.Store.DetectGaps | internal/timeseries/infrastructure/memory/store.go:118-147 | Reports the neighbouring in-range sample times more than one and a half intervals apart; past the horizon those of everything ever written |
| TimeSeriesStore.Store.Close | internal/timeseries/infrastructure/memory/store.go:172-177 | Forgets every series |
| TimeSeriesGaps.ReportedIffGap | internal/timeseries/infrastructure/memory/store.go:132-145 | Sound and complete: reported if and only if it is an empty stretch between two samples above the threshold |
| TimeSeriesGaps.AboveThresholdIffTooLong | internal/timeseries/infrastructure/memory/store.go:132 | The rounded threshold stands for exactly one and a half intervals |
| TimeSeriesLog.GapOfLog | internal/timeseries/infrastructure/memory/store.go:118-147 | Where series and log agree on a range, they have the same gaps |
| TimeSeriesGaps.GapsInOrder | internal/timeseries/infrastructure/memory/store.go:133-145 | Gaps are reported once each, in order, without overlap |
| TimeSeriesGaps.LongStretchIsCovered | internal/timeseries/infrastructure/memory/store.go:132-145 | Every longer sample-free stretch between first and last sample lies inside one reported gap |
| TimeSeriesService.Service.WriteBatch | internal/timeseries/application/service.go:26-49 | All or nothing: accepted if and only if every point is named and at most an hour ahead; refused batches leave no trace |
| TimeSeriesService.AcceptableMeans | internal/timeseries/application/service.go:32-43 | A point is taken if it is named and at most an hour ahead; one without a time gets the present one and nothing else changes |
| TimeSeriesService.Service.Query | internal/timeseries/application/service.go:51-72 | Defaults of range and limit, refusals, the oldest points of the resulting range, and exactly when they are also the newest |
| TimeSeriesService.Service.Aggregate | internal/timeseries/application/service.go:74-103 | For every accepted request the defaulted bucket makes buckets disjoint and counts conserved; past the horizon the buckets hold all that was ever written |
| TimeSeriesService.Service.DetectGaps | internal/timeseries/application/service.go:105-126 | For every accepted request the answer is exactly the set of gaps, in order; past the horizon the gaps of all that was ever written |
| TimeSeriesService.OpenBoundsMeanLastDay | internal/timeseries/application/service.go:55-60 | A request without bounds is about the last 24 hours; bounds that are given stand |
| TimeSeriesService.RequestDefaults | internal/timeseries/application/service.go:64-111 | At most 10000 points, 1000 by default; averages over minutes by default, no bucket below a second; gaps against an expected minute by default |
| TwinState.MergeMaps | internal/twin/application/service.go:149-166 | The two loops compute the recursive merge |
| TwinState.AssociativeIffCompatible | internal/twin/application/service.go:149-166 | merge(merge(a,b),c) = merge(a,merge(b,c)) for every a if and only if no common path holds a non-map in b and a map in c |
| TwinState.RunCombines | internal/twin/application/service.go:149-166 | A run of patches may be combined into one beforehand, on every base, if and only if no patch of it holds a non-map where the run as a whole leaves a map |
| TwinState.AbsorbedByRun | internal/twin/application/service.go:149-166 | A patch of a run that is also sent beforehand leaves no trace |
| TwinState.MergeIdempotent | internal/twin/application/service.go:149-166 | Merging the same patch twice equals merging it once |
| TwinDiff.ComputeDiff | internal/twin/application/service.go:91-117 | The loop over sorted keys computes the diff |
| TwinDiff.AppendDiff | internal/twin/application/service.go:168-198 | The recursive append computes the nested diff |
| TwinPatch.DiffIsPatch | internal/twin/application/service.go:91-117 | For arbitrary trees, applying the diff to the reported state gives the desired state up to nil entries |
| TwinPatch.DiffIsExactPatch | internal/twin/application/service.go:91-117 | For trees without nil, applying the diff gives exactly the desired state |
| TwinPatch.DiffEmptyIffInSync | internal/twin/application/service.go:91-117 | Empty if and only if the top-level keys agree and all values below are equal up to nil |
| TwinPatch.NestedNilIsMissed | internal/twin/application/service.go:168-198 | An explicit nil against a missing key is listed at the top level only |
| TwinPatch.EmptyMeansEqualIffFlat | internal/twin/application/service.go:91-117 | An empty diff means equal states, whatever is reported, if and only if no desired value is a map |
| TwinPatch.DiffEmptyIffEqual | internal/twin/application/service.go:91-117 | Without nil, empty if and only if the trees are equal |
| TwinPatch.NoDiffIffSame | internal/twin/application/service.go:168-198 | A nested pair yields no entry if and only if equal up to nil |
| TwinPatch.DiffPathsSeparated | internal/twin/application/service.go:103-115 | Paths are strictly ascending and none is a prefix of another |
| TwinPatch.Convergence | internal/twin/application/service.go:91-117 | After merging desired into reported, the diff lists only paths the desired state does not have |
| TwinPatch.ConvergenceIsExact | internal/twin/application/service.go:91-117 | And all of those the device reports: a path is listed if and only if its keys lead through maps on both sides to one that is reported and not desired |
| TwinUndo.EntriesQuoteBothStates | internal/twin/application/service.go:103-117 | Every entry is named after its last key and quotes the value of each state at its path, nil where there is none |
| TwinUndo.DiffMirrors | internal/twin/application/service.go:91-117 | The diff of the exchanged states is the diff read the other way round |
| TwinUndo.DiffUndoes | internal/twin/application/service.go:91-117 | Writing the reported values into the desired state at the diff's paths gives back the reported state up to nil entries; without nil exactly |
| TwinService.TwinsDoNotInterfere | internal/twin/application/service.go:47-89 | Over any interleaving across devices: desired is the fold of the device's own desired patches since its deletion, reported likewise, version the number of both |
| TwinService.DesiredPatchesCombine | internal/twin/application/service.go:47-66 | Any stretch of a device's desired patches that meets this condition may be sent as one, whatever other calls come in between, before and after, and at whatever times |
| TwinService.DocumentsAreStamped | internal/twin/application/service.go:47-89 | Over every run a device has a document if and only if something was written for it since its deletion, and the document carries the time of the latest write |
| TwinService.SummaryShows | internal/twin/application/service.go:138-147 | An answer shows both halves, version, time and the diff of the halves |
| TwinService.Service.Get | internal/twin/application/service.go:27-45 | The stored document, or an empty one at version 0 |
| TwinService.Service.UpdateDesired | internal/twin/application/service.go:47-66 | The step of the value model, answered with the new document and its diff |
| TwinService.Service.UpdateReported | internal/twin/application/service.go:68-89 | Likewise for the reported half; the desired half is untouched |
| TwinService.Service.Merge | internal/twin/application/service.go:119-126 | Read only: the document and its diff |
| TwinService.Service.Delete | internal/twin/application/service.go:128-136 | Removes the document; deleting an absent one is no error |
| TwinService.Service.EnsureInitialized | internal/twin/application/service.go:200-216 | Creates a missing document and never bumps a version |
| TwinValidation.ValidatePatch | internal/twin/application/service.go:222-251 | Accepts if and only if no branch is deeper than the limit and no key is blank |
| TwinValidation.AcceptableMeans | internal/twin/application/service.go:222-251 | Accepted if and only if no way into the tree is as long as the allowed number of levels, ten by default, and no key is blank |
| TwinValidation.BlankIffAllSpace | internal/twin/application/service.go:232-233 | A key is blank if and only if it has no character but spaces |
| TwinValidation.MergeStaysAcceptable | internal/twin/application/service.go:149-166 | Merging keeps the depth bound and the absence of blank keys |
| TwinValidation.TwinsStayAcceptable | internal/twin/application/service.go:47-89 | If all patches are validated, no run builds a twin that validation would refuse |
| TwinHeap.CloneMap | internal/twin/domain/models.go:44-50 | A copy of fresh nodes only that represents the same tree |
| TwinHeap.CloneValue | internal/twin/domain/models.go:52-65 | Likewise for any value, slices included |
| TwinHeap.CloneDocument | internal/twin/domain/models.go:32-37 | Clones both halves of a document |
| TwinHeap.MergeMaps | internal/twin/application/service.go:149-166 | A fresh map that represents the merge, may share nodes with base and patch, and changes neither |
| TwinHeap.Repository.Get | internal/twin/infrastructure/memory/repository.go:20-28 | Answers with fresh nodes that represent the stored twin |
| TwinHeap.Repository.Save | internal/twin/infrastructure/memory/repository.go:30-35 | Stores the twin in fresh nodes only |
| TwinHeap.Repository.Delete | internal/twin/infrastructure/memory/repository.go:37-42 | Drops the twin |
| TwinHeap.ForeignWritesAreHarmless | internal/twin/infrastructure/memory/repository.go:20-35 | Any writes into any nodes that share nothing with the repository, such as the fresh nodes of an answer or those of a saved document, leave the stored twins as they are |
| TwinHeap.UpdateDesired | internal/twin/application/service.go:47-63 | On the heap, the stored twins become what the value model says, from fresh nodes |
| RuleWindow.PruneKeepsBoundary | internal/rule/application/engine.go:336-341 | On points in any order pruning keeps a suffix that is empty or starts unexpired, behind an expired point or nothing |
| RuleWindow.PrunePoints | internal/rule/application/engine.go:336-341 | The search loop finds the index of the recursive binary search |
| RuleWindow.PruneIsFilter | internal/rule/application/engine.go:336-341 | On points in time order pruning is the filter by the cutoff |
| RuleWindow.BufferIsWindow | internal/rule/application/engine.go:209-215 | With points in time order and a cutoff that never moves back, the buffer is the last at most 1000 points of the whole history inside the window |
| RuleVerdicts.WindowMeans | internal/rule/application/engine.go:209-215 | The window includes its cutoff |
| RuleEngine.BufferIsOwn | internal/rule/application/engine.go:207-216 | However rules are interleaved and deleted, a buffer depends on its own rule's points since the rule was deleted |
| RuleEngine.EngineRefinesWindow | internal/rule/application/engine.go:207-216 | Over whole engine runs a rule's buffer equals the window computed from scratch |
| RuleEngine.FiringsAreSpaced | internal/rule/application/engine.go:243-252 | Over every run consecutive executions of a rule are at least its cooldown apart |
| RuleEngine.CooldownBoundsRate | internal/rule/application/engine.go:243-252 | Any interval of length T holds at most T / cooldown + 1 executions |
| RuleEngine.Engine.EvaluateRule | internal/rule/application/engine.go:207-254 | The engine's step, and exactly when it reports an error |
| RuleVerdicts.MaxVerdict | internal/rule/application/engine.go:281-333 | For the maximum, "greater" triggers if and only if some point in the buffer is above the threshold, "less or equal" if and only if none is, and so for every operator |
| RuleVerdicts.MinVerdict | internal/rule/application/engine.go:281-333 | Likewise for the minimum, with all points above and some point below |
| RuleVerdicts.TotalVerdict | internal/rule/application/engine.go:275-333 | Sum and average trigger by how the total compares with the threshold, or with the threshold for every sample |
| RuleVerdicts.LastAndCountVerdict | internal/rule/application/engine.go:303-333 | The newest value and the number of samples, for every operator |
| RuleVerdicts.NoVerdict | internal/rule/application/engine.go:219-225 | Too few samples give no verdict, an unknown aggregate is an error |
| RuleVerdicts.AverageBetween | internal/rule/application/engine.go:275-280 | The average lies between the least and the greatest value |
| RuleVerdicts.ActsIffTriggeredAndCool | internal/rule/application/engine.go:226-252 | After every run, a rule acts if and only if its condition triggers and its latest action since deletion is at least the cooldown ago; every verdict is recorded |
| RuleVerdicts.DefaultsOfRule | internal/rule/domain/models.go:87-104 | What a rule that leaves settings open asks for |
| RuleEngine.Engine.Forget | internal/rule/application/engine.go:137-140 | Deleting a rule drops its buffer and its cooldown |
| RuleEngine.Engine.HandleTelemetry | internal/rule/application/engine.go:164-188 | Gives the listed rules their turn up to the first whose evaluation fails, which ends it with an error; without one, all of them and no error |
| RuleVerdicts.TurnMeans | internal/rule/application/engine.go:172-183 | A rule has its turn if and only if it is enabled and not bound to another device or property; otherwise nothing changes |
| RuleEngine.Aggregate | internal/rule/application/engine.go:270-310 | Each kind's aggregate, or an error for no points or an unknown kind |
| RuleEngine.ExtremesAreExact | internal/rule/application/engine.go:281-296 | Seeding with the extreme floats still yields the least and the greatest value |
| RuleEngine.FloatExtremesAreExact | internal/rule/application/engine.go:281-296 | On values in the float range the aggregates min and max are the least and the greatest value |
| CommandInvariants.RunKeeps | internal/command/application/service.go:34-198 | Every run keeps index and commands in bijection and audits well formed, loses no command and moves commands only forward |
| CommandInvariants.AuditTellsTheStory | internal/command/application/service.go:62-80 | Audit starts pending and ends with the status; the retry count is the number of retrying entries, at most one, within a budget of at most 20 |
| CommandInvariants.TerminalIsFinal | internal/command/application/service.go:99-101 | A terminal command never changes again in any run |
| CommandInvariants.ChangesCostRank | internal/command/application/service.go:168-198 | Every change lowers the rank pending, retrying, terminal, so a command changes at most twice |
| CommandInvariants.OneCommandPerKey | internal/command/application/service.go:47-53 | Enqueues with one device and key, whatever happens in between, are answered with one command, created by the first only |
| CommandInvariants.SweepsNeeded | internal/command/application/service.go:168-198 | At a fixed time, n due commands are gone after k sweeps if and only if k is at least n / 100 rounded up |
| CommandInvariants.RetryingIsStuck | internal/command/infrastructure/memory/repository.go:109-123 | A retrying command that nobody acknowledges never changes again, whatever its budget |
| CommandInvariants.TimedOutFailsIffNoRetries | internal/command/application/service.go:168-198 | Over every run without an acknowledgement a pending command is untouched until it times out, and then ends failed if and only if its budget is zero, otherwise retrying after one retry |
| CommandInvariants.ThreeRetriesAreOne | internal/command/application/service.go:168-198 | Enqueued with a budget of three and timed out once, a command is left retrying with one retry made, whatever follows but an acknowledgement |
| CommandInvariants.FailureReasonIsMessage | internal/command/application/service.go:102-113 | A failed acknowledgement records the caller's message if and only if there is one, otherwise "acknowledged" |
| CommandOutcomes.AckedIffSuccess | internal/command/application/service.go:88-124 | Over every run an open command ends acked if and only if the acknowledgement that found it open reported success; it carries that call's time, message and trace, and on success no reason for failure |
| CommandOutcomes.CreatedCarriesRequest | internal/command/application/service.go:62-80 | A new command carries the caller's device, trimmed name, payload, key, budget and timeout, or their defaults, and the matching deadline |
| CommandOutcomes.OutcomeMeans | internal/command/application/service.go:35-61 | Turned down without device or name; otherwise new if and only if the device has no command with the key; a closed one is reported as used |
| CommandOutcomes.NeverReapedEarly | internal/command/infrastructure/memory/repository.go:109-123 | Over every run a sweep takes a command only once more than its timeout has passed since it was enqueued |
| CommandOutcomes.ReapingIsRecorded | internal/command/application/service.go:177-196 | What the reaper writes into a command with and without budget |
| CommandService.Repository.Save | internal/command/infrastructure/memory/repository.go:27-33 | Updates both maps |
| CommandService.Repository.GetByIdempotencyKey | internal/command/infrastructure/memory/repository.go:45-54 | The indexed command, or not found |
| CommandService.Repository.Expired | internal/command/infrastructure/memory/repository.go:109-123 | The due pending commands that expired first, each once, as many as the limit allows |
| CommandService.Repository.PendingForDevice | internal/command/infrastructure/memory/repository.go:92-107 | The device's oldest pending commands, each once, as many as the limit allows |
| CommandService.Service.Enqueue | internal/command/application/service.go:34-86 | The model's step and outcome, keeping the invariant |
| CommandService.Service.Ack | internal/command/application/service.go:88-124 | The model's step, its errors, and no change to a terminal command |
| CommandService.Service.ReapExpired | internal/command/application/service.go:168-198 | One sweep over an admissible batch |
| FirmwareModel.RunKeeps | internal/firmware/application/service.go:56-163 | Over every run: one active receipt per device, receipts only of tasks started no later, completion stamped exactly on completed tasks, starts stamped once, no receipt back to running |
| FirmwareModel.FromEmpty | internal/firmware/application/service.go:56-163 | Every run from the empty store keeps that invariant |
| FirmwareModel.ActiveIsUnique | internal/firmware/infrastructure/memory/repository.go:158-167 | At most one active receipt to find, so the scan order of the map does not matter |
| FirmwareOutcomes.CompletedIffSuccess | internal/firmware/application/service.go:139-163 | Over every run an unfinished receipt ends completed if and only if some report on it is a success, failed if and only if there are failures only or it had failed before |
| FirmwareOutcomes.ReceiptFollowsReports | internal/firmware/application/service.go:139-163 | Its status, message and time are those of the latest report up to the first success |
| FirmwareOutcomes.TaskFollowsTransitions | internal/firmware/application/service.go:79-101 | Over every run an open task has the status it was last asked to take until one closes it; started by the first request to run, completed by the one to complete |
| FirmwareOutcomes.NewTaskIsDraft | internal/firmware/application/service.go:63-71 | A task starts as a draft with its rollout brought into range |
| FirmwareOutcomes.ReceiptIsRunning | internal/firmware/application/service.go:103-137 | A new receipt of the task is made if and only if the task runs and the device has no active one |
| FirmwareModel.OverlapIsSafeIffDistinct | internal/firmware/application/service.go:114-134 | Receives that passed their checks together keep one active upgrade per device if and only if no two are for one device |
| FirmwareService.Repository.ActiveReceiptForDevice | internal/firmware/infrastructure/memory/repository.go:158-167 | Some active receipt of the device, or not found when there is none |
| FirmwareService.Service.CreateFirmware | internal/firmware/application/service.go:27-40 | The model's step; product and version are required |
| FirmwareService.Service.CreateTask | internal/firmware/application/service.go:56-77 | The model's step; only for a known firmware |
| FirmwareService.Service.TransitionTask | internal/firmware/application/service.go:79-101 | The model's step; closed tasks stay, starting is stamped once |
| FirmwareService.Service.Receive | internal/firmware/application/service.go:103-137 | The model's step; afterwards the answered receipt is the device's only active one |
| FirmwareService.Service.CompleteReceipt | internal/firmware/application/service.go:139-163 | The model's step; a rollback is asked for exactly on an open receipt's failure under auto-rollback |
| TokenBucket.RunKeepsOk | internal/platform/ratelimit/ratelimit.go:45-54 | Tokens stay between 0 and 1 over every run |
| TokenBucket.BooksBalance | internal/platform/ratelimit/ratelimit.go:35-76 | Over every run with pruning: calls passed plus credit left are covered by credit at the start, two per bucket created, and the refill |
| TokenBucket.PassedSinceFirst | internal/platform/ratelimit/ratelimit.go:35-56 | Between prunings at most 2 + rate * T calls pass since a key's first |
| TokenBucket.PassedThroughPrunings | internal/platform/ratelimit/ratelimit.go:35-76 | With pruning, in time T at most 2 * (1 + T / olderThan) + rate * T calls of a key pass |
| TokenBucket.PassedLater | internal/platform/ratelimit/ratelimit.go:45-55 | Over any later stretch at most 1 + rate * T calls pass |
| TokenBucket.KeepsRateIffBucket | internal/platform/ratelimit/ratelimit.go:35-56 | In any state the bound 1 + rate * T holds of every run up to the next pruning if and only if the key has a bucket |
| TokenBucket.TwoAtOnce | internal/platform/ratelimit/ratelimit.go:40-44 | Whatever the limiter holds, two calls at one instant on a key without a bucket both pass |
| TokenBucket.RestedPasses | internal/platform/ratelimit/ratelimit.go:45-55 | A key that has rested long enough to earn a call gets it |
| TokenBucket.UnhurriedCallsPass | internal/platform/ratelimit/ratelimit.go:35-56 | Over every run, prunings included, calls of a key that leave time to earn one another all pass |
| TokenBucket.ExactBooks | internal/platform/ratelimit/ratelimit.go:45-55 | Between prunings what passed, what is left and what spilled over a full bucket is exactly what the key had and earned |
| TokenBucket.RefusedIffSpent | internal/platform/ratelimit/ratelimit.go:52-54 | A call is refused if and only if had and earned, less passed and spilled, is below one |
| TokenBucket.MemoryLimiter.constructor | internal/platform/ratelimit/ratelimit.go:27-33 | The rate is calls per window in calls per second: a window earns exactly that many |
| TokenBucket.MemoryLimiter.Allow | internal/platform/ratelimit/ratelimit.go:35-56 | The model's answer and step |
| TokenBucket.MemoryLimiter.PruneTick | internal/platform/ratelimit/ratelimit.go:65-73 | Drops exactly the buckets unused for longer than the given time |
| Authentication.PassedWithinWindow | internal/auth/infrastructure/memory/repository.go:55-66 | In any interval of the window's length no more attempts pass than one budget for each counter started in it, and one less than a budget from before |
| Authentication.MostInNumbers | internal/auth/infrastructure/memory/repository.go:55-66 | That is (2 + r) * limit - 1 with r revocations, and (1 + r) * limit for a window of a single nanosecond |
| Authentication.BoundIsReached | internal/auth/infrastructure/memory/repository.go:55-66 | For every limit, window and number of revocations that number is reached |
| Authentication.LimitIsKeptIff | internal/auth/infrastructure/memory/repository.go:55-66 | Every interval of the window's length with r revocations passes at most the limit if and only if r is 0 and the limit is 1 or the window a single nanosecond |
| Authentication.InsideWindow | internal/auth/infrastructure/memory/repository.go:60-64 | Within one counter window every attempt counts and exactly the first `limit` pass, whatever other devices do |
| Authentication.Repository.IncrementRate | internal/auth/infrastructure/memory/repository.go:55-66 | The counter's step |
| Authentication.Repository.DeletePrincipal | internal/auth/infrastructure/memory/repository.go:47-53 | Drops the principal and its counter |
| Authentication.Service.constructor | internal/auth/application/service.go:24-38 | Limit and window are positive, by default 120 per minute |
| Authentication.Service.RegisterDevice | internal/auth/application/service.go:40-58 | Replaces the principal and leaves the counter alone |
| Authentication.Service.RevokeDevice | internal/auth/application/service.go:60-65 | A revocation event of the model |
| Authentication.Service.Authenticate | internal/auth/application/service.go:67-95 | Every attempt counts; success if and only if the gate, the credential, its type and the device registry all agree |

## Left out

- HTTP, gRPC, MQTT and WebSocket adapters, middleware, metrics, logging, tracing, configuration and `cmd/`: input and output.
- The PostgreSQL repositories: the semantics of their SQL is not visible in the source.
- Device registration and credential rotation: field copying, id generation and hashing with shallow properties only.
- Event bus and backpressure queue: publishing is not modelled, except that a firmware rollback request is an output of `CompleteReceipt`.
- Telemetry normalisation and number formatting; float rounding, NaN, infinities; overflow of int64 times and durations.
- The list operations (`ListTasks`, `ListFirmware`, `List`, `ListRules`, `ListExecutions`, `ReceiptsForDevice`): filter, sort and page.
- Rule creation and update, and the order in which the repository lists rules: `HandleTelemetry` takes the listed rules as given, so the run theorems hold for every list.
- Firmware rollout selection and `MaxConcurrent`: stored and validated, but enforced nowhere in the source.
- Point metadata: carried along and copied on query without influence on any operation.
- Interleavings inside a call other than those of `Receive`: reaper against acknowledgement, two twin workers, and the cooldown table, which the source reads outside its lock.
- Authentication.Service.Authenticate: timing of the constant-time comparison is not modelled, only its result.
- TwinHeap.UpdateDesired: the heap model covers cloning, merging and the repository; the diff is computed on values only.
- TokenBucket.MemoryLimiter.constructor: a zero window, for which the source divides by zero in floating point, is excluded.
- TimeSeriesStore.Store.Query: a negative limit, for which the store's slice expression fails at run time, is excluded; the service never passes one.
- CommandService.Service.Enqueue: that generated ids are new is a precondition, since the random generator is not part of this model.
