# Verification of the NIC metrics analysis core

This project models the parts of the Aurora NIC metrics application whose correctness depends on more than
one function, and proves what their documentation and tests promise, for every input and every run.

| Component | Files | What is modelled |
|---|---|---|
| Dataset lifecycle | `LifecycleProtocol`, `LifecycleInvariant`, `LifecycleRuns`, `LifecycleEffects`, `DatasetLifecycle` | the manager and its worker thread as a transition system with one event per critical section, and the class whose methods refine it |
| Counter reducers | `Samples`, `FlowControl`, `HostPressure`, `FrameCounters`, `Reducers`, `IntervalUnion` | three independent sort/group/difference reducers, the union of covered time, common-interval ratios |
| Frame histograms | `FrameHistogram`, `FrameQuantiles`, `FrameDirection`, `OrderStatistics` | edge sets, quantile bounds, the midpoint mean, shares and temporal totals |
| Job balance | `JobTopology`, `JobBalance`, `RealSums` | topology validation, conservation over groups, concentration, nearest-rank quantiles |
| PNG scanlines | `PngFilter` | in-place reconstruction against the filters of section 6 of RFC 2083 |
| Event batches | `CtfEvents`, `CtfBatch`, `CtfFlags`, `Comparing`, `StringOrder` | folding of duplicates and marking of reordered series in mutable records, and the columnar batch |
| View cache, phases, export | `ViewCache`, `PhaseWindows`, `PhaseStore`, `ExportSearch` | the least-recently-used cache over weakly referenced stores, phase windows and their cache key, the gapless phase store, the size-limited export |
| Shared | `Sorting`, `Wrappers` | stable sorting, optional values and results |

Methods have the loops and in-place updates of the original and are proved against specification functions;
the lemmas state what those functions mean. Where the code does not do what its documentation says, the code
is modelled as it is, a concrete run shows the difference, and a lemma states exactly when they agree:

- Only the newest request is said to become current (`src/dataset_lifecycle.py:166-168`). A request submitted,
  or a close, between the worker's dequeue and begin does not stop the older load from publishing
  (`OlderRequestPublishes`, `ClosedManagerPublishes`); the claim holds exactly when nothing happens in that gap
  (`NewestWinsIffQuietGap`), and one critical section would make it true (`FusedNewestWins`).
- The frame reducer counts across a conflicting timestamp, the other two do not (`FrameCountsAcrossConflict`,
  `FrameAgreesExactly`); the host-pressure reducer counts invalid intervals outside the window
  (`ResetOutsideCounted`, `InvalidCountsDiffer`) and reports an observed zero without any valid interval
  (`ZeroFromOneSample`, `ZeroWithoutEvidence`).
- Bin shares divide by the bin total without a guard: an idle direction raises an exception (`IdleBinFails`,
  `FailsExactlyWhenIdle`).
- Observed nodes outside the known population are said to be reported as unknown
  (`src/job_analysis.py:301-303`), but never are (`UnknownNodeNotReported`, `UnknownNeverReported`). Shares
  include nodes whose result is unsupported, so they sum to one exactly when no such node has traffic
  (`SharesSum`), and the effective node count can drop below one (`UnsupportedBreaksEffectiveCount`,
  `EffectiveCountBounds`). The node analysis of the application never gives an unsupported node a total
  (`src/node_analysis.py:577-582`); the function accepts such input all the same.
- The view cache files `None` and the empty phase list under one key, and a window object and a dictionary
  whose names differ in outer white space under one key. A request is answered correctly after every run exactly
  when all requests with its key have the same view (`AnsweredRightExactly`): never for the empty key, whose
  two views differ (`EmptyKeyAnsweredWrong`), always where non-empty phase lists all have one view and no name
  is blank (`MergedViewsAnsweredRight`), and exactly for plain keys where the view tells the differing phases
  apart (`AnsweredRightIffPlain`).

## Model

| member | source | states |
|---|---|---|
| LifecycleRuns.TerminalIsAbsorbing | src/dataset_lifecycle.py:403-546 | in every run a request that is ready, failed, cancelled or superseded keeps its record for ever |
| LifecycleRuns.AbandonedNeverReady | src/dataset_lifecycle.py:514-546 | a request once cancelled or superseded never becomes ready, and its loader has been told to stop |
| LifecycleRuns.HandlesChangeOnlyByPublishing | src/dataset_lifecycle.py:514-546 | current and last-good are always the same handle; failure, cancellation and supersession leave it alone; a publishing step installs the request being loaded, newer than the handle it replaces |
| LifecycleRuns.PublishedGenerationsIncrease | src/dataset_lifecycle.py:427-452 | along every run the handle is kept or replaced by one of a higher generation |
| LifecycleRuns.HandleIsNewestReady | src/dataset_lifecycle.py:529-546 | both handles belong to the highest-generation request that was ever ready |
| LifecycleRuns.PublishedExactly | src/dataset_lifecycle.py:442-478 | a finished load publishes if and only if it was not cancelled and nothing was submitted or closed since its begin; at its dequeue it was the newest request of an open manager |
| LifecycleRuns.NewestWinsIffQuietGap | src/dataset_lifecycle.py:163-169 | a publishing request is the newest of an open manager exactly when nothing was submitted or closed between its dequeue and its begin |
| LifecycleRuns.FusedNewestWins | src/dataset_lifecycle.py:163-169 | with dequeue and begin in one critical section, only the newest request of an open manager publishes |
| LifecycleRuns.OlderRequestPublishes | src/dataset_lifecycle.py:163-169 | a run in which an older request becomes current while a newer one waits |
| LifecycleRuns.ClosedManagerPublishes | src/dataset_lifecycle.py:321-335 | a run in which a closed manager still publishes |
| LifecycleRuns.AtMostTwoLive | src/dataset_lifecycle.py:442-478 | of any three requests one is terminal |
| LifecycleRuns.TableIsBounded | src/dataset_lifecycle.py:418-425 | the request table never exceeds 65 entries, and live requests and the latest one can always be looked up |
| LifecycleRuns.SubmitTrims | src/dataset_lifecycle.py:418-425 | trimming happens exactly at 65 entries, leaves 48 old ones, and forgets only terminal requests |
| LifecycleRuns.NeverTooManyActive | src/dataset_lifecycle.py:210-228 | the rejection for too many active datasets is unreachable |
| LifecycleRuns.InUseStaysApproved | src/dataset_lifecycle.py:210-228 | registration never forgets the dataset of a live request or of the current handle |
| LifecycleRuns.StepWork | src/dataset_lifecycle.py:460-546 | without a submission no step adds work for the worker, and every enabled worker step removes some |
| LifecycleRuns.LiveImpliesEnabled | src/dataset_lifecycle.py:460-478 | while a request is live, some worker step is enabled |
| LifecycleRuns.Quiesces | src/dataset_lifecycle.py:460-546 | without new submissions at most five worker steps are possible, and once taken every request is terminal |
| LifecycleEffects.CancelMarks | src/dataset_lifecycle.py:240-251 | at every position of every run, cancelling a live request marks it cancelled, signals its loader, and changes nothing else |
| LifecycleEffects.CancelIgnored | src/dataset_lifecycle.py:240-251 | cancelling a terminal or unknown request changes nothing, and fails exactly when its token cannot be looked up |
| LifecycleEffects.CancelledNeverPublished | src/dataset_lifecycle.py:514-546 | a live request that is cancelled is not ready and is neither handle at any later position |
| LifecycleEffects.SubmitSupersedes | src/dataset_lifecycle.py:427-452 | an accepted submission adds one queued request, the newest, and supersedes exactly the live requests not between dequeue and begin |
| LifecycleEffects.SubmitRefused | src/dataset_lifecycle.py:404-417 | a submission is refused exactly for a closed manager, an unapproved dataset or an inadmissible path, in this order, and then changes nothing |
| LifecycleEffects.CloseSupersedes | src/dataset_lifecycle.py:321-335 | closing supersedes exactly the live requests not between dequeue and begin, and closing again does nothing |
| LifecycleEffects.DequeueTakes | src/dataset_lifecycle.py:460-470 | the idle worker of an open manager takes the waiting request as it is |
| LifecycleEffects.BeginActivates | src/dataset_lifecycle.py:473-478 | the taken request becomes the active one and is loading, with its marks kept |
| LifecycleEffects.FinishEnds | src/dataset_lifecycle.py:514-546 | a finished request ends superseded, cancelled, ready or failed according to its marks and the outcome, and only a ready one moves the handles |
| LifecycleEffects.StopStops | src/dataset_lifecycle.py:463-466 | the worker stops exactly when it is idle on a closed manager |
| LifecycleEffects.RegisterApproves | src/dataset_lifecycle.py:210-228 | registration succeeds exactly for a known descriptor or a new, named and admissible one, and leaves it approved |
| LifecycleEffects.RegisterForgetsOne | src/dataset_lifecycle.py:216-226 | registration forgets at most one dataset, only from a full registry, and none in use |
| LifecycleInvariant.StepKeeps | src/dataset_lifecycle.py:403-546 | every critical section keeps the invariant of requests, slots, worker, handles, table and descriptors |
| LifecycleInvariant.Reachable | src/dataset_lifecycle.py:171-204 | the invariant holds after every prefix of every run |
| LifecycleInvariant.EvictReachesTarget | src/dataset_lifecycle.py:421-425 | the trimming scan always finds enough terminal requests to reach its target |
| LifecycleInvariant.RegisterKeepsApproved | src/dataset_lifecycle.py:218-226 | evicting a descriptor for a new one never evicts a protected dataset |
| DatasetLifecycle.Manager.constructor | src/dataset_lifecycle.py:171-204 | a new manager is the initial state of the protocol |
| DatasetLifecycle.Manager.SubmitRequest | src/dataset_lifecycle.py:403-452 | the whole object graph after a submission is the protocol's submit step, with its result or error |
| DatasetLifecycle.Manager.TrimTable | src/dataset_lifecycle.py:418-425 | the deletion loop over the request dictionary is the protocol's trimming |
| DatasetLifecycle.Manager.SupersedeRequest | src/dataset_lifecycle.py:454-458 | superseding marks, ends and signals exactly one shared request record |
| DatasetLifecycle.Manager.Cancel | src/dataset_lifecycle.py:240-251 | cancellation is the protocol's cancel step, with the unknown-token error |
| DatasetLifecycle.Manager.Close | src/dataset_lifecycle.py:321-335 | closing is the protocol's close step |
| DatasetLifecycle.Manager.Register | src/dataset_lifecycle.py:210-228 | registration, including the eviction that persists when the new descriptor is rejected |
| DatasetLifecycle.Manager.Dequeue | src/dataset_lifecycle.py:460-470 | the worker takes the pending request under the lock, or drops a superseded one |
| DatasetLifecycle.Manager.Begin | src/dataset_lifecycle.py:473-478 | the separate critical section that makes the taken request active |
| DatasetLifecycle.Manager.FinishLoaded | src/dataset_lifecycle.py:529-546 | the end of a successful load: publish, or end as superseded or cancelled |
| DatasetLifecycle.Manager.FinishFailed | src/dataset_lifecycle.py:514-527 | the end of a failed load leaves the handles alone |
| DatasetLifecycle.Manager.Stop | src/dataset_lifecycle.py:463-466 | the worker stops only when the manager is closed |
| Samples.SameSamplesAlike | src/flow_control_analysis.py:296-312 | records with the same samples, in any order and multiplicity, have the same timestamps and values at each |
| Samples.Telescopes | src/flow_control_analysis.py:326-364 | over conflict-free observations in a window, valid increments minus drops equal last value minus first |
| Samples.RestrictKeeps | src/host_pressure_analysis.py:450-454 | increments and drops depend only on the observations inside the window |
| Samples.WindowSplits | src/flow_control_analysis.py:496-519 | splitting a window anywhere loses exactly the one increment that runs across the split |
| Samples.SplitAtObserved | src/flow_control_analysis.py:496-557 | totals and covered durations add when a window is split at an observed timestamp |
| Samples.CoverageInUnit | src/flow_control_analysis.py:525-540 | the covered duration lies between zero and the window length |
| FlowControl.OrderedSamples | src/flow_control_analysis.py:275-366 | the loop over timestamp groups produces the clean samples and the disposition of every transition |
| FlowControl.SeriesResult | src/flow_control_analysis.py:496-656 | window selection and the reported counts, totals, coverage and status |
| FlowControl.ReducesToReference | src/flow_control_analysis.py:296-364 | on every input, conflicts included, the valid intervals in the window are the reference increments |
| FlowControl.SummaryIsReference | src/flow_control_analysis.py:519-557 | the reported total, covered duration and valid count are those of the reference increments |
| FlowControl.SummaryIgnoresOrder | src/flow_control_analysis.py:275-366 | permuting or repeating records changes no reported field, even with conflicting timestamps |
| FlowControl.FieldsMean | src/flow_control_analysis.py:525-611 | the first non-zero observation is that of the earliest increment above zero, absent exactly when the total is zero or missing; represented window, coverage and status follow from the reference increments and the number of invalid intervals |
| FlowControl.CountsMean | src/flow_control_analysis.py:496-524 | sample, interval, invalid and excluded counts as numbers of timestamps and of neighbouring clean timestamps |
| FlowControl.EveryIntervalShaped | src/flow_control_analysis.py:304-364 | every interval is a rise with its difference, a drop without one, or a conflict at one timestamp with its first two values |
| HostPressure.SeriesIntervals | src/host_pressure_analysis.py:403-471 | the loop whose index jumps over all records of a timestamp visits each timestamp group once |
| HostPressure.GroupIsFilter | src/host_pressure_analysis.py:415-418 | filtering all records by a timestamp finds exactly its group of the sorted records |
| HostPressure.ReducesToReference | src/host_pressure_analysis.py:411-471 | on every input the valid intervals in the window are the reference increments |
| HostPressure.CounterMeans | src/host_pressure_analysis.py:508-559 | totals are those of the reference increments; invalid are all conflicts and drops wherever they lie, outside the conflicts and pairs not inside; the status follows from these |
| HostPressure.EveryIntervalShaped | src/host_pressure_analysis.py:411-468 | every interval is a rise or a drop with its difference, or a conflict at one timestamp, and knows whether it lies inside the window |
| HostPressure.ZeroWithoutEvidence | src/host_pressure_analysis.py:507-559 | for every record list and window, the zero-observed flag is right exactly when the window holds some valid increment |
| HostPressure.ZeroFromOneSample | src/host_pressure_analysis.py:559 | one sample, no interval, and a zero reported as observed |
| HostPressure.CommonSupport | src/host_pressure_analysis.py:646-668 | numerator and denominator are summed over identical intervals of equal covered duration |
| HostPressure.PathExactly | src/host_pressure_analysis.py:636-721 | for any two record lists each total sums that counter's own increments over the boundaries the other has too, the covered time is the number of their nanoseconds, all are absent exactly when no interval is shared, and the ratio is blocked over packets where packets are positive |
| HostPressure.UnsharedIgnored | src/host_pressure_analysis.py:646-668 | an increment over an interval that the other counter lacks changes no field |
| HostPressure.SameIntervals | src/host_pressure_analysis.py:646-656 | with equal timestamps, no conflict and no drop inside the window, both counters have every interval there |
| HostPressure.EndpointRatio | src/host_pressure_analysis.py:713-721 | then blocked per packet is the ratio of the endpoint differences, whatever lies outside the window |
| FrameCounters.AnalyzeCounter | src/frame_analysis.py:530-655 | the scan over adjacent record pairs, with its counts and status |
| FrameCounters.StatusMeans | src/frame_analysis.py:627-636 | the status is an observed one exactly when some valid and no invalid interval lies inside the window, and non-zero exactly when one of them rises |
| FrameCounters.ReportMeans | src/frame_analysis.py:541-605 | reported intervals are those of neighbouring records inside the window; the counts are those of faulty pairs inside and of differing pairs outside |
| FrameCounters.ScanIsLoose | src/frame_analysis.py:538-590 | the pair scan counts one increment per pair of adjacent timestamps, from the last value of one to the first of the next |
| FrameCounters.ExtraIncrements | src/frame_analysis.py:547-570 | it counts exactly as many increments too many as it counts across conflicts, and the same increments when there are none |
| FrameCounters.ScanInOrder | src/frame_analysis.py:538-605 | even across conflicts, counted intervals are disjoint, ordered, inside the window and do not decrease |
| Reducers.FlowAgreesWithHost | src/host_pressure_analysis.py:403-471 | group chain and jumping index report the same increments on every input |
| Reducers.SameIntervals | src/host_pressure_analysis.py:403-471 | they list the same intervals one by one, invalid ones, states and window flags included |
| Reducers.InvalidCountsDiffer | src/host_pressure_analysis.py:511 | the host-pressure count of invalid intervals exceeds the flow-control count by those outside the window, and agrees exactly when there are none |
| Reducers.ResetOutsideCounted | src/host_pressure_analysis.py:511 | two records whose reset lies outside the window and is counted by the host-pressure reducer only |
| Reducers.FrameAgreesExactly | src/frame_analysis.py:534-605 | the pair scan agrees with the other reducers exactly when it counts nothing across a conflict |
| Reducers.AllAgree | src/frame_analysis.py:534-605 | without conflicting timestamps all three reducers report the same increments |
| Reducers.FrameCountsAcrossConflict | src/frame_analysis.py:547-570 | three records on which only the pair scan reports an increment |
| IntervalUnion.UnionDuration | src/flow_control_analysis.py:705-721 | the sweep returns the number of nanoseconds covered by at least one interval |
| IntervalUnion.SameMembersSameCover | src/flow_control_analysis.py:705-721 | order and repetition of the intervals do not matter |
| IntervalUnion.OneSeriesCover | src/flow_control_analysis.py:525-527 | the intervals of one series cover exactly its covered duration |
| IntervalUnion.UnionBounds | src/flow_control_analysis.py:944-952 | for any records of any number of series, the union is at least what each series covers, at most their sum, and inside the window |
| IntervalUnion.UnionCoverage | src/flow_control_analysis.py:953-965 | for any records of any number of series the coverage fraction lies in [0, 1] |
| FrameHistogram.ValidateEdges | src/frame_analysis.py:204-227 | an edge set passes exactly when its bins form a chain from zero; each error names the first failing check |
| FrameHistogram.AcceptedIffPartition | src/frame_analysis.py:204-227 | passing the order and adjacency checks is the same as partitioning an initial range of sizes |
| FrameQuantiles.Select | src/frame_analysis.py:741-750 | the cumulative scan selects the first bin that reaches the threshold, and never needs its fallback |
| FrameQuantiles.QuantileResults | src/frame_analysis.py:695-773 | no bounds without complete edges, common support or frames; otherwise the bounds of the selected bins |
| FrameQuantiles.QuantileInSelectedBin | src/frame_analysis.py:741-773 | for every population the bins count, the true nearest-rank quantile lies in the selected bin, which is not empty |
| FrameQuantiles.SourcedKeepsAll | src/frame_analysis.py:724-728 | with complete edges every requested bin is counted, with its own total, or zero if it has none |
| FrameQuantiles.AnswersBoundTheTruth | src/frame_analysis.py:724-773 | when every requested bin has its edge in an accepted edge set, the scan sees all frames, and every answer bounds the true quantile of every population of frames behind the requested bins |
| FrameQuantiles.QuantilesInOrder | src/frame_analysis.py:741-750 | a larger quantile never selects an earlier bin |
| FrameQuantiles.MidpointMeanError | src/frame_analysis.py:966-984 | the midpoint mean differs from the true mean by at most the count-weighted half bin width |
| FrameDirection.AnalyzeDirection | src/frame_analysis.py:809-917 | fails exactly on an idle direction; otherwise every share is the bin's part of all frames, and every temporal interval holds each bin's delta over it and their sum |
| FrameDirection.ReportedExactly | src/frame_analysis.py:826-892 | boundaries are reported, or the division fails, exactly when every bin has records with some valid and no invalid interval in the window and all valid boundaries coincide; shares exactly when then some bin counted a frame |
| FrameDirection.FailsExactlyWhenIdle | src/frame_analysis.py:882-890 | the analysis raises exactly when all bins share their intervals and all stayed at zero |
| FrameDirection.IdleBinFails | src/frame_analysis.py:884-890 | one bin that stays at five, on which the division fails |
| FrameDirection.SharesSumToOne | src/frame_analysis.py:882-890 | reported shares sum to one |
| FrameDirection.TemporalConserves | src/frame_analysis.py:892-917 | the frames of the temporal intervals sum to the frames of the bins |
| JobTopology.ValidateTopology | src/job_analysis.py:175-237 | a mapping is accepted exactly when every group is well formed and no node is assigned twice; otherwise the first malformed group decides, or the overlap lists exactly the repeated nodes in order |
| JobTopology.FaultMeans | src/job_analysis.py:200-212 | no fault is found exactly when every group has a name, at least one node and no unnamed node; otherwise the first bad group decides the error |
| JobTopology.AcceptedIffNoOverlap | src/job_analysis.py:213-233 | no node is assigned twice exactly when the groups are disjoint and repeat no node themselves |
| JobTopology.SortKeepsNodes | src/job_analysis.py:236-237 | reporting the groups in order of their names keeps every assignment |
| JobTopology.GroupsAscend | src/job_analysis.py:236-237 | groups are reported in order of their names, each once |
| JobBalance.CompatibleResults | src/job_analysis.py:360-410 | comparing with the first result decides whether all that are not missing agree with each other |
| JobBalance.TopologyGroupResults | src/job_analysis.py:240-289 | each balance counts the nodes that contribute, lists the missing ones, sums the contributions, and its share times the job total is that sum |
| JobBalance.LookupMeans | src/job_analysis.py:247-265 | a mapped node is missing exactly without a result or with one marked missing, and contributes its total exactly when it has one and is supported |
| JobBalance.GroupsConserveTraffic | src/job_analysis.py:247-289 | for an accepted topology, reported in order of its group names, group totals and totals of unassigned nodes add up to the job total |
| JobBalance.NearestRankIsQuantile | src/job_analysis.py:165-172 | the quantile is an element with at least the share of values at most it and fewer than the share below it |
| JobBalance.QuantileIsUnique | src/job_analysis.py:165-172 | and it is the only element with these counts |
| JobBalance.QuantilesCompare | src/job_analysis.py:165-172 | a larger probability never gives a smaller quantile |
| JobBalance.ReportedQuantiles | src/job_analysis.py:654-655 | the reported p50 and p99 are the 0.5 and 0.99 quantiles of the usable totals, in this order, present exactly when some node is usable; none for incompatible results |
| JobBalance.SharesMean | src/job_analysis.py:441-491 | shares are reported exactly when the job has traffic, one per node with a total, and times the job total are that total; nothing is reported for incompatible results |
| JobBalance.SharesSum | src/job_analysis.py:441-459 | shares sum to one plus the part of unsupported nodes, hence to one exactly when these have no traffic |
| JobBalance.UnsupportedBreaksEffectiveCount | src/job_analysis.py:441-499 | two nodes, one unsupported, for which the effective node count is one half |
| JobBalance.EffectiveCountBounds | src/job_analysis.py:492-499 | the effective node count never exceeds the number of nodes with traffic, and is at least one exactly when the squared totals sum to at most the squared job total, as they do without unsupported traffic |
| JobBalance.HotspotIsLargest | src/job_analysis.py:500-507 | no selection of as many nodes has a larger share, and it is at least their proportional part |
| JobBalance.HotspotMeans | src/job_analysis.py:500-507 | the hotspot takes the least number of nodes, at least one, that makes up one percent, and its share is that of some such selection |
| JobBalance.UnknownNeverReported | src/job_analysis.py:331-343 | no observed node is ever reported as unknown, which is right exactly when none is |
| JobBalance.UnknownNodeNotReported | src/job_analysis.py:331-343 | one node outside the supplied population that is not reported |
| PngFilter.PaethIsFirstNearest | scripts/capture_analysis_ui.py:352-361 | the predictor is the nearest of left, up and upper left, ties broken in that order |
| PngFilter.Average | scripts/capture_analysis_ui.py:415-420 | the average predictor is the mean of two bytes rounded down |
| PngFilter.LeftIsSameChannel | scripts/capture_analysis_ui.py:408-428 | the byte to the left is that of the same channel of the pixel before, and zero in the first pixel |
| PngFilter.UnfilterSub | scripts/capture_analysis_ui.py:408-411 | in-place reconstruction for filter type 1 |
| PngFilter.UnfilterUp | scripts/capture_analysis_ui.py:412-414 | in-place reconstruction for filter type 2 |
| PngFilter.UnfilterAverage | scripts/capture_analysis_ui.py:415-420 | in-place reconstruction for filter type 3 |
| PngFilter.UnfilterPaeth | scripts/capture_analysis_ui.py:421-428 | in-place reconstruction for filter type 4 |
| PngFilter.UnfilterLine | scripts/capture_analysis_ui.py:404-430 | the line buffer becomes the line that the filtered bytes stand for, or the filter type is unknown |
| PngFilter.FilterInverse | scripts/capture_analysis_ui.py:408-430 | a line reconstructs filtered bytes exactly when filtering it gives those bytes |
| PngFilter.ReconstructionUnique | scripts/capture_analysis_ui.py:408-430 | filtered bytes stand for only one line |
| PngFilter.HeaderMeans | scripts/capture_analysis_ui.py:382-389 | the header is accepted exactly for an image with pixels, eight bits per sample, a color type of the standard and no other option; its channels follow from the bits of the color type |
| PngFilter.DecodePixels | scripts/capture_analysis_ui.py:364-432 | every error case, and otherwise exactly the scanlines the data stands for |
| PngFilter.DecodeRows | scripts/capture_analysis_ui.py:400-432 | the scanline loop, with the first unknown filter type as its error |
| PngFilter.DecodeInvertsEncode | scripts/capture_analysis_ui.py:400-432 | for every image and choice of filters, the encoder's output stands for the image and for nothing else |
| PngFilter.EncoderAccepted | scripts/capture_analysis_ui.py:389-398 | the encoder's output has the size and the filter types the decoder asks for |
| PngFilter.RoundTrip | scripts/capture_analysis_ui.py:400-432 | the decoder returns exactly the pixels that were encoded |
| PngFilter.FlattenAt | scripts/capture_analysis_ui.py:400-432 | each byte of each scanline lies at its place in the pixel data |
| PngFilter.EncodeInvertsDecode | scripts/capture_analysis_ui.py:400-432 | encoding decoded scanlines with the filters found restores the data |
| CtfEvents.RemoveExactDuplicates | src/ctf_adapter.py:712-739 | folds duplicates into the first record of each key, and fails exactly when one key carries two values, at the first such event |
| CtfEvents.MarkReordering | src/ctf_adapter.py:742-759 | marks the events of exactly the series that did not arrive in time order, and changes nothing else |
| CtfEvents.BuildBatch | src/ctf_adapter.py:454-595 | the batch of the events as they are, or the failure to order collector keys |
| CtfEvents.Normalize | src/ctf_adapter.py:155-167 | the whole conversion of parsed events, with its three errors |
| CtfBatch.KeptHolds | src/ctf_adapter.py:715-739 | every source event is a kept record or among the duplicates of the one with its key |
| CtfBatch.KeptIndices | src/ctf_adapter.py:715-739 | every source index appears exactly as often as supplied, as a row or as one row's duplicate |
| CtfBatch.ValuesKept | src/ctf_adapter.py:715-739 | without a conflict, the value of every source event is that of its kept record |
| CtfBatch.ConflictStep | src/ctf_adapter.py:728-734 | comparing with the kept record of the key finds the first conflict between any two events |
| CtfBatch.InvertedIffUnsorted | src/ctf_adapter.py:752-759 | comparing neighbours finds whether any event is older than an earlier one |
| CtfBatch.SeriesAreBlocks | src/ctf_adapter.py:495-504 | after sorting, each series is one block with strictly increasing timestamps |
| CtfBatch.RowsByParts | src/ctf_adapter.py:495-504 | rows ascend by host, interface, counter, collector and time, each part deciding where the parts before agree |
| CtfBatch.ColumnsRead | src/ctf_adapter.py:458-592 | the identifier columns and tables of a row read back as its record |
| CtfBatch.BatchIsLossless | src/ctf_adapter.py:454-595 | the batch of conflict-free events loses no event, value or index |
| CtfBatch.ComparableExactly | src/ctf_adapter.py:463 | the model refuses exactly the pairs of collector keys that tuple comparison fails on, and orders all others as it does |
| CtfBatch.ComparableRecords | src/ctf_adapter.py:463 | the batch of conflict-free events fails exactly when some two supplied collectors cannot be compared |
| CtfBatch.UniformCollectorsAccepted | src/ctf_adapter.py:262-266 | events are never refused when all of their collectors or none have a rank, and likewise a process, as the raw extraction gives them |
| CtfFlags.FlagsExactly | src/ctf_adapter.py:506-527 | a row is the first event of its key; it is flagged as duplicated exactly when the key was supplied again, and as reordered exactly when a first event of its series came after a newer one, so late duplicates do not count |
| Comparing.TableHolds | src/ctf_adapter.py:458-463 | an identifier table holds exactly the values, sorted, each once |
| StringOrder.LeqMeans | src/ctf_adapter.py:458-463 | strings compare at the end of their longest common beginning |
| PhaseWindows.NormalizePhaseWindows | src/analysis_app.py:4473-4503 | the sorted phases of a request, or the error of its first bad item |
| PhaseWindows.NormalizedMeans | src/analysis_app.py:4473-4503 | normalization keeps every phase, names stripped, and sorts them; otherwise the request is no list, is longer than 100, or its first item that stands for no phase decides the error |
| PhaseWindows.PhaseOrderMeans | src/analysis_app.py:4502 | phases are sorted by start, then end, then name |
| PhaseWindows.PhaseWindowsCacheKey | src/analysis_app.py:6244-6269 | the cache key of a request, or none |
| PhaseWindows.StripOnce | src/analysis_app.py:4493-4501 | a stripped name is blank or stays as it is when stripped again |
| PhaseWindows.StripCuts | src/analysis_app.py:4493-4501 | stripping removes white space at both ends and nothing else, and leaves nothing exactly of blank names |
| PhaseWindows.UnambiguousIffPlain | src/analysis_app.py:6244-6269 | a key determines the normalized phases exactly when it is not empty and either too long or made of clean names |
| PhaseWindows.DictFormKeys | src/analysis_app.py:6244-6269 | among lists of dictionaries the key determines the request |
| PhaseStore.AddPhase | src/analysis_app.py:9185-9267 | the input checks in order, then the outcome of adding the phase to the store |
| PhaseStore.InputAccepted | src/analysis_app.py:9185-9229 | the form fields pass exactly when they give a non-blank name and two whole numbers in order inside the window, and that phase is the one added |
| PhaseStore.FaultMeans | src/analysis_app.py:9186-9229 | the error of refused form fields is that of the first check that fails |
| PhaseStore.FindBreak | src/analysis_app.py:9249-9259 | the first overlap or gap between neighbours |
| PhaseStore.AddedInserts | src/analysis_app.py:9246-9267 | sorting the extended store inserts the phase at its place and leaves the rest in order |
| PhaseStore.AcceptedIffAbuts | src/analysis_app.py:9230-9267 | a unique, positive phase below the limit is accepted into a non-empty store exactly when it abuts its front or back |
| PhaseStore.RefusalMeans | src/analysis_app.py:9230-9263 | a refused phase has a name that is taken, or meets a full store, or the error names the first two neighbours that would overlap or leave a gap |
| PhaseStore.AddKeepsChain | src/analysis_app.py:9185-9267 | an accepted phase leaves a sorted, uniquely named, gapless store of at most 100 phases with exactly one more phase |
| PhaseStore.StoreIsAlwaysAChain | src/analysis_app.py:9183-9267 | after any sequence of actions the store is such a chain, and its durations sum to its span |
| PhaseStore.StoredWereSupplied | src/analysis_app.py:9183-9267 | after any sequence of actions every stored phase was given by one of them and lies in the window given with it |
| PhaseStore.EachActionAdds | src/analysis_app.py:9183-9267 | at every point of every sequence of actions, one that gives a phase with a new name, below the limit and abutting an end adds exactly that phase at an end, and every other one leaves the store as it is |
| ViewCache.ViewModelCache.Lookup | src/analysis_app.py:5774-5782 | a hit only for the very same store; a hit becomes most recently used, a stale entry is dropped |
| ViewCache.ViewModelCache.Insert | src/analysis_app.py:6230-6235 | files the view as most recently used and evicts from the front |
| ViewCache.ViewModelCache.Clear | src/analysis_app.py:6239-6241 | empties the cache |
| ViewCache.ViewModelCache.BuildViewModel | src/analysis_app.py:5767-6236 | with an uncached or plain key the result is that of an uncached computation |
| ViewCache.RunsAreSound | src/analysis_app.py:5767-6236 | in every run of lookups, insertions and clears the cache is consistent, at most 32 entries long, and holds only genuine views |
| ViewCache.PlainRequestsSeeNoCache | src/analysis_app.py:5767-5782 | after every run a request with a plain key is answered as if there were no cache |
| ViewCache.AnsweredRightExactly | src/analysis_app.py:5767-6236 | whatever the views look like, a request is answered correctly after every run exactly when all requests with its key have the same view |
| ViewCache.EmptyKeyAnsweredWrong | src/analysis_app.py:6245-6246 | `None` and the empty list share an entry, so neither is always answered correctly when an input error and no phases look different |
| ViewCache.MergedViewsAnsweredRight | src/analysis_app.py:4538-4543 | where all non-empty phase lists have one view, white space that leaves no name blank does no harm |
| ViewCache.AnsweredRightIffPlain | src/analysis_app.py:5767-5782 | where requests with this key that normalize differently have different views, a request is answered correctly after every run exactly when its key is plain |
| ViewCache.DictRequestsSeeNoCache | src/analysis_app.py:5767-5782 | if only lists of dictionaries are filed, every such request is answered as if there were no cache, whatever stores die and addresses are reused |
| ViewCache.OrderIsByUse | src/analysis_app.py:5780-6235 | in every run the order of the dictionary is the order of last use |
| ViewCache.EvictsLeastRecentlyUsed | src/analysis_app.py:6231-6235 | an insertion evicts only from a full cache, and then exactly the key whose last use is oldest |
| ExportSearch.SizeGrows | src/analysis_app.py:2459-2475 | a longer prefix is never smaller |
| ExportSearch.OneMoreSeries | src/analysis_app.py:2459-2475 | one more series adds its size and that of its detail entry, their commas, and one letter when the truncation flag turns |
| ExportSearch.Serialize | src/analysis_app.py:2436-2483 | the whole document if it fits, otherwise the longest prefix that fits, refused exactly when even no series would fit |

## Left out

- Floating-point rounding: counters and durations are integers, shares, ratios and quantile thresholds exact reals (0.99 and 0.01 included), and `float64` series are not distinguished from `uint64` ones.
- Request identifiers, clocks and threads of the lifecycle manager: a token is the number of its request, timestamps are dropped, and `wait`, `status` and the timeout of joining the worker are not modelled; a wakeup is an enabled step.
- File-system checks on registration and submission: one Boolean, `admissible`, stands for their outcome, and the constructor starts from accepted descriptors.
- DatasetLifecycle.Manager: each critical section is one method; the endless worker loop and the scheduling of threads appear only as the arbitrary event sequences of the protocol.
- Analysis without a requested window, quality flags, status reasons, rates and units of the reducers, and the unit checks of the host-pressure ratio.
- FrameDirection.AnalyzeDirection: a series with unsupported semantics counts as missing, and the byte counter and its compatibility records are not modelled.
- FrameQuantiles.AnswersBoundTheTruth: requested bins are taken to have different names; the code does not check that two requested counters do not name the same bin.
- JobBalance.TopologyGroupResults: coverage fractions of groups, the maximum/minimum ratio, state flags and the sorted listing of nodes are left out; node results are keyed by their own name and byte totals are not negative.
- PngFilter.DecodePixels: chunk parsing, decompression, checksums and the luma statistics are not part of this model; it starts from the header fields and the decompressed bytes.
- CtfBatch.ColumnsRead: the quality flag for unknown counters, notes, coverage and counter metadata are left out; the text form of a collector key is taken to be injective, so collectors are compared by key.
- CtfEvents.BuildBatch: Python fails when sorting compares `None` with a value; the model fails exactly when two collector keys cannot be ordered, which every comparison sort must discover because such keys are neighbours in any order.
- Extraction and schema checks of raw events, with the integer ranges they enforce: the model starts from parsed events.
- ViewCache.ViewModelCache.BuildViewModel: the view is an arbitrary function of the store object, the filters and the normalized phases; requests with an empty time window, which bypass the cache, and the resolution of default filters are not modelled.
- PhaseWindows.NormalizePhaseWindows: dictionary entries are a value of the expected type or not; integer subclasses, which are normalized but never cached, are not distinguished.
- ExportSearch.Serialize: JSON text is represented by the sizes of its parts.
- Layout, rendering, callbacks, browser capture, HTTP validation, the expression language and the other analyses of the application.
