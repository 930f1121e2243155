# WattCurb policies and protocols in Dafny

WattCurb is a laptop power daemon. It measures what each process costs, drives the fan from
per-profile curves, throttles greedy or memory-hungry processes, switches hardware knobs with the
power profile and publishes its state through lock-free shared memory. This project models the parts
of it that carry real invariants and proves them:

| file | part of the daemon |
|---|---|
| FanSplineMath.dfy, FanSpline.dfy | the Fritsch-Carlson limited spline behind a fan curve, its 41-cell tables and EC levels |
| FanDips.dfy | which intervals of a curve that changes direction follow their control points, and which dip |
| FanText.dfy, FanCurveEngine.dfy | the engine that owns four curves, and their line-oriented text form |
| ProcessMerge.dfy, PowerShares.dfy | the streaming merges over process snapshots and the split of measured watts |
| Seqlock.dfy, TrayState.dfy, HistoryRing.dfy | the seqlock protocol and its two users |
| Profiler.dfy | the compare-exchange profiler entry |
| TopK.dfy | the streaming top-K heap |
| MitigationLedger.dfy | the anti-starvation ledger with its restore paths |
| ProfileLatch.dfy | the battery ladder over the user's profile |
| MemoryGuard.dfy | the memory-pressure ladder and its CPU brake |
| PowerActuation.dfy | profile actuation with modified-flags |
| Scanners.dfy | the 32-byte vector scanners against their scalar forms |
| Netlink.dfy | the generic-netlink attribute codec |

Code that works in place is a class or a method with loops, proved against a function; the promises
are lemmas about that function and over whole runs. Several promises turn out to hold only under a
condition. There the model follows the code, shows a concrete failing input, and states the condition
as an equivalence:

- requirement REF-REQ-136.4 rules out speed dips, but the limiter keeps stale slope ratios after clearing
  a slope. For any control points an interval follows their direction exactly when it is flat, or no
  neighbouring interval runs the other way more steeply, or the slopes the pass found there lay inside
  the disc (`FanDips.FollowsExactlyWhen`). On an accepted curve that falls and then rises the fan can
  slow down while it warms inside the rising interval (`FanCurves.StaleRatioExample`);
- a printed curve whose temperatures coincide after clamping or rounding is refused when read back
  (`FanCurves.RoundTripExactlyWhen`, `FanCurves.ClampedPointsAreNotReadBack`);
- CPU shares miss the package power when a tick delta is cut to 32 bits or a process does not fit the
  fixed vector (`PowerShares.CpuSharesSumToPackage`, `PowerShares.TruncatedTicksLoseEnergy`);
- over a window a process is charged its net growth exactly when its counter never falls and restarts
  from zero after an absence; otherwise the depth of each fall, or all that was counted before the
  absence, comes on top, modulo the counter's width (`ProcessMerge.ChargedNetGrowthExactlyWhen`,
  `ProcessMerge.ReturningProcessIsOvercharged`);
- the vector token skipper counts spaces while the scalar one counts runs of blanks
  (`Scanners.VectorSkipAgreesExactlyWhen`, `Scanners.AdjacentSpacesDiverge`);
- without a selected profile a battery demotion is undone by the next cycle
  (`ProfileLatch.DemotionPersistsExactlyWhen`, `ProfileLatch.UnselectedDemotionIsUndone`);
- a process that becomes protected stays braked until something releases the whole list
  (`MemoryGuard.ProtectedStaysBrakedExactlyWhen`, `MemoryGuard.FocusedProcessStaysBraked`), and a release
  writes the normal policy, nice value and I/O priority whatever the process had before
  (`MemoryGuard.ReleaseRestoresExactlyWhen`), even to another process that has taken over the PID
  (`MemoryGuard.RecycledPidKeepsItsOwnExactlyWhen`);
- a cap whose mask and scheduler calls both fail can still leave a nice value or a quota behind, and a
  later cap then records that nice value as the original
  (`MitigationLedger.UnrecordedCapLeavesNoTraceExactlyWhen`, `MitigationLedger.UnrecordedRenice`,
  `MitigationLedger.RestoresOriginalNiceExactlyWhen`, `MitigationLedger.SavedNiceIsOwnExactlyWhen`), and
  the bulk rollback leaves a quota in place
  (`MitigationLedger.RollbackIsCompleteExactlyWithoutQuota`, `MitigationLedger.QuotaOutlivesRollback`);
- an SMU row, GPU profile, NVMe control or codec value that start-up could not read is not restored
  (`PowerActuation.LastProfileDecidesExactlyWhen`, `PowerActuation.BaselineRestoresExactlyWhen`,
  `PowerActuation.UncapturedRowStaysRaised`);
- a netlink payload of 65532 to 65535 bytes wraps the stored length and hides itself and the rest of
  the message (`Netlink.AnswersAsSentExactlyWhen`, `Netlink.WrappedLengthHidesAll`); no caller in the
  daemon reaches this, since each builds its message in 512 bytes (`NL_MSG_CAPACITY`).

`dafny verify dfyconfig.toml` checks the whole project.

## Model

| member | source | states |
|---|---|---|
| FanSplineMath.ShapeNonNegative | src/policy/fan_curve_engine.cpp:276-297 | inside the disc alpha^2 + beta^2 <= 9 the derivative of a Hermite segment, over its rise, is non-negative on [0, 1] |
| FanSplineMath.SimpsonIdentity | src/policy/fan_curve_engine.cpp:299-312 | the mean of that derivative over an interval is its Simpson sum, exactly |
| FanSplineMath.SegmentMonotone | src/policy/fan_curve_engine.cpp:299-312 | a segment whose slope ratios lie in the disc rises between any two abscissas |
| FanSpline.ExactScaleQualifies | src/policy/fan_curve_engine.cpp:289-294 | the factor 3/sqrt(hyp) meets the bounds that all spline results ask of the rescaling factor |
| FanSpline.OnePassSuffices | src/policy/fan_curve_engine.cpp:276-297 | one left-to-right in-place pass of any never-raising step leaves its property on every interval, although each step overwrites the slope shared with the interval before |
| FanSpline.LimiterShrinks | src/policy/fan_curve_engine.cpp:279-296 | the limiter is such a step, and shrinking a shared slope never takes an interval out of the disc |
| FanSpline.SlopesLimited | src/policy/fan_curve_engine.cpp:262-297 | for non-decreasing speeds every interval, not only the last visited, ends with slopes both zero if flat and in the disc otherwise |
| FanSpline.StaleRatioSlowsFan | src/policy/fan_curve_engine.cpp:276-312 | with the exact rescaling factor the curve 100, 16, 100 percent at 30, 34, 70 degrees has a lower percentage and a lower level in cell 5 than in cell 4, inside its rising interval |
| FanDips.FinalSlopes | src/policy/fan_curve_engine.cpp:276-297 | of any curve an interval ends with the left slope of its own iteration and with the right slope after the next iteration has overwritten it |
| FanDips.FoundSigns | src/policy/fan_curve_engine.cpp:270-297 | the pass finds a slope against a rising interval exactly on the side where the neighbour falls more steeply |
| FanDips.NegativeSlopeFalls | src/policy/fan_curve_engine.cpp:299-312 | a segment with a negative end slope falls somewhere, however its control speeds lie |
| FanDips.RisesExactlyWhen | src/policy/fan_curve_engine.cpp:262-312 | a non-falling interval of any curve never dips exactly when it is flat, or no neighbour falls more steeply than it rises, or the slopes found there lay inside the disc |
| FanDips.FollowsExactlyWhen | src/policy/fan_curve_engine.cpp:262-312 | the same for intervals of either direction: the spline runs with the control points on exactly those |
| FanDips.GentleCurveFollows | src/policy/fan_curve_engine.cpp:262-312 | a curve none of whose intervals has a more steeply opposed neighbour runs with its control points everywhere |
| FanDips.CellsFollow | src/policy/fan_curve_engine.cpp:86-103 | the cells sampled from such an interval move in its direction and stay between its control speeds |
| FanSpline.SegmentValueMonotone | src/policy/fan_curve_engine.cpp:86-103 | on a limited interval the sampled value rises with the fraction and stays between the two control speeds |
| FanSpline.PctTableMonotone | src/policy/fan_curve_engine.cpp:249-323 | non-decreasing control speeds give a non-decreasing 41-cell percent table, also when temperatures coincide |
| FanSpline.CellBetweenNeighbours | src/policy/fan_curve_engine.cpp:86-103 | every sampled cell lies between the control speeds that bracket its temperature |
| FanSpline.LevelTableMonotone | src/policy/fan_curve_engine.cpp:130-141 | the level table is non-decreasing and its last cell is full speed |
| FanSpline.ComputeIntervals | src/policy/fan_curve_engine.cpp:257-274 | the arrays hold widths of at least 1e-4, secants and averaged initial slopes |
| FanSpline.LimitInterval | src/policy/fan_curve_engine.cpp:280-295 | one iteration of the loop body overwrites exactly the two end slopes, with the limited pair |
| FanSpline.LimitSlopes | src/policy/fan_curve_engine.cpp:276-297 | the in-place loop leaves the slopes of the specified pass |
| FanSpline.ComputeCoefficients | src/policy/fan_curve_engine.cpp:299-312 | the four coefficient arrays describe every interval |
| FanSpline.CoefficientsDescribeSegment | src/policy/fan_curve_engine.cpp:299-312 | the coefficients evaluate to the Hermite segment through the two control points with the limited slopes |
| FanSpline.EvalSplineScalar | src/policy/fan_curve_engine.cpp:86-104 | the scalar loop fills cells 0 to 39 with the clamped segment values |
| FanSpline.EvalSplineBlocks | src/policy/fan_curve_engine.cpp:31-84 | five blocks of eight lanes fill the same cells with the same values |
| FanSpline.ComputeSplineLookup | src/policy/fan_curve_engine.cpp:249-335 | with 2 to 10 points both tables hold the sampled spline and its levels and nothing past cell 40 changes; otherwise nothing changes at all |
| FanText.ScanIntDigits | src/policy/fan_curve_engine.cpp:411 | scanning a printed integer gives it back and leaves the rest of the line |
| FanText.ScanFloatFixed1 | src/policy/fan_curve_engine.cpp:381-382 | scanning a number printed with one decimal gives its tenths back and leaves the rest |
| FanText.TaggedLineParses | src/policy/fan_curve_engine.cpp:376-378 | a printed header or flag line parses to its profile and value |
| FanText.PointLineParses | src/policy/fan_curve_engine.cpp:381-382 | a printed point line gives the rounded point and is not taken for a flag line |
| FanText.SplitJoined | src/policy/fan_curve_engine.cpp:395-400 | splitting joined newline-free lines gives the lines back |
| FanText.ReadsPoints | src/policy/fan_curve_engine.cpp:417-445 | in front of a block's point lines the inner reader takes exactly those, and nothing behind them |
| FanText.CurveViewsParse | src/policy/fan_curve_engine.cpp:405-455 | the lines of one printed curve parse to exactly one update, and reading goes on behind them |
| FanCurves.NormaliseNormalises | src/policy/fan_curve_engine.cpp:226-236 | accepted points become a sorted curve that spans 30 to 70 degrees and ends at 100 percent |
| FanCurves.RuntimeMonotone | src/policy/fan_curve_engine.hpp:61-82 | over all temperatures the runtime lookups never fall, saturate at 70 degrees, and stop the fan only in profile 3 or without a reading |
| FanCurves.FanCurveEngine.FanNeverSlowsWithHeat | src/policy/fan_curve_engine.hpp:61-82 | the same of the engine's own mirrored tables |
| FanCurves.FanCurveEngine.FanFollowsCurve | src/policy/fan_curve_engine.hpp:61-82 | inside such an interval the engine's runtime level and percentage move in the curve's direction, whatever the curve does elsewhere |
| FanCurves.ApplyAllKeepsNormalised | src/policy/fan_curve_engine.cpp:447-453 | whatever updates a text asks for, each profile ends unchanged or with a valid normalised curve and its own tables |
| FanCurves.EngineLinesParse | src/policy/fan_curve_engine.cpp:369-387 | the printed lines parse to one update for each profile, in order |
| FanCurves.PrintThenRead | src/policy/fan_curve_engine.cpp:369-457 | printing one engine and reading the text into another gives each profile the rounded curve with its flag and tables, or leaves it where rounding merged temperatures |
| FanCurves.RoundTripExactlyWhen | src/policy/fan_curve_engine.cpp:369-457 | printed and read back, a profile comes back with flag and tables exactly when it is in whole tenths and strictly increasing, or its refused text met an equal target |
| FanCurves.ClampedPointsAreNotReadBack | src/policy/fan_curve_engine.cpp:219-236 | an engine holding an accepted curve with two points above 70 degrees, which clamp onto each other, prints it, and a differing engine that reads the text does not get it |
| FanCurves.StaleRatioExample | src/policy/fan_curve_engine.cpp:214-335 | `set_profile_curve` accepts that curve unchanged, and the installed tables answer a lower speed and level at 35 than at 34 degrees |
| FanCurves.FanCurveEngine.constructor | src/policy/fan_curve_engine.cpp:119-212 | a new engine is valid and holds the four factory curves, each with non-decreasing speeds |
| FanCurves.FanCurveEngine.SyncFastLookup | src/policy/fan_curve_engine.cpp:143-147 | mirrors exactly the named profile's tables |
| FanCurves.FanCurveEngine.ResetToDefaults | src/policy/fan_curve_engine.cpp:149-212 | resets the named profile, or all four when the index names none, and leaves the others alone |
| FanCurves.FanCurveEngine.SetProfileCurve | src/policy/fan_curve_engine.cpp:214-247 | accepts exactly valid indexes with 2 to 10 strictly increasing points, installs the normalised curve, keeps non-decreasing speeds non-decreasing, and changes nothing on refusal |
| FanCurves.FanCurveEngine.SerializeCurves | src/policy/fan_curve_engine.cpp:369-387 | prints the four curves in order, line by line |
| FanCurves.FanCurveEngine.ReadBlock | src/policy/fan_curve_engine.cpp:413-445 | the inner loop with its rewind ends, reads what the block grammar reads and stops in front of the first line it did not use |
| FanCurves.FanCurveEngine.ReadOne | src/policy/fan_curve_engine.cpp:396-454 | one turn of the outer loop advances, applies at most the one update its lines ask for and reports whether it was accepted |
| FanCurves.FanCurveEngine.DeserializeCurves | src/policy/fan_curve_engine.cpp:389-457 | on any text terminates with a valid engine: the fold of the updates the text asks for, true exactly when one was accepted |
| ProcessMerge.TwoPointerDelta | src/policy/attribution_engine.cpp:391-463 | the two-pointer loop yields the join of the snapshots, cut to 2048 entries, and 64-bit totals over the whole join |
| ProcessMerge.JoinIsIntersection | src/policy/attribution_engine.cpp:391-463 | a PID has a delta exactly when both snapshots hold it, computed from its own two samples |
| ProcessMerge.JoinIsSorted | src/policy/attribution_engine.cpp:391-463 | the deltas come strictly sorted and no more than either snapshot |
| ProcessMerge.AccumulateStep | src/policy/attribution_engine.cpp:928-1026 | the three-pointer loop yields one interval's merge, cut to the 2048 lowest PIDs |
| ProcessMerge.MergeIsPerPid | src/policy/attribution_engine.cpp:947-1023 | a PID's accumulated sample depends on its own accumulated, previous and current samples only |
| ProcessMerge.MergeIsSorted | src/policy/attribution_engine.cpp:947-1023 | the merge stays strictly sorted |
| ProcessMerge.AccumulateWindow | src/policy/attribution_engine.cpp:928-1026 | the loop over all intervals yields the window's accumulation |
| ProcessMerge.WindowIsPerPidFold | src/policy/attribution_engine.cpp:928-1026 | while the PIDs fit, the window is sorted, holds exactly the PIDs of the samples after the first, and is the independent fold of each |
| ProcessMerge.ChargeIsGrowthPlusExcess | src/policy/attribution_engine.cpp:981-1015 | over any window the gains of a counter, taken without wrap-around, are its net growth plus the excess of its falls and returns |
| ProcessMerge.NoExcessExactlyWhen | src/policy/attribution_engine.cpp:981-1015 | there is no excess exactly when the counter never falls between consecutive samples and its last seen count was zero before each return |
| ProcessMerge.AccumulatedIsCharged | src/policy/attribution_engine.cpp:981-1015 | the accumulated counter is those gains at its own 32- or 64-bit width |
| ProcessMerge.ChargedNetGrowthExactlyWhen | src/policy/attribution_engine.cpp:928-1026 | in any window whose PIDs fit, the streamed counter of a PID is its last minus its first count exactly when the excess is zero modulo the width and the count did not fall overall, so for excesses below the width exactly when the counter is unbroken |
| ProcessMerge.GainsTelescope | src/policy/attribution_engine.cpp:981-1000 | a counter that never falls, of a PID in every sample, is charged last minus first, at its own width |
| ProcessMerge.ReturningProcessIsOvercharged | src/policy/attribution_engine.cpp:1001-1015 | a PID absent from a middle sample is charged last minus first exactly when its first count was zero |
| ProcessMerge.WindowAgreesWithEndpoints | src/policy/attribution_engine.cpp:1067-1090 | the synthetic zero-based pair of snapshots yields, for every sum of counters, the delta of the two end-point samples |
| ProcessMerge.WindowDeltasAreEndpointDeltas | src/policy/attribution_engine.cpp:928-1090 | for a fixed set of processes with steady times the window's deltas have the PIDs, ticks and engine times of the end-point samples' deltas, in order |
| PowerShares.ComputeAttribution | src/policy/attribution_engine.cpp:465-588 | the two passes compute the specified charges, the second in place over the first |
| PowerShares.CpuSharesSumToPackage | src/policy/attribution_engine.cpp:467-505 | CPU charges sum to the package exactly when no tick delta was truncated and no dropped process ran, to the static quarter without ticks, and never above the package |
| PowerShares.TruncatedTicksLoseEnergy | src/policy/attribution_engine.cpp:437 | a lone process with 2^32 ticks is not charged the package |
| PowerShares.GpuWithinDuty | src/policy/attribution_engine.cpp:507-535 | a GPU charge is non-negative and within the process's duty cycle and proportional share |
| PowerShares.GpuSharesWithinGpu | src/policy/attribution_engine.cpp:507-535 | all GPU charges together stay within the GPU's watts |
| PowerShares.GpuFullyChargedExactlyWhen | src/policy/attribution_engine.cpp:507-535 | the active GPU power is charged in full exactly when no process's proportional share exceeds its duty cap |
| PowerShares.GpuFullyChargedInReadings | src/policy/attribution_engine.cpp:507-535 | in terms of the readings: exactly when every process with engine time filled the interval, or the busy time does not exceed all engine time, or the GPU draws nothing; always without a busy reading |
| PowerShares.ChargeAt | src/policy/attribution_engine.cpp:477-588 | each charge stands at the place of its matched PID and follows from that process's own ticks, engine time and heat |
| PowerShares.CpuChargeAt | src/policy/attribution_engine.cpp:499-505 | above its even part of the static quarter a process's CPU charge is to the dynamic three quarters as its own ticks to all ticks |
| PowerShares.FanChargeAt | src/policy/attribution_engine.cpp:573-584 | the second pass makes a process's fan charge to the fan's watts what its own heat is to all heat |
| PowerShares.WindowChargesAsEndpoints | src/policy/attribution_engine.cpp:1067-1092 | a window over a fixed set of processes with steady times charges every process what the two end-point samples would, for CPU, GPU and fan |
| PowerShares.FanSharesSumToFan | src/policy/attribution_engine.cpp:573-584 | fan charges sum to the fan's watts as soon as thermal watts are positive, and to nothing otherwise |
| PowerShares.NoEnergyIsInvented | src/policy/attribution_engine.cpp:465-588 | CPU, GPU and fan charges together never exceed what was measured |
| Seqlock.RunKeepsInv | src/ipc/tray_shared_state.hpp:47-109 | over every interleaving the commits are the fold of the operations, the version names the latest commit, and each reader holds words of one commit while its version stands |
| Seqlock.SuccessfulReadIsOneCommit | src/ipc/tray_shared_state.hpp:97-109 | a read that succeeds copied one committed memory, current at some instant of the call |
| TrayState.ReadAtomicIsOneCommit | src/ipc/tray_shared_state.hpp:97-109 | a true result hands back every word of exactly one committed state, in whatever order words were copied |
| TrayState.ModeCommit | src/ipc/tray_shared_state.hpp:89-95 | a profile switch commits the mode word and nothing else |
| TrayState.ReportCommit | src/ipc/tray_shared_state.hpp:46-87 | a committed report shows its value in every word it names and the previous commit's elsewhere, unlisted culprit slots included |
| HistoryRing.AppendSlides | src/ipc/history_ring_buffer.hpp:50-55 | storing at the head slides the chronological window by one point |
| HistoryRing.HistoryRingBuffer.Append | src/ipc/history_ring_buffer.hpp:46-58 | after any number of appends the ring holds exactly the last min(n, capacity) points |
| HistoryRing.HistoryRingBuffer.ReadSnapshot | src/ipc/history_ring_buffer.hpp:60-83 | undisturbed, the copy is the oldest min(count, max) points in order, and a zero maximum fails |
| HistoryRing.SnapshotStaysInBounds | src/ipc/history_ring_buffer.hpp:68-76 | even on a torn mixture of words every slot read is in bounds and no more than max are read |
| HistoryRing.AppendCommit | src/ipc/history_ring_buffer.hpp:46-58 | a committed word-by-word append slides the committed window |
| HistoryRing.CommitsHoldLastPoints | src/ipc/history_ring_buffer.hpp:46-58 | every commit's window is the last points of the appends before it |
| HistoryRing.DeliveredIsWindow | src/ipc/history_ring_buffer.hpp:68-77 | a finished copy of one memory is the oldest part of that memory's window |
| HistoryRing.SnapshotIsOneWindow | src/ipc/history_ring_buffer.hpp:46-83 | under every interleaving a successful snapshot is the oldest min(count, max) points of one committed window, current at some instant of the call |
| Profiler.StepKeepsInv | src/core/scoped_profiler.hpp:77-88 | every atomic step of any call, a spuriously failing exchange included, loses no count and never raises the minimum or lowers the maximum |
| Profiler.RunKeepsInv | src/core/scoped_profiler.hpp:77-88 | in every interleaving counters equal the calls past them modulo 2^64 and extremes are recorded deltas |
| Profiler.ExtremesAreMonotone | src/core/scoped_profiler.hpp:77-88 | between any two instants of a run the minimum never rises and the maximum never falls |
| Profiler.FinishedEntryIsExact | src/core/scoped_profiler.hpp:77-88 | once all calls are done the entry holds the exact count, sum, minimum and maximum of the recorded deltas |
| TopK.SiftUp | src/core/custom_containers.hpp:421-422 | lifting the last item restores the heap and permutes the items |
| TopK.PopHeap | src/core/custom_containers.hpp:424-427 | the root moves to the back, the rest is a heap again, the items are permuted |
| TopK.RootIsWorst | src/core/custom_containers.hpp:423-425 | the root beats no item of the heap |
| TopK.KeptIsSortedPrefix | src/core/custom_containers.hpp:431-436 | kept items, sorted, are rank by rank and up to ties the beginning of any full sort of all pushed items |
| TopK.TopKHeap.Push | src/core/custom_containers.hpp:419-429 | keeps the heap, min(n, K) items, kept plus discarded equal to pushed as multisets, and no discarded item beating a kept one |
| TopK.TopKHeap.ExtractSorted | src/core/custom_containers.hpp:431-436 | a sorted permutation of the heap that is the top of any full sort of everything pushed |
| MitigationLedger.Allowed | src/policy/mitigation_engine.cpp:1812-1853 | a profile leaves at least one and at most all CPUs |
| MitigationLedger.CapKeepsInv | src/policy/battery_feature.cpp:837-891 | a cap with any system call failing keeps the ledger bounded, distinct and complete |
| MitigationLedger.RollbackUndoesExactlyTheCapped | src/policy/battery_feature.cpp:362-384 | rollback empties the ledger, gives every living capped process its own recorded values back, and changes no other process, not one that reuses a tracked PID |
| MitigationLedger.DeescalateReleasesExactlyTheCalm | src/policy/battery_feature.cpp:895-932 | the swap-with-last loop keeps exactly the entries that hold and undoes exactly the living capped processes of the others |
| MitigationLedger.RunKeepsInv | src/policy/battery_feature.cpp:362-932 | over every run with exits, outside tuning and PID reuse there are at most 128 entries with distinct PIDs and every living capped process is recorded as it was before its cap |
| MitigationLedger.EntryHeldFifteenSeconds | src/policy/battery_feature.cpp:904-909 | within fifteen seconds of its cap no entry leaves unless the profile changes |
| MitigationLedger.UnrecordedCapLeavesNoTraceExactlyWhen | src/policy/battery_feature.cpp:310-349 | an attempt that records nothing leaves the process as it was exactly when the nice value did not change and no quota was set |
| MitigationLedger.UnrecordedRenice | src/policy/battery_feature.cpp:310-349 | with only the nice call succeeding a process is reniced without a record |
| MitigationLedger.RestoresOriginalNiceExactlyWhen | src/policy/battery_feature.cpp:310-384 | after an attempt that recorded nothing and a later recorded cap, every restore writes back the original nice value exactly when the first attempt had not changed it |
| MitigationLedger.SavedNiceIsOwnExactlyWhen | src/policy/battery_feature.cpp:310-932 | at every point of every run with exits, reuse and outside tuning, the nice value saved for a process last set from outside while uncapped, and written by every restore, is that setting exactly when no unrecorded renice has changed it since, or the last one set the same value |
| MitigationLedger.TuningWhileCappedSurvivesExactlyWhen | src/policy/battery_feature.cpp:362-384 | a setting made from outside while the process is capped survives a rollback exactly if it is the recorded one |
| MitigationLedger.RollbackIsCompleteExactlyWithoutQuota | src/policy/battery_feature.cpp:362-384 | a rollback restores a capped process wholly exactly when no quota was set on it |
| MitigationLedger.QuotaOutlivesRollback | src/policy/battery_feature.cpp:310-384 | a quota set by a cap under UltraEndurance survives the rollback |
| MitigationLedger.FeatureManager.RollbackAllTracked | src/policy/battery_feature.cpp:362-384 | the loop performs the specified rollback |
| MitigationLedger.FeatureManager.CapProcess | src/policy/battery_feature.cpp:837-891 | the search, the capacity check and the cap perform the specified step |
| MitigationLedger.FeatureManager.DeescalateCalm | src/policy/battery_feature.cpp:903-932 | the in-place removal loop performs the specified de-escalation |
| MitigationLedger.FeatureManager.EvaluateAndActuate | src/policy/battery_feature.cpp:611-932 | one cycle: rollback on a profile change, caps, de-escalation, invariant kept |
| ProfileLatch.ResolveProfile | src/policy/mitigation_engine.cpp:1642-1679 | the branches compute the specified profile and latch |
| ProfileLatch.ProfileOwner.Evaluate | src/policy/battery_feature.cpp:405-418 | a cycle publishes the resolved profile and stores it only over a selection |
| ProfileLatch.CrossingsStayOrdered | src/policy/mitigation_engine.cpp:1646-1676 | over every run the 20 percent crossing implies the 30 percent one |
| ProfileLatch.CycleMovesTowardsSaving | src/policy/mitigation_engine.cpp:1642-1679 | a cycle only moves towards saving, moves nothing on AC, pins the floor at 5 percent and stores the result over a selection |
| ProfileLatch.AtMostTwoChanges | src/policy/mitigation_engine.cpp:1642-1679 | on battery between 5 and 25 percent, however often the user reselects, there is at most one automatic change for each armed threshold |
| ProfileLatch.SelectedProfileOnlySaves | src/policy/battery_feature.cpp:405-418 | over any stretch of cycles a selected profile only moves towards saving |
| ProfileLatch.DemotionPersistsExactlyWhen | src/policy/battery_feature.cpp:405-418 | the outcome of a cycle survives the next one, whatever it reads, exactly with a selection, on AC, or above 5 percent and either above 20 or with that threshold already crossed |
| ProfileLatch.UnselectedDemotionIsUndone | src/policy/battery_feature.cpp:405-418 | without a selection a reading of 20 percent moves to PowerSaver and the same reading moves back |
| MemoryGuard.ClassifyIsHysteretic | src/policy/memory_pressure_guard.cpp:179-210 | the tier is never below the raw one, rises at once, and falls by one step exactly inside the release band |
| MemoryGuard.ConstantInputSettles | src/policy/memory_pressure_guard.cpp:179-210 | a constant input settles within two steps, at Normal in the band and at the higher of raw and previous otherwise |
| MemoryGuard.TierHoldsOutsideBand | src/policy/memory_pressure_guard.cpp:199-210 | while no sample enters the release band no run lowers the tier |
| MemoryGuard.RunKeepsInv | src/policy/memory_pressure_guard.cpp:261-428 | over every run the brake list is empty below Throttle, has at most 16 distinct PIDs and only entries with something applied |
| MemoryGuard.NobodyProtectedJoins | src/policy/memory_pressure_guard.cpp:233-293 | whoever joins the list is a large enough, unprotected process outside the session tiers |
| MemoryGuard.ProtectedStaysBrakedExactlyWhen | src/policy/memory_pressure_guard.cpp:261-442 | a protected process is on the list exactly when it was before and the cycle releases nothing |
| MemoryGuard.FocusedProcessStaysBraked | src/policy/memory_pressure_guard.cpp:261-442 | a fresh guard brakes a process under pressure, and leaves it braked when it gains focus while the pressure lasts |
| MemoryGuard.ReleaseRestoresExactlyWhen | src/policy/memory_pressure_guard.cpp:430-442 | a braked and released process has its policy, nice value and I/O priority back exactly when it was not demoted or had the normal ones before |
| MemoryGuard.RunSettles | src/policy/memory_pressure_guard.cpp:261-442 | after every run whoever is not demoted is scheduled as at the start or normally |
| MemoryGuard.RecycledPidKeepsItsOwnExactlyWhen | src/policy/memory_pressure_guard.cpp:430-442 | whoever has taken over a listed PID keeps its own scheduling through a release exactly when the PID was not demoted or its scheduling was the normal one |
| MemoryGuard.MemoryPressureGuard.ReleaseAll | src/policy/memory_pressure_guard.cpp:430-442 | lifts every outstanding quota, writes the normal scheduling to every demoted process and empties the list |
| MemoryGuard.MemoryPressureGuard.ActuateThrottle | src/policy/memory_pressure_guard.cpp:261-293 | adds exactly the specified processes, demotes those, and keeps list and kernel state in step |
| MemoryGuard.MemoryPressureGuard.EvaluateAndActuate | src/policy/memory_pressure_guard.cpp:295-428 | one cycle performs the specified step; the list matches the outstanding quotas and demotions exactly |
| PowerActuation.ApplyKeepsInv | src/policy/mitigation_engine.cpp:1471-1640 | applying a profile keeps each knob at baseline or at the daemon's value, as its flag says, and yields the profile's target |
| PowerActuation.HistoryKeepsInv | src/policy/mitigation_engine.cpp:1282-1640 | over every history a clear flag means the knob is at its baseline |
| PowerActuation.LastProfileDecidesExactlyWhen | src/policy/mitigation_engine.cpp:1282-1640 | after any history all knobs depend only on the last profile and the baseline exactly when start-up read every overwritten value as it was, or the value it could not read was already what is left in its place |
| PowerActuation.BaselineRestoresExactlyWhen | src/policy/mitigation_engine.cpp:852-895 | restoring the baseline returns every knob and clears every flag after every history exactly under the same condition |
| PowerActuation.UncapturedRowStaysRaised | src/policy/mitigation_engine.cpp:3412-3449 | an SMU row that was not read stays raised under a saving profile |
| PowerActuation.MitigationEngine.SetNvmePowerControl | src/policy/mitigation_engine.cpp:1303-1320 | refuses an empty value, writes any other to every controller that is there, and sets the flag exactly if one is |
| PowerActuation.MitigationEngine.RestoreNvmePowerControl | src/policy/mitigation_engine.cpp:1322-1341 | restores exactly the controllers with a captured value, once modified |
| PowerActuation.MitigationEngine.RestoreSmuLimits | src/policy/mitigation_engine.cpp:3412-3449 | writes captured rows only, with the APU fallback, and keeps the flag without the tool |
| PowerActuation.MitigationEngine.ReleasePerformanceUnleash | src/policy/mitigation_engine.cpp:1399-1414 | releases GPU mode, NVMe, migration cost and SMU limits as specified |
| PowerActuation.MitigationEngine.ApplyPowerProfile | src/policy/mitigation_engine.cpp:1471-1640 | the four branches perform the specified step |
| PowerActuation.MitigationEngine.RestoreHardwareBaseline | src/policy/mitigation_engine.cpp:852-895 | performs the specified restore |
| Scanners.ScanChunk | src/core/cpu_features.hpp:205-215 | one 32-lane step finds the lowest hit, or moves the scan past the chunk |
| Scanners.FindCharVector | src/core/cpu_features.hpp:201-222 | returns the first occurrence or the end, on every buffer |
| Scanners.FindCharScalar | src/core/cpu_features.hpp:224-231 | the same position byte by byte |
| Scanners.SkipWhitespace | src/core/cpu_features.hpp:246-268 | stops at the first byte above a space or at the end |
| Scanners.FindWhitespace | src/core/cpu_features.hpp:271-289 | stops at the first byte at or below a space or at the end |
| Scanners.SelectBit | src/core/cpu_features.hpp:322-331 | clearing lower bits selects the set bit with exactly k set bits below it |
| Scanners.SkipTokensVector | src/core/cpu_features.hpp:292-346 | the chunked loop with its scalar head and tail lands where specified |
| Scanners.SkipTokensScalar | src/core/cpu_features.hpp:340-345 | the scalar loop skips that many tokens with the blanks behind them |
| Scanners.VectorSkipAgreesExactlyWhen | src/core/cpu_features.hpp:292-346 | vector and scalar form land together exactly when, up to the count-th space or else the end of the last whole chunk, there are as many spaces as ended runs of blanks, or both demands exceed the runs there are |
| Scanners.VectorSkipIsScalar | src/core/cpu_features.hpp:292-346 | they agree on every buffer with single spaces and no other byte at or below a space |
| Scanners.AdjacentSpacesDiverge | src/core/cpu_features.hpp:292-346 | on every buffer of a chunk or more that goes on with three spaces and a token they differ when asked for three tokens |
| Netlink.FindAttr | src/policy/mitigation_engine.cpp:189-206 | on arbitrary bytes the walk ends, reads only inside and returns the first decoded attribute of the type with enough length |
| Netlink.DecodeEncodeAll | src/policy/mitigation_engine.cpp:169-206 | decoding the encoding of any attributes that can be appended gives back, in order, those in front of the first whose length wraps |
| Netlink.RoundTripExactlyWhen | src/policy/mitigation_engine.cpp:169-206 | that is all of them exactly when no payload exceeds 65531 bytes |
| Netlink.AnswersAsSentExactlyWhen | src/policy/mitigation_engine.cpp:169-206 | every lookup of every type and length answers as the appended attributes do exactly under the same condition |
| Netlink.WrappedLengthHidesAll | src/policy/mitigation_engine.cpp:169-187 | any payload of 65532 to 65535 bytes stores a length below the header's and hides itself and everything behind it |
| Netlink.WriteAttr | src/policy/mitigation_engine.cpp:177-185 | writes header, payload and zero padding at the offset and keeps all bytes before it |
| Netlink.Message.AppendAttr | src/policy/mitigation_engine.cpp:168-187 | appends exactly when the padded attribute fits, and otherwise leaves the message alone |
| Netlink.Message.Find | src/policy/mitigation_engine.cpp:168-206 | after any appends a lookup returns the payload of the first attribute of that type and enough length among those in front of the first wrapped length, which below 64 KiB are all |

## Left out

- Floating point: all arithmetic of the spline, the shares and the thresholds is over exact reals; rounding and FMA differences are not modelled.
- The limiter's square root: results hold for every factor in (0, 1] that lands in the disc, of which the exact one is an instance.
- Text input: `%f` is modelled on decimal notation without exponent, hexadecimal, infinity or not-a-number; `%d` does not overflow.
- File I/O of the fan curves, `auto_save` and the configuration paths.
- The guard that caps the segment index at the last interval: the search never passes it.
- Memory ordering: protocol steps interleave under sequential consistency, with one seqlock writer, an even starting version and unbounded versions; the version word inside the copied tray state is not compared.
- 64-bit sums of ticks and GPU time are taken not to wrap where a lemma says so; 32-bit truncation and the 2048-entry vector are modelled.
- Storage, wake-up, Wi-Fi and DRAM watts, domain labels and the drain index: per-process arithmetic without a relation between processes.
- Averaging of hardware samples over a window, and the one- and two-sample shortcuts of the windowed entry point.
- TopK.SiftDown: sinks towards the worse child; which of several valid heap layouts results is not modelled, nor is the layout chosen by the standard library.
- TopK.Sort: an insertion sort stands for the library sort; the order among ties is left open.
- The ledger's other features (idle scheduling, CCX pinning, freezer, timer slack, I/O priority) and per-thread writes: a process is one record.
- The decision which processes are greedy, and de-escalation thresholds, are inputs of the ledger.
- A process exiting in the middle of a cycle, and failing restore calls: a cycle is one step and restores succeed.
- MemoryGuard.RunSettles: the user and other features changing a braked process's scheduling in between are not modelled.
- The memory guard's reclaim, page-out and notifier phases, swap growth and the logging flag.
- MemoryGuard.ProtectedStaysBrakedExactlyWhen: the list may hold a protected process, so only newcomers are shown to be unprotected.
- Knobs every profile overwrites unconditionally (governor, boost, ASPM, panel, clocks), Wi-Fi, backlight, fan level, and runtime PM without a restorable baseline.
- The netlink socket, family lookup and message headers: the message is the region behind its headers.
- PDEP: selecting a bit is modelled by clearing lower bits, the form used without BMI2.
