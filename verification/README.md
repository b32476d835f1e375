# Verified model of the l2-loop domain layer

l2-loop watches one network interface for layer-two broadcast storms and external loops. Its domain layer is a
set of bounded in-memory state machines: a sampler that turns kernel counters into rate windows, baselines and
detection signals; a detection engine with hysteresis; a recorder that turns detections into numbered incident
revisions; a store that publishes them crash-atomically; and the journal of an installer that can be interrupted
and rolled back. This project models those machines in Dafny and proves what they guarantee over whole runs.

Each machine appears twice. A `datatype` and functions give one step as a value (`Evaluate`, `Insert`, `Put`,
`Record`, ...). A `class` with the program's fields performs the same step in place, and every one of its methods
is proved to produce exactly the value of the function (`Step(Model(), r) == Evaluate(old(Model()), ...)`), with
loops and their invariants where the program has loops. What the machine promises is then proved about the
functions, over every run. The files named `...Meaning`, `SamplingFailures` and `JournalRecords` say what each step
does without naming the functions that compute it: by role, class, state and alert, with the constants written out.

| file | contents |
|---|---|
| `Common`, `Arithmetic`, `Lexicographic`, `Ranking` | machine integers, floor division, derived order, sorting by key |
| `Reports` | the evidence values handed from one engine to the next |
| `Detection`, `DetectionRuns`, `DetectionHysteresis`, `DetectionMeaning` | the detection engine; its invariants over runs; its history semantics; its reports and reasons by name |
| `Rate`, `RateWindows`, `RateMeaning` | counter samples and sliding windows; what the windows mean; what each call keeps |
| `OrderStatistics`, `Baseline`, `BaselineRobustness`, `BaselineMeaning` | median and deviation; baselines; breakdown bound; which hook and class each subject learns |
| `FingerprintScans`, `FingerprintReports`, `FingerprintConservation`, `FingerprintMeaning` | fingerprint scans and windows; the cumulative report; conservation and telescoping; counts and ratios from the entries |
| `SignalDerivation`, `SignalMeaning`, `LoopVerdict` | detection signals; when a hook is a candidate; what a loop verdict means in raw evidence |
| `Sampling`, `SamplingRuns`, `SamplingFailures`, `SamplingIndependence` | one sampling tick; the whole pipeline; what a tick of any input does; that nothing forgotten comes back |
| `Journal`, `JournalRuns`, `JournalRecords` | the install journal; reachability and resumption; which calls are accepted and what an installed entry has seen |
| `InstallTree`, `InstallTreeMeaning`, `InstallTreeSteps` | the installed tree with its directories and link counts; its paths and effects place by place; what one application or undo does to a recorded tree |
| `JournalRollback`, `InstallRuns` | the rollback loop and when it succeeds; journal and tree together over whole runs and at the stops between them |
| `InstallForward`, `InstallForeign` | which trees a plan can be applied to; rollback and recognition with foreign objects in the tree |
| `EvidenceText`, `Manifest`, `Evidence`, `EvidenceMeaning` | ids and cursors as text; manifest size; revisions on disk; which of them are whole |
| `Retention`, `Store`, `StoreRuns`, `StoreMeaning`, `StoreFaults`, `StoreExamples`, `Listing` | retention; the store; agreement and crashes; what is taken and listed; faults without a restart; faults at single inputs; pagination |
| `Incident`, `IncidentRuns`, `IncidentCapture`, `IncidentMeaning` | the recorder; numbering, recorder and store together; how the sampler feeds it; the alert of every revision |
| `IncidentQueue`, `IncidentStall` | the bounded queues between recorder and store; a stalled writer |
| `Fnv` | the FNV-1a frame fingerprint |

Clocks, the kernel reader, the event-id source, directory listings, the free-space query, input/output failures and
the lengths of encoded texts are parameters of the modelled operations.

## Model

| member | source | states |
|---|---|---|
| `Detection.DetectionEngine.EvaluateSignals` | crates/l2-loop-core/src/detection.rs:557-674 | one evaluation in place is exactly the specification step: streaks, promotion, ten-tick clear, cooldown, trust stamps, transition, publication, and every error with its partial effect |
| `Detection.DetectionEngine.Clear` | crates/l2-loop-core/src/detection.rs:701-727 | an integrity clear forgets every streak and the trust, and replaces the engine when the identity changes |
| `Detection.DetectionEngine.ReportUnavailable` | crates/l2-loop-core/src/detection.rs:757-792 | the unavailable overlay keeps the state to resume |
| `Detection.DetectionEngine.AppendTransition` | crates/l2-loop-core/src/detection.rs:794-819 | the ring takes one transition and drops the oldest of sixteen; a full sequence counter refuses |
| `Detection.Strongest` | crates/l2-loop-core/src/detection.rs:860-875 | an anomaly is supported exactly when there is a candidate, and a relationship only by an ingress or bidirectional one |
| `DetectionRuns.StepLemma` | crates/l2-loop-core/src/detection.rs:557-840 | every call keeps the engine invariant, succeeds exactly when its arguments are acceptable, and changes nothing when it fails |
| `DetectionRuns.EngineIsTotal` | crates/l2-loop-core/src/detection.rs:557-674 | in every run an evaluation fails only for invalid signals or clocks that do not advance, and every returned report passes the report validator |
| `DetectionRuns.UnavailabilityStutters` | crates/l2-loop-core/src/detection.rs:575-580 | deleting every unavailable and pause call from any run leaves all that decides a state unchanged |
| `DetectionRuns.UnavailabilityIsInvisible` | crates/l2-loop-core/src/detection.rs:676-699 | the same after every prefix, including which next call is accepted and where it leads |
| `DetectionRuns.RingIsLogSuffix` | crates/l2-loop-core/src/detection.rs:794-840 | the ring is the last min(16, sequence) transitions of a contiguous chained log that starts in WarmingUp and ends in the published state |
| `DetectionHysteresis.EngineFollowsHistory` | crates/l2-loop-core/src/detection.rs:588-641 | the counter engine refines a counter-free reference: each accepted evaluation ends in the state that the history of evaluations since the last clear calls for |
| `DetectionHysteresis.HysteresisOverRuns` | crates/l2-loop-core/src/detection.rs:588-755 | in every run: entry takes three equal candidates in a row and ends in the storm of that candidate or in the loop that is then suspected or held certain, each by name; a loop that shows during an ingress or two-way storm is acted on at once; exit or demotion takes ten dissenting evaluations, other changes are supported promotions, warm-up ends with complete evidence, Normal after an anomaly needs an uninterrupted 30 s cooldown, and three equal candidates force an anomaly of at least the latest rank |
| `DetectionHysteresis.StrongestIsCalled` | crates/l2-loop-core/src/detection.rs:851-875 | the strongest anomaly is the entry of the written-out table of four candidates against the two loop flags |
| `DetectionMeaning.PromotionByName` | crates/l2-loop-core/src/detection.rs:894-903 | the ranks are the places in one written-out ladder, and promotion goes up that ladder |
| `DetectionMeaning.TransitionReason` | crates/l2-loop-core/src/detection.rs:905-913 | every recorded transition carries the reason that its two states and the call demand, each written out |
| `DetectionMeaning.EvaluationReport` | crates/l2-loop-core/src/detection.rs:643-674 | after an accepted evaluation every field of the report is told from the signals, the clock and the decided state |
| `DetectionMeaning.UnavailableReport` | crates/l2-loop-core/src/detection.rs:757-792 | an unavailable or pause call overlays the report and changes nothing else, field by field |
| `DetectionMeaning.ClearReport` | crates/l2-loop-core/src/detection.rs:701-727 | after a clear the report shows nothing of what was seen, and the engine is where a new one would be |
| `DetectionMeaning.CooldownNamesItsAnomaly` | crates/l2-loop-core/src/detection.rs:821-835 | in every run the report retained in cooldown names the anomaly that the run left last |
| `Rate.RateHistory.InsertSample` | crates/l2-loop-core/src/rate.rs:411-444 | insertion in place is the specification step, including the history cleared on each of the three errors |
| `Rate.RateHistory.ValidateSample` | crates/l2-loop-core/src/rate.rs:479-503 | checking a request sample clears on error and otherwise changes nothing |
| `RateWindows.RunKeepsInv` | crates/l2-loop-core/src/rate.rs:411-526 | every reachable history holds at most 64 samples, strictly later one after the other, with no counter shrinking |
| `RateWindows.WindowsAreExact` | crates/l2-loop-core/src/rate.rs:532-633 | computing the windows fails only for a clock before the freshness reference; the result validates; a window is Ready exactly when unpaused, at most 3 s old and covered, and then reports the exact growth from the newest sample at least one window old |
| `RateWindows.WindowsNest` | crates/l2-loop-core/src/rate.rs:570-621 | ready windows share one endpoint and the longer one contains the shorter |
| `RateWindows.InsertKeepsCoverage` | crates/l2-loop-core/src/rate.rs:411-444 | with samples at least a second apart, one insertion into 64 slots keeps a covered window covered |
| `RateWindows.CoverageIsForGood` | crates/l2-loop-core/src/rate.rs:411-444 | so through any number of insertions a covered window stays covered |
| `RateWindows.HookRatesAreTotal` | crates/l2-loop-core/src/rate.rs:795-883 | over at least a second the rate calculation of growing counters never fails and is the floor of growth per second for every class |
| `RateMeaning.InsertMeans` | crates/l2-loop-core/src/rate.rs:411-444 | a sample that may follow is kept with at most 63 before it and ends the failures; any other empties the history and restarts it at its instant |
| `RateMeaning.WindowStates` | crates/l2-loop-core/src/rate.rs:532-633 | each of the three windows is stale after three seconds without a sample, ready once the samples span 1, 10 or 60 seconds, and reports the span in milliseconds |
| `RateMeaning.RefusedSampleWarmsUp` | crates/l2-loop-core/src/rate.rs:523-563 | after a refused sample the history is warming, not stale, for three seconds from that sample, and the clock may not go behind it |
| `RateMeaning.FailureMeans` | crates/l2-loop-core/src/rate.rs:450-468 | a failure is counted up to 32 bits and named; a pause empties the history |
| `OrderStatistics.UpperMedianIsTheMedian` | crates/l2-loop-core/src/baseline.rs:235-242 | the sorted-index computation yields the upper median and no other value is one |
| `OrderStatistics.MedianWithstands` | crates/l2-loop-core/src/baseline.rs:235-242 | while fewer than half of the values lie outside a range, the upper median lies in it |
| `OrderStatistics.DeviationWithstands` | crates/l2-loop-core/src/baseline.rs:244-251 | under the same contamination the median absolute deviation is at most the width of the range |
| `Baseline.BaselineEngine.LearnSubjects` | crates/l2-loop-core/src/baseline.rs:360-379 | the loop over sixteen subjects judges each first, learns only what is not elevated, and judges again at the sixtieth sample |
| `Baseline.BaselineEngine.EvaluateReadyWindow` | crates/l2-loop-core/src/baseline.rs:315-418 | evaluation in place is the specification step, including the cleared engine on each error |
| `BaselineRobustness.EvaluateFacts` | crates/l2-loop-core/src/baseline.rs:315-418 | a window is taken exactly when it is a valid ready ten-second window whose endpoint advances; otherwise everything learned is forgotten |
| `BaselineRobustness.ReportsAlwaysValidate` | crates/l2-loop-core/src/baseline.rs:537-590 | every report published in any run passes the report validator |
| `BaselineRobustness.ThresholdWithstands` | crates/l2-loop-core/src/baseline.rs:253-277 | breakdown bound: with fewer than half outliers the threshold is at most max(hi+6(hi-lo), 4hi, floor), so larger values are flagged and values up to 4lo never are |
| `BaselineRobustness.SaturationIsInvisible` | crates/l2-loop-core/src/baseline.rs:259-275 | saturating the threshold at 64 bits never changes a verdict |
| `BaselineRobustness.FloodsAreNeverLearned` | crates/l2-loop-core/src/baseline.rs:168-232 | along every sequence of calm endpoints and floods in packets, in bytes or in both, each flood is flagged and leaves the learned series unchanged |
| `BaselineMeaning.WindowByName` | crates/l2-loop-core/src/baseline.rs:360-479 | for every accepted window the report labelled with a hook and a subject carries the per-second rates of the hook with that role and the class with that name, is judged against that subject's own series, and that series learns exactly them |
| `BaselineMeaning.EndpointMeaning` | crates/l2-loop-core/src/baseline.rs:168-232 | one endpoint against one series of at most 300: learning up to 59 samples, the sixtieth learned and judged, later ones learned exactly when not elevated |
| `BaselineMeaning.SummaryMeans` | crates/l2-loop-core/src/baseline.rs:381-418 | the state and the two counts of the report are told from its sixteen subjects |
| `BaselineMeaning.UnavailableKeepsSeries` | crates/l2-loop-core/src/baseline.rs:420-469 | an unavailable report keeps every series and shows its length and latest endpoint |
| `FingerprintScans.AcceptScan` | crates/l2-loop-core/src/fingerprint.rs:72-138 | the aggregation loop accepts exactly the scans with valid distinct entries and four totals that fit 64 bits |
| `FingerprintReports.BuildReport` | crates/l2-loop-core/src/fingerprint.rs:72-138 | the cumulative report is built exactly for the accepted scans, is empty exactly for an empty one, and counts entries, relations, sides, order, repetition, totals and largest ratios |
| `FingerprintReports.ReportBalances` | crates/l2-loop-core/src/fingerprint.rs:186-228 | every relation is one-sided or correlated, every correlated one has an order, every entry is one side, and no count leaves the capacity |
| `FingerprintMeaning.ReportMeans` | crates/l2-loop-core/src/fingerprint.rs:186-228 | each count is the number of relations (entries with one relation key) with its property, stated on the entries: one-sided, correlated, ingress first, egress first, at once, repeated; both ratios are the largest over the correlated pairs and are attained |
| `FingerprintScans.CollectDeltas` | crates/l2-loop-core/src/fingerprint_window.rs:301-338 | the first pass stops at the first faulty entry in key order or yields the relations that grew |
| `FingerprintScans.Aggregate` | crates/l2-loop-core/src/fingerprint_window.rs:340-373 | the checked second pass fails exactly when a final total does not fit |
| `FingerprintScans.Build` | crates/l2-loop-core/src/fingerprint_window.rs:296-400 | both passes, the width checks and the report validation in their order |
| `FingerprintScans.FingerprintWindowHistory.Record` | crates/l2-loop-core/src/fingerprint_window.rs:190-238 | recording a scan in place is the specification step with all its failure paths |
| `FingerprintMeaning.ScanMeans` | crates/l2-loop-core/src/fingerprint_window.rs:190-238 | a scan is refused if ill-formed or late, starts a window, is left out within ten seconds, starts anew after fifteen, and in between is compared with the start; endpoints hold the same entries in key order |
| `FingerprintMeaning.WindowMeans` | crates/l2-loop-core/src/fingerprint_window.rs:340-395 | each count of a window is the number of relations that grew with its property; the ratio is the largest over the pairs that grew; the dominant share is that of the entry that grew most |
| `FingerprintMeaning.FaultMeans` | crates/l2-loop-core/src/fingerprint_window.rs:301-323 | an entry is faulty exactly when its flow changed or its counters or last sighting ran back, the first taking precedence |
| `FingerprintMeaning.UnavailableMeans` | crates/l2-loop-core/src/fingerprint_window.rs:240-253 | a missing scan and a clear drop the endpoint; the report changes only for a valid code |
| `FingerprintConservation.KeyOrderKeepsValidity` | crates/l2-loop-core/src/fingerprint_window.rs:281-294 | collecting a scan in key order permutes it: it stays valid with the same totals |
| `FingerprintConservation.DeltasHold` | crates/l2-loop-core/src/fingerprint_window.rs:301-338 | after the first pass the relation map holds, for every key, exactly the non-zero growth of its entry |
| `FingerprintConservation.TallyFits` | crates/l2-loop-core/src/fingerprint_window.rs:340-379 | nothing in the window overflows, because the cumulative totals were bounded when the scan was accepted |
| `FingerprintConservation.BuildSucceedsIff` | crates/l2-loop-core/src/fingerprint_window.rs:296-400 | a window is built exactly when no entry changed identity or regressed and no correlated growth comes without an egress packet |
| `FingerprintConservation.ByteOnlyGrowthIsRefused` | crates/l2-loop-core/src/fingerprint_window.rs:118-121 | two valid scans between which only bytes grow in both directions make no window |
| `FingerprintConservation.PacketsCarryBytes` | crates/l2-loop-core/src/fingerprint_window.rs:296-400 | where bytes never grow without packets, only changed or regressed entries prevent a window |
| `FingerprintConservation.WindowConserves` | crates/l2-loop-core/src/fingerprint_window.rs:296-415 | each window total is the growth since the previous endpoint summed over the current entries, and the dominant ratio is at most 1000 |
| `FingerprintConservation.GrowthAccounts` | crates/l2-loop-core/src/fingerprint_window.rs:302-323 | growth plus the surviving previous totals is the current total |
| `FingerprintConservation.HistoryAlwaysValid` | crates/l2-loop-core/src/fingerprint_window.rs:76-145 | in every run the published window validates and a stored endpoint is a valid scan |
| `FingerprintConservation.WindowsTelescope` | crates/l2-loop-core/src/fingerprint_window.rs:190-238 | successive ready windows add up to the last totals minus the first, while no key disappears |
| `SignalDerivation.AccumulateBum` | crates/l2-loop-core/src/detection.rs:356-371 | the accumulating loop computes the broadcast and multicast rates and each of its errors |
| `SignalDerivation.AgreeOnEnd` | crates/l2-loop-core/src/detection.rs:259-274 | the loop over the windows finds their common endpoint or the first disagreement |
| `SignalDerivation.ConsultBaseline` | crates/l2-loop-core/src/detection.rs:388-417 | the baseline's opinion is known exactly when all four subjects are judged, and positive when any metric is elevated |
| `SignalDerivation.BumSubjectIsTheClass` | crates/l2-loop-core/src/detection.rs:399-407 | in a valid report the looked-up position is the only one with that hook and class |
| `SignalDerivation.DeriveSucceedsIff` | crates/l2-loop-core/src/detection.rs:164-223 | derivation from validated evidence succeeds exactly when endpoints agree, nothing is from the future and parts stay within totals, and then yields valid signals |
| `SignalMeaning.CandidateIff` | crates/l2-loop-core/src/detection.rs:164-223 | a hook is in the candidate exactly when its one-second broadcast and multicast sum reaches 100 000 packets or 104 857 600 bytes, or all four of its subjects are judged, one metric is elevated and the ten-second sum reaches 1 000 packets or 1 048 576 bytes; the four combinations by name |
| `SignalMeaning.HookMeaning` | crates/l2-loop-core/src/detection.rs:292-339 | every signal of a hook is told from the windows and the baseline report by role and class |
| `LoopVerdict.WindowEvidence` | crates/l2-loop-core/src/fingerprint_window.rs:340-395 | the window fields decoded: enough repeating ingress with one frame above four fifths, a frame that left before it came in, a frame that came back at least fourfold, each exactly when the entries of the two scans say so |
| `LoopVerdict.VerdictIff` | crates/l2-loop-core/src/detection.rs:423-460 | a loop is suspected, or held with high confidence, exactly when the raw counters, the baseline report and the entries of the two scans show it: freshness, a storm on the ingress hook (absolute, or above the baseline), broadcast share, dominance, order and amplification |
| `Sampling.SamplingService.TakeTick` | crates/l2-loop-agent/src/observation.rs:157-338 | one tick in place is the specification tick, through all failure, clear and analysis paths |
| `Sampling.SamplingService.Evaluate` | crates/l2-loop-agent/src/observation.rs:619-679 | signals are derived from the cached reports and evaluated; either failure clears the detector |
| `SamplingRuns.RatesWithinTotal` | crates/l2-loop-core/src/detection.rs:356-371 | sum of floors at most floor of sum: exact rates keep broadcast and multicast within the total |
| `SamplingRuns.WindowsGood` | crates/l2-loop-core/src/rate.rs:532-633 | just after insertion into a steady history the windows validate, share the endpoint and keep parts within totals |
| `SamplingRuns.TickFacts` | crates/l2-loop-agent/src/observation.rs:157-338 | one tick of steady input passes every stage, and a transient read failure forgets nothing |
| `SamplingRuns.PipelineNeverFails` | crates/l2-loop-agent/src/observation.rs:250-318 | in every session with steady input every tick passes insertion, windows, baselines, derivation and evaluation (the last two unless a due scan is refused) |
| `SamplingFailures.IntegrityFailureForgets` | crates/l2-loop-agent/src/observation.rs:186-337 | each integrity failure (identity code, foreign identity, no late clock, ill-formed sample, refused insertion) is rejected and leaves no sample, no series, no endpoint, no streak and no trust: the history restarts at the tick, the baseline report is Unavailable without a source end and the detector is where a new one would be, each under its code |
| `SamplingFailures.TransientFailure` | crates/l2-loop-agent/src/observation.rs:201-210 | any other failed read is reported by every engine and forgets nothing |
| `SamplingFailures.GoodTick` | crates/l2-loop-agent/src/observation.rs:250-338 | every other tick inserts its sample, teaches the baselines the ready ten-second window, records a due scan and evaluates exactly what derives from those; unless the wall clock did not advance, in which case baselines and detector start over |
| `SamplingIndependence.EverySession` | crates/l2-loop-agent/src/observation.rs:151-338 | in every session of whatever ticks each one does exactly one of these three things, and the analysis deadline moves by whole ten seconds to the first one ahead |
| `SamplingIndependence.NothingComesBack` | crates/l2-loop-agent/src/observation.rs:186-337 | nothing learned before an integrity failure influences anything after it: two sessions that know entirely different things, fail together and then see the same ticks decide and show the same for good |
| `Journal.CheckForwardPrefix` | crates/l2-loop-core/src/install_journal.rs:1144-1162 | the flag loop recognises exactly the forward prefixes and counts their progress |
| `Journal.CheckRollbackShape` | crates/l2-loop-core/src/install_journal.rs:1164-1180 | the flag loop recognises exactly the shapes in place, reverted, pending |
| `Journal.InstallJournal.Validate` | crates/l2-loop-core/src/install_journal.rs:984-1142 | the reload validator accepts exactly the journals described by `Validates` |
| `Journal.InstallJournal.PrepareEntries` | crates/l2-loop-core/src/install_journal.rs:730-746 | preparing sorts and validates the entries in place, and accepts only an identical repetition |
| `Journal.InstallJournal.ApplyRecorded` | crates/l2-loop-core/src/install_journal.rs:779-821 | recording an application in place is the specification step, replays included |
| `Journal.InstallJournal.VerifyRecorded` | crates/l2-loop-core/src/install_journal.rs:823-851 | recording a verification in place is the specification step, replays included |
| `Journal.InstallJournal.FinishInstall` | crates/l2-loop-core/src/install_journal.rs:853-862 | installation is marked only when every entry is verified |
| `Journal.InstallJournal.FailInstall` | crates/l2-loop-core/src/install_journal.rs:864-886 | recording a failure in place is the specification step, repetition included |
| `Journal.InstallJournal.RollbackRecorded` | crates/l2-loop-core/src/install_journal.rs:943-958 | completing a rollback action in place is the specification step |
| `JournalRuns.StepsAreBounded` | crates/l2-loop-core/src/install_journal.rs:976-982 | the durable step of a reachable journal never exceeds 5+3n, so advancing it never fails |
| `JournalRuns.ReachableIffAccounted` | crates/l2-loop-core/src/install_journal.rs:730-967 | the reachable journals are exactly those whose steps, phases and failure balance |
| `JournalRuns.ReachabilityMeetsValidation` | crates/l2-loop-core/src/install_journal.rs:1063-1142 | every reachable journal validates; up to Failed nothing else does; in rollback a valid journal is reachable exactly when its step count fits its entries |
| `JournalRuns.RollbackStepsAreUnchecked` | crates/l2-loop-core/src/install_journal.rs:1127-1138 | in the rollback states the validator accepts journals that no run produces |
| `JournalRuns.AppliedAnywhereIsUnchecked` | crates/l2-loop-core/src/install_journal.rs:1164-1180 | an unverified entry anywhere among those in place passes the validator, and no run leaves one there |
| `JournalRuns.ImpossibleRollbackIsUnchecked` | crates/l2-loop-core/src/install_journal.rs:1127-1138 | a rollback that calls itself impossible passes the validator though no run produces it, and is closed with its objects in place |
| `JournalRuns.ResumeInstallation` | crates/l2-loop-core/src/install_journal.rs:756-862 | from any reachable Applying journal exactly 2n minus the progress changes remain before it can be marked installed |
| `JournalRuns.ForwardCursorIsLive` | crates/l2-loop-core/src/install_journal.rs:756-851 | until then the cursor names a record, and that record is accepted and advances |
| `JournalRuns.ResumeRollback` | crates/l2-loop-core/src/install_journal.rs:888-967 | from RollingBack exactly the entries in place remain to be reverted |
| `JournalRuns.ReplayIsIdempotent` | crates/l2-loop-core/src/install_journal.rs:730-886 | repeating the latest accepted prepare, record or failure succeeds and changes nothing |
| `JournalRuns.RollbackActionsAreUsedOnce` | crates/l2-loop-core/src/install_journal.rs:943-958 | no rollback action is accepted twice in a run |
| `JournalRecords.VerifiedIff` | crates/l2-loop-core/src/install_journal.rs:823-851 | on every reachable journal a verification passes exactly when the entry of that role is applied and the first not verified, or is verified, and the observed object is the one recorded for it; otherwise it fails and nothing changes |
| `JournalRecords.AppliedIff` | crates/l2-loop-core/src/install_journal.rs:779-821 | an application is recorded exactly when its entry is the first not verified, pending, and object and parent fit the plan field by field; a replay passes only with the same object and parent |
| `JournalRecords.PrepareIff` | crates/l2-loop-core/src/install_journal.rs:730-746 | a plan is accepted exactly when it is not empty, well formed and names no role twice, before anything else or as the same plan again; it is kept in the written-out order of installation |
| `JournalRecords.InstalledIff` | crates/l2-loop-core/src/install_journal.rs:853-862 | an applying journal is marked installed exactly when every entry is verified |
| `JournalRecords.StageCallsIff` | crates/l2-loop-core/src/install_journal.rs:748-900 | starting, failing and beginning a rollback: when they pass and every field they set |
| `JournalRecords.RollbackIff` | crates/l2-loop-core/src/install_journal.rs:903-958 | a completed undo is accepted exactly for the last entry in place, with its step, object, parent, backup and kind of undo; the three journal directories are retained |
| `JournalRecords.RolledBackIff` | crates/l2-loop-core/src/install_journal.rs:960-967 | a rollback is complete exactly when nothing is left in place |
| `JournalRecords.ForwardCursorMeans` | crates/l2-loop-core/src/install_journal.rs:756-777 | the forward cursor names the first entry not verified, its step, and the object to be seen |
| `JournalRecords.EveryRecordHappened` | crates/l2-loop-core/src/install_journal.rs:779-958 | in every run an entry is applied, verified or reverted only because exactly its recorded object was applied, observed or undone in an accepted call of that run |
| `JournalRecords.InstalledWasObserved` | crates/l2-loop-core/src/install_journal.rs:823-862 | an installed journal means that every entry fits its plan and was once observed to be exactly its recorded object |
| `JournalRecords.NewEntryIff` | crates/l2-loop-core/src/install_journal.rs:390-556 | an entry is made exactly from a plan with the role's kind and mode, the superuser's, a digest and a plain name for a file, and a prior object only of the same kind |
| `JournalRecords.ReloadNeeds` | crates/l2-loop-core/src/install_journal.rs:984-1142 | what reloading insists on in every stage: bindings of 32 and 64 hexadecimal digits, known failures, step bounds and shape in rollback |
| `InstallTree.Parent` | crates/l2-loop-core/src/install_journal.rs:53-89 | the directory around each fixed destination is itself a directory role that comes earlier in the installation order |
| `InstallTreeMeaning.ParentIsThePath` | crates/l2-loop-core/src/install_journal.rs:53-89 | the parent of a role is the role whose fixed path is its own without the last name |
| `InstallTreeMeaning.UndoIff` | crates/l2-loop-agent/src/linux/installation_fs.rs:154-202 | an undo is let through exactly when every directory on the way stands and the recorded objects, backup included, are where they should be, or, for a retained directory, the same persistent object |
| `InstallTreeMeaning.UndoMeans` | crates/l2-loop-agent/src/linux/installation_fs.rs:154-202 | what an undo changes, place by place: the destination, a backup, one link of the directory above |
| `InstallTreeMeaning.PlaceIff` | crates/l2-loop-agent/src/linux/installation_fs.rs:271-421 | an application is let through exactly when the way stands and every name is as planned |
| `InstallTreeMeaning.PlaceMeans` | crates/l2-loop-agent/src/linux/installation_fs.rs:271-421 | what an application changes, place by place |
| `InstallTreeSteps.PlaceKeepsTree` | crates/l2-loop-agent/src/linux/installation_fs.rs:271-421 | applying the next entry keeps the tree, link counts included, exactly what journal and original tree say |
| `InstallTreeSteps.CanUndoIff` | crates/l2-loop-agent/src/linux/installation_fs.rs:154-202 | the whole identity recorded for an object still matches, so that its undo is accepted, exactly unless it removes a directory in which something recorded is left |
| `InstallTreeSteps.UndoKeepsTree` | crates/l2-loop-agent/src/linux/installation_fs.rs:154-202 | an accepted undo keeps the tree exactly what journal and original tree say |
| `JournalRollback.RollbackSucceedsIff` | crates/l2-loop-agent/src/linux/installation_runtime.rs:407-449 | the descending order makes every removal match: the drain succeeds exactly when nothing that stays lies in a directory to be removed |
| `JournalRollback.RollbackRestores` | crates/l2-loop-agent/src/linux/installation_runtime.rs:407-449 | when it succeeds every place holds what it held before, except the journal directories of the run and the link counts around them |
| `JournalRollback.RollbackJournal` | crates/l2-loop-agent/src/linux/installation_runtime.rs:407-449 | for every journal that reloading accepts, the loop undoes the entries in place from the last to the first until one undo is refused, and ends rolled back exactly when none is |
| `JournalRollback.LoopSucceedsIff` | crates/l2-loop-agent/src/linux/installation_runtime.rs:407-449 | on a tree that matches the journal that loop succeeds exactly when no directory to be removed is pinned, and then the tree is restored |
| `InstallRuns.EveryTreeIsRecorded` | crates/l2-loop-agent/src/linux/installation_runtime.rs:358-405 | at every point of every run of applications, records and undos the tree is what journal and original tree say |
| `InstallRuns.RollbackUndoesInstallation` | crates/l2-loop-agent/src/linux/installation_runtime.rs:407-449 | from every point of every run rollback succeeds exactly when the run did not make /var/lib around its own journal directory, and then restores the tree |
| `InstallRuns.RolledBackIsRestored` | crates/l2-loop-agent/src/linux/installation_runtime.rs:407-449 | a run that ends rolled back, in however many attempts, has restored the tree |
| `InstallRuns.BootstrapUnblocks` | crates/l2-loop-agent/src/linux/installation_fs.rs:204-210 | an installation that found /var/lib, as publishing the journal demands, can always be rolled back |
| `InstallRuns.StateInsideNewVarLib` | crates/l2-loop-agent/src/linux/installation_fs.rs:154-173 | the tree in which rollback is refused: /var/lib and the journal directory in it, both made by the run |
| `InstallRuns.UnrecordedApplication` | crates/l2-loop-agent/src/linux/installation_runtime.rs:364-390 | stopped between an application and its record, rollback is refused exactly when that object lies in a directory to be removed or /var/lib is pinned, and otherwise leaves exactly that object behind |
| `InstallRuns.UnrecordedUndo` | crates/l2-loop-agent/src/linux/installation_runtime.rs:417-445 | stopped between an undo and its record, the tree is already the undone one and the same undo is refused exactly unless it retains its object |
| `InstallRuns.ResumedAfterUndo` | crates/l2-loop-agent/src/linux/installation_runtime.rs:417-445 | so the resumed rollback is refused at its first action |
| `InstallRuns.EvidenceStoppedBetween` | crates/l2-loop-agent/src/linux/installation_runtime.rs:364-445 | both stops shown at the two evidence directories, where in addition the outer one cannot go first |
| `InstallForward.AppliesIffFits` | crates/l2-loop-agent/src/linux/installation_fs.rs:271-421 | a plan can be applied to its end exactly on the trees where each destination is absent or the prior object, the temporary and backup names are free and distinct, each directory on the way is planned or good, and no link count overflows |
| `InstallForward.InstallationCompletes` | crates/l2-loop-agent/src/linux/installation_runtime.rs:324-405 | on such a tree the installer reaches Installed, and every verification sees exactly the recorded object, link count included |
| `InstallForward.HeldIsRecognised` | crates/l2-loop-agent/src/linux/installation_runtime.rs:285-322 | whatever subdirectories came since, each recorded object is still the persistent object that a later installer looks for |
| `InstallForeign.RecognisedAmongForeign` | crates/l2-loop-agent/src/linux/installation_runtime.rs:285-322 | the same with foreign objects anywhere in the tree |
| `InstallForeign.ForeignDrain` | crates/l2-loop-agent/src/linux/installation_fs.rs:154-202 | with foreign objects in the tree the drain succeeds exactly when it would without them and none lies in a directory to be removed, and then leaves the same tree with them in it |
| `InstallForeign.ForeignRollback` | crates/l2-loop-agent/src/linux/installation_runtime.rs:407-449 | the same from every point of every run, installed ones included |
| `InstallForeign.EvidenceRefusesRollback` | crates/l2-loop-agent/src/linux/installation_fs.rs:154-173 | one stored event in the evidence root and the rollback is refused |
| `InstallTree.Filesystem.Perform` | crates/l2-loop-agent/src/linux/installation_fs.rs:154-202 | an undo in place acts exactly when the way is open, the objects are the expected ones and a removed directory is empty, and then also drops the parent's link |
| `EvidenceText.IdRoundTrip` | crates/l2-loop-core/src/evidence.rs:41-71 | a text parses to an event id exactly when that id prints as it |
| `EvidenceText.FormatId` | crates/l2-loop-core/src/evidence.rs:60-71 | the printing loop fills the buffer with two lower-case digits per byte |
| `EvidenceText.ReadId` | crates/l2-loop-core/src/evidence.rs:41-58 | the parsing loop fills the sixteen bytes or refuses the text |
| `EvidenceText.ComputeFilterHash` | crates/l2-loop-core/src/evidence.rs:413-420 | the accumulating loop hashes the interface name, or a dash |
| `EvidenceText.CursorRoundTrip` | crates/l2-loop-core/src/evidence.rs:355-411 | a text parses to a cursor for a filter exactly when the cursor belongs to the filter and prints as the text |
| `EvidenceText.ForeignCursorIsRefused` | crates/l2-loop-core/src/evidence.rs:355-420 | a cursor printed for one interface is refused for a name of the same length that differs in one byte |
| `Manifest.SettleTotal` | crates/l2-loop-agent/src/evidence_store.rs:955-964 | the size loop terminates at the least self-consistent total, or gives up exactly when none fits 64 bits |
| `Evidence.WalkEvent` | crates/l2-loop-agent/src/evidence_store.rs:523-568 | the directory walk yields the highest readable revision and the bytes of all readable ones |
| `EvidenceMeaning.ReadsIff` | crates/l2-loop-agent/src/evidence_store.rs:570-640 | a revision reads exactly when both files and nothing else are there, within their sizes, and the evidence file itself holds a valid revision of this event and number whose content, length and state are the manifest's; what is returned is the file's content |
| `EvidenceMeaning.RecoversHighest` | crates/l2-loop-agent/src/evidence_store.rs:523-568 | recovery brings back the highest whole revision, and nothing exactly when none is whole |
| `EvidenceMeaning.RecoveryMeans` | crates/l2-loop-agent/src/evidence_store.rs:523-568 | the recovered bytes are those of all whole revisions |
| `EvidenceMeaning.DamageIsNoticed` | crates/l2-loop-agent/src/evidence_store.rs:609-613 | a latest revision altered in place to the same length is not recovered: what comes back is what the lower revisions alone give |
| `EvidenceMeaning.NextLowerComesBack` | crates/l2-loop-agent/src/evidence_store.rs:609-613 | and that is the next lower whole revision |
| `Store.EvidenceStore.Steps` | crates/l2-loop-agent/src/evidence_store.rs:473-516 | the publication steps leave exactly the directory state of the step that fails |
| `Store.EvidenceStore.PutRevision` | crates/l2-loop-agent/src/evidence_store.rs:754-825 | put in place is the specification step: checks in order, manifest, limits, publication, index and books |
| `Store.EvidenceStore.RecoverAll` | crates/l2-loop-agent/src/evidence_store.rs:880-917 | recovery rebuilds index, total and count from the first thousand listed directories |
| `Store.EvidenceStore.EnforceRetention` | crates/l2-loop-agent/src/evidence_store.rs:645-750 | retention in place is the specification step, including a missing directory or a failure in the middle, which return before the books are updated |
| `StoreRuns.PutAgrees` | crates/l2-loop-agent/src/evidence_store.rs:754-825 | a fault-free put keeps index, total and count equal to what the tree says, and succeeds exactly when every check passes |
| `StoreMeaning.PutMeans` | crates/l2-loop-agent/src/evidence_store.rs:754-825 | a put is refused for the first of the listed objections and changes nothing, or stores the revision whole, with its bytes, beside everything that was there |
| `StoreRuns.CrashAtomicity` | crates/l2-loop-agent/src/evidence_store.rs:457-521 | stopping a put at any step and recovering yields the store before it or the completed put, the latter exactly when the rename had happened; recovery agrees exactly when it reads all of the tree |
| `StoreRuns.UnsyncedPutIsAhead` | crates/l2-loop-agent/src/evidence_store.rs:501-515 | after a failed final sync the tree is one revision ahead of memory and repeating the put is a conflict |
| `StoreRuns.RecoverAgreesIff` | crates/l2-loop-agent/src/evidence_store.rs:880-917 | after recovery memory and disk agree exactly when every readable event is listed among the first thousand directories |
| `StoreRuns.RecoverRebuilds` | crates/l2-loop-agent/src/evidence_store.rs:880-917 | with agreement, recovery rebuilds exactly what is in memory, under the same exact condition |
| `StoreRuns.RecoverFindsIff` | crates/l2-loop-agent/src/evidence_store.rs:888-912 | recovery finds an event exactly when it is readable and listed among the first thousand directories, empty ones included |
| `StoreFaults.HiddenEvent` | crates/l2-loop-agent/src/evidence_store.rs:888-912 | a thousand empty directories listed first hide a readable event |
| `StoreFaults.RepeatedCrashesHideAnEvent` | crates/l2-loop-agent/src/evidence_store.rs:437-455 | a run of repaired crashes at the creation of event directories that reaches such a tree |
| `StoreFaults.OneEventStored` | crates/l2-loop-agent/src/evidence_store.rs:754-825 | one put into an empty store leaves the store that this run starts from |
| `StoreRuns.RetentionIsLeast` | crates/l2-loop-agent/src/evidence_store.rs:662-750 | retention deletes the shortest prefix of closed events, by closing time and id, that leaves none expired and meets every limit; it fails only after deleting all of them |
| `StoreRuns.OpenEventsStay` | crates/l2-loop-agent/src/evidence_store.rs:662-719 | whatever happens, retention removes only closed events |
| `StoreRuns.RunsAgree` | crates/l2-loop-agent/src/evidence_store.rs:754-917 | along every run of puts, retention, crashes and recoveries memory and disk agree |
| `StoreFaults.RunsWithoutRestart` | crates/l2-loop-agent/src/evidence_store.rs:645-825 | along every run of puts and retentions with any faults and without a restart, the tree is ahead of memory by one revision exactly for the events whose final sync failed, or torn by a failed deletion, and the books are too high by exactly what failed retentions deleted: in bytes for good, in events until the next one that finishes |
| `StoreFaults.AgreementIsNoLag` | crates/l2-loop-agent/src/evidence_store.rs:880-917 | memory and disk in agreement are the run's start with no lag at all |
| `StoreFaults.FailedRetentionBooks` | crates/l2-loop-agent/src/evidence_store.rs:673-719 | after a failed deletion the books are too high by exactly what was deleted before it |
| `StoreFaults.StuckForGood` | crates/l2-loop-agent/src/incident_output.rs:58-76 | once the directory of an expired event is gone while the index has it, everything persisted until a restart is refused |
| `StoreFaults.CutShortComesBack` | crates/l2-loop-agent/src/evidence_store.rs:523-568 | an event whose directory was removed in part comes back exactly when one of its revisions is whole, strays having perhaps gone first, and at the highest such |
| `StoreFaults.CutShortReopens` | crates/l2-loop-agent/src/evidence_store.rs:523-568 | and comes back open exactly when its closing revision is cut and an earlier one is whole |
| `StoreFaults.StraysGoFirst` | crates/l2-loop-agent/src/evidence_store.rs:570-592 | a revision that a stray file made unreadable is readable once a cut removal has taken the stray |
| `StoreExamples.ClosedEventReopens` | crates/l2-loop-agent/src/evidence_store.rs:698-719 | two puts open and close an event, and its removal cut at the closing manifest is recovered as the open event |
| `StoreExamples.BooksDrift` | crates/l2-loop-agent/src/evidence_store.rs:673-719 | two closed expired events and a failure at the second: the byte total keeps the first one's bytes |
| `StoreExamples.RetentionGetsStuck` | crates/l2-loop-agent/src/evidence_store.rs:698-719 | a failed sync after the first removal leaves the store stuck |
| `Retention.ReserveIsFivePercent` | crates/l2-loop-agent/src/evidence_store.rs:292-300 | the split product equals five per cent rounded down without leaving 64 bits |
| `Retention.BuildQueue` | crates/l2-loop-agent/src/evidence_store.rs:662-672 | the candidates are the closed events, each once, by closing time and id |
| `StoreMeaning.QueueMeans` | crates/l2-loop-agent/src/evidence_store.rs:662-672 | the queue holds exactly the closed events with their closing times and sizes, the longest closed first |
| `Listing.ListEvents` | crates/l2-loop-agent/src/evidence_store.rs:834-874 | a page is the first part of the ranked matching events after the cursor |
| `StoreMeaning.QueryMeans` | crates/l2-loop-core/src/evidence.rs:429-450 | a query asks for one to two hundred events, fifty unless it says otherwise, from a cursor of its own filter |
| `StoreMeaning.ListingMeans` | crates/l2-loop-agent/src/evidence_store.rs:834-874 | a listing shows each event of the interface with its latest revision, the latest transition first, then by id |
| `Listing.NextRequestIsAccepted` | crates/l2-loop-core/src/evidence.rs:429-450 | a returned cursor, printed and read back, is accepted in the query for the next page |
| `Listing.PageIsSlice` | crates/l2-loop-agent/src/evidence_store.rs:834-874 | following printed and re-parsed cursors, page k is the k-th slice of the whole listing |
| `Listing.PaginationIsComplete` | crates/l2-loop-agent/src/evidence_store.rs:834-874 | the pages yield every matching event exactly once, newest first and then by id, and end |
| `Incident.IncidentRecorder.RecordTransition` | crates/l2-loop-agent/src/incident.rs:159-230 | recording in place is the specification step: duplicates, gaps, opening, continuing, closing, the revision limit |
| `Incident.IncidentRecorder.AcknowledgeWithoutOutput` | crates/l2-loop-agent/src/incident.rs:141-157 | acknowledging keeps the incident and advances the sequence |
| `Incident.IncidentRecorder.GenerationEnds` | crates/l2-loop-agent/src/incident.rs:232-267 | the end of a generation closes the open incident with one more revision |
| `Incident.IncidentRecorder.ResetIdentity` | crates/l2-loop-agent/src/incident.rs:134-139 | a new identity starts with no incident and no sequence |
| `IncidentRuns.EveryRunIsWellNumbered` | crates/l2-loop-agent/src/incident.rs:159-267 | for every transition stream and fresh ids each event's revisions are numbered one by one under one identity and opening time, and nothing follows a closed one |
| `IncidentRuns.NumberedByPosition` | crates/l2-loop-agent/src/incident.rs:198-217 | the latest revision number of an event is how many were emitted, at most 16 |
| `IncidentMeaning.ContinueMeans` | crates/l2-loop-agent/src/incident.rs:189-330 | a transition of the open incident emits its next revision with every field of the transition, the one alert of its state and that alert's severity, and closes exactly in Normal; or is silent, over the limit or not storable |
| `IncidentMeaning.OpenMeans` | crates/l2-loop-agent/src/incident.rs:173-188 | a storm or loop with no incident open starts one under the new id; any other state is only counted |
| `IncidentMeaning.RecordMeans` | crates/l2-loop-agent/src/incident.rs:159-173 | an old transition is counted as a duplicate, the next one is recorded, a later one is a gap |
| `IncidentMeaning.EndMeans` | crates/l2-loop-agent/src/incident.rs:232-267 | the revision that ends a generation: its state, reason, code, severity and closing time, or why there is none |
| `IncidentMeaning.EveryAlertHasItsCause` | crates/l2-loop-agent/src/incident.rs:159-330 | in every run each emitted revision tells of one recorded transition, with the alert and severity of that state, or of the end of a generation |
| `IncidentRuns.StoreNeverContradictsRecorder` | crates/l2-loop-agent/src/evidence_store.rs:762-782 | a fault-free store receiving every revision, with closed events deleted at any time, never reports a conflict, a gap or an identity mismatch |
| `IncidentCapture.IncidentFeed.CaptureTransitions` | crates/l2-loop-agent/src/observation.rs:506-570 | a capture refreshes the snapshot, hands the unseen transitions to the recorder in order up to the first refusal, or only acknowledges them without a snapshot, and queues what was emitted |
| `IncidentMeaning.CaptureIsARun` | crates/l2-loop-agent/src/observation.rs:506-545 | a capture is a run of the recorder over the unseen transitions in order, up to the first that is refused |
| `IncidentMeaning.CapturedShowsTheReport` | crates/l2-loop-agent/src/observation.rs:506-545 | every revision captured after a tick carries the report of that tick |
| `IncidentCapture.EnqueueKeepsFirst` | crates/l2-loop-agent/src/observation.rs:566-570 | the queue keeps the first jobs in order up to thirty-two and drops the rest |
| `IncidentCapture.RingShowsNoGapIff` | crates/l2-loop-agent/src/observation.rs:530-545 | the ring shows the recorder no gap exactly while the recorder is at most sixteen transitions behind |
| `IncidentCapture.CaptureSeesNoGap` | crates/l2-loop-agent/src/observation.rs:530-570 | from such a ring the recorder takes every transition up to the first refusal, which is never a gap |
| `IncidentCapture.EmitsBelowLimitIff` | crates/l2-loop-agent/src/incident.rs:186-217 | an open incident emits its next revision exactly while it has fewer than sixteen, and at sixteen nothing moves |
| `IncidentCapture.LimitIsForGood` | crates/l2-loop-agent/src/incident.rs:198-201 | an incident at sixteen revisions is never closed and nothing is emitted until the identity is reset |
| `IncidentCapture.FlappingReachesTheLimit` | crates/l2-loop-agent/src/incident.rs:159-230 | sixteen transitions of a storm that comes and goes, each of which emits, bring a new recorder to that limit, and the closing one is refused |
| `IncidentQueue.GapIffLost` | crates/l2-loop-agent/src/incident_output.rs:58-76 | in every run of recorder, both bounded queues and writer, a put reports a gap exactly when a revision of the same event was lost before it (dropped by a queue, refused by retention, or too large), and otherwise stores it or finds it too large |
| `IncidentQueue.LostEventStaysOpen` | crates/l2-loop-agent/src/incident_output.rs:231-243 | an event that lost a revision stays open in the store, before the loss, and so is never deleted |
| `IncidentStall.StallMakesAGap` | crates/l2-loop-agent/src/daemon.rs:566-574 | thirty-four ticks against a stalled writer fill the channel and lose two revisions, and the next one of that event is a gap |
| `Fnv.HashWithLength` | crates/l2-loop-common/src/fingerprint.rs:33-43 | the hashing loop absorbs length and prefix, and refuses a prefix of the wrong length |
| `Fnv.HashFrame` | crates/l2-loop-common/src/fingerprint.rs:27-31 | a frame is hashed over its first sixty bytes, and none longer than sixteen bits of length |
| `Fnv.TimesPrimeIsInjective` | crates/l2-loop-common/src/fingerprint.rs:50-52 | multiplication by the FNV prime modulo 2^64 loses nothing |
| `Fnv.MixKeepsHashes` | crates/l2-loop-common/src/fingerprint.rs:50-52 | one step never merges two hashes |
| `Fnv.MixKeepsBytes` | crates/l2-loop-common/src/fingerprint.rs:50-52 | one step never merges two bytes |
| `Fnv.FingerprintsDiffer` | crates/l2-loop-common/src/fingerprint.rs:27-52 | frames of one length whose hashed prefixes differ in exactly one byte never share a fingerprint |
| `Fnv.FingerprintIsPlainHash` | crates/l2-loop-common/src/fingerprint.rs:27-52 | the fingerprint is the plain hash of the two length bytes, high byte first, and at most sixty bytes of the frame |
| `Fnv.LengthsTellApart` | crates/l2-loop-common/src/fingerprint.rs:45-52 | frames with the same hashed bytes whose lengths differ in exactly one of the two length bytes never share a fingerprint |

## Findings

- The journal validator does not compare the step counter with the entries once a rollback has begun
  (`JournalRuns.RollbackStepsAreUnchecked`), accepts applied entries in any place before the first reverted one
  (`JournalRuns.AppliedAnywhereIsUnchecked`) and accepts a rollback that calls itself impossible, which is then closed
  with its objects in place (`JournalRuns.ImpossibleRollbackIsUnchecked`). `JournalRuns.ReachabilityMeetsValidation`
  gives the exact condition.
- Rollback is refused when the run itself made /var/lib around the journal directory, which stays
  (`InstallRuns.StateInsideNewVarLib`, exactly then by `InstallRuns.RollbackUndoesInstallation`). The installer does
  not get there, because publishing its journal needs /var/lib (`InstallRuns.BootstrapUnblocks`).
- A stop between an effect and its record is not repaired: an object applied and not recorded stays or pins the
  directory made around it (`InstallRuns.UnrecordedApplication`), and an undo performed and not recorded makes every
  later rollback fail (`InstallRuns.UnrecordedUndo`, `InstallRuns.ResumedAfterUndo`).
- A fingerprint window is refused when a relation grows in both directions and no egress packet does
  (`FingerprintConservation.ByteOnlyGrowthIsRefused`, `FingerprintConservation.BuildSucceedsIff`).
- Recovery counts empty event directories towards its limit of a thousand, so directories left by repeated crashes
  hide readable events (`StoreFaults.HiddenEvent`, `StoreFaults.RepeatedCrashesHideAnEvent`; exactly when by
  `StoreRuns.RecoverAgreesIff`).
- A failed final sync leaves the tree one revision ahead of memory until the next recovery
  (`StoreRuns.UnsyncedPutIsAhead`), and a failed deletion leaves the books too high (`StoreExamples.BooksDrift`; by how
  much in `StoreFaults.FailedRetentionBooks`). `StoreFaults.RunsWithoutRestart` gives both exactly over whole runs.
- A deletion whose last sync fails leaves an event without a directory in the index, and from then on every revision
  is refused until a restart (`StoreExamples.RetentionGetsStuck`, `StoreFaults.StuckForGood`).
- A closed event whose deletion is cut short can come back open (`StoreExamples.ClosedEventReopens`, exactly when by
  `StoreFaults.CutShortReopens`).
- An incident that reaches sixteen revisions can no longer be closed (`IncidentCapture.FlappingReachesTheLimit`, for
  good by `IncidentCapture.LimitIsForGood`, exactly then by `IncidentCapture.EmitsBelowLimitIff`).
- A revision lost on its way makes every later one of its event a gap (`IncidentStall.StallMakesAGap`, exactly then by
  `IncidentQueue.GapIffLost`), and the event stays open in the store for good (`IncidentQueue.LostEventStaysOpen`).
- A cursor for every interface is hashed like one for the interface named by a lone dash
  (`EvidenceText.NoFilterIsADash`), a name that the program allows, and is accepted for it.
- The sixtieth sample of a series is learned even when it is judged elevated (`BaselineMeaning.EndpointMeaning`).
- Evidence stored by the installed daemon makes the rollback of its installation fail
  (`InstallForeign.EvidenceRefusesRollback`, exactly when by `InstallForeign.ForeignRollback`).

## Left out

- SamplingFailures.IntegrityFailureForgets: like the other statements on single ticks it takes a tick whose clock leaves room for one more analysis period in 64 bits; beyond that a due tick is rejected and changes nothing (`Sampling.SamplingService.TakeTick`).
- SamplingIndependence.NothingComesBack: what may differ afterwards is the record of the past alone: transitions with their numbers, the instant at which the published state began, and until the next good sample the failure count and the last success.
- StoreMeaning.PutMeans: stated for encoded manifests that stay below one mebibyte, as those of the program do.
- DetectionRuns.EngineIsTotal: like the other run theorems of the engine it takes runs of fewer than 2^64 calls, so that the transition sequence cannot overflow; the overflow itself is modelled in `Detection.DetectionEngine.AppendTransition`.
- StoreRuns.RunsAgree: its restarts read all of the tree (what happens otherwise is `StoreRuns.RecoverAgreesIff`), retention is stated for free space that does not overflow 64 bits when reclaimed bytes are added, and encoded manifests that stay below one mebibyte.
- StoreRuns.RetentionIsLeast: stated for exact books and without input/output faults; what a fault leaves is `StoreFaults.FailedRetentionBooks`.
- Store.EvidenceStore.EnforceRetention: the check of the root directory is not part of the model; a wrong mode or owner of an event directory counts as an input/output fault, and the second look at the recorded size of an indexed event, which nothing can have changed in between, is not part of the model.
- Store.EvidenceStore.PutRevision: the check of the root directory's type, mode and owner is not part of the model.
- FingerprintScans.AcceptScan: decides which scans are accepted; the counts of the report are in `FingerprintReports.BuildReport`, and its texts are not part of the model.
- Journal.InstallJournal.Validate: artifact bindings, fixed destination paths and the schema version are fields that no transition reads, and are not part of the model.
- Evidence.WalkEvent: ownership and permission bits, unknown names and the counters of corrupt, incomplete and unknown objects are not part of the model; a digest is modelled as the digested value itself.
- Sampling.SamplingService.TakeTick: the incident capture at the end of a tick is modelled by itself in `IncidentCapture`, the snapshot it caches is a parameter there; request-driven observation, status summaries and a service that was never started are not part of the model.
- The JSON encodings, SHA-256, the Unix socket server, timers, alert sinks, command line and rendering.
- InstallTree.Filesystem.Perform: a directory's link count is two plus its subdirectories; temporary and backup names never equal a fixed name in their directory; extended attributes, security labels and who owns the directories on the way are not part of the model.
- JournalRollback.RollbackJournal: a failed write of the journal between two actions is not among its outcomes; it is the stop of `InstallRuns.UnrecordedUndo`.
- InstallForward.InstallationCompletes: the journal's own transaction directory, first in /var/lib and then in the transactions directory, is not part of the tree; the directories around it are retained or were there before.
- IncidentQueue.GapIffLost: its retentions and puts are free of input/output faults, for which `StoreFaults.RunsWithoutRestart` is stated.
- InstallRuns.UnrecordedApplication: stops lie between an effect and its record, not between the file-system calls inside one application or one undo.
- The Linux adapters apart from that tree and an atomic rename that never replaces.
- The install planner, deployment and installation gate reports, attach sequencing and packet classification, which would add only field checks and fixed offsets.
