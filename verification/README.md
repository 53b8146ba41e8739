# hyperview, verified

hyperview watches KVM guests: it discovers VMs, polls their monitors, measures scheduler delay in
the kernel, raises alerts, writes them to the journal and draws tables. This project models the parts
of it that carry guarantees over whole runs, and proves those guarantees in Dafny.

`dafny verify dfyconfig.toml` checks everything.

| part | modules |
|---|---|
| alert engine | `AlertRules`, `AlertKey`, `AlertState`, `AlertInvariants`, `AlertTheorems`, `AlertProjection`, `AlertSummaries`, `AlertOccurrences`, `AlertReports`, `AlertEngine` |
| latency histograms and the run-queue probe | `Powers`, `Histogram`, `Percentiles`, `HistWindows`, `RunQueue` |
| QMP background polling | `Qmp` |
| column layout | `Layout` |
| domain store, discovery, rates | `Store`, `Poller`, `Rates` |
| record formats | `Bytes`, `Journal`, `Kmsg` |
| shared units and small facts | `Units`, `Options`, `Sequences` |

How it is built:

- Objects that the program updates in place are classes (`AlertEngine.Engine`, `Histogram.HistMap`,
  `RunQueue.RunqProbe`, `HistWindows.HistWindow`, `Qmp.QMPCollector`, `Store.RingBuffer`, `Store.Entry`,
  `Store.DomainStore`, `Poller.Poller`, `Rates.RateTracker`). Those that stand for a whole run keep a ghost
  record of the calls made on them, and their `Valid()` says that their fields are what a pure function of
  those calls gives. The theorems are about that function, so they hold of the object after every run.
- The alert engine keeps its alerts on the heap, shared by pointer between the conditions, the
  deduplication table and the history, as the program does.
- Concurrency in the QMP collector is a state machine with one step per critical section. Steps
  interleave freely, so every theorem about runs is about every interleaving.
- Where the order of a Go map iteration could matter, the order is an arbitrary walk over the keys.
- `float64` is `real`; `uint64` counters wrap where the text says so; instants and durations are integers
  in nanoseconds, with 0 for Go's zero time.

Where the code and its documentation differ, the model follows the code:

- `docs/architecture.md:143` promises a summary whenever the window of a repeated event closes. An
  occurrence that arrives after the window and before the next tick replaces the old entry without one
  (`internal/alert/alert.go:212`, `internal/alert/alert.go:232`). `AlertSummaries.SummaryIff` and
  `AlertSummaries.SummaryLostIff` say exactly when each happens, and `AlertSummaries.SummaryLost` gives a run.
- The continuation fields of a kernel log record are not unescaped, though its message is
  (`internal/kmsg/kmsg.go:92-99`). `Kmsg.FieldExactIff` gives the exact condition.
- The comment in `layout` says that leftovers of capped columns go to the others
  (`internal/tui/format.go:253-254`). A column that starts at its limit keeps its weight in the first pass,
  which can then hand out nothing and be the last. `Layout.PassesLeaveLittleIff` gives the exact condition and
  `Layout.StarvedTable` a table.
- The comment on `HistSlots` says slot i holds latencies below 2^(i+1) µs; the last slot also holds
  everything above (`internal/bpf/src/hyperview.bpf.c:266-267`). `Percentiles.WithinTwoIff` says for exactly which
  order statistics every printed percentile is within a factor of two.

## Model

| member | source | states |
|---|---|---|
| `AlertRules.BandsDisjointIff` | internal/alert/alert.go:109-139 | no value is both under the clear level and over a threshold, exactly when no enabled threshold lies beyond the clear level |
| `AlertRules.OrderedKeepsClearLevelOutside` | internal/alert/alert.go:109-139 | nonnegative thresholds in their documented order always meet that condition, for every clear ratio in (0, 1] |
| `AlertRules.OverlapValue` | internal/alert/alert.go:109-139 | otherwise some value is in both bands |
| `AlertRules.SeverityIff` | internal/alert/alert.go:109-126 | a value is Critical exactly when it reaches an enabled critical threshold, and Warning exactly when it reaches an enabled warning threshold only |
| `AlertRules.SeverityMonotone` | internal/alert/alert.go:109-126 | a worse value never has a lower severity, in either direction |
| `AlertRules.ClearIff` | internal/alert/alert.go:130-139 | a value is clear exactly when it is strictly better than the clear level, which lies ClearRatio away from the lowest enabled threshold |
| `AlertRules.KeyIdentifies` | internal/alert/alert.go:104-106 | the key tells rule, domain and subject apart where no rule or domain has the separator in it |
| `AlertRules.KeyCollides` | internal/alert/alert.go:104-106 | otherwise two conditions can share a key |
| `AlertKey.StepRecords` | internal/alert/alert.go:274-318 | one sample, or its absence, keeps the timers at the start of the current severity run and of the current clear run, and emits exactly the transition that the history calls for |
| `AlertKey.MachineRefinesHistory` | internal/alert/alert.go:241-328 | for every stream of observations the incremental state is the one implied by the whole history (raise: one unchanged severity over an uninterrupted run spanning RaiseAfter; clear: a clear run since the raise spanning ClearAfter), and so are all transitions |
| `AlertKey.FiringBeganRaised` | internal/alert/alert.go:281-295 | a firing phase began with one Raised and lasted without a break |
| `AlertKey.RaisedThenCleared` | internal/alert/alert.go:299-307 | a Cleared caused by a value comes at least ClearAfter after the Raised it ends, with only escalations between |
| `AlertKey.ClearedThenRaised` | internal/alert/alert.go:274-318 | a Raised comes at least RaiseAfter after every earlier Cleared of the key, also if the subject vanished in between |
| `AlertKey.DueNeverFlaps` | internal/alert/alert.go:274-318 | the same, on the sequence of transitions |
| `AlertKey.DueClearsSlowly` | internal/alert/alert.go:299-307 | the same for slow clearing, on the sequence of transitions |
| `AlertKey.NeverFlapsIff` | internal/alert/alert.go:109-139 | a threshold pair flaps on no stream at all exactly when no enabled threshold lies beyond its clear level, or RaiseAfter is at most a nanosecond |
| `AlertKey.RaisedAfterRun` | internal/alert/alert.go:274-296 | a Raised is due only at the end of an uninterrupted run of samples above Info that spans RaiseAfter |
| `AlertKey.ClearedUnderLevel` | internal/alert/alert.go:299-307 | a Cleared of a sampled key is due only under the clear level |
| `AlertKey.HeldFires` | internal/alert/alert.go:274-318 | whatever happened before, one severity held for RaiseAfter is what the key fires at |
| `AlertKey.ThresholdsFire` | internal/alert/alert.go:274-318 | values beyond critical held for RaiseAfter fire at Critical, and values beyond warning only at Warning |
| `AlertKey.FlapStreamFlaps` | internal/alert/alert.go:274-318 | otherwise a constant value raises, clears and raises again at the next tick, whatever ClearAfter is |
| `AlertState.StepWhileFiring` | internal/alert/alert.go:298-318 | the single decision function gives, case by case, what the code does to a firing condition |
| `AlertInvariants.RaiseKeepsInv` | internal/alert/alert.go:200-237 | an event keeps the engine invariant: IDs by creation, one active alert per firing key, each inactive alert pushed to the history once, notices of each ID in their grammar |
| `AlertInvariants.StepKeepsInv` | internal/alert/alert.go:274-318 | so does a condition sample |
| `AlertInvariants.SweepKeyKeepsInv` | internal/alert/alert.go:260-268 | so does forgetting a key that was not sampled |
| `AlertInvariants.ExpireKeyKeepsInv` | internal/alert/alert.go:337-348 | so does closing a deduplication window |
| `AlertInvariants.RunKeepsInv` | internal/alert/alert.go:200-348 | the invariant holds after every run, whatever the timestamps and map orders |
| `AlertTheorems.ConditionLifecycle` | internal/alert/alert.go:241-328 | the notices of a condition ID are Raised, Escalated any number of times with real severity changes and never Info, then exactly one Cleared with the final alert once it is inactive |
| `AlertTheorems.EventLifecycle` | internal/alert/alert.go:200-237 | the notices of an event ID are Raised and Repeated with counts 1, 2, …, then at most one summary, carrying the final count, only if there was a repeat and only once it left the table |
| `AlertTheorems.EventsConserved` | internal/alert/alert.go:200-237 | for each key, the counts of all event alerts ever created add up to the unmuted Raise calls for the key |
| `AlertTheorems.RaiseCounts` | internal/alert/alert.go:212-232 | one unmuted Raise adds one occurrence to its own key and none to others |
| `AlertTheorems.TickOrder` | internal/alert/alert.go:241-272 | a tick announces first what its samples change, then what is cleared because it was not sampled, then the summaries |
| `AlertProjection.EvaluateProjects` | internal/alert/alert.go:241-272 | one tick moves each key exactly as the single-key machine moves on the key's own observation |
| `AlertProjection.RunMirrors` | internal/alert/alert.go:241-328 | over every orderly run, state and transitions of a key are those of the single-key machine |
| `AlertProjection.TrackedAreSampled` | internal/alert/alert.go:260-268 | after every Evaluate the tracked keys are exactly the unmuted keys sampled that tick |
| `AlertProjection.EngineRefinesHistory` | internal/alert/alert.go:241-328 | the engine fires a key, at the severity, exactly when the key's whole sample history says so, and its log holds exactly the transitions due |
| `AlertProjection.EngineNeverFlaps` | internal/alert/alert.go:241-328 | in the log of every orderly run, a Raised comes at least RaiseAfter after every earlier Cleared of its key |
| `AlertProjection.EngineClearsSlowly` | internal/alert/alert.go:298-307 | in that log, a value-based Cleared comes at least ClearAfter after the Raised it answers |
| `AlertSummaries.TickClosesIff` | internal/alert/alert.go:337-348 | a tick removes an event from the table exactly when its window has closed by then, and summarizes it if it repeated |
| `AlertSummaries.RaiseReplacesIff` | internal/alert/alert.go:200-237 | an occurrence replaces an entry exactly when it is unmuted, has its key and comes after its window; the old alert gets no notice |
| `AlertSummaries.SummaryIff` | internal/alert/alert.go:337-348 | a repeated event gets its summary from an operation exactly when that is a tick at or after the end of its window |
| `AlertSummaries.SummaryLostIff` | internal/alert/alert.go:212-232 | it leaves the table without one exactly when an unmuted occurrence of its key comes at or after the end of its window |
| `AlertSummaries.SummaryIffTick` | internal/alert/alert.go:337-348 | of the operations that remove a repeated event, exactly the ticks summarize it |
| `AlertSummaries.SummaryLost` | internal/alert/alert.go:212-232 | a run in which a repeated event gets no summary |
| `AlertOccurrences.DefaultsOnly` | internal/alert/alert.go:204-210 | an event without a time or a key gets the clock and the key of its rule, domain and subject, and nothing else of it changes |
| `AlertOccurrences.EventsTold` | internal/alert/alert.go:200-237 | over every run, each event alert stands for consecutive occurrences of its key, each within the window of the one before: it began with the first, shows time, message and value of the latest, counts them and is as severe as the worst |
| `AlertOccurrences.LiveEventTold` | internal/alert/alert.go:212-232 | a live one stands for all occurrences up to the latest |
| `AlertOccurrences.TickKeepsEntry` | internal/alert/alert.go:337-348 | a tick within the window leaves the entry and its alert alone |
| `AlertOccurrences.SlidingIsOneAlert` | internal/alert/alert.go:212-232 | occurrences that each come within the window of the one before, with no tick after a window, are one alert with their number as its count, whatever they span |
| `AlertReports.ConditionsReport` | internal/alert/alert.go:274-328 | over every orderly run, each condition alert names the condition as sampled first, shows value, name and time of its last sample and the message of its last sample that was not clear, and ended at that sample or because the subject was gone at the next tick |
| `AlertReports.FirstIsRaised` | internal/alert/alert.go:285-292 | a firing alert has the time of the tick that raised it as its start |
| `AlertReports.FiringReports` | internal/alert/alert.go:274-318 | a firing alert shows the latest sample, at the severity and since the tick that the sample history says |
| `AlertEngine.Engine.constructor` | internal/alert/alert.go:161-173 | a new engine holds the empty state |
| `AlertEngine.Engine.NewAlert` | internal/alert/alert.go:225-226 | allocates a new object under the next ID and leaves the rest of the state alone |
| `AlertEngine.Engine.PushHistory` | internal/alert/alert.go:330-335 | the history becomes the last History pushes, in order |
| `AlertEngine.Engine.MergeEvent` | internal/alert/alert.go:212-224 | a repeat updates the shared object, so the table and the history both show it |
| `AlertEngine.Engine.InsertEvent` | internal/alert/alert.go:225-237 | one object enters the table and the history |
| `AlertEngine.Engine.Raise` | internal/alert/alert.go:200-237 | the heap then holds the state of the run extended by this call, and the notices returned are those appended to the log |
| `AlertEngine.Engine.ResolveCond` | internal/alert/alert.go:320-328 | closes the alert, moves it to the history and returns its Cleared notice |
| `AlertEngine.Engine.StepCond` | internal/alert/alert.go:274-318 | one sample takes the heap to the state after that sample |
| `AlertEngine.Engine.FeedSamples` | internal/alert/alert.go:244-259 | the loop over the samples, muted ones skipped |
| `AlertEngine.Engine.SweepStale` | internal/alert/alert.go:260-268 | the loop over the conditions, in any order, each key once |
| `AlertEngine.Engine.ExpireEvents` | internal/alert/alert.go:337-348 | the loop over the deduplication table, in any order, each key once |
| `AlertEngine.Engine.Evaluate` | internal/alert/alert.go:241-272 | the heap then holds the state of the run extended by this tick, walked completely, and the notices returned are those appended to the log |
| `AlertEngine.Engine.IdsIdentify` | internal/alert/alert.go:225-226 | IDs are between 1 and nextID, and two alerts have the same ID only if they are the same object |
| `AlertEngine.Engine.FiringNotInHistory` | internal/alert/alert.go:320-335 | a firing condition owns an active alert of its key that is not in the history |
| `AlertEngine.Engine.HistoryIndex` | internal/alert/alert.go:330-335 | every history entry is inactive and was pushed |
| `AlertEngine.Engine.PushedOnceEach` | internal/alert/alert.go:330-335 | no object was ever pushed twice |
| `AlertEngine.Engine.HistoryIsDistinct` | internal/alert/alert.go:330-335 | the entries of the history are pairwise distinct |
| `AlertEngine.Engine.LiveEventIsShared` | internal/alert/alert.go:200-237 | a history entry with the ID of a live event is the same object as in the table |
| `AlertEngine.Engine.TracksSampled` | internal/alert/alert.go:260-268 | after a tick, the object's condition map has exactly the unmuted keys sampled in it |
| `AlertEngine.Engine.RefinesHistory` | internal/alert/alert.go:241-328 | the object fires a key, at the severity, exactly when the key's whole sample history says so, and generated exactly the transitions due |
| `AlertEngine.Engine.NeverFlaps` | internal/alert/alert.go:241-328 | among the notices the object generated, a Raised comes at least RaiseAfter after every earlier Cleared of its key |
| `AlertEngine.Engine.ClearsSlowly` | internal/alert/alert.go:298-307 | and a value-based Cleared at least ClearAfter after the Raised it answers |
| `AlertEngine.Engine.ThresholdsFire` | internal/alert/alert.go:241-318 | whatever happened before, values beyond critical held for RaiseAfter leave the object firing the key at Critical, and values beyond warning only at Warning |
| `AlertEngine.Engine.EventShows` | internal/alert/alert.go:200-237 | the object of a live event shows its first and latest occurrence, their number and the worst severity |
| `AlertEngine.Engine.ConditionShows` | internal/alert/alert.go:274-318 | the object of a firing condition shows the latest sample |
| `AlertEngine.Engine.ConditionLifecycleOf` | internal/alert/alert.go:241-328 | the notices of every condition object follow the lifecycle and end where the object stands |
| `AlertEngine.Engine.EventLifecycleOf` | internal/alert/alert.go:200-237 | so do those of every event object, summarized only once the table no longer holds it |
| `Histogram.Log2l` | internal/bpf/src/hyperview.bpf.c:241-252 | the shift loop computes the floor of the base-2 logarithm for every 64-bit value |
| `Histogram.HistMap.Add` | internal/bpf/src/hyperview.bpf.c:255-273 | adds one latency to its slot, the count, the sum and the maximum of the key's histogram, creating it if needed, and touches no other key |
| `Histogram.HistMap.Delete` | internal/bpf/src/hyperview.bpf.c:567-567 | removes the key's histogram and no other |
| `Histogram.SlotCounts` | internal/bpf/src/hyperview.bpf.c:265-268 | each slot holds the number of latencies that fall into it |
| `Histogram.CountTotal` | internal/bpf/src/hyperview.bpf.c:269-269 | the count is the number of latencies |
| `Histogram.SumTotal` | internal/bpf/src/hyperview.bpf.c:270-270 | the sum is the true sum modulo 2^64 |
| `Histogram.MaxTotal` | internal/bpf/src/hyperview.bpf.c:271-272 | the maximum is the true one |
| `Percentiles.Sub` | internal/probe/hist.go:27-45 | slot-wise 64-bit difference with the highest non-empty slot giving the maximum, or the newer histogram after a reset |
| `Percentiles.DifferenceExact` | internal/probe/hist.go:27-45 | for a snapshot and a later one of the same record, the difference has the slots, the count and the sum of precisely the latencies in between |
| `Percentiles.DifferenceAfterReset` | internal/probe/hist.go:28-30 | after a reset the difference is the histogram of the whole new record |
| `Percentiles.MaxEstimateBounds` | internal/probe/hist.go:27-45 | its maximum is not below the true window maximum exactly when that is at most 2^27, and at most twice it when that is at least 1 |
| `Percentiles.Percentile` | internal/probe/hist.go:56-77 | the walk over the slots finds the first non-empty one whose running total reaches q·n and interpolates there; 0 without samples; 2^27 if none does |
| `Percentiles.PrintsOnce` | internal/probe/hist.go:56-77 | histogram and quantile decide that number |
| `Percentiles.EvenInSlot` | internal/probe/hist.go:66-73 | for two ranks in one slot, the percentiles differ by the slot's width times the difference of ranks over the samples in the slot |
| `Percentiles.SlotEnds` | internal/probe/hist.go:66-73 | a rank that is the running total at the end of a slot gives the upper end of its range |
| `Percentiles.PrintedEvenly` | internal/probe/hist.go:56-77 | the same of two printed quantiles that share a slot |
| `Percentiles.PrintedAtSlotEnd` | internal/probe/hist.go:56-77 | the same of a printed quantile at the end of a slot |
| `Percentiles.PrintedAtTheEnds` | internal/probe/hist.go:56-77 | without samples 0 is printed, and for a quantile above 1 the number 2^27 |
| `Percentiles.FallsThroughIff` | internal/probe/hist.go:56-77 | the final return is reached exactly for q above 1 |
| `Percentiles.RecordedIsConsistent` | internal/bpf/src/hyperview.bpf.c:255-273 | the count of a recorded histogram is the total of its slots |
| `Percentiles.RankExists` | internal/probe/hist.go:56-60 | every quantile in (0, 1] of a nonempty record has its rank ceil(q·n) between 1 and n |
| `Percentiles.RankLandsAtOrderStatistic` | internal/probe/hist.go:56-77 | the slot reached is that of the true ceil(q·n)-th smallest latency |
| `Percentiles.PercentileOfRecord` | internal/probe/hist.go:56-77 | the percentile lies in that slot's range |
| `Percentiles.PercentileOfWindow` | internal/probe/hist.go:27-77 | the same after subtraction, for the latencies recorded since the older snapshot |
| `Percentiles.PercentileWithinTwo` | internal/probe/hist.go:27-77 | so it is within a factor of two of the true order statistic, if that is from 2 to 2^27 µs |
| `Percentiles.OneSamplePrints` | internal/probe/hist.go:27-77 | the window of one latency prints a value that the quantile alone places in its slot |
| `Percentiles.WithinTwoIff` | internal/probe/hist.go:27-77 | every window and quantile with order statistic x prints a value within a factor of two of it, exactly when x is from 2 to 2^27 µs |
| `Percentiles.PercentileSaturates` | internal/probe/hist.go:27-77 | from 2^27 µs on it never exceeds 2^27, and above 2^28 it is less than half the true value |
| `Percentiles.PercentileMonotone` | internal/probe/hist.go:56-77 | a higher quantile in (0, 1] never gives a lower percentile |
| `HistWindows.Prune` | internal/probe/hist.go:105-107 | drops snapshots from the front only while the next one is at least minAge old, and all such |
| `HistWindows.PrunedBase` | internal/probe/hist.go:104-109 | for nondecreasing times, the base found among the kept snapshots is the base among all snapshots ever taken of the key |
| `HistWindows.BaseUnique` | internal/probe/hist.go:104-107 | there is one base: the newest snapshot at least minAge old, or else the oldest |
| `HistWindows.KeptNext` | internal/probe/hist.go:104-109 | dropping what precedes the base never loses a later base, and at most one kept snapshot is minAge old |
| `HistWindows.HistWindow.Window` | internal/probe/hist.go:97-110 | for nondecreasing times, the difference to the base among every snapshot since the key was first seen or last swept; empty on the first call |
| `HistWindows.HistWindow.Sweep` | internal/probe/hist.go:113-120 | exactly the keys seen since the previous sweep survive, unchanged |
| `HistWindows.WindowedPercentile` | internal/probe/hist.go:27-110 | the whole pipeline: the printed percentile lies in the power-of-two bucket of the true order statistic of the latencies recorded since the base snapshot |
| `RunQueue.RunTracks` | internal/bpf/src/hyperview.bpf.c:515-567 | over every schedule the probe's timer of a targeted thread runs exactly while the thread is queued, since it was last enqueued |
| `RunQueue.RunQueueAccounting` | internal/bpf/src/hyperview.bpf.c:515-567 | over every schedule, one latency per completed wait, each the wait since the last enqueue in whole microseconds; the true waiting time is 1000 times their sum, plus the time lost to enqueuing again, plus less than 1000 ns per wait |
| `RunQueue.ShortByLittleIff` | internal/bpf/src/hyperview.bpf.c:515-567 | the recorded time is never more than the true one, and short by less than 1000 ns per wait exactly when lost time and rounding stay below that, in each wait and in all |
| `RunQueue.NeverRequeuedLosesNothing` | internal/bpf/src/hyperview.bpf.c:515-557 | a thread that is never enqueued while queued loses nothing |
| `RunQueue.NeverRequeuedIsExact` | internal/bpf/src/hyperview.bpf.c:515-567 | so its recorded time is short by less than 1000 ns per wait |
| `RunQueue.RunQueueHistogram` | internal/bpf/src/hyperview.bpf.c:515-567 | the same accounts, read off count and sum of the thread's histogram |
| `RunQueue.RequeueLosesTime` | internal/bpf/src/hyperview.bpf.c:515-523 | a second wakeup of a queued thread loses the whole wait before it |
| `RunQueue.ExitForgets` | internal/bpf/src/hyperview.bpf.c:559-567 | the exit of a targeted thread removes it from both maps and touches no other thread |
| `RunQueue.ReusedPidStartsAfresh` | internal/bpf/src/hyperview.bpf.c:515-567 | a thread that gets the number of one that exited starts afresh: the maps hold of it what the events since the exit give |
| `RunQueue.AccountingAfterExit` | internal/bpf/src/hyperview.bpf.c:515-567 | so the accounts of a thread hold from the last exit under its number on |
| `RunQueue.RunqProbe.SchedWakeup` | internal/bpf/src/hyperview.bpf.c:515-537 | the maps are then those of the event sequence extended by this wakeup |
| `RunQueue.RunqProbe.SchedSwitch` | internal/bpf/src/hyperview.bpf.c:539-557 | likewise for a context switch |
| `RunQueue.RunqProbe.SchedProcessExit` | internal/bpf/src/hyperview.bpf.c:559-567 | likewise for a thread exit |
| `Qmp.BlockRates` | internal/collect/qmp.go:145-176 | one entry per named device, with rates against the last block of that name in the previous result, which is read only where it exists |
| `Qmp.LastNamedIff` | internal/collect/qmp.go:146-151 | the previous block of a device is the last of its name |
| `Qmp.DiskAccounts` | internal/collect/qmp.go:152-173 | each of the four rates times the elapsed seconds is the increase of the counter it is named after, or 0 after a reset, without elapsed time or without a previous block |
| `Qmp.DisksOfNamed` | internal/collect/qmp.go:160-175 | there is one entry per named device, in their order |
| `Qmp.NextKeeps` | internal/collect/qmp.go:82-142 | every critical section keeps: one poll in flight per marked VM and none otherwise; everything polled, stored or awaited was tried; stores of a VM in nondecreasing time order |
| `Qmp.RunKeepsInv` | internal/collect/qmp.go:82-142 | so these hold over every interleaving |
| `Qmp.FinishStores` | internal/collect/qmp.go:127-142 | a successful poll stores what it brought back and touches no other result; a failed one touches none |
| `Qmp.LastBroughtIsStored` | internal/collect/qmp.go:82-142 | over every interleaving, the last result brought back of a VM since it was last forgotten is stored, with its disk rates against the result before |
| `Qmp.StoredWasBrought` | internal/collect/qmp.go:82-142 | and nothing else is stored |
| `Qmp.WarnedIff` | internal/collect/qmp.go:131-139 | a socket is marked as warned about exactly when the last poll over it to end failed |
| `Qmp.PollsAreTargeted` | internal/collect/qmp.go:82-106 | a poll in flight is over the socket that a collection named for its VM |
| `Qmp.BeginPollsIff` | internal/collect/qmp.go:82-91 | the start of a collection polls exactly the targets never tried before, and waits for them |
| `Qmp.EndPollsIff` | internal/collect/qmp.go:97-123 | its end polls exactly the targets without a result younger than the interval that are not being polled, and forgets exactly what is neither a target nor being polled |
| `Qmp.EndCovers` | internal/collect/qmp.go:97-124 | when a collection ends, each of its VMs is being polled or has a result younger than the interval, and nothing else is remembered unless it is being polled |
| `Qmp.AppliedAreFresh` | internal/collect/qmp.go:107-116 | exactly the targets' results at most three intervals old are applied |
| `Qmp.QMPCollector.BeginCollect` | internal/collect/qmp.go:82-91 | the first critical section is its protocol step, and returns the VMs to wait for |
| `Qmp.QMPCollector.EndCollect` | internal/collect/qmp.go:97-124 | the second critical section is its protocol step, and applies the young results |
| `Qmp.QMPCollector.ForgetGone` | internal/collect/qmp.go:118-123 | drops exactly the tried VMs that are neither targets nor being polled |
| `Qmp.QMPCollector.FinishPoll` | internal/collect/qmp.go:127-142 | the end of a poll is its protocol step |
| `Layout.HideColumns` | internal/tui/format.go:232-247 | terminates; hides an initial part of the priority order, no longer than needed, and enough unless everything hideable is hidden |
| `Layout.FindDrop` | internal/tui/format.go:233-239 | finds the visible column of lowest positive priority, leftmost among equals |
| `Layout.HiddenUnique` | internal/tui/format.go:232-247 | table and width decide what is hidden: no visible hideable column is outranked by a hidden one, and undoing the last hide would overflow |
| `Layout.HiddenRankLowest` | internal/tui/format.go:232-247 | what is hidden was visible and has a priority; no visible column with a lower one, or the same one and further left, stays |
| `Layout.FitsIfPossible` | internal/tui/format.go:232-247 | the remaining columns fit exactly when the columns that are never hidden fit |
| `Layout.SharePass` | internal/tui/format.go:261-276 | one pass widens each growing column by its share, and counts what was given and what weight remains |
| `Layout.ShareIsLargest` | internal/tui/format.go:264-271 | a share is the largest whole number of cells within the column's weighted part and its limit |
| `Layout.ReachesLimit` | internal/tui/format.go:267-271 | a column whose part reaches the room below its limit ends the pass at the limit |
| `Layout.WidenAllGrows` | internal/tui/format.go:261-276 | a pass changes only widths of flexible columns, never shrinks one and never passes a limit |
| `Layout.SharedCells` | internal/tui/format.go:261-276 | the cells given are the cells the columns grew by |
| `Layout.SharedFits` | internal/tui/format.go:267-267 | with rounding down, the shares together stay within what their weights entitle them to |
| `Layout.SharedAtMostSpare` | internal/tui/format.go:261-276 | so a pass never hands out more than there is |
| `Layout.PassLeavesLittle` | internal/tui/format.go:261-276 | where no limit cuts a share short, a pass leaves fewer cells than there are growing columns |
| `Layout.PassesAreSafe` | internal/tui/format.go:260-282 | over any number of passes, growth is exactly the spare cells used up, and spare never goes negative |
| `Layout.PassesLeaveLittleIff` | internal/tui/format.go:260-282 | unless the three passes are used up, they leave fewer cells than columns below their limit, or no such column, exactly when the start is not starved: not every growing column's first share rounds to nothing while there are cells for all of them |
| `Layout.LayoutFillsIff` | internal/tui/format.go:248-284 | the same of the cells left over on the finished table |
| `Layout.RoomNeverStarves` | internal/tui/format.go:248-284 | nothing starves where every flexible column has room between its minimum and its limit, as in every table of the program |
| `Layout.StarvedTable` | internal/tui/format.go:248-284 | a table that starves: a heavy column at its limit keeps a light one from growing into 50 spare cells |
| `Layout.ShareSpare` | internal/tui/format.go:260-282 | the loop is at most three such passes, stopping early where the code stops |
| `Layout.Layout` | internal/tui/format.go:218-284 | for all columns, hides the unique right ones and widens the rest by the three passes; for nonnegative weights, limits and minimums, each column that stays is as it was if fixed, or between its minimum and its limit if flexible, and if the need fits, the rendered widths with separators total at most w |
| `Layout.WidthsFit` | internal/tui/format.go:248-284 | those widths keep the bounds and fit |
| `Store.RingBuffer.Push` | internal/store/ring.go:16-23 | the buffer then holds the last `size` values of all pushed ones with this one |
| `Store.RingBuffer.Slice` | internal/store/ring.go:26-36 | those values, oldest first |
| `Store.RotatedPush` | internal/store/ring.go:20-21 | overwriting at pos and advancing drops the oldest value and appends the new one |
| `Store.Total` | internal/store/domain.go:122-128 | the sum over the vCPUs |
| `Store.SumAppend` | internal/store/domain.go:122-144 | a total over two parts is the sum of theirs |
| `Store.NetRates` | internal/store/domain.go:130-136 | the received and the sent totals over the interfaces |
| `Store.DiskRates` | internal/store/domain.go:138-144 | the read and the write totals over the disks |
| `Store.Entry.Commit` | internal/store/domain.go:267-278 | stamps the snapshot and adds one value to each of the seven series, all from the same snapshot |
| `Store.Entry.History` | internal/store/domain.go:312-320 | the seven series of the last 120 points |
| `Store.DomainStore.Upsert` | internal/store/domain.go:225-235 | the store is then that of the call sequence extended by this call |
| `Store.DomainStore.Mutate` | internal/store/domain.go:238-247 | likewise; reports whether the id was known |
| `Store.DomainStore.Retain` | internal/store/domain.go:250-261 | likewise; lists exactly the dropped ids, each once |
| `Store.DomainStore.Commit` | internal/store/domain.go:264-279 | likewise, for every domain |
| `Store.DomainStore.History` | internal/store/domain.go:305-321 | the seven series of the domain's last 120 points; empty for an unknown id |
| `Store.CommitsAreSeen` | internal/store/domain.go:225-281 | the commits counted for a domain are those after which it was never absent |
| `Store.CommitsInOrder` | internal/store/domain.go:264-281 | they are counted in order, each once |
| `Store.PointsAreCommits` | internal/store/domain.go:225-281 | the points of a domain are one per such commit, in order, each taken from its snapshot at that commit |
| `Store.LatestIsFolded` | internal/store/domain.go:225-247 | the latest snapshot of a VM is what the functions of all Upserts and Mutates since its creation make of an empty one, in their order, with the stamp of the last commit |
| `Store.CommittedNow` | internal/store/domain.go:264-279 | right after a commit the last sample of a VM is that of its latest snapshot, which carries the commit's time |
| `Store.AlignedHistories` | internal/store/domain.go:225-321 | after every run all seven series have min(commits since creation, 120) values, oldest first, and equal positions come from the same commit |
| `Poller.KeysAfterTick` | internal/collect/collector.go:60-91 | a tick adds what the discoverers upsert and keeps only what is alive |
| `Poller.TickEndsCommitted` | internal/collect/collector.go:76-91 | a tick ends with its commit: the last sample of every VM is that of its snapshot as the collectors left it |
| `Poller.GraceInSeconds` | internal/collect/collector.go:27-27 | the grace period is ten seconds |
| `Poller.LastReportIsRemembered` | internal/collect/collector.go:64-68 | what the poller remembers of a discoverer is its last successful result in the run |
| `Poller.RememberedIsLastReport` | internal/collect/collector.go:64-68 | and it remembers nothing else |
| `Poller.DiscoveryGrace` | internal/collect/collector.go:60-91 | after every tick the store holds exactly the union of the last successful results not older than the grace period |
| `Poller.NoBlink` | internal/collect/collector.go:69-74 | a reported VM is in the store after every tick until its discoverer reports again or the grace period is over |
| `Poller.NoneOutlives` | internal/collect/collector.go:69-77 | a VM in the store was reported within the grace period |
| `Poller.Poller.Discover` | internal/collect/collector.go:63-74 | runs one discoverer, remembers a success, and adds its last good result while that is young |
| `Poller.Poller.Tick` | internal/collect/collector.go:60-91 | store and memory are then those of the tick sequence extended by this tick |
| `Poller.Poller.StoreIsVouched` | internal/collect/collector.go:60-91 | so the store's own map has exactly the keys of the discovery theorem |
| `Rates.RemembersLastSeen` | internal/collect/rate.go:24-56 | a key is remembered exactly while at most one sweep has followed its last observation, and what is remembered is that observation |
| `Rates.SurvivesSweepIff` | internal/collect/rate.go:49-56 | a key survives a sweep exactly when it was updated since the previous one |
| `Rates.RateIsNonNegative` | internal/collect/rate.go:24-35 | a rate is never negative, and positive exactly when a remembered counter grew over a positive time |
| `Rates.DeltaIsRateTimesElapsed` | internal/collect/rate.go:24-46 | when the clock advanced, delta is rate times elapsed time |
| `Rates.DeltasConserve` | internal/collect/rate.go:39-56 | in every run, last minus first value is the sum of all deltas, of which the first is 0, plus what resets and sweeps hide |
| `Rates.RatesConserve` | internal/collect/rate.go:24-56 | in every run, last minus first value is the sum of rate times elapsed time plus what resets, sweeps and a standing clock hide |
| `Rates.RatesTelescope` | internal/collect/rate.go:24-56 | for a nondecreasing counter refreshed between every two sweeps at increasing times that sum is last minus first value |
| `Rates.RateTracker.Rate` | internal/collect/rate.go:24-35 | the rate against what is remembered, and the tracker of the extended run |
| `Rates.RateTracker.Delta` | internal/collect/rate.go:39-46 | the increase against what is remembered, and the tracker of the extended run |
| `Rates.RateTracker.Sweep` | internal/collect/rate.go:49-56 | the tracker of the run extended by a sweep |
| `Journal.EncodeRecord` | internal/sink/sink.go:137-149 | the buffer loop produces the concatenated frames: a length-prefixed value if it has a newline, a line otherwise |
| `Journal.LittleEndianRoundTrip` | internal/sink/sink.go:143-143 | the length prefix decodes to the length |
| `Journal.RoundTrip` | internal/sink/sink.go:137-149 | with names that have neither an equals sign nor a newline, decoding returns the field list, whatever bytes are in the values |
| `Journal.DecodedNamesAreLegal` | internal/sink/sink_test.go:76-91 | everything the decoder accepts has such names |
| `Journal.RoundTripIff` | internal/sink/sink.go:137-149 | so nothing is lost exactly when all names are such |
| `Journal.FramesOnTheWire` | internal/sink/sink.go:139-148 | the two frames byte by byte |
| `Kmsg.Unescape` | internal/kmsg/kmsg.go:104-120 | the index loop, with its early return, decodes exactly the whole escapes |
| `Kmsg.UnescapeChangesIff` | internal/kmsg/kmsg.go:104-120 | decoding leaves a text alone exactly when no whole escape is in it |
| `Kmsg.Parse` | internal/kmsg/kmsg.go:69-101 | header, priority split, time, message and fields of a record, or nothing for each malformed header |
| `Kmsg.MessageRoundTrip` | internal/kmsg/kmsg.go:104-120 | every message survives the kernel's escaping and this decoding |
| `Kmsg.ParsePrint` | internal/kmsg/kmsg.go:69-120 | parsing what the kernel prints recovers level, facility, sequence number and message of every record |
| `Kmsg.TimeExactIff` | internal/kmsg/kmsg.go:89-89 | the time is right exactly when the offset fits 63 bits of nanoseconds |
| `Kmsg.FieldExactIff` | internal/kmsg/kmsg.go:92-99 | a field value is right exactly when it needed no escape |
| `Kmsg.SignedPriority` | internal/kmsg/kmsg.go:78-80 | a priority may have a sign, the other numbers may not |
| `Kmsg.LargeNumbers` | internal/kmsg/kmsg.go:78-83 | a number too large for 64 bits is refused |
| `Kmsg.NoHeader` | internal/kmsg/kmsg.go:70-73 | without a semicolon there is no record |
| `Kmsg.ShortHeader` | internal/kmsg/kmsg.go:74-77 | nor with fewer than three parts before it |
| `Kmsg.NoPairNoField` | internal/kmsg/kmsg.go:92-99 | a continuation line that is no pair changes no field |
| `Kmsg.RecordsOnTheWire` | internal/kmsg/kmsg.go:67-69 | a printed record and an escape byte by byte |

## Left out

- Layout.Layout: says nothing about the bounds of the widths where a weight, a limit or the minimum of a flexible column is negative, which no table of the program has.
- RunQueue.RunQueueHistogram: asks for fewer than 2^64 waits and nanoseconds in all, beyond which the counters wrap.
- Rates.RatesTelescope: the sum is over reals; rounding of `float64` is not modelled here or anywhere else.
- Poller.DiscoveryGrace: assumes distinct discoverer names, a clock that does not run backwards, discoverers that upsert what they report, and other collectors that only mutate.
- Journal.RoundTrip: asks for values shorter than 2^64 bytes.
- AlertProjection.RunMirrors: assumes strictly increasing tick times and at most one sample per key and tick; the invariants and lifecycles need neither.
- The three timers of a condition are one record field in the model, and an alert behind a pointer is one value, so a sample writes them in one assignment each.
- Saturation of `time.Duration` at about 292 years, wrap-around of alert IDs and of the sweep counter of the rate tracker.
- `Active`, `DomainCounts` and `Recent` of the alert engine and the delivery of notices to subscribers: notices are those generated under the lock, in that order.
- Message texts and `Format` callbacks are opaque values; clocks are parameters.
- Detectors, kernel message rules and probe decoding: lookup tables and flat lists of samples.
- Concurrency inside the eBPF program (racy maximum, map capacity, eviction, reservation failures) and the exit of a whole process.
- `MeanUs`, `Snapshot` and `Get`, the host's own histories, and the JSON sink.
- The list of fields that `Journal.Write` builds and its transport; the reader loop around `Parse`.
- The query conversation with a QMP monitor: a poll brings back an arbitrary result or an error.
- Reading libvirt, procfs and sysfs, the rest of the terminal interface, metrics and wiring.
