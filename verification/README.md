# RustConsole stream control, verified

RustConsole streams a desktop from a host to a player. This project models the host logic that decides what is sent
and when, and proves what that logic keeps over whole runs. Everything modelled is state without I/O.

- **Bitrate control** (`BitrateModel`, `BitrateController`, `BitrateInvariants`, `BitrateCuts`, `BitrateClimbs`,
  `BitrateConvergence`, `BitratePauses`, `BitrateHolds`): the adaptive controller with its probes, rollbacks, learned
  limits, cooldowns, pauses and its return after a collapse.
- **Latency control** (`LatencyModel`, `LatencyControl`, `LatencyMeaning`, `LatencyRuns`, `LatencyBaselines`,
  `LatencyCuts`, `LatencyReadiness`, `LatencyLevels`): baselines, budgets, cuts, permission to rise, and the timer
  that ends a session.
- **The video stream policy** (`VideoStreamModel`, `VideoStream`, `VideoStreamRuns`, `VideoStreamTraces`,
  `VideoStreamFrames`, `VideoStreamHostDelay`, `VideoStreamRoundTrip`, `VideoStreamConvergence`, `VideoStreamCalm`,
  `VideoStreamSteady`, `VideoStreamHolds`, `VideoStreamLinks`, `VideoStreamHoldRuns`, `VideoStreamPauseRuns`,
  `VideoStreamStallRuns`, `SourceDelay`, `VideoRecovery`): one report through the delay meter, latency control and
  bitrate control, and keyframe recovery.
- **Sending** (`VideoPacing`, `VideoResend`): the frame budget, the datagram schedule, and the store of repair chunks.
- **Opus encoding** (`OpusModel`, `OpusTimeline`, `OpusInvariants`, `OpusFraming`, `OpusBatches`, `OpusAnswers`,
  `OpusRuns`, `OpusQueue`, `OpusEncoder`): cutting batches into frames, trimming delay and padding, dating packets,
  and accounting for failures.
- **HID report descriptors** (`HidDescriptor`, `HidMeaning`): the parser, and what a descriptor means by section 6.2.2
  of the USB Device Class Definition for HID 1.11.
- **Two protocols** (`RouteRecord`, `AsyncQueue`): the audio-route recovery record, and the queue of discovery
  authentications.
- **Shared** (`Numbers`, `Decimals`, `Sorting`, `Descent`).

## How it is built

Each stateful object of the program is a class with the program's fields. `Snapshot()` gives its state as a value, and
each method ensures that the new snapshot is a function of the old one. `Valid()` says what the object keeps, with
ghost fields for the events it has seen where the state alone does not tell. The methods a caller uses require and
ensure it and state what their answer means. The lemmas are about the functions and about sequences of them: the two
stream controllers, the encoder and the queue are proved over every finite run of their events, and convergence over
every endless run of clean reports. The steps inside an entry point have the contract of the function of the same name
and no row of their own below.

Convergence needs a measure in dictionary order: distance to the maximum, latency limits in force, cooldown, phase of
a collapse, age of the open probe, and the wait that is left. `Descent` holds the general argument that a gap which
closes this way, at every step or again and again, reaches zero and stays there.

Conventions:

- Instants and durations are natural numbers of nanoseconds (microseconds where the program counts those), not bounded
  above. Differences of instants saturate at zero where the program's do. Lemmas that need a forward clock say so.
- 64-bit and 8-bit numbers are bounded, and every saturating operation is written out. Where the program uses a plain
  operator, the proofs show that it cannot overflow, or its width is unbounded as listed below.
- Pressure is an exact rational (`real`).
- FFmpeg is a contract (`OpusModel.Codec`): each submitted frame yields a packet, timestamps are consecutive from
  minus the delay, draining covers everything received, and any call may fail. Faults come from an arbitrary oracle.
  Building a frame and reading the fields of a packet are counted with the call that sends or receives it.
- The asynchronous queue is a state machine: a step runs from one wait to the next, as an event loop runs it.

## Where the code and its documentation disagree

The model follows the code.

- `docs/latency-control.md` line 50 says that an incident at a bitrate held for 60 seconds lowers no limit and is
  followed by the normal five-second wait. `VideoStreamHolds.HeldCutKeepsPromise` says exactly when that holds. The
  latency limit never falls, but the delivery limit falls if delivery falls back while a probe is still open whose
  failure would lower it (`BitrateHolds.FailureWouldLower`): a probe stays open while delay pauses increases, and
  `VideoStreamHoldRuns.HeldProbeLowersALimit` is such a run. After a latency cut the wait is the retry delay, which
  past incidents may have raised to 10, 20 or 40 seconds: `VideoStreamHolds.HeldCutWaitsOrdinarilyIff` is the exact
  condition, and `VideoStreamHoldRuns.HeldLatencyCutWaitsLonger` a run of the stream that waits ten seconds.
- Line 48 of that document, like the comment at `crates/rustconsole-host-core/src/lib.rs` line 453, says that delay
  pauses the wait for the next rise without clearing it. Below a limit the wait is a count of healthy reports in a
  row, and the code sets it to zero. `BitratePauses.PauseKeepsWaitIff` says exactly when a pause keeps the wait, and
  `VideoStreamPauseRuns.FourthPausedNeverRises` is a run of the stream that never rises although three of every four
  delays leave the whole allowance unused.
- Line 18 of that document, like the comment at `crates/rustconsole-host-core/src/video_stream.rs` lines 22 to 23,
  says that a stall of the host, which a lower bitrate cannot remove, is taken out before bitrate control reads the
  delay. `VideoStreamHostDelay.LateBeyondHostIff` says exactly which reports are over budget after that, and
  `VideoStreamHostDelay.HostStallIsNoReason` that the host's own delay is never the reason while the baseline is
  right. But the excess of one interval is taken out of two reports, and a report from which more is taken than the
  stall had added to it lowers the baseline for good (`LatencyBaselines.BaselineBelowIff`).
  `VideoStreamStallRuns.OneStallCuts` is a run in which the player reports the same delay throughout and one stall of
  the host makes the policy cut the bitrate.
- A record of four endpoint identifiers of 1024 bytes each can be printed but not read back, because the limit on
  reading is 4096 bytes for the whole text. `RouteRecord.RecoverableIff` gives the exact condition.
- The video delay is adjusted to at least one microsecond even when the report gave zero, which makes a valid report
  invalid. `VideoStreamRuns.AdjustedReportValidIff` gives the exact condition.
- Line 70 of `docs/latency-control.md` says that resends are limited to a quarter of the target, with a floor of 2
  Mbit/s. Over a run this holds exactly if no credit was saved up before it: `VideoResend.StaysWithinIff`. A new store
  has none (`VideoResend.FreshStoreEarnsFirst`), and in general the saved credit comes on top
  (`VideoResend.RepairsStayWithinRate`).
- The queue keeps its keys exact only if no reset repeats the generation of a running handler. The client always
  increments the generation (`apps/rustconsole-client/ui/app.js` lines 353 to 355), which is enough.

## Model

| member | source | states |
|---|---|---|
| `BitrateConvergence.CleanRunConverges` | crates/rustconsole-host-core/src/lib.rs:269-530 | From every valid state with no sender pressure pending, an endless run of clean reports never lowers the target, reaches the selected maximum after finitely many, and stays there |
| `BitrateConvergence.CleanReportProgresses` | crates/rustconsole-host-core/src/lib.rs:453-529 | One clean report keeps the target at the maximum once there, and otherwise raises it or shortens, in dictionary order, what is left of cooldown, collapse, open probe and wait |
| `BitrateConvergence.CleanRunNeverFalls` | crates/rustconsole-host-core/src/lib.rs:453-529 | Along such a run the target never falls and the state stays valid |
| `BitrateConvergence.RecoverProgresses` | crates/rustconsole-host-core/src/lib.rs:459-529 | The recovery branch alone makes that progress whenever the target is below the maximum and the path allows it |
| `BitrateConvergence.ReturnMovesOn` | crates/rustconsole-host-core/src/lib.rs:564-588 | Answering a collapse moves its phase down, or changes nothing but the wait |
| `BitrateInvariants.ObserveMovesOneWay` | crates/rustconsole-host-core/src/lib.rs:269-530 | A report moves the target one way: no change means unmoved, a healthy change is strictly up, a congestion change strictly down, never up when increases are forbidden, and every invariant is kept |
| `BitrateInvariants.SenderCongestionFalls` | crates/rustconsole-host-core/src/lib.rs:532-546 | An expired send deadline never raises the target, any change it reports is a strict fall, and every invariant is kept |
| `BitrateInvariants.SetLatencyTargetFalls` | crates/rustconsole-host-core/src/lib.rs:621-638 | A latency reduction leaves no probe open and keeps every invariant, and one to no more than the target never raises it, any change being a strict fall |
| `BitrateInvariants.RecoverRises` | crates/rustconsole-host-core/src/lib.rs:453-529 | Recovery never lowers the target, and each probe it opens has the current target and exceeds its predecessor |
| `BitrateInvariants.FallBackSound` | crates/rustconsole-host-core/src/lib.rs:697-728 | Every fallback, by rollback or by percentage, never raises the target, says so truthfully, and leaves no probe open |
| `BitrateInvariants.RecoveryTargetsRise` | crates/rustconsole-host-core/src/lib.rs:640-655 | The ordinary and the cautious step never point down, and point strictly up away from a limit |
| `BitrateInvariants.ClampBoundsOrdered` | crates/rustconsole-host-core/src/lib.rs:650-653 | The step bounds never cross, so the clamp never panics |
| `BitrateInvariants.PercentageMonotone` | crates/rustconsole-host-core/src/lib.rs:823-825 | Integer percentages up to 100 never raise, from 100 never lower, and from 102 strictly raise any target in range |
| `BitrateInvariants.SoftCeilingBetweenFailures` | crates/rustconsole-host-core/src/lib.rs:250-259 | The soft ceiling exists exactly when five failures are on record, and lies between the least and the greatest of them |
| `BitrateInvariants.NewValid` | crates/rustconsole-host-core/src/lib.rs:182-214 | A new controller satisfies every invariant, for any selected maximum: it starts at half of it and no lower than 1 Mbit/s, and has counted and learned nothing |
| `BitrateInvariants.FromStartupProbeValid` | crates/rustconsole-host-core/src/lib.rs:217-237 | So does one that starts from a measured capacity, whatever was measured: at 70 % of it, which is its first limit, with the start as an open probe, or at 1 Mbit/s without a limit |
| `BitratePauses.CleanReportSettles` | crates/rustconsole-host-core/src/lib.rs:269-530 | A clean report, whether it may raise the target or not, never lowers it and never lengthens the climb, except that forbidding increases sets the count of healthy reports back to none |
| `BitratePauses.PausedReportOnlyMeasures` | crates/rustconsole-host-core/src/lib.rs:453-458 | While increases are forbidden a clean report changes what is measured, sets the count of healthy reports to zero, and nothing else |
| `BitratePauses.PauseKeepsWaitIff` | crates/rustconsole-host-core/src/lib.rs:455-458 | Such a pause keeps the wait for the next rise, which the documentation promises of every pause, exactly near a limit or when no healthy report had been counted |
| `BitratePauses.RiseCountsFromNone` | crates/rustconsole-host-core/src/lib.rs:474-529 | A rise leaves no healthy report counted, so pauses while it settles lose nothing |
| `BitratePauses.ThreeOfFourNeverRise` | crates/rustconsole-host-core/src/lib.rs:453-529 | Clean reports of which every fourth is paused hold any target below its limits down for ever |
| `BitratePauses.FreshControllerNeverRises` | crates/rustconsole-host-core/src/lib.rs:182-530 | The failing input: a new controller and half-second reports without loss, of which every fourth is paused, for every selected maximum |
| `BitrateHolds.HeldReportLowersLimitIff` | crates/rustconsole-host-core/src/lib.rs:269-530 | A report that answers a bitrate held for a minute by falling back lowers the delivery limit exactly when a probe is still open on it and recording its target as failed would lower that limit, with no probe open it changes no limit, and it waits the ordinary time |
| `BitrateHolds.FallBackFromHold` | crates/rustconsole-host-core/src/lib.rs:697-781 | The same for one fallback from a proven hold, by rollback or by percentage |
| `BitrateHolds.CountFailureLowersIff` | crates/rustconsole-host-core/src/lib.rs:714-727 | Recording the target as failed lowers the delivery limit exactly under the arithmetic condition on the failures on record that the guard names |
| `BitrateHolds.ReportCutsIff` | crates/rustconsole-host-core/src/lib.rs:374-451 | A report cuts exactly when its signals make the controller fall back from a target above the bootstrap |
| `BitrateHolds.PausedRunKeepsProbe` | crates/rustconsole-host-core/src/lib.rs:453-458 | Over any run of clean reports, of any lengths, that forbid increases, the hold is the sum of their times, and target, open probe and limits stay |
| `BitrateCuts.SevereLossIff` | crates/rustconsole-host-core/src/lib.rs:339-394 | Of any two reports running, the second is answered as severe loss exactly when it lost at least four chunks and a tenth of those received or lost, or when its loss was heavy (an overflow, two incomplete frames, or four chunks and a fiftieth) and some loss counter had grown in the first |
| `BitrateCuts.LoneLossIsForgiven` | crates/rustconsole-host-core/src/lib.rs:366-413 | Heavy loss that is not a tenth at once, after a report without loss on a path wide enough, leaves the target where it is |
| `BitrateCuts.LossInTwoReportsCuts` | crates/rustconsole-host-core/src/lib.rs:366-394 | Heavy loss after a report with loss always cuts: to where the open probe came from or 96 % of the target, whichever is less, to 96 % at a known limit with no cooldown running, and otherwise to 75 % |
| `BitrateCuts.ReportCutsBecause` | crates/rustconsole-host-core/src/lib.rs:269-451 | Every report cuts exactly for the first of severe loss, a path that carries less than 75 % of the target, the second degraded report, the second high round trip, or the second report with late sends, names that cause, and goes exactly as deep as it asks |
| `BitrateCuts.ReportIsKept` | crates/rustconsole-host-core/src/lib.rs:285-368 | What every report leaves for the next one: its counters, what the last two completed, whether anything was lost, the lowest round trip, and how many reports in a row were degraded, slow or under sender pressure, stated on the reports |
| `BitrateCuts.EmptyReportKeeps` | crates/rustconsole-host-core/src/lib.rs:275-283 | A report without an interval only moves the counters that the next one is compared with |
| `BitrateCuts.CapacityMeans` | crates/rustconsole-host-core/src/lib.rs:306-325 | The estimated capacity is what the last two reports completed over their time |
| `BitrateCuts.FallBackTo` | crates/rustconsole-host-core/src/lib.rs:697-728 | A fallback goes exactly to where the failed probe came from, or to 96 % of it if that is less, or by the given share, and never below 1 Mbit/s |
| `BitrateCuts.FallBackLeaves` | crates/rustconsole-host-core/src/lib.rs:697-818 | What a fallback leaves in every field: whether a failure is recorded, the doubled probe spacing, the wait before the next rise, and what a return after a collapse loses when it is cut |
| `BitrateCuts.CongestionMeans` | crates/rustconsole-host-core/src/lib.rs:532-553 | What an expired send leaves in every field: no earlier report counts towards a rise or a cut any more, one more late send is counted, and the third is answered by a fallback |
| `BitrateCuts.ThirdCongestionCutsOnce` | crates/rustconsole-host-core/src/lib.rs:532-553 | However many sends expire between two reports, the third takes a quarter of the target and no other takes anything |
| `BitrateCuts.LatencyTargetSets` | crates/rustconsole-host-core/src/lib.rs:621-638 | What a latency reduction leaves in every field: it goes where it says, sets the wait, gives an open probe up, and slows probes down unless the target had held for a minute |
| `BitrateClimbs.ReportClimbs` | crates/rustconsole-host-core/src/lib.rs:453-529 | A report with nothing wrong, stated on its raw counters, either shortens the wait that follows a cut or takes the step that is due, whose size is given by the limits in force, as far as the maximum and the path allow; every field of the new state is given |
| `BitrateClimbs.FineResponds` | crates/rustconsole-host-core/src/lib.rs:453-458 | The same report while increases are forbidden sets the count of healthy reports to zero and measures |
| `BitrateClimbs.ReturnMeans` | crates/rustconsole-host-core/src/lib.rs:562-589 | When the return after a collapse begins and ends, and what it forgets |
| `BitrateClimbs.OrdinaryMeans` | crates/rustconsole-host-core/src/lib.rs:640-655 | The ordinary step: a tenth without a limit, and otherwise half of the way to 96 % of it, at least 3 % and at most a quarter, and not past that point |
| `BitrateController.AdaptiveBitrateController.constructor` | crates/rustconsole-host-core/src/lib.rs:182-214 | The new object is valid, in the specified starting state, at half of the maximum and no lower than 1 Mbit/s |
| `BitrateController.AdaptiveBitrateController.FromProbe` | crates/rustconsole-host-core/src/lib.rs:217-237 | The new object is valid and starts at 70 % of the measured capacity, or of the maximum if that is less, with that capacity as its first limit, and at 1 Mbit/s without a limit if nothing was measured |
| `BitrateController.AdaptiveBitrateController.Observe` | crates/rustconsole-host-core/src/lib.rs:269-530 | One receiver report: a valid object stays valid; the target goes down for the first cause that applies, stated on the raw counters of this report and the last, and as deep as that cause asks; without such a cause it may go up, if increases are allowed; a report without an interval changes no target |
| `BitrateController.AdaptiveBitrateController.ObserveSenderCongestion` | crates/rustconsole-host-core/src/lib.rs:532-546 | An expired send deadline: the third late or dropped send since the last report takes a quarter of the target, down to 1 Mbit/s, no other takes anything, and a valid object stays valid |
| `BitrateController.AdaptiveBitrateController.SetLatencyTarget` | crates/rustconsole-host-core/src/lib.rs:621-638 | A latency reduction: a valid object stays valid, no probe is left open, the target goes where it is told but not below 1 Mbit/s, and the wait is the one given |
| `LatencyRuns.FailureNeedsFiveBadSeconds` | crates/rustconsole-host-core/src/latency.rs:93-175 | In every run a session failure on a channel means at least five seconds in which every report came within two seconds of the last, was valid and settled, ran at the bootstrap bitrate, and had that channel active and above the absolute limit |
| `LatencyRuns.FiveBadSecondsFail` | crates/rustconsole-host-core/src/latency.rs:150-171 | Conversely such five seconds on a channel with a baseline end the session |
| `LatencyRuns.TimerIsSustained` | crates/rustconsole-host-core/src/latency.rs:97-175 | A running failure timer was started by a report, and every event since kept it running |
| `LatencyRuns.SustainedKeepsTimer` | crates/rustconsole-host-core/src/latency.rs:150-175 | Uninterrupted over-limit reports keep the timer running from the first of them or earlier |
| `LatencyRuns.RunTimers` | crates/rustconsole-host-core/src/latency.rs:138-141 | A running timer always belongs to a channel whose baseline is known |
| `LatencyBaselines.BaselineIsLowestWindow` | crates/rustconsole-host-core/src/latency.rs:124-137 | In every run a baseline is known after five settled delays and is the least, over all windows of five so far, of the second smallest delay |
| `LatencyBaselines.SecondSmallestRank` | crates/rustconsole-host-core/src/latency.rs:130-133 | The second smallest of a window: at most one delay is lower, at least two are no higher |
| `LatencyCuts.CutAnswersTwoBadReports` | crates/rustconsole-host-core/src/latency.rs:187-215 | A cut answers two consecutive settled over-budget reports at most two seconds apart, and is strictly below the current bitrate |
| `LatencyCuts.CloseCutsWorsen` | crates/rustconsole-host-core/src/latency.rs:191-197 | A cut less than eight seconds after the last one answers at least 1.25 times its pressure |
| `LatencyCuts.StreakMeansBadReport` | crates/rustconsole-host-core/src/latency.rs:183-188 | A live streak means the last report was settled and over budget |
| `LatencyCuts.EventLimit` | crates/rustconsole-host-core/src/latency.rs:198-226 | What becomes of the known limit and of the delay before it is tried again, with every event: the first cut of an incident at a bitrate younger than a minute teaches it and doubles the delay up to 40 seconds, a good report at a bitrate held five seconds above it disproves it, and nothing else moves it |
| `LatencyCuts.CutProductFits` | crates/rustconsole-host-core/src/latency.rs:204-208 | The products computed for a cut fit 64 bits, because only a presented bitrate is ever cut |
| `LatencyCuts.CutsIff` | crates/rustconsole-host-core/src/latency.rs:183-215 | In every run a report is answered by a cut exactly when it is settled, over budget, above the minimum bitrate and the second such in a row, and the last cut is eight seconds back or the pressure a quarter higher than then |
| `LatencyCuts.GentleCutIff` | crates/rustconsole-host-core/src/latency.rs:198-208 | In every run a cut goes to 96 % exactly when the last one is ten seconds back or there was none and the bitrate is within a tenth of the known limit, and any other cut goes to three quarters |
| `LatencyCuts.KnownRemembered` | crates/rustconsole-host-core/src/latency.rs:209-237 | The limit and its delay are what the events of the run say: taught by first cuts, disproved by good reports, forgotten on request |
| `LatencyMeaning.AllowsIff` | crates/rustconsole-host-core/src/latency.rs:104-228 | In every run the bitrate may rise exactly on a settled report that measures every channel in use on known baselines and finds less than half of every allowance taken up, stated on the delays |
| `LatencyMeaning.EventMeans` | crates/rustconsole-host-core/src/latency.rs:80-229 | A failure is given exactly when a timer has run for five seconds, for the first such channel, with the delay, budget, limit and baseline of that channel |
| `LatencyRuns.UnusableIsIgnored` | crates/rustconsole-host-core/src/latency.rs:93-103 | A report with a measurement out of range, or for a channel not in use, counts as none: it ends rows and timers and asks for nothing |
| `LatencyBaselines.BaselineBelowIff` | crates/rustconsole-host-core/src/latency.rs:124-137 | In every run a baseline is below a given delay exactly when two of some five settled delays in a row were |
| `LatencyReadiness.RoomyReportAllows` | crates/rustconsole-host-core/src/latency.rs:104-228 | A valid report that measures every active channel, each using less than half of its allowance, neither ends the session nor cuts, and is refused a rise only before the bitrate has settled or while baselines are missing, of which a settled one then supplies a delay |
| `LatencyControl.LatencyPolicy.constructor` | crates/rustconsole-host-core/src/latency.rs:64-78 | Three channels without baselines, and the given limit and time |
| `LatencyControl.LatencyPolicy.Observe` | crates/rustconsole-host-core/src/latency.rs:80-229 | One report, usable or not, settled or not: when the bitrate may rise, when and how deep it is cut, what becomes of the known limit, and when and why the session ends, each exactly and stated on the delays of the report and the policy before it |
| `LatencyControl.LatencyPolicy.ReadAll` | crates/rustconsole-host-core/src/latency.rs:112-176 | The three channels in order: calibration, baseline, timer, and the highest pressure |
| `VideoStreamRuns.ReportMovesOneWay` | crates/rustconsole-host-core/src/video_stream.rs:123-176 | A report moves the target at most once and one way, the answer carries the final target, and a report in which latency asks for a reduction strictly lowers it |
| `VideoStreamRuns.VerdictApplies` | crates/rustconsole-host-core/src/video_stream.rs:123-176 | What a report does with the verdict of the latency policy: a failure ends the session, a reduction is made on top of what delivery asks for and sets the wait, the limit is that of the latency policy unless the controller is returning, and the settling time starts over exactly if the target moved |
| `VideoStreamRuns.RunsStayValid` | crates/rustconsole-host-core/src/video_stream.rs:74-211 | In every run from either start, the controller invariant holds and every event moves the target one way |
| `VideoStreamRuns.EventMovesOneWay` | crates/rustconsole-host-core/src/video_stream.rs:101-211 | Every event the policy handles keeps the invariant, the maximum, and the truth of its answer |
| `VideoStreamRuns.ReductionsAreReal` | crates/rustconsole-host-core/src/video_stream.rs:157-170 | Latency asks for a reduction only below a target above the bootstrap, and never with permission to increase |
| `VideoStreamRuns.AdjustedReportValidIff` | crates/rustconsole-host-core/src/video_stream.rs:135-142 | Subtracting the host delay keeps a valid report valid exactly when its video delay is not zero |
| `VideoStreamConvergence.CleanStreamRunConverges` | crates/rustconsole-host-core/src/video_stream.rs:123-176 | From every policy state with no sender pressure pending, an endless run of clean reports, any of which the latency policy may hold, never lowers the target, reaches the maximum and stays there, whatever limits a collapse, delivery or latency left, if again and again the target rises or four reports in a row may raise it |
| `VideoStreamConvergence.CleanStreamRunNeverFalls` | crates/rustconsole-host-core/src/video_stream.rs:123-176 | Along any run of clean reports, held or not, the target never falls and the distance left never grows |
| `VideoStreamCalm.CalmLinkConverges` | crates/rustconsole-host-core/src/video_stream.rs:123-176 | On a calm link, where nothing is lost, every delay stays below half of the allowance that its known baseline leaves and the player presents each new bitrate within some lag, the target reaches the maximum for good at any cadence of reports: what settles and calibrates comes to an end by itself |
| `VideoStreamSteady.SteadyLinkConverges` | crates/rustconsole-host-core/src/video_stream.rs:123-176 | Stated on the delays alone: if nothing is lost and the delays of each channel in use stay in a band [lo, hi] with 2(hi - lo) below 20 ms or below lo, and hi + 2(hi - lo) below the absolute limit, the target reaches the maximum for good, whatever the delays do inside the band |
| `VideoStreamSteady.NarrowIsQuiet` | crates/rustconsole-host-core/src/latency.rs:142-150 | Against any baseline in such a band, a delay in it is within the budget and uses less than half of the allowance |
| `VideoStreamSteady.HalfSecondReportsConverge` | crates/rustconsole-host-core/src/video_stream.rs:123-176 | So a player that reports every 500 ms, without loss and with any sequence of video delays in such a band, gets the maximum for good |
| `VideoStreamSteady.FreshPolicyCanBeSteady` | crates/rustconsole-host-core/src/video_stream.rs:76-121 | Every session starts so that this applies, from either constructor, for every band that is narrow under its delay limit |
| `VideoStreamHolds.HeldCutKeepsPromise` | crates/rustconsole-host-core/src/video_stream.rs:123-176 | The documented promise of a bitrate held for a minute, on the whole report: a cut never lowers the latency limit, lowers the delivery limit exactly when delivery falls back with a probe open whose failure would lower it, and waits five seconds, or after a latency cut the retry delay |
| `VideoStreamHolds.HeldCutWaitsOrdinarilyIff` | crates/rustconsole-host-core/src/video_stream.rs:157-175 | The wait after such a cut is the ordinary five seconds exactly when latency asked for no reduction or its retry delay is the shortest |
| `VideoStreamHolds.HeldLatencyKeepsLimit` | crates/rustconsole-host-core/src/latency.rs:188-235 | A latency cut of a bitrate held for a minute leaves the latency limit and its retry delay |
| `VideoStreamHoldRuns.HeldProbeLowersALimit` | crates/rustconsole-host-core/src/video_stream.rs:86-176 | The promise fails on a real run of the stream: from a measured start, a minute of valid reports two seconds apart keeps the startup probe open, and the cut that follows lowers the delivery limit |
| `VideoStreamHoldRuns.HeldLatencyCutWaitsLonger` | crates/rustconsole-host-core/src/video_stream.rs:86-176 | It fails for the wait too, on a run of the stream from the same start with reports two seconds apart: two late reports cut the bitrate, the bitrate left holds for a minute, two more late reports cut it, and the wait is ten seconds |
| `VideoStreamPauseRuns.FourthPausedNeverRises` | crates/rustconsole-host-core/src/video_stream.rs:86-176 | A run of the whole stream that stays at the bootstrap bitrate for ever, for every maximum: nothing measured at the start, nothing lost, a valid report every half second, of which every fourth uses three quarters of its delay allowance and all others none |
| `VideoStreamTraces.StreamEndsAfterFiveBadSeconds` | crates/rustconsole-host-core/src/video_stream.rs:123-154 | In every run of the stream policy a session ends only after five seconds of uninterrupted settled reports at the bootstrap bitrate with one active channel above the absolute limit, as the player measured it less the delay of the host |
| `VideoStreamTraces.StreamFailsAfterFiveBadSeconds` | crates/rustconsole-host-core/src/video_stream.rs:123-154 | Conversely, in every run with reports in the order of their instants, five such seconds on a channel with a baseline end the session |
| `VideoStreamTraces.StreamCutAnswersTwoBadReports` | crates/rustconsole-host-core/src/video_stream.rs:123-176 | In every run of the stream policy latency asks for a reduction only after two settled over-budget reports in a row, at most two seconds apart |
| `VideoStreamTraces.StreamCloseCutsWorsen` | crates/rustconsole-host-core/src/video_stream.rs:123-176 | In every run of the stream policy a reduction less than eight seconds after the last one answers at least 1.25 times its pressure |
| `VideoStreamTraces.StreamCutGentleIff` | crates/rustconsole-host-core/src/video_stream.rs:123-176 | In every run of the stream policy latency asks for 96 % of the target exactly when its last request is ten seconds back or there was none and the target is within a tenth of the known limit, and otherwise for three quarters |
| `VideoStreamTraces.StreamBaselineIsLowestWindow` | crates/rustconsole-host-core/src/video_stream.rs:123-154 | In every run of the stream policy each baseline is the least second smallest delay of any five settled delays in a row |
| `VideoStreamTraces.StreamIsALife` | crates/rustconsole-host-core/src/video_stream.rs:109-198 | The latency policy of every stream run is in the state that the events it was given since latency control began lead to |
| `VideoStreamHostDelay.JudgedWithoutHostDelay` | crates/rustconsole-host-core/src/video_stream.rs:135-142 | In every run the video delay that is judged is the typical delay of the report less the larger excess of this and the previous interval, but at least one microsecond, where an excess is the distance of the interval upper quartile of encoding times from the least of any interval so far, and nothing else of the report changes |
| `VideoStreamHostDelay.LateBeyondHostIff` | crates/rustconsole-host-core/src/video_stream.rs:135-142 | When only the video is in use, a report on a known baseline is over budget exactly if its delay exceeds what the baseline allows by more than the host excess |
| `VideoStreamHostDelay.HostStallIsNoReason` | crates/rustconsole-host-core/src/video_stream.rs:135-156 | So however long the host stalled, a report whose delay is only the host excess above what is allowed is not over budget, asks for no reduction and ends no session |
| `VideoStreamStallRuns.OneStallCuts` | crates/rustconsole-host-core/src/video_stream.rs:47-176 | A run in which a host stall does cut the bitrate, for every maximum from 2 to 200 Mbit/s: the player reports 50 ms every half second, one frame takes 40 ms longer to be encoded, and what is subtracted from two reports sets the baseline too low for those that follow |
| `VideoStreamRoundTrip.RoundTripCutsIff` | crates/rustconsole-host-core/src/lib.rs:417-431 | In every run a report with nothing else wrong, of which latency control asks nothing, lowers the target exactly when latency control is off, the round trip is high for the second report in a row, and the target is above 1 Mbit/s |
| `VideoStreamRoundTrip.MeasuredWhileControlled` | crates/rustconsole-host-core/src/video_stream.rs:109-121 | In every run media delay steers instead of the round trip exactly while latency control is on |
| `VideoStreamFrames.StreamSendsDecodable` | crates/rustconsole-host-core/src/video_stream.rs:184-211 | In every run of the stream policy a frame is sent exactly when the player can decode it: after a dropped frame, an expired deadline or a gap only from a keyframe on |
| `VideoStreamFrames.StreamAsksWhileMissing` | crates/rustconsole-host-core/src/video_stream.rs:184-207 | In every run it asks for a keyframe exactly while one is missing and a quarter second after it last asked |
| `VideoStream.HostVideoStreamPolicy.constructor` | crates/rustconsole-host-core/src/video_stream.rs:76-83 | A new controller, recovery and delay meter, and no latency control |
| `VideoStream.HostVideoStreamPolicy.FromStartupProbe` | crates/rustconsole-host-core/src/video_stream.rs:86-99 | The same, starting from a measured capacity |
| `VideoStream.HostVideoStreamPolicy.ObserveReceiver` | crates/rustconsole-host-core/src/video_stream.rs:101-107 | A report without latency control: the policy stays valid and the target moves one way, as the answer says |
| `VideoStream.HostVideoStreamPolicy.EnableLatencyControl` | crates/rustconsole-host-core/src/video_stream.rs:109-121 | Latency control starts afresh and round-trip pressure stops steering |
| `VideoStream.HostVideoStreamPolicy.ObserveReceiverWithLatency` | crates/rustconsole-host-core/src/video_stream.rs:123-176 | A report with latency: the policy stays valid, the answer is the truth about a target that moved at most once and one way, the verdict of the latency policy is applied on top of what delivery asks for, and a session ends only when a timer has run for five seconds |
| `VideoStream.HostVideoStreamPolicy.ObserveQueueDrop` | crates/rustconsole-host-core/src/video_stream.rs:184-187 | A keyframe is required, one more late or dropped send is counted and the target stays |
| `VideoStream.HostVideoStreamPolicy.ObserveDeadlineExpired` | crates/rustconsole-host-core/src/video_stream.rs:189-198 | A keyframe is required, the third late or dropped send since the last report takes a quarter of the target and no other takes anything, and a target that moved has to settle again |
| `VideoStream.HostVideoStreamPolicy.RequireKeyframe` | crates/rustconsole-host-core/src/video_stream.rs:200-202 | A keyframe is required and nothing else changes |
| `VideoStream.HostVideoStreamPolicy.KeyframeRequestDue` | crates/rustconsole-host-core/src/video_stream.rs:205-207 | A keyframe is asked for exactly while one is missing and a quarter second after the last request |
| `VideoStream.HostVideoStreamPolicy.AcceptEncodedFrame` | crates/rustconsole-host-core/src/video_stream.rs:209-211 | A frame is sent exactly when the player can decode it |
| `VideoStream.HostVideoStreamPolicy.FramePacketized` | crates/rustconsole-host-core/src/video_stream.rs:213-219 | The frame joins the delay meter |
| `SourceDelay.MeterFollows` | crates/rustconsole-host-core/src/video_stream.rs:31-63 | In every run the usual delay is the least upper quartile of any closed interval that saw a fresh frame, the buffer holds the delays of the first 512 fresh frames since the last, and the last excess is the distance between them |
| `SourceDelay.ExcessOfTwoIntervals` | crates/rustconsole-host-core/src/video_stream.rs:47-63 | In every run what a closed interval reports is the larger excess of the last two, each stated on the frames of all intervals so far |
| `SourceDelay.UpperQuartileRank` | crates/rustconsole-host-core/src/video_stream.rs:49-54 | The quartile read from the sorted buffer: at most three quarters of the delays, rounded down, are smaller, and more are not larger |
| `SourceDelay.SourceDelayMeter.TakeExcess` | crates/rustconsole-host-core/src/video_stream.rs:47-63 | The larger of this and the last interval excess, and the cleared buffer |
| `VideoRecovery.AcceptedIffDecodable` | crates/rustconsole-host-core/src/video_recovery.rs:17-29 | In every run a frame is accepted exactly when it is a keyframe, or follows by one an accepted newest frame with no keyframe required in between |
| `VideoRecovery.AcceptedChain` | crates/rustconsole-host-core/src/video_recovery.rs:17-29 | An unbroken chain of accepted frames with consecutive sequence numbers leads from a keyframe to each accepted frame |
| `VideoRecovery.DueIff` | crates/rustconsole-host-core/src/video_recovery.rs:31-41 | A poll asks for a keyframe exactly when the last request is 250 ms ago and a keyframe is missing: the newest frame cannot be decoded, one was required since, or one was required before any frame |
| `VideoRecovery.RequestsSpaced` | crates/rustconsole-host-core/src/video_recovery.rs:31-41 | Any two keyframe requests of a run are at least 250 ms apart |
| `VideoRecovery.KeyframeRecovery.Accept` | crates/rustconsole-host-core/src/video_recovery.rs:17-29 | A frame is accepted exactly when it can be decoded after all events so far, for every sequence number including the largest |
| `VideoRecovery.KeyframeRecovery.RequestDue` | crates/rustconsole-host-core/src/video_recovery.rs:31-41 | A keyframe is asked for exactly while one is missing and a quarter second after the last request |
| `VideoPacing.EncodedWithinTarget` | crates/rustconsole-host-core/src/video_pacing.rs:16-25 | Between any two turns of a run of frames no larger than nine tenths of the target, bits encoded are at most target times elapsed plus a tenth of the target plus the last frame |
| `VideoPacing.EncodedIsRepaidOrOwed` | crates/rustconsole-host-core/src/video_pacing.rs:61-81 | Every bit encoded in such a run was repaid at the target rate or is still owed |
| `VideoPacing.PauseEndsWithinASecond` | crates/rustconsole-host-core/src/video_pacing.rs:61-81 | After a frame of any size the budget allows encoding within one second, if there are at most a tenth of the target in polls |
| `VideoPacing.PollsRepay` | crates/rustconsole-host-core/src/video_pacing.rs:17-24 | Rounding loses under one bit per poll, over any run of polls |
| `VideoPacing.SpreadLimitsEveryWindow` | crates/rustconsole-host-core/src/video_pacing.rs:144-169 | If datagrams go only when ready, the bytes of a spread frame sent in any window before its last datagram take at most the window plus 2 ms at the frame pace |
| `VideoPacing.ScheduleHoldsIffOnTime` | crates/rustconsole-host-core/src/video_pacing.rs:161-169 | The schedule stays at start plus pace times bytes exactly when no send is later than the allowed catch-up |
| `VideoPacing.FrameDueWithinLongestSpread` | crates/rustconsole-host-core/src/video_pacing.rs:144-169 | A frame whose sends are on time is due entirely within 20 ms of its first datagram |
| `VideoPacing.BeginFramePaces` | crates/rustconsole-host-core/src/video_pacing.rs:144-154 | A new frame forgets the old schedule and is paced exactly while spreading is on, at the slowest pace at which it leaves within 20 ms and no slower than at 150 % of the target; the pace is zero exactly when spreading is off, the frame is empty, or a nanosecond per byte is too slow already |
| `VideoPacing.PacedAfterLoss` | crates/rustconsole-host-core/src/video_pacing.rs:140-154 | Whatever a pacer did before, a frame is paced so exactly if the last loss is less than 30 seconds back |
| `VideoPacing.UnpacedLeavesAtOnce` | crates/rustconsole-host-core/src/video_pacing.rs:156-169 | A frame without a pace leaves at once: every datagram may follow the one before immediately |
| `VideoPacing.VideoFramePacer.Create` | crates/rustconsole-host-core/src/video_pacing.rs:37-49 | No pacer for a frame rate of zero, otherwise one that starts now, without debt, and encodes every frame |
| `VideoPacing.VideoFramePacer.ShouldEncode` | crates/rustconsole-host-core/src/video_pacing.rs:61-66 | The debt shrinks by what the target earned, rounded down, and the frame is allowed exactly on its turn and with at most a tenth of the target owed |
| `VideoPacing.VideoFramePacer.SetTargetBitrate` | crates/rustconsole-host-core/src/video_pacing.rs:68-71 | Time so far is repaid at the old target, and the new one counts from now |
| `VideoPacing.VideoFramePacer.FrameEncoded` | crates/rustconsole-host-core/src/video_pacing.rs:74-81 | Debt grows by eight bits a byte, up to one second of the target |
| `VideoPacing.VideoFramePacer.SetFrameDivisor` | crates/rustconsole-host-core/src/video_pacing.rs:83-89 | One and two are taken, anything else refused and nothing changed |
| `VideoPacing.VideoFramePacer.CompleteTick` | crates/rustconsole-host-core/src/video_pacing.rs:91-95 | The tick wraps at 64 bits, and an overrun rebases the next one |
| `VideoPacing.VideoSendPacer.BeginFrame` | crates/rustconsole-host-core/src/video_pacing.rs:144-154 | While spreading is on, the slowest pace at which the frame leaves within 20 ms and no slower than at 150 % of the target, and otherwise none |
| `VideoPacing.VideoSendPacer.Sent` | crates/rustconsole-host-core/src/video_pacing.rs:161-169 | The next send waits for this one at the pace, counted from when it was due, or from 2 ms before it left if it was later than that |
| `VideoResend.HoldsNewestFrames` | crates/rustconsole-host-core/src/video_resend.rs:37-45 | The store always holds exactly the sixteen newest entries of the whole history of remembered frames |
| `VideoResend.RepairsStayWithinRate` | crates/rustconsole-host-core/src/video_resend.rs:57-97 | Over any interleaving of calls, bits returned plus credit left are at most the largest rate in force times the span plus the credit held at its start |
| `VideoResend.FreshStoreEarnsFirst` | crates/rustconsole-host-core/src/video_resend.rs:28-35 | A fresh store returns nothing that was not earned since it was made |
| `VideoResend.StaysWithinIff` | crates/rustconsole-host-core/src/video_resend.rs:57-97 | Repairs stay within the rate in force times the span over every run from a store exactly when it holds no credit: with any credit saved up, a run returns more |
| `VideoResend.TakenAreNamed` | crates/rustconsole-host-core/src/video_resend.rs:57-97 | A request gets nothing if its frame is not among the sixteen newest of the history, and otherwise chunks of the oldest such frame, at exactly the indexes it names and in that order: all of them if they cost no more than the saved credit plus what a quarter of the target, or 2 Mbit/s if that is more, earned since the last take, capped at a quarter second of it, and otherwise the longest part that this pays for |
| `VideoResend.PickedAreNamed` | crates/rustconsole-host-core/src/video_resend.rs:74-82 | The chunks asked for are those at the indexes the frame has, in request order and without any other |
| `VideoResend.AffordableIsLongest` | crates/rustconsole-host-core/src/video_resend.rs:83-96 | What is returned is the longest prefix of the request that credit pays for, and is paid for exactly |
| `VideoResend.AnnouncesNewestFrameOnce` | crates/rustconsole-host-core/src/video_resend.rs:37-53 | In every run a poll is answered by the last chunk of the newest frame exactly when that frame is at least 20 ms old, has chunks, and was not announced before |
| `VideoResend.RecentVideoChunks.constructor` | crates/rustconsole-host-core/src/video_resend.rs:28-35 | Empty and without credit |
| `VideoResend.RecentVideoChunks.Remember` | crates/rustconsole-host-core/src/video_resend.rs:37-45 | The frame joins the deque, the oldest of seventeen leaves, and the announcement is replaced |
| `VideoResend.RecentVideoChunks.TakeAnnouncement` | crates/rustconsole-host-core/src/video_resend.rs:48-53 | The announcement if due, which is then gone |
| `VideoResend.RecentVideoChunks.Take` | crates/rustconsole-host-core/src/video_resend.rs:57-97 | What is given out and what stays as credit is exactly the saved credit plus what a quarter of the target, or 2 Mbit/s, earned since the last take, capped at a quarter second of it; a request for no more than that is returned in full |
| `VideoResend.RecentVideoChunks.Pay` | crates/rustconsole-host-core/src/video_resend.rs:83-96 | The loop stops at the first chunk that credit cannot pay for |
| `OpusRuns.FinishedPlaysEverything` | crates/rustconsole-codec-ffmpeg/src/opus.rs:360-400 | In every life, after a finish without failure the kept intervals of all returned packets tile the received samples exactly, in order, once each, for any batches, frame size and delay |
| `OpusRuns.NothingLostInFraming` | crates/rustconsole-codec-ffmpeg/src/opus.rs:297-333 | In every state that is neither failed nor finished, frames given to the codec followed by the pending samples are all accepted input, the pending part is shorter than a frame, and copied plus shared bytes are the input bytes |
| `OpusRuns.ResetAccountsForEverySample` | crates/rustconsole-codec-ffmpeg/src/opus.rs:450-458 | At every reset, whatever failed before, samples received are samples kept in packets actually returned plus the reported discard |
| `OpusRuns.EveryPacketIsDated` | crates/rustconsole-codec-ffmpeg/src/opus.rs:372-388 | Every returned packet has the time that the full unpruned batch history gives its first kept sample |
| `OpusRuns.QueueStaysShort` | crates/rustconsole-codec-ffmpeg/src/opus.rs:373-409 | In every state that is neither failed nor finished the capture queue holds at most a frame plus the delay less one sample, or a frame when there is no delay |
| `OpusQueue.QueueCanFillIff` | crates/rustconsole-codec-ffmpeg/src/opus.rs:271-275 | Some life has a batch refused for a full queue exactly when frame size plus codec delay exceeds the 4800 batches it holds |
| `OpusRuns.LifeIsConsistent` | crates/rustconsole-codec-ffmpeg/src/opus.rs:176-459 | The invariant behind these results holds in every state of every life of encodes, finishes and resets, with any codec faults |
| `OpusRuns.EncodeKeepsConsistent` | crates/rustconsole-codec-ffmpeg/src/opus.rs:242-295 | A refused batch changes nothing, an accepted one is cut completely, and a call that fails blames a codec fault that explains its error: no range, time or position error is reachable |
| `OpusRuns.FinishKeepsConsistent` | crates/rustconsole-codec-ffmpeg/src/opus.rs:418-448 | A finish that succeeds has emitted everything received, and one that fails blames a codec fault |
| `OpusRuns.ResetKeepsConsistent` | crates/rustconsole-codec-ffmpeg/src/opus.rs:450-458 | A reset starts over with a fresh codec, or changes nothing when it cannot be opened |
| `OpusAnswers.RefusedIff` | crates/rustconsole-codec-ffmpeg/src/opus.rs:242-284 | In every life a batch is refused for the first of a finished or failed encoder, a wrong length, a sample that is not finite, a capture time not after that of the last accepted batch, a full queue, a position or a time out of range, and then nothing changes; any other failure is one of the codec |
| `OpusAnswers.EncodeCounts` | crates/rustconsole-codec-ffmpeg/src/opus.rs:286-345 | What a successful batch adds to the statistics: its packets, the bytes copied to complete the pending frame or to start the next, the bytes shared, and the longest pending rest |
| `OpusAnswers.FinishCounts` | crates/rustconsole-codec-ffmpeg/src/opus.rs:418-448 | A failed encoder refuses to finish, a finished one gives nothing more, and a finish that gives packets counts them and the silence that filled the last frame |
| `OpusAnswers.ResetCounts` | crates/rustconsole-codec-ffmpeg/src/opus.rs:450-458 | A reset starts over in every field but the statistics, which count it and the samples it discards |
| `OpusTimeline.PrunedTimeIsFullTime` | crates/rustconsole-codec-ffmpeg/src/opus.rs:374-388 | The time read from the pruned queue is the time read from the full list |
| `OpusTimeline.SkipsKeepReceived` | crates/rustconsole-codec-ffmpeg/src/opus.rs:368-371 | The two skips of a packet keep exactly its overlap with the received samples |
| `OpusTimeline.LaterBatchesDoNotMatter` | crates/rustconsole-codec-ffmpeg/src/opus.rs:374-388 | A batch that starts later never changes the time of an earlier position |
| `OpusInvariants.QueueGivesTime` | crates/rustconsole-codec-ffmpeg/src/opus.rs:374-388 | The queue is never empty when a packet needs it, the position never precedes its front, and the time fits 64 bits |
| `OpusFraming.ReceiveCollects` | crates/rustconsole-codec-ffmpeg/src/opus.rs:347-416 | Receiving goes on until the codec has given all it owes, keeps every packet in step, and stops early only for a fault |
| `OpusFraming.SubmitInStep` | crates/rustconsole-codec-ffmpeg/src/opus.rs:335-345 | A submitted frame extends the frames by the next slice of the input |
| `OpusBatches.EncodeBatchCuts` | crates/rustconsole-codec-ffmpeg/src/opus.rs:297-333 | A batch completes the pending frame, shares whole frames and copies the rest, so the input goes on where it stopped |
| `OpusModel.Encoder.SubmitWhole` | crates/rustconsole-codec-ffmpeg/src/opus.rs:315-319 | Sharing whole frames never reads past the batch |
| `OpusEncoder.OpusCodec.SendFrame` | crates/rustconsole-codec-ffmpeg/src/opus.rs:341-342 | The codec contract: a frame is taken or the call fails |
| `OpusEncoder.OpusCodec.SendEof` | crates/rustconsole-codec-ffmpeg/src/opus.rs:437-438 | The codec contract: draining extends what is owed past the last received sample or the call fails |
| `OpusEncoder.OpusCodec.ReceivePacket` | crates/rustconsole-codec-ffmpeg/src/opus.rs:347-359 | The codec contract: packets have consecutive timestamps from minus the delay, or there is none, or the call fails |
| `OpusEncoder.Encoding.constructor` | crates/rustconsole-codec-ffmpeg/src/opus.rs:177-227 | An open encoder, consistent, with nothing received, pending or emitted |
| `OpusEncoder.Encoding.Encode` | crates/rustconsole-codec-ffmpeg/src/opus.rs:242-295 | One batch: refused for the first thing wrong with it, stated on the history, it changes nothing; accepted, it joins the history, fails only for a codec fault of that kind, and otherwise is counted exactly; the encoder stays consistent with everything accepted and returned |
| `OpusEncoder.Encoding.SubmitWhole` | crates/rustconsole-codec-ffmpeg/src/opus.rs:315-319 | The loop over whole frames shared with the codec |
| `OpusEncoder.Encoding.Receive` | crates/rustconsole-codec-ffmpeg/src/opus.rs:347-416 | The loop over packets, draining or not |
| `OpusEncoder.Encoding.PruneTo` | crates/rustconsole-codec-ffmpeg/src/opus.rs:373-379 | The loop that drops batches whose successor starts no later |
| `OpusEncoder.Encoding.Finish` | crates/rustconsole-codec-ffmpeg/src/opus.rs:418-448 | A finish, in every state: when it gives packets, all packets returned so far play every received sample once and in order, and otherwise a codec fault is to blame |
| `OpusEncoder.Encoding.Reset` | crates/rustconsole-codec-ffmpeg/src/opus.rs:450-458 | What was received is what the returned packets play plus the reported discard, and everything starts over; without a codec nothing changes |
| `HidMeaning.ParsesExactlyDescriptors` | crates/rustconsole-input-windows/src/descriptor.rs:27-131 | The parser succeeds exactly on byte strings that are a descriptor in the declarative sense: a stream of short items, balanced collections and pushes, report identifiers on all reports or none, every length from 1 to 80, some input report |
| `HidMeaning.ParsesDescription` | crates/rustconsole-input-windows/src/descriptor.rs:102-130 | On success the lengths are those of exactly the reports declared: bits summed over their items, in whole bytes, plus the identifier byte |
| `HidMeaning.RefusedBecause` | crates/rustconsole-input-windows/src/descriptor.rs:27-131 | A refused descriptor names the first thing wrong with it in reading order: its size, a long or cut item, an item not applicable where it stands, or what the items as a whole leave open, without identifier or without valid length |
| `HidMeaning.ReachedMeans` | crates/rustconsole-input-windows/src/descriptor.rs:36-98 | The loop gets as far as the items are applicable, and its state there is what the items mean |
| `HidMeaning.AppliesIffApplicable` | crates/rustconsole-input-windows/src/descriptor.rs:58-98 | An item is applied exactly when its identifier, level, depth and total allow it |
| `HidMeaning.PopRestoresGlobals` | crates/rustconsole-input-windows/src/descriptor.rs:71-72 | A pop that answers a push restores the globals from before the push, whatever balanced items stand between |
| `HidMeaning.ParsesStream` | crates/rustconsole-input-windows/src/descriptor.rs:36-56 | On a stream of short items the parser applies the items in order |
| `HidMeaning.ParsedIsStream` | crates/rustconsole-input-windows/src/descriptor.rs:36-51 | Only a stream of short items is parsed to its end |
| `HidMeaning.NextItemReadsBack` | crates/rustconsole-input-windows/src/descriptor.rs:37-56 | Reading the bytes of a short item gives back its type, tag and data, and leaves the rest |
| `HidMeaning.MeasuredIff` | crates/rustconsole-input-windows/src/descriptor.rs:102-122 | The final checks pass for one kind of report exactly when every report of that kind fits |
| `HidDescriptor.ParseReportDescriptor` | crates/rustconsole-input-windows/src/descriptor.rs:27-131 | The byte loop computes the specified parse, with the same error for every rejected input |
| `HidDescriptor.Finish` | crates/rustconsole-input-windows/src/descriptor.rs:99-130 | The final checks in order |
| `HidDescriptor.MeasureReports` | crates/rustconsole-input-windows/src/descriptor.rs:108-122 | The loop over report identifiers and its errors |
| `HidDescriptor.FoldValue` | crates/rustconsole-input-windows/src/descriptor.rs:52-54 | The loop that reads the little-endian value of no, one, two or four bytes |
| `RouteRecord.RecordReadsBack` | crates/rustconsole-host-windows/src/audio_policy.rs:61-99 | For every record that can be printed, reading the print gives exactly that record if the print is at most 4096 bytes, and the size error otherwise |
| `RouteRecord.RecoverableIff` | crates/rustconsole-host-windows/src/audio_policy.rs:61-74 | Stated on the record: it reads back exactly when its identifiers and the digits of its session number leave the print within 4096 bytes |
| `RouteRecord.LongestIdsAreLost` | crates/rustconsole-host-windows/src/audio_policy.rs:61-74 | Four identifiers of the greatest permitted length are printed but cannot be read back |
| `RouteRecord.ParsesExactlySpellings` | crates/rustconsole-host-windows/src/audio_policy.rs:71-99 | A text reads as a record exactly when it is within the limit and its lines spell that record in field order, up to the spelling of the session number |
| `RouteRecord.SerializesIff` | crates/rustconsole-host-windows/src/audio_policy.rs:61-69 | A record is printed, as exactly these six lines, when all four identifiers have 1 to 1024 bytes without zero, newline or return, and is refused otherwise |
| `RouteRecord.RefusedBecause` | crates/rustconsole-host-windows/src/audio_policy.rs:71-110 | A refused text names the first thing wrong with it: its length, its version, a missing field, the session number, a further line, or an identifier |
| `RouteRecord.ReturnsEndLines` | crates/rustconsole-host-windows/src/audio_policy.rs:75-75 | A return before a newline belongs to the end of the line, and one at the end of the text to the last line |
| `RouteRecord.ReadRecordsReprint` | crates/rustconsole-host-windows/src/audio_policy.rs:61-99 | Whatever is read can be printed, at most one byte longer, and below the limit reads as the same record again |
| `RouteRecord.U32ReadsBack` | crates/rustconsole-host-windows/src/audio_policy.rs:79-81 | Printed session numbers are read back |
| `RouteRecord.LinesReadBack` | crates/rustconsole-host-windows/src/audio_policy.rs:75-75 | Lines without line ends, printed one per line, are split back into the same lines |
| `RouteRecord.FieldReadsBack` | crates/rustconsole-host-windows/src/audio_policy.rs:102-110 | A field value is what follows its name on the line, and the other lines are left |
| `Decimals.DecimalReadsBack` | crates/rustconsole-host-windows/src/audio_policy.rs:65-68 | The digits printed for a number have its value |
| `Decimals.DecimalIsShortest` | crates/rustconsole-host-windows/src/audio_policy.rs:79-81 | No accepted run of digits is shorter than the one printed |
| `AsyncQueue.IncreasingRunsAreFaithful` | apps/rustconsole-client/ui/discovery-auth-queue.js:3-42 | With strictly increasing reset generations, every interleaving of resets, enqueues, drains and handler ends keeps the keys equal to the tokens queued or running in this generation, none twice, all queued items current, and order first in first out |
| `AsyncQueue.HandlersRunOneByOne` | apps/rustconsole-client/ui/discovery-auth-queue.js:29-42 | Under every interleaving, with any resets, the log of starts and ends alternates: a handler starts only where none is in flight, what ends is what started last, and the running flag is set exactly while the log has one in flight |
| `AsyncQueue.SoundThroughoutIff` | apps/rustconsole-client/ui/discovery-auth-queue.js:11-15 | A run is sound throughout exactly when no reset is to the generation of the handler still running |
| `AsyncQueue.ResetIsSoundIff` | apps/rustconsole-client/ui/discovery-auth-queue.js:11-15 | The same for one reset |
| `AsyncQueue.SameGenerationRunsTwice` | apps/rustconsole-client/ui/discovery-auth-queue.js:11-23 | A second reset to the same generation lets a key be queued while its handler runs |
| `AsyncQueue.AcceptsIffNotPending` | apps/rustconsole-client/ui/discovery-auth-queue.js:17-23 | A key is taken exactly when it is of this generation and neither queued nor running in it |
| `AsyncQueue.TokensIdentify` | apps/rustconsole-client/ui/discovery-auth-queue.js:18-18 | A token stands for one generation and one key |
| `AsyncQueue.DrainStartsEverything` | apps/rustconsole-client/ui/discovery-auth-queue.js:29-42 | Once drained with handlers that succeed, the queue is idle and has started all it took, in the order it took it |
| `AsyncQueue.StepStaysFaithful` | apps/rustconsole-client/ui/discovery-auth-queue.js:11-42 | Every single step keeps all of this, a reset provided that it does not meet a running handler of its generation |
| `AsyncQueue.UniqueAsyncQueue.constructor` | apps/rustconsole-client/ui/discovery-auth-queue.js:4-9 | Empty, idle, generation zero |
| `AsyncQueue.UniqueAsyncQueue.Reset` | apps/rustconsole-client/ui/discovery-auth-queue.js:11-15 | Items and keys dropped and a running handler left alone, after which a sound queue is sound exactly if that handler is not of the new generation |
| `AsyncQueue.UniqueAsyncQueue.Enqueue` | apps/rustconsole-client/ui/discovery-auth-queue.js:17-23 | Taken exactly when the key is of this generation and neither queued nor running in it, and a sound, first-in first-out queue stays so |
| `AsyncQueue.UniqueAsyncQueue.Drain` | apps/rustconsole-client/ui/discovery-auth-queue.js:29-36 | Starts the first item unless a drain is running or there is none; the queue stays sound and in order |
| `AsyncQueue.UniqueAsyncQueue.HandlerEnds` | apps/rustconsole-client/ui/discovery-auth-queue.js:35-42 | The token is released, and the next item starts or, after a failure, the drain ends; the queue stays sound and in order |

## Left out

- Rounding of pressure: the program compares 64-bit floating-point numbers, the model exact rationals.
- Preference score and latency status: `preference_score`, `score_ppm` and the other status fields are for display.
- `VideoPathReport.lost_packets` and the network round trip given to latency control: the code reads neither.
- Overflow of instants: adding a duration to an instant is not bounded in the model, and in the program may panic.
- Statistics of the Opus encoder are unbounded, and so is its count of resets; the program adds them unchecked.
- Opus payload bytes, their size check and `packet_copied_bytes`; sample values beyond equality and being finite.
- Ownership of shared sample buffers: `shared_frame` keeps its range check, and its unsafe code is not part of this
  model.
- Opening FFmpeg: the frame size is one of 120, 240, 480 and 960 samples and the delay is arbitrary; options are not
  modelled.
- `OpusDecoder`, which mirrors the encoder over the same library.
- Order of Opus packet times: the code does not promise it, because batches need only strictly increasing times.
- `OpusEncoder.OpusCodec.SendFrame`, `SendEof` and `ReceivePacket` stand for FFmpeg calls and are assumptions made
  concrete.
- Packetization, assembly, the wire protocol and the session lifecycle: only the delay meter sees a packetized frame.
- `ObserveDeadlineExpired` takes the time as a parameter; the program reads the clock.
- The datagrams given to the resend store are sequences of bytes of which only lengths and identity matter.
- UTF-8: `RouteRecord` works on bytes, and validity of the text is not modelled.
- Audio endpoint selection and the loops that apply and restore a route, which depend on Windows.
- Promises and microtasks of the queue: handlers are steps, and their values are opaque.
- `SessionRegistry`, `LatestQueue`, `PointerRouting`, `RawInputState`, `machine-state.js` and command lines: easy
  members.
- Capture, encoding, rendering, discovery, installation and the client interface: input and output.
