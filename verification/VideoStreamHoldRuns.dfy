/** Two runs in which a cut of a bitrate that held for a minute does more than the documentation allows it: in one a
    limit falls, in the other the wait is longer. Both start from a measured capacity and report every two seconds. */
module VideoStreamHoldRuns {
  import opened Numbers
  import opened BitrateModel
  import opened BitrateInvariants
  import opened BitrateConvergence
  import opened BitratePauses
  import opened BitrateHolds
  import opened LatencyModel
  import opened LatencyLevels
  import opened VideoStreamModel
  import opened VideoStreamRuns
  import opened VideoStreamConvergence
  import opened VideoStreamHolds
  import opened VideoStreamLinks

  const MAXIMUM: U64 := 20_000_000
  const MEASURED: U64 := 10_000_000
  const START: U64 := 7_000_000
  const LOWERED: U64 := 5_250_000
  const INTERVAL: U64 := 2_000_000
  const TWO_SECONDS: nat := 2_000_000_000
  const HALF_LOST := Delivery(10, 0, 500_000, 10, 0, 0, 0)

  /** What the n-th report says: the delay, and the bitrate the player presents. */
  datatype Told = Told(delay: U64, bitrate: U64)

  /** Latency control is turned on, and n reports follow, two seconds apart. */
  ghost function ReportRun(told: nat -> Told, n: nat): seq<Event> {
    if n == 0 then [LatencyEnabled(ABSOLUTE, 0)]
    else ReportRun(told, n - 1) + [LinkEvent(INTERVAL, told(n).delay, told(n).bitrate, n * TWO_SECONDS)]
  }

  lemma {:induction false} ReportRunEvents(told: nat -> Told, n: nat)
    ensures |ReportRun(told, n)| == n + 1 && ReportRun(told, n)[0] == LatencyEnabled(ABSOLUTE, 0)
    ensures forall i: nat :: 1 <= i <= n ==>
      ReportRun(told, n)[i] == LinkEvent(INTERVAL, told(i).delay, told(i).bitrate, i * TWO_SECONDS)
  {
    if n > 0 {
      ReportRunEvents(told, n - 1);
    }
  }

  ghost function AfterRun(told: nat -> Told, n: nat): Policy {
    Run(ProbedPolicy(MAXIMUM, MEASURED), ReportRun(told, n))
  }

  lemma AfterRunSteps(told: nat -> Told, n: nat)
    ensures AfterRun(told, n + 1) ==
      AfterReport(AfterRun(told, n), INTERVAL, told(n + 1).delay, told(n + 1).bitrate, (n + 1) * TWO_SECONDS)
  {
    hide Policy.ObserveReceiverWithLatency;
    var init, e := ReportRun(told, n),
      LinkEvent(INTERVAL, told(n + 1).delay, told(n + 1).bitrate, (n + 1) * TWO_SECONDS);
    assert ReportRun(told, n + 1) == init + [e] && (init + [e])[..|init|] == init;
  }

  // The startup probe stays open while the delay leaves no room

  ghost predicate Remembers(s: Latency, changedAt: nat, n: nat, streak: U8, retry: nat, lastCutAt: Option<nat>) {
    && s.changedAt == changedAt && s.lastReportAt == (if n == 0 then None else Some(n * TWO_SECONDS))
    && s.pressureStreak == streak && s.retrySeconds == retry && s.lastCutAt == lastCutAt
  }

  /** Nothing has happened to the target since the session began. */
  ghost predicate ProbeOpen(p: Policy, n: nat, streak: U8) {
    && OnLink(p, n) && p.bitrate.target == START && p.bitrate.activeProbe == Some(Probe(None, START, 0))
    && p.bitrate.provisionalCeiling == Some(MEASURED) && p.bitrate.failedProbeTargets == []
    && p.bitrate.targetHeld == n * INTERVAL && Remembers(p.latency.value, 0, n, streak, 5, None)
  }

  lemma StartHasProbeOpen(told: nat -> Told)
    ensures ProbeOpen(AfterRun(told, 0), 0, 0)
  {
    FromStartupProbeValid(MAXIMUM, MEASURED);
    assert Percentage(MEASURED, 70) == START;
    var start := ProbedPolicy(MAXIMUM, MEASURED);
    assert ReportRun(told, 0)[..0] == [] && Run(start, []) == start;
  }

  lemma ProbeStaysOpen(p: Policy, n: nat, delay: U64, q: Policy)
    requires ProbeOpen(p, n, 0) && n < 40 && CanFollow(n, delay) && (n + 1 >= BASELINE_SAMPLES ==> delay != LOW)
    requires q == AfterReport(p, INTERVAL, delay, START, (n + 1) * TWO_SECONDS)
    ensures ProbeOpen(q, n + 1, if Exceeds(n, delay) then 1 else 0)
  {
    hide Policy.ObserveReceiverWithLatency, Policy.Evaluate, Watches, LevelReport, Unpressed;
    LinkEvaluates(p, n, delay, (n + 1) * TWO_SECONDS);
    HeldOnLink(p, n, INTERVAL, delay, (n + 1) * TWO_SECONDS, q);
  }

  /** The first two delays set the baseline, and all later ones use three quarters of the allowance. */
  ghost function Pressed(): nat -> Told {
    (n: nat) => Told(if n <= 2 then LOW else HIGH, START)
  }

  lemma {:induction false} PressedKeepsProbe(n: nat)
    requires n <= 30
    ensures ProbeOpen(AfterRun(Pressed(), n), n, 0)
  {
    hide ProbeOpen, AfterRun, AfterReport;
    if n == 0 {
      StartHasProbeOpen(Pressed());
    } else {
      PressedKeepsProbe(n - 1);
      AfterRunSteps(Pressed(), n - 1);
      ProbeStaysOpen(AfterRun(Pressed(), n - 1), n - 1, Pressed()(n).delay, AfterRun(Pressed(), n));
    }
  }

  lemma LossFallsBack(s: Controller)
    requires NothingLost(s.previousDelivery)
    ensures ReportFallsBack(s, NO_PATH, HALF_LOST, false)
  {
    assert SuddenLoss(s.previousDelivery, HALF_LOST);
  }

  lemma OpenProbeHeld(p: Policy)
    requires ProbeOpen(p, 30, 0)
    ensures HeldForAMinute(p, HALF_LOST, 31 * TWO_SECONDS) && NothingLost(p.bitrate.previousDelivery)
    ensures p.bitrate.target > BOOTSTRAP && p.bitrate.activeProbe.Some? && FailureWouldLower(p.bitrate)
    ensures p.bitrate.DeliveryCeiling() == Some(MEASURED) && Valid(p.bitrate)
  {
    hide Watches;
  }

  lemma OpenProbeFails(p: Policy, r: Result)
    requires ProbeOpen(p, 30, 0)
    requires r == p.ObserveReceiverWithLatency(NO_PATH, HALF_LOST, Some(LevelReport(HIGH, START)), 31 * TWO_SECONDS)
    ensures HeldForAMinute(p, HALF_LOST, 31 * TWO_SECONDS)
    ensures p.bitrate.DeliveryCeiling() == Some(MEASURED) && Lowered(Some(MEASURED), r.policy.bitrate.DeliveryCeiling())
  {
    var now, report := 31 * TWO_SECONDS, Some(LevelReport(HIGH, START));
    LinkEvaluates(p, 30, HIGH, now);
    OpenProbeHeld(p);
    hide Controller.Observe, Policy.ObserveReceiverWithLatency, ReportFallsBack, Policy.Evaluate, LevelReport, OnLink;
    hide Lowered, FailureWouldLower, Valid, Controller.DeliveryCeiling, Levelled;
    HeldShape(p, NO_PATH, HALF_LOST, report, now);
    var s := Asked(p, p.Evaluate(report, now).0);
    AskedIsSame(p, p.Evaluate(report, now).0);
    LossFallsBack(s);
    LossFallsBack(p.bitrate);
    ReportCutsIff(s, NO_PATH, HALF_LOST, false);
    HeldCutKeepsPromise(p, NO_PATH, HALF_LOST, report, now);
  }

  /** A session starts at 70 percent of the capacity measured, with that capacity as its limit. A minute of reports that
      lose nothing and whose delays use three quarters of the allowance keeps the startup probe open. When half of the
      chunks are then lost, the limit falls, although the bitrate had held for a minute. */
  lemma HeldProbeLowersALimit() returns (es: seq<Event>, p: Policy, r: Result)
    ensures |es| == 31 && es[0] == LatencyEnabled(ABSOLUTE, 0)
    ensures forall i: nat :: 1 <= i <= 30 ==>
      es[i] == LinkEvent(INTERVAL, Pressed()(i).delay, Pressed()(i).bitrate, i * TWO_SECONDS)
    ensures p == Run(ProbedPolicy(MAXIMUM, MEASURED), es) && p.latency.Some?
    ensures r == p.ObserveReceiverWithLatency(NO_PATH, HALF_LOST, Some(LevelReport(HIGH, START)), 31 * TWO_SECONDS)
    ensures HeldForAMinute(p, HALF_LOST, 31 * TWO_SECONDS)
    ensures p.bitrate.DeliveryCeiling() == Some(MEASURED) && Lowered(Some(MEASURED), r.policy.bitrate.DeliveryCeiling())
  {
    es := ReportRun(Pressed(), 30);
    ReportRunEvents(Pressed(), 30);
    PressedKeepsProbe(30);
    p := AfterRun(Pressed(), 30);
    r := p.ObserveReceiverWithLatency(NO_PATH, HALF_LOST, Some(LevelReport(HIGH, START)), 31 * TWO_SECONDS);
    OpenProbeFails(p, r);
  }

  // An incident before the hold leaves its delay behind

  /** The same, save that the sixth and seventh delay, and the 38th and 39th, are over the budget. From the eighth
      report on the player presents the bitrate that the cut left. */
  ghost function Jammed(): nat -> Told {
    (n: nat) => Told(if n <= 2 then LOW else if n in {6, 7, 38, 39} then OVER else HIGH,
                     if n <= 7 then START else LOWERED)
  }

  /** The bitrate after that cut holds since the seventh report. */
  ghost predicate Holding(p: Policy, n: nat, streak: U8) {
    && n >= 7 && OnLink(p, n) && p.bitrate.target == LOWERED && p.bitrate.targetHeld == (n - 7) * INTERVAL
    && Remembers(p.latency.value, 7 * TWO_SECONDS, n, streak, 10, Some(7 * TWO_SECONDS))
  }

  /** What a cut leaves alone. */
  ghost predicate SameSignals(s: Controller, t: Controller) {
    && t.senderPressureEvents == s.senderPressureEvents && t.mediaDelayMeasured == s.mediaDelayMeasured
    && t.previousDelivery == s.previousDelivery
  }

  lemma GivenUpStays(s: Controller)
    ensures SameSignals(s, s.GiveUpProbe()) && s.GiveUpProbe().target == s.target
      && s.GiveUpProbe().maximum == s.maximum
  {
  }

  lemma AbandonedStays(s: Controller)
    ensures SameSignals(s, s.AbandonReturn()) && s.AbandonReturn().target == s.target
  {
  }

  lemma SetTargetLands(s: Controller, bits: U64)
    requires BOOTSTRAP <= bits < s.target <= s.maximum
    ensures var o := s.SetTarget(bits, Congestion, LatencyPressure);
      o.change.Some? && o.state.target == bits && o.state.targetHeld == 0 && SameSignals(s, o.state)
  {
    hide Controller.AbandonReturn;
    AbandonedStays(s.(recoveryCooldown := RECOVERY_COOLDOWN));
  }

  lemma CutLands(s: Controller)
    requires TargetInRange(s) && s.target == START
    ensures var o := s.SetLatencyTarget(LOWERED, 10_000_000);
      o.change.Some? && o.state.target == LOWERED && o.state.targetHeld == 0 && SameSignals(s, o.state)
  {
    hide Controller.GiveUpProbe, Controller.SetTarget;
    GivenUpStays(s);
    SetTargetLands(s.GiveUpProbe(), LOWERED);
  }

  lemma UnpressedInRange(s: Controller)
    requires Unpressed(s)
    ensures TargetInRange(s)
  {
  }

  /** A paused report and the cut on top of it. */
  lemma PausedThenCut(s: Controller, r: Report)
    requires Unpressed(s) && CleanReport(s, r) && s.target == START && NothingLost(r.delivery)
    ensures var o := s.Observe(r.path, r.delivery, false).AlsoReduce(Some(LOWERED), 10_000_000);
      && o.change.Some? && Unpressed(o.state) && o.state.target == LOWERED && o.state.targetHeld == 0
      && o.state.mediaDelayMeasured == s.mediaDelayMeasured && NothingLost(o.state.previousDelivery)
  {
    hide Controller.Observe, CleanReport, Ready, Controller.SetLatencyTarget, Valid, NothingLost;
    PausedReportKeepsProbe(s, r);
    PausedReportOnlyMeasures(s, r);
    ReadyRemembers(s, r);
    var u := s.Observe(r.path, r.delivery, false).state;
    assert TargetInRange(u) by { UnpressedInRange(u); }
    CutLands(u);
    SetLatencyTargetFalls(u, LOWERED, 10_000_000);
  }

  /** What the latency policy makes of the seventh report. */
  lemma FirstCutAsked(p: Policy, report: Option<LatencyReport>, now: nat)
    requires ProbeOpen(p, 6, 1) && report == Some(LevelReport(OVER, START)) && now == 7 * TWO_SECONDS
    ensures var (observed, evaluation) := p.Evaluate(report, now);
      && evaluation == Evaluation(false, Some(LOWERED), None)
      && Watches(observed, 7, LOWERED) && Remembers(observed, 0, 7, 0, 10, Some(now))
  {
    hide Policy.Evaluate, Levelled, LevelReport, Unpressed;
    LinkEvaluates(p, 6, OVER, now);
  }

  lemma FirstCut(p: Policy, q: Policy)
    requires ProbeOpen(p, 6, 1) && q == AfterReport(p, INTERVAL, OVER, START, 7 * TWO_SECONDS)
    ensures Holding(q, 7, 0)
  {
    var now, report := 7 * TWO_SECONDS, Some(LevelReport(OVER, START));
    FirstCutAsked(p, report, now);
    LinkSeen(p, 6, OVER, now);
    LinkedInRange(p, 6);
    hide Controller.Observe, Policy.Evaluate, Watches, LevelReport, CleanReport, Outcome.AlsoReduce, Policy.KnownLimits;
    hide Unpressed, Policy.ObserveReceiverWithLatency, Latency.BitrateChanged, TargetInRange, NothingLost;
    var (observed, evaluation) := p.Evaluate(report, now);
    HeldShape(p, NO_PATH, Lossless(INTERVAL), report, now);
    LosslessIsClean(p.bitrate, INTERVAL);
    AskedIsClean(p, StreamReport(NO_PATH, Lossless(INTERVAL), report, now), observed);
    LosesNothing(INTERVAL);
    PausedThenCut(Asked(p, observed), Report(NO_PATH, Lossless(INTERVAL)));
    ForgettingWatches(p, observed, 7, LOWERED);
    ChangeKeepsWatching(p.KnownLimits(observed), 7, LOWERED, now);
  }

  lemma LosesNothing(micros: U64)
    ensures NothingLost(Lossless(micros))
  {
  }

  lemma ChangeKeepsWatching(s: Latency, n: nat, bitrate: U64, now: nat)
    requires Watches(s, n, bitrate)
    ensures var t := s.BitrateChanged(now);
      && Watches(t, n, bitrate) && t.changedAt == now && t.lastReportAt == s.lastReportAt
      && t.pressureStreak == s.pressureStreak && t.retrySeconds == s.retrySeconds && t.lastCutAt == s.lastCutAt
  {
  }

  lemma HoldGoesOn(p: Policy, n: nat, delay: U64, q: Policy)
    requires Holding(p, n, 0) && n < 40 && delay in {HIGH, OVER}
    requires q == AfterReport(p, INTERVAL, delay, LOWERED, (n + 1) * TWO_SECONDS)
    ensures Holding(q, n + 1, if delay == OVER then 1 else 0)
  {
    hide Policy.ObserveReceiverWithLatency, Policy.Evaluate, Watches, LevelReport, Unpressed;
    LinkEvaluates(p, n, delay, (n + 1) * TWO_SECONDS);
    HeldOnLink(p, n, INTERVAL, delay, (n + 1) * TWO_SECONDS, q);
  }

  lemma {:induction false} JammedKeepsProbe(n: nat)
    requires n <= 6
    ensures ProbeOpen(AfterRun(Jammed(), n), n, if n == 6 then 1 else 0)
  {
    hide ProbeOpen, AfterRun, AfterReport;
    if n == 0 {
      StartHasProbeOpen(Jammed());
    } else {
      JammedKeepsProbe(n - 1);
      AfterRunSteps(Jammed(), n - 1);
      ProbeStaysOpen(AfterRun(Jammed(), n - 1), n - 1, Jammed()(n).delay, AfterRun(Jammed(), n));
    }
  }

  lemma {:induction false} JammedHolds(n: nat)
    requires 7 <= n <= 38
    ensures Holding(AfterRun(Jammed(), n), n, if n == 38 then 1 else 0)
  {
    hide ProbeOpen, Holding, AfterRun, AfterReport;
    AfterRunSteps(Jammed(), n - 1);
    if n == 7 {
      JammedKeepsProbe(6);
      FirstCut(AfterRun(Jammed(), 6), AfterRun(Jammed(), 7));
    } else {
      JammedHolds(n - 1);
      HoldGoesOn(AfterRun(Jammed(), n - 1), n - 1, Jammed()(n).delay, AfterRun(Jammed(), n));
    }
  }

  lemma SecondCut(p: Policy, r: Result)
    requires Holding(p, 38, 1)
    requires r == p.ObserveReceiverWithLatency(NO_PATH, Lossless(INTERVAL), Some(LevelReport(OVER, LOWERED)),
                                               39 * TWO_SECONDS)
    ensures HeldForAMinute(p, Lossless(INTERVAL), 39 * TWO_SECONDS)
    ensures p.Evaluate(Some(LevelReport(OVER, LOWERED)), 39 * TWO_SECONDS).1.reduceTo.Some?
    ensures r.answer.Continue? && r.answer.change.Some? && r.answer.change.value.reason == Congestion
    ensures r.policy.bitrate.recoveryCooldown == 10_000_000
  {
    var now, report := 39 * TWO_SECONDS, Some(LevelReport(OVER, LOWERED));
    LinkEvaluates(p, 38, OVER, now);
    hide Policy.ObserveReceiverWithLatency, Policy.Evaluate, Watches, LevelReport, Levelled, Controller.Observe;
    hide Outcome.AlsoReduce, DeliveryPromise, Lowered;
    HeldShape(p, NO_PATH, Lossless(INTERVAL), report, now);
    ReportMovesOneWay(p, NO_PATH, Lossless(INTERVAL), report, now);
    HeldCutKeepsPromise(p, NO_PATH, Lossless(INTERVAL), report, now);
  }

  /** Two delays over the budget cut the startup bitrate. The bitrate left then holds for a minute, until two more such
      delays cut it too, and the wait for the next rise is ten seconds instead of five. */
  lemma HeldLatencyCutWaitsLonger() returns (es: seq<Event>, p: Policy, r: Result)
    ensures |es| == 39 && es[0] == LatencyEnabled(ABSOLUTE, 0)
    ensures forall i: nat :: 1 <= i <= 38 ==>
      es[i] == LinkEvent(INTERVAL, Jammed()(i).delay, Jammed()(i).bitrate, i * TWO_SECONDS)
    ensures p == Run(ProbedPolicy(MAXIMUM, MEASURED), es) && p.latency.Some?
    ensures r == p.ObserveReceiverWithLatency(NO_PATH, Lossless(INTERVAL), Some(LevelReport(OVER, LOWERED)),
                                              39 * TWO_SECONDS)
    ensures HeldForAMinute(p, Lossless(INTERVAL), 39 * TWO_SECONDS)
    ensures p.Evaluate(Some(LevelReport(OVER, LOWERED)), 39 * TWO_SECONDS).1.reduceTo.Some?
    ensures r.answer.Continue? && r.answer.change.Some? && r.answer.change.value.reason == Congestion
    ensures r.policy.bitrate.recoveryCooldown == 10_000_000 > RECOVERY_COOLDOWN
  {
    es := ReportRun(Jammed(), 38);
    ReportRunEvents(Jammed(), 38);
    JammedHolds(38);
    p := AfterRun(Jammed(), 38);
    r := p.ObserveReceiverWithLatency(NO_PATH, Lossless(INTERVAL), Some(LevelReport(OVER, LOWERED)), 39 * TWO_SECONDS);
    SecondCut(p, r);
  }
}
