/** The stream policy on a link that loses nothing and whose delay stands at one of three levels, with a host that adds
    no delay of its own. */
module VideoStreamLinks {
  import opened Numbers
  import opened BitrateModel
  import opened BitrateInvariants
  import opened BitrateConvergence
  import opened BitratePauses
  import opened BitrateHolds
  import opened LatencyModel
  import opened LatencyLevels
  import opened VideoStreamModel
  import opened VideoStreamRuns
  import opened VideoStreamConvergence
  import opened VideoStreamHolds
  import D = SourceDelay
  import LatencyRuns

  const NO_PATH := Path(0, 0)

  /** An interval in which nothing is lost. */
  function Lossless(micros: U64): Delivery {
    Delivery(0, 0, micros, 0, 0, 0, 0)
  }

  ghost predicate NothingLost(d: Delivery) {
    d.receivedChunks == 0 && d.lostChunks == 0 && d.lateChunks == 0 && d.assemblyOverflows == 0
      && d.incompleteFrames == 0
  }

  /** What the player reports: nothing lost, a delay, and the bitrate in force presented. */
  function LinkEvent(micros: U64, delay: U64, bitrate: U64, now: nat): Event {
    ReceivedWithLatency(NO_PATH, Lossless(micros), Some(LevelReport(delay, bitrate)), now)
  }

  function AfterReport(p: Policy, micros: U64, delay: U64, bitrate: U64, now: nat): Policy {
    p.ObserveReceiverWithLatency(NO_PATH, Lossless(micros), Some(LevelReport(delay, bitrate)), now).policy
  }

  /** The host adds no delay of its own now, and the last interval had no excess that still counts. */
  ghost predicate Quiet(source: D.Delays) {
    source.delays == [] && source.previousExcess == 0
  }

  /** The stream is on such a link, and n delays of it were judged. */
  ghost predicate Linked(p: Policy, n: nat) {
    && Unpressed(p.bitrate) && p.bitrate.mediaDelayMeasured && NothingLost(p.bitrate.previousDelivery)
    && p.latency.Some? && Watches(p.latency.value, n, p.bitrate.target)
  }

  ghost predicate OnLink(p: Policy, n: nat) {
    Linked(p, n) && Quiet(p.source)
  }

  /** The report is judged by this delay. */
  ghost predicate JudgedAs(p: Policy, report: LatencyReport, delay: U64, now: nat) {
    var seen := Seen(p, Some(report), now);
    seen.report.Some? && Shows(seen.report.value, delay, p.bitrate.target)
  }

  ghost predicate Expects(p: Policy, n: nat, delay: U64, now: nat) {
    OnLink(p, n) && CanFollow(n, delay) && InTime(p.latency.value, p.bitrate.target, now)
  }

  /** What is shown, less the excess of the host. */
  lemma ExcessTaken(p: Policy, shown: U64, excess: U64, now: nat)
    requires p.source.TakeExcess().1 == excess < shown <= MAX_MEASUREMENT
    ensures JudgedAs(p, LevelReport(shown, p.bitrate.target), shown - excess, now)
  {
    hide D.Delays.TakeExcess;
  }

  lemma QuietTakesNone(source: D.Delays)
    requires Quiet(source)
    ensures source.TakeExcess() == (source, 0)
  {
  }

  lemma LinkSeen(p: Policy, n: nat, delay: U64, now: nat)
    requires OnLink(p, n) && IsLevel(delay)
    ensures JudgedAs(p, LevelReport(delay, p.bitrate.target), delay, now)
    ensures p.source.TakeExcess() == (p.source, 0)
  {
    hide Unpressed, Watches, JudgedAs, LevelReport;
    QuietTakesNone(p.source);
    ExcessTaken(p, delay, 0, now);
  }

  lemma JudgedEvaluates(p: Policy, n: nat, delay: U64, now: nat, report: LatencyReport)
    requires Linked(p, n) && CanFollow(n, delay) && InTime(p.latency.value, p.bitrate.target, now)
    requires JudgedAs(p, report, delay, now)
    ensures var (observed, evaluation) := p.Evaluate(Some(report), now);
      LevelStep(p.latency.value, n, delay, p.bitrate.target, now, observed, evaluation)
  {
    hide Unpressed, Watches, InTime, Policy.Evaluate, LatencyRuns.Step, LatencyRuns.Answer, Shows, LevelStep,
      WithoutExcess, D.Delays.TakeExcess;
    EvaluationIsAnAnswer(p, Some(report), now);
    var seen := Seen(p, Some(report), now);
    LevelSteps(p.latency.value, n, delay, p.bitrate.target, now, seen.report.value);
  }

  lemma LinkEvaluates(p: Policy, n: nat, delay: U64, now: nat)
    requires Expects(p, n, delay, now)
    ensures var (observed, evaluation) := p.Evaluate(Some(LevelReport(delay, p.bitrate.target)), now);
      LevelStep(p.latency.value, n, delay, p.bitrate.target, now, observed, evaluation)
  {
    hide Unpressed, Watches, InTime, Policy.Evaluate, LevelReport, LevelStep, JudgedAs;
    LinkSeen(p, n, delay, now);
    JudgedEvaluates(p, n, delay, now, LevelReport(delay, p.bitrate.target));
  }

  lemma LosslessIsClean(s: Controller, micros: U64)
    requires TargetInRange(s) && micros > 0
    ensures CleanReport(s, Report(NO_PATH, Lossless(micros)))
  {
  }

  lemma ForgettingWatches(p: Policy, observed: Latency, n: nat, bitrate: U64)
    requires Watches(observed, n, bitrate)
    ensures var limits := p.KnownLimits(observed);
      && Watches(limits, n, bitrate) && limits.changedAt == observed.changedAt
      && limits.lastReportAt == observed.lastReportAt
      && limits.retrySeconds == observed.retrySeconds && limits.lastCutAt == observed.lastCutAt
      && limits.pressureStreak == observed.pressureStreak
  {
    hide Levelled;
  }

  /** A report for which latency asks no reduction: the controller answers it alone. */
  lemma UncutOnLink(p: Policy, n: nat, micros: U64, delay: U64, now: nat, q: Policy)
    requires Expects(p, n, delay, now) && q == AfterReport(p, micros, delay, p.bitrate.target, now)
    requires p.Evaluate(Some(LevelReport(delay, p.bitrate.target)), now).1.reduceTo.None?
    ensures var (observed, evaluation) := p.Evaluate(Some(LevelReport(delay, p.bitrate.target)), now);
      var o := Asked(p, observed).Observe(NO_PATH, Lossless(micros), evaluation.allowIncrease);
      && q.bitrate == o.state && q.source == p.source
      && (o.change.None? ==> q.latency == Some(p.KnownLimits(observed)))
  {
    LinkEvaluates(p, n, delay, now);
    LinkSeen(p, n, delay, now);
    hide Controller.Observe, Policy.Evaluate, LevelReport, Expects, Policy.KnownLimits, Asked,
      Policy.ObserveReceiverWithLatency;
    HeldShape(p, NO_PATH, Lossless(micros), Some(LevelReport(delay, p.bitrate.target)), now);
  }

  /** Latency asks for nothing, so the target, the probe and what is on record stay. */
  ghost predicate Unmoved(p: Policy, q: Policy, micros: U64) {
    && q.bitrate.target == p.bitrate.target && q.bitrate.activeProbe == p.bitrate.activeProbe
    && q.bitrate.provisionalCeiling == p.bitrate.provisionalCeiling
    && q.bitrate.failedProbeTargets == p.bitrate.failedProbeTargets
    && q.bitrate.targetHeld == AddU64(p.bitrate.targetHeld, micros) && q.bitrate.healthyReports == 0
  }

  /** What a stream on a link that loses nothing keeps, whatever its latency policy knows. */
  ghost predicate Undelivered(p: Policy) {
    && Unpressed(p.bitrate) && p.bitrate.mediaDelayMeasured && NothingLost(p.bitrate.previousDelivery)
    && p.latency.Some?
  }

  lemma NothingAsked(p: Policy, micros: U64, now: nat, report: LatencyReport, q: Policy)
    requires Undelivered(p) && micros > 0 && p.Evaluate(Some(report), now).1 == NOTHING
    requires q == p.ObserveReceiverWithLatency(NO_PATH, Lossless(micros), Some(report), now).policy
    ensures Undelivered(q) && Unmoved(p, q, micros) && q.source == p.source.TakeExcess().0
    ensures q.latency == Some(p.KnownLimits(p.Evaluate(Some(report), now).0))
  {
    hide Controller.Observe, Policy.Evaluate, Valid, CleanReport, Ready, D.Delays.TakeExcess, Policy.KnownLimits,
      Policy.ObserveReceiverWithLatency;
    assert TargetInRange(p.bitrate) by { UndeliveredInRange(p); }
    var observed := p.Evaluate(Some(report), now).0;
    var s, r := Asked(p, observed), Report(NO_PATH, Lossless(micros));
    HeldShape(p, NO_PATH, Lossless(micros), Some(report), now);
    LosslessIsClean(p.bitrate, micros);
    AskedIsClean(p, StreamReport(NO_PATH, Lossless(micros), Some(report), now), observed);
    PausedReportKeepsProbe(s, r);
    PausedReportOnlyMeasures(s, r);
    ReadyRemembers(s, r);
  }

  lemma UndeliveredInRange(p: Policy)
    requires Undelivered(p)
    ensures TargetInRange(p.bitrate)
  {
  }

  /** A report that the latency policy answers with nothing, whatever the host added to what it shows. */
  lemma HeldAs(p: Policy, n: nat, micros: U64, delay: U64, now: nat, report: LatencyReport, q: Policy)
    requires Linked(p, n) && CanFollow(n, delay) && InTime(p.latency.value, p.bitrate.target, now)
    requires JudgedAs(p, report, delay, now) && micros > 0
    requires p.latency.value.pressureStreak == 0 || !Exceeds(n, delay)
    requires p.Evaluate(Some(report), now).1 == NOTHING
    requires q == p.ObserveReceiverWithLatency(NO_PATH, Lossless(micros), Some(report), now).policy
    ensures Linked(q, n + 1) && Unmoved(p, q, micros) && q.source == p.source.TakeExcess().0
    ensures q.latency == Some(p.KnownLimits(p.Evaluate(Some(report), now).0))
  {
    hide Policy.Evaluate, Unpressed, Levelled, LevelStep, Exceeds, JudgedAs, D.Delays.TakeExcess, Policy.KnownLimits,
      InTime, Policy.ObserveReceiverWithLatency;
    var (observed, evaluation) := p.Evaluate(Some(report), now);
    JudgedEvaluates(p, n, delay, now, report);
    NothingAsked(p, micros, now, report, q);
    StepWatches(p.latency.value, n, delay, p.bitrate.target, now, observed, evaluation);
    ForgettingWatches(p, observed, n + 1, p.bitrate.target);
  }

  /** The same with a quiet host. */
  lemma HeldOnLink(p: Policy, n: nat, micros: U64, delay: U64, now: nat, q: Policy)
    requires Expects(p, n, delay, now) && micros > 0
    requires p.latency.value.pressureStreak == 0 || !Exceeds(n, delay)
    requires p.Evaluate(Some(LevelReport(delay, p.bitrate.target)), now).1 == NOTHING
    requires q == AfterReport(p, micros, delay, p.bitrate.target, now)
    ensures OnLink(q, n + 1) && Unmoved(p, q, micros)
    ensures q.latency == Some(p.KnownLimits(p.Evaluate(Some(LevelReport(delay, p.bitrate.target)), now).0))
  {
    hide Policy.Evaluate, Linked, LevelReport, JudgedAs, Unmoved, InTime, Policy.ObserveReceiverWithLatency;
    hide D.Delays.TakeExcess, Policy.KnownLimits;
    LinkSeen(p, n, delay, now);
    HeldAs(p, n, micros, delay, now, LevelReport(delay, p.bitrate.target), q);
  }

  lemma LinkedInRange(p: Policy, n: nat)
    requires Linked(p, n)
    ensures TargetInRange(p.bitrate)
  {
  }

  lemma StepWatches(s: Latency, n: nat, delay: U64, bitrate: U64, now: nat, t: Latency, answer: Evaluation)
    requires Watches(s, n, bitrate) && LevelStep(s, n, delay, bitrate, now, t, answer) && answer.reduceTo.None?
    requires s.pressureStreak == 0 || !Exceeds(n, delay)
    ensures Watches(t, n + 1, bitrate)
  {
    hide Levelled;
  }
}
