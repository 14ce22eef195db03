/** What the stream policy guarantees over whole runs of reports, drops, deadlines and frames. */
module VideoStreamRuns {
  import opened Numbers
  import opened BitrateModel
  import opened BitrateInvariants
  import opened LatencyModel
  import opened VideoStreamModel
  import BitrateCuts
  import Cuts = LatencyCuts
  import LatencyRuns

  datatype Event =
    | Received(path: Path, delivery: Delivery)
    | ReceivedWithLatency(path: Path, delivery: Delivery, report: Option<LatencyReport>, now: nat)
    | LatencyEnabled(maximumDelay: U64, now: nat)
    | QueueDropped
    | DeadlineExpired(now: nat)
    | KeyframeRequired
    | KeyframePolled(now: nat)
    | FrameEncoded(sequence: U64, keyframe: bool)
    | Packetized(captured: U64, encoded: U64)

  function Handle(p: Policy, e: Event): Result {
    match e
    case Received(path, d) => p.ObserveReceiver(path, d)
    case ReceivedWithLatency(path, d, report, now) => p.ObserveReceiverWithLatency(path, d, report, now)
    case LatencyEnabled(maximumDelay, now) => Result(p.EnableLatencyControl(maximumDelay, now), Continue(None))
    case QueueDropped => Result(p.ObserveQueueDrop(), Continue(None))
    case DeadlineExpired(now) => p.ObserveDeadlineExpired(now)
    case KeyframeRequired => Result(p.RequireKeyframe(), Continue(None))
    case KeyframePolled(now) => Result(p.KeyframeRequestDue(now).0, Continue(None))
    case FrameEncoded(sequence, keyframe) => Result(p.AcceptEncodedFrame(sequence, keyframe).0, Continue(None))
    case Packetized(captured, encoded) => Result(p.FramePacketized(captured, encoded), Continue(None))
  }

  function Run(start: Policy, es: seq<Event>): Policy {
    if es == [] then start else Handle(Run(start, es[..|es| - 1]), es[|es| - 1]).policy
  }

  ghost predicate Started(p: Policy) {
    || (exists maximum: U64 :: p == NewPolicy(maximum))
    || (exists maximum: U64, measured: U64 :: p == ProbedPolicy(maximum, measured))
  }

  // One event moves the target one way

  /** The answer a caller acts on: none means the target is where it was, and a change names where it went and why. */
  ghost predicate Honest(before: Policy, r: Result) {
    match r.answer
    case EndSession(_) => r.policy.bitrate == before.bitrate
    case Continue(change) => OneWay(before.bitrate.target, Outcome(r.policy.bitrate, change))
  }

  lemma AlsoReduceFalls(s: Controller, o: Outcome, reduceTo: U64, cooldown: U64)
    requires Valid(s) && Falls(s, o)
    ensures Falls(s, o.AlsoReduce(Some(reduceTo), cooldown))
    ensures BOOTSTRAP < s.target && reduceTo < s.target ==>
      o.AlsoReduce(Some(reduceTo), cooldown).state.target < s.target
  {
    var goal: U64 := if reduceTo <= o.state.target then reduceTo else o.state.target;
    SetLatencyTargetFalls(o.state, goal, cooldown);
  }

  /** The report as the latency policy sees it: without the host's own delay, and next to the bitrate in force. */
  ghost function Seen(p: Policy, report: Option<LatencyReport>, now: nat): LatencyRuns.Event {
    var excess := p.source.TakeExcess().1;
    LatencyRuns.Reported(if report.None? then None else Some(WithoutExcess(report.value, excess)), p.bitrate.target,
                         now)
  }

  lemma EvaluationIsAnAnswer(p: Policy, report: Option<LatencyReport>, now: nat)
    requires p.latency.Some?
    ensures var e := Seen(p, report, now);
      p.Evaluate(report, now) == (LatencyRuns.Step(p.latency.value, e), LatencyRuns.Answer(p.latency.value, e))
  {
  }

  /** The latency policy asks for a reduction only of a target above the bootstrap, and never together with a rise. */
  lemma ReductionsAreReal(p: Policy, report: Option<LatencyReport>, now: nat)
    requires p.latency.Some? && p.Evaluate(report, now).1.reduceTo.Some?
    ensures var evaluation := p.Evaluate(report, now).1;
      !evaluation.allowIncrease && BOOTSTRAP < p.bitrate.target && evaluation.reduceTo.value < p.bitrate.target
  {
    EvaluationIsAnAnswer(p, report, now);
    Cuts.EventCuts(p.latency.value, Seen(p, report, now));
  }

  lemma VerdictMovesOneWay(p: Policy, limits: Latency, evaluation: Evaluation, path: Path, d: Delivery, now: nat)
    requires Valid(p.bitrate)
    requires evaluation.reduceTo.Some? ==>
      !evaluation.allowIncrease && BOOTSTRAP < p.bitrate.target && evaluation.reduceTo.value < p.bitrate.target
    ensures var r := p.ApplyVerdict(limits, evaluation, path, d, now);
      && r.answer.Continue? && Honest(p, r) && Valid(r.policy.bitrate) && r.policy.bitrate.maximum == p.bitrate.maximum
      && (evaluation.reduceTo.Some? ==> r.policy.bitrate.target < p.bitrate.target)
  {
    var s := p.bitrate.ConfigureLatencyCeiling(limits.ceiling);
    assert Valid(s);
    ObserveMovesOneWay(s, path, d, evaluation.allowIncrease);
    if evaluation.reduceTo.Some? {
      AlsoReduceFalls(s, s.Observe(path, d, evaluation.allowIncrease), evaluation.reduceTo.value,
                      limits.RetryDelayMicros());
    }
  }

  /** A report changes the target at most once and in one direction, and says so; a latency
      reduction always lowers it. */
  lemma ReportMovesOneWay(p: Policy, path: Path, d: Delivery, report: Option<LatencyReport>, now: nat)
    requires Valid(p.bitrate)
    ensures var r := p.ObserveReceiverWithLatency(path, d, report, now);
      && Honest(p, r) && Valid(r.policy.bitrate) && r.policy.bitrate.maximum == p.bitrate.maximum
      && (p.latency.Some? && r.answer.Continue? && p.Evaluate(report, now).1.reduceTo.Some? ==>
            r.policy.bitrate.target < p.bitrate.target)
  {
    var drained := p.(source := p.source.TakeExcess().0);
    if p.latency.None? {
      ObserveMovesOneWay(p.bitrate, path, d, true);
    } else {
      var (observed, evaluation) := p.Evaluate(report, now);
      if evaluation.reduceTo.Some? {
        ReductionsAreReal(p, report, now);
      }
      if evaluation.failure.None? {
        VerdictMovesOneWay(drained, p.KnownLimits(observed), evaluation, path, d, now);
      }
    }
  }

  /** The controller works under the limit the latency policy knows, or under none while it returns after a collapse. A
      requested reduction is made on top of what the delivery figures ask for, not below the minimum bitrate, and puts
      off the next rise for as long as the latency policy says. The bitrate has to settle again exactly if it moved. */
  ghost predicate Applied(p: Policy, path: Path, d: Delivery, report: Option<LatencyReport>, now: nat, r: Result)
    requires p.latency.Some?
  {
    var (observed, verdict) := p.Evaluate(report, now);
    var limit := if p.bitrate.returningTo.Some? then None else observed.ceiling;
    var o := p.bitrate.(latencyCeiling := limit).Observe(path, d, verdict.allowIncrease);
    && r.answer.Continue? && r.policy.latency.Some? && r.policy.latency.value.ceiling == limit
    && r.policy.latency.value.changedAt == (if r.answer.change.Some? then now else observed.changedAt)
    && (verdict.reduceTo.None? ==> r.policy.bitrate == o.state && r.answer.change == o.change)
    && (verdict.reduceTo.Some? ==>
          && r.policy.bitrate.target == Max(1_000_000, Min(verdict.reduceTo.value, o.state.target))
          && r.policy.bitrate.recoveryCooldown == ToU64(1_000_000 * observed.retrySeconds)
          && r.answer.change == if r.policy.bitrate.target == o.state.target then o.change
                                else Some(Change(r.policy.bitrate.target, Congestion, LatencyPressure)))
  }

  /** A verdict that names a failure ends the session, and any other is applied; without a latency policy the delivery
      figures decide alone. */
  lemma VerdictApplies(p: Policy, path: Path, d: Delivery, report: Option<LatencyReport>, now: nat)
    requires Valid(p.bitrate)
    ensures var r := p.ObserveReceiverWithLatency(path, d, report, now);
      if p.latency.None? then
        r.policy.latency.None? && Outcome(r.policy.bitrate, if r.answer.Continue? then r.answer.change else None)
          == p.bitrate.Observe(path, d, true) && r.answer.Continue?
      else if p.Evaluate(report, now).1.failure.Some?
      then r.answer == EndSession(p.Evaluate(report, now).1.failure.value) && r.policy.bitrate == p.bitrate
      else Applied(p, path, d, report, now, r)
  {
    hide Policy.Evaluate, Controller.Observe, Policy.ApplyVerdict;
    if p.latency.Some? && p.Evaluate(report, now).1.failure.None? {
      var (observed, verdict) := p.Evaluate(report, now);
      var drained := p.(source := p.source.TakeExcess().0);
      assert drained.KnownLimits(observed) == p.KnownLimits(observed);
      VerdictSets(drained, p.KnownLimits(observed), verdict, path, d, now);
    }
  }

  lemma VerdictSets(p: Policy, limits: Latency, verdict: Evaluation, path: Path, d: Delivery, now: nat)
    requires Valid(p.bitrate)
    ensures var o := p.bitrate.(latencyCeiling := limits.ceiling).Observe(path, d, verdict.allowIncrease);
      var r := p.ApplyVerdict(limits, verdict, path, d, now);
      && r.answer.Continue? && r.policy.latency.Some? && r.policy.latency.value.ceiling == limits.ceiling
      && r.policy.latency.value.changedAt == (if r.answer.change.Some? then now else limits.changedAt)
      && (verdict.reduceTo.None? ==> r.policy.bitrate == o.state && r.answer.change == o.change)
      && (verdict.reduceTo.Some? ==>
            && r.policy.bitrate.target == Max(1_000_000, Min(verdict.reduceTo.value, o.state.target))
            && r.policy.bitrate.recoveryCooldown == ToU64(1_000_000 * limits.retrySeconds)
            && r.answer.change == if r.policy.bitrate.target == o.state.target then o.change
                                  else Some(Change(r.policy.bitrate.target, Congestion, LatencyPressure)))
  {
    hide Controller.Observe, Controller.SetLatencyTarget, BitrateCuts.AfterFall, BitrateCuts.GivenUp;
    var s := p.bitrate.(latencyCeiling := limits.ceiling);
    assert s == p.bitrate.ConfigureLatencyCeiling(limits.ceiling);
    LatencyCeilingKeepsValid(p.bitrate, limits.ceiling);
    ObserveMovesOneWay(s, path, d, verdict.allowIncrease);
    if verdict.reduceTo.Some? {
      var o := s.Observe(path, d, verdict.allowIncrease);
      var goal: U64 := if verdict.reduceTo.value <= o.state.target then verdict.reduceTo.value else o.state.target;
      BitrateCuts.LatencyTargetSets(o.state, goal, limits.RetryDelayMicros());
    }
    hide Valid;
  }

  lemma LatencyCeilingKeepsValid(s: Controller, ceiling: Option<U64>)
    requires Valid(s)
    ensures Valid(s.(latencyCeiling := ceiling))
  {
  }

  lemma EventMovesOneWay(p: Policy, e: Event)
    requires Valid(p.bitrate)
    ensures Honest(p, Handle(p, e)) && Valid(Handle(p, e).policy.bitrate)
    ensures Handle(p, e).policy.bitrate.maximum == p.bitrate.maximum
  {
    match e
    case Received(path, d) => ObserveMovesOneWay(p.bitrate, path, d, true);
    case ReceivedWithLatency(path, d, report, now) => ReportMovesOneWay(p, path, d, report, now);
    case DeadlineExpired(now) => SenderCongestionFalls(p.bitrate);
    case _ =>
  }

  /** Every run keeps the controller valid, and every event of every run moves the target one way. */
  lemma {:induction false} RunsStayValid(start: Policy, es: seq<Event>)
    requires Started(start)
    ensures Valid(Run(start, es).bitrate) && Run(start, es).bitrate.maximum == start.bitrate.maximum
    ensures forall k :: 0 <= k < |es| ==> Honest(Run(start, es[..k]), Handle(Run(start, es[..k]), es[k]))
  {
    if es == [] {
      if maximum: U64 :| start == NewPolicy(maximum) {
        NewValid(maximum);
      } else {
        var maximum: U64, measured: U64 :| start == ProbedPolicy(maximum, measured);
        FromStartupProbeValid(maximum, measured);
      }
    } else {
      var init, e := es[..|es| - 1], es[|es| - 1];
      RunsStayValid(start, init);
      EventMovesOneWay(Run(start, init), e);
      forall k | 0 <= k < |es|
        ensures Honest(Run(start, es[..k]), Handle(Run(start, es[..k]), es[k]))
      {
        assert k < |init| ==> es[..k] == init[..k] && es[k] == init[k];
        assert k == |init| ==> es[..k] == init;
      }
    }
  }

  /** Taking the host's own delay out of a report keeps it valid, unless the report gave zero video delay. */
  lemma AdjustedReportValidIff(report: LatencyReport, excess: U64)
    requires report.Valid()
    ensures WithoutExcess(report, excess).Valid() <==> (report.video.Some? ==> report.video.value.delay > 0)
  {
  }
}
