/** The stream policy as the host runs it, over the objects it owns. */
module VideoStream {
  import opened Numbers
  import opened BitrateModel
  import C = BitrateCuts
  import I = BitrateInvariants
  import opened LatencyModel
  import opened VideoStreamModel
  import opened VideoStreamRuns
  import B = BitrateController
  import L = LatencyControl
  import LatencyRuns
  import R = VideoRecovery
  import D = SourceDelay

  class HostVideoStreamPolicy {
    const bitrate: B.AdaptiveBitrateController
    const recovery: R.KeyframeRecovery
    const sourceDelay: D.SourceDelayMeter
    var latency: L.LatencyPolicy?

    function Snapshot(): Policy
      reads this, bitrate, recovery, sourceDelay, latency
    {
      Policy(bitrate.Snapshot(), recovery.Snapshot(),
             if latency == null then None else Some(latency.Snapshot()), sourceDelay.Snapshot())
    }

    /** The controller, the keyframe recovery and, when there is one, the latency policy keep their own invariants. */
    ghost predicate Valid()
      reads this, bitrate, recovery, latency
    {
      bitrate.Valid() && recovery.Valid() && (latency != null ==> latency.Valid())
    }

    constructor (maximum: U64)
      ensures Valid() && Snapshot() == NewPolicy(maximum)
      ensures fresh(bitrate) && fresh(recovery) && fresh(sourceDelay)
    {
      bitrate := new B.AdaptiveBitrateController(maximum);
      recovery := new R.KeyframeRecovery();
      sourceDelay := new D.SourceDelayMeter();
      latency := null;
    }

    constructor FromStartupProbe(maximum: U64, measured: U64)
      ensures Valid() && Snapshot() == ProbedPolicy(maximum, measured)
      ensures fresh(bitrate) && fresh(recovery) && fresh(sourceDelay)
    {
      bitrate := new B.AdaptiveBitrateController.FromProbe(maximum, measured);
      recovery := new R.KeyframeRecovery();
      sourceDelay := new D.SourceDelayMeter();
      latency := null;
    }

    method ObserveReceiver(path: Path, d: Delivery) returns (change: Option<Change>)
      requires Valid()
      modifies bitrate
      ensures Valid() && I.OneWay(old(bitrate.target), Outcome(bitrate.Snapshot(), change))
      ensures Result(Snapshot(), Continue(change)) == old(Snapshot()).ObserveReceiver(path, d)
    {
      hide I.Valid, I.OneWay, L.Kept, Controller.Observe;
      change := bitrate.Observe(path, d, true);
    }

    method EnableLatencyControl(maximumDelay: U64, now: nat)
      requires Valid()
      modifies this, bitrate
      ensures Valid() && Snapshot() == old(Snapshot()).EnableLatencyControl(maximumDelay, now)
    {
      bitrate.UseMeasuredMediaDelay();
      latency := new L.LatencyPolicy(maximumDelay, now);
    }

    /** The answer is the truth about the target, which moves at most once and one way. A reduction by the latency
        policy always lowers it, and a session ends only when a channel's timer has run for five seconds. */
    method ObserveReceiverWithLatency(path: Path, d: Delivery, report: Option<LatencyReport>, now: nat)
      returns (answer: Answer)
      requires Valid()
      modifies bitrate, sourceDelay, latency
      ensures Valid() && Honest(old(Snapshot()), Result(Snapshot(), answer))
      ensures latency != null && answer.Continue? && old(Snapshot()).Evaluate(report, now).1.reduceTo.Some? ==>
        bitrate.target < old(bitrate.target)
      ensures answer.EndSession? ==> latency != null && TimerRanOut(answer.failure, now)
      ensures latency != null && answer.Continue? ==>
        Applied(old(Snapshot()), path, d, report, now, Result(Snapshot(), answer))
      ensures Result(Snapshot(), answer) == old(Snapshot()).ObserveReceiverWithLatency(path, d, report, now)
    {
      ReportMovesOneWay(Snapshot(), path, d, report, now);
      VerdictApplies(Snapshot(), path, d, report, now);
      hide Applied, I.Valid, I.OneWay, L.Kept, Honest, Policy.ObserveReceiverWithLatency, Policy.Evaluate;
      answer := Act(path, d, report, now);
    }

    method Act(path: Path, d: Delivery, report: Option<LatencyReport>, now: nat) returns (answer: Answer)
      requires Valid()
      modifies bitrate, sourceDelay, latency
      ensures Valid() && (answer.EndSession? ==> latency != null && TimerRanOut(answer.failure, now))
      ensures Result(Snapshot(), answer) == old(Snapshot()).ObserveReceiverWithLatency(path, d, report, now)
    {
      hide I.Valid, I.OneWay, C.CutsBecause, L.Kept, L.Meant, L.Explained, Controller.Observe, Latency.Observe,
        Outcome.AlsoReduce;
      ghost var p := Snapshot();
      var previous := bitrate.target;
      var excess := sourceDelay.TakeExcess();
      var adjusted := if report.None? then None else Some(WithoutExcess(report.value, excess));
      if latency == null {
        var change := bitrate.Observe(path, d, true);
        return Continue(change);
      }
      var evaluation := latency.Observe(adjusted, previous, now);
      assert (latency.Snapshot(), evaluation) == p.Evaluate(report, now);
      if evaluation.failure.Some? {
        FailureMeant(LatencyRuns.Reported(adjusted, previous, now), evaluation);
        return EndSession(evaluation.failure.value);
      }
      answer := ApplyVerdict(latency, evaluation, path, d, now);
    }

    ghost predicate TimerRanOut(failure: Failure, now: nat)
      requires latency != null
      reads this, latency
    {
      && 1 <= failure.channel <= 3
      && latency.channels[failure.channel - 1].excessiveSince.Some?
      && Since(now, latency.channels[failure.channel - 1].excessiveSince.value) >= FAILURE_TIME
    }

    lemma FailureMeant(e: LatencyRuns.Event, evaluation: Evaluation)
      requires latency != null && e.Reported? && evaluation.failure.Some? && L.Meant(latency.Snapshot(), e, evaluation)
      ensures TimerRanOut(evaluation.failure.value, e.now)
    {
    }

    method ApplyVerdict(latency: L.LatencyPolicy, evaluation: Evaluation, path: Path, d: Delivery, now: nat)
      returns (answer: Answer)
      requires this.latency == latency && Valid()
      modifies bitrate, latency
      ensures Valid() && answer.Continue?
      ensures Result(Snapshot(), answer) == old(Snapshot()).ApplyVerdict(
        old(Snapshot()).KnownLimits(old(latency.Snapshot())), evaluation, path, d, now)
    {
      hide I.Valid, I.OneWay, L.Kept, Controller.Observe;
      ghost var p := Snapshot();
      if bitrate.returningTo.Some? {
        latency.ForgetCeiling();
      }
      ghost var limits := latency.Snapshot();
      assert limits == p.KnownLimits(old(latency.Snapshot()));
      bitrate.ConfigureLatencyCeiling(latency.ceiling);
      var change := bitrate.Observe(path, d, evaluation.allowIncrease);
      change := AlsoReduce(change, evaluation.reduceTo, latency.Snapshot().RetryDelayMicros());
      if change.Some? {
        latency.BitrateChanged(now);
      }
      answer := Continue(change);
    }

    method AlsoReduce(observed: Option<Change>, reduceTo: Option<U64>, cooldown: U64) returns (change: Option<Change>)
      requires bitrate.Valid()
      modifies bitrate
      ensures bitrate.Valid()
      ensures Outcome(bitrate.Snapshot(), change) ==
        Outcome(old(bitrate.Snapshot()), observed).AlsoReduce(reduceTo, cooldown)
    {
      change := observed;
      if reduceTo.Some? {
        var goal := if reduceTo.value <= bitrate.target then reduceTo.value else bitrate.target;
        var latencyChange := bitrate.SetLatencyTarget(goal, cooldown);
        if latencyChange.Some? {
          change := latencyChange;
        }
      }
    }

    /** A dropped frame asks for a keyframe, and counts against the bitrate with the next report. */
    method ObserveQueueDrop()
      requires Valid()
      modifies bitrate, recovery
      ensures Valid() && bitrate.target == old(bitrate.target) && Snapshot() == old(Snapshot()).ObserveQueueDrop()
      ensures recovery.events == old(recovery.events) + [R.Required]
      ensures bitrate.senderPressureEvents == Min(old(bitrate.senderPressureEvents) + 1, 255)
    {
      recovery.RequireKeyframe();
      bitrate.ObserveSenderPressure();
    }

    /** An expired deadline asks for a keyframe, and the third late or dropped send since the last report takes a
        quarter of the bitrate, which then has to settle again. */
    method ObserveDeadlineExpired(now: nat) returns (change: Option<Change>)
      requires Valid()
      modifies bitrate, recovery, latency
      ensures Valid() && I.OneWay(old(bitrate.target), Outcome(bitrate.Snapshot(), change))
      ensures bitrate.target <= old(bitrate.target)
      ensures bitrate.target == if old(bitrate.senderPressureEvents) >= 2 && !old(bitrate.severeSenderReduction)
                                then Max(1_000_000, old(bitrate.target) * 75 / 100) else old(bitrate.target)
      ensures recovery.events == old(recovery.events) + [R.Required]
      ensures latency != null ==> latency.changedAt == if change.Some? then now else old(latency.changedAt)
      ensures Result(Snapshot(), Continue(change)) == old(Snapshot()).ObserveDeadlineExpired(now)
    {
      hide I.Valid, I.OneWay, L.Kept, Controller.ObserveSenderCongestion;
      recovery.RequireKeyframe();
      change := bitrate.ObserveSenderCongestion();
      if change.Some? && latency != null {
        latency.BitrateChanged(now);
      }
    }

    method RequireKeyframe()
      requires Valid()
      modifies recovery
      ensures Valid() && recovery.events == old(recovery.events) + [R.Required]
      ensures Snapshot() == old(Snapshot()).RequireKeyframe()
    {
      recovery.RequireKeyframe();
    }

    method KeyframeRequestDue(now: nat) returns (due: bool)
      requires Valid()
      modifies recovery
      ensures Valid() && recovery.events == old(recovery.events) + [R.Polled(now)]
      ensures due <==>
        R.Missing(recovery.events, |old(recovery.events)|) && R.Rested(recovery.events, |old(recovery.events)|)
      ensures (Snapshot(), due) == old(Snapshot()).KeyframeRequestDue(now)
    {
      due := recovery.RequestDue(now);
    }

    /** A frame is sent exactly when the player can decode it. */
    method AcceptEncodedFrame(sequence: U64, keyframe: bool) returns (accepted: bool)
      requires Valid()
      modifies recovery
      ensures Valid() && recovery.events == old(recovery.events) + [R.Frame(sequence, keyframe)]
      ensures accepted <==> R.Decodable(recovery.events, |old(recovery.events)|)
      ensures (Snapshot(), accepted) == old(Snapshot()).AcceptEncodedFrame(sequence, keyframe)
    {
      accepted := recovery.Accept(sequence, keyframe);
    }

    method FramePacketized(captured: U64, encoded: U64)
      requires Valid()
      modifies sourceDelay
      ensures Valid() && Snapshot() == old(Snapshot()).FramePacketized(captured, encoded)
    {
      sourceDelay.Observe(captured, encoded);
    }
  }
}
