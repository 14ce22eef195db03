/** The host's decisions for one video stream, as functions on values: bitrate, latency, keyframe recovery and source
    delay together. The class in VideoStream.dfy performs the same operations in place. */
module VideoStreamModel {
  import opened Numbers
  import opened BitrateModel
  import opened LatencyModel
  import R = VideoRecovery
  import D = SourceDelay

  datatype Answer = Continue(change: Option<Change>) | EndSession(failure: Failure)

  datatype Result = Result(policy: Policy, answer: Answer)

  /** The player's video delay without what the host added itself. */
  function WithoutExcess(report: LatencyReport, excess: U64): LatencyReport {
    if report.video.None? then report
    else
      var left := SubU64(report.video.value.Typical(), excess);
      report.(video := Some(report.video.value.(typicalDelay := if left >= 1 then left else 1)))
  }

  datatype Policy = Policy(bitrate: Controller, recovery: R.Recovery, latency: Option<Latency>, source: D.Delays)
  {
    function ObserveReceiver(path: Path, d: Delivery): Result {
      var o := bitrate.Observe(path, d, true);
      Result(this.(bitrate := o.state), Continue(o.change))
    }

    function EnableLatencyControl(maximumDelay: U64, now: nat): Policy {
      this.(bitrate := bitrate.UseMeasuredMediaDelay(), latency := Some(NewLatency(maximumDelay, now)))
    }

    /** The latency policy's verdict on a report, taken before the delivery figures are looked at. */
    function Evaluate(report: Option<LatencyReport>, now: nat): (Latency, Evaluation)
      requires latency.Some?
    {
      var excess := source.TakeExcess().1;
      var adjusted := if report.None? then None else Some(WithoutExcess(report.value, excess));
      latency.value.Observe(adjusted, bitrate.target, now)
    }

    function KnownLimits(latency: Latency): Latency {
      if bitrate.returningTo.Some? then latency.ForgetCeiling() else latency
    }

    function ObserveReceiverWithLatency(path: Path, d: Delivery, report: Option<LatencyReport>, now: nat): Result {
      var drained := this.(source := source.TakeExcess().0);
      if latency.None? then drained.ObserveReceiver(path, d)
      else
        var (observed, evaluation) := Evaluate(report, now);
        if evaluation.failure.Some?
          then Result(drained.(latency := Some(observed)), EndSession(evaluation.failure.value))
        else drained.ApplyVerdict(KnownLimits(observed), evaluation, path, d, now)
    }

    function ApplyVerdict(limits: Latency, evaluation: Evaluation, path: Path, d: Delivery, now: nat): Result {
      var o := bitrate.ConfigureLatencyCeiling(limits.ceiling).Observe(path, d, evaluation.allowIncrease)
                 .AlsoReduce(evaluation.reduceTo, limits.RetryDelayMicros());
      Result(this.(bitrate := o.state,
                   latency := Some(if o.change.Some? then limits.BitrateChanged(now) else limits)),
             Continue(o.change))
    }

    function ObserveQueueDrop(): Policy {
      this.(recovery := recovery.RequireKeyframe(), bitrate := bitrate.ObserveSenderPressure())
    }

    function ObserveDeadlineExpired(now: nat): Result {
      var o := bitrate.ObserveSenderCongestion();
      Result(this.(recovery := recovery.RequireKeyframe(),
                   bitrate := o.state,
                   latency := if o.change.Some? && latency.Some? then Some(latency.value.BitrateChanged(now))
                     else latency),
             Continue(o.change))
    }

    function RequireKeyframe(): Policy {
      this.(recovery := recovery.RequireKeyframe())
    }

    function KeyframeRequestDue(now: nat): (Policy, bool) {
      (this.(recovery := recovery.RequestDue(now).0), recovery.RequestDue(now).1)
    }

    function AcceptEncodedFrame(sequence: U64, keyframe: bool): (Policy, bool) {
      (this.(recovery := recovery.Accept(sequence, keyframe).0), recovery.Accept(sequence, keyframe).1)
    }

    function FramePacketized(captured: U64, encoded: U64): Policy {
      this.(source := source.Observe(captured, encoded))
    }
  }

  function NewPolicy(maximum: U64): Policy {
    Policy(New(maximum), R.START, None, D.NO_DELAYS)
  }

  function ProbedPolicy(maximum: U64, measured: U64): Policy {
    Policy(FromStartupProbe(maximum, measured), R.START, None, D.NO_DELAYS)
  }
}
