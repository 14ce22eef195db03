/** What each operation of the adaptive bitrate controller does to its state, as functions on values.
    The class in BitrateController.dfy performs the same operations in place. */
module BitrateModel {
  import opened Numbers

  const BOOTSTRAP: U64 := 1_000_000
  const SOFT_CEILING_RANGE_PERCENT := 96
  const PROBE_INTERVAL: U64 := 15_000_000
  const MAXIMUM_PROBE_BACKOFF: U64 := 600_000_000
  const RETURN_RETRY: U64 := 30_000_000
  const MAXIMUM_RETURN_RETRY: U64 := 600_000_000
  const RECOVERY_COOLDOWN: U64 := 5_000_000
  const PROBE_ATTRIBUTION: U64 := 5_000_000
  const FAST_PROBE_ATTRIBUTION: U64 := 1_500_000
  const HEALTHY_BEST_HOLD: U64 := 20_000_000
  const PROVEN_HOLD: U64 := 60_000_000
  const MINIMUM_RTT_MARGIN_NANOS: nat := 20_000_000
  const FAILED_PROBE_SAMPLES := 5
  const CAPACITY_REPORTS := 2
  const HEALTHY_REPORTS_BEFORE_RECOVERY := 4

  datatype Path = Path(roundTripNanos: nat, congestionWindowBytes: U64)

  /** Receiver counters, cumulative since the session began, and the length of the last interval. */
  datatype Delivery = Delivery(receivedChunks: U64, completedPayloadBytes: U64, intervalMicros: U64,
                               lostChunks: U64, lateChunks: U64, assemblyOverflows: U64, incompleteFrames: U64)

  const NO_DELIVERY := Delivery(0, 0, 0, 0, 0, 0, 0)

  datatype Reason = HealthyDelivery | Congestion

  datatype Cause = Healthy | SevereReceiverLoss | SeverePathPressure | MildDegradation | SenderCongestion
      | LatencyPressure

  datatype Change = Change(target: U64, reason: Reason, cause: Cause)

  datatype Probe = Probe(previous: Option<U64>, target: U64, elapsed: U64)

  /** What one report says once it is compared with the previous one. */
  datatype Signals = Signals(interval: U64, receiverLoss: bool, severeLoss: bool, safePath: U64,
                             senderEvents: U8, severeSender: bool, allowIncrease: bool)

  datatype Outcome = Outcome(state: Controller, change: Option<Change>)
  {
    /** What remains of a report's outcome once the latency policy has asked for a reduction on top of it. */
    function AlsoReduce(reduceTo: Option<U64>, cooldown: U64): Outcome {
      if reduceTo.None? then this
      else
        var goal := if reduceTo.value <= state.target then reduceTo.value else state.target;
        var o := state.SetLatencyTarget(goal, cooldown);
        Outcome(o.state, if o.change.Some? then o.change else change)
    }
  }

  function Percentage(value: U64, percent: nat): U64 {
    ToU64(value * percent / 100)
  }

  function BitsPerSecond(bytes: U64, micros: U64): U64 {
    if micros == 0 then 0 else ToU64(bytes * 8_000_000 / micros)
  }

  predicate LossPercentAtLeast(lost: U64, total: U64, percent: nat) {
    total > 0 && lost * 100 >= total * percent
  }

  /** Some loss counter grew since the previous report. */
  predicate FreshLoss(before: Delivery, d: Delivery) {
    || d.lostChunks > before.lostChunks
    || d.lateChunks > before.lateChunks
    || d.assemblyOverflows > before.assemblyOverflows
    || d.incompleteFrames > before.incompleteFrames
  }

  function TotalChunks(before: Delivery, d: Delivery): U64 {
    AddU64(SubU64(d.receivedChunks, before.receivedChunks), SubU64(d.lostChunks, before.lostChunks))
  }

  predicate HeavyLoss(before: Delivery, d: Delivery) {
    var lost := SubU64(d.lostChunks, before.lostChunks);
    || SubU64(d.assemblyOverflows, before.assemblyOverflows) > 0
    || SubU64(d.incompleteFrames, before.incompleteFrames) >= 2
    || (lost >= 4 && LossPercentAtLeast(lost, TotalChunks(before, d), 2))
  }

  predicate SuddenLoss(before: Delivery, d: Delivery) {
    var lost := SubU64(d.lostChunks, before.lostChunks);
    lost >= 4 && LossPercentAtLeast(lost, TotalChunks(before, d), 10)
  }

  function Sum(xs: seq<U64>): nat {
    if xs == [] then 0 else xs[0] + Sum(xs[1..])
  }

  function SampleBytes(samples: seq<(U64, U64)>): U64 {
    if samples == [] then 0 else AddU64(SampleBytes(samples[..|samples| - 1]), samples[|samples| - 1].0)
  }

  function SampleMicros(samples: seq<(U64, U64)>): U64 {
    if samples == [] then 0 else AddU64(SampleMicros(samples[..|samples| - 1]), samples[|samples| - 1].1)
  }

  /** Appends to a queue that drops its oldest entry once it holds `bound` of them. */
  function PushBounded<T>(queue: seq<T>, entry: T, bound: nat): seq<T>
    requires bound > 0
  {
    if |queue| == bound then queue[1..] + [entry] else queue + [entry]
  }

  function LowerOf(a: Option<U64>, b: Option<U64>): Option<U64> {
    if a.Some? && b.Some? then Some(if a.value <= b.value then a.value else b.value)
    else if a.Some? then a else b
  }

  datatype Controller = Controller(
      maximum: U64,
      target: U64,
      estimatedCapacity: U64,
      deliverySamples: seq<(U64, U64)>,
      minimumRoundTrip: Option<nat>,
      rttPressureStreak: U8,
      previousDelivery: Delivery,
      degradedReports: U8,
      healthyReports: U8,
      softCeilingHealthy: U64,
      targetHeld: U64,
      healthyBest: Option<U64>,
      returningTo: Option<U64>,
      returnRetry: U64,
      returnWait: U64,
      recoveryCooldown: U64,
      provisionalCeiling: Option<U64>,
      latencyCeiling: Option<U64>,
      failedProbeTargets: seq<U64>,
      activeProbe: Option<Probe>,
      probeInterval: U64,
      probeStep: nat,
      senderPressureEvents: U8,
      severeSenderReduction: bool,
      receiverLossBefore: bool,
      mediaDelayMeasured: bool,
      senderCongestedStreak: U8)
  {
    function SoftCeiling(): Option<U64> {
      if |failedProbeTargets| < FAILED_PROBE_SAMPLES then None
      else Some(ToU64(Sum(failedProbeTargets) / |failedProbeTargets|))
    }

    function DeliveryCeiling(): Option<U64> {
      if SoftCeiling().Some? then SoftCeiling() else provisionalCeiling
    }

    function RecoveryCeiling(): Option<U64> {
      if returningTo.Some? then returningTo else LowerOf(DeliveryCeiling(), latencyCeiling)
    }

    predicate NearSoftCeiling() {
      RecoveryCeiling().Some? && target >= Percentage(RecoveryCeiling().value, SOFT_CEILING_RANGE_PERCENT)
    }

    predicate HoldIsProven() {
      targetHeld >= PROVEN_HOLD
    }

    function OrdinaryRecoveryTarget(): U64 {
      if RecoveryCeiling().None? then Percentage(target, 110)
      else
        var safe := Percentage(RecoveryCeiling().value, SOFT_CEILING_RANGE_PERCENT);
        if target >= safe then target
        else
          var halfGap := (safe - target + 1) / 2;
          var step := Min(Max(halfGap, Percentage(target, 3)), Percentage(target, 25));
          Min(AddU64(target, step), safe)
    }

    function CautiousTarget(): U64 {
      Percentage(target, 100 + probeStep)
    }

    function ResetRecoveryWait(): Controller {
      this.(healthyReports := 0, softCeilingHealthy := 0)
    }

    function LoseProbeMomentum(): Controller {
      this.(probeStep := 2,
            probeInterval := if probeInterval * 2 <= MAXIMUM_PROBE_BACKOFF then probeInterval * 2
                             else MAXIMUM_PROBE_BACKOFF)
    }

    function GainProbeMomentum(): Controller {
      this.(probeStep := if probeStep * 2 <= 16 then probeStep * 2 else 16,
            probeInterval := if probeInterval / 2 >= PROBE_INTERVAL then probeInterval / 2 else PROBE_INTERVAL)
    }

    function ForgetPassedCeiling(): Controller {
      if DeliveryCeiling().Some? && target > Percentage(DeliveryCeiling().value, 105)
      then this.(failedProbeTargets := [], provisionalCeiling := None, probeInterval := PROBE_INTERVAL)
      else this
    }

    function PostponeReturn(): Controller {
      this.(returnWait := returnRetry,
            returnRetry := if returnRetry * 2 <= MAXIMUM_RETURN_RETRY then returnRetry * 2 else MAXIMUM_RETURN_RETRY)
    }

    /** A cut during the return after a collapse: remember less and wait longer before the next try. */
    function AbandonReturn(): Controller {
      if returningTo.None? then this
      else
        var lowered := Percentage(returningTo.value, 75);
        this.(returningTo := None, healthyBest := Some(if lowered >= target then lowered else target)).PostponeReturn()
    }

    function Bounded(bits: U64): U64 {
      var raised := if bits >= BOOTSTRAP then bits else BOOTSTRAP;
      if raised <= maximum then raised else maximum
    }

    function SetTarget(bits: U64, reason: Reason, cause: Cause): Outcome {
      var bounded := Bounded(bits);
      if bounded == target then Outcome(this, None)
      else
        var s := if reason == Congestion then this.(recoveryCooldown := RECOVERY_COOLDOWN).AbandonReturn() else this;
        Outcome(s.(target := bounded, targetHeld := 0), Some(Change(bounded, reason, cause)))
    }

    function SetRecoveryTarget(bits: U64): Outcome {
      var o := SetTarget(bits, HealthyDelivery, Healthy);
      if o.change.None? then o
      else Outcome(o.state.(activeProbe := Some(Probe(Some(target), o.change.value.target, 0))), o.change)
    }

    function CountFailure(failed: U64): Controller {
      this.(provisionalCeiling := Some(failed),
            failedProbeTargets := PushBounded(failedProbeTargets, failed, FAILED_PROBE_SAMPLES))
    }

    /** The state after an active probe is taken out and counted as failed, and the target to fall back to. */
    function TakeFailedProbe(probe: Probe): (Controller, Option<U64>) {
      var s := this.(activeProbe := None).CountFailure(probe.target).LoseProbeMomentum();
      var hold := Percentage(probe.target, SOFT_CEILING_RANGE_PERCENT);
      (s, if probe.previous.None? then None
          else Some(if probe.previous.value <= hold then probe.previous.value else hold))
    }

    function RecordProbeFailure(): (Controller, Option<U64>) {
      if activeProbe.None? && recoveryCooldown == 0 && HoldIsProven() then
        (this, if NearSoftCeiling() then Some(Percentage(target, SOFT_CEILING_RANGE_PERCENT)) else None)
      else if activeProbe.None? && recoveryCooldown == 0 && NearSoftCeiling() then
        TakeFailedProbe(Probe(Some(target), target, 0))
      else if activeProbe.None? then (this, None)
      else TakeFailedProbe(activeProbe.value)
    }

    function RollbackFailedProbe(bits: U64, cause: Cause): Outcome {
      var o := SetTarget(bits, Congestion, cause);
      if HoldIsProven() then o else Outcome(o.state.(recoveryCooldown := o.state.probeInterval), o.change)
    }

    /** Counts the failure, then falls back as far as the failed probe says, or by a fixed share. */
    function FallBack(percent: nat, rollBack: bool, cause: Cause): Outcome {
      var (s, rollback) := RecordProbeFailure();
      if rollBack && rollback.Some? then s.RollbackFailedProbe(rollback.value, cause)
      else s.SetTarget(Percentage(target, percent), Congestion, cause)
    }

    /** The return is over: what it reached becomes the known limit. */
    function EndReturn(best: U64): Controller {
      this.(returningTo := None, provisionalCeiling := Some(best), returnRetry := RETURN_RETRY)
    }

    /** Limits learned during a collapse describe that moment, so the return forgets them. */
    function ForgetLimits(): Controller {
      this.(failedProbeTargets := [], provisionalCeiling := None, latencyCeiling := None)
    }

    function ResetProbeMomentum(): Controller {
      this.(probeStep := 2, probeInterval := PROBE_INTERVAL)
    }

    function BeginReturn(): Controller {
      this.(returningTo := healthyBest).ForgetLimits().ResetProbeMomentum()
    }

    function UpdateReturnAfterCollapse(interval: U64): Controller {
      if returningTo.Some? then
        if target >= Percentage(returningTo.value, SOFT_CEILING_RANGE_PERCENT) then EndReturn(returningTo.value)
        else this
      else
        var s := this.(returnWait := SubU64(returnWait, interval));
        if healthyBest.Some? && s.returnWait == 0 && target < Percentage(healthyBest.value, 50) then s.BeginReturn()
        else s
    }

    function AdvanceProbe(interval: U64): (Controller, bool) {
      if activeProbe.None? then (this, false)
      else
        var p := activeProbe.value.(elapsed := AddU64(activeProbe.value.elapsed, interval));
        var far := RecoveryCeiling().Some? && p.target < Percentage(RecoveryCeiling().value, 90);
        if p.elapsed >= (if far then FAST_PROBE_ATTRIBUTION else PROBE_ATTRIBUTION)
        then (this.(activeProbe := None), true)
        else (this.(activeProbe := Some(p)), false)
    }

    /** Adds a report's interval to the time the target has been held and remembers the report. */
    function Account(d: Delivery): Controller {
      var held := AddU64(targetHeld, d.intervalMicros);
      this.(targetHeld := held,
            healthyBest := if held >= HEALTHY_BEST_HOLD then Some(MaxOption(healthyBest, target)) else healthyBest,
            previousDelivery := d)
    }

    function LowestRoundTrip(path: Path): Option<nat> {
      if path.roundTripNanos == 0 || path.congestionWindowBytes == 0 then minimumRoundTrip
      else if minimumRoundTrip.None? || path.roundTripNanos < minimumRoundTrip.value then Some(path.roundTripNanos)
      else minimumRoundTrip
    }

    function SafePath(path: Path): U64 {
      if path.roundTripNanos == 0 || path.congestionWindowBytes == 0 then U64_MAX
      else Percentage(BitsPerSecond(path.congestionWindowBytes, ToU64(LowestRoundTrip(path).value / 1000)), 100)
    }

    predicate RttPressure(path: Path) {
      var lowest := LowestRoundTrip(path);
      lowest.Some? && path.roundTripNanos > lowest.value + Max(MINIMUM_RTT_MARGIN_NANOS, lowest.value / 2)
    }

    function MeasureSender(): Controller {
      this.(senderPressureEvents := 0,
            severeSenderReduction := false,
            senderCongestedStreak := if senderPressureEvents != 0 then IncrementU8(senderCongestedStreak) else 0)
    }

    function MeasureDelivery(bytes: U64, micros: U64): Controller {
      var samples := PushBounded(deliverySamples, (bytes, micros), CAPACITY_REPORTS);
      this.(deliverySamples := samples,
            estimatedCapacity := BitsPerSecond(SampleBytes(samples), SampleMicros(samples)))
    }

    function MeasurePath(path: Path): Controller {
      this.(minimumRoundTrip := LowestRoundTrip(path),
            rttPressureStreak := if RttPressure(path) then IncrementU8(rttPressureStreak) else 0)
    }

    /** Compares a report with the one before it and updates everything that only measures. */
    function Observed(path: Path, before: Delivery, d: Delivery): Controller {
      MeasureSender()
        .MeasureDelivery(SubU64(d.completedPayloadBytes, before.completedPayloadBytes), d.intervalMicros)
        .MeasurePath(path)
        .(receiverLossBefore := FreshLoss(before, d))
    }

    function SignalsOf(path: Path, before: Delivery, d: Delivery, allowIncrease: bool): Signals {
      Signals(d.intervalMicros,
              FreshLoss(before, d),
              SuddenLoss(before, d) || (HeavyLoss(before, d) && receiverLossBefore),
              SafePath(path),
              senderPressureEvents,
              severeSenderReduction,
              allowIncrease)
    }

    function RespondToSevere(g: Signals): Outcome {
      ResetRecoveryWait().(degradedReports := 0)
        .FallBack(75, g.severeLoss, if g.severeLoss then SevereReceiverLoss else SeverePathPressure)
    }

    function RespondToMild(): Outcome {
      var s := ResetRecoveryWait().(degradedReports := IncrementU8(degradedReports));
      if s.degradedReports < 2 then Outcome(s, None)
      else s.(degradedReports := 0).FallBack(90, true, MildDegradation)
    }

    function RespondToRoundTrip(): Outcome {
      var s := ResetRecoveryWait();
      if s.rttPressureStreak < 2 then Outcome(s, None)
      else s.(rttPressureStreak := 0).FallBack(90, true, MildDegradation)
    }

    function RespondToSender(g: Signals): Outcome {
      var s := ResetRecoveryWait();
      if g.severeSender || s.senderCongestedStreak < 2 then Outcome(s, None)
      else s.FallBack(90, false, SenderCongestion)
    }

    /** The step after a probe passed: a limit it disproved is forgotten, and probes speed up at the limit. */
    function ClimbAfterProbe(safePath: U64): Outcome {
      var s := ForgetPassedCeiling().SpeedUpAtLimit().ResetRecoveryWait();
      if s.NearSoftCeiling() then Outcome(s, None)
      else s.SetRecoveryTarget(Min(s.OrdinaryRecoveryTarget(), safePath))
    }

    function SpeedUpAtLimit(): Controller {
      if RecoveryCeiling().None? || target >= RecoveryCeiling().value then GainProbeMomentum() else this
    }

    function ClimbAfterCooldown(safePath: U64): Outcome {
      var s := ResetRecoveryWait();
      s.SetRecoveryTarget(Min(if s.NearSoftCeiling() then s.CautiousTarget() else s.OrdinaryRecoveryTarget(), safePath))
    }

    function ClimbNearCeiling(interval: U64, safePath: U64): Outcome {
      var s := this.(healthyReports := 0, softCeilingHealthy := AddU64(softCeilingHealthy, interval));
      if s.softCeilingHealthy < probeInterval then Outcome(s, None)
      else
        var ready := s.(softCeilingHealthy := 0);
        ready.SetRecoveryTarget(Min(ready.CautiousTarget(), safePath))
    }

    function ClimbBelowCeiling(safePath: U64): Outcome {
      var s := this.(softCeilingHealthy := 0, healthyReports := IncrementU8(healthyReports));
      if s.healthyReports < HEALTHY_REPORTS_BEFORE_RECOVERY then Outcome(s, None)
      else
        var ready := s.(healthyReports := 0);
        ready.SetRecoveryTarget(Min(ready.OrdinaryRecoveryTarget(), safePath))
    }

    function Climb(validated: bool, cooledDown: bool, interval: U64, safePath: U64): Outcome {
      if target == maximum then Outcome(this, None)
      else if activeProbe.Some? then Outcome(ResetRecoveryWait(), None)
      else if validated then ClimbAfterProbe(safePath)
      else if cooledDown then ClimbAfterCooldown(safePath)
      else if NearSoftCeiling() then ClimbNearCeiling(interval, safePath)
      else ClimbBelowCeiling(safePath)
    }

    function Recover(interval: U64, safePath: U64): Outcome {
      var cooled := this.(recoveryCooldown := SubU64(recoveryCooldown, interval));
      if cooled.recoveryCooldown != 0 then Outcome(cooled.ResetRecoveryWait(), None)
      else
        var (s, validated) := cooled.UpdateReturnAfterCollapse(interval).AdvanceProbe(interval);
        s.Climb(validated, recoveryCooldown != 0, interval, safePath)
    }

    function Respond(g: Signals): Outcome {
      if g.severeLoss || g.safePath < Percentage(target, 75) then RespondToSevere(g)
      else if g.receiverLoss || g.safePath < target then RespondToMild()
      else this.(degradedReports := 0).RespondToCleanDelivery(g)
    }

    function RespondToCleanDelivery(g: Signals): Outcome {
      if rttPressureStreak != 0 && !mediaDelayMeasured then RespondToRoundTrip()
      else if g.senderEvents != 0 then RespondToSender(g)
      else if !g.allowIncrease then Outcome(this.(healthyReports := 0), None)
      else Recover(g.interval, g.safePath)
    }

    function Observe(path: Path, d: Delivery, allowIncrease: bool): Outcome {
      var s := Account(d);
      if d.intervalMicros == 0 then Outcome(s, None)
      else s.Observed(path, previousDelivery, d).Respond(s.SignalsOf(path, previousDelivery, d, allowIncrease))
    }

    function ObserveSenderPressure(): Controller {
      ResetRecoveryWait().(degradedReports := 0, senderPressureEvents := IncrementU8(senderPressureEvents))
    }

    function ObserveSenderCongestion(): Outcome {
      var s := ObserveSenderPressure();
      if s.senderPressureEvents < 3 || s.severeSenderReduction then Outcome(s, None)
      else s.(severeSenderReduction := true).FallBack(75, false, SenderCongestion)
    }

    function UseMeasuredMediaDelay(): Controller {
      this.(mediaDelayMeasured := true)
    }

    function ConfigureLatencyCeiling(ceiling: Option<U64>): Controller {
      this.(latencyCeiling := ceiling)
    }

    function GiveUpProbe(): Controller {
      var cleared := this.(activeProbe := None).ResetRecoveryWait();
      if HoldIsProven() then cleared else cleared.LoseProbeMomentum()
    }

    function SetLatencyTarget(bits: U64, cooldown: U64): Outcome {
      var o := GiveUpProbe().SetTarget(bits, Congestion, LatencyPressure);
      Outcome(o.state.(recoveryCooldown := cooldown), o.change)
    }
  }

  function New(maximum: U64): Controller {
    var limit: U64 := if maximum >= BOOTSTRAP then maximum else BOOTSTRAP;
    var target: U64 := if limit / 2 >= BOOTSTRAP then limit / 2 else BOOTSTRAP;
    Controller(limit, target, 0, [], None, 0, NO_DELIVERY, 0, 0, 0, 0, None, None, RETURN_RETRY, 0, 0,
               None, None, [], None, PROBE_INTERVAL, 2, 0, false, false, false, 0)
  }

  function FromStartupProbe(maximum: U64, measured: U64): Controller {
    var s := New(maximum);
    if measured == 0 then s.(target := BOOTSTRAP)
    else
      var ceiling := if measured <= s.maximum then measured else s.maximum;
      var share := Percentage(ceiling, 70);
      var target := if share >= BOOTSTRAP then share else BOOTSTRAP;
      s.(provisionalCeiling := Some(ceiling), estimatedCapacity := measured, target := target,
         activeProbe := Some(Probe(None, target, 0)))
  }
}
