/** The adaptive bitrate controller as the host runs it: one object whose fields every report updates.
    Each method is proved to do exactly what the function of the same name in BitrateModel does. */
module BitrateController {
  import opened Numbers
  import opened BitrateModel
  import C = BitrateCuts
  import I = BitrateInvariants

  class AdaptiveBitrateController {
    const maximum: U64
    var target: U64
    var estimatedCapacity: U64
    var deliverySamples: seq<(U64, U64)>
    var minimumRoundTrip: Option<nat>
    var rttPressureStreak: U8
    var previousDelivery: Delivery
    var degradedReports: U8
    var healthyReports: U8
    var softCeilingHealthy: U64
    var targetHeld: U64
    var healthyBest: Option<U64>
    var returningTo: Option<U64>
    var returnRetry: U64
    var returnWait: U64
    var recoveryCooldown: U64
    var provisionalCeiling: Option<U64>
    var latencyCeiling: Option<U64>
    var failedProbeTargets: seq<U64>
    var activeProbe: Option<Probe>
    var probeInterval: U64
    var probeStep: nat
    var senderPressureEvents: U8
    var severeSenderReduction: bool
    var receiverLossBefore: bool
    var mediaDelayMeasured: bool
    var senderCongestedStreak: U8

    function Snapshot(): Controller
      reads this
    {
      Controller(maximum, target, estimatedCapacity, deliverySamples, minimumRoundTrip, rttPressureStreak,
                 previousDelivery, degradedReports, healthyReports, softCeilingHealthy, targetHeld, healthyBest,
                 returningTo, returnRetry, returnWait, recoveryCooldown, provisionalCeiling, latencyCeiling,
                 failedProbeTargets, activeProbe, probeInterval, probeStep, senderPressureEvents,
                 severeSenderReduction, receiverLossBefore, mediaDelayMeasured, senderCongestedStreak)
    }

    /** Every report, deadline and reduction finds and leaves the object so. */
    ghost predicate Valid()
      reads this
    {
      I.Valid(Snapshot())
    }

    /** It starts at half of the maximum. */
    constructor (maximumBits: U64)
      ensures Valid() && Snapshot() == New(maximumBits)
      ensures maximum == Max(maximumBits, 1_000_000) && target == Max(maximum / 2, 1_000_000)
      ensures I.Blank(Snapshot()) && provisionalCeiling.None? && activeProbe.None?
    {
      I.NewValid(maximumBits);
      var limit: U64 := if maximumBits >= BOOTSTRAP then maximumBits else BOOTSTRAP;
      maximum := limit;
      target := if limit / 2 >= BOOTSTRAP then limit / 2 else BOOTSTRAP;
      estimatedCapacity, deliverySamples := 0, [];
      minimumRoundTrip, rttPressureStreak := None, 0;
      previousDelivery := NO_DELIVERY;
      degradedReports, healthyReports, softCeilingHealthy, targetHeld := 0, 0, 0, 0;
      healthyBest, returningTo, returnRetry, returnWait := None, None, RETURN_RETRY, 0;
      recoveryCooldown, provisionalCeiling, latencyCeiling := 0, None, None;
      failedProbeTargets, activeProbe := [], None;
      probeInterval, probeStep := PROBE_INTERVAL, 2;
      senderPressureEvents, severeSenderReduction, receiverLossBefore := 0, false, false;
      mediaDelayMeasured, senderCongestedStreak := false, 0;
    }

    /** It starts at 70 % of what was measured, which becomes the known limit, and at the minimum if nothing was. */
    constructor FromProbe(maximumBits: U64, measured: U64)
      ensures Valid() && Snapshot() == FromStartupProbe(maximumBits, measured)
      ensures maximum == Max(maximumBits, 1_000_000) && target == Max(Min(measured, maximum) * 70 / 100, 1_000_000)
      ensures provisionalCeiling == if measured == 0 then None else Some(Min(measured, maximum))
      ensures I.Blank(Snapshot()) && activeProbe == if measured == 0 then None else Some(Probe(None, target, 0))
    {
      I.FromStartupProbeValid(maximumBits, measured);
      var limit: U64 := if maximumBits >= BOOTSTRAP then maximumBits else BOOTSTRAP;
      maximum := limit;
      if measured == 0 {
        target, estimatedCapacity, provisionalCeiling, activeProbe := BOOTSTRAP, 0, None, None;
      } else {
        var ceiling := if measured <= limit then measured else limit;
        var share := Percentage(ceiling, 70);
        var start := if share >= BOOTSTRAP then share else BOOTSTRAP;
        target, estimatedCapacity, provisionalCeiling := start, measured, Some(ceiling);
        activeProbe := Some(Probe(None, start, 0));
      }
      deliverySamples, minimumRoundTrip, rttPressureStreak := [], None, 0;
      previousDelivery := NO_DELIVERY;
      degradedReports, healthyReports, softCeilingHealthy, targetHeld := 0, 0, 0, 0;
      healthyBest, returningTo, returnRetry, returnWait := None, None, RETURN_RETRY, 0;
      recoveryCooldown, latencyCeiling, failedProbeTargets := 0, None, [];
      probeInterval, probeStep := PROBE_INTERVAL, 2;
      senderPressureEvents, severeSenderReduction, receiverLossBefore := 0, false, false;
      mediaDelayMeasured, senderCongestedStreak := false, 0;
    }

    method ResetRecoveryWait()
      modifies this
      ensures Snapshot() == old(Snapshot()).ResetRecoveryWait()
    {
      healthyReports := 0;
      softCeilingHealthy := 0;
    }

    method LoseProbeMomentum()
      modifies this
      ensures Snapshot() == old(Snapshot()).LoseProbeMomentum()
    {
      probeStep := 2;
      probeInterval := if probeInterval * 2 <= MAXIMUM_PROBE_BACKOFF then probeInterval * 2 else MAXIMUM_PROBE_BACKOFF;
    }

    method GainProbeMomentum()
      modifies this
      ensures Snapshot() == old(Snapshot()).GainProbeMomentum()
    {
      probeStep := if probeStep * 2 <= 16 then probeStep * 2 else 16;
      probeInterval := if probeInterval / 2 >= PROBE_INTERVAL then probeInterval / 2 else PROBE_INTERVAL;
    }

    method SpeedUpAtLimit()
      modifies this
      ensures Snapshot() == old(Snapshot()).SpeedUpAtLimit()
    {
      var ceiling := Snapshot().RecoveryCeiling();
      if ceiling.None? || target >= ceiling.value {
        GainProbeMomentum();
      }
    }

    method ForgetPassedCeiling()
      modifies this
      ensures Snapshot() == old(Snapshot()).ForgetPassedCeiling()
    {
      var ceiling := Snapshot().DeliveryCeiling();
      if ceiling.Some? && target > Percentage(ceiling.value, 105) {
        failedProbeTargets := [];
        provisionalCeiling := None;
        probeInterval := PROBE_INTERVAL;
      }
    }

    method PostponeReturn()
      modifies this
      ensures Snapshot() == old(Snapshot()).PostponeReturn()
    {
      returnWait := returnRetry;
      returnRetry := if returnRetry * 2 <= MAXIMUM_RETURN_RETRY then returnRetry * 2 else MAXIMUM_RETURN_RETRY;
    }

    method AbandonReturn()
      modifies this
      ensures Snapshot() == old(Snapshot()).AbandonReturn()
    {
      if returningTo.Some? {
        var lowered := Percentage(returningTo.value, 75);
        returningTo := None;
        healthyBest := Some(if lowered >= target then lowered else target);
        PostponeReturn();
      }
    }

    method MoveTo(bits: U64)
      modifies this`target, this`targetHeld
      ensures Snapshot() == old(Snapshot()).(target := bits, targetHeld := 0)
    {
      target := bits;
      targetHeld := 0;
    }

    method SetTarget(bits: U64, reason: Reason, cause: Cause) returns (change: Option<Change>)
      modifies this
      ensures Outcome(Snapshot(), change) == old(Snapshot()).SetTarget(bits, reason, cause)
    {
      var bounded := Snapshot().Bounded(bits);
      if bounded == target {
        return None;
      }
      if reason == Congestion {
        recoveryCooldown := RECOVERY_COOLDOWN;
        AbandonReturn();
      }
      MoveTo(bounded);
      change := Some(Change(bounded, reason, cause));
    }

    method SetRecoveryTarget(bits: U64) returns (change: Option<Change>)
      modifies this
      ensures Outcome(Snapshot(), change) == old(Snapshot()).SetRecoveryTarget(bits)
    {
      var previous := target;
      change := SetTarget(bits, HealthyDelivery, Healthy);
      if change.Some? {
        activeProbe := Some(Probe(Some(previous), change.value.target, 0));
      }
    }

    method CountFailure(failed: U64)
      modifies this
      ensures Snapshot() == old(Snapshot()).CountFailure(failed)
    {
      provisionalCeiling := Some(failed);
      failedProbeTargets := PushBounded(failedProbeTargets, failed, FAILED_PROBE_SAMPLES);
    }

    method TakeFailedProbe(probe: Probe) returns (rollback: Option<U64>)
      modifies this
      ensures (Snapshot(), rollback) == old(Snapshot()).TakeFailedProbe(probe)
    {
      activeProbe := None;
      CountFailure(probe.target);
      LoseProbeMomentum();
      var hold := Percentage(probe.target, SOFT_CEILING_RANGE_PERCENT);
      if probe.previous.None? {
        return None;
      }
      return Some(if probe.previous.value <= hold then probe.previous.value else hold);
    }

    /** A first failure at the edge of a known limit counts like a failed probe; a proven hold is not blamed. */
    method RecordProbeFailure() returns (rollback: Option<U64>)
      modifies this
      ensures (Snapshot(), rollback) == old(Snapshot()).RecordProbeFailure()
    {
      var near := Snapshot().NearSoftCeiling();
      if activeProbe.None? && recoveryCooldown == 0 && Snapshot().HoldIsProven() {
        return if near then Some(Percentage(target, SOFT_CEILING_RANGE_PERCENT)) else None;
      }
      if activeProbe.None? && recoveryCooldown == 0 && near {
        rollback := TakeFailedProbe(Probe(Some(target), target, 0));
        return;
      }
      if activeProbe.None? {
        return None;
      }
      rollback := TakeFailedProbe(activeProbe.value);
    }

    method RollbackFailedProbe(bits: U64, cause: Cause) returns (change: Option<Change>)
      modifies this
      ensures Outcome(Snapshot(), change) == old(Snapshot()).RollbackFailedProbe(bits, cause)
    {
      var holdWasProven := Snapshot().HoldIsProven();
      change := SetTarget(bits, Congestion, cause);
      if !holdWasProven {
        recoveryCooldown := probeInterval;
      }
    }

    method EndReturn(best: U64)
      modifies this
      ensures Snapshot() == old(Snapshot()).EndReturn(best)
    {
      returningTo := None;
      provisionalCeiling := Some(best);
      returnRetry := RETURN_RETRY;
    }

    method ForgetLimits()
      modifies this
      ensures Snapshot() == old(Snapshot()).ForgetLimits()
    {
      failedProbeTargets := [];
      provisionalCeiling := None;
      latencyCeiling := None;
    }

    method ResetProbeMomentum()
      modifies this
      ensures Snapshot() == old(Snapshot()).ResetProbeMomentum()
    {
      probeStep := 2;
      probeInterval := PROBE_INTERVAL;
    }

    method BeginReturn()
      modifies this
      ensures Snapshot() == old(Snapshot()).BeginReturn()
    {
      returningTo := healthyBest;
      ForgetLimits();
      ResetProbeMomentum();
    }

    method UpdateReturnAfterCollapse(interval: U64)
      modifies this
      ensures Snapshot() == old(Snapshot()).UpdateReturnAfterCollapse(interval)
    {
      if returningTo.Some? {
        if target >= Percentage(returningTo.value, SOFT_CEILING_RANGE_PERCENT) {
          EndReturn(returningTo.value);
        }
        return;
      }
      returnWait := SubU64(returnWait, interval);
      if healthyBest.Some? && returnWait == 0 && target < Percentage(healthyBest.value, 50) {
        BeginReturn();
      }
    }

    method AdvanceProbe(interval: U64) returns (validated: bool)
      modifies this
      ensures (Snapshot(), validated) == old(Snapshot()).AdvanceProbe(interval)
    {
      var ceiling := Snapshot().RecoveryCeiling();
      if activeProbe.None? {
        return false;
      }
      var probe := activeProbe.value.(elapsed := AddU64(activeProbe.value.elapsed, interval));
      activeProbe := Some(probe);
      var far := ceiling.Some? && probe.target < Percentage(ceiling.value, 90);
      var attribution := if far then FAST_PROBE_ATTRIBUTION else PROBE_ATTRIBUTION;
      if probe.elapsed >= attribution {
        activeProbe := None;
        return true;
      }
      return false;
    }

    /** The first part of a report: hold time, best held target, and the report itself. */
    method Account(d: Delivery)
      modifies this
      ensures Snapshot() == old(Snapshot()).Account(d)
    {
      targetHeld := AddU64(targetHeld, d.intervalMicros);
      if targetHeld >= HEALTHY_BEST_HOLD {
        healthyBest := Some(MaxOption(healthyBest, target));
      }
      previousDelivery := d;
    }

    method MeasureSender()
      modifies this
      ensures Snapshot() == old(Snapshot()).MeasureSender()
    {
      senderCongestedStreak := if senderPressureEvents != 0 then IncrementU8(senderCongestedStreak) else 0;
      senderPressureEvents := 0;
      severeSenderReduction := false;
    }

    method MeasureDelivery(bytes: U64, micros: U64)
      modifies this
      ensures Snapshot() == old(Snapshot()).MeasureDelivery(bytes, micros)
    {
      deliverySamples := PushBounded(deliverySamples, (bytes, micros), CAPACITY_REPORTS);
      estimatedCapacity := BitsPerSecond(SampleBytes(deliverySamples), SampleMicros(deliverySamples));
    }

    method MeasurePath(path: Path) returns (safePath: U64)
      modifies this
      ensures Snapshot() == old(Snapshot()).MeasurePath(path)
      ensures safePath == old(Snapshot()).SafePath(path)
    {
      safePath := Snapshot().SafePath(path);
      var pressure := Snapshot().RttPressure(path);
      minimumRoundTrip := Snapshot().LowestRoundTrip(path);
      rttPressureStreak := if pressure then IncrementU8(rttPressureStreak) else 0;
    }

    /** The second part: streaks, delivery average, round-trip floor, and the verdict on loss and path. */
    method Measure(path: Path, before: Delivery, d: Delivery, allowIncrease: bool) returns (g: Signals)
      modifies this
      ensures Snapshot() == old(Snapshot()).Observed(path, before, d)
      ensures g == old(Snapshot()).SignalsOf(path, before, d, allowIncrease)
    {
      var events, severe := senderPressureEvents, severeSenderReduction;
      MeasureSender();
      MeasureDelivery(SubU64(d.completedPayloadBytes, before.completedPayloadBytes), d.intervalMicros);
      var safePath := MeasurePath(path);
      var severeLoss := SuddenLoss(before, d) || (HeavyLoss(before, d) && receiverLossBefore);
      receiverLossBefore := FreshLoss(before, d);
      g := Signals(d.intervalMicros, receiverLossBefore, severeLoss, safePath, events, severe, allowIncrease);
    }

    method FallBack(percent: nat, rollBack: bool, cause: Cause) returns (change: Option<Change>)
      modifies this
      ensures Outcome(Snapshot(), change) == old(Snapshot()).FallBack(percent, rollBack, cause)
    {
      var rollback := RecordProbeFailure();
      if rollBack && rollback.Some? {
        change := RollbackFailedProbe(rollback.value, cause);
      } else {
        change := SetTarget(Percentage(target, percent), Congestion, cause);
      }
    }

    method ClimbAfterProbe(safePath: U64) returns (change: Option<Change>)
      modifies this
      ensures Outcome(Snapshot(), change) == old(Snapshot()).ClimbAfterProbe(safePath)
    {
      ForgetPassedCeiling();
      SpeedUpAtLimit();
      ResetRecoveryWait();
      if Snapshot().NearSoftCeiling() {
        return None;
      }
      change := SetRecoveryTarget(Min(Snapshot().OrdinaryRecoveryTarget(), safePath));
    }

    method ClimbAfterCooldown(safePath: U64) returns (change: Option<Change>)
      modifies this
      ensures Outcome(Snapshot(), change) == old(Snapshot()).ClimbAfterCooldown(safePath)
    {
      ResetRecoveryWait();
      var goal := if Snapshot().NearSoftCeiling() then Snapshot().CautiousTarget()
        else Snapshot().OrdinaryRecoveryTarget();
      change := SetRecoveryTarget(Min(goal, safePath));
    }

    method ClimbNearCeiling(interval: U64, safePath: U64) returns (change: Option<Change>)
      modifies this
      ensures Outcome(Snapshot(), change) == old(Snapshot()).ClimbNearCeiling(interval, safePath)
    {
      healthyReports := 0;
      softCeilingHealthy := AddU64(softCeilingHealthy, interval);
      if softCeilingHealthy < probeInterval {
        return None;
      }
      softCeilingHealthy := 0;
      change := SetRecoveryTarget(Min(Snapshot().CautiousTarget(), safePath));
    }

    method ClimbBelowCeiling(safePath: U64) returns (change: Option<Change>)
      modifies this
      ensures Outcome(Snapshot(), change) == old(Snapshot()).ClimbBelowCeiling(safePath)
    {
      softCeilingHealthy := 0;
      if IncrementU8(healthyReports) < HEALTHY_REPORTS_BEFORE_RECOVERY {
        healthyReports := healthyReports + 1;
        return None;
      }
      healthyReports := 0;
      change := SetRecoveryTarget(Min(Snapshot().OrdinaryRecoveryTarget(), safePath));
    }

    method Climb(validated: bool, cooledDown: bool, interval: U64, safePath: U64) returns (change: Option<Change>)
      modifies this
      ensures Outcome(Snapshot(), change) == old(Snapshot()).Climb(validated, cooledDown, interval, safePath)
    {
      if target == maximum {
        return None;
      }
      if activeProbe.Some? {
        ResetRecoveryWait();
        return None;
      }
      if validated {
        change := ClimbAfterProbe(safePath);
      } else if cooledDown {
        change := ClimbAfterCooldown(safePath);
      } else if Snapshot().NearSoftCeiling() {
        change := ClimbNearCeiling(interval, safePath);
      } else {
        change := ClimbBelowCeiling(safePath);
      }
    }

    method Recover(interval: U64, safePath: U64) returns (change: Option<Change>)
      modifies this
      ensures Outcome(Snapshot(), change) == old(Snapshot()).Recover(interval, safePath)
    {
      var cooldownWasActive := recoveryCooldown != 0;
      recoveryCooldown := SubU64(recoveryCooldown, interval);
      if recoveryCooldown != 0 {
        ResetRecoveryWait();
        return None;
      }
      UpdateReturnAfterCollapse(interval);
      var validated := AdvanceProbe(interval);
      change := Climb(validated, cooldownWasActive, interval, safePath);
    }

    method RespondToSevere(g: Signals) returns (change: Option<Change>)
      modifies this
      ensures Outcome(Snapshot(), change) == old(Snapshot()).RespondToSevere(g)
    {
      ResetRecoveryWait();
      degradedReports := 0;
      change := FallBack(75, g.severeLoss, if g.severeLoss then SevereReceiverLoss else SeverePathPressure);
    }

    method RespondToMild() returns (change: Option<Change>)
      modifies this
      ensures Outcome(Snapshot(), change) == old(Snapshot()).RespondToMild()
    {
      ResetRecoveryWait();
      degradedReports := IncrementU8(degradedReports);
      if degradedReports < 2 {
        return None;
      }
      degradedReports := 0;
      change := FallBack(90, true, MildDegradation);
    }

    method RespondToRoundTrip() returns (change: Option<Change>)
      modifies this
      ensures Outcome(Snapshot(), change) == old(Snapshot()).RespondToRoundTrip()
    {
      ResetRecoveryWait();
      if rttPressureStreak < 2 {
        return None;
      }
      rttPressureStreak := 0;
      change := FallBack(90, true, MildDegradation);
    }

    method RespondToSender(g: Signals) returns (change: Option<Change>)
      modifies this
      ensures Outcome(Snapshot(), change) == old(Snapshot()).RespondToSender(g)
    {
      ResetRecoveryWait();
      if g.severeSender || senderCongestedStreak < 2 {
        return None;
      }
      change := FallBack(90, false, SenderCongestion);
    }

    method RespondToCleanDelivery(g: Signals) returns (change: Option<Change>)
      modifies this
      ensures Outcome(Snapshot(), change) == old(Snapshot()).RespondToCleanDelivery(g)
    {
      if rttPressureStreak != 0 && !mediaDelayMeasured {
        change := RespondToRoundTrip();
      } else if g.senderEvents != 0 {
        change := RespondToSender(g);
      } else if !g.allowIncrease {
        healthyReports := 0;
        change := None;
      } else {
        change := Recover(g.interval, g.safePath);
      }
    }

    /** The third part: the first condition that holds decides what the report does to the target. */
    method Respond(g: Signals) returns (change: Option<Change>)
      modifies this
      ensures Outcome(Snapshot(), change) == old(Snapshot()).Respond(g)
    {
      if g.severeLoss || g.safePath < Percentage(target, 75) {
        change := RespondToSevere(g);
      } else if g.receiverLoss || g.safePath < target {
        change := RespondToMild();
      } else {
        degradedReports := 0;
        change := RespondToCleanDelivery(g);
      }
    }

    /** One report moves the target one way, as the answer says, and only down when a rise is not allowed. */
    /** A report without an interval changes no bitrate. Any other cuts for the first cause that applies, as deep as
        that cause asks, and only without any such cause may it raise the bitrate. */
    method Observe(path: Path, d: Delivery, allowIncrease: bool) returns (change: Option<Change>)
      requires Valid()
      modifies this
      ensures Valid() && I.OneWay(old(target), Outcome(Snapshot(), change))
      ensures !allowIncrease ==> target <= old(target)
      ensures if d.intervalMicros == 0 then change.None? && target == old(target)
        else C.CutsBecause(old(Snapshot()), path, d, Outcome(Snapshot(), change))
      ensures Outcome(Snapshot(), change) == old(Snapshot()).Observe(path, d, allowIncrease)
    {
      I.ObserveMovesOneWay(Snapshot(), path, d, allowIncrease);
      if d.intervalMicros > 0 {
        C.ReportCutsBecause(Snapshot(), path, d, allowIncrease);
      }
      hide C.CutsBecause, I.Valid;
      var before := previousDelivery;
      Account(d);
      if d.intervalMicros == 0 {
        return None;
      }
      var g := Measure(path, before, d, allowIncrease);
      change := Respond(g);
    }

    method ObserveSenderPressure()
      modifies this
      ensures old(Valid()) ==> Valid()
      ensures Snapshot() == C.Pressed(old(Snapshot())) == old(Snapshot()).ObserveSenderPressure()
    {
      C.PressureMeans(Snapshot());
      ResetRecoveryWait();
      degradedReports := 0;
      senderPressureEvents := IncrementU8(senderPressureEvents);
    }

    /** An expired deadline only lowers the target. */
    /** The third late or dropped send since the last report takes a quarter, and no other does. */
    method ObserveSenderCongestion() returns (change: Option<Change>)
      requires Valid()
      modifies this
      ensures Valid() && I.OneWay(old(target), Outcome(Snapshot(), change)) && target <= old(target)
      ensures target == if old(senderPressureEvents) >= 2 && !old(severeSenderReduction)
                        then Max(1_000_000, old(target) * 75 / 100) else old(target)
      ensures Outcome(Snapshot(), change) == old(Snapshot()).ObserveSenderCongestion()
    {
      I.SenderCongestionFalls(Snapshot());
      C.CongestionMeans(Snapshot());
      ObserveSenderPressure();
      if senderPressureEvents < 3 || severeSenderReduction {
        return None;
      }
      severeSenderReduction := true;
      change := FallBack(75, false, SenderCongestion);
    }

    method UseMeasuredMediaDelay()
      modifies this
      ensures old(Valid()) ==> Valid()
      ensures Snapshot() == old(Snapshot()).UseMeasuredMediaDelay()
    {
      mediaDelayMeasured := true;
    }

    method ConfigureLatencyCeiling(ceiling: Option<U64>)
      modifies this
      ensures old(Valid()) ==> Valid()
      ensures Snapshot() == old(Snapshot()).ConfigureLatencyCeiling(ceiling)
    {
      latencyCeiling := ceiling;
    }

    method GiveUpProbe()
      modifies this
      ensures Snapshot() == old(Snapshot()).GiveUpProbe()
    {
      activeProbe := None;
      ResetRecoveryWait();
      if !Snapshot().HoldIsProven() {
        LoseProbeMomentum();
      }
    }

    /** A latency reduction leaves no probe open, and only lowers the target when told to go no higher. */
    method SetLatencyTarget(bits: U64, cooldown: U64) returns (change: Option<Change>)
      requires Valid()
      modifies this
      ensures Valid() && activeProbe.None?
      ensures bits <= old(target) ==> I.OneWay(old(target), Outcome(Snapshot(), change)) && target <= old(target)
      ensures bits <= old(target) ==> target == Max(1_000_000, bits) && recoveryCooldown == cooldown
      ensures Outcome(Snapshot(), change) == old(Snapshot()).SetLatencyTarget(bits, cooldown)
    {
      I.SetLatencyTargetFalls(Snapshot(), bits, cooldown);
      if bits <= target {
        C.LatencyTargetSets(Snapshot(), bits, cooldown);
      }
      GiveUpProbe();
      change := SetTarget(bits, Congestion, LatencyPressure);
      recoveryCooldown := cooldown;
    }
  }
}
