/** What every run of the bitrate controller keeps, and which way one report may move the target. */
module BitrateInvariants {
  import opened Numbers
  import opened BitrateModel

  ghost predicate TargetInRange(s: Controller) {
    BOOTSTRAP <= s.target <= s.maximum
  }

  /** A running probe belongs to the current target, which it raised, and has not outlived its check. */
  ghost predicate ProbeMatches(s: Controller) {
    s.activeProbe.Some? ==>
      var p := s.activeProbe.value;
      p.target == s.target && p.elapsed < PROBE_ATTRIBUTION && (p.previous.Some? ==> p.previous.value < p.target)
  }

  ghost predicate MemoryBounded(s: Controller) {
    && |s.failedProbeTargets| <= FAILED_PROBE_SAMPLES
    && |s.deliverySamples| <= CAPACITY_REPORTS
    && (forall i :: 0 <= i < |s.failedProbeTargets| ==> BOOTSTRAP <= s.failedProbeTargets[i] <= s.maximum)
    && (s.provisionalCeiling.Some? ==> s.provisionalCeiling.value <= s.maximum)
    && (s.healthyBest.Some? ==> BOOTSTRAP <= s.healthyBest.value <= s.maximum)
    && (s.returningTo.Some? ==> BOOTSTRAP <= s.returningTo.value <= s.maximum)
  }

  ghost predicate BackoffBounded(s: Controller) {
    && s.probeStep in {2, 4, 8, 16}
    && PROBE_INTERVAL <= s.probeInterval <= MAXIMUM_PROBE_BACKOFF
    && RETURN_RETRY <= s.returnRetry <= MAXIMUM_RETURN_RETRY
    && s.returnWait <= MAXIMUM_RETURN_RETRY
  }

  /** While climbing back, nothing better than the goal or the current target was ever held. */
  ghost predicate ReturnRemembered(s: Controller) {
    s.returningTo.Some? ==>
      s.healthyBest.Some? && s.healthyBest.value <= Max(s.returningTo.value, s.target)
  }

  ghost predicate Sound(s: Controller) {
    TargetInRange(s) && MemoryBounded(s) && BackoffBounded(s) && ReturnRemembered(s)
  }

  ghost predicate Valid(s: Controller) {
    Sound(s) && ProbeMatches(s)
  }

  /** The answer tells the truth about the target: none means unmoved, healthy means up, congestion down. */
  ghost predicate OneWay(target: U64, o: Outcome) {
    match o.change
    case None => o.state.target == target
    case Some(c) =>
      && o.state.target == c.target
      && (c.reason == HealthyDelivery ==> c.target > target)
      && (c.reason == Congestion ==> c.target < target)
  }

  // Percentages

  lemma PercentageMonotone(value: U64, percent: nat)
    ensures percent <= 100 ==> Percentage(value, percent) <= value
    ensures percent >= 100 ==> Percentage(value, percent) >= value
    ensures percent >= 102 && BOOTSTRAP <= value < U64_MAX ==> Percentage(value, percent) > value
  {
    if percent <= 100 {
      assert value * percent <= value * 100;
    }
    if percent >= 100 {
      assert value * percent >= value * 100;
    }
    if percent >= 102 {
      assert value * percent >= value * 102;
    }
  }

  lemma PercentageOrder(a: U64, b: U64, percent: nat)
    requires a <= b
    ensures Percentage(a, percent) <= Percentage(b, percent)
  {
    assert a * percent <= b * percent;
  }

  /** The step bounds never cross, so the clamp in ordinary recovery never panics. */
  lemma ClampBoundsOrdered(target: U64)
    ensures Percentage(target, 3) <= Percentage(target, 25)
  {
    assert target * 3 <= target * 25;
  }

  // Changing the target

  lemma AbandonSound(s: Controller)
    requires Sound(s)
    ensures var t := s.AbandonReturn();
      && Sound(t) && t.target == s.target && t.activeProbe == s.activeProbe && t.maximum == s.maximum
      && t.returningTo.None?
  {
    if s.returningTo.Some? {
      PercentageMonotone(s.returningTo.value, 75);
    }
  }

  lemma CooledSound(s: Controller, cooldown: U64)
    requires Sound(s)
    ensures Sound(s.(recoveryCooldown := cooldown))
  {
  }

  lemma MovedSound(s: Controller, bits: U64)
    requires Sound(s) && BOOTSTRAP <= bits <= s.maximum
    requires s.returningTo.Some? ==> bits >= s.target
    ensures Sound(s.(target := bits, targetHeld := 0))
  {
  }

  lemma BoundedStaysBetween(s: Controller, bits: U64)
    requires Sound(s)
    ensures BOOTSTRAP <= s.Bounded(bits) <= s.maximum
    ensures bits >= s.target ==> s.Bounded(bits) >= s.target
    ensures bits <= s.target ==> s.Bounded(bits) <= s.target
  {
  }

  lemma SetTargetSound(s: Controller, bits: U64, reason: Reason, cause: Cause)
    requires Sound(s)
    requires reason == HealthyDelivery ==> bits >= s.target
    ensures var o := s.SetTarget(bits, reason, cause);
      && Sound(o.state) && o.state.activeProbe == s.activeProbe && o.state.maximum == s.maximum
      && (bits >= s.target && reason == HealthyDelivery ==> OneWay(s.target, o))
      && (bits <= s.target && reason == Congestion ==> OneWay(s.target, o))
      && (o.change.Some? ==> o.change.value.reason == reason)
  {
    hide Sound, Controller.AbandonReturn;
    BoundedStaysBetween(s, bits);
    var cooled := s.(recoveryCooldown := RECOVERY_COOLDOWN);
    CooledSound(s, RECOVERY_COOLDOWN);
    AbandonSound(cooled);
    MovedSound(if reason == Congestion then cooled.AbandonReturn() else s, s.Bounded(bits));
  }

  lemma TakeFailedProbeSound(s: Controller, probe: Probe)
    requires Sound(s) && probe.target == s.target
    ensures var (t, rollback) := s.TakeFailedProbe(probe);
      && Sound(t) && t.activeProbe.None? && t.target == s.target && t.maximum == s.maximum
      && (rollback.Some? ==> rollback.value <= s.target)
  {
    PercentageMonotone(probe.target, SOFT_CEILING_RANGE_PERCENT);
  }

  lemma RecordProbeFailureSound(s: Controller)
    requires Valid(s)
    ensures var (t, rollback) := s.RecordProbeFailure();
      && Sound(t) && t.activeProbe.None? && t.target == s.target && t.maximum == s.maximum
      && (rollback.Some? ==> rollback.value <= s.target)
  {
    PercentageMonotone(s.target, SOFT_CEILING_RANGE_PERCENT);
    TakeFailedProbeSound(s, if s.activeProbe.Some? then s.activeProbe.value else Probe(Some(s.target), s.target, 0));
  }

  lemma FallToSound(s: Controller, t: Controller, bits: U64, cause: Cause)
    requires Sound(t) && t.activeProbe.None? && t.target == s.target && t.maximum == s.maximum && bits <= s.target
    ensures var o := t.SetTarget(bits, Congestion, cause);
      && Falls(s, o) && o.state.activeProbe.None?
  {
    SetTargetSound(t, bits, Congestion, cause);
  }

  lemma FallsCooled(s: Controller, o: Outcome, cooldown: U64)
    requires Falls(s, o)
    ensures Falls(s, Outcome(o.state.(recoveryCooldown := cooldown), o.change))
  {
    CooledSound(o.state, cooldown);
  }

  lemma FallBackSound(s: Controller, percent: nat, rollBack: bool, cause: Cause)
    requires Valid(s) && percent <= 100
    ensures var o := s.FallBack(percent, rollBack, cause);
      Falls(s, o) && o.state.activeProbe.None?
  {
    var (t, rollback) := s.RecordProbeFailure();
    var bits := if rollBack && rollback.Some? then rollback.value else Percentage(s.target, percent);
    RecordProbeFailureSound(s);
    PercentageMonotone(s.target, percent);
    FallToSound(s, t, bits, cause);
    hide Controller.RecordProbeFailure, Controller.SetTarget, Percentage, Sound, Valid, Falls;
    var o := t.SetTarget(bits, Congestion, cause);
    FallsCooled(s, o, o.state.probeInterval);
  }

  // Climbing

  /** Delivery was healthy: the target does not fall, and a change says so. */
  ghost predicate Rises(s: Controller, o: Outcome) {
    && Valid(o.state) && OneWay(s.target, o) && o.state.target >= s.target && o.state.maximum == s.maximum
    && (o.change.Some? ==> o.change.value.reason == HealthyDelivery)
  }

  /** Something was wrong: the target does not rise, and a change says so. */
  ghost predicate Falls(s: Controller, o: Outcome) {
    && Valid(o.state) && OneWay(s.target, o) && o.state.target <= s.target && o.state.maximum == s.maximum
    && (o.change.Some? ==> o.change.value.reason == Congestion)
  }

  lemma RecoveryTargetsRise(s: Controller)
    requires Sound(s)
    ensures s.OrdinaryRecoveryTarget() >= s.target
    ensures s.CautiousTarget() >= s.target
    ensures s.target < U64_MAX ==> s.CautiousTarget() > s.target
    ensures s.target < U64_MAX && !s.NearSoftCeiling() ==> s.OrdinaryRecoveryTarget() > s.target
  {
    PercentageMonotone(s.target, 100 + s.probeStep);
    PercentageMonotone(s.target, 110);
    ClampBoundsOrdered(s.target);
  }

  lemma SetRecoveryTargetRises(s: Controller, goal: U64, safePath: U64)
    requires Sound(s) && s.activeProbe.None?
    requires goal >= s.target && safePath >= s.target
    ensures Rises(s, s.SetRecoveryTarget(Min(goal, safePath)))
  {
    SetTargetSound(s, Min(goal, safePath), HealthyDelivery, Healthy);
  }

  lemma OrdinaryClimbRises(s: Controller, safePath: U64)
    requires Sound(s) && s.activeProbe.None? && safePath >= s.target
    ensures Rises(s, s.SetRecoveryTarget(Min(s.OrdinaryRecoveryTarget(), safePath)))
  {
    assert s.OrdinaryRecoveryTarget() >= s.target by { RecoveryTargetsRise(s); }
    SetRecoveryTargetRises(s, s.OrdinaryRecoveryTarget(), safePath);
  }

  lemma ClimbAfterProbeRises(s: Controller, safePath: U64)
    requires Sound(s) && s.activeProbe.None? && safePath >= s.target
    ensures Rises(s, s.ClimbAfterProbe(safePath))
  {
    var t := s.ForgetPassedCeiling().SpeedUpAtLimit();
    assert SameTarget(s, t) by {
      ForgetPassedSound(s);
      SpeedUpSound(s.ForgetPassedCeiling());
    }
    OrdinaryClimbRises(t.ResetRecoveryWait(), safePath);
  }

  ghost predicate SameTarget(s: Controller, t: Controller) {
    Sound(t) && t.target == s.target && t.maximum == s.maximum && t.activeProbe == s.activeProbe
  }

  lemma ForgetPassedSound(s: Controller)
    requires Sound(s)
    ensures SameTarget(s, s.ForgetPassedCeiling())
  {
  }

  lemma SpeedUpSound(s: Controller)
    requires Sound(s)
    ensures SameTarget(s, s.SpeedUpAtLimit())
  {
  }

  lemma ClimbAfterCooldownRises(s: Controller, safePath: U64)
    requires Sound(s) && s.activeProbe.None? && safePath >= s.target
    ensures Rises(s, s.ClimbAfterCooldown(safePath))
  {
    hide Controller.SetRecoveryTarget, Controller.CautiousTarget, Controller.OrdinaryRecoveryTarget;
    var t := s.ResetRecoveryWait();
    RecoveryTargetsRise(t);
    SetRecoveryTargetRises(t, if t.NearSoftCeiling() then t.CautiousTarget() else t.OrdinaryRecoveryTarget(), safePath);
  }

  lemma WaitSound(s: Controller, reports: U8, held: U64)
    requires Sound(s)
    ensures Sound(s.(healthyReports := reports, softCeilingHealthy := held))
  {
  }

  lemma ClimbNearCeilingRises(s: Controller, interval: U64, safePath: U64)
    requires Sound(s) && s.activeProbe.None? && safePath >= s.target
    ensures Rises(s, s.ClimbNearCeiling(interval, safePath))
  {
    hide Controller.SetRecoveryTarget, Controller.CautiousTarget;
    hide Sound;
    var t := s.(healthyReports := 0, softCeilingHealthy := 0);
    WaitSound(s, 0, 0);
    WaitSound(s, 0, AddU64(s.softCeilingHealthy, interval));
    assert t.CautiousTarget() >= t.target by { RecoveryTargetsRise(t); }
    SetRecoveryTargetRises(t, t.CautiousTarget(), safePath);
  }

  lemma ClimbBelowCeilingRises(s: Controller, safePath: U64)
    requires Sound(s) && s.activeProbe.None? && safePath >= s.target
    ensures Rises(s, s.ClimbBelowCeiling(safePath))
  {
    hide Controller.SetRecoveryTarget, Controller.OrdinaryRecoveryTarget;
    var t := s.(healthyReports := 0, softCeilingHealthy := 0);
    OrdinaryClimbRises(t, safePath);
  }

  lemma ClimbRises(s: Controller, validated: bool, cooledDown: bool, interval: U64, safePath: U64)
    requires Valid(s) && safePath >= s.target
    ensures Rises(s, s.Climb(validated, cooledDown, interval, safePath))
  {
    if s.target != s.maximum && s.activeProbe.None? {
      if validated {
        ClimbAfterProbeRises(s, safePath);
      } else if cooledDown {
        ClimbAfterCooldownRises(s, safePath);
      } else if s.NearSoftCeiling() {
        ClimbNearCeilingRises(s, interval, safePath);
      } else {
        ClimbBelowCeilingRises(s, safePath);
      }
    }
  }

  lemma BeginReturnSound(s: Controller)
    requires Valid(s) && s.healthyBest.Some?
    ensures var t := s.BeginReturn(); Valid(t) && t.target == s.target && t.maximum == s.maximum
  {
  }

  lemma UpdateReturnSound(s: Controller, interval: U64)
    requires Valid(s)
    ensures var t := s.UpdateReturnAfterCollapse(interval);
      Valid(t) && t.target == s.target && t.maximum == s.maximum
  {
    if s.returningTo.None? {
      var t := s.(returnWait := SubU64(s.returnWait, interval));
      assert Valid(t);
      if s.healthyBest.Some? {
        BeginReturnSound(t);
      }
    }
  }

  lemma AdvanceProbeSound(s: Controller, interval: U64)
    requires Valid(s)
    ensures var (t, validated) := s.AdvanceProbe(interval);
      && Valid(t) && t.target == s.target && t.maximum == s.maximum
      && (validated ==> t.activeProbe.None?)
  {
    var t := s.AdvanceProbe(interval).0;
    assert t == s.(activeProbe := t.activeProbe);
    assert Sound(t) by { SoundWithoutProbe(s, t.activeProbe); }
  }

  lemma SoundWithoutProbe(s: Controller, probe: Option<Probe>)
    requires Sound(s)
    ensures Sound(s.(activeProbe := probe))
  {
  }

  lemma RecoverRises(s: Controller, interval: U64, safePath: U64)
    requires Valid(s) && safePath >= s.target
    ensures Rises(s, s.Recover(interval, safePath))
  {
    var cooled := s.(recoveryCooldown := SubU64(s.recoveryCooldown, interval));
    if cooled.recoveryCooldown == 0 {
      UpdateReturnSound(cooled, interval);
      var r := cooled.UpdateReturnAfterCollapse(interval);
      AdvanceProbeSound(r, interval);
      var (t, validated) := r.AdvanceProbe(interval);
      ClimbRises(t, validated, s.recoveryCooldown != 0, interval, safePath);
    }
  }

  // One report

  lemma RespondToSevereFalls(s: Controller, g: Signals)
    requires Valid(s)
    ensures Falls(s, s.RespondToSevere(g))
  {
    hide Controller.FallBack;
    FallBackSound(s.ResetRecoveryWait().(degradedReports := 0), 75, g.severeLoss,
                  if g.severeLoss then SevereReceiverLoss else SeverePathPressure);
  }

  lemma RespondToMildFalls(s: Controller)
    requires Valid(s)
    ensures Falls(s, s.RespondToMild())
  {
    hide Controller.FallBack;
    FallBackSound(s.ResetRecoveryWait().(degradedReports := 0), 90, true, MildDegradation);
  }

  lemma RespondToRoundTripFalls(s: Controller)
    requires Valid(s)
    ensures Falls(s, s.RespondToRoundTrip())
  {
    hide Controller.FallBack;
    FallBackSound(s.ResetRecoveryWait().(rttPressureStreak := 0), 90, true, MildDegradation);
  }

  lemma RespondToSenderFalls(s: Controller, g: Signals)
    requires Valid(s)
    ensures Falls(s, s.RespondToSender(g))
  {
    hide Controller.FallBack;
    FallBackSound(s.ResetRecoveryWait(), 90, false, SenderCongestion);
  }

  lemma RespondToCleanDeliveryMovesOneWay(s: Controller, g: Signals)
    requires Valid(s) && g.safePath >= s.target
    ensures var o := s.RespondToCleanDelivery(g); (Rises(s, o) || Falls(s, o)) && (!g.allowIncrease ==> Falls(s, o))
  {
    if s.rttPressureStreak != 0 && !s.mediaDelayMeasured {
      RespondToRoundTripFalls(s);
    } else if g.senderEvents != 0 {
      RespondToSenderFalls(s, g);
    } else if g.allowIncrease {
      RecoverRises(s, g.interval, g.safePath);
    }
  }

  lemma RespondMovesOneWay(s: Controller, g: Signals)
    requires Valid(s)
    ensures var o := s.Respond(g); (Rises(s, o) || Falls(s, o)) && (!g.allowIncrease ==> Falls(s, o))
  {
    if g.severeLoss || g.safePath < Percentage(s.target, 75) {
      RespondToSevereFalls(s, g);
    } else if g.receiverLoss || g.safePath < s.target {
      RespondToMildFalls(s);
    } else {
      RespondToCleanDeliveryMovesOneWay(s.(degradedReports := 0), g);
    }
  }

  lemma AccountSound(s: Controller, d: Delivery)
    requires Valid(s)
    ensures Valid(s.Account(d)) && s.Account(d).target == s.target && s.Account(d).maximum == s.maximum
  {
  }

  lemma ObservedSound(s: Controller, path: Path, before: Delivery, d: Delivery)
    requires Valid(s)
    ensures var t := s.Observed(path, before, d);
      Valid(t) && t.target == s.target && t.maximum == s.maximum
  {
  }

  /** One report moves the target in one direction only, and never up when the caller forbids it. */
  lemma ObserveMovesOneWay(s: Controller, path: Path, d: Delivery, allowIncrease: bool)
    requires Valid(s)
    ensures var o := s.Observe(path, d, allowIncrease); (Rises(s, o) || Falls(s, o)) && (!allowIncrease ==> Falls(s, o))
  {
    AccountSound(s, d);
    var a := s.Account(d);
    if d.intervalMicros != 0 {
      ObservedSound(a, path, s.previousDelivery, d);
      RespondMovesOneWay(a.Observed(path, s.previousDelivery, d),
                         a.SignalsOf(path, s.previousDelivery, d, allowIncrease));
    }
  }

  lemma SenderCongestionFalls(s: Controller)
    requires Valid(s)
    ensures Falls(s, s.ObserveSenderCongestion())
  {
    FallBackSound(s.ObserveSenderPressure().(severeSenderReduction := true), 75, false, SenderCongestion);
  }

  lemma SetLatencyTargetFalls(s: Controller, bits: U64, cooldown: U64)
    requires Valid(s)
    ensures bits <= s.target ==> Falls(s, s.SetLatencyTarget(bits, cooldown))
    ensures Valid(s.SetLatencyTarget(bits, cooldown).state)
      && s.SetLatencyTarget(bits, cooldown).state.activeProbe.None?
  {
    hide Controller.SetTarget;
    SetTargetSound(s.GiveUpProbe(), bits, Congestion, LatencyPressure);
  }

  /** Nothing was reported, counted or learned yet. */
  ghost predicate Blank(s: Controller) {
    && s.deliverySamples == [] && s.minimumRoundTrip.None? && s.rttPressureStreak == 0
    && s.previousDelivery == Delivery(0, 0, 0, 0, 0, 0, 0) && !s.receiverLossBefore && !s.mediaDelayMeasured
    && s.degradedReports == s.healthyReports == s.softCeilingHealthy == s.targetHeld == s.recoveryCooldown == 0
    && s.healthyBest.None? && s.returningTo.None? && s.returnRetry == 30_000_000 && s.returnWait == 0
    && s.latencyCeiling.None? && s.failedProbeTargets == [] && s.probeInterval == 15_000_000 && s.probeStep == 2
    && s.senderPressureEvents == s.senderCongestedStreak == 0 && !s.severeSenderReduction
  }

  /** A controller starts at half of the maximum, and knows no limit. */
  lemma NewValid(maximum: U64)
    ensures var s := New(maximum);
      && Valid(s) && Blank(s)
      && s.maximum == Max(maximum, 1_000_000) && s.target == Max(s.maximum / 2, 1_000_000)
      && s.estimatedCapacity == 0 && s.provisionalCeiling.None? && s.activeProbe.None?
  {
  }

  /** After a startup probe it starts at 70 % of what was measured, which is its first limit and capacity; the start is
      an open probe that no lower bitrate came before. Without a measurement it starts at the minimum. */
  lemma FromStartupProbeValid(maximum: U64, measured: U64)
    ensures var s := FromStartupProbe(maximum, measured);
      && Valid(s) && Blank(s)
      && s.maximum == Max(maximum, 1_000_000) && s.target == Max(Min(measured, s.maximum) * 70 / 100, 1_000_000)
      && s.estimatedCapacity == measured
      && s.provisionalCeiling == (if measured == 0 then None else Some(Min(measured, s.maximum)))
      && s.activeProbe == (if measured == 0 then None else Some(Probe(None, s.target, 0)))
  {
    var ceiling := Min(measured, New(maximum).maximum);
    PercentageMonotone(ceiling, 70);
  }

  lemma OneMoreTimes(a: nat, count: nat)
    ensures a * (count + 1) == a + a * count
  {
  }

  lemma {:induction false} SumBetween(xs: seq<U64>, low: nat, high: nat)
    requires forall i :: 0 <= i < |xs| ==> low <= xs[i] <= high
    ensures low * |xs| <= Sum(xs) <= high * |xs|
  {
    if xs != [] {
      var rest := xs[1..];
      SumBetween(rest, low, high);
      OneMoreTimes(low, |rest|);
      OneMoreTimes(high, |rest|);
    }
  }

  /** The learned limit lies between the lowest and the highest target that failed. */
  lemma {:induction false} SoftCeilingBetweenFailures(s: Controller, low: U64, high: U64)
    requires Valid(s)
    requires forall i :: 0 <= i < |s.failedProbeTargets| ==> low <= s.failedProbeTargets[i] <= high
    ensures s.SoftCeiling().Some? <==> |s.failedProbeTargets| == FAILED_PROBE_SAMPLES
    ensures s.SoftCeiling().Some? ==> low <= s.SoftCeiling().value <= high
  {
    SumBetween(s.failedProbeTargets, low, high);
  }
}
