/** A clean link always wins: from any reachable state, clean reports raise the target to the maximum. */
module BitrateConvergence {
  import opened Numbers
  import opened BitrateModel
  import opened BitrateInvariants
  import opened Descent

  datatype Report = Report(path: Path, delivery: Delivery)

  /** Time passed, nothing new was lost, and neither the path nor the round trip holds the target down. */
  ghost predicate CleanReport(s: Controller, r: Report) {
    && r.delivery.intervalMicros > 0
    && !FreshLoss(s.previousDelivery, r.delivery)
    && s.SafePath(r.path) >= s.maximum
    && (s.mediaDelayMeasured || !s.RttPressure(r.path))
  }

  // What must run down before the next rise, most significant part first.

  /** Two while a collapse still has to be answered, one on the way back, zero otherwise. */
  ghost function Phase(s: Controller): nat {
    if s.returningTo.Some? then 1
    else if s.healthyBest.Some? && s.target < Percentage(s.healthyBest.value, 50) then 2
    else 0
  }

  ghost function ProbeLeft(s: Controller): nat {
    if s.activeProbe.None? then 0 else 1 + SubU64(PROBE_ATTRIBUTION, s.activeProbe.value.elapsed)
  }

  ghost function WaitLeft(s: Controller): nat {
    if s.NearSoftCeiling() then SubU64(s.probeInterval, s.softCeilingHealthy)
    else SubU64(HEALTHY_REPORTS_BEFORE_RECOVERY, s.healthyReports)
  }

  ghost function DistanceLeft(s: Controller, limits: nat): Distance
    requires TargetInRange(s)
  {
    Distance(s.maximum - s.target, limits, s.recoveryCooldown, Phase(s), ProbeLeft(s), WaitLeft(s))
  }

  ghost predicate Closer(t: Controller, s: Controller) {
    Shorter(Distance(0, 0, t.recoveryCooldown, Phase(t), ProbeLeft(t), WaitLeft(t)),
            Distance(0, 0, s.recoveryCooldown, Phase(s), ProbeLeft(s), WaitLeft(s)))
  }

  ghost predicate Progresses(s: Controller, o: Outcome) {
    o.state.target > s.target || (o.state.target == s.target && Closer(o.state, s))
  }

  lemma SetRecoveryTargetRaises(s: Controller, goal: U64, safePath: U64)
    requires Sound(s) && s.target < s.maximum <= safePath && goal > s.target
    ensures s.SetRecoveryTarget(Min(goal, safePath)).state.target > s.target
  {
  }

  /** Climbing leaves the cooldown, the memory of a collapse and sender pressure alone, and the probe
      unless the target moves. */
  ghost predicate Untouched(s: Controller, t: Controller) {
    && t.recoveryCooldown == s.recoveryCooldown
    && t.returningTo == s.returningTo
    && t.healthyBest == s.healthyBest
    && t.senderPressureEvents == s.senderPressureEvents
    && t.mediaDelayMeasured == s.mediaDelayMeasured
    && t.latencyCeiling == s.latencyCeiling
    && (t.target == s.target ==> t.activeProbe == s.activeProbe)
  }

  /** The latency limit changes only by being forgotten, when a return after a collapse begins. */
  ghost predicate LatencyLimitKept(s: Controller, t: Controller) {
    if s.returningTo.None? && t.returningTo.Some? then t.latencyCeiling.None? else t.latencyCeiling == s.latencyCeiling
  }

  lemma SetRecoveryTargetUntouched(s: Controller, goal: U64)
    ensures Untouched(s, s.SetRecoveryTarget(goal).state)
  {
  }

  lemma ClimbAfterProbeUntouched(s: Controller, safePath: U64)
    ensures Untouched(s, s.ClimbAfterProbe(safePath).state)
  {
    var t := s.ForgetPassedCeiling().SpeedUpAtLimit().ResetRecoveryWait();
    assert Untouched(s, t) && t.target == s.target;
    SetRecoveryTargetUntouched(t, Min(t.OrdinaryRecoveryTarget(), safePath));
  }

  lemma ClimbAfterCooldownUntouched(s: Controller, safePath: U64)
    ensures Untouched(s, s.ClimbAfterCooldown(safePath).state)
  {
  }

  lemma ClimbNearCeilingUntouched(s: Controller, interval: U64, safePath: U64)
    ensures Untouched(s, s.ClimbNearCeiling(interval, safePath).state)
  {
  }

  lemma ClimbBelowCeilingUntouched(s: Controller, safePath: U64)
    ensures Untouched(s, s.ClimbBelowCeiling(safePath).state)
  {
  }

  lemma ClimbUntouched(s: Controller, validated: bool, cooledDown: bool, interval: U64, safePath: U64)
    ensures Untouched(s, s.Climb(validated, cooledDown, interval, safePath).state)
  {
    if s.target != s.maximum && s.activeProbe.None? {
      if validated {
        ClimbAfterProbeUntouched(s, safePath);
      } else if cooledDown {
        ClimbAfterCooldownUntouched(s, safePath);
      } else if s.NearSoftCeiling() {
        ClimbNearCeilingUntouched(s, interval, safePath);
      } else {
        ClimbBelowCeilingUntouched(s, safePath);
      }
    }
  }

  lemma ClimbNearCeilingProgresses(s: Controller, interval: U64, safePath: U64)
    requires Sound(s) && s.target < s.maximum <= safePath && s.NearSoftCeiling() && interval > 0
    ensures Progresses(s, s.ClimbNearCeiling(interval, safePath))
  {
    var t := s.(healthyReports := 0, softCeilingHealthy := AddU64(s.softCeilingHealthy, interval));
    if t.softCeilingHealthy < s.probeInterval {
      assert Phase(t) == Phase(s) && ProbeLeft(t) == ProbeLeft(s) && t.NearSoftCeiling();
    } else {
      var ready := t.(softCeilingHealthy := 0);
      RecoveryTargetsRise(ready);
      SetRecoveryTargetRaises(ready, ready.CautiousTarget(), safePath);
    }
  }

  lemma ClimbBelowCeilingProgresses(s: Controller, safePath: U64)
    requires Sound(s) && s.target < s.maximum <= safePath && !s.NearSoftCeiling()
    ensures Progresses(s, s.ClimbBelowCeiling(safePath))
  {
    var t := s.(softCeilingHealthy := 0, healthyReports := IncrementU8(s.healthyReports));
    if t.healthyReports < HEALTHY_REPORTS_BEFORE_RECOVERY {
      assert Phase(t) == Phase(s) && ProbeLeft(t) == ProbeLeft(s) && !t.NearSoftCeiling();
    } else {
      var ready := t.(healthyReports := 0);
      RecoveryTargetsRise(ready);
      SetRecoveryTargetRaises(ready, ready.OrdinaryRecoveryTarget(), safePath);
    }
  }

  /** The memory of a collapse only moves on: answered once, then climbed back, then done. */
  lemma ReturnMovesOn(s: Controller, interval: U64)
    requires Valid(s)
    ensures var t := s.UpdateReturnAfterCollapse(interval);
      && t.recoveryCooldown == s.recoveryCooldown && t.activeProbe == s.activeProbe
      && t.senderPressureEvents == s.senderPressureEvents && t.mediaDelayMeasured == s.mediaDelayMeasured
      && LatencyLimitKept(s, t)
      && (Phase(t) < Phase(s) || t == s.(returnWait := t.returnWait))
  {
    if s.returningTo.Some? {
      var best := s.returningTo.value;
      if s.target >= Percentage(best, SOFT_CEILING_RANGE_PERCENT) {
        HalfOfHeldIsBelow(s, best);
      }
    }
  }

  lemma HalfOfHeldIsBelow(s: Controller, best: U64)
    requires Valid(s) && s.returningTo == Some(best) && s.target >= Percentage(best, SOFT_CEILING_RANGE_PERCENT)
    ensures s.healthyBest.Some? && s.target >= Percentage(s.healthyBest.value, 50)
  {
    var held := s.healthyBest.value;
    if held <= best {
      PercentageOrder(held, best, 50);
      assert Percentage(best, 50) <= Percentage(best, 96);
    } else {
      PercentageOrder(held, s.target, 50);
      PercentageMonotone(s.target, 50);
    }
  }

  lemma ProbeRunsDown(s: Controller, interval: U64)
    requires Valid(s) && s.activeProbe.Some? && interval > 0
    ensures ProbeLeft(s.AdvanceProbe(interval).0) < ProbeLeft(s)
  {
  }

  /** Once the collapse is dealt with, the rest of a report leaves cooldown and phase alone unless the target rises. */
  lemma AdvanceAndClimbKeepPhase(r: Controller, cooledDown: bool, interval: U64, safePath: U64)
    requires Valid(r) && r.target <= safePath
    ensures var (t, validated) := r.AdvanceProbe(interval);
      var o := t.Climb(validated, cooledDown, interval, safePath);
      && o.state.target >= r.target
      && o.state.recoveryCooldown == r.recoveryCooldown
      && o.state.senderPressureEvents == r.senderPressureEvents
      && o.state.mediaDelayMeasured == r.mediaDelayMeasured
      && o.state.latencyCeiling == r.latencyCeiling && o.state.returningTo == r.returningTo
      && (o.state.target == r.target ==> Phase(o.state) == Phase(r))
  {
    var (t, validated) := r.AdvanceProbe(interval);
    assert Valid(t) by { AdvanceProbeSound(r, interval); }
    AdvanceChangesProbe(r, interval, t, validated);
    var o := t.Climb(validated, cooledDown, interval, safePath);
    assert o.state.target >= t.target by { ClimbRises(t, validated, cooledDown, interval, safePath); }
    assert Untouched(t, o.state) by { ClimbUntouched(t, validated, cooledDown, interval, safePath); }
    PhaseKept(r, t, o.state);
  }

  lemma AdvanceChangesProbe(r: Controller, interval: U64, t: Controller, validated: bool)
    requires r.AdvanceProbe(interval) == (t, validated)
    ensures t == r.(activeProbe := t.activeProbe)
  {
  }

  lemma PhaseKept(r: Controller, t: Controller, u: Controller)
    requires t == r.(activeProbe := t.activeProbe) && Untouched(t, u)
    ensures u.recoveryCooldown == r.recoveryCooldown && u.senderPressureEvents == r.senderPressureEvents
    ensures u.mediaDelayMeasured == r.mediaDelayMeasured
    ensures u.latencyCeiling == r.latencyCeiling && u.returningTo == r.returningTo
    ensures u.target == r.target ==> Phase(u) == Phase(r)
  {
  }

  lemma RecoverProgresses(s: Controller, interval: U64, safePath: U64)
    requires Valid(s) && interval > 0 && s.target < s.maximum <= safePath
    ensures Progresses(s, s.Recover(interval, safePath))
  {
    hide Controller.Climb, Controller.AdvanceProbe, Controller.UpdateReturnAfterCollapse;
    var cooled := s.(recoveryCooldown := SubU64(s.recoveryCooldown, interval));
    if cooled.recoveryCooldown == 0 {
      UpdateReturnSound(cooled, interval);
      ReturnMovesOn(cooled, interval);
      var r := cooled.UpdateReturnAfterCollapse(interval);
      if s.recoveryCooldown != 0 || Phase(r) < Phase(cooled) {
        AdvanceAndClimbKeepPhase(r, s.recoveryCooldown != 0, interval, safePath);
      } else {
        RecoverProgressesWhenReady(cooled, r, interval, safePath);
      }
    }
  }

  /** The case with no cooldown and no news about a collapse: the probe or the wait runs down. */
  lemma RecoverProgressesWhenReady(s: Controller, r: Controller, interval: U64, safePath: U64)
    requires Valid(s) && Valid(r) && interval > 0 && s.target < s.maximum <= safePath
    requires r == s.(returnWait := r.returnWait)
    ensures var (t, validated) := r.AdvanceProbe(interval);
      Progresses(s, t.Climb(validated, false, interval, safePath))
  {
    hide Controller.ClimbNearCeiling, Controller.ClimbBelowCeiling;
    var (t, validated) := r.AdvanceProbe(interval);
    AdvanceProbeSound(r, interval);
    ClimbRises(t, validated, false, interval, safePath);
    ClimbUntouched(t, validated, false, interval, safePath);
    if s.activeProbe.Some? {
      ProbeRunsDown(r, interval);
    } else if s.NearSoftCeiling() {
      ClimbNearCeilingProgresses(t, interval, safePath);
    } else {
      ClimbBelowCeilingProgresses(t, safePath);
    }
  }

  ghost function Ready(s: Controller, r: Report): Controller {
    s.Account(r.delivery).Observed(r.path, s.previousDelivery, r.delivery).(degradedReports := 0)
  }

  /** Measuring leaves the climb alone, save that a target held long enough becomes the best one held. */
  lemma ReadyFields(s: Controller, r: Report)
    ensures var t := Ready(s, r);
      && t.target == s.target && t.maximum == s.maximum && t.recoveryCooldown == s.recoveryCooldown
      && t.activeProbe == s.activeProbe && t.returningTo == s.returningTo && t.latencyCeiling == s.latencyCeiling
      && t.provisionalCeiling == s.provisionalCeiling && t.failedProbeTargets == s.failedProbeTargets
      && t.probeInterval == s.probeInterval && t.healthyReports == s.healthyReports
      && t.softCeilingHealthy == s.softCeilingHealthy
      && t.senderPressureEvents == 0 && t.mediaDelayMeasured == s.mediaDelayMeasured
      && (t.healthyBest == s.healthyBest || t.healthyBest == Some(MaxOption(s.healthyBest, s.target)))
  {
  }

  lemma ReadyValid(s: Controller, r: Report)
    requires Valid(s)
    ensures Valid(Ready(s, r))
  {
    AccountSound(s, r.delivery);
    ObservedSound(s.Account(r.delivery), r.path, s.previousDelivery, r.delivery);
    hide Controller.Account, Controller.Observed;
  }

  lemma ReadyIsAsFar(s: Controller, r: Report)
    requires Valid(s)
    ensures var t := Ready(s, r);
      && Valid(t) && t.target == s.target && t.maximum == s.maximum && t.recoveryCooldown == s.recoveryCooldown
      && Phase(t) == Phase(s) && ProbeLeft(t) == ProbeLeft(s) && WaitLeft(t) == WaitLeft(s)
      && t.senderPressureEvents == 0 && t.mediaDelayMeasured == s.mediaDelayMeasured
      && t.latencyCeiling == s.latencyCeiling && t.returningTo == s.returningTo
  {
    ReadyValid(s, r);
    ReadyFields(s, r);
    PercentageMonotone(s.target, 50);
    hide Ready, Valid;
  }

  lemma ReadyKeepsLimits(s: Controller, r: Report)
    ensures var t := Ready(s, r);
      && t.RecoveryCeiling() == s.RecoveryCeiling() && (t.NearSoftCeiling() <==> s.NearSoftCeiling())
      && t.healthyReports == s.healthyReports
  {
  }

  lemma CleanReportRecovers(s: Controller, r: Report)
    requires Valid(s) && s.senderPressureEvents == 0 && CleanReport(s, r)
    ensures s.Observe(r.path, r.delivery, true) == Ready(s, r).Recover(r.delivery.intervalMicros, s.SafePath(r.path))
  {
    var a := s.Account(r.delivery);
    var g := a.SignalsOf(r.path, s.previousDelivery, r.delivery, true);
    assert !g.severeLoss && g.safePath == s.SafePath(r.path);
    PercentageMonotone(s.target, 75);
    var t := a.Observed(r.path, s.previousDelivery, r.delivery);
    assert t.rttPressureStreak == 0 || t.mediaDelayMeasured;
  }

  lemma RecoverKeepsTheRest(s: Controller, interval: U64, safePath: U64)
    requires Valid(s) && s.target <= safePath
    ensures s.Recover(interval, safePath).state.senderPressureEvents == s.senderPressureEvents
    ensures s.Recover(interval, safePath).state.mediaDelayMeasured == s.mediaDelayMeasured
    ensures LatencyLimitKept(s, s.Recover(interval, safePath).state)
  {
    var cooled := s.(recoveryCooldown := SubU64(s.recoveryCooldown, interval));
    if cooled.recoveryCooldown == 0 {
      UpdateReturnSound(cooled, interval);
      ReturnMovesOn(cooled, interval);
      AdvanceAndClimbKeepPhase(cooled.UpdateReturnAfterCollapse(interval), s.recoveryCooldown != 0, interval, safePath);
    }
  }

  /** A clean report never lowers the target, keeps it at the maximum once there, and otherwise makes progress. */
  lemma CleanReportProgresses(s: Controller, r: Report)
    requires Valid(s) && s.senderPressureEvents == 0 && CleanReport(s, r)
    ensures var o := s.Observe(r.path, r.delivery, true);
      && Valid(o.state) && o.state.maximum == s.maximum && o.state.senderPressureEvents == 0
      && LatencyLimitKept(s, o.state)
      && (s.target == s.maximum ==> o.state.target == s.maximum)
      && (s.target < s.maximum ==> Progresses(s, o))
  {
    CleanReportRecovers(s, r);
    ReadyIsAsFar(s, r);
    var t := Ready(s, r);
    RecoverRises(t, r.delivery.intervalMicros, s.SafePath(r.path));
    RecoverKeepsTheRest(t, r.delivery.intervalMicros, s.SafePath(r.path));
    if s.target < s.maximum {
      RecoverProgresses(t, r.delivery.intervalMicros, s.SafePath(r.path));
    }
  }

  // Endless runs of clean reports

  ghost predicate Unpressed(s: Controller) {
    Valid(s) && s.senderPressureEvents == 0
  }

  ghost predicate CleanStep(s: Controller, r: Report, t: Controller) {
    CleanReport(s, r) && t == s.Observe(r.path, r.delivery, true).state
  }

  lemma CleanStepCloses(s: Controller, r: Report, t: Controller)
    requires Unpressed(s) && CleanStep(s, r, t)
    ensures Unpressed(t) && t.maximum == s.maximum && s.target <= t.target
    ensures Closing(DistanceLeft(s, 0), DistanceLeft(t, 0))
  {
    hide Controller.Observe, CleanReport;
    CleanReportProgresses(s, r);
  }

  lemma {:induction false} CleanRunNeverFalls(run: nat -> Controller, reports: nat -> Report, n: nat)
    requires Unpressed(run(0)) && forall i: nat :: CleanStep(run(i), reports(i), run(i + 1))
    ensures Unpressed(run(n)) && run(n).maximum == run(0).maximum
    ensures run(n).target <= run(n + 1).target
  {
    hide Unpressed, CleanStep;
    if n > 0 {
      CleanRunNeverFalls(run, reports, n - 1);
      CleanStepCloses(run(n - 1), reports(n - 1), run(n - 1 + 1));
    }
    CleanStepCloses(run(n), reports(n), run(n + 1));
  }

  lemma CleanRunCloses(run: nat -> Controller, reports: nat -> Report, n: nat)
    requires Unpressed(run(0)) && forall i: nat :: CleanStep(run(i), reports(i), run(i + 1))
    ensures Unpressed(run(n)) && Unpressed(run(n + 1)) && run(n).maximum == run(0).maximum
    ensures Closing(DistanceLeft(run(n), 0), DistanceLeft(run(n + 1), 0))
  {
    hide CleanStep, Unpressed;
    CleanRunNeverFalls(run, reports, n);
    CleanStepCloses(run(n), reports(n), run(n + 1));
  }

  /** From every valid state with no sender pressure pending, clean reports lead to the maximum for good. */
  lemma CleanRunConverges(run: nat -> Controller, reports: nat -> Report) returns (settled: nat)
    requires Unpressed(run(0)) && forall i: nat :: CleanStep(run(i), reports(i), run(i + 1))
    ensures forall n: nat :: run(n).target <= run(n + 1).target
    ensures forall n: nat :: settled <= n ==> run(n).target == run(0).maximum
  {
    forall n: nat
      ensures Unpressed(run(n)) && run(n).maximum == run(0).maximum && run(n).target <= run(n + 1).target
    {
      CleanRunNeverFalls(run, reports, n);
    }
    var d := (n: nat) => if TargetInRange(run(n)) then DistanceLeft(run(n), 0) else Distance(0, 0, 0, 0, 0, 0);
    forall n: nat
      ensures Closing(d(n), d(n + 1))
    {
      CleanRunCloses(run, reports, n);
    }
    settled := GapCloses(d, 0);
    forall n: nat | settled <= n
      ensures run(n).target == run(0).maximum
    {
      GapStaysClosed(d, settled, n);
    }
  }
}
