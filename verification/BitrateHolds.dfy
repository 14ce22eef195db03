/** What a bitrate that held for a minute is spared when it is cut, and what it is not. */
module BitrateHolds {
  import opened Numbers
  import opened BitrateModel
  import opened BitrateInvariants
  import opened BitrateConvergence
  import opened BitratePauses

  /** A limit fell, or there is one where there was none. */
  ghost predicate Lowered(before: Option<U64>, after: Option<U64>) {
    after.Some? && (before.None? || after.value < before.value)
  }

  ghost predicate SameLimits(s: Controller, t: Controller) {
    && t.failedProbeTargets == s.failedProbeTargets
    && t.provisionalCeiling == s.provisionalCeiling
    && t.latencyCeiling == s.latencyCeiling
    && t.probeInterval == s.probeInterval && t.probeStep == s.probeStep
  }

  /** Counting the target as failed would lower the delivery limit: by itself while there are fewer than five failures
      on record, and otherwise through their average. */
  predicate FailureWouldLower(s: Controller) {
    var failed := s.failedProbeTargets;
    if |failed| == FAILED_PROBE_SAMPLES then (Sum(failed) - failed[0] + s.target) / 5 < Sum(failed) / 5
    else if s.provisionalCeiling.None? then true
    else if |failed| == FAILED_PROBE_SAMPLES - 1 then (Sum(failed) + s.target) / 5 < s.provisionalCeiling.value
    else s.target < s.provisionalCeiling.value
  }

  lemma {:induction false} SumAppends(xs: seq<U64>, x: U64)
    ensures Sum(xs + [x]) == Sum(xs) + x
  {
    if xs == [] {
      assert xs + [x] == [x] && [x][1..] == [];
    } else {
      assert (xs + [x])[1..] == xs[1..] + [x];
      SumAppends(xs[1..], x);
    }
  }

  lemma {:induction false} SumAtMost(xs: seq<U64>, high: U64)
    requires forall i :: 0 <= i < |xs| ==> xs[i] <= high
    ensures Sum(xs) <= |xs| * high
  {
    if xs != [] {
      SumAtMost(xs[1..], high);
      assert |xs| * high == (|xs| - 1) * high + high;
    }
  }

  lemma CeilingIsAverage(s: Controller)
    requires MemoryBounded(s) && |s.failedProbeTargets| == FAILED_PROBE_SAMPLES
    ensures s.DeliveryCeiling() == Some(Sum(s.failedProbeTargets) / 5)
  {
    SumAtMost(s.failedProbeTargets, s.maximum);
  }

  /** Counting the target as failed lowers the delivery limit exactly then. */
  lemma CountFailureLowersIff(s: Controller)
    requires Sound(s)
    ensures Lowered(s.DeliveryCeiling(), s.CountFailure(s.target).DeliveryCeiling()) <==> FailureWouldLower(s)
  {
    var t := s.CountFailure(s.target);
    var failed := s.failedProbeTargets;
    SumAppends(failed, s.target);
    if |failed| == FAILED_PROBE_SAMPLES {
      SumAppends(failed[1..], s.target);
      CeilingIsAverage(s);
      CeilingIsAverage(t);
    } else if |failed| == FAILED_PROBE_SAMPLES - 1 {
      CeilingIsAverage(t);
    }
  }

  lemma SetTargetKeepsLimits(s: Controller, bits: U64, cause: Cause)
    ensures var o := s.SetTarget(bits, Congestion, cause);
      && SameLimits(s, o.state)
      && (o.change.Some? ==> o.state.recoveryCooldown == RECOVERY_COOLDOWN)
  {
  }

  lemma RollbackKeepsLimits(s: Controller, bits: U64, cause: Cause)
    requires s.HoldIsProven()
    ensures var o := s.RollbackFailedProbe(bits, cause);
      && SameLimits(s, o.state)
      && (o.change.Some? ==> o.state.recoveryCooldown == RECOVERY_COOLDOWN)
  {
    SetTargetKeepsLimits(s, bits, cause);
  }

  lemma FailureFromHold(s: Controller)
    requires Valid(s) && s.HoldIsProven()
    ensures var (t, rollback) := s.RecordProbeFailure();
      && t.HoldIsProven()
      && if s.activeProbe.Some? then t.DeliveryCeiling() == s.CountFailure(s.target).DeliveryCeiling() else t == s
  {
  }

  lemma SameLimitsSameCeiling(s: Controller, t: Controller)
    requires SameLimits(s, t)
    ensures t.DeliveryCeiling() == s.DeliveryCeiling()
  {
  }

  /** What a fallback from a proven hold does: the wait is the ordinary one, and the delivery limit falls exactly when a
      probe is still open and the target counted as failed would lower it. */
  ghost predicate HoldFellBack(s: Controller, o: Outcome) {
    && (Lowered(s.DeliveryCeiling(), o.state.DeliveryCeiling()) <==> s.activeProbe.Some? && FailureWouldLower(s))
    && (s.activeProbe.None? ==> SameLimits(s, o.state))
    && (o.change.Some? ==> o.state.recoveryCooldown == RECOVERY_COOLDOWN)
  }

  lemma FallBackFromHold(s: Controller, percent: nat, rollBack: bool, cause: Cause)
    requires Valid(s) && s.HoldIsProven()
    ensures HoldFellBack(s, s.FallBack(percent, rollBack, cause))
  {
    var (t, rollback) := s.RecordProbeFailure();
    var o := s.FallBack(percent, rollBack, cause);
    FailureFromHold(s);
    CountFailureLowersIff(s);
    if rollBack && rollback.Some? {
      RollbackKeepsLimits(t, rollback.value, cause);
    } else {
      SetTargetKeepsLimits(t, Percentage(s.target, percent), cause);
    }
    SameLimitsSameCeiling(t, o.state);
  }

  // Which reports cut

  /** The signals on which the controller falls back. */
  predicate FallsBack(s: Controller, g: Signals) {
    if g.severeLoss || g.safePath < Percentage(s.target, 75) then true
    else if g.receiverLoss || g.safePath < s.target then s.degradedReports >= 1
    else if s.rttPressureStreak != 0 && !s.mediaDelayMeasured then s.rttPressureStreak >= 2
    else g.senderEvents != 0 && !g.severeSender && s.senderCongestedStreak >= 2
  }

  /** The state from which it then falls back: what counts towards other answers is set back. */
  ghost function BeforeFallBack(s: Controller, g: Signals): Controller {
    var r := s.ResetRecoveryWait().(degradedReports := 0);
    if g.severeLoss || g.safePath < Percentage(s.target, 75) || g.receiverLoss || g.safePath < s.target then r
    else if s.rttPressureStreak != 0 && !s.mediaDelayMeasured then r.(rttPressureStreak := 0)
    else r
  }

  /** By how much, whether to the failed probe's predecessor, and why. */
  ghost function FallBackTerms(s: Controller, g: Signals): (terms: (nat, bool, Cause))
    ensures terms.0 <= 90
  {
    if g.severeLoss then (75, true, SevereReceiverLoss)
    else if g.safePath < Percentage(s.target, 75) then (75, false, SeverePathPressure)
    else if g.receiverLoss || g.safePath < s.target then (90, true, MildDegradation)
    else if s.rttPressureStreak != 0 && !s.mediaDelayMeasured then (90, true, MildDegradation)
    else (90, false, SenderCongestion)
  }

  /** On those signals it falls back, and on no others does it cut. */
  lemma RespondFallsBackIff(s: Controller, g: Signals)
    requires Valid(s)
    ensures FallsBack(s, g) ==>
      var (percent, rollBack, cause) := FallBackTerms(s, g);
      s.Respond(g) == BeforeFallBack(s, g).FallBack(percent, rollBack, cause)
    ensures !FallsBack(s, g) ==> s.Respond(g).change.Some? ==> s.Respond(g).change.value.reason == HealthyDelivery
  {
    if !FallsBack(s, g) && !g.severeLoss && g.safePath >= Percentage(s.target, 75) && !g.receiverLoss
      && g.safePath >= s.target {
      if (s.rttPressureStreak == 0 || s.mediaDelayMeasured) && g.senderEvents == 0 && g.allowIncrease {
        RecoverRises(s.(degradedReports := 0), g.interval, g.safePath);
      }
    }
  }

  lemma LessByPercentage(value: U64, percent: nat)
    requires percent < 100 && value > 0
    ensures Percentage(value, percent) < value
  {
    assert value * percent < value * 100;
  }

  lemma RollbackIsLower(s: Controller)
    requires Valid(s)
    ensures var (t, rollback) := s.RecordProbeFailure();
      t.target == s.target && t.maximum == s.maximum && (rollback.Some? ==> rollback.value < s.target)
  {
    hide Percentage, Controller.NearSoftCeiling;
    LessByPercentage(s.target, SOFT_CEILING_RANGE_PERCENT);
  }

  /** A fallback moves the target unless it is at the bootstrap already. */
  lemma FallBackCutsIff(s: Controller, percent: nat, rollBack: bool, cause: Cause)
    requires Valid(s) && percent <= 90
    ensures s.FallBack(percent, rollBack, cause).change.Some? <==> s.target > BOOTSTRAP
  {
    assert TargetInRange(s);
    LessByPercentage(s.target, percent);
    RollbackIsLower(s);
    hide Controller.RecordProbeFailure, Controller.AbandonReturn, Percentage, Valid;
  }

  /** The signals of a report, and the measured state that answers them. */
  ghost function Measured(s: Controller, path: Path, d: Delivery): Controller {
    s.Account(d).Observed(path, s.previousDelivery, d)
  }

  ghost predicate ReportFallsBack(s: Controller, path: Path, d: Delivery, allowIncrease: bool) {
    d.intervalMicros > 0
    && FallsBack(Measured(s, path, d), s.Account(d).SignalsOf(path, s.previousDelivery, d, allowIncrease))
  }

  lemma MeasuredIsSame(s: Controller, path: Path, d: Delivery)
    requires Valid(s)
    ensures var t := Measured(s, path, d);
      && Valid(t) && t.target == s.target && t.activeProbe == s.activeProbe && SameLimits(s, t)
      && t.targetHeld == AddU64(s.targetHeld, d.intervalMicros)
  {
    AccountSound(s, d);
    ObservedSound(s.Account(d), path, s.previousDelivery, d);
  }

  lemma BeforeFallBackIsSame(s: Controller, g: Signals)
    requires Valid(s)
    ensures var t := BeforeFallBack(s, g);
      && Valid(t) && t.target == s.target && t.activeProbe == s.activeProbe && SameLimits(s, t)
      && t.targetHeld == s.targetHeld
  {
  }

  lemma ObserveResponds(s: Controller, path: Path, d: Delivery, allowIncrease: bool)
    requires d.intervalMicros > 0
    ensures s.Observe(path, d, allowIncrease) ==
      Measured(s, path, d).Respond(s.Account(d).SignalsOf(path, s.previousDelivery, d, allowIncrease))
  {
  }

  lemma SameLimitsSameGuard(s: Controller, t: Controller)
    requires SameLimits(s, t) && t.target == s.target
    ensures FailureWouldLower(t) <==> FailureWouldLower(s)
  {
  }

  /** A report cuts exactly when its signals make the controller fall back from a target above the bootstrap. */
  lemma ReportCutsIff(s: Controller, path: Path, d: Delivery, allowIncrease: bool)
    requires Valid(s)
    ensures var change := s.Observe(path, d, allowIncrease).change;
      change.Some? && change.value.reason == Congestion <==>
        ReportFallsBack(s, path, d, allowIncrease) && s.target > BOOTSTRAP
  {
    hide Controller.Observed, Controller.Account, Controller.SignalsOf, Controller.Respond, Controller.FallBack;
    hide FallsBack, BeforeFallBack, FallBackTerms;
    if d.intervalMicros > 0 {
      var t := Measured(s, path, d);
      var g := s.Account(d).SignalsOf(path, s.previousDelivery, d, allowIncrease);
      MeasuredIsSame(s, path, d);
      ObserveResponds(s, path, d, allowIncrease);
      RespondFallsBackIff(t, g);
      BeforeFallBackIsSame(t, g);
      if FallsBack(t, g) {
        var (percent, rollBack, cause) := FallBackTerms(t, g);
        FallBackCutsIff(BeforeFallBack(t, g), percent, rollBack, cause);
        FallBackSound(BeforeFallBack(t, g), percent, rollBack, cause);
      }
    }
  }

  /** A report that answers a bitrate held for a minute by falling back lowers the delivery limit exactly when a probe
      is still open on it and counting it as failed would lower that limit, and then waits no longer than usual. */
  lemma HeldReportLowersLimitIff(s: Controller, path: Path, d: Delivery, allowIncrease: bool)
    requires Valid(s) && AddU64(s.targetHeld, d.intervalMicros) >= PROVEN_HOLD
    requires ReportFallsBack(s, path, d, allowIncrease)
    ensures HoldFellBack(s, s.Observe(path, d, allowIncrease))
  {
    hide Controller.Observe, Controller.Observed, Controller.Account, Controller.SignalsOf, Controller.Respond;
    hide Controller.FallBack, Controller.DeliveryCeiling, FallsBack, BeforeFallBack, FallBackTerms, FailureWouldLower;
    var t := Measured(s, path, d);
    var g := s.Account(d).SignalsOf(path, s.previousDelivery, d, allowIncrease);
    MeasuredIsSame(s, path, d);
    ObserveResponds(s, path, d, allowIncrease);
    RespondFallsBackIff(t, g);
    BeforeFallBackIsSame(t, g);
    var b := BeforeFallBack(t, g);
    var (percent, rollBack, cause) := FallBackTerms(t, g);
    FallBackFromHold(b, percent, rollBack, cause);
    SameLimitsSameCeiling(s, b);
    SameLimitsSameGuard(s, b);
  }

  // A hold with its probe open

  ghost function TotalMicros(reports: seq<Report>): nat {
    if reports == [] then 0 else TotalMicros(reports[..|reports| - 1]) + reports[|reports| - 1].delivery.intervalMicros
  }

  /** The reports in order, none of which allows an increase. */
  ghost function AfterPaused(s: Controller, reports: seq<Report>): Controller {
    if reports == [] then s
    else
      var r := reports[|reports| - 1];
      AfterPaused(s, reports[..|reports| - 1]).Observe(r.path, r.delivery, false).state
  }

  ghost predicate AllClean(s: Controller, reports: seq<Report>) {
    reports == []
    || (AllClean(s, reports[..|reports| - 1])
        && CleanReport(AfterPaused(s, reports[..|reports| - 1]), reports[|reports| - 1]))
  }

  lemma PausedReportKeepsProbe(s: Controller, r: Report)
    requires Unpressed(s) && CleanReport(s, r)
    ensures var t := s.Observe(r.path, r.delivery, false).state;
      && Unpressed(t) && t.target == s.target && t.activeProbe == s.activeProbe && SameLimits(s, t)
      && t.targetHeld == AddU64(s.targetHeld, r.delivery.intervalMicros)
  {
    hide Controller.Observe, CleanReport;
    PausedReportOnlyMeasures(s, r);
    ReadyIsAsFar(s, r);
  }

  /** While increases are forbidden, clean reports of any lengths add up to a hold and leave an open probe open. */
  lemma {:induction false} PausedRunKeepsProbe(s: Controller, reports: seq<Report>)
    requires Unpressed(s) && AllClean(s, reports)
    ensures var t := AfterPaused(s, reports);
      && Unpressed(t) && t.target == s.target && t.activeProbe == s.activeProbe && SameLimits(s, t)
      && t.targetHeld == ToU64(s.targetHeld + TotalMicros(reports))
  {
    hide Controller.Observe, CleanReport, Valid;
    if reports != [] {
      var init := reports[..|reports| - 1];
      PausedRunKeepsProbe(s, init);
      PausedReportKeepsProbe(AfterPaused(s, init), reports[|reports| - 1]);
    }
  }
}
