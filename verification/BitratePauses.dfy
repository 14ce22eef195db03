/** What a report on which increases are forbidden does to the climb, and what it clears. */
module BitratePauses {
  import opened Numbers
  import opened BitrateModel
  import opened BitrateInvariants
  import opened BitrateConvergence
  import opened Descent

  /** Nothing that decides over the next rise moved, save the wait. */
  ghost predicate SameStage(s: Controller, t: Controller) {
    t.target == s.target && t.recoveryCooldown == s.recoveryCooldown && Phase(t) == Phase(s)
      && ProbeLeft(t) == ProbeLeft(s)
  }

  /** The wait for the next rise moved on: time near a limit, healthy reports below it. */
  ghost predicate WaitMoved(s: Controller, t: Controller) {
    && (t.NearSoftCeiling() <==> s.NearSoftCeiling())
    && if s.NearSoftCeiling() then WaitLeft(t) < WaitLeft(s)
       else t.healthyReports == s.healthyReports + 1 < HEALTHY_REPORTS_BEFORE_RECOVERY
  }

  lemma WaitKeepsCeiling(s: Controller, reports: U8, held: U64)
    ensures var t := s.(healthyReports := reports, softCeilingHealthy := held);
      && (t.NearSoftCeiling() <==> s.NearSoftCeiling())
      && t.OrdinaryRecoveryTarget() == s.OrdinaryRecoveryTarget() && t.CautiousTarget() == s.CautiousTarget()
  {
    hide Percentage, Sum;
  }

  lemma NearMovesWait(s: Controller, interval: U64, safePath: U64)
    requires Sound(s) && s.target < s.maximum <= safePath && interval > 0 && s.NearSoftCeiling()
    ensures var t := s.ClimbNearCeiling(interval, safePath).state; t.target > s.target || WaitMoved(s, t)
  {
    hide Controller.NearSoftCeiling, Controller.OrdinaryRecoveryTarget, Controller.SetRecoveryTarget;
    WaitKeepsCeiling(s, 0, AddU64(s.softCeilingHealthy, interval));
    WaitKeepsCeiling(s, 0, 0);
    RecoveryTargetsRise(s);
    SetRecoveryTargetRaises(s.(healthyReports := 0, softCeilingHealthy := 0), s.CautiousTarget(), safePath);
  }

  lemma BelowMovesWait(s: Controller, safePath: U64)
    requires Sound(s) && s.target < s.maximum <= safePath && !s.NearSoftCeiling()
    ensures var t := s.ClimbBelowCeiling(safePath).state; t.target > s.target || WaitMoved(s, t)
  {
    hide Controller.NearSoftCeiling, Controller.OrdinaryRecoveryTarget, Controller.SetRecoveryTarget;
    WaitKeepsCeiling(s, IncrementU8(s.healthyReports), 0);
    WaitKeepsCeiling(s, 0, 0);
    RecoveryTargetsRise(s);
    SetRecoveryTargetRaises(s.(healthyReports := 0, softCeilingHealthy := 0), s.OrdinaryRecoveryTarget(), safePath);
  }

  lemma ClimbMovesWait(s: Controller, interval: U64, safePath: U64, t: Controller)
    requires Sound(s) && s.target < s.maximum <= safePath && interval > 0 && s.activeProbe.None?
    requires t == s.Climb(false, false, interval, safePath).state && t.target == s.target
    ensures WaitMoved(s, t)
  {
    hide WaitMoved, Controller.NearSoftCeiling, Controller.ClimbNearCeiling, Controller.ClimbBelowCeiling;
    if s.NearSoftCeiling() {
      NearMovesWait(s, interval, safePath);
    } else {
      BelowMovesWait(s, safePath);
    }
  }

  lemma CooldownRunsDown(s: Controller, interval: U64, safePath: U64)
    requires Valid(s) && interval > 0 && s.target <= safePath && s.recoveryCooldown > 0
    ensures s.Recover(interval, safePath).state.recoveryCooldown < s.recoveryCooldown
  {
    hide Controller.Climb, Controller.AdvanceProbe, Controller.UpdateReturnAfterCollapse;
    var cooled := s.(recoveryCooldown := SubU64(s.recoveryCooldown, interval));
    if cooled.recoveryCooldown == 0 {
      UpdateReturnSound(cooled, interval);
      ReturnMovesOn(cooled, interval);
      AdvanceAndClimbKeepPhase(cooled.UpdateReturnAfterCollapse(interval), true, interval, safePath);
    }
  }

  lemma ReturnMovesWait(r: Controller, interval: U64, safePath: U64, t: Controller)
    requires Valid(r) && interval > 0 && r.target < r.maximum <= safePath
    requires var (a, validated) := r.AdvanceProbe(interval); t == a.Climb(validated, false, interval, safePath).state
    requires t.target == r.target && ProbeLeft(t) == ProbeLeft(r)
    ensures Phase(t) == Phase(r) && WaitMoved(r, t)
  {
    hide Controller.Climb, Phase, WaitMoved, Closer;
    AdvanceAndClimbKeepPhase(r, false, interval, safePath);
    if r.activeProbe.Some? {
      OpenProbeRunsDown(r, interval, safePath, t);
    } else {
      ClimbMovesWait(r, interval, safePath, t);
    }
  }

  lemma OpenProbeRunsDown(r: Controller, interval: U64, safePath: U64, t: Controller)
    requires Valid(r) && interval > 0 && r.activeProbe.Some?
    requires var (a, validated) := r.AdvanceProbe(interval); t == a.Climb(validated, false, interval, safePath).state
    requires t.target == r.target
    ensures ProbeLeft(t) < ProbeLeft(r)
  {
    hide Controller.Climb, Valid;
    var (a, validated) := r.AdvanceProbe(interval);
    ProbeKeepsTarget(r, interval);
    ProbeRunsDown(r, interval);
    ClimbUntouched(a, validated, false, interval, safePath);
  }

  lemma RecoverMovesWait(s: Controller, interval: U64, safePath: U64, t: Controller)
    requires Valid(s) && interval > 0 && s.target < s.maximum <= safePath
    requires t == s.Recover(interval, safePath).state && SameStage(s, t)
    ensures WaitMoved(s, t)
  {
    hide Controller.Climb, Controller.AdvanceProbe, Controller.UpdateReturnAfterCollapse;
    assert s.recoveryCooldown == 0 by {
      if s.recoveryCooldown > 0 {
        CooldownRunsDown(s, interval, safePath);
      }
    }
    assert s.(recoveryCooldown := 0) == s;
    var r := s.UpdateReturnAfterCollapse(interval);
    UpdateReturnSound(s, interval);
    ReturnMovesOn(s, interval);
    ReturnMovesWait(r, interval, safePath, t);
  }

  /** A clean report that leaves every stage of the climb where it was has moved the wait on. */
  lemma CleanReportMovesWait(s: Controller, r: Report)
    requires Unpressed(s) && CleanReport(s, r) && s.target < s.maximum
    requires SameStage(s, s.Observe(r.path, r.delivery, true).state)
    ensures WaitMoved(s, s.Observe(r.path, r.delivery, true).state)
  {
    CleanReportRecovers(s, r);
    ReadyIsAsFar(s, r);
    ReadyKeepsLimits(s, r);
    var t := Ready(s, r);
    RecoverMovesWait(t, r.delivery.intervalMicros, s.SafePath(r.path), s.Observe(r.path, r.delivery, true).state);
  }

  /** While increases are forbidden, a clean report only measures, and sets the healthy reports back to none. */
  lemma PausedReportOnlyMeasures(s: Controller, r: Report)
    requires Unpressed(s) && CleanReport(s, r)
    ensures s.Observe(r.path, r.delivery, false) == Outcome(Ready(s, r).(healthyReports := 0), None)
  {
    var a := s.Account(r.delivery);
    var g := a.SignalsOf(r.path, s.previousDelivery, r.delivery, false);
    assert !g.severeLoss && g.safePath == s.SafePath(r.path);
    PercentageMonotone(s.target, 75);
    var t := a.Observed(r.path, s.previousDelivery, r.delivery);
    assert t.rttPressureStreak == 0 || t.mediaDelayMeasured;
  }

  /** It keeps every stage of the climb, and the wait near a limit. */
  lemma PausedReportKeepsStage(s: Controller, r: Report)
    requires Unpressed(s) && CleanReport(s, r)
    ensures var t := s.Observe(r.path, r.delivery, false).state;
      && Unpressed(t) && t.maximum == s.maximum && SameStage(s, t) && t.healthyReports == 0
      && (t.NearSoftCeiling() <==> s.NearSoftCeiling()) && (s.NearSoftCeiling() ==> WaitLeft(t) == WaitLeft(s))
      && t.latencyCeiling == s.latencyCeiling && t.returningTo == s.returningTo
  {
    PausedReportOnlyMeasures(s, r);
    ReadyIsAsFar(s, r);
    ReadyKeepsLimits(s, r);
    ClearedKeepsStage(Ready(s, r));
  }

  lemma ClearedKeepsStage(s: Controller)
    requires Unpressed(s)
    ensures var t := s.(healthyReports := 0);
      && Unpressed(t) && SameStage(s, t) && (t.NearSoftCeiling() <==> s.NearSoftCeiling())
      && (s.NearSoftCeiling() ==> WaitLeft(t) == WaitLeft(s))
  {
  }

  /** A rise leaves nothing counted, so the pauses while it settles lose nothing. */
  lemma RiseCountsFromNone(s: Controller, r: Report)
    requires Unpressed(s) && CleanReport(s, r) && s.Observe(r.path, r.delivery, true).state.target > s.target
    ensures s.Observe(r.path, r.delivery, true).state.healthyReports == 0
  {
    CleanReportRecovers(s, r);
    var t := Ready(s, r);
    assert t.target == s.target;
    RecoverCountsFromNone(t, r.delivery.intervalMicros, s.SafePath(r.path));
  }

  lemma RecoverCountsFromNone(s: Controller, interval: U64, safePath: U64)
    requires s.Recover(interval, safePath).state.target != s.target
    ensures s.Recover(interval, safePath).state.healthyReports == 0
  {
    var r := s.(recoveryCooldown := SubU64(s.recoveryCooldown, interval)).UpdateReturnAfterCollapse(interval);
    var (t, validated) := r.AdvanceProbe(interval);
    hide Controller.Climb, Controller.AdvanceProbe, Controller.UpdateReturnAfterCollapse;
    ReturnKeepsTarget(s.(recoveryCooldown := SubU64(s.recoveryCooldown, interval)), interval);
    ProbeKeepsTarget(r, interval);
    ClimbCountsFromNone(t, validated, s.recoveryCooldown != 0, interval, safePath);
  }

  lemma ReturnKeepsTarget(s: Controller, interval: U64)
    ensures s.UpdateReturnAfterCollapse(interval).target == s.target
  {
  }

  lemma ProbeKeepsTarget(s: Controller, interval: U64)
    ensures s.AdvanceProbe(interval).0.target == s.target
  {
  }

  lemma ClimbCountsFromNone(s: Controller, validated: bool, cooledDown: bool, interval: U64, safePath: U64)
    requires s.Climb(validated, cooledDown, interval, safePath).state.target != s.target
    ensures s.Climb(validated, cooledDown, interval, safePath).state.healthyReports == 0
  {
    hide Controller.SetRecoveryTarget, Controller.OrdinaryRecoveryTarget, Controller.CautiousTarget,
      Controller.ForgetPassedCeiling, Controller.SpeedUpAtLimit;
    TargetKeepsCount(s.ResetRecoveryWait());
    TargetKeepsCount(s.ForgetPassedCeiling().SpeedUpAtLimit().ResetRecoveryWait());
    ProbeMomentumKeepsTarget(s);
  }

  lemma TargetKeepsCount(s: Controller)
    ensures forall goal: U64 :: s.SetRecoveryTarget(goal).state.healthyReports == s.healthyReports
  {
  }

  lemma ProbeMomentumKeepsTarget(s: Controller)
    ensures s.ForgetPassedCeiling().SpeedUpAtLimit().target == s.target
  {
  }

  /** So a pause keeps the wait exactly near a limit, or when there was nothing to clear. */
  lemma PauseKeepsWaitIff(s: Controller, r: Report)
    requires Unpressed(s) && CleanReport(s, r)
    ensures WaitLeft(s.Observe(r.path, r.delivery, false).state) == WaitLeft(s) <==>
      s.NearSoftCeiling() || s.healthyReports == 0
  {
    PausedReportKeepsStage(s, r);
  }

  // What never grows, whether a clean report allows an increase or not

  /** What must run down before the next rise, leaving out the healthy reports in a row, which a pause clears. */
  ghost function Stage(s: Controller): Distance {
    Distance(0, 0, s.recoveryCooldown, Phase(s), ProbeLeft(s), if s.NearSoftCeiling() then WaitLeft(s) else 0)
  }

  /** The target rose, or the stage is as it was or nearer its end; a report that allowed an increase and moved neither
      has counted. */
  ghost predicate StageSettles(s: Controller, t: Controller, allowIncrease: bool) {
    || t.target > s.target
    || (&& t.target == s.target
        && (Stage(t) == Stage(s) || Shorter(Stage(t), Stage(s)))
        && (Stage(t) == Stage(s) && allowIncrease ==>
            t.healthyReports == s.healthyReports + 1 < HEALTHY_REPORTS_BEFORE_RECOVERY))
  }

  lemma ProgressSettles(s: Controller, t: Controller)
    requires t.target > s.target || (t.target == s.target && Closer(t, s))
    requires SameStage(s, t) ==> WaitMoved(s, t)
    ensures StageSettles(s, t, true)
  {
  }

  /** A clean report, allowing an increase or not, never lowers the target and never lets the climb grow longer. */
  lemma CleanReportSettles(s: Controller, r: Report, allowIncrease: bool)
    requires Unpressed(s) && CleanReport(s, r)
    ensures var o := s.Observe(r.path, r.delivery, allowIncrease);
      && Unpressed(o.state) && o.state.maximum == s.maximum && LatencyLimitKept(s, o.state)
      && s.target <= o.state.target && (o.change.Some? <==> o.state.target != s.target)
      && (s.target < s.maximum ==> StageSettles(s, o.state, allowIncrease))
  {
    assert s.target <= s.maximum;
    hide Controller.Observe, Controller.NearSoftCeiling, Valid, WaitMoved, CleanReport, WaitLeft, ProbeLeft, Phase;
    ObserveMovesOneWay(s, r.path, r.delivery, allowIncrease);
    var o := s.Observe(r.path, r.delivery, allowIncrease);
    if allowIncrease {
      CleanReportProgresses(s, r);
      if s.target < s.maximum {
        if SameStage(s, o.state) {
          CleanReportMovesWait(s, r);
        }
        ProgressSettles(s, o.state);
      }
    } else {
      PausedReportKeepsStage(s, r);
    }
  }

  // Pauses that recur too often

  /** Below every limit and with nothing else to wait for, only healthy reports in a row are missing. */
  ghost predicate CountingReports(s: Controller, count: nat) {
    && Unpressed(s) && s.target < s.maximum && !s.NearSoftCeiling()
    && s.activeProbe.None? && s.recoveryCooldown == 0 && Phase(s) == 0 && s.healthyReports == count
  }

  lemma CountingRecovers(s: Controller, interval: U64, safePath: U64, count: nat)
    requires CountingReports(s, count)
    ensures var waited := s.(returnWait := SubU64(s.returnWait, interval));
      CountingReports(waited, count) && s.Recover(interval, safePath) == waited.ClimbBelowCeiling(safePath)
  {
    var waited := s.(returnWait := SubU64(s.returnWait, interval));
    assert s.(recoveryCooldown := 0) == s;
    assert s.UpdateReturnAfterCollapse(interval) == waited;
    assert waited.AdvanceProbe(interval) == (waited, false);
  }

  /** The report is remembered, and what the latency policy says stays. */
  ghost predicate SameWatch(s: Controller, r: Report, t: Controller) {
    t.previousDelivery == r.delivery && t.mediaDelayMeasured == s.mediaDelayMeasured
      && t.latencyCeiling == s.latencyCeiling
  }

  lemma ReadyRemembers(s: Controller, r: Report)
    ensures SameWatch(s, r, Ready(s, r))
  {
  }

  lemma AllowedReportCounts(s: Controller, r: Report, count: nat)
    requires CountingReports(s, count) && count < HEALTHY_REPORTS_BEFORE_RECOVERY - 1 && CleanReport(s, r)
    ensures var t := s.Observe(r.path, r.delivery, true).state;
      CountingReports(t, count + 1) && t.target == s.target && SameWatch(s, r, t)
  {
    var t := Ready(s, r);
    assert CountingReports(t, count) && t.target == s.target by { ReadyStillCounts(s, r, count); }
    ReadyRemembers(s, r);
    CleanReportRecovers(s, r);
    CountingRecovers(t, r.delivery.intervalMicros, s.SafePath(r.path), count);
    CountMoves(t.(returnWait := SubU64(t.returnWait, r.delivery.intervalMicros)), s.SafePath(r.path), count);
  }

  lemma ReadyStillCounts(s: Controller, r: Report, count: nat)
    requires CountingReports(s, count)
    ensures CountingReports(Ready(s, r), count) && Ready(s, r).target == s.target
  {
    ReadyIsAsFar(s, r);
    ReadyKeepsLimits(s, r);
  }

  lemma CountMoves(s: Controller, safePath: U64, count: nat)
    requires CountingReports(s, count) && count < HEALTHY_REPORTS_BEFORE_RECOVERY - 1
    ensures var t := s.ClimbBelowCeiling(safePath).state;
      && CountingReports(t, count + 1) && t == s.(softCeilingHealthy := 0, healthyReports := count + 1)
  {
  }

  lemma ClearedCounts(s: Controller, count: nat)
    requires CountingReports(s, count)
    ensures CountingReports(s.(healthyReports := 0), 0)
  {
  }

  lemma PausedReportClearsCount(s: Controller, r: Report, count: nat)
    requires CountingReports(s, count) && CleanReport(s, r)
    ensures var t := s.Observe(r.path, r.delivery, false).state;
      CountingReports(t, 0) && t.target == s.target && SameWatch(s, r, t)
  {
    PausedReportOnlyMeasures(s, r);
    ReadyStillCounts(s, r, count);
    ReadyRemembers(s, r);
    hide Controller.Observe, CleanReport, Ready, CountingReports;
    ClearedCounts(Ready(s, r), count);
  }

  /** Three reports that allow an increase, then one that does not, and so on. */
  ghost predicate ThreeOfFourStep(s: Controller, r: Report, i: nat, t: Controller) {
    CleanReport(s, r) && t == s.Observe(r.path, r.delivery, i % 4 != 3).state
  }

  /** One pause in every four clean reports holds a target below its limits down for ever. */
  lemma {:induction false} ThreeOfFourNeverRise(run: nat -> Controller, reports: nat -> Report, n: nat)
    requires CountingReports(run(0), 0)
    requires forall i: nat :: ThreeOfFourStep(run(i), reports(i), i, run(i + 1))
    ensures CountingReports(run(n), n % 4) && run(n).target == run(0).target
  {
    hide CountingReports;
    hide Controller.Observe;
    if n > 0 {
      ThreeOfFourNeverRise(run, reports, n - 1);
      assert ThreeOfFourStep(run(n - 1), reports(n - 1), n - 1, run(n - 1 + 1));
      if (n - 1) % 4 != 3 {
        AllowedReportCounts(run(n - 1), reports(n - 1), (n - 1) % 4);
      } else {
        PausedReportClearsCount(run(n - 1), reports(n - 1), 3);
      }
    }
  }

  /** Half a second in which nothing is lost. */
  const EASY := Report(Path(0, 0), Delivery(0, 0, 500_000, 0, 0, 0, 0))

  ghost function EveryFourthPaused(maximum: U64, n: nat): Controller {
    if n == 0 then New(maximum)
    else EveryFourthPaused(maximum, n - 1).Observe(EASY.path, EASY.delivery, (n - 1) % 4 != 3).state
  }

  lemma EasyIsClean(s: Controller)
    ensures CleanReport(s, EASY)
  {
  }

  /** So a new controller stays where it started, below its maximum, when every fourth of its half-
      second reports is paused. */
  lemma FreshControllerNeverRises(maximum: U64, n: nat)
    requires BOOTSTRAP < maximum
    ensures EveryFourthPaused(maximum, n).target == New(maximum).target < maximum
  {
    hide CountingReports;
    var run := (i: nat) => EveryFourthPaused(maximum, i);
    assert CountingReports(run(0), 0) by { NewCounts(maximum); }
    forall i: nat
      ensures ThreeOfFourStep(run(i), EASY, i, run(i + 1))
    {
      EasyIsClean(run(i));
    }
    ThreeOfFourNeverRise(run, (i: nat) => EASY, n);
  }

  lemma NewCounts(maximum: U64)
    requires BOOTSTRAP < maximum
    ensures CountingReports(New(maximum), 0) && New(maximum).target < maximum
  {
    NewValid(maximum);
  }
}
