/** When a report raises the bitrate, and how far, in the numbers that reports and limits carry. */
module BitrateClimbs {
  import opened Numbers
  import opened BitrateModel
  import opened BitrateInvariants
  import opened BitrateHolds
  import opened BitrateCuts

  /** Nothing is wrong: no loss counter grew, the path carries the target, the round trip is not high or the media delay
      is measured instead, and no send was late or dropped. */
  ghost predicate Fine(s: Controller, path: Path, d: Delivery) {
    && d.intervalMicros > 0 && !AnyLoss(s.previousDelivery, d) && !CarriesLess(s.minimumRoundTrip, path, s.target)
    && (s.mediaDelayMeasured || !RoundTripHigh(s.minimumRoundTrip, path)) && s.senderPressureEvents == 0
  }

  // Stages of the climb

  /** The return after a collapse ends within 4 % of where the bitrate was, and that becomes the known limit. It begins
      below half of the best bitrate, once the wait is over, and forgets every limit. */
  ghost function Returned(s: Controller, interval: U64): Controller {
    if s.returningTo.Some? then
      if s.target >= s.returningTo.value * 96 / 100
      then s.(returningTo := None, provisionalCeiling := s.returningTo, returnRetry := 30_000_000) else s
    else
      var wait := Max(s.returnWait - interval, 0);
      if s.healthyBest.Some? && wait == 0 && s.target < s.healthyBest.value * 50 / 100
      then s.(returnWait := 0, returningTo := s.healthyBest, failedProbeTargets := [], provisionalCeiling := None,
              latencyCeiling := None, probeStep := 2, probeInterval := 15_000_000)
      else s.(returnWait := wait)
  }

  /** A probe passes after five seconds, or after one and a half when it is more than a tenth below the limit. */
  ghost predicate ProbePasses(s: Controller, interval: U64)
    requires s.activeProbe.Some?
  {
    var far := LimitInForce(s).Some? && s.target < LimitInForce(s).value * 90 / 100;
    s.activeProbe.value.elapsed + interval >= if far then 1_500_000 else 5_000_000
  }

  ghost function Aged(s: Controller, interval: U64): Controller
    requires s.activeProbe.Some?
  {
    var p := s.activeProbe.value;
    if ProbePasses(s, interval) then s.(activeProbe := None)
    else s.(activeProbe := Some(p.(elapsed := p.elapsed + interval)))
  }

  /** A probe that passed more than 5 % above the delivery limit disproves it. */
  ghost function Disproved(s: Controller): Controller {
    if DeliveryLimit(s).Some? && s.target > DeliveryLimit(s).value * 105 / 100
    then s.(failedProbeTargets := [], provisionalCeiling := None, probeInterval := 15_000_000) else s
  }

  /** A probe that passed at or above every limit doubles the step of the next, up to 16 %, and halves their spacing,
      down to 15 seconds. */
  ghost function SpedUp(s: Controller): Controller {
    if LimitInForce(s).None? || s.target >= LimitInForce(s).value
    then s.(probeStep := Min(2 * s.probeStep, 16), probeInterval := Max(s.probeInterval / 2, 15_000_000)) else s
  }

  /** The ordinary step: a tenth up without a limit, and otherwise half of the way to 96 % of it, but not less than 3 %
      nor more than a quarter of the bitrate, and not past that point. */
  ghost function NextTarget(s: Controller): int {
    if LimitInForce(s).None? then s.target * 110 / 100
    else
      var edge := LimitInForce(s).value * 96 / 100;
      if s.target >= edge then s.target
      else Min(s.target + Min(Max((edge - s.target + 1) / 2, s.target * 3 / 100), s.target * 25 / 100), edge)
  }

  /** The cautious step, at a limit. */
  ghost function CautiousStep(s: Controller): int {
    s.target * (100 + s.probeStep) / 100
  }

  /** What is due after a fine report, if anything: straight after a probe that passed, unless it is at the limit;
      straight after a wait that followed a cut; at the limit, when probes are far enough apart; below it, with every
      fourth such report in a row. */
  ghost function Due(s: Controller, waited: bool, interval: U64): Option<int> {
    if s.target == s.maximum then None
    else if s.activeProbe.Some? then
      if !ProbePasses(s, interval) then None
      else
        var t := SpedUp(Disproved(s.(activeProbe := None)));
        if AtLimit(t) then None else Some(NextTarget(t))
    else if waited then Some(if AtLimit(s) then CautiousStep(s) else NextTarget(s))
    else if AtLimit(s)
    then if s.softCeilingHealthy + interval >= s.probeInterval then Some(CautiousStep(s)) else None
    else if s.healthyReports >= 3 then Some(NextTarget(s)) else None
  }

  /** The bitrate goes there, as far as its maximum and the path allow. */
  ghost predicate ClimbsTo(s: Controller, path: Path, next: int, target: U64) {
    var goal := Min(next, s.maximum);
    if !CarriesLess(s.minimumRoundTrip, path, goal) then target == goal
    else !CarriesLess(s.minimumRoundTrip, path, target) && CarriesLess(s.minimumRoundTrip, path, target + 1)
  }

  lemma BeginMeans(s: Controller)
    ensures s.BeginReturn() ==
      s.(returningTo := s.healthyBest, failedProbeTargets := [], provisionalCeiling := None, latencyCeiling := None,
         probeStep := 2, probeInterval := 15_000_000)
  {
  }

  lemma ReturnMeans(s: Controller, interval: U64)
    ensures s.UpdateReturnAfterCollapse(interval) == Returned(s, interval)
  {
    hide Controller.BeginReturn;
    BeginMeans(s.(returnWait := SubU64(s.returnWait, interval)));
    if s.returningTo.Some? {
      assert Percentage(s.returningTo.value, 96) == s.returningTo.value * 96 / 100;
    } else if s.healthyBest.Some? {
      assert Percentage(s.healthyBest.value, 50) == s.healthyBest.value * 50 / 100;
    }
    hide Percentage;
  }

  lemma ProbeMeans(s: Controller, interval: U64)
    requires Valid(s) && s.activeProbe.Some?
    ensures s.AdvanceProbe(interval) == (Aged(s, interval), ProbePasses(s, interval))
  {
    LimitMeans(s);
    hide LimitInForce, Controller.RecoveryCeiling;
  }

  lemma DisprovedMeans(s: Controller)
    requires Valid(s)
    ensures s.ForgetPassedCeiling() == Disproved(s) && Valid(Disproved(s))
  {
    if |s.failedProbeTargets| == 5 {
      CeilingIsAverage(s);
    }
  }

  lemma SpedUpMeans(s: Controller)
    requires Valid(s)
    ensures s.SpeedUpAtLimit() == SpedUp(s) && Valid(SpedUp(s))
  {
    LimitMeans(s);
    hide LimitInForce, Controller.RecoveryCeiling;
  }

  lemma OrdinaryMeans(s: Controller)
    requires Valid(s)
    ensures s.OrdinaryRecoveryTarget() == Min(NextTarget(s), U64_MAX)
  {
    LimitMeans(s);
    hide LimitInForce, Controller.RecoveryCeiling, Valid;
  }

  lemma CautiousMeans(s: Controller)
    ensures s.CautiousTarget() == Min(CautiousStep(s), U64_MAX)
  {
  }

  /** The state in which the step is taken, if one is due: what was waited for is counted, or set back. */
  ghost function Counted(s: Controller, waited: bool, interval: U64): Controller {
    if s.target == s.maximum then
      if s.activeProbe.Some? then Aged(s, interval) else s
    else if s.activeProbe.Some? then
      if !ProbePasses(s, interval) then Aged(s, interval).(healthyReports := 0, softCeilingHealthy := 0)
      else SpedUp(Disproved(s.(activeProbe := None))).(healthyReports := 0, softCeilingHealthy := 0)
    else if waited then s.(healthyReports := 0, softCeilingHealthy := 0)
    else if AtLimit(s)
    then s.(healthyReports := 0,
            softCeilingHealthy :=
              if Due(s, waited, interval).Some? then 0
              else Min(s.softCeilingHealthy + interval, 0xFFFF_FFFF_FFFF_FFFF))
    else s.(softCeilingHealthy := 0,
            healthyReports := if Due(s, waited, interval).Some? then 0 else s.healthyReports + 1)
  }

  /** The target rose as far as that, which is a probe from then on; or it was there already. */
  ghost predicate Rose(s: Controller, to: int, o: Outcome) {
    if to == s.target then o == Outcome(s, None)
    else 0 <= to <= U64_MAX
         && o.state == s.(target := to, targetHeld := 0, activeProbe := Some(Probe(Some(s.target), to, 0)))
         && o.change == Some(Change(to, HealthyDelivery, Healthy))
  }

  lemma StepRises(s: Controller, next: int, safePath: U64)
    requires TargetInRange(s) && s.target <= next && s.target <= safePath
    ensures Rose(s, Min(s.maximum, Min(next, safePath)), s.SetRecoveryTarget(Min(Min(next, U64_MAX), safePath)))
  {
  }

  lemma NextIsHigher(s: Controller)
    requires Valid(s)
    ensures NextTarget(s) >= s.target && CautiousStep(s) >= s.target
  {
    OrdinaryMeans(s);
    CautiousMeans(s);
    RecoveryTargetsRise(s);
  }

  /** What is taken where something is due, and where nothing is. */
  ghost predicate Taken(s: Controller, waited: bool, interval: U64, safePath: U64, o: Outcome) {
    var due := Due(s, waited, interval);
    if due.None? then o == Outcome(Counted(s, waited, interval), None)
    else Rose(Counted(s, waited, interval), Min(s.maximum, Min(due.value, safePath)), o)
  }

  lemma CountsApart(s: Controller, reports: U8, held: U64)
    ensures var t := s.(healthyReports := reports, softCeilingHealthy := held);
      && (Valid(s) ==> Valid(t)) && NextTarget(t) == NextTarget(s) && CautiousStep(t) == CautiousStep(s)
      && (AtLimit(t) <==> AtLimit(s))
  {
  }

  lemma PassedTakes(a: Controller, safePath: U64, t: Controller, r: Controller)
    requires Valid(a) && safePath >= a.target && t == SpedUp(Disproved(a))
    requires r == t.(healthyReports := 0, softCeilingHealthy := 0)
    ensures if AtLimit(t) then a.ClimbAfterProbe(safePath) == Outcome(r, None)
      else Rose(r, Min(r.maximum, Min(NextTarget(t), safePath)), a.ClimbAfterProbe(safePath))
  {
    DisprovedMeans(a);
    SpedUpMeans(Disproved(a));
    CountsApart(t, 0, 0);
    LimitMeans(r);
    OrdinaryMeans(r);
    NextIsHigher(r);
    assert TargetInRange(r) && r.target == a.target;
    hide Disproved, SpedUp, NextTarget, AtLimit, Valid, Controller.SetRecoveryTarget, Controller.ForgetPassedCeiling,
      Controller.SpeedUpAtLimit, Controller.OrdinaryRecoveryTarget, Controller.NearSoftCeiling, Rose;
    StepRises(r, NextTarget(r), safePath);
  }

  lemma OpenProbeTakes(s: Controller, waited: bool, interval: U64, safePath: U64)
    requires Valid(s) && safePath >= s.target && s.activeProbe.Some?
    ensures var (a, validated) := s.AdvanceProbe(interval);
      Taken(s, waited, interval, safePath, a.Climb(validated, waited, interval, safePath))
  {
    ProbeMeans(s, interval);
    var a := s.(activeProbe := None);
    assert Valid(a);
    hide Valid, Controller.ClimbAfterProbe, Rose, SpedUp, Disproved, NextTarget, AtLimit, Controller.AdvanceProbe,
      ProbePasses;
    var t := SpedUp(Disproved(a));
    PassedTakes(a, safePath, t, t.(healthyReports := 0, softCeilingHealthy := 0));
    SameMaximum(a);
  }

  lemma SameMaximum(s: Controller)
    ensures SpedUp(Disproved(s)).maximum == s.maximum && SpedUp(Disproved(s)).target == s.target
  {
  }

  lemma StepTakes(s: Controller, r: Controller, safePath: U64)
    requires Valid(s) && safePath >= s.target && r == s.(healthyReports := 0, softCeilingHealthy := 0)
    ensures Rose(r, Min(r.maximum, Min(NextTarget(s), safePath)),
                 r.SetRecoveryTarget(Min(r.OrdinaryRecoveryTarget(), safePath)))
    ensures Rose(r, Min(r.maximum, Min(CautiousStep(s), safePath)),
                 r.SetRecoveryTarget(Min(r.CautiousTarget(), safePath)))
    ensures r.NearSoftCeiling() <==> AtLimit(s)
  {
    CountsApart(s, 0, 0);
    LimitMeans(r);
    OrdinaryMeans(r);
    CautiousMeans(r);
    NextIsHigher(r);
    assert TargetInRange(r) && r.target == s.target;
    hide NextTarget, AtLimit, CautiousStep, Valid, Controller.SetRecoveryTarget, Controller.OrdinaryRecoveryTarget,
      Controller.NearSoftCeiling, Controller.CautiousTarget, Rose;
    StepRises(r, NextTarget(r), safePath);
    StepRises(r, CautiousStep(r), safePath);
  }

  lemma WaitedTakes(s: Controller, safePath: U64, r: Controller)
    requires Valid(s) && safePath >= s.target && r == s.(healthyReports := 0, softCeilingHealthy := 0)
    ensures Rose(r, Min(r.maximum, Min(if AtLimit(s) then CautiousStep(s) else NextTarget(s), safePath)),
                 s.ClimbAfterCooldown(safePath))
  {
    StepTakes(s, r, safePath);
    hide NextTarget, AtLimit, CautiousStep, Valid, Controller.SetRecoveryTarget, Controller.OrdinaryRecoveryTarget,
      Controller.NearSoftCeiling, Controller.CautiousTarget, Rose;
  }

  lemma AtLimitTakes(s: Controller, interval: U64, safePath: U64, r: Controller)
    requires Valid(s) && safePath >= s.target && r == s.(healthyReports := 0, softCeilingHealthy := 0)
    ensures var o := s.ClimbNearCeiling(interval, safePath);
      if s.softCeilingHealthy + interval < s.probeInterval
      then o == Outcome(r.(softCeilingHealthy := s.softCeilingHealthy + interval), None)
      else Rose(r, Min(r.maximum, Min(CautiousStep(s), safePath)), o)
  {
    StepTakes(s, r, safePath);
    assert BackoffBounded(s);
    hide NextTarget, AtLimit, CautiousStep, Valid, Controller.SetRecoveryTarget, Controller.OrdinaryRecoveryTarget,
      Controller.NearSoftCeiling, Controller.CautiousTarget, Rose;
    assert s.(healthyReports := 0, softCeilingHealthy := AddU64(s.softCeilingHealthy, interval))
      .(softCeilingHealthy := 0) == r;
  }

  lemma BelowLimitTakes(s: Controller, safePath: U64, r: Controller)
    requires Valid(s) && safePath >= s.target && r == s.(healthyReports := 0, softCeilingHealthy := 0)
    ensures var o := s.ClimbBelowCeiling(safePath);
      if s.healthyReports < 3 then o == Outcome(r.(healthyReports := s.healthyReports + 1), None)
      else Rose(r, Min(r.maximum, Min(NextTarget(s), safePath)), o)
  {
    StepTakes(s, r, safePath);
    hide NextTarget, AtLimit, CautiousStep, Valid, Controller.SetRecoveryTarget, Controller.OrdinaryRecoveryTarget,
      Controller.NearSoftCeiling, Controller.CautiousTarget, Rose;
    assert s.(softCeilingHealthy := 0, healthyReports := IncrementU8(s.healthyReports)).(healthyReports := 0) == r;
  }

  lemma NoProbeTakes(s: Controller, waited: bool, interval: U64, safePath: U64)
    requires Valid(s) && safePath >= s.target && s.activeProbe.None?
    ensures Taken(s, waited, interval, safePath, s.Climb(false, waited, interval, safePath))
  {
    var r := s.(healthyReports := 0, softCeilingHealthy := 0);
    LimitMeans(s);
    WaitedTakes(s, safePath, r);
    AtLimitTakes(s, interval, safePath, r);
    BelowLimitTakes(s, safePath, r);
    hide NextTarget, AtLimit, CautiousStep, Valid, Controller.ClimbAfterCooldown, Controller.ClimbNearCeiling,
      Controller.ClimbBelowCeiling, Controller.NearSoftCeiling, Rose, LimitInForce;
  }

  /** From a state with nothing left to wait for. */
  lemma RecoverTakes(s: Controller, interval: U64, safePath: U64)
    requires Valid(s) && safePath >= s.target && s.recoveryCooldown <= interval
    ensures Taken(Returned(s.(recoveryCooldown := 0), interval), s.recoveryCooldown > 0, interval, safePath,
                  s.Recover(interval, safePath))
  {
    var cooled := s.(recoveryCooldown := 0);
    assert Valid(cooled);
    ReturnMeans(cooled, interval);
    UpdateReturnSound(cooled, interval);
    var u := Returned(cooled, interval);
    hide Valid, Taken, Returned, Controller.Climb, Controller.UpdateReturnAfterCollapse;
    if u.activeProbe.Some? {
      OpenProbeTakes(u, s.recoveryCooldown > 0, interval, safePath);
    } else {
      assert u.AdvanceProbe(interval) == (u, false);
      NoProbeTakes(u, s.recoveryCooldown > 0, interval, safePath);
    }
    assert s.(recoveryCooldown := SubU64(s.recoveryCooldown, interval)) == cooled;
  }

  // A whole report

  lemma PathCaps(s: Controller, path: Path, next: int)
    requires TargetInRange(s) && s.target <= next
    ensures ClimbsTo(s, path, next, Min(s.maximum, Min(next, s.SafePath(path))))
  {
    hide CarriesLess, LowestOf, Controller.SafePath;
    var goal, safe := Min(next, s.maximum), s.SafePath(path);
    SafePathMeans(s, path, goal);
    if safe < goal {
      SafePathMeans(s, path, safe);
      SafePathMeans(s, path, safe + 1);
    }
  }

  lemma FineResponds(s: Controller, path: Path, d: Delivery, allowIncrease: bool, m: Controller)
    requires Fine(s, path, d) && m == Measured(s, path, d).(degradedReports := 0)
    ensures s.Observe(path, d, allowIncrease) ==
      if allowIncrease then m.Recover(d.intervalMicros, s.SafePath(path)) else Outcome(m.(healthyReports := 0), None)
    ensures s.SafePath(path) >= s.target
  {
    hide AnyLoss, CarriesLess, RoundTripHigh, LowestOf, Controller.SafePath, Measured, Controller.SignalsOf,
      Controller.Recover, Controller.Observe;
    SafePathMeans(s, path, s.target);
    SafePathMeans(s, path, s.target * 75 / 100);
    NarrowForMore(s.minimumRoundTrip, path, s.target * 75 / 100, s.target);
    SignalsMean(s, path, d, allowIncrease);
    MeasuredRemembers(s, path, d);
    ObserveResponds(s, path, d, allowIncrease);
    assert !SevereLoss(s.previousDelivery, d, s.receiverLossBefore) by { SevereIsLoss(s.previousDelivery, d); }
    assert Percentage(s.target, 75) == s.target * 75 / 100;
  }

  lemma SevereIsLoss(before: Delivery, d: Delivery)
    ensures SevereLoss(before, d, true) || SevereLoss(before, d, false) ==> AnyLoss(before, d)
  {
  }

  lemma WaitShortens(s: Controller, interval: U64, safePath: U64)
    requires s.recoveryCooldown > interval
    ensures s.Recover(interval, safePath) ==
      Outcome(s.(recoveryCooldown := s.recoveryCooldown - interval, healthyReports := 0, softCeilingHealthy := 0), None)
  {
  }

  lemma StepIsTaken(s: Controller, path: Path, m: Controller, interval: U64)
    requires Valid(s) && Valid(m) && m.target == s.target && m.maximum == s.maximum
    requires s.SafePath(path) >= s.target && m.recoveryCooldown <= interval
    ensures var o := m.Recover(interval, s.SafePath(path));
      var u := Returned(m.(recoveryCooldown := 0), interval);
      var due := Due(u, m.recoveryCooldown > 0, interval);
      var c := Counted(u, m.recoveryCooldown > 0, interval);
      if due.None? then o == Outcome(c, None)
      else ClimbsTo(s, path, due.value, o.state.target) && Rose(c, o.state.target, o)
  {
    var u := Returned(m.(recoveryCooldown := 0), interval);
    var waited := m.recoveryCooldown > 0;
    assert TargetInRange(s) && Valid(m.(recoveryCooldown := 0));
    hide Valid, Returned, Due, Counted, Rose, Controller.Recover, Controller.SafePath, ClimbsTo;
    RecoverTakes(m, interval, s.SafePath(path));
    ReturnedSame(m.(recoveryCooldown := 0), interval);
    CountedSame(u, waited, interval);
    if Due(u, waited, interval).Some? {
      DueIsHigher(u, waited, interval);
      PathCaps(s, path, Due(u, waited, interval).value);
      RoseTo(Counted(u, waited, interval), m.Recover(interval, s.SafePath(path)),
             Min(s.maximum, Min(Due(u, waited, interval).value, s.SafePath(path))));
    }
  }

  lemma RoseTo(s: Controller, o: Outcome, to: int)
    requires Rose(s, to, o)
    ensures o.state.target == to
  {
  }

  /** A fine report that may raise the bitrate either shortens the wait that follows a cut or, when that is over, takes
      the step that is due, as far as the path allows; and every rise is a new probe. */
  lemma ReportClimbs(s: Controller, path: Path, d: Delivery, m: Controller)
    requires Valid(s) && Fine(s, path, d) && m == Measured(s, path, d).(degradedReports := 0)
    ensures var o := s.Observe(path, d, true);
      if s.recoveryCooldown > d.intervalMicros then
        o == Outcome(m.(recoveryCooldown := s.recoveryCooldown - d.intervalMicros, healthyReports := 0,
                        softCeilingHealthy := 0), None)
      else
        var u := Returned(m.(recoveryCooldown := 0), d.intervalMicros);
        var due := Due(u, s.recoveryCooldown > 0, d.intervalMicros);
        var c := Counted(u, s.recoveryCooldown > 0, d.intervalMicros);
        if due.None? then o == Outcome(c, None)
        else ClimbsTo(s, path, due.value, o.state.target) && Rose(c, o.state.target, o)
  {
    assert d.intervalMicros > 0;
    hide Fine, Measured, Returned, Due, Counted, Rose, Controller.Recover, Controller.SafePath, Controller.Observe,
      ClimbsTo, Remembers;
    FineResponds(s, path, d, true, m);
    MeasuredIsSame(s, path, d);
    MeasuredRemembers(s, path, d);
    assert Valid(m);
    hide Valid;
    if s.recoveryCooldown > d.intervalMicros {
      WaitShortens(m, d.intervalMicros, s.SafePath(path));
    } else {
      StepIsTaken(s, path, m, d.intervalMicros);
    }
  }

  lemma ReturnedSame(s: Controller, interval: U64)
    requires Valid(s)
    ensures var t := Returned(s, interval); Valid(t) && t.target == s.target && t.maximum == s.maximum
  {
    ReturnMeans(s, interval);
    UpdateReturnSound(s, interval);
  }

  lemma CountedSame(s: Controller, waited: bool, interval: U64)
    requires Valid(s)
    ensures var t := Counted(s, waited, interval); t.target == s.target && t.maximum == s.maximum
  {
    if s.activeProbe.Some? {
      SameMaximum(s.(activeProbe := None));
    }
    hide Due, AtLimit, ProbePasses, Disproved, SpedUp, Valid;
  }

  lemma PassedIsHigher(s: Controller)
    requires Valid(s)
    ensures NextTarget(SpedUp(Disproved(s))) >= s.target
  {
    DisprovedMeans(s);
    SpedUpMeans(Disproved(s));
    NextIsHigher(SpedUp(Disproved(s)));
    SameMaximum(s);
  }

  lemma DueIsHigher(s: Controller, waited: bool, interval: U64)
    requires Valid(s) && Due(s, waited, interval).Some?
    ensures Due(s, waited, interval).value >= s.target
  {
    NextIsHigher(s);
    assert Valid(s.(activeProbe := None));
    hide NextTarget, CautiousStep, AtLimit, ProbePasses, Disproved, SpedUp, Valid;
    PassedIsHigher(s.(activeProbe := None));
  }
}
