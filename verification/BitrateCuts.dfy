/** When a report cuts the bitrate, why, and how deep, in the numbers that reports carry. */
module BitrateCuts {
  import opened Numbers
  import opened BitrateModel
  import opened BitrateInvariants
  import opened BitrateHolds
  import opened BitrateConvergence

  // What a report says next to the one before it

  /** How much a counter grew; one that went back has not grown. */
  ghost function Grown(before: U64, now: U64): int {
    Max(now - before, 0)
  }

  ghost predicate AnyLoss(before: Delivery, d: Delivery) {
    || d.lostChunks > before.lostChunks || d.lateChunks > before.lateChunks
    || d.assemblyOverflows > before.assemblyOverflows || d.incompleteFrames > before.incompleteFrames
  }

  /** At least four chunks were lost, and at least this share of those that were received or lost. */
  ghost predicate Lost(before: Delivery, d: Delivery, percent: nat) {
    var lost := Grown(before.lostChunks, d.lostChunks);
    var chunks := Min(Grown(before.receivedChunks, d.receivedChunks) + lost, 0xFFFF_FFFF_FFFF_FFFF);
    lost >= 4 && 100 * lost >= percent * chunks
  }

  ghost predicate Heavy(before: Delivery, d: Delivery) {
    || Lost(before, d, 2)
    || Grown(before.assemblyOverflows, d.assemblyOverflows) >= 1
    || Grown(before.incompleteFrames, d.incompleteFrames) >= 2
  }

  /** A tenth was lost at once, or the loss was heavy and not the first. */
  ghost predicate SevereLoss(before: Delivery, d: Delivery, lossBefore: bool) {
    Lost(before, d, 10) || (Heavy(before, d) && lossBefore)
  }

  ghost function LowestOf(known: Option<nat>, path: Path): Option<nat> {
    if path.roundTripNanos == 0 || path.congestionWindowBytes == 0 then known
    else Some(if known.Some? then Min(known.value, path.roundTripNanos) else path.roundTripNanos)
  }

  /** A congestion window per lowest round trip, in whole microseconds, is less than the rate. */
  ghost predicate CarriesLess(known: Option<nat>, path: Path, rate: int) {
    && path.roundTripNanos > 0 && path.congestionWindowBytes > 0 && rate > 0
    && var micros := Min(LowestOf(known, path).value / 1000, 0xFFFF_FFFF_FFFF_FFFF);
       micros == 0 || 8_000_000 * path.congestionWindowBytes < rate * micros
  }

  /** The round trip is above the lowest by half of it, or by 20 ms if that is more. */
  ghost predicate RoundTripHigh(known: Option<nat>, path: Path) {
    var lowest := LowestOf(known, path);
    lowest.Some? && path.roundTripNanos > lowest.value + Max(20_000_000, lowest.value / 2)
  }

  lemma LossMeans(before: Delivery, d: Delivery)
    ensures FreshLoss(before, d) <==> AnyLoss(before, d)
    ensures SuddenLoss(before, d) <==> Lost(before, d, 10)
    ensures HeavyLoss(before, d) <==> Heavy(before, d)
  {
  }

  lemma QuotientBelow(a: nat, m: nat, q: nat, rate: nat)
    requires m > 0 && q * m <= a < (q + 1) * m
    ensures q < rate <==> a < rate * m
  {
    ProductOrder(rate, q + 1, m);
    ProductOrder(q, rate, m);
  }

  lemma QuotientBounds(a: nat, m: nat)
    requires m > 0
    ensures a / m * m <= a < (a / m + 1) * m
  {
  }

  lemma SafePathMeans(s: Controller, path: Path, rate: U64)
    ensures s.LowestRoundTrip(path) == LowestOf(s.minimumRoundTrip, path)
    ensures s.SafePath(path) < rate <==> CarriesLess(s.minimumRoundTrip, path, rate)
  {
    if path.roundTripNanos > 0 && path.congestionWindowBytes > 0 {
      var micros := ToU64(LowestOf(s.minimumRoundTrip, path).value / 1000);
      var safe := BitsPerSecond(path.congestionWindowBytes, micros);
      assert s.SafePath(path) == safe;
      if micros > 0 {
        var bits := path.congestionWindowBytes * 8_000_000;
        QuotientBounds(bits, micros);
        QuotientBelow(bits, micros, bits / micros, rate);
      }
    }
  }

  lemma SignalsMean(s: Controller, path: Path, d: Delivery, allowIncrease: bool)
    ensures var g := s.Account(d).SignalsOf(path, s.previousDelivery, d, allowIncrease);
      && g.interval == d.intervalMicros && g.allowIncrease == allowIncrease && g.safePath == s.SafePath(path)
      && g.senderEvents == s.senderPressureEvents && g.severeSender == s.severeSenderReduction
      && (g.receiverLoss <==> AnyLoss(s.previousDelivery, d))
      && (g.severeLoss <==> SevereLoss(s.previousDelivery, d, s.receiverLossBefore))
  {
    LossMeans(s.previousDelivery, d);
    hide FreshLoss, SuddenLoss, HeavyLoss, AnyLoss, Lost, Heavy;
  }

  /** What every report leaves behind, whatever its answer: everything it says is kept for the next one, and counts
      towards what takes two reports. */
  ghost predicate Remembers(s: Controller, path: Path, d: Delivery, t: Controller) {
    && t.previousDelivery == d && (t.receiverLossBefore <==> AnyLoss(s.previousDelivery, d))
    && t.minimumRoundTrip == LowestOf(s.minimumRoundTrip, path)
    && t.rttPressureStreak == (if RoundTripHigh(s.minimumRoundTrip, path) then Min(s.rttPressureStreak + 1, 255) else 0)
    && t.senderCongestedStreak == (if s.senderPressureEvents > 0 then Min(s.senderCongestedStreak + 1, 255) else 0)
    && t.senderPressureEvents == 0 && !t.severeSenderReduction
    && t.targetHeld == Min(s.targetHeld + d.intervalMicros, 0xFFFF_FFFF_FFFF_FFFF)
    && t.healthyBest == (if t.targetHeld < 20_000_000 then s.healthyBest
                         else if s.healthyBest.Some? then Some(Max(s.healthyBest.value, s.target)) else Some(s.target))
  }

  lemma MeasuredRemembers(s: Controller, path: Path, d: Delivery)
    ensures Remembers(s, path, d, Measured(s, path, d))
    ensures var t := Measured(s, path, d);
      t == s.(previousDelivery := t.previousDelivery, receiverLossBefore := t.receiverLossBefore,
              minimumRoundTrip := t.minimumRoundTrip, rttPressureStreak := t.rttPressureStreak,
              senderCongestedStreak := t.senderCongestedStreak, senderPressureEvents := 0,
              severeSenderReduction := false, targetHeld := t.targetHeld, healthyBest := t.healthyBest,
              deliverySamples := t.deliverySamples, estimatedCapacity := t.estimatedCapacity)
  {
    LossMeans(s.previousDelivery, d);
    hide FreshLoss, AnyLoss;
  }

  // What an answer leaves alone

  /** Nothing that was measured or counted changed, leaving out what the target's own moves set back. */
  ghost predicate SameWatched(s: Controller, t: Controller) {
    && t.previousDelivery == s.previousDelivery && t.receiverLossBefore == s.receiverLossBefore
    && t.minimumRoundTrip == s.minimumRoundTrip && t.rttPressureStreak == s.rttPressureStreak
    && t.senderCongestedStreak == s.senderCongestedStreak && t.senderPressureEvents == s.senderPressureEvents
    && t.severeSenderReduction == s.severeSenderReduction && t.mediaDelayMeasured == s.mediaDelayMeasured
    && t.degradedReports == s.degradedReports && t.maximum == s.maximum
    && t.deliverySamples == s.deliverySamples && t.estimatedCapacity == s.estimatedCapacity
  }

  lemma SetTargetWatches(s: Controller, bits: U64, reason: Reason, cause: Cause)
    ensures var o := s.SetTarget(bits, reason, cause);
      SameWatched(s, o.state) && (o.change.Some? ==> o.change.value.cause == cause)
  {
    hide Percentage, Controller.Bounded;
  }

  lemma RollbackWatches(s: Controller, bits: U64, cause: Cause)
    ensures SameWatched(s, s.RollbackFailedProbe(bits, cause).state)
  {
    hide Controller.SetTarget;
    SetTargetWatches(s, bits, Congestion, cause);
  }

  lemma RecordWatches(s: Controller)
    ensures SameWatched(s, s.RecordProbeFailure().0)
  {
    hide Percentage, Controller.NearSoftCeiling, PushBounded;
  }

  lemma FallBackWatches(s: Controller, percent: nat, rollBack: bool, cause: Cause)
    ensures SameWatched(s, s.FallBack(percent, rollBack, cause).state)
  {
    hide Controller.SetTarget, Controller.RollbackFailedProbe, Controller.RecordProbeFailure, Percentage;
    var (t, rollback) := s.RecordProbeFailure();
    RecordWatches(s);
    SetTargetWatches(t, Percentage(s.target, percent), Congestion, cause);
    if rollback.Some? {
      RollbackWatches(t, rollback.value, cause);
    }
  }

  lemma ReturnWatches(s: Controller, interval: U64)
    ensures SameWatched(s, s.UpdateReturnAfterCollapse(interval))
  {
    hide Percentage;
  }

  lemma ProbeWatches(s: Controller, interval: U64)
    ensures SameWatched(s, s.AdvanceProbe(interval).0)
  {
    hide Percentage, Controller.RecoveryCeiling;
  }

  /** Nothing watched changes, and the target moves up or not at all. */
  ghost predicate WatchesRise(s: Controller, o: Outcome) {
    SameWatched(s, o.state) && (o.change.Some? ==> o.change.value.cause == Healthy)
  }

  lemma RiseWatches(s: Controller, goal: U64)
    ensures WatchesRise(s, s.SetRecoveryTarget(goal))
  {
    hide Controller.SetTarget;
    SetTargetWatches(s, goal, HealthyDelivery, Healthy);
  }

  lemma AfterProbeWatches(s: Controller, safePath: U64)
    ensures WatchesRise(s, s.ClimbAfterProbe(safePath))
  {
    hide Controller.SetRecoveryTarget, Controller.NearSoftCeiling, Controller.OrdinaryRecoveryTarget, Percentage,
      Controller.DeliveryCeiling, Controller.RecoveryCeiling;
    var t := s.ForgetPassedCeiling().SpeedUpAtLimit().ResetRecoveryWait();
    RiseWatches(t, Min(t.OrdinaryRecoveryTarget(), safePath));
  }

  lemma OtherClimbsWatch(s: Controller, interval: U64, safePath: U64)
    ensures WatchesRise(s, s.ClimbAfterCooldown(safePath)) && WatchesRise(s, s.ClimbNearCeiling(interval, safePath))
    ensures WatchesRise(s, s.ClimbBelowCeiling(safePath))
  {
    hide Controller.SetRecoveryTarget, Controller.NearSoftCeiling, Controller.OrdinaryRecoveryTarget,
      Controller.CautiousTarget;
    var t := s.ResetRecoveryWait();
    RiseWatches(t, Min(if t.NearSoftCeiling() then t.CautiousTarget() else t.OrdinaryRecoveryTarget(), safePath));
    var u := s.(healthyReports := 0, softCeilingHealthy := AddU64(s.softCeilingHealthy, interval))
      .(softCeilingHealthy := 0);
    RiseWatches(u, Min(u.CautiousTarget(), safePath));
    var v := s.(softCeilingHealthy := 0, healthyReports := IncrementU8(s.healthyReports)).(healthyReports := 0);
    RiseWatches(v, Min(v.OrdinaryRecoveryTarget(), safePath));
  }

  lemma ClimbWatches(s: Controller, validated: bool, cooledDown: bool, interval: U64, safePath: U64)
    ensures WatchesRise(s, s.Climb(validated, cooledDown, interval, safePath))
  {
    hide Controller.ClimbAfterProbe, Controller.ClimbAfterCooldown, Controller.ClimbNearCeiling,
      Controller.ClimbBelowCeiling, Controller.NearSoftCeiling;
    AfterProbeWatches(s, safePath);
    OtherClimbsWatch(s, interval, safePath);
  }

  lemma RecoverWatches(s: Controller, interval: U64, safePath: U64)
    ensures WatchesRise(s, s.Recover(interval, safePath))
  {
    hide Controller.Climb, Controller.UpdateReturnAfterCollapse, Controller.AdvanceProbe;
    var cooled := s.(recoveryCooldown := SubU64(s.recoveryCooldown, interval));
    var r := cooled.UpdateReturnAfterCollapse(interval);
    ReturnWatches(cooled, interval);
    ProbeWatches(r, interval);
    var (t, validated) := r.AdvanceProbe(interval);
    ClimbWatches(t, validated, s.recoveryCooldown != 0, interval, safePath);
  }

  lemma RespondRises(s: Controller, g: Signals)
    ensures !FallsBack(s, g) && s.Respond(g).change.Some? ==> s.Respond(g).change.value.cause == Healthy
  {
    hide Controller.Recover, Controller.FallBack;
    RecoverWatches(s.(degradedReports := 0), g.interval, g.safePath);
  }

  // Why a report cuts

  /** The first of these that applies. Most of them answer only the second report in a row that says so. */
  ghost function CauseOf(s: Controller, path: Path, d: Delivery): Option<Cause> {
    if SevereLoss(s.previousDelivery, d, s.receiverLossBefore) then Some(SevereReceiverLoss)
    else if CarriesLess(s.minimumRoundTrip, path, s.target * 75 / 100) then Some(SeverePathPressure)
    else if AnyLoss(s.previousDelivery, d) || CarriesLess(s.minimumRoundTrip, path, s.target)
    then if s.degradedReports >= 1 then Some(MildDegradation) else None
    else if RoundTripHigh(s.minimumRoundTrip, path) && !s.mediaDelayMeasured
    then if s.rttPressureStreak >= 1 then Some(MildDegradation) else None
    else if s.senderPressureEvents >= 1 && !s.severeSenderReduction && s.senderCongestedStreak >= 1
    then Some(SenderCongestion) else None
  }

  /** The bytes and the time of the last two reports, as far as 64 bits count. */
  ghost function TwoNewest(s: Controller, d: Delivery): (int, int) {
    var bytes, last := Grown(s.previousDelivery.completedPayloadBytes, d.completedPayloadBytes),
      |s.deliverySamples| - 1;
    if last < 0 then (bytes, d.intervalMicros)
    else (Min(s.deliverySamples[last].0 + bytes, 0xFFFF_FFFF_FFFF_FFFF),
          Min(s.deliverySamples[last].1 + d.intervalMicros, 0xFFFF_FFFF_FFFF_FFFF))
  }

  lemma OneSample(x: (U64, U64))
    ensures SampleBytes([x]) == x.0 && SampleMicros([x]) == x.1
  {
    assert |[x][..0]| == 0;
  }

  lemma TwoSamples(x: (U64, U64), y: (U64, U64))
    ensures SampleBytes([x, y]) == AddU64(x.0, y.0) && SampleMicros([x, y]) == AddU64(x.1, y.1)
  {
    assert [x, y][..1] == [x];
    OneSample(x);
  }

  /** The estimated capacity is what the last two reports completed, in bits per second. */
  lemma CapacityMeans(s: Controller, path: Path, d: Delivery)
    requires |s.deliverySamples| <= 2 && d.intervalMicros > 0
    ensures var (bytes, micros) := TwoNewest(s, d);
      && micros > 0
      && Measured(s, path, d).estimatedCapacity == Min(8_000_000 * bytes / micros, 0xFFFF_FFFF_FFFF_FFFF)
  {
    var newest := (SubU64(d.completedPayloadBytes, s.previousDelivery.completedPayloadBytes), d.intervalMicros);
    var samples := PushBounded(s.deliverySamples, newest, 2);
    var last := |s.deliverySamples| - 1;
    if last < 0 {
      assert samples == [newest];
      OneSample(newest);
    } else {
      assert samples == [s.deliverySamples[last], newest];
      TwoSamples(s.deliverySamples[last], newest);
    }
    EstimateMeans(s, path, d, newest, samples);
  }

  lemma EstimateMeans(s: Controller, path: Path, d: Delivery, newest: (U64, U64), samples: seq<(U64, U64)>)
    requires newest == (SubU64(d.completedPayloadBytes, s.previousDelivery.completedPayloadBytes), d.intervalMicros)
    requires samples == PushBounded(s.deliverySamples, newest, 2) && SampleMicros(samples) > 0
    ensures Measured(s, path, d).estimatedCapacity ==
      Min(8_000_000 * SampleBytes(samples) / SampleMicros(samples), 0xFFFF_FFFF_FFFF_FFFF)
  {
    hide SampleBytes, SampleMicros, PushBounded, FreshLoss, Percentage;
  }

  lemma CauseMeans(s: Controller, path: Path, d: Delivery, allowIncrease: bool)
    requires d.intervalMicros > 0
    ensures ReportFallsBack(s, path, d, allowIncrease) <==> CauseOf(s, path, d).Some?
    ensures CauseOf(s, path, d).Some? ==>
      var cause := CauseOf(s, path, d).value;
      FallBackTerms(Measured(s, path, d), s.Account(d).SignalsOf(path, s.previousDelivery, d, allowIncrease)) ==
      (if cause in {SevereReceiverLoss, SeverePathPressure} then 75 else 90,
       cause in {SevereReceiverLoss, MildDegradation}, cause)
  {
    SafePathMeans(s, path, s.target * 75 / 100);
    SafePathMeans(s, path, s.target);
    SignalsMean(s, path, d, allowIncrease);
    MeasuredRemembers(s, path, d);
    hide AnyLoss, SevereLoss, CarriesLess, RoundTripHigh, LowestOf, Controller.SafePath, Measured, Controller.SignalsOf;
  }

  lemma OtherwiseHealthy(s: Controller, path: Path, d: Delivery, allowIncrease: bool)
    requires d.intervalMicros > 0 && CauseOf(s, path, d).None?
    ensures var o := s.Observe(path, d, allowIncrease); o.change.Some? ==> o.change.value.cause == Healthy
  {
    hide CauseOf, FallsBack, Measured, Controller.Observe, Controller.SignalsOf, Controller.Respond;
    CauseMeans(s, path, d, allowIncrease);
    ObserveResponds(s, path, d, allowIncrease);
    RespondRises(Measured(s, path, d), s.Account(d).SignalsOf(path, s.previousDelivery, d, allowIncrease));
  }

  // How deep

  /** What the last five failures average, or the last one as long as they are fewer. */
  ghost function DeliveryLimit(s: Controller): Option<int> {
    if |s.failedProbeTargets| == 5 then Some(Sum(s.failedProbeTargets) / 5) else s.provisionalCeiling
  }

  /** The limit the bitrate keeps to: on the way back from a collapse where it was before, and otherwise the lower of
      the delivery limit and of what the latency policy knows. */
  ghost function LimitInForce(s: Controller): Option<int> {
    if s.returningTo.Some? then s.returningTo
    else
      var delivery := DeliveryLimit(s);
      if delivery.None? then s.latencyCeiling
      else if s.latencyCeiling.None? then delivery else Some(Min(delivery.value, s.latencyCeiling.value))
  }

  ghost predicate AtLimit(s: Controller) {
    LimitInForce(s).Some? && s.target >= LimitInForce(s).value * 96 / 100
  }

  lemma LimitMeans(s: Controller)
    requires Valid(s)
    ensures s.RecoveryCeiling() == LimitInForce(s) && (s.NearSoftCeiling() <==> AtLimit(s))
  {
    if |s.failedProbeTargets| == 5 {
      CeilingIsAverage(s);
    }
  }

  /** Where a failed probe leads back to: to the target before it, or a little below what failed if that is less. At the
      limit, the target itself counts as a probe. */
  ghost function RolledBack(s: Controller): Option<int> {
    if s.activeProbe.Some? then
      var before := s.activeProbe.value.previous;
      if before.None? then None else Some(Min(before.value, s.target * 96 / 100))
    else if s.recoveryCooldown == 0 && AtLimit(s) then Some(s.target * 96 / 100)
    else None
  }

  ghost function Depth(s: Controller, percent: nat, rollBack: bool): int {
    if rollBack && RolledBack(s).Some? then RolledBack(s).value else s.target * percent / 100
  }

  lemma FailureRollsBack(s: Controller)
    requires Valid(s)
    ensures var (t, rollback) := s.RecordProbeFailure();
      rollback == RolledBack(s) && t.target == s.target && t.maximum == s.maximum && t.targetHeld == s.targetHeld
  {
    LimitMeans(s);
    hide LimitInForce, Controller.NearSoftCeiling;
  }

  lemma SetTargetTo(s: Controller, bits: U64, cause: Cause)
    requires TargetInRange(s) && bits <= s.target
    ensures var o := s.SetTarget(bits, Congestion, cause);
      && o.state.target == Max(1_000_000, bits)
      && o.change == if Max(1_000_000, bits) == s.target then None
                     else Some(Change(Max(1_000_000, bits), Congestion, cause))
  {
  }

  lemma RollbackTo(s: Controller, bits: U64, cause: Cause)
    requires TargetInRange(s) && bits <= s.target
    ensures s.RollbackFailedProbe(bits, cause).change == s.SetTarget(bits, Congestion, cause).change
    ensures s.RollbackFailedProbe(bits, cause).state.target == s.SetTarget(bits, Congestion, cause).state.target
  {
  }

  /** A fallback goes as deep as that, but not below the minimum bitrate. */
  lemma FallBackTo(s: Controller, percent: nat, rollBack: bool, cause: Cause)
    requires Valid(s) && percent <= 90
    ensures var o := s.FallBack(percent, rollBack, cause);
      var to := Max(1_000_000, Depth(s, percent, rollBack));
      o.state.target == to && o.change == if to == s.target then None else Some(Change(to, Congestion, cause))
  {
    hide Controller.SetTarget, Controller.RollbackFailedProbe, Controller.RecordProbeFailure, RolledBack;
    FailureRollsBack(s);
    RollbackIsLower(s);
    var (t, rollback) := s.RecordProbeFailure();
    assert TargetInRange(t);
    assert Percentage(s.target, percent) == s.target * percent / 100 <= s.target by {
      assert s.target * percent <= s.target * 100;
    }
    var bits := if rollBack && rollback.Some? then rollback.value else Percentage(s.target, percent);
    SetTargetTo(t, bits, cause);
    RollbackTo(t, bits, cause);
  }

  lemma SameDepth(s: Controller, t: Controller, percent: nat, rollBack: bool)
    requires t.target == s.target && t.activeProbe == s.activeProbe && t.recoveryCooldown == s.recoveryCooldown
    requires SameLimits(s, t) && t.returningTo == s.returningTo
    ensures Depth(t, percent, rollBack) == Depth(s, percent, rollBack)
  {
  }

  ghost function DepthFor(s: Controller, cause: Cause): int {
    Depth(s, if cause in {SevereReceiverLoss, SeverePathPressure} then 75 else 90,
          cause in {SevereReceiverLoss, MildDegradation})
  }

  /** The answer goes down for the first cause that applies and for no other reason, and how far depends on the cause:
      loss undoes a failed probe if there is one; without one, severe loss and a severely narrow path take a quarter,
      and anything else a tenth. */
  ghost predicate CutsBecause(s: Controller, path: Path, d: Delivery, o: Outcome) {
    var cause := CauseOf(s, path, d);
    if cause.Some? then
      var to := Max(1_000_000, DepthFor(s, cause.value));
      && o.state.target == to && (to < s.target || s.target == 1_000_000)
      && o.change == if to == s.target then None else Some(Change(to, Congestion, cause.value))
    else o.change.Some? ==> o.change.value.reason == HealthyDelivery && o.change.value.cause == Healthy
  }

  lemma ReportCutsBecause(s: Controller, path: Path, d: Delivery, allowIncrease: bool)
    requires Valid(s) && d.intervalMicros > 0
    ensures CutsBecause(s, path, d, s.Observe(path, d, allowIncrease))
  {
    hide CauseOf, Depth, ReportFallsBack, FallBackTerms, BeforeFallBack, Measured, Controller.Observe,
      Controller.FallBack, Controller.Respond, Controller.Account, Controller.SignalsOf;
    CauseMeans(s, path, d, allowIncrease);
    ReportCutsIff(s, path, d, allowIncrease);
    ObserveMovesOneWay(s, path, d, allowIncrease);
    if CauseOf(s, path, d).Some? {
      CutGoesTo(s, path, d, allowIncrease);
    } else {
      OtherwiseHealthy(s, path, d, allowIncrease);
    }
  }

  lemma CutGoesTo(s: Controller, path: Path, d: Delivery, allowIncrease: bool)
    requires Valid(s) && ReportFallsBack(s, path, d, allowIncrease)
    ensures var (percent, rollBack, cause) :=
        FallBackTerms(Measured(s, path, d), s.Account(d).SignalsOf(path, s.previousDelivery, d, allowIncrease));
      var to := Max(1_000_000, Depth(s, percent, rollBack));
      var o := s.Observe(path, d, allowIncrease);
      o.state.target == to && o.change == if to == s.target then None else Some(Change(to, Congestion, cause))
  {
    hide Depth, FallBackTerms, BeforeFallBack, Measured, FallsBack, Controller.Observe, Controller.FallBack,
      Controller.Respond, Controller.Account, Controller.SignalsOf;
    var t := Measured(s, path, d);
    var g := s.Account(d).SignalsOf(path, s.previousDelivery, d, allowIncrease);
    var (percent, rollBack, cause) := FallBackTerms(t, g);
    MeasuredIsSame(s, path, d);
    MeasuredRemembers(s, path, d);
    ObserveResponds(s, path, d, allowIncrease);
    RespondFallsBackIff(t, g);
    BeforeFallBackIsSame(t, g);
    BeforeFallBackWaits(t, g);
    var b := BeforeFallBack(t, g);
    FallBackTo(b, percent, rollBack, cause);
    SameDepth(s, b, percent, rollBack);
  }

  lemma BeforeFallBackWaits(s: Controller, g: Signals)
    ensures var t := BeforeFallBack(s, g); t.recoveryCooldown == s.recoveryCooldown && t.returningTo == s.returningTo
  {
  }

  // From one report to the next

  /** What a report leaves counted: it is the first degraded one, or one with a high round trip more, unless it was
      answered. */
  ghost predicate Counts(s: Controller, path: Path, d: Delivery, t: Controller) {
    var narrow := CarriesLess(s.minimumRoundTrip, path, s.target);
    var severe := SevereLoss(s.previousDelivery, d, s.receiverLossBefore)
      || CarriesLess(s.minimumRoundTrip, path, s.target * 75 / 100);
    var degraded := !severe && (AnyLoss(s.previousDelivery, d) || narrow);
    && t.degradedReports == (if degraded && s.degradedReports == 0 then 1 else 0)
    && t.rttPressureStreak ==
         if !RoundTripHigh(s.minimumRoundTrip, path) then 0
         else if !severe && !degraded && !s.mediaDelayMeasured && s.rttPressureStreak >= 1 then 0
         else Min(s.rttPressureStreak + 1, 255)
  }

  lemma RespondCounts(s: Controller, g: Signals)
    ensures var t := s.Respond(g).state;
      var severe := g.severeLoss || g.safePath < Percentage(s.target, 75);
      var degraded := !severe && (g.receiverLoss || g.safePath < s.target);
      SameWatched(s.(degradedReports := if degraded && s.degradedReports == 0 then 1 else 0,
                     rttPressureStreak :=
                       if !severe && !degraded && !s.mediaDelayMeasured && s.rttPressureStreak >= 2 then 0
                       else s.rttPressureStreak), t)
  {
    hide Controller.FallBack, Controller.Recover, Percentage;
    forall u: Controller, percent: nat, rollBack: bool, cause: Cause
      ensures SameWatched(u, u.FallBack(percent, rollBack, cause).state)
    {
      FallBackWatches(u, percent, rollBack, cause);
    }
    RecoverWatches(s.(degradedReports := 0), g.interval, g.safePath);
  }

  /** What the last two reports completed, and over what time, is kept. */
  ghost predicate TwoKept(s: Controller, d: Delivery, kept: seq<(U64, U64)>) {
    var newest: U64 := Grown(s.previousDelivery.completedPayloadBytes, d.completedPayloadBytes);
    kept == (if |s.deliverySamples| == 2 then s.deliverySamples[1..] else s.deliverySamples)
            + [(newest, d.intervalMicros)]
  }

  lemma MeasuredKeepsTwo(s: Controller, path: Path, d: Delivery)
    ensures TwoKept(s, d, Measured(s, path, d).deliverySamples)
  {
    hide Percentage, FreshLoss;
  }

  /** What a report says is kept for the next one, whatever the answer. */
  lemma ReportIsKept(s: Controller, path: Path, d: Delivery, allowIncrease: bool)
    requires d.intervalMicros > 0
    ensures var t := s.Observe(path, d, allowIncrease).state;
      && t.previousDelivery == d && (t.receiverLossBefore <==> AnyLoss(s.previousDelivery, d))
      && t.minimumRoundTrip == LowestOf(s.minimumRoundTrip, path)
      && t.senderCongestedStreak == (if s.senderPressureEvents > 0 then Min(s.senderCongestedStreak + 1, 255) else 0)
      && t.senderPressureEvents == 0 && !t.severeSenderReduction
      && t.mediaDelayMeasured == s.mediaDelayMeasured && Counts(s, path, d, t)
      && TwoKept(s, d, t.deliverySamples)
  {
    hide AnyLoss, SevereLoss, CarriesLess, RoundTripHigh, LowestOf, Controller.SafePath, Measured,
      Controller.SignalsOf, Controller.Respond, Controller.Observe;
    SafePathMeans(s, path, s.target * 75 / 100);
    SafePathMeans(s, path, s.target);
    SignalsMean(s, path, d, allowIncrease);
    MeasuredRemembers(s, path, d);
    MeasuredKeepsTwo(s, path, d);
    ObserveResponds(s, path, d, allowIncrease);
    RespondCounts(Measured(s, path, d), s.Account(d).SignalsOf(path, s.previousDelivery, d, allowIncrease));
  }

  /** A report without an interval only moves the counters that the next one is compared with. */
  lemma EmptyReportKeeps(s: Controller, path: Path, d: Delivery, allowIncrease: bool)
    requires d.intervalMicros == 0
    ensures var o := s.Observe(path, d, allowIncrease);
      && o.change.None? && o.state == s.(previousDelivery := d, healthyBest := o.state.healthyBest)
      && o.state.healthyBest == (if s.targetHeld < 20_000_000 then s.healthyBest
                                 else if s.healthyBest.Some? then Some(Max(s.healthyBest.value, s.target))
                                 else Some(s.target))
  {
  }

  ghost predicate CutFor(o: Outcome, cause: Cause) {
    o.change.Some? && o.change.value.cause == cause
  }

  /** Of two reports running, the second is answered as severe loss exactly when it lost four chunks and a tenth at
      once, or lost heavily and some loss counter had grown in the first as well. */
  lemma SevereLossIff(s: Controller, first: Report, second: Report, allowed: bool, allowIncrease: bool)
    requires Valid(s) && first.delivery.intervalMicros > 0 && second.delivery.intervalMicros > 0
    requires s.Observe(first.path, first.delivery, allowed).state.target > 1_000_000
    ensures var t := s.Observe(first.path, first.delivery, allowed).state;
      var before, f, d := s.previousDelivery, first.delivery, second.delivery;
      var lost := Grown(f.lostChunks, d.lostChunks);
      var chunks := Min(Grown(f.receivedChunks, d.receivedChunks) + lost, 0xFFFF_FFFF_FFFF_FFFF);
      CutFor(t.Observe(second.path, d, allowIncrease), SevereReceiverLoss) <==>
        || (lost >= 4 && 10 * lost >= chunks)
        || (&& (|| d.assemblyOverflows > f.assemblyOverflows
                || d.incompleteFrames >= f.incompleteFrames + 2
                || (lost >= 4 && 50 * lost >= chunks))
            && (|| f.lostChunks > before.lostChunks || f.lateChunks > before.lateChunks
                || f.assemblyOverflows > before.assemblyOverflows || f.incompleteFrames > before.incompleteFrames))
  {
    hide Controller.Observe, Valid, Counts, LowestOf;
    var t := s.Observe(first.path, first.delivery, allowed).state;
    ReportIsKept(s, first.path, first.delivery, allowed);
    ObserveMovesOneWay(s, first.path, first.delivery, allowed);
    SevereLossCuts(t, second, allowIncrease);
  }

  lemma SevereLossCuts(t: Controller, r: Report, allowIncrease: bool)
    requires Valid(t) && r.delivery.intervalMicros > 0 && t.target > 1_000_000
    ensures CutFor(t.Observe(r.path, r.delivery, allowIncrease), SevereReceiverLoss) <==>
      SevereLoss(t.previousDelivery, r.delivery, t.receiverLossBefore)
  {
    hide Controller.Observe, SevereLoss, CarriesLess, RoundTripHigh, AnyLoss;
    ReportCutsBecause(t, r.path, r.delivery, allowIncrease);
  }

  /** Heavy loss after a report without any, not a tenth at once, leaves the target where it is. */
  lemma LoneLossIsForgiven(s: Controller, first: Report, second: Report, allowed: bool, allowIncrease: bool)
    requires Valid(s) && first.delivery.intervalMicros > 0 && second.delivery.intervalMicros > 0
    requires !AnyLoss(s.previousDelivery, first.delivery)
    requires !CarriesLess(s.minimumRoundTrip, first.path, s.target)
    requires Heavy(first.delivery, second.delivery) && !Lost(first.delivery, second.delivery, 10)
    requires var t := s.Observe(first.path, first.delivery, allowed).state;
      !CarriesLess(t.minimumRoundTrip, second.path, t.target * 75 / 100)
    ensures var t := s.Observe(first.path, first.delivery, allowed).state;
      var o := t.Observe(second.path, second.delivery, allowIncrease);
      o.change.None? && o.state.target == t.target
  {
    var t := s.Observe(first.path, first.delivery, allowed).state;
    ReportIsKept(s, first.path, first.delivery, allowed);
    ObserveMovesOneWay(s, first.path, first.delivery, allowed);
    NarrowForMore(s.minimumRoundTrip, first.path, s.target * 75 / 100, s.target);
    HeavyIsLoss(first.delivery, second.delivery);
    hide Controller.Observe, Valid, LowestOf, CarriesLess, AnyLoss, Heavy, Lost;
    assert t.degradedReports == 0 && !t.receiverLossBefore && t.previousDelivery == first.delivery;
    LossIsCountedOnly(t, second, allowIncrease);
  }

  lemma NarrowForMore(known: Option<nat>, path: Path, low: int, high: int)
    requires low <= high
    ensures CarriesLess(known, path, low) ==> CarriesLess(known, path, high)
  {
    if path.roundTripNanos > 0 && path.congestionWindowBytes > 0 {
      var micros := Min(LowestOf(known, path).value / 1000, 0xFFFF_FFFF_FFFF_FFFF);
      assert low * micros <= high * micros;
    }
  }

  lemma HeavyIsLoss(before: Delivery, d: Delivery)
    requires Heavy(before, d)
    ensures AnyLoss(before, d)
  {
  }

  lemma LossIsCountedOnly(t: Controller, r: Report, allowIncrease: bool)
    requires Valid(t) && r.delivery.intervalMicros > 0 && t.degradedReports == 0 && !t.receiverLossBefore
    requires AnyLoss(t.previousDelivery, r.delivery) && !Lost(t.previousDelivery, r.delivery, 10)
    requires !CarriesLess(t.minimumRoundTrip, r.path, t.target * 75 / 100)
    ensures var o := t.Observe(r.path, r.delivery, allowIncrease); o.change.None? && o.state.target == t.target
  {
    hide FallsBack, Measured, Controller.Observe, Controller.SignalsOf, CarriesLess, AnyLoss, Lost, Heavy;
    hide Valid, Controller.SafePath;
    var m := Measured(t, r.path, r.delivery);
    var g := t.Account(r.delivery).SignalsOf(r.path, t.previousDelivery, r.delivery, allowIncrease);
    SignalsMean(t, r.path, r.delivery, allowIncrease);
    SafePathMeans(t, r.path, t.target * 75 / 100);
    MeasuredRemembers(t, r.path, r.delivery);
    ObserveResponds(t, r.path, r.delivery, allowIncrease);
    assert Percentage(t.target, 75) == t.target * 75 / 100;
    assert m.Respond(g) == m.RespondToMild();
  }

  /** The same loss in two reports running cuts: to three quarters, or to where the open probe came from. */
  lemma LossInTwoReportsCuts(s: Controller, first: Report, second: Report, allowed: bool, allowIncrease: bool)
    requires Valid(s) && first.delivery.intervalMicros > 0 && second.delivery.intervalMicros > 0
    requires AnyLoss(s.previousDelivery, first.delivery) && Heavy(first.delivery, second.delivery)
    requires s.Observe(first.path, first.delivery, allowed).state.target > 1_000_000
    ensures var t := s.Observe(first.path, first.delivery, allowed).state;
      var o := t.Observe(second.path, second.delivery, allowIncrease);
      var to := if t.activeProbe.Some? && t.activeProbe.value.previous.Some?
        then Min(t.activeProbe.value.previous.value, t.target * 96 / 100)
        else if t.activeProbe.None? && t.recoveryCooldown == 0 && AtLimit(t) then t.target * 96 / 100
        else t.target * 75 / 100;
      && o.change == Some(Change(Max(1_000_000, to), Congestion, SevereReceiverLoss))
      && o.state.target == Max(1_000_000, to) < t.target
  {
    hide Controller.Observe, Valid, Counts, LowestOf, AnyLoss, Heavy, Lost, CarriesLess, AtLimit;
    var t := s.Observe(first.path, first.delivery, allowed).state;
    ReportIsKept(s, first.path, first.delivery, allowed);
    ObserveMovesOneWay(s, first.path, first.delivery, allowed);
    ReportCutsBecause(t, second.path, second.delivery, allowIncrease);
  }

  // What a cut leaves behind

  /** The target counts as a failure if a probe was open, or if it was at the limit with nothing to wait for and had not
      held for a minute. A failure is remembered with the four before it, slows probes down and doubles their spacing,
      up to ten minutes. */
  ghost function AfterFailure(s: Controller): Controller {
    var newest := (if |s.failedProbeTargets| == 5 then s.failedProbeTargets[1..] else s.failedProbeTargets)
      + [s.target];
    if s.activeProbe.Some? || (s.recoveryCooldown == 0 && AtLimit(s) && s.targetHeld < 60_000_000)
    then s.(activeProbe := None, provisionalCeiling := Some(s.target), probeStep := 2,
            probeInterval := Min(2 * s.probeInterval, 600_000_000), failedProbeTargets := newest)
    else s
  }

  /** A lower target has not held yet and waits five seconds before it rises. On the way back from a collapse it gives
      the return up: the best bitrate counts for three quarters, and the next return waits twice as long, up to ten
      minutes. */
  ghost function AfterFall(s: Controller, target: U64): Controller {
    if target == s.target then s
    else if s.returningTo.None? then s.(target := target, targetHeld := 0, recoveryCooldown := 5_000_000)
    else s.(target := target, targetHeld := 0, recoveryCooldown := 5_000_000, returningTo := None,
            healthyBest := Some(Max(s.returningTo.value * 75 / 100, s.target)),
            returnWait := s.returnRetry, returnRetry := Min(2 * s.returnRetry, 600_000_000))
  }

  lemma TakeLeaves(s: Controller, probe: Probe)
    requires probe.target == s.target && |s.failedProbeTargets| <= 5
    ensures s.TakeFailedProbe(probe).0 ==
      s.(activeProbe := None, provisionalCeiling := Some(s.target), probeStep := 2,
         probeInterval := Min(2 * s.probeInterval, 600_000_000),
         failedProbeTargets :=
           (if |s.failedProbeTargets| == 5 then s.failedProbeTargets[1..] else s.failedProbeTargets) + [s.target])
  {
  }

  lemma RecordLeaves(s: Controller)
    requires Valid(s)
    ensures s.RecordProbeFailure().0 == AfterFailure(s)
  {
    LimitMeans(s);
    TakeLeaves(s, if s.activeProbe.Some? then s.activeProbe.value else Probe(Some(s.target), s.target, 0));
    hide LimitInForce, Controller.NearSoftCeiling, Controller.TakeFailedProbe, AtLimit, Percentage, TargetInRange,
      MemoryBounded, ReturnRemembered;
  }

  lemma SetTargetLeaves(s: Controller, bits: U64, cause: Cause)
    requires TargetInRange(s) && bits <= s.target
    ensures s.SetTarget(bits, Congestion, cause).state == AfterFall(s, Max(1_000_000, bits))
  {
    assert s.Bounded(bits) == Max(1_000_000, bits);
    AbandonLeaves(s.(recoveryCooldown := RECOVERY_COOLDOWN));
    hide Controller.Bounded, Controller.AbandonReturn, Percentage;
  }

  lemma AbandonLeaves(s: Controller)
    ensures s.AbandonReturn() ==
      if s.returningTo.None? then s
      else s.(returningTo := None, healthyBest := Some(Max(s.returningTo.value * 75 / 100, s.target)),
              returnWait := s.returnRetry, returnRetry := Min(2 * s.returnRetry, 600_000_000))
  {
  }

  lemma ShareIsLower(target: U64, percent: nat)
    requires percent <= 90
    ensures Percentage(target, percent) == target * percent / 100 <= target
  {
    assert target * percent <= target * 100;
  }

  /** What a fallback leaves behind: the failure, the fall, and after undoing a probe that had not held for a minute a
      wait as long as probes are apart. */
  lemma FallBackLeaves(s: Controller, percent: nat, rollBack: bool, cause: Cause, to: U64)
    requires Valid(s) && percent <= 90 && to == Max(1_000_000, Depth(s, percent, rollBack))
    ensures var t := AfterFall(AfterFailure(s), to);
      s.FallBack(percent, rollBack, cause).state ==
      if rollBack && RolledBack(s).Some? && s.targetHeld < 60_000_000 then t.(recoveryCooldown := t.probeInterval)
      else t
  {
    FailureRollsBack(s);
    RollbackIsLower(s);
    RecordLeaves(s);
    ShareIsLower(s.target, percent);
    var (r, rollback) := s.RecordProbeFailure();
    assert TargetInRange(r);
    hide Valid, TargetInRange, AfterFailure, Percentage, Controller.SetTarget, Controller.RecordProbeFailure,
      RolledBack, AtLimit, AfterFall;
    var bits := if rollBack && rollback.Some? then rollback.value else Percentage(s.target, percent);
    SetTargetLeaves(r, bits, cause);
  }

  // Sends that are late or dropped between reports

  /** A late or dropped send is counted, and no report before it counts towards a rise or a cut any more. */
  ghost function Pressed(s: Controller): Controller {
    s.(healthyReports := 0, softCeilingHealthy := 0, degradedReports := 0,
       senderPressureEvents := Min(s.senderPressureEvents + 1, 255))
  }

  lemma PressureMeans(s: Controller)
    ensures s.ObserveSenderPressure() == Pressed(s)
  {
  }

  lemma CongestionMeans(s: Controller)
    requires Valid(s)
    ensures var o := s.ObserveSenderCongestion();
      var cuts := s.senderPressureEvents >= 2 && !s.severeSenderReduction;
      && Valid(o.state) && o.state.senderPressureEvents == Min(s.senderPressureEvents + 1, 255)
      && o.state == (if !cuts then Pressed(s)
                     else AfterFall(AfterFailure(Pressed(s).(severeSenderReduction := true)),
                                    Max(1_000_000, s.target * 75 / 100)))
      && o.state.severeSenderReduction == (s.severeSenderReduction || cuts)
      && o.state.target == (if cuts then Max(1_000_000, s.target * 75 / 100) else s.target)
      && o.change == if o.state.target == s.target then None
                     else Some(Change(o.state.target, Congestion, SenderCongestion))
  {
    PressureMeans(s);
    var p := Pressed(s);
    var q := p.(severeSenderReduction := true);
    assert Valid(p) && Valid(q);
    SenderCongestionFalls(s);
    assert s.target * 75 <= s.target * 100;
    hide Valid, Controller.FallBack, Controller.ObserveSenderPressure, Pressed, AfterFall, AfterFailure;
    if s.senderPressureEvents >= 2 && !s.severeSenderReduction {
      FallBackTo(q, 75, false, SenderCongestion);
      FallBackWatches(q, 75, false, SenderCongestion);
      FallBackLeaves(q, 75, false, SenderCongestion, Max(1_000_000, Depth(q, 75, false)));
    }
  }

  ghost function AfterCongestions(s: Controller, count: nat): Controller {
    if count == 0 then s else AfterCongestions(s, count - 1).ObserveSenderCongestion().state
  }

  /** Between two reports, the third late send takes a quarter, and however many follow, none takes more. */
  lemma {:induction false} ThirdCongestionCutsOnce(s: Controller, count: nat)
    requires Valid(s) && s.senderPressureEvents == 0 && !s.severeSenderReduction
    ensures var t := AfterCongestions(s, count);
      && Valid(t) && t.senderPressureEvents == Min(count, 255) && (t.severeSenderReduction <==> count >= 3)
      && t.target == if count < 3 then s.target else Max(1_000_000, s.target * 75 / 100)
  {
    hide Valid, Controller.ObserveSenderCongestion;
    if count > 0 {
      ThirdCongestionCutsOnce(s, count - 1);
      CongestionMeans(AfterCongestions(s, count - 1));
    }
  }

  // Reductions the latency policy asks for

  /** An open probe is given up, which slows probes down and doubles their spacing unless the bitrate held for a
      minute. */
  ghost function GivenUp(s: Controller): Controller {
    var t := s.(activeProbe := None, healthyReports := 0, softCeilingHealthy := 0);
    if s.targetHeld >= 60_000_000 then t
    else t.(probeStep := 2, probeInterval := Min(2 * s.probeInterval, 600_000_000))
  }

  /** A requested reduction gives an open probe up and goes where it says, but not below the minimum bitrate, and sets
      the wait before the next rise. */
  lemma LatencyTargetSets(s: Controller, bits: U64, cooldown: U64)
    requires Valid(s) && bits <= s.target
    ensures var o, to := s.SetLatencyTarget(bits, cooldown), Max(1_000_000, bits);
      && o.state == AfterFall(GivenUp(s), to).(recoveryCooldown := cooldown)
      && o.state.target == to && o.state.activeProbe.None?
      && o.change == if to == s.target then None else Some(Change(to, Congestion, LatencyPressure))
  {
    assert s.GiveUpProbe() == GivenUp(s);
    var u, to := GivenUp(s), Max(1_000_000, bits);
    assert u.target == s.target && TargetInRange(u);
    hide Valid, GivenUp, Controller.GiveUpProbe, TargetInRange;
    SetTargetLeaves(u, bits, LatencyPressure);
    SetTargetTo(u, bits, LatencyPressure);
    hide Controller.SetTarget, AfterFall;
  }
}
