/** The promise about a bitrate that held for a minute, on the whole stream policy: what a report that cuts it does to
    the limits and to the wait. */
module VideoStreamHolds {
  import opened Numbers
  import opened BitrateModel
  import opened BitrateInvariants
  import opened BitrateHolds
  import opened LatencyModel
  import opened VideoStreamModel
  import opened VideoStreamRuns
  import opened VideoStreamConvergence
  import Cuts = LatencyCuts
  import LatencyRuns

  /** The bitrate in force has held for a minute, by the reports' intervals and by the clock. */
  ghost predicate HeldForAMinute(p: Policy, d: Delivery, now: nat)
    requires p.latency.Some?
  {
    AddU64(p.bitrate.targetHeld, d.intervalMicros) >= PROVEN_HOLD
      && Since(now, p.latency.value.changedAt) >= PROVEN_HOLD_NANOS
  }

  lemma UnansweredKeepsLimits(s: Controller, g: Signals)
    requires Valid(s) && !FallsBack(s, g) && !g.allowIncrease
    ensures SameLimits(s, s.Respond(g).state)
  {
    hide Controller.FallBack, Controller.Recover, Valid, Controller.SoftCeiling;
  }

  /** A report that neither falls back nor may climb leaves every limit alone. */
  lemma PausedReportKeepsLimits(s: Controller, path: Path, d: Delivery)
    requires Valid(s) && !ReportFallsBack(s, path, d, false)
    ensures SameLimits(s, s.Observe(path, d, false).state)
  {
    hide Controller.Observed, Controller.Respond, FallsBack;
    if d.intervalMicros > 0 {
      MeasuredIsSame(s, path, d);
      ObserveResponds(s, path, d, false);
      UnansweredKeepsLimits(Measured(s, path, d), s.Account(d).SignalsOf(path, s.previousDelivery, d, false));
    }
  }

  lemma GivenUpKeepsLimits(s: Controller)
    ensures var t := s.GiveUpProbe();
      t.failedProbeTargets == s.failedProbeTargets && t.provisionalCeiling == s.provisionalCeiling
  {
  }

  lemma AbandonKeepsLimits(s: Controller)
    ensures var t := s.AbandonReturn();
      t.failedProbeTargets == s.failedProbeTargets && t.provisionalCeiling == s.provisionalCeiling
  {
  }

  lemma LatencyCutKeepsDeliveryLimit(s: Controller, bits: U64, cooldown: U64)
    ensures var t := s.SetLatencyTarget(bits, cooldown).state;
      t.DeliveryCeiling() == s.DeliveryCeiling() && t.recoveryCooldown == cooldown
  {
    hide Percentage, Sum, Controller.Bounded, Controller.GiveUpProbe, Controller.AbandonReturn;
    GivenUpKeepsLimits(s);
    AbandonKeepsLimits(s.GiveUpProbe().(recoveryCooldown := RECOVERY_COOLDOWN));
  }

  /** What the delivery side of a cut does: the delivery limit falls exactly when its signals make the controller fall
      back with a probe still open on a target whose failure would lower it. */
  ghost predicate DeliveryPromise(s: Controller, path: Path, d: Delivery, allowIncrease: bool, t: Controller) {
    Lowered(s.DeliveryCeiling(), t.DeliveryCeiling()) <==>
      ReportFallsBack(s, path, d, allowIncrease) && s.activeProbe.Some? && FailureWouldLower(s)
  }

  lemma HeldDeliveryKeepsPromise(s: Controller, path: Path, d: Delivery, allowIncrease: bool)
    requires Valid(s) && AddU64(s.targetHeld, d.intervalMicros) >= PROVEN_HOLD
    requires var change := s.Observe(path, d, allowIncrease).change;
      allowIncrease ==> change.Some? && change.value.reason == Congestion
    ensures var o := s.Observe(path, d, allowIncrease);
      && DeliveryPromise(s, path, d, allowIncrease, o.state)
      && (o.change.Some? && o.change.value.reason == Congestion ==> o.state.recoveryCooldown == RECOVERY_COOLDOWN)
  {
    hide Controller.Observe, ReportFallsBack, FailureWouldLower, Controller.DeliveryCeiling;
    ReportCutsIff(s, path, d, allowIncrease);
    if ReportFallsBack(s, path, d, allowIncrease) {
      HeldReportLowersLimitIff(s, path, d, allowIncrease);
    } else {
      PausedReportKeepsLimits(s, path, d);
      SameLimitsSameCeiling(s, s.Observe(path, d, allowIncrease).state);
    }
  }

  lemma ReducedKeepsPromise(s: Controller, o: Outcome, reduceTo: Option<U64>, cooldown: U64)
    ensures var r := o.AlsoReduce(reduceTo, cooldown);
      && r.state.DeliveryCeiling() == o.state.DeliveryCeiling()
      && (reduceTo.Some? ==> r.state.recoveryCooldown == cooldown)
      && (reduceTo.None? ==> r == o)
  {
    if reduceTo.Some? {
      LatencyCutKeepsDeliveryLimit(o.state, if reduceTo.value <= o.state.target then reduceTo.value else o.state.target,
                                   cooldown);
    }
  }

  /** A cut of a proven hold leaves the latency limit and its delay before the next try as they were. */
  lemma HeldLatencyKeepsLimit(p: Policy, report: Option<LatencyReport>, now: nat)
    requires p.latency.Some? && Since(now, p.latency.value.changedAt) >= PROVEN_HOLD_NANOS
    ensures var (observed, evaluation) := p.Evaluate(report, now);
      && !Lowered(p.latency.value.ceiling, p.KnownLimits(observed).ceiling)
      && (evaluation.reduceTo.Some? ==>
          p.KnownLimits(observed).RetryDelayMicros() == p.latency.value.RetryDelayMicros())
  {
    EvaluationIsAnAnswer(p, report, now);
    Cuts.EventLimit(p.latency.value, Seen(p, report, now));
    if p.Evaluate(report, now).1.reduceTo.Some? {
      HeldCutKeepsDelay(p.latency.value, Seen(p, report, now));
    }
  }

  lemma HeldCutKeepsDelay(s: Latency, e: LatencyRuns.Event)
    requires e.Reported? && Since(e.now, s.changedAt) >= PROVEN_HOLD_NANOS && LatencyRuns.Answer(s, e).reduceTo.Some?
    ensures LatencyRuns.Step(s, e).retrySeconds == s.retrySeconds
  {
    hide ReadChannel, Latency.VerdictOf, Latency.Readings;
  }

  /** A report that cuts a bitrate held for a minute never lowers the latency limit. It lowers the delivery limit
      exactly when delivery falls back with a probe still open whose failure would lower that limit. The wait for
      the next rise is the ordinary one after a delivery cut, and after a latency cut the delay that past
      incidents left behind. */
  lemma HeldCutKeepsPromise(p: Policy, path: Path, d: Delivery, report: Option<LatencyReport>, now: nat)
    requires Valid(p.bitrate) && p.latency.Some? && HeldForAMinute(p, d, now)
    requires var answer := p.ObserveReceiverWithLatency(path, d, report, now).answer;
      answer.Continue? && answer.change.Some? && answer.change.value.reason == Congestion
    ensures var q := p.ObserveReceiverWithLatency(path, d, report, now).policy;
      var evaluation := p.Evaluate(report, now).1;
      && q.latency.Some? && !Lowered(p.latency.value.ceiling, q.latency.value.ceiling)
      && DeliveryPromise(p.bitrate, path, d, evaluation.allowIncrease, q.bitrate)
      && q.bitrate.recoveryCooldown ==
           (if evaluation.reduceTo.Some? then p.latency.value.RetryDelayMicros() else RECOVERY_COOLDOWN)
  {
    hide Controller.Observe, Policy.Evaluate, Outcome.AlsoReduce, Controller.DeliveryCeiling, ReportFallsBack,
      FailureWouldLower;
    hide Latency.RetryDelayMicros, DeliveryPromise, Lowered, Policy.KnownLimits;
    var (observed, evaluation) := p.Evaluate(report, now);
    var limits := p.KnownLimits(observed);
    var s := Asked(p, observed);
    var o := s.Observe(path, d, evaluation.allowIncrease);
    HeldShape(p, path, d, report, now);
    HeldLatencyKeepsLimit(p, report, now);
    ReducedKeepsPromise(s, o, evaluation.reduceTo, limits.RetryDelayMicros());
    if evaluation.reduceTo.Some? {
      ReductionsAreReal(p, report, now);
    }
    assert Valid(s) && s.targetHeld == p.bitrate.targetHeld by { AskedIsSame(p, observed); }
    HeldDeliveryKeepsPromise(s, path, d, evaluation.allowIncrease);
    AskedPromise(p, observed, path, d, evaluation.allowIncrease, o.state);
    AskedPromise(p, observed, path, d, evaluation.allowIncrease,
                 o.AlsoReduce(evaluation.reduceTo, limits.RetryDelayMicros()).state);
    SameCeilingSamePromise(s, path, d, evaluation.allowIncrease, o.state,
                           o.AlsoReduce(evaluation.reduceTo, limits.RetryDelayMicros()).state);
  }

  lemma AskedIsSame(p: Policy, observed: Latency)
    requires Valid(p.bitrate)
    ensures Valid(Asked(p, observed)) && Asked(p, observed).targetHeld == p.bitrate.targetHeld
  {
  }

  lemma SameCeilingSamePromise(s: Controller, path: Path, d: Delivery, allowIncrease: bool, t: Controller,
                               u: Controller)
    requires t.DeliveryCeiling() == u.DeliveryCeiling()
    ensures DeliveryPromise(s, path, d, allowIncrease, t) <==> DeliveryPromise(s, path, d, allowIncrease, u)
  {
    hide Controller.DeliveryCeiling, ReportFallsBack, FailureWouldLower;
  }

  /** The latency limit plays no part in the delivery promise. */
  lemma AskedPromise(p: Policy, observed: Latency, path: Path, d: Delivery, allowIncrease: bool, t: Controller)
    ensures DeliveryPromise(Asked(p, observed), path, d, allowIncrease, t) <==>
      DeliveryPromise(p.bitrate, path, d, allowIncrease, t)
  {
    AskedFallsBack(p.bitrate, p.KnownLimits(observed).ceiling, path, d, allowIncrease);
  }

  lemma AskedFallsBack(s: Controller, ceiling: Option<U64>, path: Path, d: Delivery, allowIncrease: bool)
    ensures var t := s.ConfigureLatencyCeiling(ceiling);
      && (ReportFallsBack(t, path, d, allowIncrease) <==> ReportFallsBack(s, path, d, allowIncrease))
      && (FailureWouldLower(t) <==> FailureWouldLower(s)) && t.DeliveryCeiling() == s.DeliveryCeiling()
  {
    hide Measured, Controller.SignalsOf, Controller.Account;
    AskedMeasures(s, ceiling, path, d);
    AskedSignals(s, ceiling, path, d, allowIncrease);
  }

  lemma AskedMeasures(s: Controller, ceiling: Option<U64>, path: Path, d: Delivery)
    ensures Measured(s.ConfigureLatencyCeiling(ceiling), path, d)
      == Measured(s, path, d).ConfigureLatencyCeiling(ceiling)
  {
  }

  lemma AskedSignals(s: Controller, ceiling: Option<U64>, path: Path, d: Delivery, allowIncrease: bool)
    ensures var t := s.ConfigureLatencyCeiling(ceiling);
      t.Account(d).SignalsOf(path, t.previousDelivery, d, allowIncrease)
        == s.Account(d).SignalsOf(path, s.previousDelivery, d, allowIncrease)
  {
  }

  lemma HeldShape(p: Policy, path: Path, d: Delivery, report: Option<LatencyReport>, now: nat)
    requires p.latency.Some? && p.Evaluate(report, now).1.failure.None?
    ensures var (observed, evaluation) := p.Evaluate(report, now);
      var limits := p.KnownLimits(observed);
      var o := Asked(p, observed).Observe(path, d, evaluation.allowIncrease).AlsoReduce(evaluation.reduceTo,
        limits.RetryDelayMicros());
      var r := p.ObserveReceiverWithLatency(path, d, report, now);
      && r.policy.bitrate == o.state && r.answer == Continue(o.change) && r.policy.source == p.source.TakeExcess().0
      && r.policy.latency == Some(if o.change.Some? then limits.BitrateChanged(now) else limits)
  {
    hide Controller.Observe, Latency.Observe, Outcome.AlsoReduce;
  }

  /** So the wait is the ordinary one exactly after a delivery cut, or while the delay is the shortest. */
  lemma HeldCutWaitsOrdinarilyIff(p: Policy, path: Path, d: Delivery, report: Option<LatencyReport>, now: nat)
    requires Valid(p.bitrate) && p.latency.Some? && HeldForAMinute(p, d, now)
    requires var answer := p.ObserveReceiverWithLatency(path, d, report, now).answer;
      answer.Continue? && answer.change.Some? && answer.change.value.reason == Congestion
    ensures p.ObserveReceiverWithLatency(path, d, report, now).policy.bitrate.recoveryCooldown == RECOVERY_COOLDOWN <==>
      p.Evaluate(report, now).1.reduceTo.None? || p.latency.value.retrySeconds == 5
  {
    hide Policy.Evaluate, Policy.ObserveReceiverWithLatency;
    HeldCutKeepsPromise(p, path, d, report, now);
  }
}
