/** Once media delay is measured, the round trip of the network steers the bitrate no more. */
module VideoStreamRoundTrip {
  import opened Numbers
  import opened BitrateModel
  import opened BitrateInvariants
  import opened LatencyModel
  import opened VideoStreamModel
  import opened VideoStreamRuns
  import C = BitrateCuts

  lemma ReportKeepsMeasuring(s: Controller, path: Path, d: Delivery, allowIncrease: bool)
    ensures s.Observe(path, d, allowIncrease).state.mediaDelayMeasured == s.mediaDelayMeasured
  {
    hide Controller.Observe;
    if d.intervalMicros == 0 {
      C.EmptyReportKeeps(s, path, d, allowIncrease);
    } else {
      C.ReportIsKept(s, path, d, allowIncrease);
    }
  }

  lemma VerdictKeepsMeasuring(p: Policy, limits: Latency, verdict: Evaluation, path: Path, d: Delivery, now: nat)
    ensures p.ApplyVerdict(limits, verdict, path, d, now).policy.bitrate.mediaDelayMeasured
      == p.bitrate.mediaDelayMeasured
    ensures p.ApplyVerdict(limits, verdict, path, d, now).policy.latency.Some?
  {
    hide Controller.Observe;
    ReportKeepsMeasuring(p.bitrate.ConfigureLatencyCeiling(limits.ceiling), path, d, verdict.allowIncrease);
  }

  lemma EventKeepsMeasuring(p: Policy, e: Event)
    requires !e.LatencyEnabled?
    ensures Handle(p, e).policy.bitrate.mediaDelayMeasured == p.bitrate.mediaDelayMeasured
    ensures Handle(p, e).policy.latency.Some? == p.latency.Some?
  {
    hide Controller.Observe, Policy.Evaluate, Policy.ApplyVerdict;
    match e
    case Received(path, d) => ReportKeepsMeasuring(p.bitrate, path, d, true);
    case ReceivedWithLatency(path, d, report, now) =>
      if p.latency.None? {
        ReportKeepsMeasuring(p.bitrate, path, d, true);
      } else {
        var (observed, verdict) := p.Evaluate(report, now);
        VerdictKeepsMeasuring(p.(source := p.source.TakeExcess().0), p.KnownLimits(observed), verdict, path, d, now);
      }
    case _ =>
  }

  /** In every run, media delay is what steers exactly while latency control is on. */
  lemma {:induction false} MeasuredWhileControlled(start: Policy, es: seq<Event>)
    requires Started(start)
    ensures Run(start, es).bitrate.mediaDelayMeasured <==> Run(start, es).latency.Some?
  {
    if es != [] {
      hide Handle;
      var init, e := es[..|es| - 1], es[|es| - 1];
      MeasuredWhileControlled(start, init);
      if e.LatencyEnabled? {
        assert Handle(Run(start, init), e).policy == Run(start, init).EnableLatencyControl(e.maximumDelay, e.now);
      } else {
        EventKeepsMeasuring(Run(start, init), e);
      }
    }
  }

  /** Only the round trip may be wrong: no loss counter grew, the path carries the target, and no send was late. */
  ghost predicate OnlyRoundTrip(s: Controller, path: Path, d: Delivery) {
    && d.intervalMicros > 0 && !C.AnyLoss(s.previousDelivery, d) && !C.CarriesLess(s.minimumRoundTrip, path, s.target)
    && s.senderPressureEvents == 0
  }

  lemma NoLossIsNotSevere(before: Delivery, d: Delivery, lossBefore: bool)
    requires !C.AnyLoss(before, d)
    ensures !C.SevereLoss(before, d, lossBefore)
  {
  }

  lemma OnlyRoundTripCause(s: Controller, path: Path, d: Delivery)
    requires Valid(s) && OnlyRoundTrip(s, path, d)
    ensures C.CauseOf(s, path, d) ==
      if C.RoundTripHigh(s.minimumRoundTrip, path) && !s.mediaDelayMeasured && s.rttPressureStreak >= 1
      then Some(MildDegradation) else None
  {
    hide Valid, C.CarriesLess, C.RoundTripHigh, C.AnyLoss;
    NoLossIsNotSevere(s.previousDelivery, d, s.receiverLossBefore);
    C.NarrowForMore(s.minimumRoundTrip, path, s.target * 75 / 100, s.target);
    hide C.SevereLoss;
  }

  lemma OnlyRoundTripFalls(s: Controller, path: Path, d: Delivery, allowIncrease: bool)
    requires Valid(s) && OnlyRoundTrip(s, path, d)
    ensures s.Observe(path, d, allowIncrease).state.target < s.target <==>
      && !s.mediaDelayMeasured && C.RoundTripHigh(s.minimumRoundTrip, path) && s.rttPressureStreak >= 1
      && s.target > 1_000_000
  {
    OnlyRoundTripCause(s, path, d);
    hide C.CauseOf, C.RoundTripHigh, C.Depth, Controller.Observe, OnlyRoundTrip;
    C.ReportCutsBecause(s, path, d, allowIncrease);
    ObserveMovesOneWay(s, path, d, allowIncrease);
  }

  lemma CeilingIsNoCause(s: Controller, ceiling: Option<U64>, path: Path, d: Delivery)
    ensures OnlyRoundTrip(s.(latencyCeiling := ceiling), path, d) == OnlyRoundTrip(s, path, d)
  {
  }

  lemma ReportCutsIff(p: Policy, path: Path, d: Delivery, report: Option<LatencyReport>, now: nat)
    requires Valid(p.bitrate) && OnlyRoundTrip(p.bitrate, path, d)
    requires p.bitrate.mediaDelayMeasured <==> p.latency.Some?
    requires p.latency.Some? ==> p.Evaluate(report, now).1.reduceTo.None?
    ensures p.ObserveReceiverWithLatency(path, d, report, now).policy.bitrate.target < p.bitrate.target <==>
      && p.latency.None? && C.RoundTripHigh(p.bitrate.minimumRoundTrip, path) && p.bitrate.rttPressureStreak >= 1
      && p.bitrate.target > 1_000_000
  {
    VerdictApplies(p, path, d, report, now);
    hide OnlyRoundTrip, Valid, C.RoundTripHigh, Controller.Observe, Policy.Evaluate,
      Policy.ObserveReceiverWithLatency;
    if p.latency.None? {
      OnlyRoundTripFalls(p.bitrate, path, d, true);
    } else {
      var (observed, verdict) := p.Evaluate(report, now);
      var ceiling := if p.bitrate.returningTo.Some? then None else observed.ceiling;
      LatencyCeilingKeepsValid(p.bitrate, ceiling);
      CeilingIsNoCause(p.bitrate, ceiling, path, d);
      OnlyRoundTripFalls(p.bitrate.(latencyCeiling := ceiling), path, d, verdict.allowIncrease);
    }
  }

  /** In every run, a report with nothing else wrong, of which latency control asks nothing, lowers the bitrate exactly
      when latency control is off, the round trip is high for the second report in a row, and there is room below. */
  lemma RoundTripCutsIff(start: Policy, es: seq<Event>, path: Path, d: Delivery, report: Option<LatencyReport>,
                         now: nat)
    requires Started(start) && OnlyRoundTrip(Run(start, es).bitrate, path, d)
    requires Run(start, es).latency.Some? ==> Run(start, es).Evaluate(report, now).1.reduceTo.None?
    ensures var p := Run(start, es);
      Run(start, es + [ReceivedWithLatency(path, d, report, now)]).bitrate.target < p.bitrate.target <==>
        && p.latency.None? && C.RoundTripHigh(p.bitrate.minimumRoundTrip, path) && p.bitrate.rttPressureStreak >= 1
        && p.bitrate.target > 1_000_000
  {
    var p, e := Run(start, es), ReceivedWithLatency(path, d, report, now);
    assert (es + [e])[..|es|] == es;
    assert Run(start, es + [e]) == p.ObserveReceiverWithLatency(path, d, report, now).policy;
    hide Run, OnlyRoundTrip, Valid, C.RoundTripHigh, Policy.Evaluate, Policy.ObserveReceiverWithLatency;
    RunsStayValid(start, es);
    MeasuredWhileControlled(start, es);
    ReportCutsIff(p, path, d, report, now);
  }
}
