/** A steady link is calm: delays that stay within a narrow band, whatever they do inside it, always leave room. So the
    stream reaches its maximum on every such link, and a player that reports every half second is enough. */
module VideoStreamSteady {
  import opened Numbers
  import opened Sorting
  import opened BitrateModel
  import opened BitrateInvariants
  import opened BitrateConvergence
  import opened LatencyModel
  import opened LatencyReadiness
  import opened VideoStreamModel
  import opened VideoStreamRuns
  import opened VideoStreamConvergence
  import opened VideoStreamCalm
  import D = SourceDelay
  import LatencyRuns

  /** The delays of a channel, in microseconds. */
  datatype Band = Band(lo: U64, hi: U64)
  {
    predicate Holds(delay: U64) {
      lo <= delay <= hi
    }

    /** Twice its width is less than the least allowance above any delay of the band: 20 milliseconds or the delay
        itself, and the rest of the absolute limit. */
    predicate Narrow(absolute: U64) {
      && lo <= hi && (2 * (hi - lo) < 20_000 || 2 * (hi - lo) < lo)
      && hi + 2 * (hi - lo) < absolute
    }
  }

  /** The bands of video, audio and input. */
  type Link = bands: seq<Band> | |bands| == 3 witness [Band(0, 0), Band(0, 0), Band(0, 0)]

  function Even(band: Band): Link {
    [band, band, band]
  }

  ghost predicate NarrowLink(link: Link, absolute: U64) {
    forall c :: 0 <= c < 3 ==> link[c].Narrow(absolute)
  }

  /** Delivery is clean, the delays in use are measured and lie in their bands, less what the host added itself, and the
      player presents the bitrate in force once `lag` has passed since it changed. */
  ghost predicate SteadyReport(p: Policy, r: StreamReport, link: Link, lag: nat)
    requires p.latency.Some?
  {
    var e := Seen(p, r.latency, r.now);
    && CleanReport(p.bitrate, Report(r.path, r.delivery))
    && e.report.Some? && e.report.value.Valid()
    && (forall c :: 0 <= c < 3 && e.report.value.Active(c) ==>
          e.report.value.Value(c).Some? && link[c].Holds(e.report.value.Value(c).value.Typical()))
    && (Since(r.now, p.latency.value.changedAt) >= lag ==> r.latency.value.presentedBitrate == p.bitrate.target)
  }

  /** What a channel remembers lies in its band. */
  ghost predicate InBand(channel: Channel, band: Band) {
    && (forall i :: 0 <= i < |channel.calibration| ==> band.Holds(channel.calibration[i]))
    && (channel.baseline.Some? ==> band.Holds(channel.baseline.value))
  }

  ghost predicate Fits(s: Latency, link: Link) {
    forall c :: 0 <= c < 3 ==> InBand(s.channels[c], link[c])
  }

  lemma SecondSmallestIsOne(xs: seq<U64>)
    requires |xs| >= 2
    ensures SecondSmallest(xs) in xs
  {
    assert SecondSmallest(xs) in multiset(Sort(xs)) && multiset(Sort(xs)) == multiset(xs);
  }

  lemma CalibrateFits(channel: Channel, band: Band, delay: U64)
    requires InBand(channel, band) && band.Holds(delay)
    ensures InBand(channel.Calibrate(delay), band)
  {
    var samples := PushBounded(channel.calibration, delay, BASELINE_SAMPLES);
    if |samples| == BASELINE_SAMPLES {
      SecondSmallestIsOne(samples);
    }
  }

  /** Against any baseline in a narrow band, a delay in it uses less than half of the allowance. */
  lemma NarrowIsQuiet(band: Band, absolute: U64, baseline: U64, delay: U64)
    requires band.Narrow(absolute) && band.Holds(baseline) && band.Holds(delay)
    ensures var budget := DelayBudget(baseline, absolute);
      delay <= budget && Pressure(delay, baseline, budget) < INCREASE_PRESSURE_LIMIT
  {
    var budget := DelayBudget(baseline, absolute);
    assert 2 * (band.hi - band.lo) < budget - baseline;
    HalfOf(SubU64(delay, baseline), budget - baseline);
  }

  lemma HalfOf(part: nat, whole: nat)
    requires 2 * part < whole
    ensures part as real / whole as real < INCREASE_PRESSURE_LIMIT
  {
    assert 2.0 * part as real < whole as real;
  }

  lemma SteadyReading(c: nat, channel: Channel, band: Band, active: bool, value: Option<Measurement>, at: Setting)
    requires InBand(channel, band) && band.Narrow(at.absolute)
    requires active ==> value.Some? && value.value.Valid() && band.Holds(value.value.Typical())
    ensures var r := ReadChannel(c, channel, active, value, at); Quiet(r) && InBand(r.channel, band)
  {
    hide Channel.Calibrate, Pressure, DelayBudget;
    if active {
      var delay := value.value.Typical();
      CalibrateFits(channel, band, delay);
      var read := if at.settled then channel.Calibrate(delay) else channel;
      if read.baseline.Some? {
        NarrowIsQuiet(band, at.absolute, read.baseline.value, delay);
      }
    }
  }

  lemma ArrivedFits(s: Latency, link: Link, now: nat)
    requires Fits(s, link)
    ensures Fits(s.Arrive(now), link) && s.Arrive(now).absolute == s.absolute
  {
  }

  lemma ChangedFits(p: Policy, observed: Latency, link: Link, change: Option<Change>, now: nat)
    requires Fits(observed, link)
    ensures var limits := p.KnownLimits(observed);
      Fits(if change.Some? then limits.BitrateChanged(now) else limits, link)
  {
  }

  /** A steady report leaves room, and what the channels remember stays in their bands. */
  lemma SteadyIsCalm(p: Policy, r: StreamReport, link: Link, lag: nat)
    requires p.latency.Some? && Fits(p.latency.value, link) && NarrowLink(link, p.latency.value.absolute)
    requires SteadyReport(p, r, link, lag)
    ensures CalmReport(p, r, lag) && Fits(p.Evaluate(r.latency, r.now).0, link)
  {
    hide ReadChannel, CleanReport, Seen, InBand, Policy.Evaluate, Latency.Arrive, Latency.Decide, Latency.VerdictOf;
    var e := Seen(p, r.latency, r.now);
    assert e.Reported? && e.now == r.now by { SeenShape(p, r.latency, r.now); }
    var s, report := p.latency.value, e.report.value;
    var a := s.Arrive(e.now);
    ArrivedFits(s, link, e.now);
    var at := Setting(a.Settled(report, e.bitrate, e.now), e.bitrate, a.absolute, e.now);
    forall c | 0 <= c < 3
      ensures Quiet(a.Readings(report, e.bitrate, e.now)[c])
      ensures InBand(a.ReadAll(report, e.bitrate, e.now).channels[c], link[c])
    {
      SteadyReading(c, a.channels[c], link[c], report.Active(c), report.Value(c), at);
    }
    EvaluationIsAnAnswer(p, r.latency, r.now);
    LatencyRuns.DecideKeepsChannels(a.ReadAll(report, e.bitrate, e.now), at.settled,
                                    a.VerdictOf(report, e.bitrate, e.now), e.bitrate, e.now);
  }

  lemma SeenShape(p: Policy, report: Option<LatencyReport>, now: nat)
    ensures Seen(p, report, now).Reported? && Seen(p, report, now).now == now
  {
  }

  ghost predicate SteadyStep(p: Policy, r: StreamReport, q: Policy, link: Link, lag: nat) {
    && p.latency.Some? && SteadyReport(p, r, link, lag)
    && q == p.ObserveReceiverWithLatency(r.path, r.delivery, r.latency, r.now).policy
  }

  /** What a run on a steady link keeps. */
  ghost predicate Steady(p: Policy, link: Link) {
    Undisturbed(p) && Learning(p) && Fits(p.latency.value, link) && NarrowLink(link, p.latency.value.absolute)
  }

  lemma SteadyGoesOn(p: Policy, r: StreamReport, q: Policy, link: Link, lag: nat)
    requires Steady(p, link) && SteadyStep(p, r, q, link, lag)
    ensures CalmStep(p, r, q, lag) && Steady(q, link) && q.bitrate.maximum == p.bitrate.maximum
  {
    hide SteadyReport, CalmReport, Controller.Observe, Policy.Evaluate, Asked, Policy.ObserveReceiverWithLatency, Fits;
    hide NarrowLink, WindowsBounded, CleanStreamReport;
    SteadyIsCalm(p, r, link, lag);
    CalmStepLearns(p, r, q, lag);
    CleanStreamStepSettles(p, r, q);
    CleanStepShape(p, r, q);
    var observed := p.Evaluate(r.latency, r.now).0;
    ChangedFits(p, observed, link, Asked(p, observed).Observe(r.path, r.delivery, Allowed(p, r)).change, r.now);
    EvaluationIsAnAnswer(p, r.latency, r.now);
    LatencyRuns.StepRemembers(p.latency.value, Seen(p, r.latency, r.now));
  }

  // Endless steady runs

  ghost predicate StepsAt(run: nat -> Policy, reports: nat -> StreamReport, link: Link, lag: nat, i: nat) {
    SteadyStep(run(i), reports(i), run(i + 1), link, lag)
  }

  ghost predicate SteadyRun(run: nat -> Policy, reports: nat -> StreamReport, link: Link, lag: nat) {
    Steady(run(0), link) && forall i: nat :: StepsAt(run, reports, link, lag, i)
  }

  lemma {:induction false} SteadyRunGoesOn(run: nat -> Policy, reports: nat -> StreamReport, link: Link, lag: nat,
                                           n: nat)
    requires SteadyRun(run, reports, link, lag)
    ensures Steady(run(n), link) && CalmStep(run(n), reports(n), run(n + 1), lag)
  {
    hide SteadyStep, Steady, CalmStep;
    if n > 0 {
      SteadyRunGoesOn(run, reports, link, lag, n - 1);
      assert StepsAt(run, reports, link, lag, n - 1);
      SteadyGoesOn(run(n - 1), reports(n - 1), run(n - 1 + 1), link, lag);
    }
    assert StepsAt(run, reports, link, lag, n);
    SteadyGoesOn(run(n), reports(n), run(n + 1), link, lag);
  }

  /** On a link that loses nothing and whose delays stay in narrow bands, every policy under latency control with no
      sender pressure pending reaches the maximum for good. */
  lemma SteadyLinkConverges(run: nat -> Policy, reports: nat -> StreamReport, link: Link, lag: nat)
    returns (settled: nat)
    requires SteadyRun(run, reports, link, lag) && TimeGoesOn(reports)
    ensures forall n: nat :: run(n).bitrate.target <= run(n + 1).bitrate.target
    ensures forall n: nat :: settled <= n ==> run(n).bitrate.target == run(0).bitrate.maximum
  {
    assert Undisturbed(run(0)) && Learning(run(0));
    hide SteadyStep, CalmStep, Steady, Undisturbed, Learning, TimeGoesOn;
    forall i: nat
      ensures CalmStep(run(i), reports(i), run(i + 1), lag)
    {
      SteadyRunGoesOn(run, reports, link, lag, i);
    }
    settled := CalmLinkConverges(run, reports, lag);
  }

  // Such runs exist: video alone, reported every half second, with any delays in a narrow band

  /** A player that lost nothing, saw this delay, and presents the bitrate in force. */
  ghost function Untroubled(p: Policy, delay: U64, now: nat): StreamReport {
    StreamReport(Path(0, 0), p.bitrate.previousDelivery.(intervalMicros := 500_000),
                 Some(LatencyReport(Some(Measurement(delay, 0, false, 1, delay)), None, None, false, false,
                                    p.bitrate.target)), now)
  }

  ghost function Untroubling(start: Policy, delays: nat -> U64, at: nat, n: nat): Policy {
    if n == 0 then start
    else
      var p := Untroubling(start, delays, at, n - 1);
      var r := Untroubled(p, delays(n - 1), at + (n - 1) * HALF_SECOND);
      p.ObserveReceiverWithLatency(r.path, r.delivery, r.latency, r.now).policy
  }

  ghost predicate CanBeSteady(p: Policy, band: Band) {
    && Steady(p, Even(band)) && p.source == D.NO_DELAYS && p.bitrate.maximum <= MAX_PRESENTED_BITRATE
    && 0 < band.lo && band.hi <= MAX_MEASUREMENT
  }

  lemma UntroubledIsSteady(p: Policy, band: Band, delay: U64, now: nat, q: Policy)
    requires CanBeSteady(p, band) && band.Holds(delay)
    requires var r := Untroubled(p, delay, now);
      q == p.ObserveReceiverWithLatency(r.path, r.delivery, r.latency, r.now).policy
    ensures SteadyStep(p, Untroubled(p, delay, now), q, Even(band), 0) && q.source == D.NO_DELAYS
  {
    hide Controller.Observe, Latency.Observe, Fits, NarrowLink, Policy.ApplyVerdict;
    var r := Untroubled(p, delay, now);
    var e := Seen(p, r.latency, now);
    assert e == LatencyRuns.Reported(r.latency, p.bitrate.target, now) && r.latency.value.Valid();
    assert CleanReport(p.bitrate, Report(r.path, r.delivery));
    SourceStays(p, r.path, r.delivery, r.latency, now);
  }

  lemma SourceStays(p: Policy, path: Path, d: Delivery, report: Option<LatencyReport>, now: nat)
    requires p.source == D.NO_DELAYS
    ensures p.ObserveReceiverWithLatency(path, d, report, now).policy.source == D.NO_DELAYS
  {
    hide Controller.Observe, Latency.Observe, Outcome.AlsoReduce;
  }

  lemma {:induction false} UntroublingGoesOn(start: Policy, band: Band, delays: nat -> U64, at: nat, n: nat)
    requires CanBeSteady(start, band) && forall i: nat :: band.Holds(delays(i))
    ensures var p := Untroubling(start, delays, at, n);
      && CanBeSteady(p, band)
      && SteadyStep(p, Untroubled(p, delays(n), at + n * HALF_SECOND), Untroubling(start, delays, at, n + 1),
                    Even(band), 0)
  {
    hide SteadyStep, Steady, Untroubled, Policy.ObserveReceiverWithLatency, Band.Holds;
    var p := Untroubling(start, delays, at, n);
    if n > 0 {
      UntroublingGoesOn(start, band, delays, at, n - 1);
      var before := Untroubling(start, delays, at, n - 1);
      var now := at + (n - 1) * HALF_SECOND;
      UntroubledIsSteady(before, band, delays(n - 1), now, p);
      SteadyGoesOn(before, Untroubled(before, delays(n - 1), now), p, Even(band), 0);
    }
    UntroubledIsSteady(p, band, delays(n), at + n * HALF_SECOND, Untroubling(start, delays, at, n + 1));
  }

  lemma HalfSecondsGoOn(reports: nat -> StreamReport, at: nat)
    requires forall i: nat :: reports(i).now == at + i * HALF_SECOND
    ensures TimeGoesOn(reports)
  {
    forall t: nat
      ensures Reaches(reports, t)
    {
      assert reports(t).now >= t;
    }
  }

  lemma UntroubledNow(p: Policy, delay: U64, now: nat)
    ensures Untroubled(p, delay, now).now == now
  {
  }

  lemma SteadyFrom(p: Policy, band: Band)
    requires CanBeSteady(p, band)
    ensures Steady(p, Even(band))
  {
  }

  ghost function UntroublingRun(start: Policy, delays: nat -> U64, at: nat): nat -> Policy {
    (n: nat) => Untroubling(start, delays, at, n)
  }

  ghost function UntroubledReports(start: Policy, delays: nat -> U64, at: nat): nat -> StreamReport {
    (n: nat) => Untroubled(Untroubling(start, delays, at, n), delays(n), at + n * HALF_SECOND)
  }

  lemma UntroublingRunAt(start: Policy, band: Band, delays: nat -> U64, at: nat, n: nat)
    requires CanBeSteady(start, band) && forall i: nat :: band.Holds(delays(i))
    ensures UntroublingRun(start, delays, at)(n) == Untroubling(start, delays, at, n)
    ensures UntroubledReports(start, delays, at)(n).now == at + n * HALF_SECOND
    ensures StepsAt(UntroublingRun(start, delays, at), UntroubledReports(start, delays, at), Even(band), 0, n)
  {
    hide SteadyStep, CanBeSteady, Untroubled, Untroubling, Band.Holds;
    UntroublingGoesOn(start, band, delays, at, n);
    UntroubledNow(Untroubling(start, delays, at, n), delays(n), at + n * HALF_SECOND);
  }

  lemma UntroublingIsSteadyRun(start: Policy, band: Band, delays: nat -> U64, at: nat)
    requires CanBeSteady(start, band) && forall i: nat :: band.Holds(delays(i))
    ensures UntroublingRun(start, delays, at)(0) == start && TimeGoesOn(UntroubledReports(start, delays, at))
    ensures SteadyRun(UntroublingRun(start, delays, at), UntroubledReports(start, delays, at), Even(band), 0)
  {
    assert Untroubling(start, delays, at, 0) == start;
    hide UntroublingRun, UntroubledReports, StepsAt, CanBeSteady, Untroubling, TimeGoesOn, Steady, Band.Holds;
    SteadyFrom(start, band);
    UntroublingRunAt(start, band, delays, at, 0);
    forall i: nat
      ensures StepsAt(UntroublingRun(start, delays, at), UntroubledReports(start, delays, at), Even(band), 0, i)
      ensures UntroubledReports(start, delays, at)(i).now == at + i * HALF_SECOND
    {
      UntroublingRunAt(start, band, delays, at, i);
    }
    HalfSecondsGoOn(UntroubledReports(start, delays, at), at);
  }

  /** A player that reports every half second, with no loss and any delays in a narrow band, gets
      the maximum for good. */
  lemma HalfSecondReportsConverge(start: Policy, band: Band, delays: nat -> U64, at: nat) returns (settled: nat)
    requires CanBeSteady(start, band) && forall i: nat :: band.Holds(delays(i))
    ensures forall n: nat :: settled <= n ==> Untroubling(start, delays, at, n).bitrate.target == start.bitrate.maximum
  {
    hide UntroublingRun, UntroubledReports, SteadyRun, CanBeSteady, Untroubling, TimeGoesOn, Band.Holds;
    UntroublingIsSteadyRun(start, band, delays, at);
    settled := SteadyLinkConverges(UntroublingRun(start, delays, at), UntroubledReports(start, delays, at),
                                   Even(band), 0);
    forall n: nat | settled <= n
      ensures Untroubling(start, delays, at, n).bitrate.target == start.bitrate.maximum
    {
      UntroublingRunAt(start, band, delays, at, n);
    }
  }

  /** Every session starts so, for any band that is narrow under the limit with which latency control is turned on. */
  lemma FreshPolicyCanBeSteady(maximum: U64, measured: Option<U64>, band: Band, absolute: U64, now: nat)
    requires band.Narrow(absolute) && 0 < band.lo && band.hi <= MAX_MEASUREMENT && maximum <= MAX_PRESENTED_BITRATE
    ensures var start := if measured.Some? then ProbedPolicy(maximum, measured.value) else NewPolicy(maximum);
      CanBeSteady(start.EnableLatencyControl(absolute, now), band)
  {
    NewValid(maximum);
    if measured.Some? {
      FromStartupProbeValid(maximum, measured.value);
    }
  }
}
