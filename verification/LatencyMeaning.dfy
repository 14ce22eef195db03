/** What a latency report means in the numbers it carries: which delays are over budget, how much of an allowance is in
    use, and when the bitrate may rise. */
module LatencyMeaning {
  import opened Numbers
  import opened LatencyModel
  import opened LatencyRuns

  /** The channel is in use and measured, and its baseline is known. */
  ghost predicate Judged(t: Latency, e: Event, c: nat) {
    c < 3 && Measures(e, c) && t.channels[c].baseline.Some?
  }

  /** The delay a channel may have: twice its baseline, or 20 ms above it if that is more, within the client's limit. */
  ghost function Allowed(baseline: U64, absolute: U64): int {
    Min(baseline + Max(baseline, 20_000), absolute)
  }

  ghost function AllowedOf(t: Latency, e: Event, c: nat): int
    requires Judged(t, e, c)
  {
    Allowed(t.channels[c].baseline.value, t.absolute)
  }

  /** Some channel in use was measured above the delay its baseline gives it. */
  ghost predicate OverBudget(t: Latency, e: Event) {
    exists c: nat :: Judged(t, e, c) && DelayOf(e, c) > AllowedOf(t, e, c)
  }

  /** Every channel in use was measured and has a baseline. */
  ghost predicate Understood(t: Latency, e: Event)
    requires e.Reported? && e.report.Some?
  {
    && Judged(t, e, 0)
    && (e.report.value.audioActive ==> Judged(t, e, 1))
    && (e.report.value.inputActive ==> Judged(t, e, 2))
  }

  /** The report is settled and over budget. */
  ghost predicate BadReport(s: Latency, e: Event, t: Latency) {
    SettledReport(s.changedAt, e) && OverBudget(t, e)
  }

  /** The report is settled, measures every channel in use, and none of them is over its budget. */
  ghost predicate GoodReport(s: Latency, e: Event, t: Latency) {
    SettledReport(s.changedAt, e) && Understood(t, e) && !OverBudget(t, e)
  }

  /** The delay takes up this share of the way from the baseline to what is allowed; of all that is allowed, when the
      client's limit is no higher than the baseline. */
  ghost predicate Uses(delay: U64, baseline: U64, absolute: U64, share: real) {
    var allowed := Allowed(baseline, absolute);
    if allowed > baseline then share * (allowed - baseline) as real == Max(delay - baseline, 0) as real
    else share * Max(allowed, 1) as real == delay as real
  }

  /** The delay takes up less than half of it. */
  ghost predicate HalfFree(delay: U64, baseline: U64, absolute: U64) {
    var allowed := Allowed(baseline, absolute);
    if allowed > baseline then 2 * (delay - baseline) < allowed - baseline else 2 * delay < Max(allowed, 1)
  }

  /** The largest share any channel takes up. */
  ghost predicate Highest(t: Latency, e: Event, share: real) {
    && share >= 0.0
    && (share > 0.0 ==> exists c: nat :: Judged(t, e, c) &&
                          Uses(DelayOf(e, c), t.channels[c].baseline.value, t.absolute, share))
    && (forall c: nat, other: real :: Judged(t, e, c) &&
                                      Uses(DelayOf(e, c), t.channels[c].baseline.value, t.absolute, other) ==>
          other <= share)
  }

  lemma ProductsDecide(whole: real, x: real, y: real)
    requires whole > 0.0
    ensures x * whole == y * whole <==> x == y
    ensures x * whole < y * whole <==> x < y
  {
    if x < y {
      assert (y - x) * whole > 0.0;
    } else if y < x {
      assert (x - y) * whole > 0.0;
    }
  }

  lemma ShareOf(part: nat, whole: nat, share: real)
    requires whole > 0
    ensures share * whole as real == part as real <==> share == part as real / whole as real
    ensures part as real / whole as real >= 0.0
    ensures part as real / whole as real < 0.5 <==> 2 * part < whole
  {
    var q := part as real / whole as real;
    assert q * whole as real == part as real;
    ProductsDecide(whole as real, share, q);
    ProductsDecide(whole as real, q, 0.5);
    ProductsDecide(whole as real, q, 0.0);
    assert 0.0 * whole as real == 0.0;
  }

  /** A share is the quotient of these. */
  ghost predicate Parts(delay: U64, baseline: U64, allowed: int, part: nat, whole: nat) {
    && whole > 0
    && if allowed > baseline then part == Max(delay - baseline, 0) && whole == allowed - baseline
       else part == delay && whole == Max(allowed, 1)
  }

  lemma PressureDivides(delay: U64, baseline: U64, absolute: U64, part: nat, whole: nat)
    requires Parts(delay, baseline, Allowed(baseline, absolute), part, whole)
    ensures DelayBudget(baseline, absolute) == Allowed(baseline, absolute)
    ensures Pressure(delay, baseline, DelayBudget(baseline, absolute)) == part as real / whole as real
  {
  }

  lemma UsesMultiplies(delay: U64, baseline: U64, absolute: U64, part: nat, whole: nat, share: real)
    requires Parts(delay, baseline, Allowed(baseline, absolute), part, whole)
    ensures Uses(delay, baseline, absolute, share) <==> share * whole as real == part as real
    ensures HalfFree(delay, baseline, absolute) <==> 2 * part < whole
  {
  }

  lemma PressureMeans(delay: U64, baseline: U64, absolute: U64, share: real)
    ensures DelayBudget(baseline, absolute) == Allowed(baseline, absolute)
    ensures Uses(delay, baseline, absolute, share) <==>
      share == Pressure(delay, baseline, DelayBudget(baseline, absolute))
    ensures share == Pressure(delay, baseline, DelayBudget(baseline, absolute)) ==>
      share >= 0.0 && (share < 0.5 <==> HalfFree(delay, baseline, absolute))
  {
    var allowed := Allowed(baseline, absolute);
    var part: nat := if allowed > baseline then Max(delay - baseline, 0) else delay;
    var whole: nat := if allowed > baseline then allowed - baseline else Max(allowed, 1);
    PressureDivides(delay, baseline, absolute, part, whole);
    UsesMultiplies(delay, baseline, absolute, part, whole, share);
    hide Allowed, DelayBudget, Pressure, Uses, HalfFree, Parts;
    ShareOf(part, whole, share);
  }

  /** The channel's timer has run for five seconds. */
  ghost predicate TimedOut(t: Latency, e: Event, c: nat) {
    Judged(t, e, c) && t.channels[c].excessiveSince.Some?
      && Since(e.now, t.channels[c].excessiveSince.value) >= 5_000_000_000
  }

  /** The failure gives the numbers of the channel it names, the first that timed out. */
  ghost predicate FailureMeans(t: Latency, e: Event, f: Failure) {
    && 1 <= f.channel <= 3 && TimedOut(t, e, f.channel - 1)
    && (forall c: nat :: c < f.channel - 1 ==> !TimedOut(t, e, c))
    && var value := MeasurementOf(e.report.value, f.channel - 1).value;
       f == Failure(f.channel, DelayOf(e, f.channel - 1), AllowedOf(t, e, f.channel - 1), t.absolute,
                    t.channels[f.channel - 1].baseline.value, value.estimated || value.uncertainty > 0)
  }

  /** What is said of one channel. */
  lemma ReadingMeans(c: nat, channel: Channel, active: bool, value: Option<Measurement>, at: Setting)
    ensures var r := ReadChannel(c, channel, active, value, at);
      var judged := active && value.Some? && value.value.Valid() && r.channel.baseline.Some?;
      && (r.ready <==> active ==> judged)
      && (!judged ==> !r.excessive && r.pressure == 0.0 && r.failure.None?)
      && (judged ==>
            var delay, baseline := value.value.Typical(), r.channel.baseline.value;
            && (r.excessive <==> delay > Allowed(baseline, at.absolute))
            && Uses(delay, baseline, at.absolute, r.pressure) && r.pressure >= 0.0
            && (forall share :: Uses(delay, baseline, at.absolute, share) ==> share == r.pressure)
            && (r.failure.Some? <==>
                  r.channel.excessiveSince.Some? && Since(at.now, r.channel.excessiveSince.value) >= 5_000_000_000)
            && (r.failure.Some? ==>
                  r.failure.value == Failure(c + 1, delay, Allowed(baseline, at.absolute), at.absolute, baseline,
                                             value.value.estimated || value.value.uncertainty > 0)))
  {
    var r := ReadChannel(c, channel, active, value, at);
    if active && value.Some? && value.value.Valid() && r.channel.baseline.Some? {
      var delay, baseline := value.value.Typical(), r.channel.baseline.value;
      PressureMeans(delay, baseline, at.absolute, r.pressure);
      forall share
        ensures Uses(delay, baseline, at.absolute, share) ==> share == r.pressure
      {
        PressureMeans(delay, baseline, at.absolute, share);
      }
    }
    hide Uses, Pressure, Channel.Calibrate;
  }

  /** What is said of one channel of a report. */
  ghost predicate Said(t: Latency, e: Event, c: nat, r: Reading)
    requires c < 3 && e.Reported? && e.report.Some?
  {
    && (r.ready <==> e.report.value.Active(c) ==> Judged(t, e, c))
    && (!Judged(t, e, c) ==> !r.excessive && r.pressure == 0.0 && r.failure.None?)
    && (Judged(t, e, c) ==>
          && (r.excessive <==> DelayOf(e, c) > AllowedOf(t, e, c))
          && Uses(DelayOf(e, c), t.channels[c].baseline.value, t.absolute, r.pressure) && r.pressure >= 0.0
          && (forall share :: Uses(DelayOf(e, c), t.channels[c].baseline.value, t.absolute, share) ==>
                share == r.pressure)
          && (r.failure.Some? <==> TimedOut(t, e, c))
          && (r.failure.Some? ==>
                var value := MeasurementOf(e.report.value, c).value;
                r.failure.value == Failure(c + 1, DelayOf(e, c), AllowedOf(t, e, c), t.absolute,
                                           t.channels[c].baseline.value, value.estimated || value.uncertainty > 0)))
  }

  lemma SaysOfChannel(s: Latency, report: LatencyReport, bitrate: U64, now: nat, c: nat)
    requires c < 3
    ensures Said(s.ReadAll(report, bitrate, now), Reported(Some(report), bitrate, now), c,
                 s.Readings(report, bitrate, now)[c])
  {
    hide Uses, Allowed, ReadChannel;
    ReadingMeans(c, s.channels[c], report.Active(c), report.Value(c),
                 Setting(s.Settled(report, bitrate, now), bitrate, s.absolute, now));
  }

  /** What is said of a whole report. */
  lemma VerdictMeans(s: Latency, report: LatencyReport, bitrate: U64, now: nat, t: Latency, e: Event)
    requires t == s.ReadAll(report, bitrate, now) && e == Reported(Some(report), bitrate, now)
    ensures var v := s.VerdictOf(report, bitrate, now);
      && (v.excessive <==> OverBudget(t, e))
      && (v.ready <==> s.Settled(report, bitrate, now) && Understood(t, e))
      && Highest(t, e, v.pressure)
      && (v.failure.Some? <==> exists c: nat :: TimedOut(t, e, c))
      && (v.failure.Some? ==> FailureMeans(t, e, v.failure.value))
  {
    hide Uses, Allowed, ReadChannel, Judged, DelayOf, AllowedOf, Latency.ReadAll, Latency.Readings, Latency.Settled;
    var r := s.Readings(report, bitrate, now);
    TogetherOfThree(Verdict(s.Settled(report, bitrate, now), 0.0, false, None), r);
    SaysOfChannel(s, report, bitrate, now, 0);
    SaysOfChannel(s, report, bitrate, now, 1);
    SaysOfChannel(s, report, bitrate, now, 2);
    JoinMeans(t, e, r, s.Settled(report, bitrate, now));
  }

  lemma JoinMeans(t: Latency, e: Event, r: seq<Reading>, settled: bool)
    requires |r| == 3 && e.Reported? && e.report.Some?
    requires Said(t, e, 0, r[0]) && Said(t, e, 1, r[1]) && Said(t, e, 2, r[2])
    ensures var v := Join(Join(Join(Verdict(settled, 0.0, false, None), r[0]), r[1]), r[2]);
      && (v.excessive <==> OverBudget(t, e))
      && (v.ready <==> settled && Understood(t, e))
      && Highest(t, e, v.pressure)
      && (v.failure.Some? <==> exists c: nat :: TimedOut(t, e, c))
      && (v.failure.Some? ==> FailureMeans(t, e, v.failure.value))
  {
    hide Uses, Allowed, DelayOf, AllowedOf;
    var v := Join(Join(Join(Verdict(settled, 0.0, false, None), r[0]), r[1]), r[2]);
    assert v.excessive ==> OverBudget(t, e);
    assert Highest(t, e, v.pressure);
  }

  // The report as a whole

  /** Bad reports in a row count only if no more than two seconds apart. */
  function Carried(streak: U8, last: Option<nat>, now: nat): U8 {
    if last.Some? && Since(now, last.value) > 2_000_000_000 then 0 else streak
  }

  lemma ArriveCarries(s: Latency, report: LatencyReport, bitrate: U64, now: nat)
    ensures var r := s.Arrive(now).ReadAll(report, bitrate, now);
      && r.pressureStreak == Carried(s.pressureStreak, s.lastReportAt, now)
      && r.lastCutAt == s.lastCutAt && r.lastCutPressure == s.lastCutPressure && r.ceiling == s.ceiling
      && r.retrySeconds == s.retrySeconds
      && r.changedAt == s.changedAt && r.absolute == s.absolute
  {
    hide Latency.Readings;
  }

  lemma SettledMeans(s: Latency, e: Event)
    requires e.Reported? && e.report.Some? && e.report.value.Valid()
    ensures s.Arrive(e.now).Settled(e.report.value, e.bitrate, e.now) <==> SettledReport(s.changedAt, e)
  {
  }

  lemma SameChannelsSameBudget(r: Latency, t: Latency, e: Event, share: real)
    requires t.channels == r.channels && t.absolute == r.absolute
    ensures OverBudget(r, e) <==> OverBudget(t, e)
    ensures Highest(r, e, share) <==> Highest(t, e, share)
    ensures e.Reported? && e.report.Some? ==> (Understood(r, e) <==> Understood(t, e))
  {
    hide Uses, Allowed, DelayOf;
    assert forall c: nat :: Judged(r, e, c) <==> Judged(t, e, c);
  }

  lemma FailureKept(r: Latency, t: Latency, e: Event, f: Failure)
    requires t.channels == r.channels && t.absolute == r.absolute
    ensures forall c: nat :: TimedOut(r, e, c) <==> TimedOut(t, e, c)
    ensures FailureMeans(r, e, f) <==> FailureMeans(t, e, f)
  {
    hide Allowed, DelayOf;
  }

  lemma HighestBelowHalf(t: Latency, e: Event, share: real)
    requires Highest(t, e, share)
    ensures share < 0.5 <==> AllHalfFree(t, e)
  {
    forall c: nat | Judged(t, e, c)
      ensures share < 0.5 ==> HalfFree(DelayOf(e, c), t.channels[c].baseline.value, t.absolute)
    {
      var delay, baseline := DelayOf(e, c), t.channels[c].baseline.value;
      PressureMeans(delay, baseline, t.absolute, Pressure(delay, baseline, DelayBudget(baseline, t.absolute)));
    }
    if share >= 0.5 {
      var c: nat :| Judged(t, e, c) && Uses(DelayOf(e, c), t.channels[c].baseline.value, t.absolute, share);
      PressureMeans(DelayOf(e, c), t.channels[c].baseline.value, t.absolute, share);
    }
    hide Uses, HalfFree, DelayOf, Pressure, DelayBudget;
  }

  /** Every channel takes up less than half of its allowance. */
  ghost predicate AllHalfFree(t: Latency, e: Event) {
    forall c: nat :: Judged(t, e, c) ==> HalfFree(DelayOf(e, c), t.channels[c].baseline.value, t.absolute)
  }

  /** The bitrate may rise exactly on a good report that finds less than half of every allowance taken up, and the
      session ends exactly when a channel's timer has run out. */
  ghost predicate AnswerMeans(s: Latency, e: Event, t: Latency, answer: Evaluation) {
    && (answer.allowIncrease <==> GoodReport(s, e, t) && AllHalfFree(t, e))
    && (answer.failure.Some? <==>
          e.Reported? && e.report.Some? && e.report.value.Valid() && exists c: nat :: TimedOut(t, e, c))
    && (answer.failure.Some? ==> FailureMeans(t, e, answer.failure.value))
  }

  lemma EventMeans(s: Latency, e: Event)
    ensures AnswerMeans(s, e, Step(s, e), Answer(s, e))
  {
    if e.Reported? && e.report.Some? && e.report.value.Valid() {
      hide Latency.Decide, Latency.ReadAll, Latency.VerdictOf, Latency.Settled, Understood, OverBudget, Highest;
      hide TimedOut, FailureMeans, AllHalfFree;
      var a := s.Arrive(e.now);
      var r := a.ReadAll(e.report.value, e.bitrate, e.now);
      var settled, v := a.Settled(e.report.value, e.bitrate, e.now), a.VerdictOf(e.report.value, e.bitrate, e.now);
      SettledMeans(s, e);
      VerdictMeans(a, e.report.value, e.bitrate, e.now, r, e);
      DecideAllows(r, settled, v, e.bitrate, e.now);
      DecideKeepsChannels(r, settled, v, e.bitrate, e.now);
      var t := r.Decide(settled, v, e.bitrate, e.now).0;
      SameChannelsSameBudget(r, t, e, v.pressure);
      HighestBelowHalf(t, e, v.pressure);
      if v.failure.Some? {
        FailureKept(r, t, e, v.failure.value);
      } else {
        FailureKept(r, t, e, Failure(0, 0, 0, 0, 0, false));
      }
    }
  }

  lemma DecideAllows(s: Latency, settled: bool, v: Verdict, bitrate: U64, now: nat)
    ensures s.Decide(settled, v, bitrate, now).1.allowIncrease <==>
      settled && !v.excessive && v.ready && v.pressure < 0.5
  {
  }

  /** In every run, the bitrate may rise exactly on a settled report that measures every channel in use, on known
      baselines, and finds less than half of every allowance taken up. */
  lemma AllowsIff(start: Latency, es: seq<Event>, e: Event)
    requires Fresh(start)
    ensures Answer(Run(start, es), e).allowIncrease <==>
      && SettledReport(ChangedAt(start, es), e)
      && var t := Run(start, es + [e]); Understood(t, e) && AllHalfFree(t, e)
  {
    hide Answer, Step, Understood, AllHalfFree, OverBudget, SettledReport, FailureMeans, TimedOut, Fresh;
    assert (es + [e])[..|es|] == es;
    RunRemembers(start, es);
    EventMeans(Run(start, es), e);
    FreeIsWithin(Run(start, es + [e]), e);
  }

  lemma FreeIsWithin(t: Latency, e: Event)
    ensures AllHalfFree(t, e) ==> !OverBudget(t, e)
  {
  }
}
