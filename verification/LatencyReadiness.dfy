/** When the latency policy lets the bitrate rise: on a link with room it refuses only until it has settled and knows
    the baselines, and both come to an end. */
module LatencyReadiness {
  import opened Numbers
  import opened LatencyModel
  import opened LatencyRuns
  import opened LatencyBaselines

  /** The delays still to come before the channel has a baseline, counting the one that sets it. */
  ghost function Missing(channel: Channel): nat {
    if channel.baseline.Some? || |channel.calibration| > BASELINE_SAMPLES then 0
    else BASELINE_SAMPLES + 1 - |channel.calibration|
  }

  ghost function MissingAll(s: Latency): nat {
    Missing(s.channels[0]) + Missing(s.channels[1]) + Missing(s.channels[2])
  }

  /** No channel holds more delays than a window. */
  ghost predicate WindowsBounded(s: Latency) {
    forall c :: 0 <= c < 3 ==> |s.channels[c].calibration| <= BASELINE_SAMPLES
  }

  ghost predicate Quiet(r: Reading) {
    !r.excessive && r.pressure < INCREASE_PRESSURE_LIMIT
  }

  /** A valid report that measures every channel in use and finds less than half of each known allowance used. */
  ghost predicate Roomy(s: Latency, e: Event) {
    && e.Reported? && e.report.Some? && e.report.value.Valid()
    && (forall c :: 0 <= c < 3 && e.report.value.Active(c) ==> e.report.value.Value(c).Some?)
    && forall c :: 0 <= c < 3 ==> Quiet(s.Arrive(e.now).Readings(e.report.value, e.bitrate, e.now)[c])
  }

  lemma ReadingIsReady(c: nat, channel: Channel, active: bool, value: Option<Measurement>, at: Setting)
    requires active ==> value.Some? && value.value.Valid()
    requires Quiet(ReadChannel(c, channel, active, value, at))
    ensures var r := ReadChannel(c, channel, active, value, at);
      && r.failure.None?
      && (!r.ready ==> active && r.channel.baseline.None?)
  {
  }

  lemma QuietVerdict(start: Verdict, readings: seq<Reading>)
    requires |readings| == 3 && Quiet(readings[0]) && Quiet(readings[1]) && Quiet(readings[2])
    requires start.pressure == 0.0 && !start.excessive && start.failure.None?
    requires readings[0].failure.None? && readings[1].failure.None? && readings[2].failure.None?
    ensures var v := Together(start, readings);
      && !v.excessive && v.failure.None? && v.pressure < INCREASE_PRESSURE_LIMIT
      && (v.ready <==> start.ready && readings[0].ready && readings[1].ready && readings[2].ready)
  {
    TogetherOfThree(start, readings);
  }

  lemma CalibrateMisses(channel: Channel, delay: U64)
    requires |channel.calibration| <= BASELINE_SAMPLES
    ensures var t := channel.Calibrate(delay);
      && |t.calibration| <= BASELINE_SAMPLES
      && Missing(t) <= Missing(channel) && (t.baseline.None? ==> Missing(t) < Missing(channel))
  {
  }

  lemma EventMisses(s: Latency, e: Event, c: nat)
    requires WindowsBounded(s) && c < 3
    ensures var t := Step(s, e);
      && |t.channels[c].calibration| <= BASELINE_SAMPLES
      && Missing(t.channels[c]) <= Missing(s.channels[c])
      && (SettledReport(s.changedAt, e) && Measures(e, c) && t.channels[c].baseline.None? ==>
            Missing(t.channels[c]) < Missing(s.channels[c]))
  {
    EventCalibrates(s, e, c);
    if SettledReport(s.changedAt, e) && Measures(e, c) {
      CalibrateMisses(s.channels[c], DelayOf(e, c));
    }
  }

  lemma EventMissesAll(s: Latency, e: Event)
    requires WindowsBounded(s)
    ensures WindowsBounded(Step(s, e)) && MissingAll(Step(s, e)) <= MissingAll(s)
    ensures SettledReport(s.changedAt, e) ==>
      forall c :: 0 <= c < 3 && Measures(e, c) && Step(s, e).channels[c].baseline.None? ==>
        MissingAll(Step(s, e)) < MissingAll(s)
  {
    hide Step, Measures, SettledReport, Missing;
    EventMisses(s, e, 0);
    EventMisses(s, e, 1);
    EventMisses(s, e, 2);
  }

  /** What the readings of a roomy report amount to. */
  lemma RoomyVerdict(s: Latency, e: Event)
    requires Roomy(s, e)
    ensures var a := s.Arrive(e.now);
      var readings := a.Readings(e.report.value, e.bitrate, e.now);
      var v := a.VerdictOf(e.report.value, e.bitrate, e.now);
      && !v.excessive && v.failure.None? && v.pressure < INCREASE_PRESSURE_LIMIT
      && (forall c :: 0 <= c < 3 && !readings[c].ready ==> Measures(e, c) && readings[c].channel.baseline.None?)
      && (v.ready <==> SettledReport(s.changedAt, e) && readings[0].ready && readings[1].ready && readings[2].ready)
  {
    hide ReadChannel, Join;
    var a := s.Arrive(e.now);
    var report := e.report.value;
    var readings := a.Readings(report, e.bitrate, e.now);
    var at := Setting(a.Settled(report, e.bitrate, e.now), e.bitrate, a.absolute, e.now);
    assert a.Settled(report, e.bitrate, e.now) <==> SettledReport(s.changedAt, e);
    forall c | 0 <= c < 3
      ensures readings[c].failure.None?
      ensures !readings[c].ready ==> Measures(e, c) && readings[c].channel.baseline.None?
    {
      assert Quiet(readings[c]);
      ReadingIsReady(c, a.channels[c], report.Active(c), report.Value(c), at);
    }
    QuietVerdict(Verdict(at.settled, 0.0, false, None), readings);
  }

  /** On a roomy report the policy neither ends the session nor cuts, and refuses a rise only before it has settled or
      while baselines are missing, of which the report then supplies one delay more. */
  lemma RoomyReportAllows(s: Latency, e: Event)
    requires Roomy(s, e) && WindowsBounded(s)
    ensures Answer(s, e).failure.None? && Answer(s, e).reduceTo.None?
    ensures Answer(s, e).allowIncrease ==> SettledReport(s.changedAt, e)
    ensures WindowsBounded(Step(s, e)) && MissingAll(Step(s, e)) <= MissingAll(s)
    ensures SettledReport(s.changedAt, e) && !Answer(s, e).allowIncrease ==> MissingAll(Step(s, e)) < MissingAll(s)
  {
    hide Latency.Readings, Latency.VerdictOf, Latency.Arrive, MissingAll, Measures;
    var a := s.Arrive(e.now);
    var report := e.report.value;
    var readings := a.Readings(report, e.bitrate, e.now);
    var v := a.VerdictOf(report, e.bitrate, e.now);
    RoomyVerdict(s, e);
    EventMissesAll(s, e);
    ArrivedChangedAt(s, e);
    DecideKeepsChannels(a.ReadAll(report, e.bitrate, e.now), a.Settled(report, e.bitrate, e.now), v, e.bitrate, e.now);
    assert forall c :: 0 <= c < 3 ==> Step(s, e).channels[c] == readings[c].channel;
  }

  lemma ArrivedChangedAt(s: Latency, e: Event)
    requires e.Reported? && e.report.Some? && e.report.value.Valid()
    ensures s.Arrive(e.now).Settled(e.report.value, e.bitrate, e.now) <==> SettledReport(s.changedAt, e)
  {
  }
}
