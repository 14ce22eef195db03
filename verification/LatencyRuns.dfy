/** Whole runs of the latency policy, and why one ends a session. Statements speak of the events of a run, in any order
    and with any clock. */
module LatencyRuns {
  import opened Numbers
  import opened BitrateModel
  import opened LatencyModel

  datatype Event =
    | Reported(report: Option<LatencyReport>, bitrate: U64, now: nat)
    | Changed(now: nat)
    | Forgotten

  ghost function Step(s: Latency, e: Event): Latency {
    match e
    case Reported(report, bitrate, now) => s.Observe(report, bitrate, now).0
    case Changed(now) => s.BitrateChanged(now)
    case Forgotten => s.ForgetCeiling()
  }

  ghost function Answer(s: Latency, e: Event): Evaluation {
    if e.Reported? then s.Observe(e.report, e.bitrate, e.now).1 else NOTHING
  }

  ghost function Run(start: Latency, es: seq<Event>): Latency {
    if es == [] then start else Step(Run(start, es[..|es| - 1]), es[|es| - 1])
  }

  ghost predicate Fresh(s: Latency) {
    s == NewLatency(s.absolute, s.changedAt)
  }

  // Facts about a run that need no policy state

  /** When the bitrate last changed. */
  ghost function ChangedAt(start: Latency, es: seq<Event>): nat {
    if es == [] then start.changedAt
    else if es[|es| - 1].Changed? then es[|es| - 1].now
    else ChangedAt(start, es[..|es| - 1])
  }

  ghost function ReportedAt(es: seq<Event>): Option<nat> {
    if es == [] then None
    else if es[|es| - 1].Reported? then Some(es[|es| - 1].now)
    else ReportedAt(es[..|es| - 1])
  }

  /** Not more than a minute of delay or of doubt about it, over a sensible number of samples. */
  ghost predicate Usable(value: Measurement) {
    1 <= value.samples <= 65_536 && value.typicalDelay <= value.delay <= 60_000_000 && value.uncertainty <= 60_000_000
  }

  /** A report whose measurements are all usable, none of them of a channel it says is not in use. */
  ghost predicate UsableReport(report: LatencyReport) {
    && (report.video.Some? ==> Usable(report.video.value))
    && (report.audio.Some? ==> report.audioActive && Usable(report.audio.value))
    && (report.input.Some? ==> report.inputActive && Usable(report.input.value))
    && report.presentedBitrate <= 100_000_000
  }

  /** A report that cannot be used counts as none: it ends every row and timer, and asks for nothing. */
  lemma UnusableIsIgnored(s: Latency, e: Event)
    requires e.Reported? && (e.report.None? || !UsableReport(e.report.value))
    ensures Answer(s, e) == Evaluation(false, None, None)
    ensures var t := Step(s, e);
      && t == s.(channels := t.channels, pressureStreak := 0, lastReportAt := Some(e.now))
      && forall c :: 0 <= c < 3 ==> t.channels[c] == s.channels[c].(excessiveSince := None)
  {
  }

  /** A usable report at the bitrate in force, at least a second after that bitrate was set. */
  ghost predicate SettledReport(changedAt: nat, e: Event) {
    && e.Reported? && e.report.Some? && UsableReport(e.report.value)
    && e.report.value.presentedBitrate == e.bitrate
    && Since(e.now, changedAt) >= 1_000_000_000
  }

  /** What a report says of a channel: the video is always in use, sound and input when the report says so. */
  ghost function MeasurementOf(report: LatencyReport, c: nat): Option<Measurement> {
    match c
    case 0 => report.video
    case 1 => if report.audioActive then report.audio else None
    case _ => if report.inputActive then report.input else None
  }

  /** The report measures this channel while it is in use. */
  ghost predicate Measures(e: Event, c: nat) {
    && e.Reported? && e.report.Some?
    && MeasurementOf(e.report.value, c).Some? && MeasurementOf(e.report.value, c).value.Valid()
  }

  /** The delay of a typical frame if the report has one, and otherwise the delay it gives. */
  ghost function DelayOf(e: Event, c: nat): U64
    requires Measures(e, c)
  {
    var value := MeasurementOf(e.report.value, c).value;
    if value.typicalDelay == 0 then value.delay else value.typicalDelay
  }

  lemma StepRemembers(s: Latency, e: Event)
    ensures var t := Step(s, e);
      && t.absolute == s.absolute
      && t.changedAt == (if e.Changed? then e.now else s.changedAt)
      && t.lastReportAt == (if e.Reported? then Some(e.now) else s.lastReportAt)
  {
  }

  lemma {:induction false} RunRemembers(start: Latency, es: seq<Event>)
    requires Fresh(start)
    ensures var s := Run(start, es);
      s.absolute == start.absolute && s.changedAt == ChangedAt(start, es) && s.lastReportAt == ReportedAt(es)
  {
    if es != [] {
      RunRemembers(start, es[..|es| - 1]);
      StepRemembers(Run(start, es[..|es| - 1]), es[|es| - 1]);
    }
  }

  // Ending a session

  /** Minimum bitrate in effect, channel in use, and its delay above the client's limit. */
  ghost predicate OverLimit(absolute: U64, changedAt: nat, e: Event, c: nat) {
    SettledReport(changedAt, e) && e.bitrate == 1_000_000 && Measures(e, c) && DelayOf(e, c) > absolute
  }

  /** The event leaves the bitrate alone and, if it is a report, is over the channel's limit. */
  ghost predicate BadAt(start: Latency, es: seq<Event>, j: nat, c: nat)
    requires j < |es|
  {
    && !es[j].Changed?
    && (es[j].Reported? ==> OverLimit(start.absolute, ChangedAt(start, es[..j]), es[j], c))
  }

  /** A report, if it is one, came soon after the report before it. */
  ghost predicate FollowsAt(es: seq<Event>, j: nat)
    requires j < |es|
  {
    es[j].Reported? ==> ReportedAt(es[..j]).Some? && Since(es[j].now, ReportedAt(es[..j]).value) <= 2_000_000_000
  }

  /** Event `i` is a report, and from it on nothing but uninterrupted over-limit reports arrived for the channel. */
  ghost predicate Sustained(start: Latency, es: seq<Event>, i: nat, c: nat) {
    && i < |es| && es[i].Reported?
    && (forall j :: i <= j < |es| ==> BadAt(start, es, j, c))
    && (forall j :: i < j < |es| ==> FollowsAt(es, j))
  }

  /** A running timer always belongs to a channel whose baseline is known. */
  ghost predicate TimersHaveBaselines(s: Latency) {
    forall c :: 0 <= c < 3 ==> (s.channels[c].excessiveSince.Some? ==> s.channels[c].baseline.Some?)
  }

  lemma ReadingTimer(c: nat, channel: Channel, active: bool, value: Option<Measurement>, at: Setting)
    requires channel.excessiveSince.Some? ==> channel.baseline.Some?
    ensures var r := ReadChannel(c, channel, active, value, at);
      && (r.channel.excessiveSince.Some? ==> r.channel.baseline.Some?)
      && (channel.baseline.Some? ==> r.channel.baseline.Some?)
      && (r.channel.excessiveSince.Some? ==>
            && active && value.Some? && value.value.Valid() && at.settled
            && at.bitrate == BOOTSTRAP && value.value.Typical() > at.absolute
            && r.channel.excessiveSince.value
                 == (if channel.excessiveSince.Some? then channel.excessiveSince.value else at.now))
      && (r.failure.Some? ==> r.failure.value.channel == c + 1 && r.channel.excessiveSince.Some?
                              && Since(at.now, r.channel.excessiveSince.value) >= 5_000_000_000)
      && (&& channel.baseline.Some? && active && value.Some? && value.value.Valid() && at.settled
          && at.bitrate == BOOTSTRAP && value.value.Typical() > at.absolute ==>
            r.channel.excessiveSince.Some?
              && (Since(at.now, r.channel.excessiveSince.value) >= 5_000_000_000 ==> r.failure.Some?))
  {
  }

  lemma TogetherOfThree(start: Verdict, r: seq<Reading>)
    requires |r| == 3
    ensures Together(start, r) == Join(Join(Join(start, r[0]), r[1]), r[2])
  {
    assert r[..1][..0] == [] && r[..2][..1] == r[..1];
    assert Together(start, r[..1]) == Join(start, r[0]);
    assert Together(start, r[..2]) == Join(Join(start, r[0]), r[1]);
  }

  /** What one event does to the timer of channel `c`, and what an answer that ends the session says about it. */
  ghost predicate TimerStep(s: Latency, e: Event, t: Latency, answer: Evaluation, c: nat)
    requires c < 3
  {
    && (t.channels[c].excessiveSince.Some? ==>
          && !e.Changed?
          && (e.Forgotten? ==> t.channels[c].excessiveSince == s.channels[c].excessiveSince)
          && (e.Reported? ==>
                && OverLimit(s.absolute, s.changedAt, e, c)
                && (|| t.channels[c].excessiveSince.value == e.now
                    || (&& t.channels[c].excessiveSince == s.channels[c].excessiveSince
                        && (s.lastReportAt.Some? ==> Since(e.now, s.lastReportAt.value) <= 2_000_000_000)))))
    && (answer.failure.Some? && answer.failure.value.channel == c + 1 ==>
          e.Reported? && t.channels[c].excessiveSince.Some?
            && Since(e.now, t.channels[c].excessiveSince.value) >= 5_000_000_000)
    && (s.channels[c].baseline.Some? ==> t.channels[c].baseline.Some?)
    && (e.Forgotten? ==> t.channels[c] == s.channels[c])
    && (s.channels[c].baseline.Some? && OverLimit(s.absolute, s.changedAt, e, c) ==>
          && t.channels[c].excessiveSince.Some?
          && (t.channels[c].excessiveSince.value == e.now
              || t.channels[c].excessiveSince == s.channels[c].excessiveSince)
          && (s.channels[c].excessiveSince.Some? && s.lastReportAt.Some?
              && Since(e.now, s.lastReportAt.value) <= 2_000_000_000 ==>
                t.channels[c].excessiveSince == s.channels[c].excessiveSince)
          && (Since(e.now, t.channels[c].excessiveSince.value) >= 5_000_000_000 ==> answer.failure.Some?))
  }

  lemma ReadAllTimers(s: Latency, report: LatencyReport, bitrate: U64, now: nat, c: nat)
    requires TimersHaveBaselines(s) && c < 3
    ensures TimersHaveBaselines(s.ReadAll(report, bitrate, now))
    ensures var t := s.ReadAll(report, bitrate, now).channels[c];
      var v := s.VerdictOf(report, bitrate, now);
      && (t.excessiveSince.Some? ==>
            && report.Active(c) && report.Value(c).Some? && report.Value(c).value.Valid()
            && s.Settled(report, bitrate, now) && bitrate == BOOTSTRAP && report.Value(c).value.Typical() > s.absolute
            && t.excessiveSince.value ==
                 (if s.channels[c].excessiveSince.Some? then s.channels[c].excessiveSince.value else now))
      && (v.failure.Some? && v.failure.value.channel == c + 1 ==>
            t.excessiveSince.Some? && Since(now, t.excessiveSince.value) >= 5_000_000_000)
      && (v.failure.Some? ==> 1 <= v.failure.value.channel <= 3)
      && (s.channels[c].baseline.Some? ==> s.ReadAll(report, bitrate, now).channels[c].baseline.Some?)
      && (&& s.channels[c].baseline.Some? && report.Active(c) && report.Value(c).Some? && report.Value(c).value.Valid()
          && s.Settled(report, bitrate, now) && bitrate == BOOTSTRAP && report.Value(c).value.Typical() > s.absolute ==>
            t.excessiveSince.Some? && (Since(now, t.excessiveSince.value) >= 5_000_000_000 ==> v.failure.Some?))
  {
    var at := Setting(s.Settled(report, bitrate, now), bitrate, s.absolute, now);
    ReadingTimer(0, s.channels[0], report.Active(0), report.Value(0), at);
    ReadingTimer(1, s.channels[1], report.Active(1), report.Value(1), at);
    ReadingTimer(2, s.channels[2], report.Active(2), report.Value(2), at);
    TogetherOfThree(Verdict(at.settled, 0.0, false, None), s.Readings(report, bitrate, now));
  }

  lemma DecideKeepsChannels(s: Latency, settled: bool, v: Verdict, bitrate: U64, now: nat)
    ensures s.Decide(settled, v, bitrate, now).0.channels == s.channels
    ensures s.Decide(settled, v, bitrate, now).0.absolute == s.absolute
    ensures s.Decide(settled, v, bitrate, now).1.failure == v.failure
  {
  }

  lemma ArriveTimers(s: Latency, now: nat, c: nat)
    requires TimersHaveBaselines(s) && c < 3
    ensures var a := s.Arrive(now);
      && TimersHaveBaselines(a) && a.absolute == s.absolute && a.changedAt == s.changedAt
      && a.channels[c].baseline == s.channels[c].baseline
      && (a.channels[c].excessiveSince.Some? ==>
            a.channels[c] == s.channels[c]
              && (s.lastReportAt.Some? ==> Since(now, s.lastReportAt.value) <= 2_000_000_000))
      && (s.lastReportAt.Some? && Since(now, s.lastReportAt.value) <= 2_000_000_000 ==> a.channels[c] == s.channels[c])
  {
  }

  lemma ValidReportTimers(s: Latency, e: Event, c: nat)
    requires TimersHaveBaselines(s) && c < 3
    requires e.Reported? && e.report.Some? && e.report.value.Valid()
    ensures TimersHaveBaselines(Step(s, e)) && TimerStep(s, e, Step(s, e), Answer(s, e), c)
    ensures Answer(s, e).failure.Some? ==> 1 <= Answer(s, e).failure.value.channel <= 3
  {
    hide Latency.ReadAll, Latency.VerdictOf, Latency.Decide, Latency.Arrive;
    var a := s.Arrive(e.now);
    ArriveTimers(s, e.now, c);
    var report, bitrate, now := e.report.value, e.bitrate, e.now;
    ReadAllTimers(a, report, bitrate, now, c);
    var r, settled, v := a.ReadAll(report, bitrate, now), a.Settled(report, bitrate, now),
      a.VerdictOf(report, bitrate, now);
    DecideKeepsChannels(r, settled, v, bitrate, now);
    assert Step(s, e) == r.Decide(settled, v, bitrate, now).0;
    assert Answer(s, e) == r.Decide(settled, v, bitrate, now).1;
  }

  lemma LostReportTimers(s: Latency, e: Event, c: nat)
    requires TimersHaveBaselines(s) && c < 3
    requires e.Reported? && (e.report.None? || !e.report.value.Valid())
    ensures TimersHaveBaselines(Step(s, e)) && TimerStep(s, e, Step(s, e), Answer(s, e), c)
      && Answer(s, e).failure.None?
  {
    ArriveTimers(s, e.now, c);
    hide Latency.Arrive, Latency.ReadAll, Latency.VerdictOf, Latency.Decide;
    assert Step(s, e) == s.Arrive(e.now).ResetObservation();
  }

  lemma OtherTimers(s: Latency, e: Event, c: nat)
    requires TimersHaveBaselines(s) && c < 3 && !e.Reported?
    ensures TimersHaveBaselines(Step(s, e)) && TimerStep(s, e, Step(s, e), Answer(s, e), c)
      && Answer(s, e).failure.None?
  {
    hide Latency.Observe;
  }

  lemma EventTimers(s: Latency, e: Event, c: nat)
    requires TimersHaveBaselines(s) && c < 3
    ensures TimersHaveBaselines(Step(s, e)) && TimerStep(s, e, Step(s, e), Answer(s, e), c)
    ensures Answer(s, e).failure.Some? ==> 1 <= Answer(s, e).failure.value.channel <= 3
  {
    hide Step, Answer, TimerStep;
    if e.Reported? && e.report.Some? && e.report.value.Valid() {
      ValidReportTimers(s, e, c);
    } else if e.Reported? {
      LostReportTimers(s, e, c);
    } else {
      OtherTimers(s, e, c);
    }
  }

  lemma {:induction false} RunTimers(start: Latency, es: seq<Event>)
    requires Fresh(start)
    ensures TimersHaveBaselines(Run(start, es))
  {
    if es != [] {
      RunTimers(start, es[..|es| - 1]);
      EventTimers(Run(start, es[..|es| - 1]), es[|es| - 1], 0);
    }
  }

  lemma SustainedExtends(start: Latency, es: seq<Event>, i: nat, c: nat)
    requires |es| > 0 && i < |es| - 1 && Sustained(start, es[..|es| - 1], i, c)
    requires !es[|es| - 1].Changed?
    requires es[|es| - 1].Reported? ==>
      && OverLimit(start.absolute, ChangedAt(start, es[..|es| - 1]), es[|es| - 1], c)
      && ReportedAt(es[..|es| - 1]).Some?
      && Since(es[|es| - 1].now, ReportedAt(es[..|es| - 1]).value) <= 2_000_000_000
    ensures Sustained(start, es, i, c)
  {
    var init := es[..|es| - 1];
    forall j | i <= j < |es|
      ensures BadAt(start, es, j, c) && (i < j ==> FollowsAt(es, j))
    {
      if j < |init| {
        assert BadAt(start, init, j, c) && es[..j] == init[..j];
        assert i < j ==> FollowsAt(init, j);
      }
    }
  }

  lemma RunTimerStep(start: Latency, es: seq<Event>, e: Event, c: nat)
    requires Fresh(start) && c < 3
    ensures var s := Run(start, es);
      && TimerStep(s, e, Run(start, es + [e]), Answer(s, e), c)
      && s.absolute == start.absolute && s.changedAt == ChangedAt(start, es) && s.lastReportAt == ReportedAt(es)
    ensures Answer(Run(start, es), e).failure.Some? ==> 1 <= Answer(Run(start, es), e).failure.value.channel <= 3
  {
    assert (es + [e])[..|es|] == es;
    RunRemembers(start, es);
    RunTimers(start, es);
    EventTimers(Run(start, es), e, c);
  }

  /** A running timer was started by a report, and every event since kept it running. */
  lemma {:induction false} TimerIsSustained(start: Latency, es: seq<Event>, c: nat) returns (i: nat)
    requires Fresh(start) && c < 3 && Run(start, es).channels[c].excessiveSince.Some?
    ensures Sustained(start, es, i, c) && es[i].now == Run(start, es).channels[c].excessiveSince.value
    decreases |es|, 0
  {
    var init, e := es[..|es| - 1], es[|es| - 1];
    assert init + [e] == es;
    RunTimerStep(start, init, e, c);
    i := TimerExtends(start, init, e, c, Run(start, init), Run(start, es));
  }

  lemma {:induction false} TimerExtends(start: Latency, init: seq<Event>, e: Event, c: nat, s: Latency, t: Latency)
    returns (i: nat)
    requires Fresh(start) && c < 3 && s == Run(start, init) && t.channels[c].excessiveSince.Some?
    requires exists answer :: TimerStep(s, e, t, answer, c)
    requires s.absolute == start.absolute && s.changedAt == ChangedAt(start, init) && s.lastReportAt == ReportedAt(init)
    ensures Sustained(start, init + [e], i, c) && (init + [e])[i].now == t.channels[c].excessiveSince.value
    decreases |init|, 1
  {
    hide Run;
    var es := init + [e];
    assert es[..|init|] == init;
    if e.Reported? && t.channels[c].excessiveSince.value == e.now {
      i := |init|;
    } else {
      i := TimerIsSustained(start, init, c);
      ReportedAfter(init, i);
      SustainedExtends(start, es, i, c);
    }
  }

  lemma {:induction false} ReportedAfter(es: seq<Event>, i: nat)
    requires i < |es| && es[i].Reported?
    ensures ReportedAt(es).Some?
  {
    if i < |es| - 1 {
      ReportedAfter(es[..|es| - 1], i);
    }
  }

  /** A session ends only after at least five seconds of uninterrupted over-limit reports on the channel named. */
  lemma FailureNeedsFiveBadSeconds(start: Latency, es: seq<Event>, e: Event) returns (i: nat)
    requires Fresh(start) && Answer(Run(start, es), e).failure.Some?
    ensures var c := Answer(Run(start, es), e).failure.value.channel - 1;
      && 0 <= c < 3
      && Sustained(start, es + [e], i, c)
      && e.now - (es + [e])[i].now >= 5_000_000_000
  {
    var c := Answer(Run(start, es), e).failure.value.channel - 1;
    assert 0 <= c < 3 by { RunTimerStep(start, es, e, 0); }
    var since := Run(start, es + [e]).channels[c].excessiveSince;
    assert since.Some? && Since(e.now, since.value) >= 5_000_000_000 by { RunTimerStep(start, es, e, c); }
    i := TimerIsSustained(start, es + [e], c);
  }

  ghost predicate ClockForward(es: seq<Event>) {
    forall j, k :: 0 <= j < k < |es| && es[j].Reported? && es[k].Reported? ==> es[j].now <= es[k].now
  }

  ghost predicate TimerSince(s: Latency, c: nat, at: nat)
    requires c < 3
  {
    s.channels[c].baseline.Some? && s.channels[c].excessiveSince.Some? && s.channels[c].excessiveSince.value <= at
  }

  /** Uninterrupted over-limit reports keep the timer running from the first of them, or from earlier. */
  lemma {:induction false} SustainedKeepsTimer(start: Latency, es: seq<Event>, i: nat, c: nat)
    requires Fresh(start) && c < 3 && ClockForward(es) && Sustained(start, es, i, c)
    requires Run(start, es[..i]).channels[c].baseline.Some?
    ensures TimerSince(Run(start, es), c, es[i].now)
    decreases |es|, 0
  {
    var init, e := es[..|es| - 1], es[|es| - 1];
    assert init + [e] == es;
    var s, t := Run(start, init), Run(start, es);
    assert TimerStep(s, e, t, Answer(s, e), c)
      && s.absolute == start.absolute && s.changedAt == ChangedAt(start, init)
      && s.lastReportAt == ReportedAt(init) by {
      RunTimerStep(start, init, e, c);
    }
    TimerKeeps(start, init, e, i, c, s, t);
  }

  lemma {:induction false} TimerKeeps(start: Latency, init: seq<Event>, e: Event, i: nat, c: nat, s: Latency,
                                      t: Latency)
    requires Fresh(start) && c < 3 && ClockForward(init + [e]) && Sustained(start, init + [e], i, c)
    requires Run(start, (init + [e])[..i]).channels[c].baseline.Some? && s == Run(start, init)
    requires exists answer :: TimerStep(s, e, t, answer, c)
    requires s.absolute == start.absolute && s.changedAt == ChangedAt(start, init) && s.lastReportAt == ReportedAt(init)
    ensures TimerSince(t, c, (init + [e])[i].now)
    decreases |init|, 1
  {
    var es := init + [e];
    assert es[..|init|] == init && BadAt(start, es, |init|, c);
    if i == |init| {
      TimerNotAfter(start, init, e, c);
    } else {
      assert TimerSince(s, c, es[i].now) by {
        SustainedShrinks(start, es, i, c);
        assert init[..i] == es[..i] && init[i] == es[i];
        SustainedKeepsTimer(start, init, i, c);
      }
      assert FollowsAt(es, |init|);
    }
  }

  lemma SustainedShrinks(start: Latency, es: seq<Event>, i: nat, c: nat)
    requires i < |es| - 1 && Sustained(start, es, i, c)
    ensures Sustained(start, es[..|es| - 1], i, c)
  {
    var init := es[..|es| - 1];
    forall j | i <= j < |init|
      ensures BadAt(start, init, j, c) && (i < j ==> FollowsAt(init, j))
    {
      assert BadAt(start, es, j, c) && es[..j] == init[..j];
      assert i < j ==> FollowsAt(es, j);
    }
  }

  lemma TimerNotAfter(start: Latency, init: seq<Event>, e: Event, c: nat)
    requires Fresh(start) && c < 3 && ClockForward(init + [e]) && e.Reported?
    ensures Run(start, init).channels[c].excessiveSince.Some? ==>
      Run(start, init).channels[c].excessiveSince.value <= e.now
  {
    if Run(start, init).channels[c].excessiveSince.Some? {
      var k := TimerIsSustained(start, init, c);
      assert (init + [e])[k] == init[k] && (init + [e])[|init|] == e;
    }
  }

  /** Conversely, five seconds of uninterrupted over-limit reports on a channel with a baseline do end the session. */
  lemma FiveBadSecondsFail(start: Latency, es: seq<Event>, e: Event, i: nat, c: nat)
    requires Fresh(start) && c < 3 && ClockForward(es + [e]) && Sustained(start, es + [e], i, c)
    requires Run(start, (es + [e])[..i]).channels[c].baseline.Some?
    requires e.Reported? && e.now - (es + [e])[i].now >= 5_000_000_000
    ensures Answer(Run(start, es), e).failure.Some?
  {
    var all := es + [e];
    assert all[..|es|] == es && all[|es|] == e;
    assert TimerSince(Run(start, all), c, all[i].now) by { SustainedKeepsTimer(start, all, i, c); }
    assert TimerSince(Run(start, es), c, all[i].now) by {
      SustainedShrinks(start, all, i, c);
      assert es[..i] == all[..i];
      SustainedKeepsTimer(start, es, i, c);
    }
    RunTimerStep(start, es, e, c);
  }
}
