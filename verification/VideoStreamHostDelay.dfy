/** The bitrate is judged by the player's video delay without what the host itself added to it. */
module VideoStreamHostDelay {
  import opened Numbers
  import opened LatencyModel
  import opened VideoStreamModel
  import opened VideoStreamRuns
  import Cuts = LatencyCuts
  import D = SourceDelay
  import L = LatencyRuns
  import M = LatencyMeaning
  import T = VideoStreamTraces

  /** What the run tells the meter of the host's own delay: the frames it packetized, and where one report interval
      ends. */
  ghost function Measured(es: seq<Event>): seq<D.Event> {
    if es == [] then []
    else
      var init := es[..|es| - 1];
      match es[|es| - 1]
      case Packetized(captured, encoded) => Measured(init) + [D.Encoded(captured, encoded)]
      case ReceivedWithLatency(_, _, _, _) => Measured(init) + [D.IntervalClosed]
      case _ => Measured(init)
  }

  /** The excess of the interval that the next report closes, and of the one before it. */
  ghost predicate HostExcess(es: seq<Event>, newest: nat, before: nat) {
    && D.IsExcess(D.Closed(Measured(es)) + [D.Open(Measured(es))], newest)
    && D.IsExcess(D.Closed(Measured(es)), before)
  }

  lemma HandleSource(p: Policy, e: Event)
    ensures Handle(p, e).policy.source ==
      match e
      case Packetized(captured, encoded) => p.source.Observe(captured, encoded)
      case ReceivedWithLatency(_, _, _, _) => p.source.TakeExcess().0
      case _ => p.source
  {
    hide Policy.Evaluate, D.Delays.TakeExcess, D.Delays.Observe;
  }

  lemma {:induction false} SourceFollows(start: Policy, es: seq<Event>)
    requires start.source == D.NO_DELAYS
    ensures Run(start, es).source == D.Run(Measured(es))
  {
    if es != [] {
      hide Handle, D.Delays.TakeExcess, D.Delays.Observe;
      var init, e := es[..|es| - 1], es[|es| - 1];
      SourceFollows(start, init);
      HandleSource(Run(start, init), e);
      if e.Packetized? {
        assert Measured(es)[..|Measured(es)| - 1] == Measured(init);
      } else if e.ReceivedWithLatency? {
        assert Measured(es)[..|Measured(es)| - 1] == Measured(init);
      }
    }
  }

  lemma TakenOut(p: Policy, report: LatencyReport, now: nat, excess: U64)
    requires report.video.Some? && excess == p.source.TakeExcess().1
    ensures var video := report.video.value;
      var typical := if video.typicalDelay == 0 then video.delay else video.typicalDelay;
      Seen(p, Some(report), now) ==
        L.Reported(Some(report.(video := Some(video.(typicalDelay := Max(1, typical - excess))))), p.bitrate.target,
                   now)
  {
    hide D.Delays.TakeExcess;
  }

  lemma SeenAsSent(p: Policy, report: LatencyReport, now: nat)
    requires report.video.None?
    ensures Seen(p, Some(report), now) == L.Reported(Some(report), p.bitrate.target, now)
  {
  }

  /** In every run, a report reaches the latency policy with its typical video delay less the larger excess of the last
      two intervals, though never below a microsecond, and with everything else as the player sent it. */
  lemma JudgedWithoutHostDelay(start: Policy, es: seq<Event>, report: LatencyReport, now: nat, newest: nat, before: nat)
    requires start.source == D.NO_DELAYS && HostExcess(es, newest, before)
    ensures var p := Run(start, es);
      report.video.None? ==> Seen(p, Some(report), now) == L.Reported(Some(report), p.bitrate.target, now)
    ensures report.video.Some? ==>
      var p, video := Run(start, es), report.video.value;
      var typical := if video.typicalDelay == 0 then video.delay else video.typicalDelay;
      var left: U64 := Max(1, typical - Max(newest, before));
      Seen(p, Some(report), now) ==
        L.Reported(Some(report.(video := Some(video.(typicalDelay := left)))), p.bitrate.target, now)
  {
    hide Run, Seen, D.Closed, D.Open, D.IsExcess;
    if report.video.None? {
      SeenAsSent(Run(start, es), report, now);
    } else {
      SourceFollows(start, es);
      var n, b := D.ExcessOfTwoIntervals(Measured(es));
      D.OneExcess(D.Closed(Measured(es)) + [D.Open(Measured(es))], newest, n);
      D.OneExcess(D.Closed(Measured(es)), before, b);
      TakenOut(Run(start, es), report, now, Max(n, b));
    }
  }

  // A stall of the host alone

  /** Without the host's excess, the video delay is one the channel may have, and nothing else is in use. */
  ghost predicate OnlyHostLate(t: Latency, report: LatencyReport, newest: nat, before: nat) {
    && report.video.Some? && !report.audioActive && !report.inputActive && t.absolute > 0
    && var video := report.video.value;
       var typical := if video.typicalDelay == 0 then video.delay else video.typicalDelay;
       t.channels[0].baseline.Some? ==>
         typical - Max(newest, before) <= M.Allowed(t.channels[0].baseline.value, t.absolute)
  }

  lemma OnlyVideoWithin(t: Latency, e: L.Event)
    requires e.Reported? && e.report.Some? && !e.report.value.audioActive && !e.report.value.inputActive
    requires M.Judged(t, e, 0) ==> L.DelayOf(e, 0) <= M.AllowedOf(t, e, 0)
    ensures !M.OverBudget(t, e)
  {
    hide M.Allowed, L.DelayOf;
    assert !M.Judged(t, e, 1) && !M.Judged(t, e, 2);
  }

  /** In a run, a failure names a channel measured above the client's limit. */
  lemma FailureIsOver(start: Latency, es: seq<L.Event>, e: L.Event)
    requires L.Fresh(start) && L.Answer(L.Run(start, es), e).failure.Some?
    ensures M.OverBudget(L.Step(L.Run(start, es), e), e)
  {
    var s := L.Run(start, es);
    var f := L.Answer(s, e).failure.value;
    L.RunTimers(start, es);
    M.EventMeans(s, e);
    hide L.Run, L.Step, L.Answer;
    L.EventTimers(s, e, f.channel - 1);
    assert M.Judged(L.Step(s, e), e, f.channel - 1);
    assert L.DelayOf(e, f.channel - 1) > M.AllowedOf(L.Step(s, e), e, f.channel - 1) by { L.StepRemembers(s, e); }
  }

  lemma OnlyVideoLate(t: Latency, e: L.Event)
    requires e.Reported? && e.report.Some? && !e.report.value.audioActive && !e.report.value.inputActive
    ensures M.OverBudget(t, e) <==> M.Judged(t, e, 0) && L.DelayOf(e, 0) > M.AllowedOf(t, e, 0)
  {
    if !(M.Judged(t, e, 0) && L.DelayOf(e, 0) > M.AllowedOf(t, e, 0)) {
      OnlyVideoWithin(t, e);
    }
  }

  /** When only the video is in use, a report that is judged is over budget exactly when its typical delay exceeds what
      the baseline allows by more than the host's excess. */
  lemma LateBeyondHostIff(start: Policy, es: seq<Event>, report: LatencyReport, now: nat, newest: nat, before: nat)
    requires start.source == D.NO_DELAYS && HostExcess(es, newest, before) && Run(start, es).latency.Some?
    requires report.video.Some? && !report.audioActive && !report.inputActive
    requires
      var p := Run(start, es);
      var e := Seen(p, Some(report), now);
      L.Step(p.latency.value, e).absolute > 0 && M.Judged(L.Step(p.latency.value, e), e, 0)
    ensures var p, video := Run(start, es), report.video.value;
      var e := Seen(p, Some(report), now);
      var t := L.Step(p.latency.value, e);
      var typical := if video.typicalDelay == 0 then video.delay else video.typicalDelay;
      M.OverBudget(t, e) <==>
        typical - Max(newest, before) > M.Allowed(t.channels[0].baseline.value, t.absolute)
  {
    hide Run, L.Step, HostExcess, Seen, M.OverBudget;
    JudgedWithoutHostDelay(start, es, report, now, newest, before);
    var p := Run(start, es);
    var e := Seen(p, Some(report), now);
    OnlyVideoLate(L.Step(p.latency.value, e), e);
  }

  /** However long the host stalled, a report whose delay is only the host's is not over budget, asks for no reduction
      and does not end the session. */
  lemma HostStallIsNoReason(start: Policy, es: seq<Event>, report: LatencyReport, now: nat, newest: nat, before: nat)
    requires Started(start) && HostExcess(es, newest, before) && Run(start, es).latency.Some?
    requires
      var p := Run(start, es);
      OnlyHostLate(L.Step(p.latency.value, Seen(p, Some(report), now)), report, newest, before)
    ensures var p := Run(start, es);
      !M.OverBudget(L.Step(p.latency.value, Seen(p, Some(report), now)), Seen(p, Some(report), now))
    ensures var verdict := Run(start, es).Evaluate(Some(report), now).1;
      verdict.reduceTo.None? && verdict.failure.None?
  {
    hide Run, L.Step, L.Answer, L.Run, HostExcess, Seen, Policy.Evaluate, T.LifeOf;
    JudgedWithoutHostDelay(start, es, report, now, newest, before);
    var p := Run(start, es);
    var e := Seen(p, Some(report), now);
    var t := L.Step(p.latency.value, e);
    HostDelayWithin(t, e, report, newest, before);
    EvaluationIsAnAnswer(p, Some(report), now);
    Cuts.EventCuts(p.latency.value, e);
    T.StreamIsALife(start, es);
    if L.Answer(p.latency.value, e).failure.Some? {
      var life := T.LifeOf(start, es).value;
      FailureIsOver(life.began, life.events, e);
    }
  }

  lemma HostDelayWithin(t: Latency, e: L.Event, report: LatencyReport, newest: nat, before: nat)
    requires OnlyHostLate(t, report, newest, before) && e.Reported?
    requires
      var video := report.video.value;
      var typical := if video.typicalDelay == 0 then video.delay else video.typicalDelay;
      var left: U64 := Max(1, typical - Max(newest, before));
      e.report == Some(report.(video := Some(video.(typicalDelay := left))))
    ensures !M.OverBudget(t, e)
  {
    OnlyVideoWithin(t, e);
  }
}
