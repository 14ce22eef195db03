/** What the latency policy of a stream lives through, and so what is said of its runs, said of runs of the stream. */
module VideoStreamTraces {
  import opened Numbers
  import opened BitrateModel
  import opened LatencyModel
  import opened VideoStreamModel
  import opened VideoStreamRuns
  import Baselines = LatencyBaselines
  import Cuts = LatencyCuts
  import L = LatencyRuns
  import M = LatencyMeaning

  /** The latency policy when it was last turned on, and the events it has seen since. */
  datatype Life = Life(began: Latency, events: seq<L.Event>)

  /** What one report means to the latency policy: the report, then the limit forgotten, then the bitrate changed. */
  ghost function Heard(p: Policy, path: Path, d: Delivery, report: Option<LatencyReport>, now: nat): seq<L.Event>
    requires p.latency.Some?
  {
    var answer := p.ObserveReceiverWithLatency(path, d, report, now).answer;
    [Seen(p, report, now)]
    + if answer.EndSession? then []
      else (if p.bitrate.returningTo.Some? then [L.Forgotten] else []) + Moved(answer.change, now)
  }

  ghost function Moved(change: Option<Change>, now: nat): seq<L.Event> {
    if change.Some? then [L.Changed(now)] else []
  }

  ghost function Lived(p: Policy, before: Option<Life>, e: Event): Option<Life>
  {
    match e
    case LatencyEnabled(maximumDelay, now) => Some(Life(NewLatency(maximumDelay, now), []))
    case ReceivedWithLatency(path, d, report, now) =>
      if before.None? || p.latency.None? then None
      else Some(before.value.(events := before.value.events + Heard(p, path, d, report, now)))
    case DeadlineExpired(now) =>
      if before.None? then None
      else Some(before.value.(events := before.value.events + Moved(p.ObserveDeadlineExpired(now).answer.change, now)))
    case _ => before
  }

  /** What the latency policy of the run has lived through, if it is on. */
  ghost function LifeOf(start: Policy, es: seq<Event>): Option<Life> {
    if es == [] then None
    else
      var init := es[..|es| - 1];
      Lived(Run(start, init), LifeOf(start, init), es[|es| - 1])
  }

  /** The latency policy is where the life leads. */
  ghost predicate Follows(p: Policy, life: Option<Life>) {
    if p.latency.None? then life.None?
    else life.Some? && L.Fresh(life.value.began) && p.latency.value == L.Run(life.value.began, life.value.events)
  }

  lemma {:induction false} RunOver(start: Latency, es: seq<L.Event>, more: seq<L.Event>)
    ensures L.Run(start, es + more) == L.Run(L.Run(start, es), more)
  {
    if more == [] {
      assert es + more == es;
    } else {
      var init := more[..|more| - 1];
      assert (es + more)[..|es + more| - 1] == es + init;
      RunOver(start, es, init);
    }
  }

  lemma RunOne(s: Latency, e: L.Event)
    ensures L.Run(s, [e]) == L.Step(s, e)
  {
    assert [e][..0] == [] && L.Run(s, []) == s;
  }

  lemma HeardFollows(p: Policy, path: Path, d: Delivery, report: Option<LatencyReport>, now: nat)
    requires p.latency.Some?
    ensures p.ObserveReceiverWithLatency(path, d, report, now).policy.latency ==
      Some(L.Run(p.latency.value, Heard(p, path, d, report, now)))
  {
    hide Controller.Observe, Outcome.AlsoReduce, L.Run;
    var answer := p.ObserveReceiverWithLatency(path, d, report, now).answer;
    var seen := Seen(p, report, now);
    var observed := p.Evaluate(report, now).0;
    EvaluationIsAnAnswer(p, report, now);
    RunOne(p.latency.value, seen);
    if answer.EndSession? {
      assert Heard(p, path, d, report, now) == [seen];
    } else {
      var forgotten := if p.bitrate.returningTo.Some? then [L.Forgotten] else [];
      RunOver(p.latency.value, [seen], forgotten + Moved(answer.change, now));
      RunOver(observed, forgotten, Moved(answer.change, now));
      RunOne(observed, L.Forgotten);
      RunNone(observed);
      RunOne(p.KnownLimits(observed), L.Changed(now));
      RunNone(p.KnownLimits(observed));
    }
  }

  lemma RunNone(s: Latency)
    ensures L.Run(s, []) == s
  {
  }

  lemma LivedFollows(p: Policy, life: Option<Life>, e: Event)
    requires Follows(p, life)
    ensures Follows(Handle(p, e).policy, Lived(p, life, e))
  {
    hide L.Run, Controller.Observe, Controller.ObserveSenderCongestion, Policy.ObserveReceiverWithLatency, Heard;
    match e
    case ReceivedWithLatency(path, d, report, now) =>
      if life.Some? {
        HeardFollows(p, path, d, report, now);
        RunOver(life.value.began, life.value.events, Heard(p, path, d, report, now));
      } else {
        StaysOff(p, path, d, report, now);
      }
    case LatencyEnabled(maximumDelay, now) => RunNone(NewLatency(maximumDelay, now));
    case DeadlineExpired(now) =>
      if life.Some? {
        var moved := Moved(p.ObserveDeadlineExpired(now).answer.change, now);
        RunOver(life.value.began, life.value.events, moved);
        RunNone(p.latency.value);
        RunOne(p.latency.value, L.Changed(now));
      }
    case _ =>
  }

  lemma StaysOff(p: Policy, path: Path, d: Delivery, report: Option<LatencyReport>, now: nat)
    requires p.latency.None?
    ensures p.ObserveReceiverWithLatency(path, d, report, now).policy.latency.None?
  {
    hide Controller.Observe;
  }

  /** Every run of the stream is, for its latency policy, a run of the events it has seen. */
  lemma {:induction false} StreamIsALife(start: Policy, es: seq<Event>)
    requires start.latency.None?
    ensures Follows(Run(start, es), LifeOf(start, es))
    ensures LifeOf(start, es).Some? <==> Run(start, es).latency.Some?
  {
    hide Follows, Lived, Handle;
    if es == [] {
      NotBegun(start);
    } else {
      var init := es[..|es| - 1];
      StreamIsALife(start, init);
      LivedFollows(Run(start, init), LifeOf(start, init), es[|es| - 1]);
    }
    FollowsOn(Run(start, es), LifeOf(start, es));
  }

  lemma NotBegun(p: Policy)
    requires p.latency.None?
    ensures Follows(p, None)
  {
  }

  lemma FollowsOn(p: Policy, life: Option<Life>)
    requires Follows(p, life)
    ensures life.Some? <==> p.latency.Some?
  {
  }

  /** A stream ends its session only after five seconds of uninterrupted reports over the client's
      limit on one channel. */
  lemma StreamEndsAfterFiveBadSeconds(start: Policy, es: seq<Event>, path: Path, d: Delivery,
                                      report: Option<LatencyReport>, now: nat)
    returns (i: nat)
    requires start.latency.None?
    requires Run(start, es).ObserveReceiverWithLatency(path, d, report, now).answer.EndSession?
    ensures var p := Run(start, es);
      var c := p.ObserveReceiverWithLatency(path, d, report, now).answer.failure.channel - 1;
      && LifeOf(start, es).Some? && 0 <= c < 3
      && var life := LifeOf(start, es).value;
      var seen := life.events + [Seen(p, report, now)];
      && L.Sustained(life.began, seen, i, c) && now - seen[i].now >= 5_000_000_000
  {
    hide Controller.Observe, L.Sustained, L.Run, Run, LifeOf, L.Answer;
    var p := Run(start, es);
    StreamIsALife(start, es);
    EndedByLatency(p, path, d, report, now);
    EvaluationIsAnAnswer(p, report, now);
    var life := LifeOf(start, es).value;
    i := L.FailureNeedsFiveBadSeconds(life.began, life.events, Seen(p, report, now));
  }

  lemma EndedByLatency(p: Policy, path: Path, d: Delivery, report: Option<LatencyReport>, now: nat)
    requires p.ObserveReceiverWithLatency(path, d, report, now).answer.EndSession?
    ensures p.latency.Some?
    ensures p.Evaluate(report, now).1.failure == Some(p.ObserveReceiverWithLatency(path, d, report, now).answer.failure)
  {
    hide Controller.Observe, Latency.Observe, Outcome.AlsoReduce;
  }

  // The converse: five such seconds end the session

  /** Reports come in the order of their instants. */
  ghost predicate ReportsForward(es: seq<Event>) {
    forall j, k :: 0 <= j < k < |es| && es[j].ReceivedWithLatency? && es[k].ReceivedWithLatency? ==>
      es[j].now <= es[k].now
  }

  ghost predicate NoReportAfter(es: seq<L.Event>, at: nat) {
    forall i :: 0 <= i < |es| && es[i].Reported? ==> es[i].now <= at
  }

  lemma HeardReportsOnce(p: Policy, path: Path, d: Delivery, report: Option<LatencyReport>, now: nat)
    requires p.latency.Some?
    ensures var heard := Heard(p, path, d, report, now);
      heard[0] == Seen(p, report, now) && forall i :: 0 < i < |heard| ==> !heard[i].Reported?
  {
    hide Policy.ObserveReceiverWithLatency, Seen;
  }

  lemma LivedInOrder(p: Policy, before: Option<Life>, e: Event)
    requires before.Some? ==> L.ClockForward(before.value.events)
    requires before.Some? && e.ReceivedWithLatency? ==> NoReportAfter(before.value.events, e.now)
    ensures var after := Lived(p, before, e);
      after.Some? ==>
        && L.ClockForward(after.value.events)
        && forall at | before.Some? ==> NoReportAfter(before.value.events, at) ::
             (e.ReceivedWithLatency? ==> e.now <= at) ==> NoReportAfter(after.value.events, at)
  {
    hide Policy.ObserveReceiverWithLatency, Policy.ObserveDeadlineExpired, Heard;
    match e
    case ReceivedWithLatency(path, d, report, now) =>
      if before.Some? && p.latency.Some? {
        HeardReportsOnce(p, path, d, report, now);
      }
    case _ =>
  }

  lemma {:induction false} LifeInOrder(start: Policy, es: seq<Event>, at: nat)
    requires ReportsForward(es) && forall k :: 0 <= k < |es| && es[k].ReceivedWithLatency? ==> es[k].now <= at
    ensures LifeOf(start, es).Some? ==>
      L.ClockForward(LifeOf(start, es).value.events) && NoReportAfter(LifeOf(start, es).value.events, at)
  {
    hide Run, Lived, L.ClockForward, NoReportAfter;
    if es != [] {
      var init, e := es[..|es| - 1], es[|es| - 1];
      LifeInOrder(start, init, at);
      if e.ReceivedWithLatency? {
        LifeInOrder(start, init, e.now);
      }
      LivedInOrder(Run(start, init), LifeOf(start, init), e);
    }
  }

  lemma EndsWhenLatencyFails(p: Policy, path: Path, d: Delivery, report: Option<LatencyReport>, now: nat)
    requires p.latency.Some? && p.Evaluate(report, now).1.failure.Some?
    ensures p.ObserveReceiverWithLatency(path, d, report, now).answer.EndSession?
  {
    hide Controller.Observe, Latency.Observe, Outcome.AlsoReduce;
  }

  /** Five seconds of uninterrupted reports over the limit on a channel with a baseline do end
      the session of a stream. */
  lemma StreamFailsAfterFiveBadSeconds(start: Policy, es: seq<Event>, path: Path, d: Delivery,
                                       report: Option<LatencyReport>,
                                       now: nat, i: nat, c: nat)
    requires start.latency.None? && LifeOf(start, es).Some? && c < 3
    requires ReportsForward(es + [ReceivedWithLatency(path, d, report, now)])
    requires var life := LifeOf(start, es).value;
      var seen := life.events + [Seen(Run(start, es), report, now)];
      && L.Sustained(life.began, seen, i, c) && L.Run(life.began, seen[..i]).channels[c].baseline.Some?
      && now - seen[i].now >= 5_000_000_000
    ensures Run(start, es).ObserveReceiverWithLatency(path, d, report, now).answer.EndSession?
  {
    hide L.Run, Run, LifeOf, L.Answer, L.Sustained, Policy.ObserveReceiverWithLatency;
    var p, life := Run(start, es), LifeOf(start, es).value;
    StreamIsALife(start, es);
    var all := es + [ReceivedWithLatency(path, d, report, now)];
    assert forall k :: 0 <= k < |es| ==> es[k] == all[k];
    assert all[|es|] == ReceivedWithLatency(path, d, report, now);
    LifeInOrder(start, es, now);
    L.FiveBadSecondsFail(life.began, life.events, Seen(p, report, now), i, c);
    EvaluationIsAnAnswer(p, report, now);
    EndsWhenLatencyFails(p, path, d, report, now);
  }

  /** A stream is cut for delay only after two settled over-budget reports in a row, at most two seconds apart. */
  lemma StreamCutAnswersTwoBadReports(start: Policy, es: seq<Event>, report: Option<LatencyReport>, now: nat)
    returns (k: nat)
    requires start.latency.None? && Run(start, es).latency.Some?
    requires Run(start, es).Evaluate(report, now).1.reduceTo.Some?
    ensures var p := Run(start, es);
      var seen := Seen(p, report, now);
      && LifeOf(start, es).Some?
      && var life := LifeOf(start, es).value;
      && L.SettledReport(L.ChangedAt(life.began, life.events), seen)
      && Cuts.LastReportIsBad(life.began, life.events, k) && Since(now, life.events[k].now) <= 2_000_000_000
  {
    hide L.Run, Run, LifeOf, L.Answer, Cuts.LastReportIsBad, L.ChangedAt;
    var p := Run(start, es);
    StreamIsALife(start, es);
    EvaluationIsAnAnswer(p, report, now);
    var life := LifeOf(start, es).value;
    k := CutAnswers(life.began, life.events, Seen(p, report, now));
  }

  lemma CutAnswers(start: Latency, es: seq<L.Event>, e: L.Event) returns (k: nat)
    requires L.Fresh(start) && L.Answer(L.Run(start, es), e).reduceTo.Some?
    ensures L.SettledReport(L.ChangedAt(start, es), e) && Cuts.LastReportIsBad(start, es, k)
      && Since(e.now, es[k].now) <= 2_000_000_000
  {
    k := Cuts.CutAnswersTwoBadReports(start, es, e);
    LastBadReported(start, es, k);
  }

  lemma LastBadReported(start: Latency, es: seq<L.Event>, k: nat)
    requires k < |es| && es[k].Reported? && (forall j :: k < j < |es| ==> !es[j].Reported?)
    requires L.SettledReport(L.ChangedAt(start, es[..k]), es[k]) && M.OverBudget(L.Run(start, es[..k + 1]), es[k])
    ensures Cuts.LastReportIsBad(start, es, k)
  {
    LastReported(es, k);
  }

  lemma {:induction false} LastReported(es: seq<L.Event>, k: nat)
    requires k < |es| && es[k].Reported? && forall j :: k < j < |es| ==> !es[j].Reported?
    ensures L.ReportedAt(es) == Some(es[k].now)
  {
    if k < |es| - 1 {
      LastReported(es[..|es| - 1], k);
    }
  }

  /** The latency policy of a stream asks for 96 % of its target exactly when its last request is ten seconds back or
      more, or there was none, and the target is within a tenth of the known limit; any other request is for three
      quarters. The controller then waits as long as the known limit says. */
  lemma StreamCutGentleIff(start: Policy, es: seq<Event>, report: Option<LatencyReport>, now: nat)
    requires start.latency.None? && Run(start, es).latency.Some?
    requires Run(start, es).Evaluate(report, now).1.reduceTo.Some?
    ensures LifeOf(start, es).Some?
    ensures var target := Run(start, es).bitrate.target;
      var reduceTo := Run(start, es).Evaluate(report, now).1.reduceTo.value;
      var life := LifeOf(start, es).value;
      var limit := Cuts.Known(life.began, life.events).0;
      var last := Cuts.LastCutTime(life.began, life.events);
      && (reduceTo == target / 100 * 96 <==>
            && (last.Some? ==> Since(now, last.value) >= 10_000_000_000)
            && limit.Some? && target >= limit.value / 100 * 90)
      && (reduceTo != target / 100 * 96 ==> reduceTo == target * 3 / 4)
  {
    hide L.Run, Run, LifeOf, L.Answer, Cuts.Known, Cuts.LastCut;
    var p := Run(start, es);
    StreamIsALife(start, es);
    EvaluationIsAnAnswer(p, report, now);
    var life := LifeOf(start, es).value;
    Cuts.GentleCutIff(life.began, life.events, Seen(p, report, now));
  }

  /** A stream cut for delay less than eight seconds after the last such cut is under at least
      1.25 times its pressure. */
  lemma StreamCloseCutsWorsen(start: Policy, es: seq<Event>, report: Option<LatencyReport>, now: nat, k: nat)
    requires start.latency.None? && LifeOf(start, es).Some? && Run(start, es).latency.Some?
    requires Run(start, es).Evaluate(report, now).1.reduceTo.Some?
    requires var life := LifeOf(start, es).value;
      Cuts.LastCut(life.began, life.events) == Some(k) && Since(now, life.events[k].now) < 8_000_000_000
    ensures var p, life := Run(start, es), LifeOf(start, es).value;
      var seen := Seen(p, report, now);
      && seen.report.Some?
      && Cuts.PressureOf(p.latency.value, seen)
           >= Cuts.PressureOf(L.Run(life.began, life.events[..k]), life.events[k]) * 1.25
  {
    hide L.Run, Run, LifeOf, L.Answer, Cuts.PressureOf;
    var p, life := Run(start, es), LifeOf(start, es).value;
    StreamIsALife(start, es);
    EvaluationIsAnAnswer(p, report, now);
    Cuts.CloseCutsWorsen(life.began, life.events, k, Seen(p, report, now));
  }

  /** Each baseline of a stream is the least, over all windows of five settled delays so far, of the second smallest. */
  lemma StreamBaselineIsLowestWindow(start: Policy, es: seq<Event>, c: nat)
    requires start.latency.None? && Run(start, es).latency.Some? && c < 3
    ensures LifeOf(start, es).Some?
    ensures var life := LifeOf(start, es).value;
      Baselines.Calibrated(Run(start, es).latency.value.channels[c],
                           Baselines.SettledDelays(life.began, life.events, c))
  {
    hide L.Run, Run, LifeOf, Baselines.Calibrated, Baselines.SettledDelays;
    StreamIsALife(start, es);
    var life := LifeOf(start, es).value;
    Baselines.BaselineIsLowestWindow(life.began, life.events, c);
  }
}
