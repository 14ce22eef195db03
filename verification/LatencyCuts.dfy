/** When the latency policy asks for a lower bitrate, by how much, and how cuts follow one another in a run. */
module LatencyCuts {
  import opened Numbers
  import opened LatencyModel
  import opened LatencyRuns
  import opened LatencyMeaning

  /** The highest share of its allowance any channel uses, as the policy computes it for this report. */
  ghost function PressureOf(s: Latency, e: Event): real
    requires e.Reported? && e.report.Some?
  {
    s.Arrive(e.now).VerdictOf(e.report.value, e.bitrate, e.now).pressure
  }

  /** A cut this long after the last one answers a new incident. */
  predicate NewIncident(lastCut: Option<nat>, now: nat) {
    lastCut.None? || Since(now, lastCut.value) >= 10_000_000_000
  }

  /** How low a cut goes: gently from a bitrate near the known limit, if that is the first cut of an incident. */
  ghost predicate CutDepth(lastCut: Option<nat>, limit: Option<U64>, bitrate: U64, now: nat, reduceTo: U64) {
    && (reduceTo == bitrate / 100 * 96 <==>
          NewIncident(lastCut, now) && limit.Some? && bitrate >= limit.value / 100 * 90)
    && (reduceTo != bitrate / 100 * 96 ==> reduceTo == bitrate * 3 / 4)
  }

  /** A bad report counts on, unless it is one that may be answered by a cut, which ends the row. */
  function CountedOn(carried: U8, bad: bool, bitrate: U64): U8 {
    if !bad || (carried > 0 && bitrate > 1_000_000) then 0 else IncrementU8(carried)
  }

  /** A second bad report in a row above the minimum bitrate, and a cut less than eight seconds before it is worth
      another only under at least a quarter more pressure. */
  ghost predicate CutDue(s: Latency, e: Event, t: Latency) {
    && BadReport(s, e, t) && e.bitrate > 1_000_000 && Carried(s.pressureStreak, s.lastReportAt, e.now) > 0
    && (s.lastCutAt.Some? && Since(e.now, s.lastCutAt.value) < 8_000_000_000 ==>
          PressureOf(s, e) >= s.lastCutPressure * 1.25)
  }

  /** What one event has to do with cuts. */
  ghost predicate CutStep(s: Latency, e: Event, t: Latency, answer: Evaluation) {
    && t.pressureStreak == (if e.Reported?
                            then CountedOn(Carried(s.pressureStreak, s.lastReportAt, e.now), BadReport(s, e, t),
                                           e.bitrate)
                            else s.pressureStreak)
    && (answer.reduceTo.Some? <==> CutDue(s, e, t))
    && (answer.reduceTo.None? ==> t.lastCutAt == s.lastCutAt && t.lastCutPressure == s.lastCutPressure)
    && (answer.reduceTo.Some? ==>
          && !answer.allowIncrease
          && CutDepth(s.lastCutAt, s.ceiling, e.bitrate, e.now, answer.reduceTo.value)
          && answer.reduceTo.value < e.bitrate
          && t.lastCutAt == Some(e.now) && t.lastCutPressure == PressureOf(s, e))
    && (e.Reported? && e.report.Some? && e.report.value.Valid() ==> Highest(t, e, PressureOf(s, e)))
  }

  lemma DecideCuts(s: Latency, settled: bool, v: Verdict, bitrate: U64, now: nat)
    ensures var (t, answer) := s.Decide(settled, v, bitrate, now);
      && t.pressureStreak == CountedOn(s.pressureStreak, settled && v.excessive, bitrate)
      && (answer.reduceTo.Some? <==>
            && settled && v.excessive && s.pressureStreak > 0 && bitrate > 1_000_000
            && (s.lastCutAt.Some? && Since(now, s.lastCutAt.value) < 8_000_000_000 ==>
                  v.pressure >= s.lastCutPressure * 1.25))
      && (answer.reduceTo.None? ==> t.lastCutAt == s.lastCutAt && t.lastCutPressure == s.lastCutPressure)
      && (answer.reduceTo.Some? ==>
            && !answer.allowIncrease
            && CutDepth(s.lastCutAt, s.ceiling, bitrate, now, answer.reduceTo.value)
            && answer.reduceTo.value < bitrate
            && t.lastCutAt == Some(now) && t.lastCutPressure == v.pressure)
  {
  }

  lemma EventCuts(s: Latency, e: Event)
    ensures CutStep(s, e, Step(s, e), Answer(s, e))
  {
    if e.Reported? && e.report.Some? && e.report.value.Valid() {
      var a := s.Arrive(e.now);
      var report, bitrate, now := e.report.value, e.bitrate, e.now;
      var r, settled, v := a.ReadAll(report, bitrate, now), a.Settled(report, bitrate, now),
        a.VerdictOf(report, bitrate, now);
      ReportCuts(s, a, r, e, settled, v);
    }
  }

  lemma ReportCuts(s: Latency, a: Latency, r: Latency, e: Event, settled: bool, v: Verdict)
    requires e.Reported? && e.report.Some? && e.report.value.Valid()
    requires a == s.Arrive(e.now) && r == a.ReadAll(e.report.value, e.bitrate, e.now)
    requires settled == a.Settled(e.report.value, e.bitrate, e.now)
      && v == a.VerdictOf(e.report.value, e.bitrate, e.now)
    ensures var (t, answer) := r.Decide(settled, v, e.bitrate, e.now); CutStep(s, e, t, answer)
  {
    hide Uses, Allowed, Judged, DelayOf, AllowedOf, CutDepth, Latency.ReadAll, Latency.VerdictOf, Latency.Decide;
    ArriveCarries(s, e.report.value, e.bitrate, e.now);
    VerdictMeans(a, e.report.value, e.bitrate, e.now, r, e);
    DecideCuts(r, settled, v, e.bitrate, e.now);
    DecideKeepsChannels(r, settled, v, e.bitrate, e.now);
    SameChannelsSameBudget(r, r.Decide(settled, v, e.bitrate, e.now).0, e, v.pressure);
    SettledMeans(s, e);
  }

  /** The first cut of an incident makes the bitrate in force the known limit, unless that bitrate had proved itself
      for a minute. */
  ghost predicate Learns(s: Latency, e: Event, answer: Evaluation) {
    && e.Reported? && answer.reduceTo.Some? && NewIncident(s.lastCutAt, e.now)
    && Since(e.now, s.changedAt) < 60_000_000_000
  }

  /** A good report at a bitrate that has held for five seconds above the known limit. */
  ghost predicate Disproves(s: Latency, e: Event, t: Latency) {
    && GoodReport(s, e, t) && s.ceiling.Some? && e.bitrate > s.ceiling.value
    && Since(e.now, s.changedAt) >= 5_000_000_000
  }

  /** The limit moves only so, and to the bitrate in force. A learned limit doubles the wait before it is tried again,
      from five seconds to forty at most, and a disproved one brings the wait back to five. */
  ghost predicate LimitStep(s: Latency, e: Event, t: Latency, answer: Evaluation) {
    if Learns(s, e, answer) then t.ceiling == Some(e.bitrate) && t.retrySeconds == Min(2 * s.retrySeconds, 40)
    else if Disproves(s, e, t) then t.ceiling == Some(e.bitrate) && t.retrySeconds == 5
    else t.ceiling == (if e.Forgotten? then None else s.ceiling) && t.retrySeconds == s.retrySeconds
  }

  lemma DecideLimit(s: Latency, settled: bool, v: Verdict, bitrate: U64, now: nat)
    ensures var (t, answer) := s.Decide(settled, v, bitrate, now);
      if answer.reduceTo.Some? && NewIncident(s.lastCutAt, now) && Since(now, s.changedAt) < 60_000_000_000
      then t.ceiling == Some(bitrate) && t.retrySeconds == Min(2 * s.retrySeconds, 40)
      else if && settled && !v.excessive && v.ready && s.ceiling.Some? && bitrate > s.ceiling.value
              && Since(now, s.changedAt) >= 5_000_000_000
      then t.ceiling == Some(bitrate) && t.retrySeconds == 5
      else t.ceiling == s.ceiling && t.retrySeconds == s.retrySeconds
  {
  }

  lemma EventLimit(s: Latency, e: Event)
    ensures LimitStep(s, e, Step(s, e), Answer(s, e))
  {
    if e.Reported? && e.report.Some? && e.report.value.Valid() {
      hide Latency.Decide, Latency.ReadAll, Latency.VerdictOf, Latency.Settled, Understood, OverBudget, Highest;
      var a := s.Arrive(e.now);
      var r := a.ReadAll(e.report.value, e.bitrate, e.now);
      var settled, v := a.Settled(e.report.value, e.bitrate, e.now), a.VerdictOf(e.report.value, e.bitrate, e.now);
      ArriveCarries(s, e.report.value, e.bitrate, e.now);
      SettledMeans(s, e);
      VerdictMeans(a, e.report.value, e.bitrate, e.now, r, e);
      DecideLimit(r, settled, v, e.bitrate, e.now);
      DecideKeepsChannels(r, settled, v, e.bitrate, e.now);
      SameChannelsSameBudget(r, r.Decide(settled, v, e.bitrate, e.now).0, e, v.pressure);
    }
  }

  // Whole runs

  lemma RunCutStep(start: Latency, es: seq<Event>, e: Event)
    requires Fresh(start)
    ensures var s := Run(start, es);
      && CutStep(s, e, Run(start, es + [e]), Answer(s, e))
      && s.changedAt == ChangedAt(start, es) && s.lastReportAt == ReportedAt(es)
  {
    assert (es + [e])[..|es|] == es;
    RunRemembers(start, es);
    EventCuts(Run(start, es), e);
  }

  ghost predicate CutsAt(start: Latency, es: seq<Event>, k: nat)
    requires k < |es|
  {
    es[k].Reported? && Answer(Run(start, es[..k]), es[k]).reduceTo.Some?
  }

  /** The last event of the run that asked for a cut. */
  ghost function LastCut(start: Latency, es: seq<Event>): (k: Option<nat>)
    ensures k.Some? ==> k.value < |es| && es[k.value].Reported? && es[k.value].report.Some?
  {
    if es == [] then None
    else if CutsAt(start, es, |es| - 1) then AnsweredReport(start, es, |es| - 1); Some(|es| - 1)
    else LastCut(start, es[..|es| - 1])
  }

  lemma AnsweredReport(start: Latency, es: seq<Event>, k: nat)
    requires k < |es| && CutsAt(start, es, k)
    ensures es[k].Reported? && es[k].report.Some?
  {
    hide Run;
    EventCuts(Run(start, es[..k]), es[k]);
  }

  ghost function LastCutTime(start: Latency, es: seq<Event>): Option<nat> {
    if LastCut(start, es).None? then None else Some(es[LastCut(start, es).value].now)
  }

  /** The pressure it answered. */
  ghost function LastCutPressure(start: Latency, es: seq<Event>): real {
    if LastCut(start, es).None? then 0.0
    else PressureOf(Run(start, es[..LastCut(start, es).value]), es[LastCut(start, es).value])
  }

  lemma {:induction false} LastCutRemembered(start: Latency, es: seq<Event>)
    requires Fresh(start)
    ensures var s := Run(start, es);
      s.lastCutAt == LastCutTime(start, es) && s.lastCutPressure == LastCutPressure(start, es)
  {
    if es != [] {
      hide CutDue, Highest, CutDepth;
      var init, e := es[..|es| - 1], es[|es| - 1];
      assert init + [e] == es;
      RunCutStep(start, init, e);
      LastCutRemembered(start, init);
      if !CutsAt(start, es, |init|) && LastCut(start, init).Some? {
        assert es[..LastCut(start, init).value] == init[..LastCut(start, init).value];
      }
    }
  }

  /** The known limit: the bitrate of the last cut that taught one or of the last report that disproved it, until it is
      forgotten; and the seconds to wait before it is tried again. */
  ghost function Known(start: Latency, es: seq<Event>): (limit: (Option<U64>, nat)) {
    if es == [] then (None, 5)
    else
      var init, e := es[..|es| - 1], es[|es| - 1];
      var (limit, seconds) := Known(start, init);
      if e.Forgotten? then (None, seconds)
      else if e.Changed? then (limit, seconds)
      else if LearnsAt(start, init, e) then (Some(e.bitrate), Min(2 * seconds, 40))
      else if limit.Some? && e.bitrate > limit.value && HoldsAt(start, init, e) then (Some(e.bitrate), 5)
      else (limit, seconds)
  }

  /** The report is answered by the first cut of an incident, at a bitrate less than a minute old. */
  ghost predicate LearnsAt(start: Latency, es: seq<Event>, e: Event)
    requires e.Reported?
  {
    && Answer(Run(start, es), e).reduceTo.Some? && NewIncident(LastCutTime(start, es), e.now)
    && Since(e.now, ChangedAt(start, es)) < 60_000_000_000
  }

  /** The report is good, at a bitrate at least five seconds old. */
  ghost predicate HoldsAt(start: Latency, es: seq<Event>, e: Event)
    requires e.Reported?
  {
    && SettledReport(ChangedAt(start, es), e) && Understood(Run(start, es + [e]), e)
    && !OverBudget(Run(start, es + [e]), e) && Since(e.now, ChangedAt(start, es)) >= 5_000_000_000
  }

  lemma {:induction false} KnownRemembered(start: Latency, es: seq<Event>)
    requires Fresh(start)
    ensures var s := Run(start, es); (s.ceiling, s.retrySeconds) == Known(start, es)
  {
    if es != [] {
      hide OverBudget, Understood, CutDue, Highest, CutDepth, CutStep;
      var init, e := es[..|es| - 1], es[|es| - 1];
      assert init + [e] == es;
      KnownRemembered(start, init);
      LastCutRemembered(start, init);
      RunRemembers(start, init);
      EventLimit(Run(start, init), e);
    }
  }

  /** The bad reports in a row that count towards a cut. */
  ghost function InARow(start: Latency, es: seq<Event>): U8 {
    if es == [] then 0
    else
      var init, e := es[..|es| - 1], es[|es| - 1];
      if !e.Reported? then InARow(start, init)
      else CountedOn(Carried(InARow(start, init), ReportedAt(init), e.now),
                     SettledReport(ChangedAt(start, init), e) && OverBudget(Run(start, es), e), e.bitrate)
  }

  lemma {:induction false} RowRemembered(start: Latency, es: seq<Event>)
    requires Fresh(start)
    ensures Run(start, es).pressureStreak == InARow(start, es)
  {
    if es != [] {
      hide OverBudget, CutDue, Highest, CutDepth;
      var init, e := es[..|es| - 1], es[|es| - 1];
      assert init + [e] == es;
      RowRemembered(start, init);
      RunCutStep(start, init, e);
    }
  }

  /** In every run, a report is answered by a cut exactly when it is settled, over budget and the second such in a row
      above the minimum bitrate, and either the last cut is eight seconds back or more or the pressure a quarter higher
      than it was then. */
  lemma CutsIff(start: Latency, es: seq<Event>, e: Event)
    requires Fresh(start)
    ensures Answer(Run(start, es), e).reduceTo.Some? <==>
      && SettledReport(ChangedAt(start, es), e) && OverBudget(Run(start, es + [e]), e) && e.bitrate > 1_000_000
      && Carried(InARow(start, es), ReportedAt(es), e.now) > 0
      && (LastCut(start, es).Some? && Since(e.now, LastCutTime(start, es).value) < 8_000_000_000 ==>
            PressureOf(Run(start, es), e) >= LastCutPressure(start, es) * 1.25)
  {
    hide OverBudget, Highest, CutDepth, Run, Answer;
    RunCutStep(start, es, e);
    LastCutRemembered(start, es);
    RowRemembered(start, es);
  }

  /** A cut is gentle, to 96 %, exactly when the last one is ten seconds back or more or there was none, and the bitrate
      is within a tenth of the known limit; any other cut goes to three quarters. */
  lemma GentleCutIff(start: Latency, es: seq<Event>, e: Event)
    requires Fresh(start) && Answer(Run(start, es), e).reduceTo.Some?
    ensures e.Reported?
    ensures var limit := Known(start, es).0;
      var reduceTo := Answer(Run(start, es), e).reduceTo.value;
      && (reduceTo == e.bitrate / 100 * 96 <==>
            && (LastCut(start, es).Some? ==> Since(e.now, LastCutTime(start, es).value) >= 10_000_000_000)
            && limit.Some? && e.bitrate >= limit.value / 100 * 90)
      && (reduceTo != e.bitrate / 100 * 96 ==> reduceTo == e.bitrate * 3 / 4)
  {
    hide OverBudget, Highest, Run, Answer, PressureOf;
    RunCutStep(start, es, e);
    LastCutRemembered(start, es);
    KnownRemembered(start, es);
  }

  /** A cut less than eight seconds after the one before it answers at least a quarter more pressure. */
  lemma CloseCutsWorsen(start: Latency, es: seq<Event>, k: nat, e: Event)
    requires Fresh(start) && LastCut(start, es) == Some(k) && Answer(Run(start, es), e).reduceTo.Some?
    requires Since(e.now, es[k].now) < 8_000_000_000
    ensures e.Reported? && e.report.Some?
    ensures PressureOf(Run(start, es), e) >= PressureOf(Run(start, es[..k]), es[k]) * 1.25
  {
    LastCutRemembered(start, es);
    RunCutStep(start, es, e);
  }

  /** The last report of the run is the event at k, and it was settled and over budget. */
  ghost predicate LastReportIsBad(start: Latency, es: seq<Event>, k: nat) {
    && k < |es| && es[k].Reported? && ReportedAt(es) == Some(es[k].now)
    && (forall j :: k < j < |es| ==> !es[j].Reported?)
    && SettledReport(ChangedAt(start, es[..k]), es[k])
    && OverBudget(Run(start, es[..k + 1]), es[k])
  }

  lemma BadReportStaysLast(start: Latency, init: seq<Event>, e: Event, k: nat)
    requires LastReportIsBad(start, init, k) && !e.Reported?
    requires ReportedAt(init + [e]) == ReportedAt(init)
    ensures LastReportIsBad(start, init + [e], k)
  {
    var es := init + [e];
    assert es[..k] == init[..k] && es[..k + 1] == init[..k + 1];
  }

  lemma NewestIsBad(start: Latency, init: seq<Event>, e: Event)
    requires e.Reported? && SettledReport(ChangedAt(start, init), e) && OverBudget(Run(start, init + [e]), e)
    ensures LastReportIsBad(start, init + [e], |init|)
  {
    hide OverBudget, SettledReport, Run;
    assert (init + [e])[..|init|] == init && (init + [e])[..|init| + 1] == init + [e];
  }

  /** The last report of a run whose streak is alive was settled and over budget. */
  lemma {:induction false} StreakMeansBadReport(start: Latency, es: seq<Event>) returns (k: nat)
    requires Fresh(start) && Run(start, es).pressureStreak > 0
    ensures LastReportIsBad(start, es, k)
  {
    hide OverBudget, SettledReport, LastReportIsBad;
    var init, e := es[..|es| - 1], es[|es| - 1];
    assert init + [e] == es;
    assert if e.Reported? then SettledReport(ChangedAt(start, init), e) && OverBudget(Run(start, es), e)
      else Run(start, init).pressureStreak > 0 by { RunCutStep(start, init, e); }
    if e.Reported? {
      k := |init|;
      NewestIsBad(start, init, e);
    } else {
      k := StreakMeansBadReport(start, init);
      BadReportStaysLast(start, init, e, k);
    }
  }

  /** A cut answers two settled over-budget reports in a row, no more than two seconds apart, and
      always lowers the bitrate. */
  lemma CutAnswersTwoBadReports(start: Latency, es: seq<Event>, e: Event) returns (k: nat)
    requires Fresh(start) && Answer(Run(start, es), e).reduceTo.Some?
    ensures SettledReport(ChangedAt(start, es), e) && OverBudget(Run(start, es + [e]), e)
    ensures k < |es| && es[k].Reported? && (forall j :: k < j < |es| ==> !es[j].Reported?)
    ensures SettledReport(ChangedAt(start, es[..k]), es[k]) && OverBudget(Run(start, es[..k + 1]), es[k])
    ensures Since(e.now, es[k].now) <= 2_000_000_000
    ensures Answer(Run(start, es), e).reduceTo.value < e.bitrate
  {
    RunCutStep(start, es, e);
    k := StreakMeansBadReport(start, es);
  }

  /** The product computed for a cut fits 64 bits, because only a presented bitrate is ever cut. */
  lemma CutProductFits(s: Latency, e: Event)
    requires Answer(s, e).reduceTo.Some?
    ensures e.Reported? && e.bitrate * 3 <= U64_MAX
    ensures e.bitrate / 100 * 96 <= U64_MAX
  {
    EventCuts(s, e);
  }
}
