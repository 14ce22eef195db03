/** The whole stream policy converges: clean reports reach the maximum, through every pause the latency policy makes, as
    long as it allows four rises in a row again and again. On a link with room it does. */
module VideoStreamConvergence {
  import opened Numbers
  import opened BitrateModel
  import opened BitrateInvariants
  import opened BitrateConvergence
  import opened BitratePauses
  import opened Descent
  import opened LatencyModel
  import opened VideoStreamModel
  import opened VideoStreamRuns
  import Cuts = LatencyCuts

  datatype StreamReport = StreamReport(path: Path, delivery: Delivery, latency: Option<LatencyReport>, now: nat)

  /** A policy under latency control with no sender pressure pending. */
  ghost predicate Undisturbed(p: Policy) {
    Unpressed(p.bitrate) && p.latency.Some?
  }

  ghost predicate Allowed(p: Policy, r: StreamReport)
    requires p.latency.Some?
  {
    p.Evaluate(r.latency, r.now).1.allowIncrease
  }

  /** Delivery is clean and latency neither ends the session nor cuts: it allows a rise, or holds the climb for now. */
  ghost predicate CleanStreamReport(p: Policy, r: StreamReport)
    requires p.latency.Some?
  {
    var evaluation := p.Evaluate(r.latency, r.now).1;
    CleanReport(p.bitrate, Report(r.path, r.delivery)) && evaluation.failure.None? && evaluation.reduceTo.None?
  }

  ghost predicate CleanStreamStep(p: Policy, r: StreamReport, q: Policy) {
    && p.latency.Some? && CleanStreamReport(p, r)
    && q == p.ObserveReceiverWithLatency(r.path, r.delivery, r.latency, r.now).policy
  }

  /** How often the latency limit the controller climbs under can still change before the target rises. */
  ghost function LimitChangesLeft(p: Policy): nat
    requires p.latency.Some?
  {
    var limit := p.latency.value.ceiling;
    var next := if p.bitrate.returningTo.Some? then None else limit;
    (if limit.None? then 0 else if limit.value < p.bitrate.target then 4 else 2)
    + (if p.bitrate.latencyCeiling == next then 0 else 1)
  }

  /** How far the stream is from its maximum, leaving out the healthy reports in a row, which a pause clears. */
  ghost function StreamDistance(p: Policy): Distance {
    if p.latency.Some? && TargetInRange(p.bitrate)
    then Stage(p.bitrate).(gap := p.bitrate.maximum - p.bitrate.target, limits := LimitChangesLeft(p))
    else Distance(0, 0, 0, 0, 0, 0)
  }

  /** A report that asks for no cut at most moves the latency limit up to the bitrate that held. */
  lemma UncutReportKeepsLimit(p: Policy, report: Option<LatencyReport>, now: nat)
    requires p.latency.Some? && p.Evaluate(report, now).1.reduceTo.None?
    ensures LimitMovesUp(p, p.Evaluate(report, now).0)
  {
    EvaluationIsAnAnswer(p, report, now);
    Cuts.EventLimit(p.latency.value, Seen(p, report, now));
  }

  ghost predicate LimitMovesUp(p: Policy, observed: Latency)
    requires p.latency.Some?
  {
    || observed.ceiling == p.latency.value.ceiling
    || (&& p.latency.value.ceiling.Some? && p.bitrate.target > p.latency.value.ceiling.value
        && observed.ceiling == Some(p.bitrate.target))
  }

  /** The controller as the step asks it: with the latency limit known by then. */
  ghost function Asked(p: Policy, observed: Latency): Controller {
    p.bitrate.ConfigureLatencyCeiling(p.KnownLimits(observed).ceiling)
  }

  lemma CleanStepShape(p: Policy, r: StreamReport, q: Policy)
    requires CleanStreamStep(p, r, q)
    ensures var observed := p.Evaluate(r.latency, r.now).0;
      var limits := p.KnownLimits(observed);
      var o := Asked(p, observed).Observe(r.path, r.delivery, Allowed(p, r));
      && q.bitrate == o.state
      && q.latency == Some(if o.change.Some? then limits.BitrateChanged(r.now) else limits)
  {
    hide Controller.Observe, Latency.Observe, CleanReport;
  }

  lemma LimitsSettle(p: Policy, observed: Latency, s: Controller, q: Policy)
    requires p.latency.Some? && q.latency.Some? && q.bitrate.target == p.bitrate.target
    requires LimitMovesUp(p, observed) && s == Asked(p, observed)
    requires q.latency.value.ceiling == p.KnownLimits(observed).ceiling && LatencyLimitKept(s, q.bitrate)
    ensures LimitChangesLeft(q) <= LimitChangesLeft(p)
    ensures LimitChangesLeft(q) == LimitChangesLeft(p) ==> s == p.bitrate
  {
    assert q.bitrate.latencyCeiling == (if q.bitrate.returningTo.Some? then None else q.latency.value.ceiling);
  }

  lemma AskedIsClean(p: Policy, r: StreamReport, observed: Latency)
    requires Undisturbed(p) && CleanReport(p.bitrate, Report(r.path, r.delivery))
    ensures Unpressed(Asked(p, observed)) && CleanReport(Asked(p, observed), Report(r.path, r.delivery))
  {
  }

  /** What a clean step does: the distance settles, and when it stands still an allowed report has counted. */
  ghost predicate StepSettles(p: Policy, q: Policy, allowed: bool) {
    && Undisturbed(q) && q.bitrate.maximum == p.bitrate.maximum && p.bitrate.target <= q.bitrate.target
    && Settling(StreamDistance(p), StreamDistance(q))
    && (allowed && p.bitrate.target < p.bitrate.maximum && StreamDistance(q) == StreamDistance(p) ==>
          q.bitrate.healthyReports == p.bitrate.healthyReports + 1 < HEALTHY_REPORTS_BEFORE_RECOVERY)
  }

  lemma DistanceSettles(p: Policy, observed: Latency, s: Controller, q: Policy, allowed: bool)
    requires Undisturbed(p) && Undisturbed(q) && LimitMovesUp(p, observed) && s == Asked(p, observed)
    requires q.latency.value.ceiling == p.KnownLimits(observed).ceiling && LatencyLimitKept(s, q.bitrate)
    requires q.bitrate.maximum == s.maximum && s.target <= q.bitrate.target
    requires s.target < s.maximum ==> StageSettles(s, q.bitrate, allowed)
    ensures StepSettles(p, q, allowed)
  {
    hide Phase, ProbeLeft, WaitLeft, Controller.NearSoftCeiling, LimitChangesLeft, LatencyLimitKept, LimitMovesUp,
      Valid;
    assert s.target == p.bitrate.target && s.maximum == p.bitrate.maximum;
    assert TargetInRange(p.bitrate) && TargetInRange(q.bitrate) by { Ranged(p, q); }
    if q.bitrate.target == p.bitrate.target {
      LimitsSettle(p, observed, s, q);
    }
  }

  lemma Ranged(p: Policy, q: Policy)
    requires Undisturbed(p) && Undisturbed(q)
    ensures TargetInRange(p.bitrate) && TargetInRange(q.bitrate)
  {
  }

  lemma CleanStreamStepSettles(p: Policy, r: StreamReport, q: Policy)
    requires Undisturbed(p) && CleanStreamStep(p, r, q)
    ensures StepSettles(p, q, Allowed(p, r))
    ensures q.bitrate.target == p.bitrate.target ==>
      q.latency.value.changedAt == p.Evaluate(r.latency, r.now).0.changedAt
  {
    hide Controller.Observe, Policy.Evaluate, CleanReport, Unpressed, LatencyLimitKept, StageSettles, LimitMovesUp;
    hide CleanStreamStep, Policy.ObserveReceiverWithLatency, StepSettles;
    var observed := p.Evaluate(r.latency, r.now).0;
    var s := Asked(p, observed);
    assert CleanReport(p.bitrate, Report(r.path, r.delivery)) && p.Evaluate(r.latency, r.now).1.reduceTo.None? by {
      StepIsClean(p, r, q);
    }
    CleanStepShape(p, r, q);
    UncutReportKeepsLimit(p, r.latency, r.now);
    AskedIsClean(p, r, observed);
    CleanReportSettles(s, Report(r.path, r.delivery), Allowed(p, r));
    DistanceSettles(p, observed, s, q, Allowed(p, r));
  }

  lemma StepIsClean(p: Policy, r: StreamReport, q: Policy)
    requires CleanStreamStep(p, r, q)
    ensures CleanReport(p.bitrate, Report(r.path, r.delivery)) && p.Evaluate(r.latency, r.now).1.reduceTo.None?
  {
    hide CleanReport, Policy.Evaluate;
  }

  // Endless runs of clean reports

  ghost predicate CleanStreamRun(run: nat -> Policy, reports: nat -> StreamReport) {
    Undisturbed(run(0)) && forall i: nat :: CleanStreamStep(run(i), reports(i), run(i + 1))
  }

  ghost predicate AllowedAt(run: nat -> Policy, reports: nat -> StreamReport, i: nat) {
    run(i).latency.Some? && Allowed(run(i), reports(i))
  }

  /** From report m on, the target rises at once or four reports in a row allow it to. */
  ghost predicate AdvancesAt(run: nat -> Policy, reports: nat -> StreamReport, m: nat) {
    || run(m).bitrate.target < run(m + 1).bitrate.target
    || (AllowedAt(run, reports, m) && AllowedAt(run, reports, m + 1) && AllowedAt(run, reports, m + 2)
        && AllowedAt(run, reports, m + 3))
  }

  ghost predicate AdvancesLater(run: nat -> Policy, reports: nat -> StreamReport, n: nat) {
    exists m: nat :: m >= n && AdvancesAt(run, reports, m)
  }

  lemma {:induction false} CleanStreamRunSettles(run: nat -> Policy, reports: nat -> StreamReport, n: nat)
    requires CleanStreamRun(run, reports)
    ensures Undisturbed(run(n)) && run(n).bitrate.maximum == run(0).bitrate.maximum
    ensures StepSettles(run(n), run(n + 1), AllowedAt(run, reports, n))
  {
    hide CleanStreamStep, StepSettles, Undisturbed, Allowed;
    if n > 0 {
      CleanStreamRunSettles(run, reports, n - 1);
      SettledStaysUndisturbed(run(n - 1), run(n - 1 + 1), AllowedAt(run, reports, n - 1));
    }
    assert CleanStreamStep(run(n), reports(n), run(n + 1));
    StepSettled(run(n), reports(n), run(n + 1));
  }

  lemma SettledStaysUndisturbed(p: Policy, q: Policy, allowed: bool)
    requires StepSettles(p, q, allowed)
    ensures Undisturbed(q) && q.bitrate.maximum == p.bitrate.maximum
  {
  }

  lemma StepSettled(p: Policy, r: StreamReport, q: Policy)
    requires Undisturbed(p) && CleanStreamStep(p, r, q)
    ensures p.latency.Some? && StepSettles(p, q, Allowed(p, r))
  {
    hide CleanStreamStep, StepSettles, Allowed;
    CleanStreamStepSettles(p, r, q);
  }

  /** Enough allowed reports in a row shorten the distance. */
  lemma {:induction false} AllowedRowShortens(run: nat -> Policy, reports: nat -> StreamReport, n: nat, left: nat)
    returns (m: nat)
    requires CleanStreamRun(run, reports) && StreamDistance(run(n)).gap > 0
    requires left >= 1 && left + run(n).bitrate.healthyReports >= HEALTHY_REPORTS_BEFORE_RECOVERY
    requires forall j: nat :: n <= j < n + left ==> AllowedAt(run, reports, j)
    ensures m > n && Shorter(StreamDistance(run(m)), StreamDistance(run(n)))
    decreases left
  {
    hide CleanStreamRun, Allowed, Stage, LimitChangesLeft;
    CleanStreamRunSettles(run, reports, n);
    assert AllowedAt(run, reports, n);
    if StreamDistance(run(n + 1)) != StreamDistance(run(n)) {
      m := n + 1;
    } else {
      m := AllowedRowShortens(run, reports, n + 1, left - 1);
    }
  }

  lemma AdvanceShortens(run: nat -> Policy, reports: nat -> StreamReport, m: nat) returns (k: nat)
    requires CleanStreamRun(run, reports) && StreamDistance(run(m)).gap > 0 && AdvancesAt(run, reports, m)
    ensures k > m && Shorter(StreamDistance(run(k)), StreamDistance(run(m)))
  {
    hide CleanStreamRun, AllowedAt, Stage, LimitChangesLeft, Valid;
    CleanStreamRunSettles(run, reports, m);
    if run(m).bitrate.target < run(m + 1).bitrate.target {
      k := m + 1;
    } else {
      k := AllowedRowShortens(run, reports, m, 4);
    }
  }

  lemma CleanStreamRunNeverFalls(run: nat -> Policy, reports: nat -> StreamReport, n: nat)
    requires CleanStreamRun(run, reports)
    ensures run(n).bitrate.maximum == run(0).bitrate.maximum && run(n).bitrate.target <= run(n + 1).bitrate.target
    ensures StreamDistance(run(n)).gap == run(0).bitrate.maximum - run(n).bitrate.target
    ensures Settling(StreamDistance(run(n)), StreamDistance(run(n + 1)))
  {
    hide CleanStreamRun, AllowedAt, Stage, LimitChangesLeft;
    CleanStreamRunSettles(run, reports, n);
  }

  ghost predicate ShortensLater(run: nat -> Policy, n: nat) {
    exists m: nat :: m > n && Shorter(StreamDistance(run(m)), StreamDistance(run(n)))
  }

  lemma ShorterLater(run: nat -> Policy, d: nat -> Distance, n: nat)
    requires ShortensLater(run, n) && forall i: nat :: d(i) == StreamDistance(run(i))
    ensures ShrinksLater(d, n)
  {
    hide StreamDistance, Shorter;
    var m: nat :| m > n && Shorter(StreamDistance(run(m)), StreamDistance(run(n)));
    assert d(m) == StreamDistance(run(m)) && d(n) == StreamDistance(run(n));
  }

  /** A run of clean reports whose distance shrinks again and again reaches the maximum for good. */
  lemma ShrinkingRunConverges(run: nat -> Policy, reports: nat -> StreamReport) returns (settled: nat)
    requires CleanStreamRun(run, reports)
    requires forall n: nat :: StreamDistance(run(n)).gap > 0 ==> ShortensLater(run, n)
    ensures forall n: nat :: run(n).bitrate.target <= run(n + 1).bitrate.target
    ensures forall n: nat :: settled <= n ==> run(n).bitrate.target == run(0).bitrate.maximum
  {
    hide StreamDistance, CleanStreamRun, Settling, Shorter;
    var d := (i: nat) => StreamDistance(run(i));
    forall n: nat
      ensures run(n).bitrate.target <= run(n + 1).bitrate.target && Settling(d(n), d(n + 1))
      ensures d(n).gap == run(0).bitrate.maximum - run(n).bitrate.target
    {
      CleanStreamRunNeverFalls(run, reports, n);
    }
    forall n: nat | d(n).gap > 0
      ensures ShrinksLater(d, n)
    {
      ShorterLater(run, d, n);
    }
    settled := RecurringGapEnds(d);
  }

  /** The distance between two reports of a run settles like that of one. */
  lemma CleanStreamRunSettlesOver(run: nat -> Policy, reports: nat -> StreamReport, n: nat, m: nat)
    requires CleanStreamRun(run, reports) && n <= m
    ensures Settling(StreamDistance(run(n)), StreamDistance(run(m)))
  {
    hide StreamDistance, CleanStreamRun, Settling;
    var d := (i: nat) => StreamDistance(run(i));
    forall i: nat
      ensures Settling(d(i), d(i + 1))
    {
      CleanStreamRunNeverFalls(run, reports, i);
    }
    SettlesOver(d, n, m);
  }

  /** From every policy state with no sender pressure pending, clean reports lead the target to the maximum for good,
      whatever limits delivery, latency or a collapse had left behind and however often the latency policy holds the
      climb, as long as it allows four rises in a row, or a rise happens, again and again. */
  lemma CleanStreamRunConverges(run: nat -> Policy, reports: nat -> StreamReport) returns (settled: nat)
    requires CleanStreamRun(run, reports)
    requires forall n: nat :: AdvancesLater(run, reports, n)
    ensures forall n: nat :: run(n).bitrate.target <= run(n + 1).bitrate.target
    ensures forall n: nat :: settled <= n ==> run(n).bitrate.target == run(0).bitrate.maximum
  {
    hide StreamDistance, CleanStreamRun, AdvancesAt;
    forall n: nat | StreamDistance(run(n)).gap > 0
      ensures ShortensLater(run, n)
    {
      assert AdvancesLater(run, reports, n);
      var m: nat :| m >= n && AdvancesAt(run, reports, m);
      CleanStreamRunSettlesOver(run, reports, n, m);
      if StreamDistance(run(m)) == StreamDistance(run(n)) {
        var k := AdvanceShortens(run, reports, m);
      } else {
        assert m > n && Shorter(StreamDistance(run(m)), StreamDistance(run(n)));
      }
    }
    settled := ShrinkingRunConverges(run, reports);
  }
}
