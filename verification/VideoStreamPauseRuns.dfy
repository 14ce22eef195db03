/** A run of the whole stream that never rises although its link loses nothing and three of every four delays are as low
    as they can be: the fourth pauses the climb and starts its count afresh. */
module VideoStreamPauseRuns {
  import opened Numbers
  import opened BitrateModel
  import opened BitrateInvariants
  import opened BitrateConvergence
  import opened BitratePauses
  import opened LatencyModel
  import opened LatencyLevels
  import opened VideoStreamModel
  import opened VideoStreamRuns
  import opened VideoStreamConvergence
  import opened VideoStreamLinks

  const HALF: U64 := 500_000

  /** Every fourth delay uses three quarters of the allowance, all others none of it. */
  function FourthDelay(n: nat): U64 {
    if n % 4 == 0 then HIGH else LOW
  }

  /** Latency control is turned on, and n reports follow, half a second apart, the first after a second. */
  ghost function FourthRun(n: nat): seq<Event> {
    if n == 0 then [LatencyEnabled(ABSOLUTE, 0)]
    else FourthRun(n - 1) + [LinkEvent(HALF, FourthDelay(n), BOOTSTRAP, (n + 1) * HALF_SECOND)]
  }

  ghost function AfterFourths(maximum: U64, n: nat): Policy {
    Run(ProbedPolicy(maximum, 0), FourthRun(n))
  }

  ghost predicate Watching(s: Latency, n: nat) {
    && Watches(s, n, BOOTSTRAP) && s.changedAt == 0 && s.ceiling.None?
    && s.lastReportAt == (if n == 0 then None else Some((n + 1) * HALF_SECOND))
  }

  /** The stream still waits at the bootstrap bitrate, and has counted no more reports than followed the last pause. */
  ghost predicate Waits(p: Policy, maximum: U64, n: nat) {
    && OnLink(p, n) && Watching(p.latency.value, n)
    && p.bitrate.target == BOOTSTRAP && p.bitrate.maximum == maximum && p.bitrate.latencyCeiling.None?
    && CountingReports(p.bitrate, p.bitrate.healthyReports) && p.bitrate.healthyReports <= n % 4
  }

  lemma StartWaits(maximum: U64)
    requires BOOTSTRAP < maximum
    ensures Waits(AfterFourths(maximum, 0), maximum, 0)
  {
    FromStartupProbeValid(maximum, 0);
    var start := ProbedPolicy(maximum, 0);
    assert FourthRun(0)[..0] == [] && Run(start, []) == start;
  }

  lemma AfterFourthsSteps(maximum: U64, n: nat)
    ensures AfterFourths(maximum, n + 1) ==
      AfterReport(AfterFourths(maximum, n), HALF, FourthDelay(n + 1), BOOTSTRAP, (n + 2) * HALF_SECOND)
  {
    hide Policy.ObserveReceiverWithLatency;
    var init, e := FourthRun(n), LinkEvent(HALF, FourthDelay(n + 1), BOOTSTRAP, (n + 2) * HALF_SECOND);
    assert FourthRun(n + 1) == init + [e] && (init + [e])[..|init|] == init;
  }

  /** What the controller does with a report, allowed to rise or not. */
  lemma CountOrClear(s: Controller, r: Report, allowIncrease: bool, t: Controller)
    requires CountingReports(s, s.healthyReports) && CleanReport(s, r)
    requires allowIncrease ==> s.healthyReports < HEALTHY_REPORTS_BEFORE_RECOVERY - 1
    requires t == s.Observe(r.path, r.delivery, allowIncrease).state
    ensures CountingReports(t, if allowIncrease then s.healthyReports + 1 else 0)
    ensures t.target == s.target && t.maximum == s.maximum && SameWatch(s, r, t)
    ensures s.Observe(r.path, r.delivery, allowIncrease).change.None?
  {
    hide Controller.Observe, CleanReport;
    if allowIncrease {
      AllowedReportCounts(s, r, s.healthyReports);
    } else {
      PausedReportClearsCount(s, r, s.healthyReports);
    }
    CleanReportSettles(s, r, allowIncrease);
  }

  /** What the latency policy makes of the next report. */
  lemma NextIsWatched(p: Policy, maximum: U64, n: nat, report: Option<LatencyReport>, now: nat)
    requires Waits(p, maximum, n) && report == Some(LevelReport(FourthDelay(n + 1), BOOTSTRAP))
      && now == (n + 2) * HALF_SECOND
    ensures var (observed, evaluation) := p.Evaluate(report, now);
      && Watching(p.KnownLimits(observed), n + 1) && Asked(p, observed) == p.bitrate
      && evaluation == Evaluation(n + 1 >= BASELINE_SAMPLES && (n + 1) % 4 != 0, None, None)
  {
    hide Policy.Evaluate, Levelled, LevelReport, CountingReports, Unpressed;
    LinkEvaluates(p, n, FourthDelay(n + 1), now);
  }

  lemma NextIsExpected(p: Policy, maximum: U64, n: nat)
    requires Waits(p, maximum, n)
    ensures Expects(p, n, FourthDelay(n + 1), (n + 2) * HALF_SECOND)
  {
    hide OnLink, CountingReports;
  }

  lemma LosslessCounts(s: Controller, allowIncrease: bool, t: Controller)
    requires CountingReports(s, s.healthyReports)
    requires allowIncrease ==> s.healthyReports < HEALTHY_REPORTS_BEFORE_RECOVERY - 1
    requires t == s.Observe(NO_PATH, Lossless(HALF), allowIncrease).state
    ensures CountingReports(t, if allowIncrease then s.healthyReports + 1 else 0)
    ensures t.target == s.target && t.maximum == s.maximum && SameWatch(s, Report(NO_PATH, Lossless(HALF)), t)
    ensures s.Observe(NO_PATH, Lossless(HALF), allowIncrease).change.None?
  {
    assert TargetInRange(s);
    hide Controller.Observe, CountingReports, CleanReport;
    LosslessIsClean(s, HALF);
    CountOrClear(s, Report(NO_PATH, Lossless(HALF)), allowIncrease, t);
  }

  lemma WaitGoesOn(p: Policy, maximum: U64, n: nat, q: Policy)
    requires Waits(p, maximum, n)
    requires q == AfterReport(p, HALF, FourthDelay(n + 1), BOOTSTRAP, (n + 2) * HALF_SECOND)
    ensures Waits(q, maximum, n + 1)
  {
    hide Controller.Observe, Policy.Evaluate, Watches, LevelReport, AfterReport, TargetInRange, Policy.KnownLimits,
      Asked;
    hide CountingReports, Expects, FourthDelay, Unpressed;
    var report := Some(LevelReport(FourthDelay(n + 1), BOOTSTRAP));
    NextIsExpected(p, maximum, n);
    NextIsWatched(p, maximum, n, report, (n + 2) * HALF_SECOND);
    UncutOnLink(p, n, HALF, FourthDelay(n + 1), (n + 2) * HALF_SECOND, q);
    var allowIncrease := p.Evaluate(report, (n + 2) * HALF_SECOND).1.allowIncrease;
    LosslessCounts(p.bitrate, allowIncrease, q.bitrate);
    CountingIsUnpressed(q.bitrate, if allowIncrease then p.bitrate.healthyReports + 1 else 0);
  }

  lemma CountingIsUnpressed(s: Controller, count: nat)
    requires CountingReports(s, count)
    ensures Unpressed(s) && s.healthyReports == count
  {
  }

  /** From a start that measured nothing, a stream with these reports stays at the bootstrap bitrate for ever, whatever
      the maximum. */
  lemma {:induction false} FourthPausedNeverRises(maximum: U64, n: nat)
    requires BOOTSTRAP < maximum
    ensures Waits(AfterFourths(maximum, n), maximum, n)
    ensures AfterFourths(maximum, n).bitrate.target == BOOTSTRAP < AfterFourths(maximum, n).bitrate.maximum
  {
    hide Waits, AfterFourths, AfterReport;
    if n == 0 {
      StartWaits(maximum);
    } else {
      FourthPausedNeverRises(maximum, n - 1);
      AfterFourthsSteps(maximum, n - 1);
      WaitGoesOn(AfterFourths(maximum, n - 1), maximum, n - 1, AfterFourths(maximum, n));
    }
    WaitsLow(AfterFourths(maximum, n), maximum, n);
  }

  lemma WaitsLow(p: Policy, maximum: U64, n: nat)
    requires Waits(p, maximum, n)
    ensures p.bitrate.target == BOOTSTRAP && p.bitrate.maximum == maximum
  {
  }
}
