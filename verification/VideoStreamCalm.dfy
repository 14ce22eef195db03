/** A calm link always wins: reports that arrive in time, lose nothing and leave room in every delay allowance raise the
    target to the maximum, at any cadence, through settling after each rise and through learning the baselines. */
module VideoStreamCalm {
  import opened Numbers
  import opened BitrateModel
  import opened BitrateConvergence
  import opened BitratePauses
  import opened Descent
  import opened LatencyModel
  import opened LatencyReadiness
  import opened VideoStreamModel
  import opened VideoStreamRuns
  import opened VideoStreamConvergence
  import LatencyRuns

  /** Delivery is clean, every channel in use is measured with room to spare, and the player presents the bitrate in
      force once `lag` has passed since it changed. */
  ghost predicate CalmReport(p: Policy, r: StreamReport, lag: nat)
    requires p.latency.Some?
  {
    && CleanReport(p.bitrate, Report(r.path, r.delivery))
    && Roomy(p.latency.value, Seen(p, r.latency, r.now))
    && (Since(r.now, p.latency.value.changedAt) >= lag ==> r.latency.value.presentedBitrate == p.bitrate.target)
  }

  ghost predicate CalmStep(p: Policy, r: StreamReport, q: Policy, lag: nat) {
    && p.latency.Some? && CalmReport(p, r, lag)
    && q == p.ObserveReceiverWithLatency(r.path, r.delivery, r.latency, r.now).policy
  }

  ghost function MissingDelays(p: Policy): nat {
    if p.latency.None? then 0 else MissingAll(p.latency.value)
  }

  ghost predicate Learning(p: Policy) {
    p.latency.Some? && WindowsBounded(p.latency.value)
  }

  lemma SameWindows(p: Policy, observed: Latency, change: Option<Change>, now: nat)
    requires WindowsBounded(observed)
    ensures var limits := p.KnownLimits(observed);
      var after := if change.Some? then limits.BitrateChanged(now) else limits;
      WindowsBounded(after) && MissingAll(after) == MissingAll(observed)
  {
  }

  lemma SeenIsSettled(p: Policy, r: StreamReport, lag: nat)
    requires p.latency.Some? && CalmReport(p, r, lag)
    requires Since(r.now, p.latency.value.changedAt) >= lag && Since(r.now, p.latency.value.changedAt) >= SETTLE
    ensures LatencyRuns.SettledReport(p.latency.value.changedAt, Seen(p, r.latency, r.now))
  {
    hide CleanReport;
  }

  lemma CalmIsClean(p: Policy, r: StreamReport, lag: nat)
    requires Learning(p) && CalmReport(p, r, lag)
    ensures CleanStreamReport(p, r) && WindowsBounded(p.Evaluate(r.latency, r.now).0)
    ensures p.Evaluate(r.latency, r.now).0.changedAt == p.latency.value.changedAt
    ensures MissingAll(p.Evaluate(r.latency, r.now).0) <= MissingDelays(p)
    ensures Since(r.now, p.latency.value.changedAt) >= lag + SETTLE && !Allowed(p, r) ==>
      MissingAll(p.Evaluate(r.latency, r.now).0) < MissingDelays(p)
  {
    hide CleanReport, MissingAll, Roomy, Seen, Policy.Evaluate, LatencyRuns.Step, LatencyRuns.Answer, WindowsBounded;
    hide LatencyRuns.SettledReport;
    var e := Seen(p, r.latency, r.now);
    EvaluationIsAnAnswer(p, r.latency, r.now);
    RoomyReportAllows(p.latency.value, e);
    LatencyRuns.StepRemembers(p.latency.value, e);
    assert e.Reported? by { SeenIsReported(p, r); }
    if Since(r.now, p.latency.value.changedAt) >= lag + SETTLE {
      SeenIsSettled(p, r, lag);
    }
  }

  lemma SeenIsReported(p: Policy, r: StreamReport)
    ensures Seen(p, r.latency, r.now).Reported?
  {
  }

  /** What a calm step does to what the latency policy still has to learn. */
  lemma CalmStepLearns(p: Policy, r: StreamReport, q: Policy, lag: nat)
    requires Undisturbed(p) && Learning(p) && CalmStep(p, r, q, lag)
    ensures CleanStreamStep(p, r, q) && Learning(q) && MissingDelays(q) <= MissingDelays(p)
    ensures Since(r.now, p.latency.value.changedAt) >= lag + SETTLE && !Allowed(p, r) ==>
      MissingDelays(q) < MissingDelays(p)
    ensures q.bitrate.target == p.bitrate.target ==> q.latency.value.changedAt == p.latency.value.changedAt
  {
    hide CalmReport, CleanStreamReport, WindowsBounded, MissingAll, Allowed, Policy.ObserveReceiverWithLatency,
      Undisturbed;
    hide Policy.Evaluate, Policy.KnownLimits, Asked, Controller.Observe;
    CalmIsClean(p, r, lag);
    CleanStepShape(p, r, q);
    CleanStreamStepSettles(p, r, q);
    var observed := p.Evaluate(r.latency, r.now).0;
    SameWindows(p, observed, Asked(p, observed).Observe(r.path, r.delivery, Allowed(p, r)).change, r.now);
  }

  // Endless calm runs

  ghost predicate CalmRun(run: nat -> Policy, reports: nat -> StreamReport, lag: nat) {
    Undisturbed(run(0)) && Learning(run(0)) && forall i: nat :: CalmStep(run(i), reports(i), run(i + 1), lag)
  }

  ghost predicate Reaches(reports: nat -> StreamReport, at: nat) {
    exists i: nat :: reports(i).now >= at
  }

  /** Reports come in the order of their instants, which pass every bound. */
  ghost predicate TimeGoesOn(reports: nat -> StreamReport) {
    && (forall i: nat :: reports(i).now <= reports(i + 1).now)
    && forall at: nat :: Reaches(reports, at)
  }

  lemma {:induction false} LaterIsLater(reports: nat -> StreamReport, n: nat, m: nat)
    requires TimeGoesOn(reports) && n <= m
    ensures reports(n).now <= reports(m).now
    decreases m
  {
    if n < m {
      LaterIsLater(reports, n, m - 1);
      assert reports(m - 1).now <= reports(m - 1 + 1).now;
    }
  }

  lemma {:induction false} CalmRunIsClean(run: nat -> Policy, reports: nat -> StreamReport, lag: nat, n: nat)
    requires CalmRun(run, reports, lag)
    ensures Undisturbed(run(n)) && Learning(run(n)) && CleanStreamStep(run(n), reports(n), run(n + 1))
    ensures Learning(run(n + 1)) && MissingDelays(run(n + 1)) <= MissingDelays(run(n))
    ensures Since(reports(n).now, run(n).latency.value.changedAt) >= lag + SETTLE && !AllowedAt(run, reports, n) ==>
      MissingDelays(run(n + 1)) < MissingDelays(run(n))
    ensures run(n + 1).bitrate.target == run(n).bitrate.target ==>
      run(n + 1).latency.value.changedAt == run(n).latency.value.changedAt
  {
    hide CalmStep, CleanStreamStep, MissingDelays, WindowsBounded, Allowed, Unpressed, StepSettles;
    if n > 0 {
      CalmRunIsClean(run, reports, lag, n - 1);
      StepSettled(run(n - 1), reports(n - 1), run(n - 1 + 1));
      SettledStaysUndisturbed(run(n - 1), run(n - 1 + 1), Allowed(run(n - 1), reports(n - 1)));
    }
    assert CalmStep(run(n), reports(n), run(n + 1), lag);
    CalmStepLearns(run(n), reports(n), run(n + 1), lag);
  }

  lemma CalmRunIsCleanRun(run: nat -> Policy, reports: nat -> StreamReport, lag: nat)
    requires CalmRun(run, reports, lag)
    ensures CleanStreamRun(run, reports)
  {
    hide CalmStep, CleanStreamStep, MissingDelays, Learning;
    forall i: nat
      ensures CleanStreamStep(run(i), reports(i), run(i + 1))
    {
      CalmRunIsClean(run, reports, lag, i);
    }
  }

  /** While the distance stands still the bitrate does not change, and nothing learned is lost. */
  lemma {:induction false} CalmStands(run: nat -> Policy, reports: nat -> StreamReport, lag: nat, n: nat, m: nat)
    requires CalmRun(run, reports, lag) && n <= m
    requires StreamDistance(run(n)).gap > 0 && StreamDistance(run(m)) == StreamDistance(run(n))
    ensures Learning(run(n)) && Learning(run(m)) && MissingDelays(run(m)) <= MissingDelays(run(n))
    ensures run(m).latency.value.changedAt == run(n).latency.value.changedAt
    decreases m
  {
    hide CalmRun, StreamDistance, MissingDelays, WindowsBounded, Undisturbed, CleanStreamStep, CleanStreamRun,
      AllowedAt;
    CalmRunIsClean(run, reports, lag, n);
    if n < m {
      CalmRunIsCleanRun(run, reports, lag);
      CleanStreamRunSettlesOver(run, reports, n, m - 1);
      CleanStreamRunSettlesOver(run, reports, m - 1, m);
      assert StreamDistance(run(m - 1)) == StreamDistance(run(n));
      CalmRunIsClean(run, reports, lag, m - 1);
      CleanStreamRunNeverFalls(run, reports, m - 1);
      CleanStreamRunNeverFalls(run, reports, m);
      CalmStands(run, reports, lag, n, m - 1);
    }
  }

  /** Four reports after it has settled, the distance is shorter or something was learned. */
  lemma {:induction false} SettledCalmMoves(run: nat -> Policy, reports: nat -> StreamReport, lag: nat, n: nat)
    returns (m: nat)
    requires CalmRun(run, reports, lag) && TimeGoesOn(reports) && Learning(run(n))
    requires StreamDistance(run(n)).gap > 0
    requires reports(n).now >= run(n).latency.value.changedAt + lag + SETTLE
    ensures m > n && Learning(run(m))
    ensures
      || Shorter(StreamDistance(run(m)), StreamDistance(run(n)))
      || (StreamDistance(run(m)) == StreamDistance(run(n)) && MissingDelays(run(m)) < MissingDelays(run(n)))
    decreases HEALTHY_REPORTS_BEFORE_RECOVERY - run(n).bitrate.healthyReports
  {
    hide CalmRun, StreamDistance, MissingDelays, WindowsBounded, Undisturbed, CleanStreamStep, CleanStreamRun,
      AllowedAt;
    CalmRunIsCleanRun(run, reports, lag);
    CalmRunIsClean(run, reports, lag, n);
    CleanStreamRunNeverFalls(run, reports, n);
    if StreamDistance(run(n + 1)) != StreamDistance(run(n)) || !AllowedAt(run, reports, n) {
      m := n + 1;
    } else {
      CleanStreamRunNeverFalls(run, reports, n + 1);
      AllowedCounts(run, reports, n);
      assert reports(n).now <= reports(n + 1).now;
      m := SettledCalmMoves(run, reports, lag, n + 1);
    }
  }

  lemma AllowedCounts(run: nat -> Policy, reports: nat -> StreamReport, n: nat)
    requires CleanStreamRun(run, reports) && AllowedAt(run, reports, n)
    requires StreamDistance(run(n)).gap > 0 && StreamDistance(run(n + 1)) == StreamDistance(run(n))
    ensures run(n + 1).bitrate.healthyReports == run(n).bitrate.healthyReports + 1 < HEALTHY_REPORTS_BEFORE_RECOVERY
  {
    hide CleanStreamRun, AllowedAt, Stage, LimitChangesLeft;
    CleanStreamRunSettles(run, reports, n);
  }

  lemma {:induction false} CalmShortens(run: nat -> Policy, reports: nat -> StreamReport, lag: nat, n: nat)
    returns (m: nat)
    requires CalmRun(run, reports, lag) && TimeGoesOn(reports) && StreamDistance(run(n)).gap > 0
    ensures m > n && Shorter(StreamDistance(run(m)), StreamDistance(run(n)))
    decreases MissingDelays(run(n))
  {
    hide CalmRun, StreamDistance, MissingDelays, WindowsBounded, Undisturbed, CleanStreamStep, CleanStreamRun,
      AllowedAt;
    CalmRunIsClean(run, reports, lag, n);
    CalmRunIsCleanRun(run, reports, lag);
    assert Reaches(reports, run(n).latency.value.changedAt + lag + SETTLE);
    var i: nat :| reports(i).now >= run(n).latency.value.changedAt + lag + SETTLE;
    var k := if i >= n then i else n;
    LaterIsLater(reports, i, k);
    CleanStreamRunSettlesOver(run, reports, n, k);
    if StreamDistance(run(k)) != StreamDistance(run(n)) {
      m := k;
    } else {
      CalmStands(run, reports, lag, n, k);
      m := SettledCalmMoves(run, reports, lag, k);
      if StreamDistance(run(m)) == StreamDistance(run(k)) {
        m := CalmShortens(run, reports, lag, m);
      }
    }
  }

  /** On a calm link every policy under latency control with no sender pressure pending reaches the maximum for good. */
  lemma CalmLinkConverges(run: nat -> Policy, reports: nat -> StreamReport, lag: nat) returns (settled: nat)
    requires CalmRun(run, reports, lag) && TimeGoesOn(reports)
    ensures forall n: nat :: run(n).bitrate.target <= run(n + 1).bitrate.target
    ensures forall n: nat :: settled <= n ==> run(n).bitrate.target == run(0).bitrate.maximum
  {
    hide CalmRun, StreamDistance, TimeGoesOn, CleanStreamRun;
    CalmRunIsCleanRun(run, reports, lag);
    forall n: nat | StreamDistance(run(n)).gap > 0
      ensures ShortensLater(run, n)
    {
      var m := CalmShortens(run, reports, lag, n);
    }
    settled := ShrinkingRunConverges(run, reports);
  }
}
