/** What the latency policy makes of a link whose delay stands at one of three levels: at the baseline, at three
    quarters of the allowance, or above the budget. */
module LatencyLevels {
  import opened Numbers
  import opened Sorting
  import opened BitrateModel
  import opened LatencyModel
  import opened LatencyRuns

  const LOW: U64 := 10_000
  const HIGH: U64 := 25_000
  const OVER: U64 := 50_000
  const ABSOLUTE: U64 := 100_000

  /** The first channel has seen n such delays, the first two of them low, which set its baseline. */
  ghost predicate Levelled(c: Channel, n: nat) {
    && |c.calibration| == Min(n, BASELINE_SAMPLES)
    && (forall i :: 0 <= i < |c.calibration| ==> LOW <= c.calibration[i])
    && (n < BASELINE_SAMPLES ==>
          && c.baseline.None?
          && (n > 0 ==> c.calibration[0] == LOW) && (n > 1 ==> c.calibration[1] == LOW))
    && (n >= BASELINE_SAMPLES ==> c.baseline == Some(LOW))
  }

  predicate IsLevel(delay: U64) {
    delay == LOW || delay == HIGH || delay == OVER
  }

  /** The next delay may have this level. */
  predicate CanFollow(n: nat, delay: U64) {
    IsLevel(delay) && (n < 2 ==> delay == LOW)
  }

  function LevelReport(delay: U64, bitrate: U64): LatencyReport {
    LatencyReport(Some(Measurement(delay, 0, false, 1, delay)), None, None, false, false, bitrate)
  }

  /** Only the video is in use, its typical delay is this, and the bitrate is presented. */
  ghost predicate Shows(report: LatencyReport, delay: U64, bitrate: U64) {
    && report.video.Some? && report.video.value.Valid() && report.video.value.Typical() == delay
    && report == LatencyReport(report.video, None, None, false, false, bitrate)
  }

  lemma SecondSmallestAtLeast(xs: seq<U64>, low: U64)
    requires |xs| >= 2 && forall i :: 0 <= i < |xs| ==> low <= xs[i]
    ensures SecondSmallest(xs) >= low
    ensures xs[0] == low && xs[1] == low ==> SecondSmallest(xs) == low
  {
    var v := SecondSmallest(xs);
    assert v in multiset(Sort(xs)) && v in multiset(xs) && v in xs;
    if xs[0] == low && xs[1] == low && v > low {
      RankOfSorted(xs, 1, v);
      assert false;
    }
  }

  lemma LevelCalibrates(c: Channel, n: nat, delay: U64)
    requires Levelled(c, n) && CanFollow(n, delay)
    ensures Levelled(c.Calibrate(delay), n + 1)
  {
    var samples := PushBounded(c.calibration, delay, BASELINE_SAMPLES);
    if |samples| == BASELINE_SAMPLES {
      SecondSmallestAtLeast(samples, LOW);
    }
  }

  /** The share of the allowance in use, once the baseline is known. */
  ghost function LevelPressure(n: nat, delay: U64): real {
    if n + 1 < BASELINE_SAMPLES || delay == LOW then 0.0 else if delay == HIGH then 0.75 else 2.0
  }

  ghost predicate Exceeds(n: nat, delay: U64) {
    n + 1 >= BASELINE_SAMPLES && delay == OVER
  }

  lemma LevelReading(c: Channel, n: nat, delay: U64, at: Setting, value: Measurement)
    requires Levelled(c, n) && CanFollow(n, delay) && at.settled && at.absolute == ABSOLUTE
    requires value.Valid() && value.Typical() == delay
    ensures var r := ReadChannel(0, c, true, Some(value), at);
      && r.failure.None? && (r.ready <==> n + 1 >= BASELINE_SAMPLES) && (r.excessive <==> Exceeds(n, delay))
      && r.pressure == LevelPressure(n, delay) && Levelled(r.channel, n + 1)
  {
    LevelCalibrates(c, n, delay);
    hide Channel.Calibrate;
    assert DelayBudget(LOW, ABSOLUTE) == 30_000;
    assert Pressure(LOW, LOW, 30_000) == 0.0 && Pressure(HIGH, LOW, 30_000) == 0.75
      && Pressure(OVER, LOW, 30_000) == 2.0;
  }

  lemma IdleReading(c: nat, channel: Channel, at: Setting)
    ensures ReadChannel(c, channel, false, None, at) == Reading(channel.ClearTimer(), true, 0.0, false, None)
  {
  }

  /** The policy watches such a link, and its limit, if any, is well above the bitrate. */
  ghost predicate Watches(s: Latency, n: nat, bitrate: U64) {
    && s.absolute == ABSOLUTE && Levelled(s.channels[0], n)
    && (s.ceiling.Some? ==> bitrate < s.ceiling.value / 100 * 90)
  }

  /** The next report is valid, settled and in time. */
  ghost predicate InTime(s: Latency, bitrate: U64, now: nat) {
    && bitrate <= MAX_PRESENTED_BITRATE && Since(now, s.changedAt) >= SETTLE
    && (s.lastReportAt.Some? ==> Since(now, s.lastReportAt.value) <= REPORT_GAP)
  }

  lemma LevelVerdict(s: Latency, n: nat, delay: U64, bitrate: U64, now: nat, report: LatencyReport)
    requires Watches(s, n, bitrate) && InTime(s, bitrate, now) && CanFollow(n, delay) && Shows(report, delay, bitrate)
    ensures var a := s.Arrive(now);
      && a == s.(lastReportAt := Some(now)) && report.Valid() && a.Settled(report, bitrate, now)
      && a.VerdictOf(report, bitrate, now) ==
           Verdict(n + 1 >= BASELINE_SAMPLES, LevelPressure(n, delay), Exceeds(n, delay), None)
      && Levelled(a.ReadAll(report, bitrate, now).channels[0], n + 1)
  {
    hide ReadChannel, Levelled, Exceeds;
    var a := s.Arrive(now);
    var at := Setting(true, bitrate, ABSOLUTE, now);
    assert report.Valid() && report.video.value.Typical() == delay && a.Settled(report, bitrate, now);
    LevelReading(a.channels[0], n, delay, at, report.video.value);
    IdleReading(1, a.channels[1], at);
    IdleReading(2, a.channels[2], at);
    TogetherOfThree(Verdict(true, 0.0, false, None), a.Readings(report, bitrate, now));
  }

  /** Nothing about cuts and limits moved. */
  ghost predicate SameMemory(s: Latency, t: Latency) {
    t.ceiling == s.ceiling && t.retrySeconds == s.retrySeconds && t.lastCutAt == s.lastCutAt
  }

  /** What such a report does: within the budget it ends a streak, above it the second in a row cuts to
      three quarters, and that cut becomes a limit and doubles the delay before the next try unless the
      bitrate had held for a minute. */
  ghost predicate LevelStep(s: Latency, n: nat, delay: U64, bitrate: U64, now: nat, t: Latency, answer: Evaluation) {
    && t.absolute == ABSOLUTE && Levelled(t.channels[0], n + 1)
    && t.changedAt == s.changedAt && t.lastReportAt == Some(now) && answer.failure.None?
    && (!Exceeds(n, delay) ==>
          && t.pressureStreak == 0 && SameMemory(s, t)
          && answer == Evaluation(n + 1 >= BASELINE_SAMPLES && delay == LOW, None, None))
    && (Exceeds(n, delay) && s.pressureStreak == 0 ==> t.pressureStreak == 1 && SameMemory(s, t) && answer == NOTHING)
    && (&& Exceeds(n, delay) && s.pressureStreak == 1 && bitrate > BOOTSTRAP
        && (s.lastCutAt.Some? ==> Since(now, s.lastCutAt.value) >= INCIDENT_TIME) ==>
          && t.pressureStreak == 0 && t.lastCutAt == Some(now)
          && answer == Evaluation(false, Some(bitrate * 3 / 4), None)
          && (if Since(now, s.changedAt) < PROVEN_HOLD_NANOS
              then t.ceiling == Some(bitrate) && t.retrySeconds == Min(s.retrySeconds * 2, 40)
              else t.ceiling == s.ceiling && t.retrySeconds == s.retrySeconds))
  }

  lemma LevelSteps(s: Latency, n: nat, delay: U64, bitrate: U64, now: nat, report: LatencyReport)
    requires Watches(s, n, bitrate) && InTime(s, bitrate, now) && CanFollow(n, delay) && Shows(report, delay, bitrate)
    ensures var e := Reported(Some(report), bitrate, now);
      LevelStep(s, n, delay, bitrate, now, Step(s, e), Answer(s, e))
  {
    hide ReadChannel, Latency.VerdictOf, Latency.Readings, Levelled, Latency.Settled, Shows;
    var a := s.Arrive(now);
    LevelVerdict(s, n, delay, bitrate, now, report);
    DecideKeepsChannels(a.ReadAll(report, bitrate, now), true, a.VerdictOf(report, bitrate, now), bitrate, now);
  }
}
