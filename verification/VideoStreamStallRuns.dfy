/** A run of the whole stream in which the link never changes and the player reports the same delay every time, and yet
    one stall of the host cuts the bitrate: what the stall takes out of two reports sets the baseline too low for the
    rest. */
module VideoStreamStallRuns {
  import opened Numbers
  import opened BitrateModel
  import opened BitrateInvariants
  import opened BitrateConvergence
  import opened LatencyModel
  import opened LatencyLevels
  import opened VideoStreamModel
  import opened VideoStreamRuns
  import opened VideoStreamLinks
  import D = SourceDelay
  import LatencyRuns

  const HALF: U64 := 500_000

  /** The first frame takes 5 ms to be encoded and the second 45. */
  const FIRST := Packetized(1, 5_001)
  const SECOND := Packetized(2, 45_002)

  /** The player reports 50 ms every half second. */
  function ReportAt(bitrate: U64, k: nat): Event {
    LinkEvent(HALF, OVER, bitrate, k * HALF_SECOND)
  }

  /** Latency control is on, the first frame is sent, k reports follow, and the second frame goes before the second. */
  ghost function StallRun(bitrate: U64, k: nat): seq<Event> {
    if k == 0 then [LatencyEnabled(ABSOLUTE, 0), FIRST]
    else if k == 1 then StallRun(bitrate, 0) + [ReportAt(bitrate, 1), SECOND]
    else StallRun(bitrate, k - 1) + [ReportAt(bitrate, k)]
  }

  ghost function AfterStall(maximum: U64, k: nat): Policy {
    Run(NewPolicy(maximum), StallRun(New(maximum).target, k))
  }

  /** What the meter holds after k reports, and the delay by which the next is judged. */
  ghost function MeterAfter(k: nat): D.Delays {
    if k == 1 then D.Delays(2, [45_000], Some(5_000), 0)
    else if k == 2 then D.Delays(2, [], Some(5_000), 40_000)
    else D.Delays(2, [], Some(5_000), 0)
  }

  ghost function JudgedAfter(k: nat): U64 {
    if k <= 2 then LOW else OVER
  }

  ghost predicate Remembered(s: Latency, k: nat) {
    && s.changedAt == 0 && s.lastReportAt == Some(k * HALF_SECOND) && s.lastCutAt.None?
    && s.pressureStreak == if k == 6 then 1 else 0
  }

  /** Of k reports the first came before the bitrate had settled, and the others were judged. */
  ghost predicate Stalled(p: Policy, maximum: U64, k: nat) {
    && 1 <= k <= 6 && Linked(p, k - 1) && p.bitrate.target == New(maximum).target <= MAX_PRESENTED_BITRATE
    && p.source == MeterAfter(k) && Remembered(p.latency.value, k)
  }

  lemma OneDelay(delay: U64)
    ensures D.UpperQuartile([delay]) == delay
  {
    assert [delay][1..] == [];
  }

  lemma MeterTakes(k: nat)
    requires 1 <= k <= 6
    ensures MeterAfter(k).TakeExcess() == (MeterAfter(k + 1), OVER - JudgedAfter(k))
  {
    OneDelay(45_000);
  }

  lemma FirstMeterTakes()
    ensures D.Delays(1, [5_000], None, 0).TakeExcess() == (D.Delays(1, [], Some(5_000), 0), 0)
  {
    OneDelay(5_000);
  }

  // The first report

  lemma UnsettledIsIgnored(s: Latency, report: LatencyReport, bitrate: U64)
    requires s == NewLatency(ABSOLUTE, 0) && Shows(report, OVER, bitrate) && bitrate <= MAX_PRESENTED_BITRATE
    ensures var e := LatencyRuns.Reported(Some(report), bitrate, HALF_SECOND);
      LatencyRuns.Step(s, e) == s.(lastReportAt := Some(HALF_SECOND)) && LatencyRuns.Answer(s, e) == NOTHING
  {
    var a := s.Arrive(HALF_SECOND);
    var at := Setting(false, bitrate, ABSOLUTE, HALF_SECOND);
    assert report.Valid() && !a.Settled(report, bitrate, HALF_SECOND);
    assert ReadChannel(0, EMPTY_CHANNEL, true, report.video, at) == Reading(EMPTY_CHANNEL, false, 0.0, false, None);
    IdleReading(1, EMPTY_CHANNEL, at);
    IdleReading(2, EMPTY_CHANNEL, at);
    hide ReadChannel;
    LatencyRuns.TogetherOfThree(Verdict(false, 0.0, false, None), a.Readings(report, bitrate, HALF_SECOND));
  }

  /** Latency control has just been turned on, and one frame was sent. */
  ghost predicate Beginning(p: Policy, maximum: U64) {
    && Undelivered(p) && p.bitrate.target == New(maximum).target <= MAX_PRESENTED_BITRATE
    && p.bitrate.returningTo.None?
    && p.latency == Some(NewLatency(ABSOLUTE, 0)) && p.source == D.Delays(1, [5_000], None, 0)
  }

  lemma StallBegins(maximum: U64)
    requires 2_000_002 <= maximum <= 200_000_000
    ensures Beginning(AfterStall(maximum, 0), maximum) && New(maximum).target > BOOTSTRAP
  {
    NewValid(maximum);
    var start, es := NewPolicy(maximum), StallRun(New(maximum).target, 0);
    assert es[..1] == [LatencyEnabled(ABSOLUTE, 0)] && es[..1][..0] == [] && Run(start, []) == start;
    assert Run(start, es[..1]) == start.EnableLatencyControl(ABSOLUTE, 0);
    assert Run(start, es) == start.EnableLatencyControl(ABSOLUTE, 0).FramePacketized(1, 5_001);
  }

  lemma FirstIsIgnored(p: Policy, maximum: U64, q: Policy)
    requires Beginning(p, maximum)
    requires q == AfterReport(p, HALF, OVER, p.bitrate.target, HALF_SECOND)
    ensures Linked(q, 0) && q.bitrate.target == p.bitrate.target
    ensures q.latency == Some(NewLatency(ABSOLUTE, 0).(lastReportAt := Some(HALF_SECOND)))
    ensures q.source == D.Delays(1, [], Some(5_000), 0)
  {
    hide Policy.ObserveReceiverWithLatency, Policy.Evaluate, LevelReport, JudgedAs, Undelivered, LatencyRuns.Step,
      LatencyRuns.Answer;
    var report := LevelReport(OVER, p.bitrate.target);
    FirstMeterTakes();
    ExcessTaken(p, OVER, 0, HALF_SECOND);
    JudgedIsShown(p, report, OVER, HALF_SECOND);
    UnsettledIsIgnored(p.latency.value, Seen(p, Some(report), HALF_SECOND).report.value, p.bitrate.target);
    EvaluationIsAnAnswer(p, Some(report), HALF_SECOND);
    NothingAsked(p, HALF, HALF_SECOND, report, q);
    assert Linked(q, 0) by { NothingJudged(q); }
  }

  lemma JudgedIsShown(p: Policy, report: LatencyReport, delay: U64, now: nat)
    requires JudgedAs(p, report, delay, now)
    ensures var seen := Seen(p, Some(report), now);
      && seen.report.Some? && Shows(seen.report.value, delay, p.bitrate.target)
      && seen == LatencyRuns.Reported(seen.report, p.bitrate.target, now)
  {
  }

  lemma NothingJudged(p: Policy)
    requires Undelivered(p) && p.latency == Some(NewLatency(ABSOLUTE, 0).(lastReportAt := Some(HALF_SECOND)))
    ensures Linked(p, 0)
  {
  }

  // The other reports

  lemma StallIsHeld(p: Policy, maximum: U64, k: nat, q: Policy)
    requires Stalled(p, maximum, k) && k <= 5
    requires q == AfterReport(p, HALF, OVER, p.bitrate.target, (k + 1) * HALF_SECOND)
    ensures Stalled(q, maximum, k + 1)
  {
    hide Policy.ObserveReceiverWithLatency, Policy.Evaluate, LevelReport, JudgedAs, Unpressed, Levelled, MeterAfter;
    var report, now := LevelReport(OVER, p.bitrate.target), (k + 1) * HALF_SECOND;
    MeterTakes(k);
    ExcessTaken(p, OVER, OVER - JudgedAfter(k), now);
    JudgedEvaluates(p, k - 1, JudgedAfter(k), now, report);
    HeldAs(p, k - 1, HALF, JudgedAfter(k), now, report, q);
    ForgettingWatches(p, p.Evaluate(Some(report), now).0, k, p.bitrate.target);
  }

  lemma StallRunSteps(maximum: U64, k: nat)
    requires k >= 1
    ensures AfterStall(maximum, k + 1) ==
      AfterReport(AfterStall(maximum, k), HALF, OVER, New(maximum).target, (k + 1) * HALF_SECOND)
  {
    hide Policy.ObserveReceiverWithLatency;
    var bitrate := New(maximum).target;
    var init, e := StallRun(bitrate, k), ReportAt(bitrate, k + 1);
    assert StallRun(bitrate, k + 1) == init + [e] && (init + [e])[..|init|] == init;
  }

  lemma StallRunStarts(maximum: U64)
    ensures AfterStall(maximum, 1) ==
      AfterReport(AfterStall(maximum, 0), HALF, OVER, New(maximum).target, HALF_SECOND).FramePacketized(2, 45_002)
  {
    hide Policy.ObserveReceiverWithLatency;
    var bitrate, start := New(maximum).target, NewPolicy(maximum);
    var init, e := StallRun(bitrate, 0), ReportAt(bitrate, 1);
    var es := StallRun(bitrate, 1);
    assert es == init + [e, SECOND] && es[..|es| - 1] == init + [e] && (init + [e])[..|init|] == init;
    assert Run(start, init + [e]) == Handle(Run(start, init), e).policy;
  }

  lemma {:induction false} StallGoesOn(maximum: U64, k: nat)
    requires 2_000_002 <= maximum <= 200_000_000 && 1 <= k <= 6
    ensures Stalled(AfterStall(maximum, k), maximum, k)
  {
    hide AfterStall, AfterReport, Beginning, Linked;
    if k == 1 {
      StallBegins(maximum);
      StallRunStarts(maximum);
      var p := AfterStall(maximum, 0);
      BeginsAt(p, maximum);
      FirstIsIgnored(p, maximum, AfterReport(p, HALF, OVER, New(maximum).target, HALF_SECOND));
      SecondFrame(AfterReport(p, HALF, OVER, New(maximum).target, HALF_SECOND), maximum);
    } else {
      StallGoesOn(maximum, k - 1);
      StallRunSteps(maximum, k - 1);
      StallIsHeld(AfterStall(maximum, k - 1), maximum, k - 1, AfterStall(maximum, k));
    }
  }

  lemma BeginsAt(p: Policy, maximum: U64)
    requires Beginning(p, maximum)
    ensures p.bitrate.target == New(maximum).target <= MAX_PRESENTED_BITRATE
  {
  }

  lemma SecondFrame(p: Policy, maximum: U64)
    requires Linked(p, 0) && p.bitrate.target == New(maximum).target <= MAX_PRESENTED_BITRATE
    requires p.latency == Some(NewLatency(ABSOLUTE, 0).(lastReportAt := Some(HALF_SECOND)))
    requires p.source == D.Delays(1, [], Some(5_000), 0)
    ensures Stalled(p.FramePacketized(2, 45_002), maximum, 1)
  {
    hide Unpressed, Watches;
  }

  /** From a new stream of any maximum above 2 and up to 200 Mbit/s: the player reports 50 ms every half second, nothing
      is lost, and one frame, in the second half second, takes 40 ms longer to be encoded than the one before it. The
      seventh report is answered by a cut to three quarters of the bitrate. */
  lemma OneStallCuts(maximum: U64)
    requires 2_000_002 <= maximum <= 200_000_000
    ensures var p := AfterStall(maximum, 6);
      var report := Some(LevelReport(OVER, p.bitrate.target));
      && p.bitrate.target == New(maximum).target && p.latency.Some?
      && p.Evaluate(report, 7 * HALF_SECOND).1.reduceTo == Some(p.bitrate.target * 3 / 4)
      && AfterStall(maximum, 7).bitrate.target < New(maximum).target
  {
    hide Policy.ObserveReceiverWithLatency, Policy.Evaluate, LevelReport, JudgedAs, Levelled, MeterAfter, AfterStall,
      Run, Beginning;
    var p, now := AfterStall(maximum, 6), 7 * HALF_SECOND;
    StallBegins(maximum);
    StallGoesOn(maximum, 6);
    var report := LevelReport(OVER, p.bitrate.target);
    MeterTakes(6);
    ExcessTaken(p, OVER, 0, now);
    JudgedEvaluates(p, 5, OVER, now, report);
    StallRunSteps(maximum, 6);
    ReportMovesOneWay(p, NO_PATH, Lossless(HALF), Some(report), now);
    VerdictApplies(p, NO_PATH, Lossless(HALF), Some(report), now);
    hide Applied;
  }
}
