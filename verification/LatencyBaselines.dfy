/** Where a channel's baseline comes from: the lowest second-smallest delay of any five settled reports in a row. */
module LatencyBaselines {
  import opened Numbers
  import opened Sorting
  import opened BitrateModel
  import opened LatencyModel
  import opened LatencyRuns

  /** The delays of the settled reports that measured a channel, oldest first. */
  ghost function SettledDelays(start: Latency, es: seq<Event>, c: nat): seq<U64> {
    if es == [] then []
    else
      var init, e := es[..|es| - 1], es[|es| - 1];
      SettledDelays(start, init, c)
      + (if SettledReport(ChangedAt(start, init), e) && Measures(e, c) then [DelayOf(e, c)] else [])
  }

  ghost function LastFive(xs: seq<U64>): seq<U64> {
    if |xs| <= 5 then xs else xs[|xs| - 5..]
  }

  ghost function Window(xs: seq<U64>, k: nat): seq<U64>
    requires k + 5 <= |xs|
  {
    xs[k..k + 5]
  }

  /** The second smallest delay of every five in a row. */
  ghost function WindowLows(xs: seq<U64>): (lows: seq<U64>)
    requires |xs| >= 5
    ensures |lows| == |xs| - 5 + 1
  {
    seq(|xs| - 5 + 1, k requires 0 <= k <= |xs| - 5 => SecondSmallest(Window(xs, k)))
  }

  ghost predicate Least(low: U64, xs: seq<U64>) {
    low in xs && forall i :: 0 <= i < |xs| ==> low <= xs[i]
  }

  /** The calibration queue and the baseline say exactly what the delays so far say. */
  ghost predicate Calibrated(channel: Channel, xs: seq<U64>) {
    && channel.calibration == LastFive(xs)
    && (channel.baseline.Some? <==> |xs| >= 5)
    && (channel.baseline.Some? ==> Least(channel.baseline.value, WindowLows(xs)))
  }

  lemma PushLastFive(xs: seq<U64>, delay: U64)
    ensures PushBounded(LastFive(xs), delay, BASELINE_SAMPLES) == LastFive(xs + [delay])
  {
  }

  lemma WindowLowsGrow(xs: seq<U64>, delay: U64)
    requires |xs| >= 5
    ensures WindowLows(xs + [delay]) == WindowLows(xs) + [SecondSmallest(LastFive(xs + [delay]))]
  {
    var ys := xs + [delay];
    assert Window(ys, |ys| - 5) == LastFive(ys);
    forall k: nat | k + 5 <= |xs|
      ensures Window(ys, k) == Window(xs, k)
    {
    }
  }

  lemma LeastGrows(low: U64, xs: seq<U64>, newest: U64)
    requires Least(low, xs)
    ensures Least(if low <= newest then low else newest, xs + [newest])
  {
    var i :| 0 <= i < |xs| && xs[i] == low;
    assert (xs + [newest])[i] == low && (xs + [newest])[|xs|] == newest;
  }

  lemma CalibrateStaysCalibrated(channel: Channel, xs: seq<U64>, delay: U64)
    requires Calibrated(channel, xs)
    ensures Calibrated(channel.Calibrate(delay), xs + [delay])
  {
    PushLastFive(xs, delay);
    var ys := xs + [delay];
    if |xs| >= 5 {
      WindowLowsGrow(xs, delay);
      LeastGrows(channel.baseline.value, WindowLows(xs), SecondSmallest(LastFive(ys)));
    } else if |ys| == 5 {
      assert Window(ys, 0) == LastFive(ys);
      assert WindowLows(ys) == [SecondSmallest(ys)];
    }
  }

  /** Reading a report calibrates a channel exactly when the report is settled and measures it. */
  lemma ReadingCalibrates(c: nat, channel: Channel, active: bool, value: Option<Measurement>, at: Setting)
    ensures var r := ReadChannel(c, channel, active, value, at).channel;
      var t := if active && value.Some? && value.value.Valid() && at.settled
               then channel.Calibrate(value.value.Typical()) else channel;
      r.calibration == t.calibration && r.baseline == t.baseline
  {
  }

  lemma EventCalibrates(s: Latency, e: Event, c: nat)
    requires c < 3
    ensures var r := Step(s, e).channels[c];
      var t := if SettledReport(s.changedAt, e) && Measures(e, c) then s.channels[c].Calibrate(DelayOf(e, c))
        else s.channels[c];
      r.calibration == t.calibration && r.baseline == t.baseline
  {
    if e.Reported? && e.report.Some? && e.report.value.Valid() {
      ReportCalibrates(s, e, c);
    }
  }

  lemma ReportCalibrates(s: Latency, e: Event, c: nat)
    requires c < 3 && e.Reported? && e.report.Some? && e.report.value.Valid()
    ensures var r := Step(s, e).channels[c];
      var t := if SettledReport(s.changedAt, e) && Measures(e, c) then s.channels[c].Calibrate(DelayOf(e, c))
        else s.channels[c];
      r.calibration == t.calibration && r.baseline == t.baseline
  {
    hide Latency.Decide, Latency.ReadAll, Latency.VerdictOf;
    var a := s.Arrive(e.now);
    ReadAllCalibrates(a, e.report.value, e.bitrate, e.now, c);
    assert a.channels[c].calibration == s.channels[c].calibration && a.channels[c].baseline == s.channels[c].baseline;
    DecideKeepsChannels(a.ReadAll(e.report.value, e.bitrate, e.now), a.Settled(e.report.value, e.bitrate, e.now),
                        a.VerdictOf(e.report.value, e.bitrate, e.now), e.bitrate, e.now);
  }

  lemma ReadAllCalibrates(s: Latency, report: LatencyReport, bitrate: U64, now: nat, c: nat)
    requires c < 3
    ensures var r := s.ReadAll(report, bitrate, now).channels[c];
      var t := if report.Active(c) && report.Value(c).Some? && report.Value(c).value.Valid()
        && s.Settled(report, bitrate, now)
               then s.channels[c].Calibrate(report.Value(c).value.Typical()) else s.channels[c];
      r.calibration == t.calibration && r.baseline == t.baseline
  {
    var at := Setting(s.Settled(report, bitrate, now), bitrate, s.absolute, now);
    ReadingCalibrates(c, s.channels[c], report.Active(c), report.Value(c), at);
  }

  /** In every run, the baseline of a channel is known after five settled delays and is the lowest of their windows. */
  lemma {:induction false} BaselineIsLowestWindow(start: Latency, es: seq<Event>, c: nat)
    requires Fresh(start) && c < 3
    ensures Calibrated(Run(start, es).channels[c], SettledDelays(start, es, c))
  {
    if es != [] {
      var init, e := es[..|es| - 1], es[|es| - 1];
      BaselineIsLowestWindow(start, init, c);
      RunRemembers(start, init);
      EventCalibrates(Run(start, init), e, c);
      DelayArrives(start, init, e, c, Run(start, init).channels[c], Run(start, es).channels[c]);
      assert init + [e] == es;
    }
  }

  lemma DelayArrives(start: Latency, init: seq<Event>, e: Event, c: nat, before: Channel, after: Channel)
    requires Calibrated(before, SettledDelays(start, init, c))
    requires
      var t := if SettledReport(ChangedAt(start, init), e) && Measures(e, c) then before.Calibrate(DelayOf(e, c))
        else before;
      after.calibration == t.calibration && after.baseline == t.baseline
    ensures Calibrated(after, SettledDelays(start, init + [e], c))
  {
    assert (init + [e])[..|init|] == init;
    if SettledReport(ChangedAt(start, init), e) && Measures(e, c) {
      CalibrateStaysCalibrated(before, SettledDelays(start, init, c), DelayOf(e, c));
    } else {
      assert SettledDelays(start, init + [e], c) == SettledDelays(start, init, c);
    }
  }

  /** The second smallest of five: one delay at most is lower, and two at least are no higher. */
  lemma SecondSmallestRank(window: seq<U64>, v: int)
    requires |window| >= 2 && v == SecondSmallest(window)
    ensures CountAtMost(window, v - 1) <= 1 && CountAtMost(window, v) >= 2
  {
    RankOfSorted(window, 1, v);
  }

  lemma SecondSmallestBelowIff(window: seq<U64>, delay: int)
    requires |window| >= 2
    ensures SecondSmallest(window) < delay <==> CountAtMost(window, delay - 1) >= 2
  {
    var v: int := SecondSmallest(window);
    SecondSmallestRank(window, v);
    if v < delay {
      CountGrows(window, v, delay - 1);
    } else {
      CountGrows(window, delay - 1, v - 1);
    }
  }

  /** Two of some five settled delays in a row are below this one. */
  ghost predicate TwoOfFiveBelow(xs: seq<U64>, delay: int) {
    exists k: nat :: k + 5 <= |xs| && CountAtMost(Window(xs, k), delay - 1) >= 2
  }

  /** In every run, a baseline is below a given delay exactly when two of some five settled delays in a row were. */
  lemma BaselineBelowIff(start: Latency, es: seq<Event>, c: nat, delay: int)
    requires Fresh(start) && c < 3 && Run(start, es).channels[c].baseline.Some?
    ensures Run(start, es).channels[c].baseline.value < delay <==> TwoOfFiveBelow(SettledDelays(start, es, c), delay)
  {
    hide Run, SettledDelays;
    BaselineIsLowestWindow(start, es, c);
    var xs, baseline := SettledDelays(start, es, c), Run(start, es).channels[c].baseline.value;
    var lows := WindowLows(xs);
    forall k: nat | k + 5 <= |xs|
      ensures lows[k] < delay <==> CountAtMost(Window(xs, k), delay - 1) >= 2
    {
      SecondSmallestBelowIff(Window(xs, k), delay);
    }
    var i :| 0 <= i < |lows| && lows[i] == baseline;
  }
}
