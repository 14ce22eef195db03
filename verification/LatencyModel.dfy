/** What each operation of the latency policy does to its state, as functions on values.
    The class in LatencyControl.dfy performs the same operations in place. Instants are nanoseconds. */
module LatencyModel {
  import opened Numbers
  import opened Sorting
  import opened BitrateModel

  const BASELINE_SAMPLES := 5
  const SETTLE: nat := 1_000_000_000
  const FAILURE_TIME: nat := 5_000_000_000
  const PROBE_TIME: nat := 5_000_000_000
  const INCIDENT_TIME: nat := 10_000_000_000
  const CUT_SPACING: nat := 8_000_000_000
  const REPORT_GAP: nat := 2_000_000_000
  const PROVEN_HOLD_NANOS: nat := 60_000_000_000
  const INCREASE_PRESSURE_LIMIT := 0.5
  const WORSENING_PRESSURE_FACTOR := 1.25
  const MAX_MEASUREMENT: U64 := 60_000_000
  const MAX_PRESENTED_BITRATE: U64 := 100_000_000

  /** Time from `at` to `now`, or zero when the clock stepped back. */
  function Since(now: nat, at: nat): nat {
    if now >= at then now - at else 0
  }

  datatype Measurement = Measurement(delay: U64, uncertainty: U64, estimated: bool, samples: nat, typicalDelay: U64)
  {
    function Typical(): U64 {
      if typicalDelay == 0 then delay else typicalDelay
    }

    predicate Valid() {
      0 < samples <= 65_536 && delay <= MAX_MEASUREMENT && typicalDelay <= delay && uncertainty <= MAX_MEASUREMENT
    }
  }

  datatype LatencyReport = LatencyReport(video: Option<Measurement>, audio: Option<Measurement>,
                                         input: Option<Measurement>,
                                         audioActive: bool, inputActive: bool, presentedBitrate: U64)
  {
    predicate Valid() {
      && (video.Some? ==> video.value.Valid())
      && (audio.Some? ==> audio.value.Valid())
      && (input.Some? ==> input.value.Valid())
      && (audioActive || audio.None?)
      && (inputActive || input.None?)
      && presentedBitrate <= MAX_PRESENTED_BITRATE
    }

    predicate Active(index: nat) {
      if index == 0 then true else if index == 1 then audioActive else inputActive
    }

    function Value(index: nat): Option<Measurement> {
      if index == 0 then video else if index == 1 then audio else input
    }
  }

  datatype Failure = Failure(channel: nat, observedDelay: U64, budget: U64, absoluteLimit: U64, baseline: U64,
                             estimated: bool)

  datatype Evaluation = Evaluation(allowIncrease: bool, reduceTo: Option<U64>, failure: Option<Failure>)

  const NOTHING := Evaluation(false, None, None)

  function DelayBudget(baseline: U64, absolute: U64): U64 {
    var room := AddU64(baseline, if baseline >= 20_000 then baseline else 20_000);
    if room <= absolute then room else absolute
  }

  /** The share of the delay allowance in use; above one means over budget. */
  function Pressure(delay: U64, baseline: U64, budget: U64): real {
    if budget > baseline then SubU64(delay, baseline) as real / (budget - baseline) as real
    else delay as real / Max(budget, 1) as real
  }

  function SecondSmallest(samples: seq<U64>): U64
    requires |samples| >= 2
  {
    Sort(samples)[1]
  }

  datatype Channel = Channel(calibration: seq<U64>, baseline: Option<U64>, excessiveSince: Option<nat>)
  {
    function Calibrate(delay: U64): Channel {
      var samples := PushBounded(calibration, delay, BASELINE_SAMPLES);
      if |samples| != BASELINE_SAMPLES then this.(calibration := samples)
      else
        var lowest := SecondSmallest(samples);
        this.(calibration := samples,
              baseline := Some(if baseline.Some? && baseline.value <= lowest then baseline.value else lowest))
    }

    function ClearTimer(): Channel {
      this.(excessiveSince := None)
    }
  }

  const EMPTY_CHANNEL := Channel([], None, None)

  type Channels = cs: seq<Channel> | |cs| == 3 witness [EMPTY_CHANNEL, EMPTY_CHANNEL, EMPTY_CHANNEL]

  /** What one report says about one channel, and the channel afterwards. */
  datatype Reading = Reading(channel: Channel, ready: bool, pressure: real, excessive: bool, failure: Option<Failure>)

  /** Everything about a report that concerns all of its channels. */
  datatype Setting = Setting(settled: bool, bitrate: U64, absolute: U64, now: nat)

  function ReadChannel(index: nat, channel: Channel, active: bool, value: Option<Measurement>, at: Setting): Reading {
    if !active then Reading(channel.ClearTimer(), true, 0.0, false, None)
    else if value.None? || !value.value.Valid() then Reading(channel.ClearTimer(), false, 0.0, false, None)
    else
      var c := if at.settled then channel.Calibrate(value.value.Typical()) else channel;
      if c.baseline.None? then Reading(c, false, 0.0, false, None)
      else ReadDelay(index, c, c.baseline.value, value.value, at)
  }

  function ReadDelay(index: nat, channel: Channel, baseline: U64, value: Measurement, at: Setting): Reading {
    var delay := value.Typical();
    var budget := DelayBudget(baseline, at.absolute);
    var pressure := Pressure(delay, baseline, budget);
    if delay <= budget then Reading(channel.ClearTimer(), true, pressure, false, None)
    else if at.settled && at.bitrate == BOOTSTRAP && delay > at.absolute then
      var since := if channel.excessiveSince.Some? then channel.excessiveSince.value else at.now;
      Reading(channel.(excessiveSince := Some(since)), true, pressure, true,
              if Since(at.now, since) >= FAILURE_TIME
              then Some(Failure(index + 1, delay, budget, at.absolute, baseline,
                                value.estimated || value.uncertainty != 0))
              else None)
    else Reading(channel.ClearTimer(), true, pressure, true, None)
  }

  datatype Verdict = Verdict(ready: bool, pressure: real, excessive: bool, failure: Option<Failure>)

  function Join(v: Verdict, r: Reading): Verdict {
    Verdict(v.ready && r.ready, if v.pressure >= r.pressure then v.pressure else r.pressure,
            v.excessive || r.excessive, if v.failure.Some? then v.failure else r.failure)
  }

  /** The readings of the channels taken together, in channel order. */
  function Together(start: Verdict, readings: seq<Reading>): Verdict {
    if readings == [] then start
    else Join(Together(start, readings[..|readings| - 1]), readings[|readings| - 1])
  }

  datatype Latency = Latency(
      absolute: U64,
      channels: Channels,
      changedAt: nat,
      pressureStreak: U8,
      ceiling: Option<U64>,
      retrySeconds: nat,
      lastCutAt: Option<nat>,
      lastCutPressure: real,
      lastReportAt: Option<nat>)
  {
    function ClearTimers(): Latency {
      this.(channels := [channels[0].ClearTimer(), channels[1].ClearTimer(), channels[2].ClearTimer()])
    }

    function ResetObservation(): Latency {
      ClearTimers().(pressureStreak := 0)
    }

    function BitrateChanged(now: nat): Latency {
      ClearTimers().(changedAt := now)
    }

    function ForgetCeiling(): Latency {
      this.(ceiling := None)
    }

    function LearnCeiling(bitrate: U64): Latency {
      this.(ceiling := Some(bitrate), retrySeconds := Min(retrySeconds * 2, 40))
    }

    function RetryDelayMicros(): U64 {
      ToU64(retrySeconds * 1_000_000)
    }

    predicate Settled(report: LatencyReport, bitrate: U64, now: nat) {
      Since(now, changedAt) >= SETTLE && report.presentedBitrate == bitrate
    }

    function Readings(report: LatencyReport, bitrate: U64, now: nat): (r: seq<Reading>)
      ensures |r| == 3
    {
      var at := Setting(Settled(report, bitrate, now), bitrate, absolute, now);
      [ReadChannel(0, channels[0], report.Active(0), report.Value(0), at),
       ReadChannel(1, channels[1], report.Active(1), report.Value(1), at),
       ReadChannel(2, channels[2], report.Active(2), report.Value(2), at)]
    }

    function VerdictOf(report: LatencyReport, bitrate: U64, now: nat): Verdict {
      Together(Verdict(Settled(report, bitrate, now), 0.0, false, None), Readings(report, bitrate, now))
    }

    function ReadAll(report: LatencyReport, bitrate: U64, now: nat): Latency {
      var r := Readings(report, bitrate, now);
      this.(channels := [r[0].channel, r[1].channel, r[2].channel])
    }

    /** The report arrives: a long silence before it, or no usable report, ends whatever was being timed. */
    function Arrive(now: nat): Latency {
      (if lastReportAt.Some? && Since(now, lastReportAt.value) > REPORT_GAP then ResetObservation() else this)
        .(lastReportAt := Some(now))
    }

    function Cut(pressure: real, bitrate: U64, now: nat): (Latency, Option<U64>) {
      var s := this.(pressureStreak := 0);
      if lastCutAt.Some? && Since(now, lastCutAt.value) < CUT_SPACING
         && pressure < lastCutPressure * WORSENING_PRESSURE_FACTOR
      then (s, None)
      else
        var newIncident := lastCutAt.None? || Since(now, lastCutAt.value) >= INCIDENT_TIME;
        var nearLimit := ceiling.Some? && bitrate >= ceiling.value / 100 * 90;
        var cut := s.(lastCutAt := Some(now), lastCutPressure := pressure);
        (if newIncident && Since(now, changedAt) < PROVEN_HOLD_NANOS then cut.LearnCeiling(bitrate) else cut,
         Some(if newIncident && nearLimit then bitrate / 100 * 96 else bitrate * 3 / 4))
    }

    function Hold(bitrate: U64, now: nat): Latency {
      if ceiling.Some? && bitrate > ceiling.value && Since(now, changedAt) >= PROBE_TIME
      then this.(ceiling := Some(bitrate), retrySeconds := 5) else this
    }

    function Decide(settled: bool, v: Verdict, bitrate: U64, now: nat): (Latency, Evaluation) {
      if !settled then (this.(pressureStreak := 0), NOTHING.(failure := v.failure))
      else if v.excessive then
        var s := this.(pressureStreak := IncrementU8(pressureStreak));
        if s.pressureStreak >= 2 && bitrate > BOOTSTRAP then
          var (t, reduceTo) := s.Cut(v.pressure, bitrate, now);
          (t, Evaluation(false, reduceTo, v.failure))
        else (s, NOTHING.(failure := v.failure))
      else
        var s := this.(pressureStreak := 0);
        if !v.ready then (s, NOTHING.(failure := v.failure))
        else (s.Hold(bitrate, now), Evaluation(v.pressure < INCREASE_PRESSURE_LIMIT, None, v.failure))
    }

    function Observe(report: Option<LatencyReport>, bitrate: U64, now: nat): (Latency, Evaluation) {
      var s := Arrive(now);
      if report.None? || !report.value.Valid() then (s.ResetObservation(), NOTHING)
      else
        s.ReadAll(report.value, bitrate, now)
          .Decide(s.Settled(report.value, bitrate, now), s.VerdictOf(report.value, bitrate, now), bitrate, now)
    }
  }

  function NewLatency(absolute: U64, now: nat): Latency {
    Latency(absolute, [EMPTY_CHANNEL, EMPTY_CHANNEL, EMPTY_CHANNEL], now, 0, None, 5, None, 0.0, None)
  }
}
