/** The latency policy as the host runs it. Each method is proved to do what its function in LatencyModel does. */
module LatencyControl {
  import opened Numbers
  import opened BitrateModel
  import opened LatencyModel
  import opened LatencyRuns
  import LatencyCuts
  import LatencyMeaning
  import LatencyReadiness

  /** What a policy object keeps: a timer only where the baseline is known, and no window longer than five delays. */
  ghost predicate Kept(s: Latency) {
    TimersHaveBaselines(s) && LatencyReadiness.WindowsBounded(s)
  }

  lemma FreshIsKept(absolute: U64, now: nat)
    ensures Kept(NewLatency(absolute, now))
  {
  }

  /** What the answer to a report promises whoever acts on it. */
  ghost predicate Meant(t: Latency, e: Event, answer: Evaluation)
    requires e.Reported?
  {
    && (answer.reduceTo.Some? ==> !answer.allowIncrease && BOOTSTRAP < e.bitrate && answer.reduceTo.value < e.bitrate)
    && (answer.failure.Some? ==>
          && 1 <= answer.failure.value.channel <= 3
          && t.channels[answer.failure.value.channel - 1].excessiveSince.Some?
          && Since(e.now, t.channels[answer.failure.value.channel - 1].excessiveSince.value) >= FAILURE_TIME)
  }

  lemma EventKeeps(s: Latency, e: Event)
    requires Kept(s)
    ensures Kept(Step(s, e)) && (e.Reported? ==> Meant(Step(s, e), e, Answer(s, e)))
  {
    hide Step, Answer;
    EventTimers(s, e, 0);
    EventTimers(s, e, 1);
    EventTimers(s, e, 2);
    LatencyCuts.EventCuts(s, e);
    LatencyReadiness.EventMissesAll(s, e);
  }

  /** Why the answer to a report is what it is: when the bitrate may rise and when the session ends, when and how far it
      is cut, and what becomes of the known limit. */
  ghost predicate Explained(s: Latency, e: Event, t: Latency, answer: Evaluation) {
    LatencyMeaning.AnswerMeans(s, e, t, answer) && LatencyCuts.CutStep(s, e, t, answer)
      && LatencyCuts.LimitStep(s, e, t, answer)
  }

  lemma EventExplained(s: Latency, e: Event)
    ensures Explained(s, e, Step(s, e), Answer(s, e))
  {
    hide Step, Answer;
    LatencyMeaning.EventMeans(s, e);
    LatencyCuts.EventCuts(s, e);
    LatencyCuts.EventLimit(s, e);
  }

  class LatencyPolicy {
    const absolute: U64
    var channels: Channels
    var changedAt: nat
    var pressureStreak: U8
    var ceiling: Option<U64>
    var retrySeconds: nat
    var lastCutAt: Option<nat>
    var lastCutPressure: real
    var lastReportAt: Option<nat>

    function Snapshot(): Latency
      reads this
    {
      Latency(absolute, channels, changedAt, pressureStreak, ceiling, retrySeconds, lastCutAt, lastCutPressure,
              lastReportAt)
    }

    ghost predicate Valid()
      reads this
    {
      Kept(Snapshot())
    }

    constructor (absoluteLimit: U64, now: nat)
      ensures Valid() && Snapshot() == NewLatency(absoluteLimit, now)
    {
      FreshIsKept(absoluteLimit, now);
      absolute := absoluteLimit;
      channels := [EMPTY_CHANNEL, EMPTY_CHANNEL, EMPTY_CHANNEL];
      changedAt, pressureStreak, ceiling, retrySeconds := now, 0, None, 5;
      lastCutAt, lastCutPressure, lastReportAt := None, 0.0, None;
    }

    method ClearTimers()
      modifies this
      ensures Snapshot() == old(Snapshot()).ClearTimers()
    {
      for index := 0 to 3
        invariant Snapshot() == old(Snapshot()).(channels := channels)
        invariant forall i :: 0 <= i < 3 ==>
          channels[i] == if i < index then old(channels)[i].ClearTimer() else old(channels)[i]
      {
        channels := channels[index := channels[index].ClearTimer()];
      }
    }

    method ResetObservation()
      modifies this
      ensures Snapshot() == old(Snapshot()).ResetObservation()
    {
      pressureStreak := 0;
      ClearTimers();
    }

    method BitrateChanged(now: nat)
      modifies this
      ensures old(Valid()) ==> Valid()
      ensures Snapshot() == old(Snapshot()).BitrateChanged(now)
    {
      changedAt := now;
      ClearTimers();
    }

    method ForgetCeiling()
      modifies this
      ensures old(Valid()) ==> Valid()
      ensures Snapshot() == old(Snapshot()).ForgetCeiling()
    {
      ceiling := None;
    }

    method LearnCeiling(bitrate: U64)
      modifies this
      ensures Snapshot() == old(Snapshot()).LearnCeiling(bitrate)
    {
      ceiling := Some(bitrate);
      retrySeconds := Min(retrySeconds * 2, 40);
    }

    method Arrive(now: nat)
      modifies this
      ensures Snapshot() == old(Snapshot()).Arrive(now)
    {
      if lastReportAt.Some? && Since(now, lastReportAt.value) > REPORT_GAP {
        ResetObservation();
      }
      lastReportAt := Some(now);
    }

    /** The loop over the three channels: each is updated in turn, and the verdict gathers what they say. */
    method ReadAll(report: LatencyReport, bitrate: U64, now: nat) returns (settled: bool, v: Verdict)
      modifies this
      ensures Snapshot() == old(Snapshot()).ReadAll(report, bitrate, now)
      ensures settled == old(Snapshot()).Settled(report, bitrate, now)
      ensures v == old(Snapshot()).VerdictOf(report, bitrate, now)
    {
      ghost var s := Snapshot();
      ghost var readings := s.Readings(report, bitrate, now);
      settled := Since(now, changedAt) >= SETTLE && report.presentedBitrate == bitrate;
      var at := Setting(settled, bitrate, absolute, now);
      v := Verdict(settled, 0.0, false, None);
      for index := 0 to 3
        invariant Snapshot() == s.(channels := channels)
        invariant forall i :: 0 <= i < 3 ==> channels[i] == if i < index then readings[i].channel else s.channels[i]
        invariant v == Together(Verdict(settled, 0.0, false, None), readings[..index])
      {
        var r := ReadChannel(index, channels[index], report.Active(index), report.Value(index), at);
        channels := channels[index := r.channel];
        v := Join(v, r);
        assert r == readings[index];
        assert readings[..index + 1][..index] == readings[..index];
      }
      assert readings[..3] == readings;
    }

    method Cut(pressure: real, bitrate: U64, now: nat) returns (reduceTo: Option<U64>)
      modifies this
      ensures (Snapshot(), reduceTo) == old(Snapshot()).Cut(pressure, bitrate, now)
    {
      pressureStreak := 0;
      if lastCutAt.Some? && Since(now, lastCutAt.value) < CUT_SPACING
         && pressure < lastCutPressure * WORSENING_PRESSURE_FACTOR
      {
        return None;
      }
      var newIncident := lastCutAt.None? || Since(now, lastCutAt.value) >= INCIDENT_TIME;
      var nearLimit := ceiling.Some? && bitrate >= ceiling.value / 100 * 90;
      lastCutAt := Some(now);
      lastCutPressure := pressure;
      if newIncident && nearLimit {
        reduceTo := Some(bitrate / 100 * 96);
      } else {
        reduceTo := Some(bitrate * 3 / 4);
      }
      if newIncident && Since(now, changedAt) < PROVEN_HOLD_NANOS {
        LearnCeiling(bitrate);
      }
    }

    method Hold(bitrate: U64, now: nat)
      modifies this
      ensures Snapshot() == old(Snapshot()).Hold(bitrate, now)
    {
      if ceiling.Some? && bitrate > ceiling.value && Since(now, changedAt) >= PROBE_TIME {
        ceiling := Some(bitrate);
        retrySeconds := 5;
      }
    }

    method Decide(settled: bool, v: Verdict, bitrate: U64, now: nat) returns (result: Evaluation)
      modifies this
      ensures (Snapshot(), result) == old(Snapshot()).Decide(settled, v, bitrate, now)
    {
      result := NOTHING.(failure := v.failure);
      if !settled {
        pressureStreak := 0;
        return;
      }
      if v.excessive {
        pressureStreak := IncrementU8(pressureStreak);
        if pressureStreak >= 2 && bitrate > BOOTSTRAP {
          var reduceTo := Cut(v.pressure, bitrate, now);
          result := result.(reduceTo := reduceTo);
        }
        return;
      }
      pressureStreak := 0;
      if !v.ready {
        return;
      }
      Hold(bitrate, now);
      result := result.(allowIncrease := v.pressure < INCREASE_PRESSURE_LIMIT);
    }

    /** A reduction is a real one, and a failure names a channel whose timer has run for five seconds. */
    method Observe(report: Option<LatencyReport>, bitrate: U64, now: nat) returns (result: Evaluation)
      requires Valid()
      modifies this
      ensures Valid() && Meant(Snapshot(), Reported(report, bitrate, now), result)
      ensures Explained(old(Snapshot()), Reported(report, bitrate, now), Snapshot(), result)
      ensures (Snapshot(), result) == old(Snapshot()).Observe(report, bitrate, now)
    {
      EventKeeps(Snapshot(), Reported(report, bitrate, now));
      EventExplained(Snapshot(), Reported(report, bitrate, now));
      hide Kept, Meant, Explained, Latency.Arrive, Latency.Decide, Latency.ReadAll, Latency.VerdictOf;
      result := Judge(report, bitrate, now);
    }

    method Judge(report: Option<LatencyReport>, bitrate: U64, now: nat) returns (result: Evaluation)
      modifies this
      ensures (Snapshot(), result) == old(Snapshot()).Observe(report, bitrate, now)
    {
      Arrive(now);
      if report.None? || !report.value.Valid() {
        ResetObservation();
        return NOTHING;
      }
      var settled, v := ReadAll(report.value, bitrate, now);
      result := Decide(settled, v, bitrate, now);
    }
  }
}
