/** Delay the host itself added before sending, beyond its usual capture-to-encoded time. */
module SourceDelay {
  import opened Numbers
  import opened Sorting

  const MAX_SAMPLES := 512

  datatype Delays = Delays(lastCapture: U64, delays: seq<U64>, usual: Option<U64>, previousExcess: U64)
  {
    function Observe(captured: U64, encoded: U64): Delays {
      if captured == lastCapture then this
      else
        this.(lastCapture := captured,
              delays := if |delays| < MAX_SAMPLES then delays + [SubU64(encoded, captured)] else delays)
    }

    function TakeExcess(): (Delays, U64) {
      if delays == [] then (this.(previousExcess := 0), previousExcess)
      else
        var typical := UpperQuartile(delays);
        var lowest := if usual.Some? && usual.value <= typical then usual.value else typical;
        var excess := typical - lowest;
        (this.(delays := [], usual := Some(lowest), previousExcess := excess),
         if excess >= previousExcess then excess else previousExcess)
    }
  }

  function UpperQuartile(delays: seq<U64>): U64
    requires delays != []
  {
    Sort(delays)[|delays| * 3 / 4]
  }

  const NO_DELAYS := Delays(0, [], None, 0)

  class SourceDelayMeter {
    var lastCapture: U64
    var delays: seq<U64>
    var usual: Option<U64>
    var previousExcess: U64

    function Snapshot(): Delays
      reads this
    {
      Delays(lastCapture, delays, usual, previousExcess)
    }

    constructor ()
      ensures Snapshot() == NO_DELAYS
    {
      lastCapture, delays, usual, previousExcess := 0, [], None, 0;
    }

    method Observe(captured: U64, encoded: U64)
      modifies this
      ensures Snapshot() == old(Snapshot()).Observe(captured, encoded)
    {
      if captured == lastCapture {
        return;
      }
      lastCapture := captured;
      if |delays| < MAX_SAMPLES {
        delays := delays + [SubU64(encoded, captured)];
      }
    }

    method TakeExcess() returns (reported: U64)
      modifies this
      ensures (Snapshot(), reported) == old(Snapshot()).TakeExcess()
    {
      var excess: U64 := 0;
      if delays != [] {
        var typical := UpperQuartile(delays);
        var lowest := if usual.Some? && usual.value <= typical then usual.value else typical;
        usual := Some(lowest);
        excess := typical - lowest;
      }
      delays := [];
      reported := if excess >= previousExcess then excess else previousExcess;
      previousExcess := excess;
    }
  }

  // Whole runs

  datatype Event = Encoded(captured: U64, encoded: U64) | IntervalClosed

  ghost function Step(s: Delays, e: Event): Delays {
    if e.Encoded? then s.Observe(e.captured, e.encoded) else s.TakeExcess().0
  }

  ghost function Run(es: seq<Event>): Delays {
    if es == [] then NO_DELAYS else Step(Run(es[..|es| - 1]), es[|es| - 1])
  }

  /** When the last frame seen was captured, or zero before the first. */
  ghost function LastCaptured(es: seq<Event>): U64 {
    if es == [] then 0
    else if es[|es| - 1].Encoded? then es[|es| - 1].captured else LastCaptured(es[..|es| - 1])
  }

  /** How long each fresh frame of the interval still open took to be encoded, for the first 512 of them. A frame with
      the capture time of the one before it is a repeat. */
  ghost function Open(es: seq<Event>): seq<U64> {
    if es == [] then []
    else
      var init, e := es[..|es| - 1], es[|es| - 1];
      if e.IntervalClosed? then []
      else if e.captured == LastCaptured(init) || |Open(init)| >= 512 then Open(init)
      else Open(init) + [Max(e.encoded - e.captured, 0)]
  }

  /** The same of each interval that was closed. */
  ghost function Closed(es: seq<Event>): seq<seq<U64>> {
    if es == [] then []
    else
      var init := es[..|es| - 1];
      if es[|es| - 1].IntervalClosed? then Closed(init) + [Open(init)] else Closed(init)
  }

  /** The least upper quartile of any of the intervals that saw a fresh frame. */
  ghost predicate IsUsual(intervals: seq<seq<U64>>, usual: Option<U64>) {
    && (usual.None? <==> forall i :: 0 <= i < |intervals| ==> intervals[i] == [])
    && (usual.Some? ==>
          && (exists i :: 0 <= i < |intervals| && intervals[i] != [] && usual.value == UpperQuartile(intervals[i]))
          && (forall i :: 0 <= i < |intervals| && intervals[i] != [] ==> usual.value <= UpperQuartile(intervals[i])))
  }

  /** How far the upper quartile of the last interval is above the least of any so far, itself included; nothing when it
      saw no fresh frame. */
  ghost predicate IsExcess(intervals: seq<seq<U64>>, excess: nat) {
    if intervals == [] || intervals[|intervals| - 1] == [] then excess == 0
    else
      var newest := UpperQuartile(intervals[|intervals| - 1]);
      && (exists i :: 0 <= i < |intervals| && intervals[i] != []
                      && excess == newest - UpperQuartile(intervals[i]))
      && (forall i :: 0 <= i < |intervals| && intervals[i] != [] ==>
            newest - UpperQuartile(intervals[i]) <= excess)
  }

  /** At most three quarters of the interval's frames, rounded down, were encoded faster than its upper quartile. */
  lemma UpperQuartileRank(delays: seq<U64>, v: int)
    requires delays != [] && v == UpperQuartile(delays)
    ensures CountAtMost(delays, v - 1) <= |delays| * 3 / 4 < CountAtMost(delays, v)
  {
    RankOfSorted(delays, |delays| * 3 / 4, v);
  }

  /** Closing an interval. */
  lemma ClosingTakes(s: Delays, intervals: seq<seq<U64>>)
    requires IsUsual(intervals, s.usual) && IsExcess(intervals, s.previousExcess)
    ensures var (t, taken) := s.TakeExcess();
      && IsUsual(intervals + [s.delays], t.usual) && IsExcess(intervals + [s.delays], t.previousExcess)
      && t.delays == [] && t.lastCapture == s.lastCapture && taken == Max(t.previousExcess, s.previousExcess)
  {
    hide UpperQuartile;
    var t := s.TakeExcess().0;
    var grown := intervals + [s.delays];
    assert forall i :: 0 <= i < |intervals| ==> grown[i] == intervals[i];
    assert grown[|intervals|] == s.delays;
    if s.delays != [] && t.usual == s.usual {
      var i :| 0 <= i < |intervals| && intervals[i] != [] && s.usual.value == UpperQuartile(intervals[i]);
      assert grown[i] == intervals[i];
    } else if s.usual.Some? {
      var i :| 0 <= i < |intervals| && intervals[i] != [] && s.usual.value == UpperQuartile(intervals[i]);
      assert grown[i] == intervals[i];
    }
  }

  /** The meter remembers the open interval, the usual delay and the excess of the interval closed last. */
  lemma {:induction false} MeterFollows(es: seq<Event>)
    ensures var s := Run(es);
      && s.delays == Open(es) && |Open(es)| <= 512 && s.lastCapture == LastCaptured(es)
      && IsUsual(Closed(es), s.usual) && IsExcess(Closed(es), s.previousExcess)
  {
    hide IsUsual, IsExcess;
    if es == [] {
      assert IsUsual([], None) && IsExcess([], 0) by { NothingMeasured(); }
    } else {
      var init, e := es[..|es| - 1], es[|es| - 1];
      MeterFollows(init);
      if e.IntervalClosed? {
        ClosingTakes(Run(init), Closed(init));
      }
    }
  }

  lemma NothingMeasured()
    ensures IsUsual([], None) && IsExcess([], 0)
  {
  }

  /** What a closed interval reports is the larger excess of the last two, each the distance of its upper quartile from
      the least of any interval so far. */
  lemma ExcessOfTwoIntervals(es: seq<Event>) returns (newest: nat, before: nat)
    ensures IsExcess(Closed(es) + [Open(es)], newest) && IsExcess(Closed(es), before)
    ensures Run(es).TakeExcess().1 == Max(newest, before)
  {
    hide IsUsual, IsExcess;
    MeterFollows(es);
    ClosingTakes(Run(es), Closed(es));
    newest, before := Run(es).TakeExcess().0.previousExcess, Run(es).previousExcess;
  }

  /** There is one excess for given intervals. */
  lemma OneExcess(intervals: seq<seq<U64>>, a: nat, b: nat)
    requires IsExcess(intervals, a) && IsExcess(intervals, b)
    ensures a == b
  {
  }
}
