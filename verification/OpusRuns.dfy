/** Whole lives of the Opus encoder: any batches, finishes and resets, with any codec call failing at any time. */
module OpusRuns {
  import opened Numbers
  import opened OpusTimeline
  import opened OpusModel
  import opened OpusInvariants
  import opened OpusFraming
  import opened OpusBatches

  /** What happened since the last reset: samples and batches accepted, packets returned, bytes counted before. */
  datatype History = History(accepted: seq<Sample>, batches: seq<Batch>, returned: seq<OpusPacket>, countedBefore: nat)

  const NOTHING := History([], [], [], 0)

  /** True in every state, failed or not: the caller holds exactly the samples counted as emitted, correctly dated. */
  ghost predicate Accounted(e: Encoder, h: History) {
    && |h.accepted| == 2 * e.received && e.emitted <= e.received && |e.pending| <= 2 * e.frame
    && Played(0 - e.delay, h.returned) == Range(0, e.emitted)
    && Dated(0 - e.delay, h.returned, h.batches, e.received)
  }

  ghost predicate Silence(samples: seq<Sample>) {
    forall i :: 0 <= i < |samples| ==> samples[i] == SILENCE
  }

  /** The codec was given all accepted input, padded with less than one frame of silence. */
  ghost predicate FullySubmitted(e: Encoder, h: History) {
    && |h.accepted| <= |Flatten(e.codec.frames)| < |h.accepted| + 2 * e.frame
    && Flatten(e.codec.frames)[..|h.accepted|] == h.accepted
    && Silence(Flatten(e.codec.frames)[|h.accepted|..])
  }

  ghost predicate Consistent(e: Encoder, h: History) {
    && Accounted(e, h)
    && (!e.failed ==>
          && Timed(e, h.batches, h.returned)
          && Counted(e) == h.countedBefore + |h.accepted| * BYTES_PER_SAMPLE)
    && (!e.failed && !e.finished ==> Pends(e, h.accepted, |h.accepted|))
    && (!e.failed && e.finished ==> FullySubmitted(e, h) && e.emitted == e.received)
  }

  datatype Event = Encoded(capturedAt: U64, samples: seq<Sample>) | Finished | WasReset(reopened: Option<nat -> Fault>)

  function Answered(returned: seq<OpusPacket>, answer: Answer): seq<OpusPacket> {
    if answer.Packets? then returned + answer.packets else returned
  }

  /** The history after a batch: an accepted one joins it. */
  function Joined(e: Encoder, h: History, capturedAt: U64, samples: seq<Sample>, answer: Answer): History {
    if e.Refusal(capturedAt, samples).Some? then h
    else h.(accepted := h.accepted + samples, batches := h.batches + [Batch(e.received, capturedAt)],
            returned := Answered(h.returned, answer))
  }

  function Step(e: Encoder, h: History, event: Event): (Encoder, History) {
    match event
    case Encoded(t, samples) =>
      var (f, answer) := e.Encode(t, samples);
      (f, Joined(e, h, t, samples, answer))
    case Finished =>
      var (f, answer) := e.Finish();
      (f, h.(returned := Answered(h.returned, answer)))
    case WasReset(reopened) =>
      if reopened.None? then (e, h)
      else (e.Reset(reopened).0, NOTHING.(countedBefore := Counted(e)))
  }

  // Accepting a batch

  lemma {:induction false} DatedExtends(first: int, packets: seq<OpusPacket>, batches: seq<Batch>, received: nat,
                                        newer: Batch, grown: nat)
    requires Dated(first, packets, batches, received) && newer.position == received <= grown
    requires NextPts(first, packets) <= received
    requires forall i :: 0 <= i < |packets| ==> packets[i].decodedSamples > 0
    requires packets != [] ==> received > 0
    ensures Dated(first, packets, batches + [newer], grown)
  {
    if packets != [] {
      var init := packets[..|packets| - 1];
      DatedExtends(first, init, batches, received, newer, grown);
      assert NextPts(first, init) < received;
      LaterBatchesDoNotMatter(batches, newer, Clip(NextPts(first, init), received));
    }
  }

  lemma CoversExtends(batches: seq<Batch>, received: nat, newer: Batch, count: nat)
    requires Covers(batches, received) && newer.position == received
    requires 0 < count <= MAX_INPUT_FRAMES && newer.timestamp + 100_000 <= U64_MAX
    ensures Covers(batches + [newer], received + count)
  {
    var grown := batches + [newer];
    forall i: nat | i < |grown|
      ensures 0 < BatchEnd(grown, received + count, i) - grown[i].position <= MAX_INPUT_FRAMES
      ensures grown[i].timestamp + 100_000 <= U64_MAX
    {
      if i < |batches| {
        assert BatchEnd(grown, received + count, i) == BatchEnd(batches, received, i);
        assert grown[i] == batches[i];
      }
    }
  }

  lemma QueuedExtends(timeline: seq<Batch>, batches: seq<Batch>, next: nat, newer: Batch)
    requires Queued(timeline, batches, next) && next <= newer.position && (batches == [] ==> newer.position <= next)
    ensures Queued(timeline + [newer], batches + [newer], next)
  {
    var grown := batches + [newer];
    assert grown[|grown| - (|timeline| + 1)..] == batches[|batches| - |timeline|..] + [newer];
  }

  lemma PacketsNeedInput(e: Encoder, batches: seq<Batch>, packets: seq<OpusPacket>)
    requires Timed(e, batches, packets) && packets != [] && e.codec.nextPts + e.delay == e.submitted
    ensures e.submitted > 0
  {
    NextPtsAdvances(0 - e.delay, packets, |packets| - 1);
    assert packets[..|packets| - 1 + 1] == packets;
  }

  lemma AdmitPlaced(e: Encoder, t: Encoder, packets: seq<OpusPacket>)
    requires Placed(e, packets) && e.codec.nextPts <= e.received <= t.received
    requires t == e.(timeline := t.timeline, received := t.received, lastInput := t.lastInput)
    ensures Placed(t, packets)
  {
  }

  lemma AdmitDated(e: Encoder, batches: seq<Batch>, packets: seq<OpusPacket>, newer: Batch, count: nat)
    requires Timed(e, batches, packets) && e.codec.nextPts + e.delay == e.submitted <= e.received
    requires newer.position == e.received
    ensures Dated(0 - e.delay, packets, batches + [newer], e.received + count)
  {
    if packets != [] {
      PacketsNeedInput(e, batches, packets);
    }
    DatedExtends(0 - e.delay, packets, batches, e.received, newer, e.received + count);
  }

  lemma AdmitQueued(e: Encoder, t: Encoder, batches: seq<Batch>, newer: Batch)
    requires Covers(batches, e.received) && Queued(e.timeline, batches, Clip(e.codec.nextPts, e.received))
    requires e.codec.nextPts <= e.received <= t.received && newer.position == e.received
    requires t.timeline == e.timeline + [newer] && t.codec == e.codec
    ensures Queued(t.timeline, batches + [newer], Clip(t.codec.nextPts, t.received))
  {
    QueuedExtends(e.timeline, batches, Clip(e.codec.nextPts, e.received), newer);
  }

  lemma AdmitNeeded(e: Encoder, t: Encoder, batches: seq<Batch>, newer: Batch)
    requires Needed(e) && Covers(batches, e.received) && Queued(e.timeline, batches, Clip(e.codec.nextPts, e.received))
    requires e.codec.nextPts + e.delay <= e.received && newer.position == e.received
    requires t.timeline == e.timeline + [newer] && t.codec.nextPts == e.codec.nextPts && t.delay == e.delay
    ensures Needed(t)
  {
    hide Covers;
    CoversNone(batches, e.received);
  }

  lemma CoversNone(batches: seq<Batch>, received: nat)
    requires Covers(batches, received)
    ensures batches == [] <==> received == 0
  {
  }

  lemma AdmitTimed(e: Encoder, t: Encoder, batches: seq<Batch>, packets: seq<OpusPacket>, newer: Batch, count: nat,
                   grown: seq<Batch>)
    requires Timed(e, batches, packets) && e.codec.nextPts + e.delay == e.submitted <= e.received
    requires newer.position == e.received && newer.timestamp + 100_000 <= U64_MAX && 0 < count <= MAX_INPUT_FRAMES
    requires t == e.(timeline := e.timeline + [newer], received := e.received + count, lastInput := t.lastInput)
    requires grown == batches + [newer]
    ensures Timed(t, grown, packets)
  {
    hide Placed, Covers, Queued, Dated, Needed;
    TimedCodec(e, batches, packets);
    assert Needed(t) by {
      AdmitNeeded(e, t, batches, newer);
    }
    assert Placed(t, packets) by {
      AdmitPlaced(e, t, packets);
    }
    assert Covers(grown, t.received) by {
      CoversExtends(batches, e.received, newer, count);
    }
    assert Queued(t.timeline, grown, Clip(t.codec.nextPts, t.received)) by {
      AdmitQueued(e, t, batches, newer);
    }
    assert Dated(0 - t.delay, packets, grown, t.received) by {
      AdmitDated(e, batches, packets, newer, count);
    }
  }

  lemma AcceptedIsCut(e: Encoder, h: History, samples: seq<Sample>, a: Encoder, newer: Batch)
    requires Timed(e, h.batches, h.returned) && Pends(e, h.accepted, |h.accepted|) && |h.accepted| == 2 * e.received
    requires 0 < |samples| <= 2 * MAX_INPUT_FRAMES && |samples| % 2 == 0 && newer.timestamp + 100_000 <= U64_MAX
    requires newer.position == e.received
    requires a == e.(timeline := e.timeline + [newer], received := e.received + |samples| / 2, lastInput := a.lastInput)
    ensures BatchDone(a, h.accepted + samples, samples, h.batches + [newer], h.returned, a.EncodeBatch(samples))
  {
    assert Timed(a, h.batches + [newer], h.returned) by {
      AdmitTimed(e, a, h.batches, h.returned, newer, |samples| / 2, h.batches + [newer]);
    }
    AdmittedWaits(e, a, h.accepted, samples);
    EncodeBatchCuts(a, h.accepted + samples, samples, h.batches + [newer], h.returned);
  }

  lemma AcceptedKeepsConsistent(e: Encoder, h: History, capturedAt: U64, samples: seq<Sample>, a: Encoder, newer: Batch)
    requires Consistent(e, h) && e.Refusal(capturedAt, samples).None?
    requires a == e.Admit(capturedAt, samples) && newer == Batch(e.received, capturedAt)
    ensures var (t, answer) := a.Conclude(e.emitted, a.EncodeBatch(samples));
      && Consistent(t, h.(accepted := h.accepted + samples, batches := h.batches + [newer],
                          returned := Answered(h.returned, answer)))
      && BlamesFor(answer, e.codec, t.codec)
  {
    hide Encoder.EncodeBatch, Placed, Covers, Queued, Needed;
    AcceptedIsCut(e, h, samples, a, newer);
    assert Dated(0 - e.delay, h.returned, h.batches + [newer], a.received) by {
      AdmitDated(e, h.batches, h.returned, newer, |samples| / 2);
    }
    BatchConcludes(e, a, h, newer, samples, a.EncodeBatch(samples));
  }

  /** A refused batch changes nothing; an accepted one is cut completely, or fails the encoder by a codec fault. */
  lemma EncodeKeepsConsistent(e: Encoder, h: History, capturedAt: U64, samples: seq<Sample>)
    requires Consistent(e, h)
    ensures var (t, g) := Step(e, h, Encoded(capturedAt, samples)); Consistent(t, g)
    ensures e.Refusal(capturedAt, samples).None? ==>
      BlamesFor(e.Encode(capturedAt, samples).1, e.codec, e.Encode(capturedAt, samples).0.codec)
  {
    if e.Refusal(capturedAt, samples).None? {
      AcceptedKeepsConsistent(e, h, capturedAt, samples, e.Admit(capturedAt, samples), Batch(e.received, capturedAt));
    }
  }

  lemma AdmittedWaits(e: Encoder, a: Encoder, accepted: seq<Sample>, samples: seq<Sample>)
    requires Pends(e, accepted, |accepted|) && |samples| % 2 == 0
    requires a.codec == e.codec && a.submitted == e.submitted && a.pending == e.pending && a.frame == e.frame
      && a.delay == e.delay
    ensures BatchWaits(a, accepted + samples, samples)
  {
    assert (accepted + samples)[..2 * e.submitted] == accepted[..2 * e.submitted];
  }

  lemma BatchConcludes(e: Encoder, a: Encoder, h: History, newer: Batch, samples: seq<Sample>, p: Progress)
    requires Accounted(e, h) && !a.failed && !a.finished && |samples| % 2 == 0
    requires Counted(a) == h.countedBefore + |h.accepted| * BYTES_PER_SAMPLE
    requires a.received == e.received + |samples| / 2 && a.delay == e.delay
    requires BatchDone(a, h.accepted + samples, samples, h.batches + [newer], h.returned, p)
    requires Dated(0 - e.delay, h.returned, h.batches + [newer], a.received)
    ensures var (t, answer) := a.Conclude(e.emitted, p);
      && Consistent(t, h.(accepted := h.accepted + samples, batches := h.batches + [newer],
                          returned := Answered(h.returned, answer)))
      && BlamesFor(answer, a.codec, t.codec)
  {
  }

  // Finishing

  /** The last partial frame is submitted with its padding, or a codec call misbehaved. */
  ghost predicate Flushed(e: Encoder, h: History, p: Progress) {
    && SameCall(e, p.encoder) && Counted(p.encoder) == Counted(e)
    && |p.encoder.pending| <= 2 * p.encoder.frame
    && Blames(p.error, e.codec, p.encoder.codec)
    && (p.error.None? ==>
          && Timed(p.encoder, h.batches, h.returned + p.packets)
          && !p.encoder.codec.ended && p.encoder.pending == []
          && FullySubmitted(p.encoder, h) && |Flatten(p.encoder.codec.frames)| == 2 * p.encoder.submitted)
  }

  lemma PaddedInput(e: Encoder, u: Encoder, accepted: seq<Sample>, padded: seq<Sample>, silence: seq<Sample>)
    requires Pends(e, accepted, |accepted|) && e.pending != [] && padded == e.pending + silence
    requires u == e.(pending := [], statistics := u.statistics) && |silence| == e.frame * 2 - |e.pending|
    ensures Submitted(u, accepted + silence) && |accepted + silence| == 2 * u.submitted + 2 * u.frame
    ensures |padded| == 2 * u.frame
    ensures padded[0..0 + 2 * u.frame] == (accepted + silence)[2 * u.submitted..2 * u.submitted + 2 * u.frame]
  {
    assert (accepted + silence)[..2 * e.submitted] == accepted[..2 * e.submitted];
  }

  lemma PaddedIsFull(e: Encoder, h: History, input: seq<Sample>, silence: seq<Sample>)
    requires input == h.accepted + silence && |silence| < 2 * e.frame && Silence(silence)
    requires Flatten(e.codec.frames) == input
    ensures FullySubmitted(e, h)
  {
    assert input[..|h.accepted|] == h.accepted && input[|h.accepted|..] == silence;
  }

  lemma FlushPads(e: Encoder, h: History, u: Encoder, padded: seq<Sample>, input: seq<Sample>, silence: seq<Sample>)
    requires Timed(e, h.batches, h.returned) && e.received > 0
    requires u == e.(pending := [], statistics := u.statistics) && Counted(u) == Counted(e)
    requires input == h.accepted + silence && |silence| < 2 * e.frame && Silence(silence)
    requires Submitted(u, input) && |input| == 2 * u.submitted + 2 * u.frame
    requires |padded| == 2 * u.frame
      && padded[0..0 + 2 * u.frame] == input[2 * u.submitted..2 * u.submitted + 2 * u.frame]
    ensures Flushed(e, h, u.Submit(padded, 0, []))
  {
    assert Timed(u, h.batches, h.returned + []) by {
      assert h.returned + [] == h.returned;
      TimedSame(e, u, h.batches, h.returned);
    }
    SubmitInStep(u, input, h.batches, h.returned, [], padded, 0);
    PaddingDone(e, h, u, input, silence, u.Submit(padded, 0, []));
  }

  lemma PaddingDone(e: Encoder, h: History, u: Encoder, input: seq<Sample>, silence: seq<Sample>, p: Progress)
    requires SameCall(e, u) && u.pending == [] && Counted(u) == Counted(e) && u.codec == e.codec
    requires input == h.accepted + silence && |silence| < 2 * e.frame && Silence(silence)
    requires |input| == 2 * u.submitted + 2 * u.frame
    requires FrameDone(u, input, h.batches, h.returned, p)
    ensures Flushed(e, h, p)
  {
    if p.error.None? {
      assert input[..2 * p.encoder.submitted] == input;
      PaddedIsFull(p.encoder, h, input, silence);
    }
  }

  lemma NothingToFlush(e: Encoder, h: History)
    requires Timed(e, h.batches, h.returned) && Pends(e, h.accepted, |h.accepted|) && e.pending == []
    ensures Flushed(e, h, Progress(e, [], None))
  {
    assert h.returned + [] == h.returned;
    assert h.accepted[..2 * e.submitted] == h.accepted;
  }

  lemma FlushShape(e: Encoder, u: Encoder, silence: seq<Sample>)
    requires e.pending != [] && silence == seq(e.Room(), _ => SILENCE)
    requires u == e.(pending := [], statistics := e.statistics.(
      zeroPaddingBytes := e.statistics.zeroPaddingBytes + |silence| * BYTES_PER_SAMPLE))
    ensures e.Flush() == u.Submit(e.pending + silence, 0, [])
  {
  }

  lemma FlushSubmits(e: Encoder, h: History)
    requires Timed(e, h.batches, h.returned) && e.received > 0 && Pends(e, h.accepted, |h.accepted|)
    ensures Flushed(e, h, e.Flush())
  {
    if e.pending == [] {
      NothingToFlush(e, h);
    } else {
      var silence := seq(e.Room(), _ => SILENCE);
      var u := e.(pending := [], statistics := e.statistics.(
        zeroPaddingBytes := e.statistics.zeroPaddingBytes + |silence| * BYTES_PER_SAMPLE));
      FlushShape(e, u, silence);
      PaddedInput(e, u, h.accepted, e.pending + silence, silence);
      FlushPads(e, h, u, e.pending + silence, h.accepted + silence, silence);
    }
  }

  /** Everything received has been played back, or a codec call misbehaved. */
  ghost predicate Drained(e: Encoder, h: History, p: Progress) {
    && SameCall(e, p.encoder) && Counted(p.encoder) == Counted(e)
    && |p.encoder.pending| <= 2 * p.encoder.frame
    && Blames(p.error, e.codec, p.encoder.codec)
    && (p.error.None? ==>
          && Timed(p.encoder, h.batches, h.returned + p.packets)
          && FullySubmitted(p.encoder, h) && p.encoder.emitted == p.encoder.received)
  }

  lemma DrainAllDrains(e: Encoder, h: History, p: Progress)
    requires Flushed(e, h, p) && e.received > 0 && |h.accepted| == 2 * e.received
    ensures Drained(e, h, e.DrainAll(p))
  {
    if p.error.None? {
      var (c, accepted) := p.encoder.codec.SendEof();
      var t := p.encoder.(codec := c);
      if accepted {
        assert Timed(t, h.batches, h.returned + p.packets) by {
          TimedSame(p.encoder, t, h.batches, h.returned + p.packets);
        }
        ReceiveCollects(t, h.batches, h.returned, p.packets, true);
        DrainedFrom(e, h, p, t, t.Receive(p.packets, true));
      } else {
        FaultNow(p.encoder.codec, c, CodecFailed);
        FaultLater(e.codec, p.encoder.codec, c, CodecFailed);
      }
    }
  }

  lemma DrainedFrom(e: Encoder, h: History, p: Progress, t: Encoder, q: Progress)
    requires Flushed(e, h, p) && p.error.None? && |h.accepted| == 2 * e.received
    requires t == p.encoder.(codec := t.codec)
      && t.codec == p.encoder.codec.(calls := p.encoder.codec.calls + 1, ended := true)
    requires Collected(t, h.batches, h.returned, q) && t.codec.submitted == t.submitted
    ensures Drained(e, h, q)
  {
    if q.error.Some? {
      FaultLater(e.codec, t.codec, q.encoder.codec, q.error.value);
    } else {
      assert q.encoder.codec.nextPts >= t.submitted >= e.received;
    }
  }

  /** A finish that succeeds has played everything received; one that fails blames the codec. */
  lemma FinishKeepsConsistent(e: Encoder, h: History)
    requires Consistent(e, h)
    ensures Consistent(Step(e, h, Finished).0, Step(e, h, Finished).1)
    ensures !e.failed ==> BlamesFor(e.Finish().1, e.codec, e.Finish().0.codec)
    ensures e.Finish().1.Packets? ==> e.Finish().0.emitted == e.Finish().0.received
  {
    assert h.returned + [] == h.returned;
    if !e.failed && !e.finished {
      if e.received == 0 {
        NothingReceived(e, h);
      } else {
        var f := e.(finished := true);
        assert Timed(f, h.batches, h.returned) by {
          TimedSame(e, f, h.batches, h.returned);
        }
        FlushSubmits(f, h);
        DrainAllDrains(f, h, f.Flush());
        FinishConcludes(e, h, f, f.DrainAll(f.Flush()));
      }
    }
  }

  lemma NothingReceived(e: Encoder, h: History)
    requires Consistent(e, h) && !e.failed && !e.finished && e.received == 0
    ensures Consistent(e.(finished := true), h) && e.emitted == 0
  {
    TimedSame(e, e.(finished := true), h.batches, h.returned);
  }

  lemma FinishConcludes(e: Encoder, h: History, f: Encoder, p: Progress)
    requires Accounted(e, h) && !e.failed && Counted(e) == h.countedBefore + |h.accepted| * BYTES_PER_SAMPLE
    requires f == e.(finished := true) && Drained(f, h, p)
    ensures var (t, answer) := f.Conclude(e.emitted, p);
      && Consistent(t, h.(returned := Answered(h.returned, answer)))
      && BlamesFor(answer, e.codec, t.codec)
      && (answer.Packets? ==> t.emitted == t.received)
  {
  }

  // Whole lives

  lemma OpenIsConsistent(frame: FrameSize, delay: nat, faults: nat -> Fault, statistics: Statistics)
    ensures var e := Open(frame, delay, faults).(statistics := statistics);
      Consistent(e, NOTHING.(countedBefore := Counted(e)))
  {
  }

  lemma ResetKeepsConsistent(e: Encoder, h: History, reopened: Option<nat -> Fault>)
    requires Consistent(e, h)
    ensures Consistent(Step(e, h, WasReset(reopened)).0, Step(e, h, WasReset(reopened)).1)
  {
    if reopened.Some? {
      OpenIsConsistent(e.frame, e.delay, reopened.value, e.Reset(reopened).0.statistics);
    }
  }

  lemma StepKeepsConsistent(e: Encoder, h: History, event: Event)
    requires Consistent(e, h)
    ensures Consistent(Step(e, h, event).0, Step(e, h, event).1)
  {
    match event
    case Encoded(t, samples) => EncodeKeepsConsistent(e, h, t, samples);
    case Finished => FinishKeepsConsistent(e, h);
    case WasReset(reopened) => ResetKeepsConsistent(e, h, reopened);
  }

  ghost function LifeOf(frame: FrameSize, delay: nat, faults: nat -> Fault, events: seq<Event>): (Encoder, History) {
    if events == [] then (Open(frame, delay, faults), NOTHING)
    else
      var (e, h) := LifeOf(frame, delay, faults, events[..|events| - 1]);
      Step(e, h, events[|events| - 1])
  }

  /** The invariant holds in every state of every life. */
  lemma {:induction false} LifeIsConsistent(frame: FrameSize, delay: nat, faults: nat -> Fault, events: seq<Event>)
    ensures Consistent(LifeOf(frame, delay, faults, events).0, LifeOf(frame, delay, faults, events).1)
  {
    hide Consistent, Step;
    if events == [] {
      OpenIsConsistent(frame, delay, faults, NO_STATISTICS);
    } else {
      var init := events[..|events| - 1];
      LifeIsConsistent(frame, delay, faults, init);
      var (e, h) := LifeOf(frame, delay, faults, init);
      StepKeepsConsistent(e, h, events[|events| - 1]);
    }
  }

  // What a reader of the stream gets

  /** What the caller holds plays exactly the samples counted as emitted, failed or not. */
  lemma ConsistentPlays(e: Encoder, h: History)
    requires Consistent(e, h)
    ensures e.emitted <= e.received && Played(0 - e.delay, h.returned) == Range(0, e.emitted)
    ensures |Played(0 - e.delay, h.returned)| == e.emitted
  {
    hide Dated, Timed, Pends, FullySubmitted, Counted, Played;
  }

  /** What a batch promises: refused, it changes nothing; accepted, it joins the history and
      fails only for the codec. */
  lemma EncodeAnswers(e: Encoder, h: History, capturedAt: U64, samples: seq<Sample>, t: Encoder, answer: Answer,
                      g: History)
    requires Consistent(e, h) && (t, answer) == e.Encode(capturedAt, samples)
    requires g == Joined(e, h, capturedAt, samples, answer)
    ensures Consistent(t, g)
    ensures e.Refusal(capturedAt, samples).None? ==> BlamesFor(answer, e.codec, t.codec)
  {
    EncodeKeepsConsistent(e, h, capturedAt, samples);
  }

  /** What a finish promises: packets mean that everything received is played, and anything else blames the codec. */
  lemma FinishAnswers(e: Encoder, h: History, t: Encoder, answer: Answer, g: History)
    requires Consistent(e, h) && (t, answer) == e.Finish() && g == h.(returned := Answered(h.returned, answer))
    ensures Consistent(t, g)
    ensures !e.failed ==> BlamesFor(answer, e.codec, t.codec)
    ensures answer.Packets? ==> Played(0 - t.delay, g.returned) == Range(0, t.received)
  {
    FinishKeepsConsistent(e, h);
    hide Encoder.Finish, BlamesFor;
    ConsistentPlays(t, g);
  }

  /** What a reset promises: the discarded samples are exactly those the returned packets do not play. */
  lemma ResetAnswers(e: Encoder, h: History, reopened: nat -> Fault)
    requires Consistent(e, h)
    ensures var (t, discarded) := e.Reset(Some(reopened));
      && Consistent(t, NOTHING.(countedBefore := Counted(e)))
      && discarded.Some? && e.received == |Played(0 - e.delay, h.returned)| + discarded.value
  {
    ResetKeepsConsistent(e, h, Some(reopened));
    ConsistentPlays(e, h);
  }

  lemma FinishedPlays(e: Encoder, h: History)
    requires Consistent(e, h) && e.finished && !e.failed
    ensures Played(0 - e.delay, h.returned) == Range(0, |h.accepted| / 2)
  {
    hide Dated, Timed, Pends, Counted, Played;
  }

  /** After a finish without failure, the packets returned play every received sample once and in order. */
  lemma FinishedPlaysEverything(frame: FrameSize, delay: nat, faults: nat -> Fault, events: seq<Event>)
    ensures var (e, h) := LifeOf(frame, delay, faults, events);
      e.finished && !e.failed ==> Played(0 - e.delay, h.returned) == Range(0, |h.accepted| / 2)
  {
    hide LifeOf;
    LifeIsConsistent(frame, delay, faults, events);
    var (e, h) := LifeOf(frame, delay, faults, events);
    if e.finished && !e.failed {
      FinishedPlays(e, h);
    }
  }

  /** Frames given to the codec and the pending rest are all accepted input, and the rest is shorter than a frame. */
  lemma NothingLostInFraming(frame: FrameSize, delay: nat, faults: nat -> Fault, events: seq<Event>)
    ensures var (e, h) := LifeOf(frame, delay, faults, events);
      !e.failed && !e.finished ==>
        && Flatten(e.codec.frames) + e.pending == h.accepted
        && |e.pending| < 2 * e.frame
        && Counted(e) - h.countedBefore == |h.accepted| * BYTES_PER_SAMPLE
  {
    hide LifeOf;
    LifeIsConsistent(frame, delay, faults, events);
    var (e, h) := LifeOf(frame, delay, faults, events);
    if !e.failed && !e.finished {
      assert h.accepted[..2 * e.submitted] + h.accepted[2 * e.submitted..|h.accepted|] == h.accepted;
    }
  }

  /** At every reset, what was received is what the caller holds plus what is reported as discarded. */
  lemma ResetAccountsForEverySample(frame: FrameSize, delay: nat, faults: nat -> Fault, events: seq<Event>,
                                    reopened: nat -> Fault)
    ensures var (e, h) := LifeOf(frame, delay, faults, events);
      var (t, discarded) := e.Reset(Some(reopened));
      && discarded.Some? && e.received == |Played(0 - e.delay, h.returned)| + discarded.value
      && t.statistics.discardedSamples == e.statistics.discardedSamples + discarded.value
      && t.received == 0 && !t.failed && !t.finished
  {
    hide LifeOf;
    LifeIsConsistent(frame, delay, faults, events);
  }

  lemma {:induction false} DatedAt(first: int, packets: seq<OpusPacket>, batches: seq<Batch>, received: nat, i: nat)
    requires Dated(first, packets, batches, received) && i < |packets|
    ensures batches != []
    ensures packets[i].capturedAt == CaptureTime(batches, Clip(NextPts(first, packets[..i]), received))
  {
    var init := packets[..|packets| - 1];
    if i < |packets| - 1 {
      assert init[..i] == packets[..i];
      DatedAt(first, init, batches, received, i);
    }
  }

  /** Every returned packet, failed later or not, carries the time the full batch history gives
      its first kept sample. */
  lemma EveryPacketIsDated(frame: FrameSize, delay: nat, faults: nat -> Fault, events: seq<Event>, i: nat)
    ensures var (e, h) := LifeOf(frame, delay, faults, events);
      i < |h.returned| ==>
        && h.batches != []
        && h.returned[i].capturedAt == CaptureTime(h.batches, Clip(NextPts(0 - e.delay, h.returned[..i]), e.received))
  {
    hide LifeOf;
    LifeIsConsistent(frame, delay, faults, events);
    var (e, h) := LifeOf(frame, delay, faults, events);
    if i < |h.returned| {
      DatedAt(0 - e.delay, h.returned, h.batches, e.received, i);
    }
  }

  lemma {:induction false} IncreasingSpan(batches: seq<Batch>, k: nat)
    requires Increasing(batches) && k < |batches|
    ensures batches[|batches| - 1].position - batches[k].position >= |batches| - 1 - k
    decreases |batches| - k
  {
    if k + 1 < |batches| {
      IncreasingSpan(batches, k + 1);
    }
  }

  /** Between calls the queue holds at most what the delay and the pending frame can hold. */
  lemma QueueStaysShort(frame: FrameSize, delay: nat, faults: nat -> Fault, events: seq<Event>)
    ensures var (e, h) := LifeOf(frame, delay, faults, events);
      !e.failed && !e.finished ==> |e.timeline| <= if e.delay == 0 then e.frame else e.frame + e.delay - 1
  {
    hide LifeOf;
    LifeIsConsistent(frame, delay, faults, events);
    var (e, h) := LifeOf(frame, delay, faults, events);
    if !e.failed && !e.finished && |e.timeline| > 1 {
      QueueLength(e, h);
    }
  }

  lemma QueueLength(e: Encoder, h: History)
    requires Consistent(e, h) && !e.failed && !e.finished && |e.timeline| > 1
    ensures |e.timeline| <= if e.delay == 0 then e.frame else e.frame + e.delay - 1
  {
    CoversIncreases(h.batches, e.received);
    var second := |h.batches| - |e.timeline| + 1;
    assert h.batches[second] == e.timeline[1];
    IncreasingSpan(h.batches, second);
    assert h.batches[|h.batches| - 1].position < e.received;
  }
}
