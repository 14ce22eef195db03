/** Exactly which frame sizes and codec delays let the queue of capture times fill up and refuse a batch. */
module OpusQueue {
  import opened Numbers
  import opened OpusTimeline
  import opened OpusModel
  import opened OpusInvariants
  import opened OpusFraming
  import opened OpusRuns

  /** Some life refuses some batch because the queue is full. */
  ghost predicate CanFill(frame: FrameSize, delay: nat) {
    exists faults, events, capturedAt, samples ::
      LifeOf(frame, delay, faults, events).0.Refusal(capturedAt, samples) == Some(QueueFull)
  }

  // What a call leaves alone

  lemma AcceptedKeepsCall(e: Encoder, h: History, capturedAt: U64, samples: seq<Sample>)
    requires Consistent(e, h) && e.Refusal(capturedAt, samples).None?
    ensures var (t, answer) := e.Encode(capturedAt, samples);
      SameCall(e.Admit(capturedAt, samples), t.(failed := false)) && (t.failed <==> answer.Failed?)
  {
    hide Encoder.EncodeBatch, Placed, Covers, Queued, Needed, Dated;
    AcceptedIsCut(e, h, samples, e.Admit(capturedAt, samples), Batch(e.received, capturedAt));
  }

  lemma FinishKeepsShape(e: Encoder, h: History)
    requires Consistent(e, h)
    ensures e.Finish().0.frame == e.frame && e.Finish().0.delay == e.delay
  {
    if !e.failed && !e.finished && e.received > 0 {
      var f := e.(finished := true);
      assert Timed(f, h.batches, h.returned) by {
        TimedSame(e, f, h.batches, h.returned);
      }
      hide Encoder.Flush, Encoder.DrainAll, Placed, Remembered;
      FlushSubmits(f, h);
      DrainAllDrains(f, h, f.Flush());
    }
  }

  lemma StepKeepsShape(e: Encoder, h: History, event: Event)
    requires Consistent(e, h)
    ensures Step(e, h, event).0.frame == e.frame && Step(e, h, event).0.delay == e.delay
  {
    match event
    case Encoded(t, samples) =>
      if e.Refusal(t, samples).None? {
        AcceptedKeepsCall(e, h, t, samples);
      }
    case Finished => FinishKeepsShape(e, h);
    case WasReset(_) =>
  }

  lemma {:induction false} LifeKeepsShape(frame: FrameSize, delay: nat, faults: nat -> Fault, events: seq<Event>)
    ensures LifeOf(frame, delay, faults, events).0.frame == frame
      && LifeOf(frame, delay, faults, events).0.delay == delay
  {
    hide Step, Consistent;
    if events != [] {
      var init := events[..|events| - 1];
      LifeKeepsShape(frame, delay, faults, init);
      LifeIsConsistent(frame, delay, faults, init);
      var (e, h) := LifeOf(frame, delay, faults, init);
      StepKeepsShape(e, h, events[|events| - 1]);
    }
  }

  // A life that fills the queue: the codec always works and every batch is a single frame

  const MOST_BATCHES := 5_000_000

  ghost function Steady(): nat -> Fault {
    _ => Works
  }

  ghost function Ones(count: nat): seq<Event>
    requires count <= MOST_BATCHES
  {
    if count == 0 then [] else Ones(count - 1) + [Encoded(count, [SILENCE, SILENCE])]
  }

  ghost predicate OnePerFrame(batches: seq<Batch>) {
    forall i :: 0 <= i < |batches| ==> batches[i].position == i
  }

  /** After `count` batches of one frame, all of them accepted. */
  ghost predicate After(e: Encoder, h: History, count: nat) {
    && Consistent(e, h) && !e.failed && !e.finished && e.received == count == |h.batches|
    && OnePerFrame(h.batches) && e.codec.faults == Steady()
    && e.lastInput == (if count == 0 then None else Some(count))
  }

  lemma OneMore(e: Encoder, h: History, count: nat)
    requires After(e, h, count) && count < MOST_BATCHES && |e.timeline| < MAX_INPUT_FRAMES
    ensures var (t, g) := Step(e, h, Encoded(count + 1, [SILENCE, SILENCE])); After(t, g, count + 1)
  {
    hide Consistent, Encoder.Encode;
    var samples := [SILENCE, SILENCE];
    assert e.Refusal(count + 1, samples).None?;
    AcceptedKeepsCall(e, h, count + 1, samples);
    EncodeKeepsConsistent(e, h, count + 1, samples);
    NoFaults(e.codec, e.Encode(count + 1, samples).0.codec);
  }

  lemma NoFaults(before: Codec, after: Codec)
    requires before.faults == Steady()
    ensures forall error :: !Faulted(before, after, error)
  {
  }

  lemma FullRefuses(frame: FrameSize, delay: nat, events: seq<Event>, count: nat)
    requires var (e, h) := LifeOf(frame, delay, Steady(), events);
      After(e, h, count) && |e.timeline| >= MAX_INPUT_FRAMES
    requires count < MOST_BATCHES
    ensures CanFill(frame, delay)
  {
    hide LifeOf, Consistent;
    assert LifeOf(frame, delay, Steady(), events).0.Refusal(count + 1, [SILENCE, SILENCE]) == Some(QueueFull);
  }

  lemma LifeGoesOn(frame: FrameSize, delay: nat, events: seq<Event>, e: Event)
    ensures var (t, h) := LifeOf(frame, delay, Steady(), events);
      LifeOf(frame, delay, Steady(), events + [e]) == Step(t, h, e)
  {
    hide Step;
    assert (events + [e])[..|events|] == events;
  }

  lemma {:induction false} OnesGoOn(frame: FrameSize, delay: nat, count: nat)
    requires count < MOST_BATCHES
    ensures CanFill(frame, delay)
         || After(LifeOf(frame, delay, Steady(), Ones(count)).0, LifeOf(frame, delay, Steady(), Ones(count)).1, count)
  {
    hide CanFill, After, Step, LifeOf;
    if count == 0 {
      StartsEmpty(frame, delay);
    } else {
      OnesGoOn(frame, delay, count - 1);
      var (e, h) := LifeOf(frame, delay, Steady(), Ones(count - 1));
      LifeGoesOn(frame, delay, Ones(count - 1), Encoded(count, [SILENCE, SILENCE]));
      if After(e, h, count - 1) {
        if |e.timeline| >= MAX_INPUT_FRAMES {
          FullRefuses(frame, delay, Ones(count - 1), count - 1);
        } else {
          OneMore(e, h, count - 1);
        }
      }
    }
  }

  lemma StartsEmpty(frame: FrameSize, delay: nat)
    ensures After(LifeOf(frame, delay, Steady(), []).0, LifeOf(frame, delay, Steady(), []).1, 0)
  {
    OpenIsConsistent(frame, delay, Steady(), NO_STATISTICS);
  }

  lemma {:induction false} EqualPackets(first: int, packets: seq<OpusPacket>, frame: nat)
    requires forall i :: 0 <= i < |packets| ==> packets[i].decodedSamples == frame
    ensures NextPts(first, packets) == first + frame * |packets|
  {
    if packets != [] {
      EqualPackets(first, packets[..|packets| - 1], frame);
      assert frame * |packets| == frame * (|packets| - 1) + frame;
    }
  }

  lemma WholeFrames(frame: nat, sent: nat, delay: nat)
    requires frame * sent <= frame * delay + frame - 1 < frame * sent + frame
    ensures frame * sent == frame * delay >= delay
  {
    assert sent > delay ==> frame * sent >= frame * (delay + 1);
    assert sent < delay ==> frame * delay >= frame * (sent + 1);
  }

  /** The queue holds every batch from the codec's next position on. */
  lemma QueueReachesBack(e: Encoder, h: History, count: nat)
    requires After(e, h, count)
    ensures |e.timeline| >= count - Clip(e.codec.nextPts, count)
    ensures e.codec.nextPts + e.delay == e.submitted == e.frame * |h.returned|
    ensures e.submitted <= count < e.submitted + e.frame
  {
    hide Covers, Dated, Needed, Played, FullySubmitted;
    EqualPackets(0 - e.delay, h.returned, e.frame);
    PendingShort(e, h.accepted);
  }

  lemma PendingShort(e: Encoder, accepted: seq<Sample>)
    requires Pends(e, accepted, |accepted|) && |accepted| == 2 * e.received
    ensures e.submitted <= e.received < e.submitted + e.frame
  {
    assert |e.pending| == |accepted| - 2 * e.submitted;
  }

  ghost function BatchesToFill(frame: FrameSize, delay: nat): nat {
    if delay >= MAX_INPUT_FRAMES then MAX_INPUT_FRAMES else frame * delay + frame - 1
  }

  lemma ReachesBackFarEnough(frame: FrameSize, delay: nat, sent: nat, count: nat)
    requires frame + delay > MAX_INPUT_FRAMES && count == BatchesToFill(frame, delay)
    requires frame * sent <= count < frame * sent + frame
    ensures count - Clip(frame * sent - delay, count) >= MAX_INPUT_FRAMES
  {
    if delay < MAX_INPUT_FRAMES {
      WholeFrames(frame, sent, delay);
    }
  }

  lemma FillsUp(e: Encoder, h: History)
    requires After(e, h, BatchesToFill(e.frame, e.delay)) && e.frame + e.delay > MAX_INPUT_FRAMES
    ensures |e.timeline| >= MAX_INPUT_FRAMES
  {
    var count := BatchesToFill(e.frame, e.delay);
    QueueReachesBack(e, h, count);
    hide After, BatchesToFill, Clip;
    ReachesBackFarEnough(e.frame, e.delay, |h.returned|, count);
  }

  lemma FewBatchesFill(frame: FrameSize, delay: nat)
    ensures BatchesToFill(frame, delay) < MOST_BATCHES
  {
    assert delay < MAX_INPUT_FRAMES ==> frame * delay <= 960 * MAX_INPUT_FRAMES;
  }

  lemma LongDelayFills(frame: FrameSize, delay: nat)
    requires frame + delay > MAX_INPUT_FRAMES
    ensures CanFill(frame, delay)
  {
    hide CanFill, After, LifeOf, BatchesToFill, Ones;
    var count := BatchesToFill(frame, delay);
    FewBatchesFill(frame, delay);
    OnesGoOn(frame, delay, count);
    LifeKeepsShape(frame, delay, Steady(), Ones(count));
    var (e, h) := LifeOf(frame, delay, Steady(), Ones(count));
    if After(e, h, count) {
      FillsUp(e, h);
      FullRefuses(frame, delay, Ones(count), count);
    }
  }

  /** A full queue can refuse a batch exactly when frame and delay together exceed the 4800 batches it holds. */
  lemma QueueCanFillIff(frame: FrameSize, delay: nat)
    ensures CanFill(frame, delay) <==> frame + delay > MAX_INPUT_FRAMES
  {
    hide LifeOf;
    if CanFill(frame, delay) {
      var faults, events, capturedAt, samples :|
        LifeOf(frame, delay, faults, events).0.Refusal(capturedAt, samples) == Some(QueueFull);
      QueueStaysShort(frame, delay, faults, events);
      LifeKeepsShape(frame, delay, faults, events);
    }
    if frame + delay > MAX_INPUT_FRAMES {
      LongDelayFills(frame, delay);
    }
  }
}
