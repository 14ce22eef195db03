/** Which batches the Opus encoder refuses, and what its statistics count. */
module OpusAnswers {
  import opened Numbers
  import opened OpusTimeline
  import opened OpusModel
  import opened OpusInvariants
  import opened OpusRuns

  // Refused batches

  /** What is wrong with a batch, if anything: the first of these. */
  ghost function Objection(e: Encoder, h: History, capturedAt: U64, samples: seq<Sample>): Option<Error> {
    if e.finished || e.failed then Some(NeedsReset)
    else if !(2 <= |samples| <= 9_600 && |samples| % 2 == 0) then Some(BadLength)
    else if exists i :: 0 <= i < |samples| && samples[i].NotFinite? then Some(NonFiniteSample)
    else if h.batches != [] && capturedAt <= h.batches[|h.batches| - 1].timestamp then Some(TimeNotAdvancing)
    else if |e.timeline| >= 4_800 then Some(QueueFull)
    else if |h.accepted| + |samples| > 2 * (0x7FFF_FFFF_FFFF_FFFF - 4_800) then Some(PositionOverflow)
    else if capturedAt + 100_000 > 0xFFFF_FFFF_FFFF_FFFF then Some(TimeOverflow)
    else None
  }

  /** The encoder remembers when the last batch it accepted was captured. */
  ghost predicate Heard(e: Encoder, h: History) {
    e.lastInput == if h.batches == [] then None else Some(h.batches[|h.batches| - 1].timestamp)
  }

  lemma NotFiniteSomewhere(samples: seq<Sample>)
    ensures NotFinite in samples <==> exists i :: 0 <= i < |samples| && samples[i].NotFinite?
  {
  }

  lemma RefusalMeans(e: Encoder, h: History, capturedAt: U64, samples: seq<Sample>)
    requires |h.accepted| == 2 * e.received && Heard(e, h)
    ensures e.Refusal(capturedAt, samples) == Objection(e, h, capturedAt, samples)
  {
    NotFiniteSomewhere(samples);
  }

  lemma BatchKeepsHeard(e: Encoder, h: History, capturedAt: U64, samples: seq<Sample>)
    requires Consistent(e, h) && e.Refusal(capturedAt, samples).None?
    ensures e.Encode(capturedAt, samples).0.lastInput == Some(capturedAt)
  {
    hide Encoder.EncodeBatch, Placed, Covers, Queued, Needed;
    AcceptedIsCut(e, h, samples, e.Admit(capturedAt, samples), Batch(e.received, capturedAt));
  }

  lemma ResetHears(e: Encoder, reopened: nat -> Fault, countedBefore: nat)
    ensures Heard(e.Reset(Some(reopened)).0, NOTHING.(countedBefore := countedBefore))
  {
  }

  lemma FinishKeepsHeard(e: Encoder, h: History)
    requires Consistent(e, h)
    ensures e.Finish().0.lastInput == e.lastInput
  {
    if !e.failed && !e.finished && e.received > 0 {
      var f := e.(finished := true);
      assert Timed(f, h.batches, h.returned) by { TimedSame(e, f, h.batches, h.returned); }
      FlushSubmits(f, h);
      DrainAllDrains(f, h, f.Flush());
    }
  }

  lemma StepKeepsHeard(e: Encoder, h: History, event: Event)
    requires Consistent(e, h) && Heard(e, h)
    ensures Heard(Step(e, h, event).0, Step(e, h, event).1)
  {
    hide Consistent;
    match event
    case Encoded(t, samples) =>
      if e.Refusal(t, samples).None? {
        BatchKeepsHeard(e, h, t, samples);
      }
    case Finished => FinishKeepsHeard(e, h);
    case WasReset(reopened) =>
  }

  lemma {:induction false} LifeHears(frame: FrameSize, delay: nat, faults: nat -> Fault, events: seq<Event>)
    ensures var (e, h) := LifeOf(frame, delay, faults, events); Heard(e, h) && |h.accepted| == 2 * e.received
  {
    hide Consistent, Step, Heard;
    LifeIsConsistent(frame, delay, faults, events);
    var (e, h) := LifeOf(frame, delay, faults, events);
    if events == [] {
      assert Heard(e, h) by { NothingHeard(frame, delay, faults); }
    } else {
      var init := events[..|events| - 1];
      LifeHears(frame, delay, faults, init);
      LifeIsConsistent(frame, delay, faults, init);
      StepKeepsHeard(LifeOf(frame, delay, faults, init).0, LifeOf(frame, delay, faults, init).1, events[|events| - 1]);
    }
    assert |h.accepted| == 2 * e.received by { ConsistentCounts(e, h); }
  }

  lemma NothingHeard(frame: FrameSize, delay: nat, faults: nat -> Fault)
    ensures Heard(Open(frame, delay, faults), NOTHING)
  {
  }

  lemma ConsistentCounts(e: Encoder, h: History)
    requires Consistent(e, h)
    ensures |h.accepted| == 2 * e.received
  {
  }

  /** In every life, a batch is refused for the first thing wrong with it, and then nothing changes; any other failure
      is the codec's. */
  lemma RefusedIff(frame: FrameSize, delay: nat, faults: nat -> Fault, events: seq<Event>, capturedAt: U64,
                   samples: seq<Sample>)
    ensures var (e, h) := LifeOf(frame, delay, faults, events);
      var (t, answer) := e.Encode(capturedAt, samples);
      var objection := Objection(e, h, capturedAt, samples);
      if objection.Some? then t == e && answer == Failed(objection.value)
      else answer.Failed? ==> answer.error in {CodecFailed, NoTimestamp, BadPayload}
  {
    hide LifeOf, Consistent, Encoder.EncodeBatch, Encoder.Refusal, Objection;
    var (e, h) := LifeOf(frame, delay, faults, events);
    LifeIsConsistent(frame, delay, faults, events);
    LifeHears(frame, delay, faults, events);
    RefusalMeans(e, h, capturedAt, samples);
    EncodeKeepsConsistent(e, h, capturedAt, samples);
  }

  // Statistics

  /** Packets taken, samples shared, copied and padded, and the longest pending rest, in samples per channel. */
  datatype Tally = Tally(packets: int, shared: int, copied: int, padded: int, longest: int)

  const NONE := Tally(0, 0, 0, 0, 0)

  ghost function Plus(a: Tally, b: Tally): Tally {
    Tally(a.packets + b.packets, a.shared + b.shared, a.copied + b.copied, a.padded + b.padded,
          Max(a.longest, b.longest))
  }

  /** Between these two states this was counted, and nothing else. */
  ghost predicate Counts(e: Encoder, t: Encoder, tally: Tally) {
    var before, after := e.statistics, t.statistics;
    && after.encodedPackets == before.encodedPackets + tally.packets
    && after.inputSharedBytes == before.inputSharedBytes + 4 * tally.shared
    && after.inputCopiedBytes == before.inputCopiedBytes + 4 * tally.copied
    && after.zeroPaddingBytes == before.zeroPaddingBytes + 4 * tally.padded
    && after.maximumPendingFrames == Max(before.maximumPendingFrames, tally.longest)
    && after.resets == before.resets && after.discardedSamples == before.discardedSamples
  }

  lemma CountsAdd(e: Encoder, t: Encoder, u: Encoder, a: Tally, b: Tally)
    requires Counts(e, t, a) && Counts(t, u, b)
    ensures Counts(e, u, Plus(a, b))
  {
  }

  lemma TakeCounts(e: Encoder, pts: Option<int>, size: nat)
    ensures var (t, packet, error) := e.TakePacket(pts, size);
      && Counts(e, t, NONE.(packets := if error.None? then 1 else 0)) && t.frame == e.frame && t.pending == e.pending
      && (error.None? ==> packet.Some?)
  {
    hide Prune, SkipStart, SkipEnd, Clip;
  }

  lemma {:induction false} ReceiveCounts(e: Encoder, packets: seq<OpusPacket>, draining: bool)
    ensures var p := e.Receive(packets, draining);
      && Counts(e, p.encoder, NONE.(packets := |p.packets| - |packets|))
      && p.encoder.frame == e.frame && p.encoder.pending == e.pending
    decreases e.codec.PacketsDue()
  {
    hide Encoder.TakePacket;
    var (c, r) := e.codec.ReceivePacket();
    if r.Got? {
      var d := e.(codec := c);
      TakeCounts(d, r.pts, r.size);
      TakeKeepsCodec(d, r.pts, r.size);
      var (t, packet, error) := d.TakePacket(r.pts, r.size);
      if error.None? {
        ReceiveCounts(t, packets + [packet.value], draining);
      }
    }
  }

  lemma TakeKeepsCodec(e: Encoder, pts: Option<int>, size: nat)
    ensures e.TakePacket(pts, size).0.codec == e.codec
  {
    hide Prune, SkipStart, SkipEnd, Clip;
  }

  lemma SubmitCounts(e: Encoder, samples: seq<Sample>, offset: nat, packets: seq<OpusPacket>)
    ensures var p := e.Submit(samples, offset, packets);
      && Counts(e, p.encoder, NONE.(packets := |p.packets| - |packets|))
      && p.encoder.frame == e.frame && p.encoder.pending == e.pending
  {
    hide Encoder.Receive;
    var shared := e.SharedFrame(samples, offset);
    if shared.Some? {
      ReceiveCounts(e.(codec := e.codec.SendFrame(shared.value).0, submitted := e.submitted + e.frame), packets, false);
    }
  }

  /** Whole frames are shared. */
  lemma {:induction false} WholeCounts(e: Encoder, samples: seq<Sample>, offset: nat, packets: seq<OpusPacket>)
    requires offset <= |samples|
    ensures var (p, end) := e.SubmitWhole(samples, offset, packets);
      && offset <= end && (p.error.None? ==> |samples| - end < 2 * e.frame)
      && (end - offset) % (2 * e.frame) == 0
      && Counts(e, p.encoder, NONE.(packets := |p.packets| - |packets|, shared := end - offset))
      && p.encoder.frame == e.frame && p.encoder.pending == e.pending
    decreases |samples| - offset
  {
    hide Encoder.Submit;
    if |samples| - offset >= 2 * e.frame {
      var p := e.Submit(samples, offset, packets);
      SubmitCounts(e, samples, offset, packets);
      if p.error.None? {
        WholeCounts(p.encoder.CountShared(), samples, offset + 2 * e.frame, p.packets);
        var end := p.encoder.CountShared().SubmitWhole(samples, offset + 2 * e.frame, p.packets).1;
        FramesAdd(end - offset - 2 * e.frame, 2 * e.frame);
      }
    }
  }

  lemma RemainderIs(count: nat, rest: nat, frame: nat)
    requires rest < frame
    ensures (count * frame + rest) % frame == rest
  {
    var x := count * frame + rest;
    var more := count - x / frame;
    assert more * frame == x % frame - rest;
    assert more >= 1 ==> more * frame >= frame;
    assert more <= -1 ==> more * frame <= -1 * frame;
  }

  lemma FramesAdd(rest: nat, frame: nat)
    requires frame > 0 && rest % frame == 0
    ensures (rest + frame) % frame == 0
  {
    assert rest + frame == (rest / frame + 1) * frame;
    RemainderIs(rest / frame + 1, 0, frame);
  }

  /** The samples that complete the pending frame, or join it. */
  ghost function Completing(e: Encoder, samples: seq<Sample>): int {
    if e.pending == [] then 0 else Min(Max(2 * e.frame - |e.pending|, 0), |samples|)
  }

  lemma PendingCounts(e: Encoder, samples: seq<Sample>)
    ensures var (p, count) := e.CompletePending(samples);
      && count == Completing(e, samples) && p.encoder.frame == e.frame
      && Counts(e, p.encoder, Tally(|p.packets|, 0, count, 0, if e.pending == [] then 0 else (|e.pending| + count) / 2))
      && (e.pending != [] && |e.pending| + count == 2 * e.frame ==> p.encoder.pending == [])
      && (e.pending == [] ==> p.encoder.pending == [])
  {
    hide Encoder.Submit;
    if e.pending != [] {
      var count := Min(e.Room(), |samples|);
      var f := e.(pending := e.pending + samples[..count]).Copied(count);
      if |f.pending| == e.frame * 2 {
        SubmitCounts(f.(pending := []), f.pending, 0, []);
      }
    }
  }

  lemma RestCounts(e: Encoder, rest: seq<Sample>)
    requires rest != [] ==> e.pending == []
    ensures Counts(e, e.KeepRest(rest), Tally(0, 0, |rest|, 0, |rest| / 2))
  {
  }

  lemma RestIsRemainder(total: nat, end: nat, frame: nat)
    requires frame > 0 && end <= total && end % frame == 0 && total - end < frame
    ensures total - end == total % frame
  {
    assert total == end / frame * frame + (total - end);
    RemainderIs(end / frame, total - end, frame);
  }

  /** What a batch that is cut completely counts: the samples that complete a pending frame, or join it, and the rest
      that fills no frame are copied, and all others are shared. */
  ghost function BatchTally(e: Encoder, samples: seq<Sample>, packets: nat): Tally {
    var count := Completing(e, samples);
    var rest := (|samples| - count) % (2 * e.frame);
    Tally(packets, |samples| - count - rest, count + rest, 0,
          Max(if e.pending == [] then 0 else (|e.pending| + count) / 2, rest / 2))
  }

  lemma BatchCounts(e: Encoder, samples: seq<Sample>)
    requires |e.pending| < 2 * e.frame && e.EncodeBatch(samples).error.None?
    ensures var p := e.EncodeBatch(samples); Counts(e, p.encoder, BatchTally(e, samples, |p.packets|))
  {
    hide Encoder.CompletePending, Encoder.SubmitWhole, Encoder.KeepRest, Counts;
    var (p, count) := e.CompletePending(samples);
    PendingCounts(e, samples);
    var (q, end) := p.encoder.SubmitWhole(samples, count, p.packets);
    WholeCounts(p.encoder, samples, count, p.packets);
    RestIsRemainder(|samples| - count, end - count, 2 * e.frame);
    var u := q.encoder.KeepRest(samples[end..]);
    RestCounts(q.encoder, samples[end..]);
    var first := Tally(|p.packets|, 0, count, 0, if e.pending == [] then 0 else (|e.pending| + count) / 2);
    var second := NONE.(packets := |q.packets| - |p.packets|, shared := end - count);
    CountsAdd(e, p.encoder, q.encoder, first, second);
    CountsAdd(e, q.encoder, u, Plus(first, second), Tally(0, 0, |samples| - end, 0, (|samples| - end) / 2));
  }

  lemma ConsistentPends(e: Encoder, h: History)
    requires Consistent(e, h) && !e.failed && !e.finished
    ensures |e.pending| < 2 * e.frame
  {
  }

  /** A batch that gives packets counts so. */
  lemma EncodeCounts(e: Encoder, h: History, capturedAt: U64, samples: seq<Sample>)
    requires Consistent(e, h) && e.Encode(capturedAt, samples).1.Packets?
    ensures var (t, answer) := e.Encode(capturedAt, samples);
      Counts(e, t, BatchTally(e, samples, |answer.packets|))
  {
    hide Consistent, Encoder.EncodeBatch;
    ConsistentPends(e, h);
    BatchCounts(e.Admit(capturedAt, samples), samples);
  }

  lemma FlushCounts(e: Encoder)
    ensures var p := e.Flush();
      Counts(e, p.encoder, NONE.(packets := |p.packets|, padded := if e.pending == [] then 0
                                                                   else Max(2 * e.frame - |e.pending|, 0)))
  {
    hide Encoder.Submit;
    if e.pending != [] {
      var u := e.(pending := [],
                  statistics := e.statistics.(
                    zeroPaddingBytes := e.statistics.zeroPaddingBytes + e.Room() * BYTES_PER_SAMPLE));
      SubmitCounts(u, e.Padded(), 0, []);
      assert e.Flush() == u.Submit(e.Padded(), 0, []);
    }
  }

  lemma DrainCounts(e: Encoder, p: Progress)
    requires p.error.None?
    ensures var q := e.DrainAll(p); Counts(p.encoder, q.encoder, NONE.(packets := |q.packets| - |p.packets|))
  {
    hide Encoder.Receive;
    ReceiveCounts(p.encoder.(codec := p.encoder.codec.SendEof().0), p.packets, true);
  }

  /** A failed encoder refuses to finish, one that is finished gives nothing more, and a finish that gives packets
      counts them and the silence that filled the last frame. */
  lemma FinishCounts(e: Encoder, h: History)
    requires Consistent(e, h)
    ensures var (t, answer) := e.Finish();
      && (e.failed ==> t == e && answer == Failed(NeedsReset))
      && (!e.failed && e.finished ==> t == e && answer == Packets([]))
      && (!e.failed ==> t.finished)
      && (!e.failed && !e.finished && answer.Packets? ==>
            Counts(e, t, NONE.(packets := |answer.packets|,
                               padded := if e.pending == [] then 0 else 2 * e.frame - |e.pending|)))
  {
    hide Consistent, Encoder.Flush, Encoder.DrainAll, Counts;
    assert !e.failed && !e.finished ==> |e.pending| < 2 * e.frame && (e.received == 0 ==> e.pending == []) by {
      if !e.failed && !e.finished {
        ConsistentPends(e, h);
        NothingPends(e, h);
      }
    }
    if !e.failed && !e.finished {
      var f := e.(finished := true);
      FlushCounts(f);
      FinishEnds(e, h);
      var p := f.Flush();
      if e.received > 0 && p.error.None? {
        DrainCounts(f, p);
        var q := f.DrainAll(p);
        CountsAdd(f, p.encoder, q.encoder,
                  NONE.(packets := |p.packets|, padded := if e.pending == [] then 0 else 2 * e.frame - |e.pending|),
                  NONE.(packets := |q.packets| - |p.packets|));
        CountsOfFinished(e, f, q.encoder, |q.packets|, if e.pending == [] then 0 else 2 * e.frame - |e.pending|);
      } else if e.received == 0 {
        CountsNothing(e, f);
      } else {
        StoppedStays(f, p);
      }
    }
  }

  lemma StoppedStays(e: Encoder, p: Progress)
    requires p.error.Some?
    ensures e.DrainAll(p) == p
  {
  }

  lemma CountsNothing(e: Encoder, t: Encoder)
    requires t == e.(finished := true)
    ensures Counts(e, t, NONE)
  {
  }

  lemma CountsOfFinished(e: Encoder, f: Encoder, t: Encoder, packets: int, padded: int)
    requires f == e.(finished := true) && Counts(f, t, NONE.(packets := packets, padded := padded))
    ensures Counts(e, t, NONE.(packets := packets, padded := padded))
  {
  }

  lemma NothingPends(e: Encoder, h: History)
    requires Consistent(e, h) && !e.failed && !e.finished
    ensures e.received == 0 ==> e.pending == []
  {
  }

  lemma FinishEnds(e: Encoder, h: History)
    requires Consistent(e, h) && !e.failed
    ensures e.Finish().0.finished
  {
    if !e.finished && e.received > 0 {
      var f := e.(finished := true);
      assert Timed(f, h.batches, h.returned) by { TimedSame(e, f, h.batches, h.returned); }
      FlushSubmits(f, h);
      DrainAllDrains(f, h, f.Flush());
    }
  }

  /** A reset starts over but for the statistics, which count it and the samples it discards. */
  lemma ResetCounts(e: Encoder, reopened: nat -> Fault)
    ensures var (t, discarded) := e.Reset(Some(reopened));
      && discarded == Some(Max(e.received - e.emitted, 0))
      && t == Open(e.frame, e.delay, reopened).(statistics := e.statistics.(
                resets := e.statistics.resets + 1,
                discardedSamples := e.statistics.discardedSamples + discarded.value))
  {
  }

  /** What a batch promises beyond staying consistent. */
  lemma EncodeSays(e: Encoder, h: History, capturedAt: U64, samples: seq<Sample>, t: Encoder, answer: Answer,
                   g: History)
    requires Consistent(e, h) && Heard(e, h) && (t, answer) == e.Encode(capturedAt, samples)
    requires g == Joined(e, h, capturedAt, samples, answer)
    ensures Heard(t, g)
    ensures var objection := Objection(e, h, capturedAt, samples);
      if objection.Some? then t == e && answer == Failed(objection.value)
      else answer.Packets? ==> Counts(e, t, BatchTally(e, samples, |answer.packets|))
  {
    hide Consistent, Encoder.EncodeBatch, Encoder.Refusal, Objection, Counts, BatchTally;
    ConsistentCounts(e, h);
    RefusalMeans(e, h, capturedAt, samples);
    StepKeepsHeard(e, h, Encoded(capturedAt, samples));
    if answer.Packets? {
      EncodeCounts(e, h, capturedAt, samples);
    }
  }

  lemma FinishSays(e: Encoder, h: History, t: Encoder, answer: Answer, g: History)
    requires Consistent(e, h) && Heard(e, h) && (t, answer) == e.Finish()
    requires g == h.(returned := Answered(h.returned, answer))
    ensures Heard(t, g)
  {
    hide Encoder.Finish;
    FinishKeepsHeard(e, h);
  }
}
