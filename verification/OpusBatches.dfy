/** One batch or one finish of the Opus encoder: the input is cut without loss, and only the codec can fail it. */
module OpusBatches {
  import opened Numbers
  import opened OpusTimeline
  import opened OpusModel
  import opened OpusInvariants
  import opened OpusFraming

  /** The outcome of submitting a stretch of the batch that left `end` as the next sample to handle. */
  ghost predicate CutTo(e: Encoder, input: seq<Sample>, samples: seq<Sample>, batches: seq<Batch>,
                        returned: seq<OpusPacket>, p: Progress, end: nat) {
    && SameCall(e, p.encoder)
    && |p.encoder.pending| <= 2 * p.encoder.frame
    && Blames(p.error, e.codec, p.encoder.codec)
    && (p.error.None? ==>
          && Timed(p.encoder, batches, returned + p.packets)
          && end <= |samples| <= |input| && end % 2 == 0
          && Pends(p.encoder, input, |input| - |samples| + end)
          && (end < |samples| ==> p.encoder.pending == []))
  }

  /** The whole frames from `offset` on are all submitted, and counted as shared. */
  ghost predicate WholeCut(e: Encoder, input: seq<Sample>, samples: seq<Sample>, batches: seq<Batch>,
                           returned: seq<OpusPacket>, offset: nat, r: (Progress, nat)) {
    && CutTo(e, input, samples, batches, returned, r.0, r.1)
    && (r.0.error.None? ==>
          && offset <= r.1 && |samples| - r.1 < 2 * e.frame
          && r.0.encoder.statistics.inputCopiedBytes == e.statistics.inputCopiedBytes
          && Counted(r.0.encoder) == Counted(e) + (r.1 - offset) * BYTES_PER_SAMPLE)
  }

  ghost predicate AtOffset(e: Encoder, input: seq<Sample>, samples: seq<Sample>, offset: nat) {
    && offset <= |samples| <= |input| && samples == input[|input| - |samples|..]
    && offset % 2 == 0 && |samples| % 2 == 0
    && Pends(e, input, |input| - |samples| + offset) && (offset < |samples| ==> e.pending == [])
  }

  lemma NextFrameSlice(e: Encoder, input: seq<Sample>, samples: seq<Sample>, offset: nat)
    requires AtOffset(e, input, samples, offset) && offset + 2 * e.frame <= |samples|
    ensures 2 * e.submitted == |input| - |samples| + offset
    ensures samples[offset..offset + 2 * e.frame] == input[2 * e.submitted..2 * e.submitted + 2 * e.frame]
  {
  }

  ghost predicate OneFrameOn(e: Encoder, t: Encoder) {
    && SameCall(e, t)
    && t.statistics.inputCopiedBytes == e.statistics.inputCopiedBytes
    && Counted(t) == Counted(e) + 2 * e.frame * BYTES_PER_SAMPLE
  }

  lemma FrameMovesOn(e: Encoder, input: seq<Sample>, samples: seq<Sample>, batches: seq<Batch>,
                     returned: seq<OpusPacket>, p: Progress, offset: nat, t: Encoder)
    requires FrameDone(e, input, batches, returned, p) && p.error.None? && t == p.encoder.CountShared()
    requires AtOffset(e, input, samples, offset) && offset + 2 * e.frame <= |samples|
    ensures OneFrameOn(e, t) && AtOffset(t, input, samples, offset + 2 * e.frame)
  {
    assert OneFrameOn(e, t) by {
      hide Timed, Submitted, AtOffset;
    }
    assert p.encoder.pending == [] && Submitted(t, input) && 2 * t.submitted == 2 * e.submitted + 2 * e.frame by {
      hide Timed, Flatten;
    }
    hide FrameDone, OneFrameOn;
    assert t.frame == e.frame;
  }

  lemma WholeFrameCounted(e: Encoder, input: seq<Sample>, samples: seq<Sample>, batches: seq<Batch>,
                          returned: seq<OpusPacket>, p: Progress, offset: nat, t: Encoder)
    requires FrameDone(e, input, batches, returned, p) && p.error.None? && t == p.encoder.CountShared()
    requires AtOffset(e, input, samples, offset) && offset + 2 * e.frame <= |samples|
    ensures Timed(t, batches, returned + p.packets) && OneFrameOn(e, t)
    ensures AtOffset(t, input, samples, offset + 2 * e.frame)
  {
    hide Placed, Remembered, Flatten;
    FrameMovesOn(e, input, samples, batches, returned, p, offset, t);
    hide AtOffset, OneFrameOn;
    TimedCodec(p.encoder, batches, returned + p.packets);
    TimedSame(p.encoder, t, batches, returned + p.packets);
  }

  lemma WholeCutJoins(e: Encoder, t: Encoder, input: seq<Sample>, samples: seq<Sample>, batches: seq<Batch>,
                      returned: seq<OpusPacket>, offset: nat, r: (Progress, nat))
    requires OneFrameOn(e, t) && WholeCut(t, input, samples, batches, returned, offset + 2 * e.frame, r)
    ensures WholeCut(e, input, samples, batches, returned, offset, r)
  {
    hide Placed, Remembered, Flatten, Timed, Pends;
    if r.0.error.Some? {
      FaultLater(e.codec, t.codec, r.0.encoder.codec, r.0.error.value);
    }
  }

  lemma WholeCutFails(e: Encoder, input: seq<Sample>, samples: seq<Sample>, batches: seq<Batch>,
                      returned: seq<OpusPacket>, p: Progress, offset: nat)
    requires FrameDone(e, input, batches, returned, p) && p.error.Some? && |e.pending| <= 2 * e.frame
    ensures WholeCut(e, input, samples, batches, returned, offset, (p, offset))
  {
    hide Placed, Remembered, Flatten, Timed, Pends;
  }

  lemma WholeCutDone(e: Encoder, input: seq<Sample>, samples: seq<Sample>, batches: seq<Batch>,
                     returned: seq<OpusPacket>, packets: seq<OpusPacket>, offset: nat)
    requires AtOffset(e, input, samples, offset) && |samples| - offset < 2 * e.frame
    requires Timed(e, batches, returned + packets)
    ensures WholeCut(e, input, samples, batches, returned, offset, (Progress(e, packets, None), offset))
  {
    hide Placed, Remembered, Flatten;
  }

  lemma SubmitWholeShape(e: Encoder, samples: seq<Sample>, packets: seq<OpusPacket>, offset: nat, p: Progress)
    requires offset <= |samples| && p == e.Submit(samples, offset, packets)
    ensures e.SubmitWhole(samples, offset, packets) ==
      if |samples| - offset < e.frame * 2 then (Progress(e, packets, None), offset)
      else if p.error.Some? then (p, offset)
      else p.encoder.CountShared().SubmitWhole(samples, offset + e.frame * 2, p.packets)
  {
  }

  /** Whole frames of the batch follow each other without a gap. */
  lemma {:induction false} SubmitWholeCuts(e: Encoder, input: seq<Sample>, samples: seq<Sample>, batches: seq<Batch>,
                                           returned: seq<OpusPacket>, packets: seq<OpusPacket>, offset: nat)
    requires AtOffset(e, input, samples, offset)
    requires Timed(e, batches, returned + packets) && e.received > 0
    ensures WholeCut(e, input, samples, batches, returned, offset, e.SubmitWhole(samples, offset, packets))
    decreases |samples| - offset, 1
  {
    hide Placed, Remembered, Flatten, Encoder.SubmitWhole, Encoder.Submit;
    var p := e.Submit(samples, offset, packets);
    SubmitWholeShape(e, samples, packets, offset, p);
    if |samples| - offset < e.frame * 2 {
      WholeCutDone(e, input, samples, batches, returned, packets, offset);
    } else {
      NextFrameSlice(e, input, samples, offset);
      SubmitInStep(e, input, batches, returned, packets, samples, offset);
      if p.error.Some? {
        WholeCutFails(e, input, samples, batches, returned, p, offset);
      } else {
        WholeCutGoesOn(e, input, samples, batches, returned, p, offset, p.encoder.CountShared());
      }
    }
  }

  lemma {:induction false} WholeCutGoesOn(e: Encoder, input: seq<Sample>, samples: seq<Sample>, batches: seq<Batch>,
                                          returned: seq<OpusPacket>, p: Progress, offset: nat, t: Encoder)
    requires AtOffset(e, input, samples, offset) && offset + 2 * e.frame <= |samples| && e.received > 0
    requires FrameDone(e, input, batches, returned, p) && p.error.None? && t == p.encoder.CountShared()
    ensures WholeCut(e, input, samples, batches, returned, offset,
                     t.SubmitWhole(samples, offset + e.frame * 2, p.packets))
    decreases |samples| - offset, 0
  {
    hide Placed, Remembered, Flatten, Encoder.SubmitWhole, Encoder.Submit;
    WholeFrameCounted(e, input, samples, batches, returned, p, offset, t);
    SubmitWholeCuts(t, input, samples, batches, returned, p.packets, offset + e.frame * 2);
    WholeCutJoins(e, t, input, samples, batches, returned, offset,
                  t.SubmitWhole(samples, offset + e.frame * 2, p.packets));
  }

  // The pending frame comes first

  /** The pending frame is completed from the batch, or takes all of it; either way its samples
      are counted as copied. */
  ghost predicate PendingCut(e: Encoder, input: seq<Sample>, samples: seq<Sample>, batches: seq<Batch>,
                             returned: seq<OpusPacket>, r: (Progress, nat)) {
    && CutTo(e, input, samples, batches, returned, r.0, r.1)
    && (r.0.error.None? ==> Counted(r.0.encoder) == Counted(e) + r.1 * BYTES_PER_SAMPLE)
  }

  ghost predicate BatchWaits(e: Encoder, input: seq<Sample>, samples: seq<Sample>) {
    && |samples| <= |input| && samples == input[|input| - |samples|..] && |samples| % 2 == 0 && |input| % 2 == 0
    && Pends(e, input, |input| - |samples|)
  }

  lemma CopiedPends(e: Encoder, input: seq<Sample>, samples: seq<Sample>, count: nat)
    requires BatchWaits(e, input, samples) && count <= |samples| && count % 2 == 0
    ensures e.pending + samples[..count] == input[2 * e.submitted..|input| - |samples| + count]
  {
  }

  lemma PendingAbsorbs(e: Encoder, input: seq<Sample>, samples: seq<Sample>, batches: seq<Batch>,
                       returned: seq<OpusPacket>, t: Encoder)
    requires BatchWaits(e, input, samples) && Timed(e, batches, returned) && |e.pending| + |samples| < 2 * e.frame
    requires t == e.(pending := e.pending + samples).Copied(|samples|)
    ensures PendingCut(e, input, samples, batches, returned, (Progress(t, [], None), |samples|))
  {
    hide Placed, Remembered, Flatten;
    TimedCodec(e, batches, returned);
    CopiedPends(e, input, samples, |samples|);
    assert returned + [] == returned && samples[..|samples|] == samples;
    TimedSame(e, t, batches, returned);
  }

  lemma PendingCompletes(e: Encoder, input: seq<Sample>, samples: seq<Sample>, batches: seq<Batch>,
                         returned: seq<OpusPacket>, count: nat, u: Encoder, full: seq<Sample>)
    requires BatchWaits(e, input, samples) && Timed(e, batches, returned) && e.received > 0
    requires count <= |samples| && |e.pending| + count == 2 * e.frame && full == e.pending + samples[..count]
    requires u == e.(pending := full).Copied(count).(pending := [])
    ensures PendingCut(e, input, samples, batches, returned, (u.Submit(full, 0, []), count))
  {
    hide Placed, Remembered, Flatten, Encoder.Submit;
    TimedCodec(e, batches, returned);
    CopiedPends(e, input, samples, count);
    assert returned + [] == returned && full[0..0 + 2 * e.frame] == full;
    TimedSame(e, u, batches, returned);
    SubmitInStep(u, input, batches, returned, [], full, 0);
    PendingFrameDone(e, u, input, samples, batches, returned, u.Submit(full, 0, []), count);
  }

  lemma CompletePendingCuts(e: Encoder, input: seq<Sample>, samples: seq<Sample>, batches: seq<Batch>,
                            returned: seq<OpusPacket>)
    requires BatchWaits(e, input, samples) && Timed(e, batches, returned) && e.received > 0
    ensures PendingCut(e, input, samples, batches, returned, e.CompletePending(samples))
  {
    hide Placed, Remembered, Flatten, Encoder.Submit;
    var count := Min(e.Room(), |samples|);
    if e.pending == [] {
      assert returned + [] == returned;
    } else if |e.pending| + |samples| < 2 * e.frame {
      assert samples[..count] == samples;
      PendingAbsorbs(e, input, samples, batches, returned, e.(pending := e.pending + samples).Copied(|samples|));
    } else {
      var full := e.pending + samples[..count];
      PendingCompletes(e, input, samples, batches, returned, count, e.(pending := full).Copied(count).(pending := []),
                       full);
    }
  }

  lemma PendingFrameDone(e: Encoder, u: Encoder, input: seq<Sample>, samples: seq<Sample>, batches: seq<Batch>,
                         returned: seq<OpusPacket>, p: Progress, count: nat)
    requires BatchWaits(e, input, samples) && count <= |samples| && |e.pending| + count == 2 * e.frame
    requires SameCall(e, u) && u.pending == [] && u.submitted == e.submitted && u.codec == e.codec
    requires Counted(u) == Counted(e) + count * BYTES_PER_SAMPLE
    requires FrameDone(u, input, batches, returned, p)
    ensures PendingCut(e, input, samples, batches, returned, (p, count))
  {
    hide Placed, Remembered, Flatten, Encoder.Submit;
  }

  // The whole batch

  /** A batch leaves either a codec fault, or all input so far submitted or pending, and every byte counted once. */
  ghost predicate BatchDone(e: Encoder, input: seq<Sample>, samples: seq<Sample>, batches: seq<Batch>,
                            returned: seq<OpusPacket>, p: Progress) {
    && SameCall(e, p.encoder)
    && |p.encoder.pending| <= 2 * p.encoder.frame
    && Blames(p.error, e.codec, p.encoder.codec)
    && (p.error.None? ==>
          && Timed(p.encoder, batches, returned + p.packets)
          && Pends(p.encoder, input, |input|)
          && Counted(p.encoder) == Counted(e) + |samples| * BYTES_PER_SAMPLE)
  }

  lemma RestPends(e: Encoder, input: seq<Sample>, samples: seq<Sample>, end: nat)
    requires end <= |samples| <= |input| && samples == input[|input| - |samples|..] && |samples| - end < 2 * e.frame
    requires Pends(e, input, |input| - |samples| + end) && (end < |samples| ==> e.pending == [])
    ensures var t := e.KeepRest(samples[end..]);
      && Pends(t, input, |input|) && t.codec == e.codec && SameCall(e, t)
      && Counted(t) == Counted(e) + (|samples| - end) * BYTES_PER_SAMPLE
  {
    assert input[2 * e.submitted..|input| - |samples| + end] + samples[end..] == input[2 * e.submitted..];
  }

  lemma EncodeBatchCuts(e: Encoder, input: seq<Sample>, samples: seq<Sample>, batches: seq<Batch>,
                        returned: seq<OpusPacket>)
    requires BatchWaits(e, input, samples) && Timed(e, batches, returned) && e.received > 0
    ensures BatchDone(e, input, samples, batches, returned, e.EncodeBatch(samples))
  {
    hide Placed, Remembered, Flatten, Encoder.SubmitWhole, Encoder.Submit, Encoder.CompletePending, Pends;
    CompletePendingCuts(e, input, samples, batches, returned);
    var (p, offset) := e.CompletePending(samples);
    if p.error.None? {
      SubmitWholeCuts(p.encoder, input, samples, batches, returned, p.packets, offset);
      var r := p.encoder.SubmitWhole(samples, offset, p.packets);
      BatchEnds(e, input, samples, batches, returned, p.encoder, offset, r);
    }
  }

  lemma BatchEnds(e: Encoder, input: seq<Sample>, samples: seq<Sample>, batches: seq<Batch>, returned: seq<OpusPacket>,
                  start: Encoder, offset: nat, r: (Progress, nat))
    requires |samples| <= |input| && samples == input[|input| - |samples|..]
    requires SameCall(e, start) && Counted(start) == Counted(e) + offset * BYTES_PER_SAMPLE
    requires WholeCut(start, input, samples, batches, returned, offset, r)
    ensures BatchDone(e, input, samples, batches, returned,
                      if r.0.error.Some? then r.0 else r.0.(encoder := r.0.encoder.KeepRest(samples[r.1..])))
  {
    hide Placed, Remembered, Flatten;
    if r.0.error.Some? {
      FaultLater(e.codec, start.codec, r.0.encoder.codec, r.0.error.value);
    } else {
      var t := r.0.encoder.KeepRest(samples[r.1..]);
      RestPends(r.0.encoder, input, samples, r.1);
      assert Timed(t, batches, returned + r.0.packets) by {
        TimedCodec(r.0.encoder, batches, returned + r.0.packets);
        TimedSame(r.0.encoder, t, batches, returned + r.0.packets);
      }
    }
  }
}
