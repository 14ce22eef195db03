/** One call of the Opus encoder: what it submits, what it collects, and why it can stop early. */
module OpusFraming {
  import opened Numbers
  import opened OpusTimeline
  import opened OpusModel
  import opened OpusInvariants

  lemma FaultNow(before: Codec, after: Codec, error: Error)
    requires Explains(before.Fault(), error) && after.calls > before.calls
    ensures Faulted(before, after, error)
  {
    assert Explains(before.faults(before.calls), error);
  }

  lemma FaultLater(before: Codec, between: Codec, after: Codec, error: Error)
    requires Faulted(between, after, error) && between.faults == before.faults && before.calls <= between.calls
    ensures Faulted(before, after, error)
  {
    var k :| between.calls <= k < after.calls && Explains(between.faults(k), error);
    assert Explains(before.faults(k), error);
  }

  lemma TakePacketIgnoresCodec(e: Encoder, c: Codec, pts: Option<int>, size: nat)
    ensures var (t, packet, error) := e.TakePacket(pts, size);
      e.(codec := c).TakePacket(pts, size) == (t.(codec := c), packet, error)
  {
    hide Prune, SkipStart, SkipEnd, Clip;
  }

  lemma TakeUndated(e: Encoder, size: nat)
    ensures e.TakePacket(None, size) == (e, None, Some(NoTimestamp))
  {
  }

  /** What the encoder makes of a received packet. */
  ghost predicate Taken(e: Encoder, batches: seq<Batch>, packets: seq<OpusPacket>, c: Codec,
                        t: Encoder, packet: Option<OpusPacket>, error: Option<Error>) {
    && SameInput(e, t) && t.codec == c
    && Blames(error, e.codec, c)
    && (error.None? ==> packet.Some? && Timed(t, batches, packets + [packet.value]))
  }

  /** The codec gave its next packet: either a call misbehaved, or the encoder took the packet and stays in step. */
  lemma TakeReceived(e: Encoder, batches: seq<Batch>, packets: seq<OpusPacket>, c: Codec, r: Received)
    requires Timed(e, batches, packets) && e.received > 0 && (c, r) == e.codec.ReceivePacket() && r.Got?
    ensures var (t, packet, error) := e.(codec := c).TakePacket(r.pts, r.size);
      Taken(e, batches, packets, c, t, packet, error)
  {
    hide Encoder.TakePacket, Placed, Remembered;
    TimedCodec(e, batches, packets);
    if e.codec.Fault().LosesTimestamp? {
      FaultNow(e.codec, c, NoTimestamp);
    } else if e.codec.Fault().SendsPayload? && !(0 < r.size <= MAX_PACKET_BYTES) {
      FaultNow(e.codec, c, BadPayload);
    }
    TakePacketIgnoresCodec(e, c, r.pts, r.size);
    if r.pts.Some? {
      TakeInStep(e, batches, packets, c, r);
    } else {
      TakeUndated(e, r.size);
    }
  }

  lemma TakeInStep(e: Encoder, batches: seq<Batch>, packets: seq<OpusPacket>, c: Codec, r: Received)
    requires Timed(e, batches, packets) && e.received > 0 && r.Got? && r.pts == Some(e.codec.nextPts)
    requires e.codec.nextPts <= e.submitted
    requires c == e.codec.(calls := e.codec.calls + 1, nextPts := e.codec.nextPts + e.frame)
    requires 0 < r.size <= MAX_PACKET_BYTES || Faulted(e.codec, c, BadPayload)
    ensures var (t, packet, error) := e.TakePacket(r.pts, r.size);
      Taken(e, batches, packets, c, t.(codec := c), packet, error)
  {
    hide Encoder.TakePacket, Placed, Remembered;
    TimedCodec(e, batches, packets);
    var advanced := e.codec.(nextPts := e.codec.nextPts + e.frame);
    var (t, packet, error) := e.TakePacket(r.pts, r.size);
    TakePacketTimed(e, batches, packets, r.size, t.(codec := advanced));
    if error.None? {
      TimedSame(t.(codec := advanced), t.(codec := c), batches, packets + [packet.value]);
    }
  }

  ghost predicate Collected(e: Encoder, batches: seq<Batch>, returned: seq<OpusPacket>, p: Progress) {
    && SameInput(e, p.encoder)
    && Blames(p.error, e.codec, p.encoder.codec)
    && (p.error.None? ==>
          && Timed(p.encoder, batches, returned + p.packets)
          && e.codec.Limit() <= p.encoder.codec.nextPts
          && (e.codec.Limit() <= e.codec.nextPts ==> p.encoder.codec.nextPts == e.codec.nextPts)
          && (e.codec.nextPts + e.frame == e.codec.Limit() ==> p.encoder.codec.nextPts == e.codec.Limit()))
  }

  /** Collecting packets goes on until the codec has given all it owes, and stops early only for a fault. */
  lemma {:induction false} ReceiveCollects(e: Encoder, batches: seq<Batch>, returned: seq<OpusPacket>,
                                           packets: seq<OpusPacket>, draining: bool)
    requires Timed(e, batches, returned + packets) && e.received > 0 && draining == e.codec.ended
    ensures Collected(e, batches, returned, e.Receive(packets, draining))
    decreases e.codec.PacketsDue(), 1
  {
    hide Encoder.TakePacket, Placed, Remembered;
    TimedCodec(e, batches, returned + packets);
    var (c, r) := e.codec.ReceivePacket();
    if r.Got? {
      TakeReceived(e, batches, returned + packets, c, r);
      var (t, packet, error) := e.(codec := c).TakePacket(r.pts, r.size);
      ReceiveContinues(e, batches, returned, packets, draining, c, t, packet, error);
    } else if r.Broken? {
      FaultNow(e.codec, c, CodecFailed);
    } else {
      TimedSame(e, e.(codec := c), batches, returned + packets);
    }
  }

  lemma {:induction false} ReceiveContinues(e: Encoder, batches: seq<Batch>, returned: seq<OpusPacket>,
                                            packets: seq<OpusPacket>, draining: bool,
                                            c: Codec, t: Encoder, packet: Option<OpusPacket>, error: Option<Error>)
    requires Timed(e, batches, returned + packets) && e.received > 0 && draining == e.codec.ended
    requires e.codec.nextPts < e.codec.Limit()
    requires c == e.codec.(calls := e.codec.calls + 1, nextPts := e.codec.nextPts + e.frame)
    requires Taken(e, batches, returned + packets, c, t, packet, error)
    ensures Collected(e, batches, returned,
                      if error.Some? then Progress(t, packets, error)
                        else t.Receive(packets + [packet.value], draining))
    decreases e.codec.PacketsDue(), 0
  {
    hide Encoder.TakePacket, Placed, Remembered;
    TimedCodec(e, batches, returned + packets);
    if error.None? {
      assert returned + (packets + [packet.value]) == returned + packets + [packet.value];
      ReceiveCollects(t, batches, returned, packets + [packet.value], draining);
      CollectedStep(e, t, batches, returned, t.Receive(packets + [packet.value], draining));
    }
  }

  lemma CollectedStep(e: Encoder, t: Encoder, batches: seq<Batch>, returned: seq<OpusPacket>, p: Progress)
    requires SameInput(e, t) && Collected(t, batches, returned, p)
    requires t.codec == e.codec.(calls := e.codec.calls + 1, nextPts := e.codec.nextPts + e.frame)
    requires e.codec.nextPts < e.codec.Limit() && e.codec.frame == e.frame
    ensures Collected(e, batches, returned, p)
  {
    hide Timed;
    if p.error.Some? {
      FaultLater(e.codec, t.codec, p.encoder.codec, p.error.value);
    }
  }

  // Cutting input into frames

  /** The codec has been given the input up to a frame boundary, and has given back every packet it owes for it. */
  ghost predicate Submitted(e: Encoder, input: seq<Sample>) {
    && 2 * e.submitted <= |input| && |input| % 2 == 0
    && Flatten(e.codec.frames) == input[..2 * e.submitted]
    && !e.codec.ended
    && e.codec.nextPts + e.delay == e.submitted
  }

  /** The input from there up to `done` waits in the pending frame. */
  ghost predicate Pends(e: Encoder, input: seq<Sample>, done: nat) {
    && Submitted(e, input)
    && 2 * e.submitted <= done <= |input| && done % 2 == 0
    && e.pending == input[2 * e.submitted..done]
    && |e.pending| < 2 * e.frame
  }

  function Counted(e: Encoder): nat {
    e.statistics.inputCopiedBytes + e.statistics.inputSharedBytes
  }

  /** What submitting leaves alone. */
  ghost predicate SameCall(e: Encoder, t: Encoder) {
    && t.frame == e.frame && t.delay == e.delay && t.received == e.received && t.lastInput == e.lastInput
    && t.finished == e.finished && t.failed == e.failed
    && t.codec.faults == e.codec.faults && t.codec.calls >= e.codec.calls
  }

  lemma FlattenAppends(frames: seq<seq<Sample>>, next: seq<Sample>)
    ensures Flatten(frames + [next]) == Flatten(frames) + next
  {
    assert (frames + [next])[..|frames|] == frames;
  }

  /** A frame was submitted and its packet collected, or a codec call misbehaved. */
  ghost predicate FrameDone(e: Encoder, input: seq<Sample>, batches: seq<Batch>, returned: seq<OpusPacket>,
                            p: Progress) {
    && SameCall(e, p.encoder)
    && p.encoder.pending == e.pending
    && p.encoder.statistics.inputCopiedBytes == e.statistics.inputCopiedBytes
    && p.encoder.statistics.inputSharedBytes == e.statistics.inputSharedBytes
    && Blames(p.error, e.codec, p.encoder.codec)
    && (p.error.None? ==>
          && Timed(p.encoder, batches, returned + p.packets)
          && Submitted(p.encoder, input)
          && p.encoder.submitted == e.submitted + e.frame)
  }

  /** The state once the codec has accepted a frame and owes one packet for it. */
  ghost predicate Sent(e: Encoder, input: seq<Sample>, t: Encoder) {
    && SameCall(e, t) && t.pending == e.pending && t.statistics == e.statistics
    && t.submitted == e.submitted + e.frame && 2 * t.submitted <= |input| && |input| % 2 == 0
    && Flatten(t.codec.frames) == input[..2 * t.submitted]
    && !t.codec.ended && t.codec.frame == t.frame && t.codec.delay == t.delay && t.codec.submitted == t.submitted
    && t.codec.nextPts + t.frame + t.delay == t.submitted
  }

  lemma SendInStep(e: Encoder, input: seq<Sample>, batches: seq<Batch>, packets: seq<OpusPacket>, shared: seq<Sample>)
    requires Timed(e, batches, packets) && Submitted(e, input) && e.codec.Fault().Works?
    requires 2 * e.submitted + 2 * e.frame <= |input|
    requires shared == input[2 * e.submitted..2 * e.submitted + 2 * e.frame]
    ensures var t := e.(codec := e.codec.SendFrame(shared).0, submitted := e.submitted + e.frame);
      Timed(t, batches, packets) && Sent(e, input, t)
  {
    hide Remembered, Played;
    TimedSame(e, e.(codec := e.codec.SendFrame(shared).0, submitted := e.submitted + e.frame), batches, packets);
    FlattenAppends(e.codec.frames, shared);
    assert input[..2 * e.submitted] + shared == input[..2 * (e.submitted + e.frame)];
  }

  lemma SentIsDone(e: Encoder, t: Encoder, input: seq<Sample>, batches: seq<Batch>, returned: seq<OpusPacket>,
                   p: Progress)
    requires Sent(e, input, t) && Collected(t, batches, returned, p)
    ensures FrameDone(e, input, batches, returned, p)
  {
    hide Timed, Flatten;
    if p.error.Some? {
      FaultLater(e.codec, t.codec, p.encoder.codec, p.error.value);
    }
  }

  lemma SubmitShape(e: Encoder, samples: seq<Sample>, offset: nat, packets: seq<OpusPacket>, c: Codec)
    requires offset % 2 == 0 && offset + 2 * e.frame <= |samples|
    requires c == e.codec.SendFrame(samples[offset..offset + e.frame * 2]).0
    ensures e.Submit(samples, offset, packets) ==
      if e.codec.Fault().Works? then e.(codec := c, submitted := e.submitted + e.frame).Receive(packets, false)
      else Progress(e.(codec := c), packets, Some(CodecFailed))
  {
  }

  lemma SubmitInStep(e: Encoder, input: seq<Sample>, batches: seq<Batch>, returned: seq<OpusPacket>,
                     packets: seq<OpusPacket>, samples: seq<Sample>, offset: nat)
    requires Timed(e, batches, returned + packets) && e.received > 0 && Submitted(e, input)
    requires offset % 2 == 0 && offset + 2 * e.frame <= |samples|
    requires 2 * e.submitted + 2 * e.frame <= |input|
    requires samples[offset..offset + 2 * e.frame] == input[2 * e.submitted..2 * e.submitted + 2 * e.frame]
    ensures FrameDone(e, input, batches, returned, e.Submit(samples, offset, packets))
  {
    hide Encoder.Submit, Encoder.Receive, Flatten, Remembered, Played;
    var shared := samples[offset..offset + e.frame * 2];
    var c := e.codec.SendFrame(shared).0;
    SubmitShape(e, samples, offset, packets, c);
    if e.codec.Fault().Works? {
      var t := e.(codec := c, submitted := e.submitted + e.frame);
      SendInStep(e, input, batches, returned + packets, shared);
      ReceiveCollects(t, batches, returned, packets, false);
      SentIsDone(e, t, input, batches, returned, t.Receive(packets, false));
    } else {
      FaultNow(e.codec, c, CodecFailed);
    }
  }
}
