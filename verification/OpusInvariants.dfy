/** What the Opus encoder keeps while it frames, submits and collects packets. */
module OpusInvariants {
  import opened Numbers
  import opened OpusTimeline
  import opened OpusModel

  ghost function Flatten(frames: seq<seq<Sample>>): seq<Sample> {
    if frames == [] then [] else Flatten(frames[..|frames| - 1]) + frames[|frames| - 1]
  }

  ghost function BatchEnd(batches: seq<Batch>, received: nat, i: nat): int
    requires i < |batches|
  {
    if i + 1 < |batches| then batches[i + 1].position else received
  }

  /** The input history: batches in order, none longer than the limit, covering every received sample. */
  ghost predicate Covers(batches: seq<Batch>, received: nat) {
    && (batches == [] <==> received == 0)
    && (batches != [] ==> batches[0].position == 0)
    && (forall i: nat {:trigger BatchEnd(batches, received, i)} :: i < |batches| ==>
          && 0 < BatchEnd(batches, received, i) - batches[i].position <= MAX_INPUT_FRAMES
          && batches[i].timestamp + 100_000 <= U64_MAX)
  }

  lemma {:induction false} CoversAscends(batches: seq<Batch>, received: nat, i: nat, j: nat)
    requires Covers(batches, received) && i < j <= |batches|
    ensures batches[i].position < if j < |batches| then batches[j].position else received
  {
    if j > i + 1 {
      CoversAscends(batches, received, i, j - 1);
    }
    assert BatchEnd(batches, received, j - 1) > batches[j - 1].position;
  }

  lemma CoversIncreases(batches: seq<Batch>, received: nat)
    requires Covers(batches, received)
    ensures Increasing(batches)
    ensures forall i :: 0 <= i < |batches| ==> 0 <= batches[i].position < received
  {
    forall i, j | 0 <= i < j < |batches|
      ensures batches[i].position < batches[j].position
    {
      CoversAscends(batches, received, i, j);
    }
    forall i | 0 <= i < |batches|
      ensures 0 <= batches[i].position < received
    {
      CoversAscends(batches, received, i, |batches|);
      if i > 0 {
        CoversAscends(batches, received, 0, i);
      }
    }
  }

  /** The queue is the tail of that history from the batch that holds the next position on. */
  ghost predicate Queued(timeline: seq<Batch>, batches: seq<Batch>, next: nat) {
    && |timeline| <= |batches|
    && timeline == batches[|batches| - |timeline|..]
    && (batches != [] ==> timeline != [] && timeline[0].position <= next)
    && (|timeline| > 1 ==> next <= timeline[1].position)
  }

  /** Each packet carries the capture time, by the whole history, of the first sample it keeps. */
  ghost predicate Dated(first: int, packets: seq<OpusPacket>, batches: seq<Batch>, received: nat) {
    packets == [] ||
    var init := packets[..|packets| - 1];
    && Dated(first, init, batches, received)
    && batches != []
    && packets[|packets| - 1].capturedAt == CaptureTime(batches, Clip(NextPts(first, init), received))
  }

  /** The packets so far play exactly the samples counted as emitted, and the codec is where they end. */
  ghost predicate Placed(e: Encoder, packets: seq<OpusPacket>) {
    && e.codec.frame == e.frame && e.codec.delay == e.delay && e.codec.submitted == e.submitted
    && 0 - e.delay <= e.codec.nextPts == NextPts(0 - e.delay, packets)
    && (forall i :: 0 <= i < |packets| ==> packets[i].decodedSamples == e.frame)
    && e.emitted == Clip(e.codec.nextPts, e.received)
    && Played(0 - e.delay, packets) == Range(0, e.emitted)
  }

  /** The second batch of the queue starts after the next packet, unless packets can reach the newest sample. */
  ghost predicate Needed(e: Encoder) {
    e.delay > 0 && |e.timeline| > 1 ==> e.timeline[1].position > Max(e.codec.nextPts, 0)
  }

  /** The queue and the packets agree with the history of batches. */
  ghost predicate Remembered(e: Encoder, batches: seq<Batch>, packets: seq<OpusPacket>) {
    && Covers(batches, e.received) && Needed(e)
    && Queued(e.timeline, batches, Clip(e.codec.nextPts, e.received))
    && Dated(0 - e.delay, packets, batches, e.received)
  }

  ghost predicate Timed(e: Encoder, batches: seq<Batch>, packets: seq<OpusPacket>) {
    Placed(e, packets) && Remembered(e, batches, packets)
  }

  /** Only these parts of the encoder matter to the packets and the queue. */
  lemma TimedSame(e: Encoder, t: Encoder, batches: seq<Batch>, packets: seq<OpusPacket>)
    requires Timed(e, batches, packets)
    requires t.codec.nextPts == e.codec.nextPts && t.codec.frame == e.codec.frame && t.codec.delay == e.codec.delay
    requires t.codec.submitted == t.submitted && t.frame == e.frame && t.delay == e.delay
    requires t.received == e.received && t.emitted == e.emitted && t.timeline == e.timeline
    ensures Timed(t, batches, packets)
  {
  }

  /** The codec is where the encoder thinks it is. */
  lemma TimedCodec(e: Encoder, batches: seq<Batch>, packets: seq<OpusPacket>)
    requires Timed(e, batches, packets)
    ensures e.codec.frame == e.frame && e.codec.delay == e.delay && e.codec.submitted == e.submitted
    ensures 0 - e.delay <= e.codec.nextPts && (e.received > 0 ==> batches != [])
  {
  }

  /** The error is what this misbehaviour of a codec call leads to. */
  ghost predicate Explains(fault: Fault, error: Error) {
    match error
    case NoTimestamp => fault.LosesTimestamp?
    case BadPayload => fault.SendsPayload? && !(1 <= fault.size <= 7_657)
    case CodecFailed => !fault.Works?
    case _ => false
  }

  /** Some codec call between two states led to the error. */
  ghost predicate Faulted(before: Codec, after: Codec, error: Error) {
    exists k :: before.calls <= k < after.calls && Explains(before.faults(k), error)
  }

  /** A call stops early only for what the codec did, never for a range, position or time the encoder computed. */
  ghost predicate Blames(error: Option<Error>, before: Codec, after: Codec) {
    error.Some? ==> error.value in {CodecFailed, NoTimestamp, BadPayload} && Faulted(before, after, error.value)
  }

  ghost predicate BlamesFor(answer: Answer, before: Codec, after: Codec) {
    answer.Failed? ==> Blames(Some(answer.error), before, after)
  }

  /** What collecting packets leaves alone. */
  ghost predicate SameInput(e: Encoder, t: Encoder) {
    && t.frame == e.frame && t.delay == e.delay && t.pending == e.pending && t.received == e.received
    && t.submitted == e.submitted && t.lastInput == e.lastInput && t.finished == e.finished && t.failed == e.failed
    && t.codec.frames == e.codec.frames && t.codec.ended == e.codec.ended && t.codec.faults == e.codec.faults
    && t.codec.calls >= e.codec.calls
    && t.statistics.inputCopiedBytes == e.statistics.inputCopiedBytes
    && t.statistics.inputSharedBytes == e.statistics.inputSharedBytes
  }

  lemma QueueGivesTime(timeline: seq<Batch>, batches: seq<Batch>, received: nat, position: nat)
    requires Covers(batches, received) && Queued(timeline, batches, position) && received > 0
    requires position <= received
    ensures var queue := Prune(timeline, position);
      && queue != [] && queue[0].position <= position
      && queue[0].timestamp + (position - queue[0].position) * 1_000_000 / SAMPLE_RATE == CaptureTime(batches, position)
      && 0 <= CaptureTime(batches, position) <= U64_MAX
  {
    CoversIncreases(batches, received);
    var dropped := |batches| - |timeline|;
    PrunedTimeIsFullTime(batches, dropped, position);
    var now := PruneKeepsSuffix(batches, dropped, position);
    var k := BatchAtHolds(batches, position);
    var b := batches[k];
    assert BatchEnd(batches, received, k) - b.position <= MAX_INPUT_FRAMES;
    assert (position - b.position) * 1_000_000 / SAMPLE_RATE <= 100_000;
  }

  lemma QueuedFrom(batches: seq<Batch>, k: nat, next: nat)
    requires k < |batches| && batches[k].position <= next
    requires k + 1 < |batches| ==> next <= batches[k + 1].position
    ensures Queued(batches[k..], batches, next)
  {
  }

  lemma QueueMovesOn(timeline: seq<Batch>, batches: seq<Batch>, received: nat, pts: int, frame: nat)
    requires batches != [] && Queued(timeline, batches, Clip(pts, received))
    requires forall i :: 0 <= i < |batches| ==> batches[i].position < received
    ensures Queued(Prune(Prune(timeline, Clip(pts, received)), Max(pts + frame, 0)), batches,
                   Clip(pts + frame, received))
  {
    var once := PruneKeepsSuffix(batches, |batches| - |timeline|, Clip(pts, received));
    var twice := PruneKeepsSuffix(batches, once, Max(pts + frame, 0));
    QueuedFrom(batches, twice, Clip(pts + frame, received));
  }

  lemma DatedGrows(first: int, packets: seq<OpusPacket>, batches: seq<Batch>, received: nat, p: OpusPacket)
    requires Dated(first, packets, batches, received) && batches != []
    requires p.capturedAt == CaptureTime(batches, Clip(NextPts(first, packets), received))
    ensures Dated(first, packets + [p], batches, received)
  {
    assert (packets + [p])[..|packets|] == packets;
  }

  lemma TakenPlaced(e: Encoder, t: Encoder, packets: seq<OpusPacket>, p: OpusPacket)
    requires Placed(e, packets)
    requires p.decodedSamples == e.frame && p.skipStart == SkipStart(e.codec.nextPts, e.frame)
    requires p.skipEnd == SkipEnd(e.codec.nextPts, e.frame, e.received)
    requires t.codec == e.codec.(nextPts := e.codec.nextPts + e.frame) && t.frame == e.frame && t.delay == e.delay
    requires t.submitted == e.submitted && t.received == e.received
    requires t.emitted == e.emitted + (e.frame - p.skipStart - p.skipEnd)
    ensures Placed(t, packets + [p])
  {
    PlayedGrows(0 - e.delay, packets, p, e.frame, e.received);
    SkipsKeepReceived(e.codec.nextPts, e.frame, e.received);
  }

  /** What taking a packet does, once its capture time is known to be in range. */
  lemma TakePacketShape(e: Encoder, pts: int, size: nat, captured: nat)
    requires 0 - e.delay <= pts <= e.submitted && captured <= U64_MAX
    requires var queue := Prune(e.timeline, Clip(pts, e.received));
      && queue != []
      && captured == queue[0].timestamp + (Clip(pts, e.received) - queue[0].position) * 1_000_000 / SAMPLE_RATE
    ensures var (t, packet, error) := e.TakePacket(Some(pts), size);
      && SameInput(e, t) && t.codec == e.codec
      && error == (if 0 < size <= MAX_PACKET_BYTES then None else Some(BadPayload))
      && (error.None? ==>
            && packet == Some(OpusPacket(captured, e.frame, SkipStart(pts, e.frame), SkipEnd(pts, e.frame, e.received)))
            && t.timeline == Prune(Prune(e.timeline, Clip(pts, e.received)), Max(pts + e.frame, 0))
            && t.emitted == e.emitted + (e.frame - packet.value.skipStart - packet.value.skipEnd))
  {
    hide Prune, SkipStart, SkipEnd, Clip;
  }

  /** Taking the next packet of the codec keeps everything in step. */
  lemma TakenTimed(e: Encoder, t: Encoder, batches: seq<Batch>, packets: seq<OpusPacket>, p: OpusPacket)
    requires Timed(e, batches, packets) && e.received > 0
    requires p.capturedAt == CaptureTime(batches, Clip(e.codec.nextPts, e.received))
    requires p.decodedSamples == e.frame && p.skipStart == SkipStart(e.codec.nextPts, e.frame)
    requires p.skipEnd == SkipEnd(e.codec.nextPts, e.frame, e.received)
    requires t.codec == e.codec.(nextPts := e.codec.nextPts + e.frame) && t.frame == e.frame && t.delay == e.delay
    requires t.submitted == e.submitted && t.received == e.received
    requires t.emitted == e.emitted + (e.frame - p.skipStart - p.skipEnd)
    requires Queued(t.timeline, batches, Clip(e.codec.nextPts + e.frame, e.received)) && Needed(t)
    ensures Timed(t, batches, packets + [p])
  {
    assert batches != [];
    hide Covers, Queued, Played, Needed;
    TakenPlaced(e, t, packets, p);
    DatedGrows(0 - e.delay, packets, batches, e.received, p);
  }

  lemma PrunedIsNeeded(timeline: seq<Batch>, position: int)
    ensures |Prune(timeline, position)| > 1 ==> Prune(timeline, position)[1].position > position
  {
    PruneIsSuffix(timeline, position);
  }

  /** The codec's next packet can only be refused for its payload. */
  lemma TakePacketTimed(e: Encoder, batches: seq<Batch>, packets: seq<OpusPacket>, size: nat, next: Encoder)
    requires Timed(e, batches, packets) && e.received > 0 && e.codec.nextPts <= e.submitted
    requires next == e.TakePacket(Some(e.codec.nextPts),
                                  size).0.(codec := e.codec.(nextPts := e.codec.nextPts + e.frame))
    ensures var (t, packet, error) := e.TakePacket(Some(e.codec.nextPts), size);
      && SameInput(e, t) && t.codec == e.codec
      && error == (if 0 < size <= MAX_PACKET_BYTES then None else Some(BadPayload))
      && (error.None? ==> packet.Some? && Timed(next, batches, packets + [packet.value]))
  {
    assert batches != [];
    hide Encoder.TakePacket, Covers, Dated, Played, SkipStart, SkipEnd, Prune;
    var pts := e.codec.nextPts;
    QueueGivesTime(e.timeline, batches, e.received, Clip(pts, e.received));
    var captured := CaptureTime(batches, Clip(pts, e.received));
    TakePacketShape(e, pts, size, captured);
    if 0 < size <= MAX_PACKET_BYTES {
      assert Queued(next.timeline, batches, Clip(pts + e.frame, e.received)) by {
        CoversIncreases(batches, e.received);
        QueueMovesOn(e.timeline, batches, e.received, pts, e.frame);
      }
      PrunedIsNeeded(Prune(e.timeline, Clip(pts, e.received)), Max(pts + e.frame, 0));
      TakenTimed(e, next, batches, packets,
                 OpusPacket(captured, e.frame, SkipStart(pts, e.frame), SkipEnd(pts, e.frame, e.received)));
    }
  }
}
