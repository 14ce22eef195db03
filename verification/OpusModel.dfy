/** The Opus encoder's framing, trimming and timekeeping over a codec known only by its contract, as functions
    on values. The class in OpusEncoder.dfy performs the same operations in place. */
module OpusModel {
  import opened Numbers
  import opened OpusTimeline

  const MAX_INPUT_FRAMES := 4_800
  const MAX_PACKET_BYTES := 7_657
  const I64_MAX := 0x7FFF_FFFF_FFFF_FFFF
  const BYTES_PER_SAMPLE := 4

  /** Samples per channel in a frame of 2.5, 5, 10 or 20 milliseconds. */
  type FrameSize = n: nat | n in {120, 240, 480, 960} witness 120

  datatype Sample = Finite(value: real) | NotFinite

  const SILENCE := Finite(0.0)

  datatype Error =
    | NeedsReset | BadLength | NonFiniteSample | TimeNotAdvancing | QueueFull | PositionOverflow | TimeOverflow
    | RangeInvalid | NoTimestamp | OutsideSubmitted | NoCaptureTime | PacketTimeOverflow | BadPayload | CodecFailed

  // The codec contract: each accepted frame yields one packet, packets are consecutive from minus the delay, draining
  // goes on until the packets reach the end of the submitted samples, and any call may fail.

  datatype Fault = Works | Fails | LosesTimestamp | SendsPayload(size: nat)

  datatype Received = Got(pts: Option<int>, size: nat) | Again | Eof | Broken

  datatype Codec = Codec(frame: FrameSize, delay: nat, submitted: nat, nextPts: int, ended: bool,
                         frames: seq<seq<Sample>>,
                         calls: nat, faults: nat -> Fault)
  {
    function Fault(): Fault {
      faults(calls)
    }

    function SendFrame(samples: seq<Sample>): (Codec, bool) {
      if Fault().Works?
      then (this.(calls := calls + 1, submitted := submitted + frame, frames := frames + [samples]), true)
      else (this.(calls := calls + 1), false)
    }

    function SendEof(): (Codec, bool) {
      (this.(calls := calls + 1, ended := ended || Fault().Works?), Fault().Works?)
    }

    function Limit(): int {
      if ended then submitted else submitted - delay
    }

    function PacketsDue(): nat {
      if nextPts < Limit() then Limit() - nextPts else 0
    }

    function ReceivePacket(): (Codec, Received) {
      var c := this.(calls := calls + 1);
      if Fault().Fails? then (c, Broken)
      else if nextPts < Limit() then
        (c.(nextPts := nextPts + frame),
         Got(if Fault().LosesTimestamp? then None else Some(nextPts),
             if Fault().SendsPayload? then Fault().size else 1))
      else if ended then (c, Eof) else (c, Again)
    }
  }

  function OpenCodec(frame: FrameSize, delay: nat, faults: nat -> Fault): Codec {
    Codec(frame, delay, 0, 0 - delay, false, [], 0, faults)
  }

  datatype Statistics = Statistics(inputSharedBytes: nat, inputCopiedBytes: nat, zeroPaddingBytes: nat,
                                   encodedPackets: nat, maximumPendingFrames: nat, resets: nat, discardedSamples: nat)

  const NO_STATISTICS := Statistics(0, 0, 0, 0, 0, 0, 0)

  /** A call in progress: the encoder, the packets of this call so far, and what stopped it, if anything did. */
  datatype Progress = Progress(encoder: Encoder, packets: seq<OpusPacket>, error: Option<Error>)

  datatype Answer = Packets(packets: seq<OpusPacket>) | Failed(error: Error)

  datatype Encoder = Encoder(
      codec: Codec,
      frame: FrameSize,
      delay: nat,
      pending: seq<Sample>,
      timeline: seq<Batch>,
      received: nat,
      submitted: nat,
      emitted: nat,
      lastInput: Option<U64>,
      finished: bool,
      failed: bool,
      statistics: Statistics)
  {
    function Copied(count: nat): Encoder {
      var longest := Max(statistics.maximumPendingFrames, |pending| / 2);
      this.(statistics := statistics.(inputCopiedBytes := statistics.inputCopiedBytes + count * BYTES_PER_SAMPLE,
                                      maximumPendingFrames := longest))
    }

    /** Trims one codec packet, dates it by the pruned queue, and forgets the batches no later packet needs. */
    function TakePacket(pts: Option<int>, size: nat): (Encoder, Option<OpusPacket>, Option<Error>) {
      if pts.None? then (this, None, Some(NoTimestamp))
      else if pts.value < 0 - delay || pts.value > submitted then (this, None, Some(OutsideSubmitted))
      else
        var position := Clip(pts.value, received);
        var queue := Prune(timeline, position);
        if queue == [] then (this.(timeline := queue), None, Some(NoCaptureTime))
        else
          var captured := queue[0].timestamp + (position - queue[0].position) * 1_000_000 / SAMPLE_RATE;
          if captured < 0 || captured > U64_MAX then (this.(timeline := queue), None, Some(PacketTimeOverflow))
          else if size == 0 || size > MAX_PACKET_BYTES then (this.(timeline := queue), None, Some(BadPayload))
          else
            var start, end := SkipStart(pts.value, frame), SkipEnd(pts.value, frame, received);
            (this.(timeline := Prune(queue, Max(pts.value + frame, 0)),
                   emitted := emitted + (frame - start - end),
                   statistics := statistics.(encodedPackets := statistics.encodedPackets + 1)),
             Some(OpusPacket(captured, frame, start, end)), None)
    }

    /** Takes packets until the codec has none to give. */
    function Receive(packets: seq<OpusPacket>, draining: bool): Progress
      decreases codec.PacketsDue()
    {
      var (c, r) := codec.ReceivePacket();
      var e := this.(codec := c);
      match r
      case Again => Progress(e, packets, if draining then Some(CodecFailed) else None)
      case Eof => Progress(e, packets, if draining then None else Some(CodecFailed))
      case Broken => Progress(e, packets, Some(CodecFailed))
      case Got(pts, size) =>
        var (t, packet, error) := e.TakePacket(pts, size);
        if error.Some? then Progress(t, packets, error)
        else t.Receive(packets + [packet.value], draining)
    }

    function SharedFrame(samples: seq<Sample>, offset: nat): Option<seq<Sample>> {
      if offset % 2 != 0 || offset + frame * 2 > |samples| then None
      else Some(samples[offset..offset + frame * 2])
    }

    function Submit(samples: seq<Sample>, offset: nat, packets: seq<OpusPacket>): Progress {
      var shared := SharedFrame(samples, offset);
      if shared.None? then Progress(this, packets, Some(RangeInvalid))
      else
        var (c, accepted) := codec.SendFrame(shared.value);
        var e := this.(codec := c);
        if !accepted then Progress(e, packets, Some(CodecFailed))
        else e.(submitted := submitted + frame).Receive(packets, false)
    }

    function CountShared(): Encoder {
      this.(statistics := statistics.(inputSharedBytes := statistics.inputSharedBytes + frame * 2 * BYTES_PER_SAMPLE))
    }

    /** Submits whole frames straight from the batch. */
    function SubmitWhole(samples: seq<Sample>, offset: nat, packets: seq<OpusPacket>): (r: (Progress, nat))
      requires offset <= |samples|
      ensures r.1 <= |samples|
      decreases |samples| - offset
    {
      if |samples| - offset < frame * 2 then (Progress(this, packets, None), offset)
      else
        var p := Submit(samples, offset, packets);
        if p.error.Some? then (p, offset)
        else p.encoder.CountShared().SubmitWhole(samples, offset + frame * 2, p.packets)
    }

    /** What the pending frame still lacks. */
    function Room(): nat {
      if |pending| < frame * 2 then frame * 2 - |pending| else 0
    }

    /** Completes the pending frame first; its samples are copied. */
    function CompletePending(samples: seq<Sample>): (Progress, nat) {
      if pending == [] then (Progress(this, [], None), 0)
      else
        var count := Min(Room(), |samples|);
        var e := this.(pending := pending + samples[..count]).Copied(count);
        if |e.pending| == frame * 2 then (e.(pending := []).Submit(e.pending, 0, []), count)
        else (Progress(e, [], None), count)
    }

    function KeepRest(rest: seq<Sample>): Encoder {
      if rest == [] then this else this.(pending := pending + rest).Copied(|rest|)
    }

    function EncodeBatch(samples: seq<Sample>): Progress {
      var (p, offset) := CompletePending(samples);
      if p.error.Some? then p
      else
        var (q, end) := p.encoder.SubmitWhole(samples, offset, p.packets);
        if q.error.Some? then q else q.(encoder := q.encoder.KeepRest(samples[end..]))
    }

    /** What a call leaves behind: a failed call keeps none of its packets and blocks the encoder until reset. */
    function Conclude(before: nat, p: Progress): (Encoder, Answer) {
      if p.error.Some? then (p.encoder.(failed := true, emitted := before), Failed(p.error.value))
      else (p.encoder, Packets(p.packets))
    }

    function Refusal(capturedAt: U64, samples: seq<Sample>): Option<Error> {
      if finished || failed then Some(NeedsReset)
      else if samples == [] || |samples| % 2 != 0 || |samples| > MAX_INPUT_FRAMES * 2 then Some(BadLength)
      else if NotFinite in samples then Some(NonFiniteSample)
      else if lastInput.Some? && capturedAt <= lastInput.value then Some(TimeNotAdvancing)
      else if |timeline| >= MAX_INPUT_FRAMES then Some(QueueFull)
      else if received + |samples| / 2 > I64_MAX - MAX_INPUT_FRAMES then Some(PositionOverflow)
      else if capturedAt + 100_000 > U64_MAX then Some(TimeOverflow)
      else None
    }

    function Admit(capturedAt: U64, samples: seq<Sample>): Encoder {
      this.(timeline := timeline + [Batch(received, capturedAt)],
            received := received + |samples| / 2,
            lastInput := Some(capturedAt))
    }

    function Encode(capturedAt: U64, samples: seq<Sample>): (Encoder, Answer) {
      if Refusal(capturedAt, samples).Some? then (this, Failed(Refusal(capturedAt, samples).value))
      else Conclude(emitted, Admit(capturedAt, samples).EncodeBatch(samples))
    }

    function Padded(): seq<Sample> {
      pending + seq(Room(), _ => SILENCE)
    }

    /** Pads and submits the last partial frame. */
    function Flush(): Progress {
      if pending == [] then Progress(this, [], None)
      else
        this.(pending := [],
              statistics := statistics.(zeroPaddingBytes := statistics.zeroPaddingBytes + Room() * BYTES_PER_SAMPLE))
          .Submit(Padded(), 0, [])
    }

    function DrainAll(p: Progress): Progress {
      if p.error.Some? then p
      else
        var (c, accepted) := p.encoder.codec.SendEof();
        var e := p.encoder.(codec := c);
        if accepted then e.Receive(p.packets, true) else Progress(e, p.packets, Some(CodecFailed))
    }

    function Finish(): (Encoder, Answer) {
      if failed then (this, Failed(NeedsReset))
      else if finished then (this, Packets([]))
      else if received == 0 then (this.(finished := true), Packets([]))
      else
        var e := this.(finished := true);
        e.Conclude(emitted, e.DrainAll(e.Flush()))
    }

    function Discarded(): nat {
      if received >= emitted then received - emitted else 0
    }

    /** Starts over with a newly opened codec; without one the encoder stays as it was. */
    function Reset(reopened: Option<nat -> Fault>): (Encoder, Option<nat>) {
      if reopened.None? then (this, None)
      else
        (Open(frame, delay, reopened.value).(statistics := statistics.(
           resets := statistics.resets + 1, discardedSamples := statistics.discardedSamples + Discarded())),
         Some(Discarded()))
    }
  }

  function Open(frame: FrameSize, delay: nat, faults: nat -> Fault): Encoder {
    Encoder(OpenCodec(frame, delay, faults), frame, delay, [], [], 0, 0, 0, None, false, false, NO_STATISTICS)
  }
}
