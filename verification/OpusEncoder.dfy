/** The Opus encoder as it runs: buffers and counters change inside the loops that cut input and collect packets. */
module OpusEncoder {
  import opened Numbers
  import opened OpusTimeline
  import opened OpusModel
  import opened OpusInvariants
  import opened OpusFraming
  import opened OpusRuns
  import opened OpusAnswers

  class OpusCodec {
    const frame: FrameSize
    const delay: nat
    const faults: nat -> Fault
    var submitted: nat
    var nextPts: int
    var ended: bool
    var frames: seq<seq<Sample>>
    var calls: nat

    function Snapshot(): Codec
      reads this
    {
      Codec(frame, delay, submitted, nextPts, ended, frames, calls, faults)
    }

    constructor (frame: FrameSize, delay: nat, faults: nat -> Fault)
      ensures Snapshot() == OpenCodec(frame, delay, faults)
    {
      this.frame, this.delay, this.faults := frame, delay, faults;
      submitted, nextPts, ended, frames, calls := 0, 0 - delay, false, [], 0;
    }

    method SendFrame(samples: seq<Sample>) returns (accepted: bool)
      modifies this
      ensures (Snapshot(), accepted) == old(Snapshot()).SendFrame(samples)
    {
      accepted := faults(calls).Works?;
      calls := calls + 1;
      if accepted {
        submitted := submitted + frame;
        frames := frames + [samples];
      }
    }

    method SendEof() returns (accepted: bool)
      modifies this
      ensures (Snapshot(), accepted) == old(Snapshot()).SendEof()
    {
      accepted := faults(calls).Works?;
      calls := calls + 1;
      ended := ended || accepted;
    }

    method ReceivePacket() returns (r: Received)
      modifies this
      ensures (Snapshot(), r) == old(Snapshot()).ReceivePacket()
    {
      r := Snapshot().ReceivePacket().1;
      calls := calls + 1;
      if r.Got? {
        nextPts := nextPts + frame;
      }
    }
  }

  class Encoding {
    const frame: FrameSize
    const delay: nat
    var codec: OpusCodec
    var pending: seq<Sample>
    var timeline: seq<Batch>
    var received: nat
    var submitted: nat
    var emitted: nat
    var lastInput: Option<U64>
    var finished: bool
    var failed: bool
    var statistics: Statistics
    ghost var history: History

    function Snapshot(): Encoder
      reads this, codec
    {
      Encoder(codec.Snapshot(), frame, delay, pending, timeline, received, submitted, emitted, lastInput, finished,
              failed, statistics)
    }

    /** The encoder agrees with everything accepted and returned since the last reset. */
    ghost predicate Valid()
      reads this, codec
    {
      Consistent(Snapshot(), history) && Heard(Snapshot(), history)
    }

    constructor (frame: FrameSize, delay: nat, faults: nat -> Fault)
      ensures Valid() && history == NOTHING && Snapshot() == Open(frame, delay, faults) && fresh(codec)
    {
      OpenIsConsistent(frame, delay, faults, NO_STATISTICS);
      NothingHeard(frame, delay, faults);
      history := NOTHING;
      this.frame, this.delay := frame, delay;
      codec := new OpusCodec(frame, delay, faults);
      pending, timeline, received, submitted, emitted := [], [], 0, 0, 0;
      lastInput, finished, failed, statistics := None, false, false, NO_STATISTICS;
    }

    method PruneTo(position: int)
      modifies this`timeline
      ensures timeline == Prune(old(timeline), position)
    {
      while |timeline| > 1 && timeline[1].position <= position
        invariant Prune(timeline, position) == Prune(old(timeline), position)
        decreases |timeline|
      {
        timeline := timeline[1..];
      }
    }

    method TakePacket(pts: Option<int>, size: nat) returns (packet: Option<OpusPacket>, error: Option<Error>)
      modifies this`timeline, this`emitted, this`statistics
      ensures (Snapshot(), packet, error) == old(Snapshot()).TakePacket(pts, size)
    {
      packet, error := None, None;
      if pts.None? {
        return None, Some(NoTimestamp);
      }
      if pts.value < 0 - delay || pts.value > submitted {
        return None, Some(OutsideSubmitted);
      }
      var start, end := SkipStart(pts.value, frame), SkipEnd(pts.value, frame, received);
      var position := Clip(pts.value, received);
      PruneTo(position);
      if timeline == [] {
        return None, Some(NoCaptureTime);
      }
      var captured := timeline[0].timestamp + (position - timeline[0].position) * 1_000_000 / SAMPLE_RATE;
      if captured < 0 || captured > U64_MAX {
        return None, Some(PacketTimeOverflow);
      }
      if size == 0 || size > MAX_PACKET_BYTES {
        return None, Some(BadPayload);
      }
      statistics := statistics.(encodedPackets := statistics.encodedPackets + 1);
      emitted := emitted + (frame - start - end);
      packet := Some(OpusPacket(captured, frame, start, end));
      PruneTo(Max(pts.value + frame, 0));
    }

    method Receive(before: seq<OpusPacket>, draining: bool) returns (packets: seq<OpusPacket>, error: Option<Error>)
      modifies this`timeline, this`emitted, this`statistics, codec
      ensures Progress(Snapshot(), packets, error) == old(Snapshot()).Receive(before, draining)
    {
      packets := before;
      ghost var goal := Snapshot().Receive(before, draining);
      while true
        invariant Snapshot().Receive(packets, draining) == goal
        invariant codec == old(codec)
        decreases Snapshot().codec.PacketsDue()
      {
        ghost var s := Snapshot();
        var r := codec.ReceivePacket();
        assert (Snapshot().codec, r) == s.codec.ReceivePacket();
        if r.Got? {
          ghost var t := Snapshot();
          var packet, stop := TakePacket(r.pts, r.size);
          assert (Snapshot(), packet, stop) == t.TakePacket(r.pts, r.size);
          if stop.Some? {
            return packets, stop;
          }
          packets := packets + [packet.value];
        } else if (r.Again? && !draining) || (r.Eof? && draining) {
          return packets, None;
        } else {
          return packets, Some(CodecFailed);
        }
      }
    }

    method Submit(samples: seq<Sample>, offset: nat, before: seq<OpusPacket>)
      returns (packets: seq<OpusPacket>, error: Option<Error>)
      modifies this`timeline, this`emitted, this`statistics, this`submitted, codec
      ensures Progress(Snapshot(), packets, error) == old(Snapshot()).Submit(samples, offset, before)
    {
      hide Encoder.Receive, Encoder.SharedFrame;
      ghost var s := Snapshot();
      var shared := Snapshot().SharedFrame(samples, offset);
      if shared.None? {
        return before, Some(RangeInvalid);
      }
      var accepted := codec.SendFrame(shared.value);
      if !accepted {
        return before, Some(CodecFailed);
      }
      submitted := submitted + frame;
      assert Snapshot() == s.(codec := s.codec.SendFrame(shared.value).0, submitted := s.submitted + frame);
      packets, error := Receive(before, false);
    }

    method Copied(count: nat)
      modifies this`statistics
      ensures Snapshot() == old(Snapshot()).Copied(count)
    {
      statistics := statistics.(inputCopiedBytes := statistics.inputCopiedBytes + count * BYTES_PER_SAMPLE,
                                maximumPendingFrames := Max(statistics.maximumPendingFrames, |pending| / 2));
    }

    method CompletePending(samples: seq<Sample>) returns (packets: seq<OpusPacket>, error: Option<Error>, offset: nat)
      modifies this, codec
      ensures codec == old(codec)
      ensures (Progress(Snapshot(), packets, error), offset) == old(Snapshot()).CompletePending(samples)
    {
      packets, error, offset := [], None, 0;
      if pending != [] {
        var count := Min(Snapshot().Room(), |samples|);
        pending := pending + samples[..count];
        Copied(count);
        offset := count;
        if |pending| == frame * 2 {
          var assembled := pending;
          pending := [];
          packets, error := Submit(assembled, 0, packets);
        }
      }
    }

    method SubmitWhole(samples: seq<Sample>, from: nat, before: seq<OpusPacket>)
      returns (packets: seq<OpusPacket>, error: Option<Error>, offset: nat)
      requires from <= |samples|
      modifies this`timeline, this`emitted, this`statistics, this`submitted, codec
      ensures offset <= |samples|
      ensures (Progress(Snapshot(), packets, error), offset) == old(Snapshot()).SubmitWhole(samples, from, before)
    {
      packets, error, offset := before, None, from;
      ghost var goal := Snapshot().SubmitWhole(samples, from, before);
      while |samples| - offset >= frame * 2
        invariant offset <= |samples| && error.None?
        invariant Snapshot().SubmitWhole(samples, offset, packets) == goal
      {
        ghost var s := Snapshot();
        packets, error := Submit(samples, offset, packets);
        if error.Some? {
          return;
        }
        ghost var p := Snapshot();
        statistics := statistics.(inputSharedBytes := statistics.inputSharedBytes + frame * 2 * BYTES_PER_SAMPLE);
        assert Snapshot() == p.CountShared();
        offset := offset + frame * 2;
      }
    }

    method EncodeBatch(samples: seq<Sample>) returns (packets: seq<OpusPacket>, error: Option<Error>)
      modifies this, codec
      ensures codec == old(codec)
      ensures Progress(Snapshot(), packets, error) == old(Snapshot()).EncodeBatch(samples)
    {
      var offset: nat;
      packets, error, offset := CompletePending(samples);
      if error.Some? {
        return;
      }
      packets, error, offset := SubmitWhole(samples, offset, packets);
      if error.Some? {
        return;
      }
      if offset < |samples| {
        pending := pending + samples[offset..];
        Copied(|samples| - offset);
      }
    }

    /** A batch is refused for the first thing wrong with it, and then changes nothing. An accepted one joins the
        history, fails only by a codec fault, and otherwise is counted. */
    method Encode(capturedAt: U64, samples: seq<Sample>) returns (answer: Answer)
      requires Valid()
      modifies this, codec
      ensures Valid() && codec == old(codec)
      ensures (Snapshot(), answer) == old(Snapshot()).Encode(capturedAt, samples)
      ensures history == Joined(old(Snapshot()), old(history), capturedAt, samples, answer)
      ensures old(Snapshot()).Refusal(capturedAt, samples).None? ==>
        BlamesFor(answer, old(codec.Snapshot()), codec.Snapshot())
      ensures var objection := Objection(old(Snapshot()), old(history), capturedAt, samples);
        if objection.Some? then Snapshot() == old(Snapshot()) && answer == Failed(objection.value)
        else answer.Packets? ==>
          Counts(old(Snapshot()), Snapshot(), BatchTally(old(Snapshot()), samples, |answer.packets|))
    {
      hide Consistent, Heard, Objection, Counts, BatchTally, Encoder.Encode, BlamesFor, Joined;
      ghost var e, h := Snapshot(), history;
      answer := Accept(capturedAt, samples);
      ghost var t, g := Snapshot(), Joined(e, h, capturedAt, samples, answer);
      EncodeAnswers(e, h, capturedAt, samples, t, answer, g);
      EncodeSays(e, h, capturedAt, samples, t, answer, g);
      history := g;
      assert Snapshot() == t;
    }

    method Accept(capturedAt: U64, samples: seq<Sample>) returns (answer: Answer)
      modifies this, codec
      ensures codec == old(codec)
      ensures (Snapshot(), answer) == old(Snapshot()).Encode(capturedAt, samples)
    {
      var refusal := Snapshot().Refusal(capturedAt, samples);
      if refusal.Some? {
        return Failed(refusal.value);
      }
      Admit(capturedAt, samples);
      answer := Attempt(samples);
    }

    method Admit(capturedAt: U64, samples: seq<Sample>)
      modifies this
      ensures codec == old(codec)
      ensures Snapshot() == old(Snapshot()).Admit(capturedAt, samples)
    {
      timeline := timeline + [Batch(received, capturedAt)];
      received := received + |samples| / 2;
      lastInput := Some(capturedAt);
    }

    /** Encodes an accepted batch; a failure takes back what the batch had emitted. */
    method Attempt(samples: seq<Sample>) returns (answer: Answer)
      modifies this, codec
      ensures codec == old(codec)
      ensures (Snapshot(), answer) == old(Snapshot()).Conclude(old(emitted), old(Snapshot()).EncodeBatch(samples))
    {
      var previously := emitted;
      var packets, error := EncodeBatch(samples);
      answer := Conclude(previously, packets, error);
    }

    method Conclude(before: nat, packets: seq<OpusPacket>, error: Option<Error>) returns (answer: Answer)
      modifies this`failed, this`emitted
      ensures (Snapshot(), answer) == old(Snapshot()).Conclude(before, Progress(old(Snapshot()), packets, error))
    {
      if error.Some? {
        failed := true;
        emitted := before;
        return Failed(error.value);
      }
      answer := Packets(packets);
    }

    method Flush() returns (packets: seq<OpusPacket>, error: Option<Error>)
      modifies this, codec
      ensures codec == old(codec)
      ensures Progress(Snapshot(), packets, error) == old(Snapshot()).Flush()
    {
      if pending == [] {
        return [], None;
      }
      ghost var s := Snapshot();
      var padded, missing := Snapshot().Padded(), Snapshot().Room();
      statistics := statistics.(zeroPaddingBytes := statistics.zeroPaddingBytes + missing * BYTES_PER_SAMPLE);
      pending := [];
      assert Snapshot() == s.(pending := [], statistics := statistics);
      packets, error := Submit(padded, 0, []);
    }

    method DrainAll(before: seq<OpusPacket>, stopped: Option<Error>)
      returns (packets: seq<OpusPacket>, error: Option<Error>)
      modifies this, codec
      ensures codec == old(codec)
      ensures Progress(Snapshot(), packets, error)
        == old(Snapshot()).DrainAll(Progress(old(Snapshot()), before, stopped))
    {
      if stopped.Some? {
        return before, stopped;
      }
      var accepted := codec.SendEof();
      if !accepted {
        return before, Some(CodecFailed);
      }
      packets, error := Receive(before, true);
    }

    method EndStream() returns (answer: Answer)
      modifies this, codec
      ensures codec == old(codec)
      ensures (Snapshot(), answer) == old(Snapshot()).Finish()
    {
      if failed {
        return Failed(NeedsReset);
      }
      if finished {
        return Packets([]);
      }
      finished := true;
      if received == 0 {
        return Packets([]);
      }
      var previously := emitted;
      var packets, error := Flush();
      packets, error := DrainAll(packets, error);
      answer := Conclude(previously, packets, error);
    }

    /** After a finish that gives packets, all packets together play every received sample once and in order. */
    method Finish() returns (answer: Answer)
      requires Valid()
      modifies this, codec
      ensures Valid() && codec == old(codec)
      ensures (Snapshot(), answer) == old(Snapshot()).Finish()
      ensures history == old(history).(returned := Answered(old(history).returned, answer))
      ensures answer.Packets? ==> Played(0 - delay, history.returned) == Range(0, received)
      ensures !old(failed) ==> BlamesFor(answer, old(codec.Snapshot()), codec.Snapshot())
    {
      hide Consistent, Heard, Encoder.Finish, Played, Range, BlamesFor, Answered;
      ghost var e, h := Snapshot(), history;
      answer := EndStream();
      ghost var t, g := Snapshot(), h.(returned := Answered(h.returned, answer));
      FinishAnswers(e, h, t, answer, g);
      FinishSays(e, h, t, answer, g);
      history := g;
      assert Snapshot() == t;
    }

    /** Starts over with a newly opened codec; when none can be opened, nothing changes. What was received is what the
        returned packets play and what is reported as discarded. */
    method Reset(reopened: OpusCodec?) returns (discarded: Option<nat>)
      requires Valid() && (reopened != null ==> reopened.Snapshot() == OpenCodec(frame, delay, reopened.faults))
      modifies this
      ensures Valid() && (discarded.Some? <==> reopened != null)
      ensures (Snapshot(), discarded) ==
        old(Snapshot()).Reset(if reopened == null then None else Some(reopened.faults))
      ensures discarded.Some? ==>
        && old(received) == |Played(0 - delay, old(history).returned)| + discarded.value
        && history == NOTHING.(countedBefore := old(Counted(Snapshot())))
      ensures discarded.None? ==> history == old(history)
    {
      if reopened == null {
        return None;
      }
      ResetAnswers(Snapshot(), history, reopened.faults);
      ghost var after := NOTHING.(countedBefore := Counted(Snapshot()));
      ResetHears(Snapshot(), reopened.faults, after.countedBefore);
      hide Consistent, Heard, Encoder.Reset, Played, Counted, OpenCodec, Encoder.Discarded;
      ghost var replaced := Snapshot().Reset(Some(reopened.faults)).0;
      var lost := Reopen(reopened);
      assert Snapshot() == replaced;
      history := after;
      assert Snapshot() == replaced;
      discarded := Some(lost);
    }

    method Reopen(reopened: OpusCodec) returns (lost: nat)
      requires reopened.Snapshot() == OpenCodec(frame, delay, reopened.faults)
      modifies this
      ensures (Snapshot(), Some(lost)) == old(Snapshot()).Reset(Some(reopened.faults))
    {
      lost := Snapshot().Discarded();
      statistics := statistics.(resets := statistics.resets + 1,
                                discardedSamples := statistics.discardedSamples + lost);
      StartOver(reopened);
    }

    method StartOver(reopened: OpusCodec)
      requires reopened.Snapshot() == OpenCodec(frame, delay, reopened.faults)
      modifies this
      ensures Snapshot() == Open(frame, delay, reopened.faults).(statistics := old(statistics))
    {
      codec := reopened;
      pending, timeline, received, submitted, emitted := [], [], 0, 0, 0;
      lastInput, finished, failed := None, false, false;
    }
  }
}
