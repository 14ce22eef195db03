/** Sample positions, the part of each packet that is played, and the capture time of a position. */
module OpusTimeline {
  import opened Numbers

  const SAMPLE_RATE := 48_000

  datatype OpusPacket = OpusPacket(capturedAt: nat, decodedSamples: nat, skipStart: nat, skipEnd: nat)

  /** A batch of input: the position of its first sample and when that sample was captured. */
  datatype Batch = Batch(position: int, timestamp: nat)

  function Clip(position: int, received: nat): nat {
    if position < 0 then 0 else if position > received then received else position
  }

  function Range(from: int, to: int): seq<int> {
    if from < to then seq(to - from, i => from + i) else []
  }

  function SkipStart(pts: int, frame: nat): nat {
    Min(Max(-pts, 0), frame)
  }

  function SkipEnd(pts: int, frame: nat, received: nat): nat {
    Min(Max(pts + frame - received, 0), frame - SkipStart(pts, frame))
  }

  /** The timestamp of the packet after these, when the first of them starts at `first`. */
  ghost function NextPts(first: int, packets: seq<OpusPacket>): int {
    if packets == [] then first
    else NextPts(first, packets[..|packets| - 1]) + packets[|packets| - 1].decodedSamples
  }

  /** The positions a decoder plays, in playing order, when it skips what the packets tell it to skip. */
  ghost function Played(first: int, packets: seq<OpusPacket>): seq<int> {
    if packets == [] then []
    else
      var init, p := packets[..|packets| - 1], packets[|packets| - 1];
      Played(first, init)
      + Range(NextPts(first, init) + p.skipStart, NextPts(first, init) + p.decodedSamples - p.skipEnd)
  }

  /** What a packet keeps is exactly its part of the received samples. */
  lemma SkipsKeepReceived(pts: int, frame: nat, received: nat)
    ensures Range(pts + SkipStart(pts, frame), pts + frame - SkipEnd(pts, frame, received))
         == Range(Clip(pts, received), Clip(pts + frame, received))
    ensures frame - SkipStart(pts, frame) - SkipEnd(pts, frame, received)
      == Clip(pts + frame, received) - Clip(pts, received)
  {
  }

  lemma RangesJoin(a: int, b: int, c: int)
    requires a <= b <= c
    ensures Range(a, b) + Range(b, c) == Range(a, c)
  {
  }

  lemma PlayedGrows(first: int, packets: seq<OpusPacket>, p: OpusPacket, frame: nat, received: nat)
    requires Played(first, packets) == Range(0, Clip(NextPts(first, packets), received))
    requires p.decodedSamples == frame && p.skipStart == SkipStart(NextPts(first, packets), frame)
    requires p.skipEnd == SkipEnd(NextPts(first, packets), frame, received)
    ensures NextPts(first, packets + [p]) == NextPts(first, packets) + frame
    ensures Played(first, packets + [p]) == Range(0, Clip(NextPts(first, packets) + frame, received))
  {
    var pts := NextPts(first, packets);
    assert (packets + [p])[..|packets|] == packets;
    SkipsKeepReceived(pts, frame, received);
    RangesJoin(0, Clip(pts, received), Clip(pts + frame, received));
  }

  lemma {:induction false} NextPtsAdvances(first: int, packets: seq<OpusPacket>, i: nat)
    requires i < |packets|
    ensures first <= NextPts(first, packets[..i])
    ensures NextPts(first, packets[..i]) + packets[i].decodedSamples <= NextPts(first, packets)
    decreases |packets|, i
  {
    assert packets[..i + 1][..i] == packets[..i];
    if i > 0 {
      assert packets[..i][..i - 1] == packets[..i - 1];
      NextPtsAdvances(first, packets[..i], i - 1);
    }
    if i < |packets| - 1 {
      var init := packets[..|packets| - 1];
      assert init[..i] == packets[..i];
      NextPtsAdvances(first, init, i);
    }
  }

  // Capture times

  ghost predicate Increasing(batches: seq<Batch>) {
    forall i, j :: 0 <= i < j < |batches| ==> batches[i].position < batches[j].position
  }

  /** The batch that holds a position: the last one that starts at or before it. */
  ghost function BatchAt(batches: seq<Batch>, position: int): Batch
    requires batches != []
  {
    if |batches| == 1 || batches[|batches| - 1].position <= position then batches[|batches| - 1]
    else BatchAt(batches[..|batches| - 1], position)
  }

  ghost function CaptureTime(batches: seq<Batch>, position: int): int
    requires batches != []
  {
    var b := BatchAt(batches, position);
    b.timestamp + (position - b.position) * 1_000_000 / 48_000
  }

  /** Drops leading batches while the one after them already starts at or before the position. */
  function Prune(batches: seq<Batch>, position: int): seq<Batch> {
    if |batches| > 1 && batches[1].position <= position then Prune(batches[1..], position) else batches
  }

  lemma {:induction false} PruneIsSuffix(batches: seq<Batch>, position: int)
    ensures var p := Prune(batches, position);
      && |p| <= |batches| && p == batches[|batches| - |p|..]
      && (batches != [] ==> p != [])
      && (batches != [] && batches[0].position <= position ==> p[0].position <= position)
      && (|p| > 1 ==> p[1].position > position)
  {
    if |batches| > 1 && batches[1].position <= position {
      PruneIsSuffix(batches[1..], position);
    }
  }

  lemma {:induction false} BatchAtSuffix(batches: seq<Batch>, dropped: nat, position: int)
    requires dropped < |batches| && batches[dropped].position <= position
    ensures BatchAt(batches[dropped..], position) == BatchAt(batches, position)
  {
    var last := |batches| - 1;
    if dropped < last && batches[last].position > position {
      assert batches[dropped..][..last - dropped] == batches[..last][dropped..];
      BatchAtSuffix(batches[..last], dropped, position);
    }
  }

  lemma {:induction false} BatchAtFirst(batches: seq<Batch>, position: int)
    requires batches != [] && (|batches| > 1 ==> batches[1].position > position) && Increasing(batches)
    ensures BatchAt(batches, position) == batches[0]
  {
    if |batches| > 1 {
      BatchAtFirst(batches[..|batches| - 1], position);
    }
  }

  lemma {:induction false} BatchAtHolds(batches: seq<Batch>, position: int) returns (k: nat)
    requires batches != [] && batches[0].position <= position && Increasing(batches)
    ensures k < |batches| && BatchAt(batches, position) == batches[k] && batches[k].position <= position
    ensures k + 1 < |batches| ==> position < batches[k + 1].position
  {
    var last := |batches| - 1;
    if last == 0 || batches[last].position <= position {
      k := last;
    } else {
      k := BatchAtHolds(batches[..last], position);
    }
  }

  lemma SuffixOfSuffix<T>(xs: seq<T>, a: nat, b: nat)
    requires a + b <= |xs|
    ensures xs[a..][b..] == xs[a + b..]
  {
  }

  /** Pruning what is left of a history gives what is left of it after more was dropped. */
  lemma PruneKeepsSuffix(batches: seq<Batch>, dropped: nat, position: int) returns (now: nat)
    requires dropped < |batches|
    ensures dropped <= now < |batches| && Prune(batches[dropped..], position) == batches[now..]
    ensures batches[dropped].position <= position ==> batches[now].position <= position
    ensures now + 1 < |batches| ==> batches[now + 1].position > position
  {
    var kept := batches[dropped..];
    PruneIsSuffix(kept, position);
    var more := |kept| - |Prune(kept, position)|;
    SuffixOfSuffix(batches, dropped, more);
    now := dropped + more;
    assert Prune(kept, position)[0] == batches[now];
  }

  /** The pruned queue gives the same batch, so the same capture time, as the whole history of batches. */
  lemma PrunedTimeIsFullTime(batches: seq<Batch>, dropped: nat, position: int)
    requires Increasing(batches) && dropped < |batches| && batches[dropped].position <= position
    ensures Prune(batches[dropped..], position) != []
    ensures BatchAt(batches, position) == Prune(batches[dropped..], position)[0]
  {
    var now := PruneKeepsSuffix(batches, dropped, position);
    BatchAtSuffix(batches, now, position);
    BatchAtFirst(batches[now..], position);
  }

  /** Later batches do not change the capture time of an earlier position. */
  lemma LaterBatchesDoNotMatter(batches: seq<Batch>, newer: Batch, position: int)
    requires batches != [] && position < newer.position
    ensures BatchAt(batches + [newer], position) == BatchAt(batches, position)
  {
    assert (batches + [newer])[..|batches|] == batches;
  }
}
