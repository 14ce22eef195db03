/** Recently sent datagrams, kept for repair, and the credit that keeps repairs from flooding the link. */
module VideoResend {
  import opened Numbers

  const RECENT_FRAMES := 16
  const RESEND_TARGET_DIVISOR := 4
  const MINIMUM_RESEND_RATE: U64 := 2_000_000
  const RESEND_BURST_DIVISOR := 4
  const ANNOUNCEMENT_DELAY: nat := 20_000_000

  type Chunk = seq<U8>

  datatype Held = Held(sequence: U64, chunks: seq<Chunk>)

  datatype Announcement = Announcement(due: nat, chunk: Chunk)

  function ChunkBits(chunk: Chunk): U64 {
    ToU64(|chunk| * 8)
  }

  function Rate(target: U64): U64 {
    if target / RESEND_TARGET_DIVISOR >= MINIMUM_RESEND_RATE then target / RESEND_TARGET_DIVISOR
      else MINIMUM_RESEND_RATE
  }

  function Find(frames: seq<Held>, sequence: U64): Option<seq<Chunk>> {
    if frames == [] then None
    else if frames[0].sequence == sequence then Some(frames[0].chunks)
    else Find(frames[1..], sequence)
  }

  /** The chunks a request names, in the order it names them; no indexes means the whole frame. */
  function Requested(chunks: seq<Chunk>, indexes: seq<nat>): seq<Chunk> {
    if indexes == [] then chunks else Picked(chunks, indexes)
  }

  function Picked(chunks: seq<Chunk>, indexes: seq<nat>): seq<Chunk> {
    if indexes == [] then []
    else
      var rest := Picked(chunks, indexes[..|indexes| - 1]);
      var i := indexes[|indexes| - 1];
      if i < |chunks| then rest + [chunks[i]] else rest
  }

  /** Eight bits a byte, each chunk's as far as 64 bits count. */
  function Bits(chunks: seq<Chunk>): nat {
    if chunks == [] then 0 else Bits(chunks[..|chunks| - 1]) + ToU64(8 * |chunks[|chunks| - 1]|)
  }

  datatype Store = Store(frames: seq<Held>, credit: U64, updated: nat, announcement: Option<Announcement>)
  {
    function Remember(sequence: U64, chunks: seq<Chunk>, now: nat): Store {
      this.(frames := (if |frames| == RECENT_FRAMES then frames[1..] else frames) + [Held(sequence, chunks)],
            announcement := if chunks == [] then None
                            else Some(Announcement(now + ANNOUNCEMENT_DELAY, chunks[|chunks| - 1])))
    }

    function TakeAnnouncement(now: nat): (Store, Option<Chunk>) {
      if announcement.None? || announcement.value.due > now then (this, None)
      else (this.(announcement := None), Some(announcement.value.chunk))
    }

    function Earned(target: U64, now: nat): nat {
      if now >= updated then Rate(target) * (now - updated) / SECOND else 0
    }

    function Earn(target: U64, now: nat): Store {
      var gathered := AddU64(credit, ToU64(Earned(target, now)));
      this.(updated := now,
            credit := if gathered <= Rate(target) / RESEND_BURST_DIVISOR then gathered
                      else Rate(target) / RESEND_BURST_DIVISOR)
    }

    /** The longest run of the requested chunks the credit pays for, and what is left of the credit. */
    function Affordable(requested: seq<Chunk>): (r: (nat, U64))
      ensures r.0 <= |requested|
    {
      if requested == [] then (0, credit)
      else
        var (count, left) := Affordable(requested[..|requested| - 1]);
        var bits := ChunkBits(requested[|requested| - 1]);
        if count == |requested| - 1 && bits <= left then (count + 1, left - bits) else (count, left)
    }

    function Take(sequence: U64, indexes: seq<nat>, target: U64, now: nat): (Store, seq<Chunk>) {
      var s := Earn(target, now);
      var chunks := Find(frames, sequence);
      if chunks.None? then (s, [])
      else
        var requested := Requested(chunks.value, indexes);
        var (count, left) := s.Affordable(requested);
        (s.(credit := left), requested[..count])
    }
  }

  function NewStore(now: nat): Store {
    Store([], 0, now, None)
  }

  /** What a take may spend: what was saved up and what a quarter of the target, or two megabits a second if that is
      more, earned since the last take, rounded down, and of all that no more than it earns in a quarter second. */
  ghost function Spendable(credit: U64, updated: nat, target: U64, now: nat): int {
    var rate := Max(target / 4, 2_000_000);
    Min(credit + (if now >= updated then rate * (now - updated) / 1_000_000_000 else 0), rate / 4)
  }

  class RecentVideoChunks {
    var frames: seq<Held>
    var credit: U64
    var updated: nat
    var announcement: Option<Announcement>

    function Snapshot(): Store
      reads this
    {
      Store(frames, credit, updated, announcement)
    }

    ghost predicate Valid()
      reads this
    {
      |frames| <= RECENT_FRAMES
    }

    constructor (now: nat)
      ensures Valid() && Snapshot() == NewStore(now)
    {
      frames, credit, updated, announcement := [], 0, now, None;
    }

    method Remember(sequence: U64, chunks: seq<Chunk>, now: nat)
      requires Valid()
      modifies this
      ensures Valid() && Snapshot() == old(Snapshot()).Remember(sequence, chunks, now)
    {
      announcement := if chunks == [] then None
                      else Some(Announcement(now + ANNOUNCEMENT_DELAY, chunks[|chunks| - 1]));
      if |frames| == RECENT_FRAMES {
        frames := frames[1..];
      }
      frames := frames + [Held(sequence, chunks)];
    }

    method TakeAnnouncement(now: nat) returns (chunk: Option<Chunk>)
      requires Valid()
      modifies this
      ensures Valid()
      ensures (Snapshot(), chunk) == old(Snapshot()).TakeAnnouncement(now)
    {
      if announcement.None? || announcement.value.due > now {
        return None;
      }
      chunk := Some(announcement.value.chunk);
      announcement := None;
    }

    method Earn(target: U64, now: nat)
      modifies this
      ensures Snapshot() == old(Snapshot()).Earn(target, now)
    {
      var gathered := AddU64(credit, ToU64(Snapshot().Earned(target, now)));
      updated := now;
      credit := if gathered <= Rate(target) / RESEND_BURST_DIVISOR then gathered
        else Rate(target) / RESEND_BURST_DIVISOR;
    }

    /** Pays for the requested chunks one after the other and stops at the first that is too expensive. */
    method Pay(requested: seq<Chunk>) returns (allowed: seq<Chunk>)
      modifies this`credit
      ensures (|allowed|, credit) == old(Snapshot()).Affordable(requested)
      ensures allowed == requested[..|allowed|]
    {
      ghost var s := Snapshot();
      allowed := [];
      var i := 0;
      while i < |requested|
        invariant i <= |requested| && allowed == requested[..i]
        invariant (i, credit) == s.Affordable(requested[..i])
      {
        var bits := ChunkBits(requested[i]);
        assert requested[..i + 1][..i] == requested[..i];
        if bits > credit {
          StopsForGood(s, requested, i);
          return;
        }
        credit := credit - bits;
        allowed := allowed + [requested[i]];
        i := i + 1;
      }
      assert requested[..|requested|] == requested;
    }

    /** What is given out and what stays as credit is what could be spent, and a request for no more than that is
        returned in full. */
    method Take(sequence: U64, indexes: seq<nat>, target: U64, now: nat) returns (allowed: seq<Chunk>)
      requires Valid()
      modifies this
      ensures Valid() && frames == old(frames) && updated == now && announcement == old(announcement)
      ensures (Snapshot(), allowed) == old(Snapshot()).Take(sequence, indexes, target, now)
      ensures Bits(allowed) + credit == Spendable(old(credit), old(updated), target, now)
      ensures Find(frames, sequence).Some? ==>
        var requested := Requested(Find(frames, sequence).value, indexes);
        && allowed <= requested
        && (Bits(requested) <= Spendable(old(credit), old(updated), target, now) ==> allowed == requested)
      ensures now >= old(updated) ==>
        (Bits(allowed) + credit) * SECOND <= old(credit) * SECOND + Max(target / 4, 2_000_000) * (now - old(updated))
    {
      TakeSpends(Snapshot(), sequence, indexes, target, now);
      if now >= updated {
        TakeIsPaidFor(Snapshot(), Taken(sequence, indexes, target, now), Rate(target));
      }
      Earn(target, now);
      var chunks := Find(frames, sequence);
      if chunks.None? {
        return [];
      }
      allowed := Pay(Requested(chunks.value, indexes));
    }
  }

  /** Once a chunk is too expensive, no later one is considered. */
  lemma {:induction false} StopsForGood(s: Store, requested: seq<Chunk>, i: nat)
    requires i < |requested| && s.Affordable(requested[..i]).0 == i
    requires ChunkBits(requested[i]) > s.Affordable(requested[..i]).1
    ensures s.Affordable(requested) == s.Affordable(requested[..i])
    decreases |requested|
  {
    var init := requested[..|requested| - 1];
    if i < |init| {
      assert init[..i] == requested[..i];
      StopsForGood(s, init, i);
    } else {
      assert init == requested[..i];
    }
  }

  /** The chunks returned are paid for, and the chunk after them, if any, could not be. */
  lemma {:induction false} AffordableIsLongest(s: Store, requested: seq<Chunk>)
    ensures var (count, left) := s.Affordable(requested);
      && Bits(requested[..count]) + left == s.credit
      && (count < |requested| ==> 8 * |requested[count]| >= ToU64(8 * |requested[count]|) > left)
  {
    if requested == [] {
      assert requested[..0] == [];
    } else {
      var init := requested[..|requested| - 1];
      AffordableIsLongest(s, init);
      var (count, left) := s.Affordable(init);
      assert count < |init| ==> requested[..count] == init[..count];
      if count == |init| {
        assert init[..count] == init && requested[..count] == init && requested[..|requested|] == requested;
      }
    }
  }

  lemma EarnGathers(s: Store, target: U64, now: nat)
    ensures s.Earn(target, now).credit == Spendable(s.credit, s.updated, target, now)
  {
    var rate: int := Rate(target);
    assert rate == Max(target / 4, 2_000_000);
    if now >= s.updated {
      assert rate * (now - s.updated) >= 0;
    }
  }

  lemma {:induction false} BitsGrow(chunks: seq<Chunk>, count: nat)
    requires count < |chunks|
    ensures Bits(chunks[..count]) + ToU64(8 * |chunks[count]|) <= Bits(chunks)
  {
    var init := chunks[..|chunks| - 1];
    if count < |init| {
      BitsGrow(init, count);
      assert init[..count] == chunks[..count];
    } else {
      assert init == chunks[..count];
    }
  }

  /** A take gives out and keeps exactly what could be spent, and gives a request it can afford in full. */
  lemma TakeSpends(s: Store, sequence: U64, indexes: seq<nat>, target: U64, now: nat)
    ensures var (t, allowed) := s.Take(sequence, indexes, target, now);
      && Bits(allowed) + t.credit == Spendable(s.credit, s.updated, target, now)
      && (Find(s.frames, sequence).Some? ==>
            var requested := Requested(Find(s.frames, sequence).value, indexes);
            && allowed <= requested
            && (Bits(requested) <= Spendable(s.credit, s.updated, target, now) ==> allowed == requested))
  {
    hide Spendable;
    EarnGathers(s, target, now);
    var found := Find(s.frames, sequence);
    if found.Some? {
      var requested := Requested(found.value, indexes);
      var earned := s.Earn(target, now);
      AffordableIsLongest(earned, requested);
      var count := earned.Affordable(requested).0;
      if count < |requested| {
        BitsGrow(requested, count);
      } else {
        assert requested[..count] == requested;
      }
    }
  }

  // What a request names

  /** In request order, the positions of exactly those indexes the frame has. */
  ghost predicate Names(positions: seq<nat>, indexes: seq<nat>, count: nat) {
    && (forall a, b :: 0 <= a < b < |positions| ==> positions[a] < positions[b])
    && (forall a :: 0 <= a < |positions| ==> InFrame(indexes, positions[a], count))
    && (forall p :: InFrame(indexes, p, count) ==> p in positions)
  }

  predicate InFrame(indexes: seq<nat>, position: int, count: nat) {
    0 <= position < |indexes| && indexes[position] < count
  }

  lemma InFrameGrows(indexes: seq<nat>, last: nat, position: int, count: nat)
    ensures InFrame(indexes + [last], position, count) <==>
      InFrame(indexes, position, count) || (position == |indexes| && last < count)
  {
  }

  lemma InFrameBound(positions: seq<nat>, indexes: seq<nat>, count: nat)
    requires Names(positions, indexes, count)
    ensures forall a :: 0 <= a < |positions| ==> positions[a] < |indexes|
  {
  }

  lemma NamesGrow(positions: seq<nat>, indexes: seq<nat>, last: nat, count: nat) returns (grown: seq<nat>)
    requires Names(positions, indexes, count)
    ensures grown == (if last < count then positions + [|indexes|] else positions)
    ensures Names(grown, indexes + [last], count)
  {
    hide InFrame;
    grown := if last < count then positions + [|indexes|] else positions;
    forall p
      ensures InFrame(indexes + [last], p, count) <==> InFrame(indexes, p, count) || (p == |indexes| && last < count)
    {
      InFrameGrows(indexes, last, p, count);
    }
    InFrameBound(positions, indexes, count);
    assert last < count ==> grown[|positions|] == |indexes|;
  }

  /** The chunks picked are those at the named indexes, in request order and without any other. */
  lemma {:induction false} PickedAreNamed(chunks: seq<Chunk>, indexes: seq<nat>) returns (positions: seq<nat>)
    ensures Names(positions, indexes, |chunks|) && |Picked(chunks, indexes)| == |positions|
    ensures forall k :: 0 <= k < |positions| ==> Picked(chunks, indexes)[k] == chunks[indexes[positions[k]]]
  {
    positions := [];
    if indexes != [] {
      var init, last := indexes[..|indexes| - 1], indexes[|indexes| - 1];
      var before := PickedAreNamed(chunks, init);
      positions := NamesGrow(before, init, last, |chunks|);
      assert init + [last] == indexes;
    }
  }

  lemma {:induction false} FindFirst(frames: seq<Held>, sequence: U64) returns (i: nat)
    ensures Find(frames, sequence).None? ==> forall j :: 0 <= j < |frames| ==> frames[j].sequence != sequence
    ensures Find(frames, sequence).Some? ==>
      && i < |frames| && frames[i].sequence == sequence && Find(frames, sequence).value == frames[i].chunks
      && forall j :: 0 <= j < i ==> frames[j].sequence != sequence
  {
    i := 0;
    if frames != [] && frames[0].sequence != sequence {
      var j := FindFirst(frames[1..], sequence);
      assert forall k :: 1 <= k < |frames| ==> frames[k] == frames[1..][k - 1];
      i := j + 1;
    }
  }

  // Whole runs

  datatype Event =
    | Remembered(sequence: U64, chunks: seq<Chunk>, now: nat)
    | AnnouncementPolled(now: nat)
    | Taken(sequence: U64, indexes: seq<nat>, target: U64, now: nat)

  function Step(s: Store, e: Event): Store {
    match e
    case Remembered(sequence, chunks, now) => s.Remember(sequence, chunks, now)
    case AnnouncementPolled(now) => s.TakeAnnouncement(now).0
    case Taken(sequence, indexes, target, now) => s.Take(sequence, indexes, target, now).0
  }

  function Run(s: Store, es: seq<Event>): Store {
    if es == [] then s else Step(Run(s, es[..|es| - 1]), es[|es| - 1])
  }

  /** Every frame ever remembered. */
  function History(es: seq<Event>): seq<Held> {
    if es == [] then []
    else
      var e := es[|es| - 1];
      History(es[..|es| - 1]) + (if e.Remembered? then [Held(e.sequence, e.chunks)] else [])
  }

  function Newest(frames: seq<Held>): seq<Held> {
    if |frames| <= 16 then frames else frames[|frames| - 16..]
  }

  /** The store always holds exactly the sixteen newest frames of its whole history. */
  lemma {:induction false} HoldsNewestFrames(now: nat, es: seq<Event>)
    ensures Run(NewStore(now), es).frames == Newest(History(es))
  {
    if es != [] {
      HoldsNewestFrames(now, es[..|es| - 1]);
    }
  }

  /** The index of the frame's chunk that the request wants in place `k`; without indexes it wants them all. */
  function Wanted(indexes: seq<nat>, named: seq<nat>, k: nat): nat
    requires indexes != [] ==> k < |named| && named[k] < |indexes|
  {
    if indexes == [] then k else indexes[named[k]]
  }

  /** The positions are those of the indexes the frame has or, without indexes, one for each of its chunks. */
  ghost predicate Wants(indexes: seq<nat>, named: seq<nat>, count: nat) {
    if indexes == [] then |named| == count
    else Names(named, indexes, count)
  }

  /** The chunks a request wants of a frame, in its order. */
  ghost predicate WantedChunks(wanted: seq<Chunk>, chunks: seq<Chunk>, indexes: seq<nat>, named: seq<nat>)
    requires Wants(indexes, named, |chunks|)
  {
    && |wanted| == |named|
    && forall k :: 0 <= k < |wanted| ==> wanted[k] == chunks[Wanted(indexes, named, k)]
  }

  lemma RequestedAreWanted(chunks: seq<Chunk>, indexes: seq<nat>) returns (named: seq<nat>)
    ensures Wants(indexes, named, |chunks|) && WantedChunks(Requested(chunks, indexes), chunks, indexes, named)
  {
    if indexes == [] {
      named := seq(|chunks|, k requires 0 <= k => k);
    } else {
      named := PickedAreNamed(chunks, indexes);
    }
  }

  /** The oldest of the newest sixteen frames that has the sequence number. */
  ghost predicate Holds(newest: seq<Held>, sequence: U64, found: Option<nat>) {
    if found.None? then forall held :: held in newest ==> held.sequence != sequence
    else found.value < |newest| && newest[found.value].sequence == sequence
         && forall j :: 0 <= j < found.value ==> newest[j].sequence != sequence
  }

  /** A request for a frame that is not among the newest sixteen gets nothing. Otherwise it gets chunks of that frame,
      at the indexes it names and in that order, as far as goes what can be spent, and all of them if it goes that
      far. */
  lemma TakenAreNamed(now: nat, es: seq<Event>, sequence: U64, indexes: seq<nat>, target: U64, at: nat)
    returns (found: Option<nat>, named: seq<nat>, wanted: seq<Chunk>)
    ensures Holds(Newest(History(es)), sequence, found)
    ensures found.Some? ==>
      var chunks := Newest(History(es))[found.value].chunks;
      Wants(indexes, named, |chunks|) && WantedChunks(wanted, chunks, indexes, named)
    ensures var s := Run(NewStore(now), es);
      var (t, chunks) := s.Take(sequence, indexes, target, at);
      && Bits(chunks) + t.credit == Spendable(s.credit, s.updated, target, at)
      && (found.None? ==> chunks == [])
      && (found.Some? ==>
            && chunks <= wanted
            && (Bits(wanted) <= Spendable(s.credit, s.updated, target, at) ==> chunks == wanted)
            && (|chunks| < |wanted| ==> 8 * |wanted[|chunks|]| > t.credit))
  {
    hide Run, History, Find, Picked, Spendable, Requested, Wants, WantedChunks;
    var s := Run(NewStore(now), es);
    HoldsNewestFrames(now, es);
    TakeSpends(s, sequence, indexes, target, at);
    var i := FindFirst(s.frames, sequence);
    named, wanted := [], [];
    if Find(s.frames, sequence).None? {
      found := None;
    } else {
      found := Some(i);
      named := RequestedAreWanted(s.frames[i].chunks, indexes);
      wanted := Requested(s.frames[i].chunks, indexes);
      AffordableIsLongest(s.Earn(target, at), wanted);
    }
  }

  /** The bits returned over the run. */
  function Returned(s: Store, es: seq<Event>): nat {
    if es == [] then 0
    else
      var init, e := es[..|es| - 1], es[|es| - 1];
      Returned(s, init)
      + (if e.Taken? then Bits(Run(s, init).Take(e.sequence, e.indexes, e.target, e.now).1) else 0)
  }

  /** Takes happen in time order, and at none does a quarter of the target or two megabits a second exceed the rate. */
  ghost predicate Within(s: Store, es: seq<Event>, rate: nat) {
    es == [] ||
    var init, e := es[..|es| - 1], es[|es| - 1];
    Within(s, init, rate) && (e.Taken? ==> Run(s, init).updated <= e.now && Max(e.target / 4, 2_000_000) <= rate)
  }

  /** One take returns no more than the credit it found and what the time since the last take earned. */
  lemma TakeIsPaidFor(s: Store, e: Event, rate: nat)
    requires e.Taken? && s.updated <= e.now && Max(e.target / 4, 2_000_000) <= rate
    ensures var (t, chunks) := s.Take(e.sequence, e.indexes, e.target, e.now);
      && t.updated == e.now
      && (Bits(chunks) + t.credit) * SECOND <= s.credit * SECOND + rate * (e.now - s.updated)
  {
    var earned := s.Earn(e.target, e.now);
    EarnedWithinRate(Rate(e.target), rate, e.now - s.updated);
    var found := Find(s.frames, e.sequence);
    if found.Some? {
      AffordableIsLongest(earned, Requested(found.value, e.indexes));
    }
  }

  lemma EarnedWithinRate(rate: nat, most: nat, elapsed: nat)
    requires rate <= most
    ensures 0 <= rate * elapsed / SECOND && rate * elapsed / SECOND * SECOND <= most * elapsed
  {
    assert rate * elapsed <= most * elapsed;
  }

  /** Over any run, repairs stay within the largest rate in force times the span, plus the credit held at its start. */
  lemma {:induction false} RepairsStayWithinRate(s: Store, es: seq<Event>, rate: nat)
    requires Within(s, es, rate)
    ensures var t := Run(s, es);
      && s.updated <= t.updated
      && (Returned(s, es) + t.credit) * SECOND <= s.credit * SECOND + rate * (t.updated - s.updated)
  {
    hide Store.Take, Bits;
    if es != [] {
      var init, e := es[..|es| - 1], es[|es| - 1];
      RepairsStayWithinRate(s, init, rate);
      if e.Taken? {
        var m := Run(s, init);
        TakeIsPaidFor(m, e, rate);
        RatesAdd(rate, s.updated, m.updated, e.now);
      }
    }
  }

  /** A fresh store gives out nothing that was not earned since it was made. */
  lemma FreshStoreEarnsFirst(now: nat, es: seq<Event>, rate: nat)
    requires Within(NewStore(now), es, rate)
    ensures Run(NewStore(now), es).updated >= now
    ensures Returned(NewStore(now), es) * SECOND <= rate * (Run(NewStore(now), es).updated - now)
  {
    RepairsStayWithinRate(NewStore(now), es, rate);
  }

  /** What the run returned is at most what the rate earns over its span. */
  ghost predicate StaysWithin(s: Store, es: seq<Event>, rate: nat) {
    Returned(s, es) * SECOND <= rate * (Run(s, es).updated - s.updated)
  }

  ghost predicate AlwaysStaysWithin(s: Store) {
    forall es, rate :: Within(s, es, rate) ==> StaysWithin(s, es, rate)
  }

  // A run that returns more than its rate earns, from any credit that was saved up before

  const SMALLEST := Held(0, [[0]])

  function Flood(count: nat): seq<Event> {
    if count == 0 then [] else Flood(count - 1) + [Remembered(SMALLEST.sequence, SMALLEST.chunks, 0)]
  }

  ghost predicate Flooded(s: Store, t: Store, count: nat) {
    && count <= |t.frames| <= RECENT_FRAMES && t.credit == s.credit && t.updated == s.updated
    && (forall i :: |t.frames| - count <= i < |t.frames| ==> t.frames[i] == SMALLEST)
  }

  lemma FloodsOn(s: Store, t: Store, count: nat)
    requires Flooded(s, t, count) && count < RECENT_FRAMES
    ensures Flooded(s, t.Remember(SMALLEST.sequence, SMALLEST.chunks, 0), count + 1)
  {
  }

  lemma RunAppends(s: Store, es: seq<Event>, e: Event)
    ensures Run(s, es + [e]) == Step(Run(s, es), e)
  {
    hide Step;
    assert (es + [e])[..|es|] == es;
  }

  lemma {:induction false} FloodFills(s: Store, count: nat)
    requires |s.frames| <= RECENT_FRAMES && count <= RECENT_FRAMES
    ensures Flooded(s, Run(s, Flood(count)), count)
  {
    if count > 0 {
      var init, e := Flood(count - 1), Remembered(SMALLEST.sequence, SMALLEST.chunks, 0);
      assert Flood(count) == init + [e];
      assert Step(Run(s, init), e) == Run(s, init).Remember(SMALLEST.sequence, SMALLEST.chunks, 0);
      hide Run, Step, Store.Remember, Flooded, Flood;
      FloodFills(s, count - 1);
      RunAppends(s, init, e);
      FloodsOn(s, Run(s, Flood(count - 1)), count - 1);
    }
  }

  lemma {:induction false} FloodIsFree(s: Store, count: nat, rate: nat)
    ensures Within(s, Flood(count), rate) && Returned(s, Flood(count)) == 0
  {
    if count > 0 {
      hide Run, Store.Take, Bits;
      FloodIsFree(s, count - 1, rate);
      assert Flood(count)[..|Flood(count)| - 1] == Flood(count - 1);
    }
  }

  /** When the credit first reaches one byte at the lowest rate. */
  function FirstByte(s: Store): nat {
    s.updated + (if s.credit >= 8 then 0 else (8 - s.credit) * 500)
  }

  lemma SavedCreditPays(s: Store)
    requires s.credit > 0 && s.frames != [] && s.frames[0] == SMALLEST
    ensures s.Take(0, [], 0, FirstByte(s)).1 == [[0]]
  {
    var t := s.Earn(0, FirstByte(s));
    assert t.credit >= 8;
    assert [[0]][..0] == [] && t.Affordable([]) == (0, t.credit);
    assert t.Affordable([[0]]) == (1, t.credit - 8);
  }

  lemma SavedCreditExceeds(s: Store)
    requires |s.frames| <= RECENT_FRAMES && s.credit > 0
    ensures !AlwaysStaysWithin(s)
  {
    hide Store.Take, Store.TakeAnnouncement, Flood;
    var flood, take := Flood(RECENT_FRAMES), Taken(0, [], 0, FirstByte(s));
    var es := flood + [take];
    FloodFills(s, RECENT_FRAMES);
    FloodIsFree(s, RECENT_FRAMES, MINIMUM_RESEND_RATE);
    SavedCreditPays(Run(s, flood));
    assert es[..|es| - 1] == flood && [[0]][..0] == [];
    TakeIsPaidFor(Run(s, flood), take, MINIMUM_RESEND_RATE);
    assert Within(s, es, MINIMUM_RESEND_RATE) && !StaysWithin(s, es, MINIMUM_RESEND_RATE);
  }

  /** Repairs stay within the rate in force over every run exactly when no credit was saved up before it. */
  lemma StaysWithinIff(s: Store)
    requires |s.frames| <= RECENT_FRAMES
    ensures AlwaysStaysWithin(s) <==> s.credit == 0
  {
    if s.credit == 0 {
      forall es, rate | Within(s, es, rate)
        ensures StaysWithin(s, es, rate)
      {
        RepairsStayWithinRate(s, es, rate);
      }
    } else {
      SavedCreditExceeds(s);
    }
  }

  // Announcements

  /** The poll finds the newest frame's last chunk due: it was remembered, with chunks, twenty milliseconds ago or more,
      and not announced since. */
  ghost predicate AnnouncementDue(es: seq<Event>, newest: Option<nat>, now: nat)
    requires newest.Some? ==> newest.value < |es| && es[newest.value].Remembered?
  {
    newest.Some? && es[newest.value].chunks != [] && es[newest.value].now + 20_000_000 <= now
  }

  /** The newest frame remembered, unless it was already announced. */
  ghost function Unannounced(es: seq<Event>): (newest: Option<nat>)
    ensures newest.Some? ==> newest.value < |es| && es[newest.value].Remembered?
  {
    if es == [] then None
    else
      var init, e := es[..|es| - 1], es[|es| - 1];
      if e.Remembered? then Some(|es| - 1)
      else if e.AnnouncementPolled? && AnnouncementDue(init, Unannounced(init), e.now) then None
      else Unannounced(init)
  }

  ghost predicate Announces(s: Store, es: seq<Event>) {
    var newest := Unannounced(es);
    s.announcement ==
      if newest.None? || es[newest.value].chunks == [] then None
      else Some(Announcement(es[newest.value].now + 20_000_000,
                             es[newest.value].chunks[|es[newest.value].chunks| - 1]))
  }

  lemma {:induction false} AnnouncementFollows(now: nat, es: seq<Event>)
    ensures Announces(Run(NewStore(now), es), es)
  {
    if es != [] {
      AnnouncementFollows(now, es[..|es| - 1]);
    }
  }

  /** A poll repeats the last chunk of the newest frame exactly when it is due, so once, and not before twenty
      milliseconds are over. */
  lemma AnnouncesNewestFrameOnce(now: nat, es: seq<Event>, at: nat)
    ensures var newest := Unannounced(es);
      Run(NewStore(now), es).TakeAnnouncement(at).1 ==
        if AnnouncementDue(es, newest, at) then Some(es[newest.value].chunks[|es[newest.value].chunks| - 1]) else None
  {
    AnnouncementFollows(now, es);
  }
}
