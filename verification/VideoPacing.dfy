/** When frames may be encoded and datagrams sent: a debt that is repaid at the target rate, and a spread schedule. */
module VideoPacing {
  import opened Numbers

  const ALLOWANCE_DIVISOR := 10

  // The frame budget

  datatype Budget = Budget(target: U64, debt: U64, updated: nat)
  {
    function Repaid(now: nat): nat {
      if now >= updated then target * (now - updated) / SECOND else 0
    }

    function Repay(now: nat): Budget {
      this.(updated := now, debt := SubU64(debt, ToU64(Repaid(now))))
    }

    predicate Allows() {
      debt <= target / ALLOWANCE_DIVISOR
    }

    /** Debt stops at one second of the target. */
    function FrameEncoded(bits: U64): Budget {
      this.(debt := if AddU64(debt, bits) <= target then AddU64(debt, bits) else target)
    }
  }

  /** A debt shrinks by what the target earned since it was last looked at, rounded down, and not below nothing. */
  ghost predicate Shrinks(debt: nat, target: U64, updated: nat, now: nat, left: nat) {
    if now < updated then left == debt
    else
      var earned := target * (now - updated) / 1_000_000_000;
      left == Max(0, debt - earned)
  }

  lemma RepayShrinks(b: Budget, now: nat)
    ensures var t := b.Repay(now);
      Shrinks(b.debt, b.target, b.updated, now, t.debt) && t.updated == now && t.target == b.target
  {
    if now >= b.updated {
      assert b.target * (now - b.updated) >= 0;
    }
  }

  function FrameBits(bytes: nat): U64 {
    ToU64(bytes * 8)
  }

  class VideoFramePacer {
    const framePeriod: nat
    var nextTick: nat
    var tick: U64
    var frameDivisor: U8
    var target: U64
    var debt: U64
    var updated: nat

    function Snapshot(): Budget
      reads this
    {
      Budget(target, debt, updated)
    }

    ghost predicate Valid()
      reads this
    {
      frameDivisor in {1, 2}
    }

    /** There is no pacer for a frame rate of zero. */
    static method Create(framesPerSecond: nat, targetBits: U64, now: nat) returns (pacer: Option<VideoFramePacer>)
      ensures pacer.None? <==> framesPerSecond == 0
      ensures pacer.Some? ==>
        && fresh(pacer.value) && pacer.value.Valid() && pacer.value.Snapshot() == Budget(targetBits, 0, now)
        && pacer.value.nextTick == now && pacer.value.tick == 0 && pacer.value.frameDivisor == 1
        && pacer.value.framePeriod == SECOND / framesPerSecond
    {
      if framesPerSecond == 0 {
        return None;
      }
      var made := new VideoFramePacer(framesPerSecond, targetBits, now);
      pacer := Some(made);
    }

    constructor (framesPerSecond: nat, targetBits: U64, now: nat)
      requires framesPerSecond > 0
      ensures Valid() && Snapshot() == Budget(targetBits, 0, now) && nextTick == now && tick == 0 && frameDivisor == 1
      ensures framePeriod == SECOND / framesPerSecond
    {
      framePeriod := SECOND / framesPerSecond;
      nextTick, tick, frameDivisor := now, 0, 1;
      target, debt, updated := targetBits, 0, now;
    }

    method Repay(now: nat)
      modifies this`debt, this`updated
      ensures Snapshot() == old(Snapshot()).Repay(now)
    {
      var repaid := Snapshot().Repaid(now);
      updated := now;
      debt := SubU64(debt, ToU64(repaid));
    }

    /** A tick may encode when the divisor does not skip it and the debt is no more than a tenth of the target. */
    method ShouldEncode(now: nat) returns (encode: bool)
      requires Valid()
      modifies this`debt, this`updated
      ensures Valid() && Snapshot() == old(Snapshot()).Repay(now)
      ensures Shrinks(old(debt), target, old(updated), now, debt) && updated == now
      ensures debt <= old(debt)
      ensures encode <==> (frameDivisor == 1 || tick % 2 == 0) && debt <= target / 10
      ensures Snapshot().Allows() <==> debt <= target / 10
    {
      RepayShrinks(Snapshot(), now);
      Repay(now);
      encode := tick % frameDivisor == 0 && debt <= target / ALLOWANCE_DIVISOR;
    }

    method SetTargetBitrate(bits: U64, now: nat)
      modifies this`debt, this`updated, this`target
      ensures debt <= old(debt) && Snapshot() == old(Snapshot()).Repay(now).(target := bits)
      ensures Shrinks(old(debt), old(target), old(updated), now, debt) && target == bits && updated == now
    {
      RepayShrinks(Snapshot(), now);
      Repay(now);
      target := bits;
    }

    method FrameEncoded(bytes: nat)
      modifies this`debt
      ensures debt == Min(old(debt) + 8 * bytes, target)
      ensures Snapshot() == old(Snapshot()).FrameEncoded(FrameBits(bytes))
    {
      var owed := AddU64(debt, FrameBits(bytes));
      debt := if owed <= target then owed else target;
    }

    method SetFrameDivisor(divisor: U8) returns (accepted: bool)
      modifies this`frameDivisor
      ensures old(Valid()) ==> Valid()
      ensures accepted <==> divisor in {1, 2}
      ensures frameDivisor == if accepted then divisor else old(frameDivisor)
    {
      accepted := divisor == 1 || divisor == 2;
      if accepted {
        frameDivisor := divisor;
      }
    }

    /** Rebases after an overrun instead of catching up: the next tick is never before this one completed. */
    method CompleteTick(started: nat, completed: nat)
      modifies this`tick, this`nextTick
      ensures nextTick >= completed && nextTick >= started + framePeriod
      ensures nextTick == completed || nextTick == started + framePeriod
      ensures tick == (old(tick) + 1) % (U64_MAX + 1)
    {
      tick := (tick + 1) % (U64_MAX + 1);
      nextTick := Max(started + framePeriod, completed);
    }
  }

  /** One turn of the encoding loop: a poll, and the size of the frame the encoder made if the poll allowed one. */
  datatype Turn = Turn(now: nat, bits: U64)

  function Spend(b: Budget, turn: Turn): (Budget, nat) {
    var repaid := b.Repay(turn.now);
    if repaid.Allows() then (repaid.FrameEncoded(turn.bits), turn.bits) else (repaid, 0)
  }

  function SpendAll(b: Budget, turns: seq<Turn>): Budget {
    if turns == [] then b else Spend(SpendAll(b, turns[..|turns| - 1]), turns[|turns| - 1]).0
  }

  /** The bits encoded over the turns. */
  function Encoded(b: Budget, turns: seq<Turn>): nat {
    if turns == [] then 0
    else Encoded(b, turns[..|turns| - 1]) + Spend(SpendAll(b, turns[..|turns| - 1]), turns[|turns| - 1]).1
  }

  /** The size of the last frame that was encoded. */
  function LastFrame(b: Budget, turns: seq<Turn>): nat {
    if turns == [] then 0
    else
      var init := turns[..|turns| - 1];
      var bits := Spend(SpendAll(b, init), turns[|turns| - 1]).1;
      if bits > 0 then bits else LastFrame(b, init)
  }

  /** Times do not step back, and no frame is larger than what the allowance leaves of the target. */
  ghost predicate Moderate(b: Budget, turns: seq<Turn>) {
    && (forall i :: 0 <= i < |turns| ==> turns[i].bits <= b.target - b.target / ALLOWANCE_DIVISOR)
    && (forall i, j :: 0 <= i < j < |turns| ==> turns[i].now <= turns[j].now)
  }

  lemma RepaidWithinRate(b: Budget, now: nat)
    requires b.updated <= now
    ensures b.Repaid(now) * SECOND <= b.target * (now - b.updated) < (b.Repaid(now) + 1) * SECOND
  {
  }

  lemma SpendBounds(b: Budget, turn: Turn)
    requires b.updated <= turn.now && turn.bits <= b.target - b.target / ALLOWANCE_DIVISOR
    ensures var (t, bits) := Spend(b, turn);
      && t.target == b.target && t.updated == turn.now
      && bits + b.debt <= t.debt + b.Repaid(turn.now)
      && (bits > 0 ==> t.debt <= b.target / ALLOWANCE_DIVISOR + bits)
      && (bits == 0 ==> t.debt <= b.debt)
      && bits <= t.debt
  {
  }

  lemma OwedAccumulates(target: nat, from: nat, between: nat, to: nat, encoded: nat, debt: nat, bits: nat, repaid: nat,
                        owed: nat)
    requires from <= between <= to
    requires encoded * SECOND <= target * (between - from) + debt * SECOND
    requires bits + debt <= owed + repaid && repaid * SECOND <= target * (to - between)
    ensures (encoded + bits) * SECOND <= target * (to - from) + owed * SECOND
  {
    RatesAdd(target, from, between, to);
  }

  lemma ModerateShorter(b: Budget, turns: seq<Turn>)
    requires |turns| > 1 && Moderate(b, turns)
    ensures var init := turns[..|turns| - 1];
      Moderate(b, init) && init[0] == turns[0] && init[|init| - 1].now <= turns[|turns| - 1].now
    ensures turns[0].now <= turns[|turns| - 2].now
  {
  }

  /** Every bit encoded after the first turn was repaid at the target rate or is still owed. */
  lemma {:induction false} EncodedIsRepaidOrOwed(b: Budget, turns: seq<Turn>, from: nat, to: nat)
    requires turns != [] && Moderate(b, turns) && b.updated <= turns[0].now
    requires from == turns[0].now && to == turns[|turns| - 1].now
    ensures var t := SpendAll(b, turns);
      && t.target == b.target && t.updated == to && from <= to
      && Encoded(b, turns) * SECOND <= b.target * (to - from) + t.debt * SECOND
      && (Encoded(b, turns) > 0 ==> t.debt <= b.target / ALLOWANCE_DIVISOR + LastFrame(b, turns))
  {
    var init, turn := turns[..|turns| - 1], turns[|turns| - 1];
    if init == [] {
      SpendBounds(b, turn);
      assert Encoded(b, init) == 0 && SpendAll(b, init) == b;
    } else {
      ModerateShorter(b, turns);
      var between := init[|init| - 1].now;
      EncodedIsRepaidOrOwed(b, init, from, between);
      var s := SpendAll(b, init);
      SpendBounds(s, turn);
      RepaidWithinRate(s, to);
      var (t, bits) := Spend(s, turn);
      OwedAccumulates(b.target, from, between, to, Encoded(b, init), s.debt, bits, s.Repaid(to), t.debt);
    }
  }

  lemma OwedIsBounded(target: nat, elapsed: nat, encoded: nat, owed: nat, bound: nat)
    requires encoded * SECOND <= target * elapsed + owed * SECOND && (encoded > 0 ==> owed <= bound)
    ensures encoded * SECOND <= target * elapsed + bound * SECOND
  {
    if encoded == 0 {
      assert target * elapsed >= 0;
    }
  }

  /** Between any two turns the encoder makes no more bits than the target rate gives for the time between them,
      plus the allowance and the last frame. */
  lemma EncodedWithinTarget(b: Budget, turns: seq<Turn>, from: nat, to: nat)
    requires turns != [] && Moderate(b, turns) && b.updated <= turns[0].now
    requires from == turns[0].now && to == turns[|turns| - 1].now
    ensures from <= to
    ensures Encoded(b, turns) * SECOND
      <= b.target * (to - from) + (b.target / ALLOWANCE_DIVISOR + LastFrame(b, turns)) * SECOND
  {
    EncodedIsRepaidOrOwed(b, turns, from, to);
    OwedIsBounded(b.target, to - from, Encoded(b, turns), SpendAll(b, turns).debt,
                  b.target / ALLOWANCE_DIVISOR + LastFrame(b, turns));
  }

  // The pause after a large frame

  function PollAll(b: Budget, polls: seq<nat>): Budget {
    if polls == [] then b else PollAll(b, polls[..|polls| - 1]).Repay(polls[|polls| - 1])
  }

  ghost predicate Forward(start: nat, times: seq<nat>) {
    && (times != [] ==> start <= times[0])
    && (forall i, j :: 0 <= i < j < |times| ==> times[i] <= times[j])
  }

  /** Rounding loses less than one bit per poll. */
  lemma {:induction false} PollsRepay(b: Budget, polls: seq<nat>)
    requires Forward(b.updated, polls)
    ensures var t := PollAll(b, polls);
      && t.target == b.target && t.updated == (if polls == [] then b.updated else polls[|polls| - 1]) >= b.updated
      && (t.debt == 0 || t.debt * SECOND + b.target * (t.updated - b.updated) <= (b.debt + |polls|) * SECOND)
  {
    if polls != [] {
      var init, now := polls[..|polls| - 1], polls[|polls| - 1];
      PollsRepay(b, init);
      var s := PollAll(b, init);
      RepaidWithinRate(s, now);
      RatesAdd(b.target, b.updated, s.updated, now);
    }
  }

  lemma AllowedByThen(target: nat, debt: nat, elapsed: nat, owed: nat, polls: nat)
    requires owed <= target && elapsed >= SECOND
    requires debt == 0 || debt * SECOND + target * elapsed <= (owed + polls) * SECOND
    ensures debt <= polls
  {
    assert target * elapsed >= target * SECOND;
  }

  /** After any frame, however large, the budget allows the next within a second of polls, if they are not more than
      the allowance has bits. */
  lemma PauseEndsWithinASecond(b: Budget, frame: U64, polls: seq<nat>)
    requires Forward(b.updated, polls) && polls != [] && polls[|polls| - 1] >= b.updated + SECOND
    requires |polls| <= b.target / ALLOWANCE_DIVISOR
    ensures PollAll(b.FrameEncoded(frame), polls).Allows()
  {
    var owed := b.FrameEncoded(frame);
    PollsRepay(owed, polls);
    var t := PollAll(owed, polls);
    AllowedByThen(b.target, t.debt, t.updated - b.updated, owed.debt, |polls|);
  }

  // Spreading one frame

  const SPREAD_RATE_PERCENT := 150
  const LONGEST_SPREAD: nat := 20_000_000
  const CATCH_UP: nat := 2_000_000
  const SPREAD_AFTER_LOSS: nat := 30_000_000_000

  function Quotient(total: nat, parts: nat): (q: nat)
    requires parts > 0
    ensures q * parts <= total < (q + 1) * parts
  {
    total / parts
  }

  /** How long the sending of a frame is spread. */
  function SpreadTime(bytes: nat, target: U64): (t: nat)
    ensures t <= LONGEST_SPREAD
  {
    Min(Quotient(bytes * 8 * 100 * SECOND, Max(target, 1) * SPREAD_RATE_PERCENT), LONGEST_SPREAD)
  }

  /** A pace in nanoseconds per byte at which the frame leaves within 20 ms and not below 150 % of the target. */
  ghost predicate Fits(pace: nat, bytes: nat, target: U64) {
    pace * bytes <= 20_000_000 && pace * (Max(target, 1) * 150) <= 800 * 1_000_000_000
  }

  /** The slowest such pace: one nanosecond more per byte and the frame would take longer or fall behind that rate. */
  ghost predicate PromisedPace(pace: nat, bytes: nat, target: U64) {
    Fits(pace, bytes, target) && !Fits(pace + 1, bytes, target)
  }

  /** Rounding down to whole nanoseconds first, and to whole nanoseconds per byte after that, loses nothing. */
  lemma SlowestRate(pace: nat, bytes: nat, spread: nat, rate: nat, bits: nat)
    requires bytes > 0 && rate > 0
    requires pace * bytes <= spread < (pace + 1) * bytes
    ensures spread * rate <= bytes * bits ==> pace * rate <= bits
    ensures bytes * bits < (spread + 1) * rate ==> bits < (pace + 1) * rate
  {
    assert pace * rate * bytes == pace * bytes * rate;
    assert (pace + 1) * rate * bytes == (pace + 1) * bytes * rate;
    ProductOrder(bits, pace * rate, bytes);
    ProductOrder(spread, pace * bytes, rate);
    ProductOrder(bits, (pace + 1) * rate, bytes);
    ProductOrder((pace + 1) * bytes, spread + 1, rate);
  }

  lemma SpreadPromised(bytes: nat, target: U64)
    requires bytes > 0
    ensures PromisedPace(Quotient(SpreadTime(bytes, target), bytes), bytes, target)
  {
    var spread := SpreadTime(bytes, target);
    var rate := Max(target, 1) * 150;
    var whole := Quotient(bytes * 8 * 100 * SECOND, rate);
    assert bytes * 8 * 100 * SECOND == bytes * 800_000_000_000 && spread == Min(whole, 20_000_000);
    ProductOrder(whole, spread, rate);
    hide Quotient;
    SlowestRate(Quotient(spread, bytes), bytes, spread, rate, 800_000_000_000);
  }

  /** A send may make up for this much lateness, if the clock can be set back by as much. */
  function Earliest(now: nat): nat {
    if now >= CATCH_UP then now - CATCH_UP else now
  }

  /** When the next datagram may leave, after one that took `time` of the frame's spread. */
  ghost predicate SentFrom(due: Option<nat>, next: nat, time: nat, now: nat) {
    if due.None? then next == now + time
    else if now >= 2_000_000 && due.value < now - 2_000_000 then next + 2_000_000 == now + time
    else if now < 2_000_000 && due.value < now then next == now + time
    else next == due.value + time
  }

  datatype Spread = Spread(spreadUntil: Option<nat>, nextSend: Option<nat>, nanosPerByte: U64)
  {
    function ObserveLoss(now: nat): Spread {
      this.(spreadUntil := Some(now + SPREAD_AFTER_LOSS))
    }

    function BeginFrame(bytes: nat, target: U64, now: nat): Spread {
      var clean := this.(nextSend := None, nanosPerByte := 0);
      if bytes == 0 || spreadUntil.None? || now >= spreadUntil.value then clean
      else clean.(nanosPerByte := ToU64(Quotient(SpreadTime(bytes, target), bytes)))
    }

    predicate Ready(now: nat) {
      nextSend.Some? ==> now >= nextSend.value
    }

    function Sent(bytes: nat, now: nat): Spread {
      if nanosPerByte == 0 then this
      else
        var start := if nextSend.None? then now else Max(nextSend.value, Earliest(now));
        this.(nextSend := Some(start + ToU64(nanosPerByte * bytes)))
    }
  }

  class VideoSendPacer {
    var spreadUntil: Option<nat>
    var nextSend: Option<nat>
    var nanosPerByte: U64

    function Snapshot(): Spread
      reads this
    {
      Spread(spreadUntil, nextSend, nanosPerByte)
    }

    constructor ()
      ensures Snapshot() == Spread(None, None, 0)
    {
      spreadUntil, nextSend, nanosPerByte := None, None, 0;
    }

    method ObserveLoss(now: nat)
      modifies this`spreadUntil
      ensures Snapshot() == old(Snapshot()).ObserveLoss(now)
      ensures spreadUntil == Some(now + 30_000_000_000)
    {
      spreadUntil := Some(now + SPREAD_AFTER_LOSS);
    }

    /** While spreading is on, a frame is paced at 150 % of the target or, if that would take longer, to leave within
        20 ms; otherwise it is not paced. */
    method BeginFrame(bytes: nat, target: U64, now: nat)
      modifies this`nextSend, this`nanosPerByte
      ensures Snapshot() == old(Snapshot()).BeginFrame(bytes, target, now)
      ensures nextSend.None? && (nanosPerByte > 0 ==> Paced(Snapshot(), bytes))
      ensures if spreadUntil.Some? && now < spreadUntil.value && bytes > 0
        then PromisedPace(nanosPerByte, bytes, target) else nanosPerByte == 0
    {
      BeginFramePaces(Snapshot(), bytes, target, now);
      nextSend := None;
      nanosPerByte := 0;
      if bytes == 0 || spreadUntil.None? || now >= spreadUntil.value {
        return;
      }
      nanosPerByte := ToU64(Quotient(SpreadTime(bytes, target), bytes));
    }

    /** The next datagram waits for this one's share of the frame's time, counted from when this one was due. One that
        left more than 2 ms late is counted from 2 ms before it left, or from when it left if the clock is younger. */
    method Sent(bytes: nat, now: nat)
      modifies this`nextSend
      ensures Snapshot() == old(Snapshot()).Sent(bytes, now)
      ensures if nanosPerByte == 0 then nextSend == old(nextSend)
        else nextSend.Some? && SentFrom(old(nextSend), nextSend.value, ToU64(nanosPerByte * bytes), now)
    {
      if nanosPerByte == 0 {
        return;
      }
      var earliest := Earliest(now);
      var start := if nextSend.None? then now else Max(nextSend.value, earliest);
      nextSend := Some(start + ToU64(nanosPerByte * bytes));
    }
  }

  datatype Datagram = Datagram(bytes: nat, now: nat)

  function SendAll(s: Spread, sends: seq<Datagram>): Spread {
    if sends == [] then s
    else SendAll(s, sends[..|sends| - 1]).Sent(sends[|sends| - 1].bytes, sends[|sends| - 1].now)
  }

  function Bytes(sends: seq<Datagram>): nat {
    if sends == [] then 0 else Bytes(sends[..|sends| - 1]) + sends[|sends| - 1].bytes
  }

  /** Each datagram is sent only when the pacer is ready for it. */
  ghost predicate Patient(s: Spread, sends: seq<Datagram>) {
    sends == []
    || (Patient(s, sends[..|sends| - 1]) && SendAll(s, sends[..|sends| - 1]).Ready(sends[|sends| - 1].now))
  }

  /** A frame in progress: its pace fits the frame into the longest spread. */
  ghost predicate Paced(s: Spread, bytes: nat) {
    s.nanosPerByte > 0 && s.nanosPerByte * bytes <= LONGEST_SPREAD
  }

  /** A frame is paced exactly while spreading is on, at the slowest pace at which it leaves within 20 ms and no slower
      than at 150 % of the target. That pace is nothing exactly if a nanosecond per byte is too slow already. */
  lemma BeginFramePaces(s: Spread, bytes: nat, target: U64, now: nat)
    ensures var t := s.BeginFrame(bytes, target, now);
      var spreads := s.spreadUntil.Some? && now < s.spreadUntil.value && bytes > 0;
      && t.spreadUntil == s.spreadUntil && t.nextSend.None?
      && (if spreads then PromisedPace(t.nanosPerByte, bytes, target) else t.nanosPerByte == 0)
      && (t.nanosPerByte > 0 ==> Paced(t, bytes))
      && (t.nanosPerByte == 0 <==> !spreads || bytes > 20_000_000 || 150 * target > 800_000_000_000)
  {
    if bytes > 0 {
      SpreadPromised(bytes, target);
      hide Quotient;
      var pace := Quotient(SpreadTime(bytes, target), bytes);
      PaceBelow(pace, bytes);
      ProductOrder(pace, 1, Max(target, 1) * 150);
      ProductOrder(pace, 1, bytes);
    }
  }

  lemma PaceBelow(pace: nat, bytes: nat)
    requires bytes > 0 && pace * bytes <= 20_000_000
    ensures pace <= 20_000_000
  {
    assert pace * bytes >= pace;
  }

  // A pacer's whole life

  datatype PacerEvent = LossSeen(now: nat) | FrameBegun(bytes: nat, target: U64, now: nat) | DatagramSent(d: Datagram)

  function PacerStep(s: Spread, e: PacerEvent): Spread {
    match e
    case LossSeen(now) => s.ObserveLoss(now)
    case FrameBegun(bytes, target, now) => s.BeginFrame(bytes, target, now)
    case DatagramSent(d) => s.Sent(d.bytes, d.now)
  }

  function PacerRun(es: seq<PacerEvent>): Spread {
    if es == [] then Spread(None, None, 0) else PacerStep(PacerRun(es[..|es| - 1]), es[|es| - 1])
  }

  ghost function LastLoss(es: seq<PacerEvent>): Option<nat> {
    if es == [] then None
    else if es[|es| - 1].LossSeen? then Some(es[|es| - 1].now) else LastLoss(es[..|es| - 1])
  }

  ghost predicate LostRecently(es: seq<PacerEvent>, now: nat) {
    LastLoss(es).Some? && now < LastLoss(es).value + 30_000_000_000
  }

  lemma {:induction false} SpreadSinceLoss(es: seq<PacerEvent>)
    ensures PacerRun(es).spreadUntil ==
      if LastLoss(es).None? then None else Some(LastLoss(es).value + 30_000_000_000)
  {
    if es != [] {
      SpreadSinceLoss(es[..|es| - 1]);
    }
  }

  /** Whatever came before, a frame is paced exactly if the last loss is less than 30 seconds back: at 150 % of the
      target, or over 20 ms if that is shorter; and the frame before does not hold it back. */
  lemma PacedAfterLoss(es: seq<PacerEvent>, bytes: nat, target: U64, now: nat)
    ensures var t := PacerRun(es + [FrameBegun(bytes, target, now)]);
      && (forall at: nat :: t.Ready(at))
      && (if LostRecently(es, now) && bytes > 0 then PromisedPace(t.nanosPerByte, bytes, target)
          else t.nanosPerByte == 0)
      && (t.nanosPerByte == 0 <==>
            !LostRecently(es, now) || bytes == 0 || bytes > 20_000_000 || 150 * target > 800_000_000_000)
  {
    assert (es + [FrameBegun(bytes, target, now)])[..|es|] == es;
    SpreadSinceLoss(es);
    hide PromisedPace;
    BeginFramePaces(PacerRun(es), bytes, target, now);
  }

  /** A frame that is not paced leaves at once: every datagram of it may follow the one before immediately. */
  lemma {:induction false} UnpacedLeavesAtOnce(s: Spread, sends: seq<Datagram>)
    requires s.nanosPerByte == 0 && s.nextSend.None?
    ensures SendAll(s, sends) == s && Patient(s, sends)
  {
    if sends != [] {
      UnpacedLeavesAtOnce(s, sends[..|sends| - 1]);
    }
  }

  lemma PaceOrder(pace: nat, some: nat, all: nat)
    requires some <= all
    ensures pace * some <= pace * all
  {
  }

  lemma PaceAdds(pace: nat, a: nat, b: nat)
    ensures pace * (a + b) == pace * a + pace * b
  {
  }

  /** One send moves the schedule by exactly its own time, from where it was or from two milliseconds ago. */
  lemma SentMoves(s: Spread, d: Datagram, bytes: nat)
    requires Paced(s, bytes) && d.bytes <= bytes && s.Ready(d.now)
    ensures var t := s.Sent(d.bytes, d.now);
      && t.nanosPerByte == s.nanosPerByte && t.spreadUntil == s.spreadUntil && t.nextSend.Some?
      && SentFrom(s.nextSend, t.nextSend.value, s.nanosPerByte * d.bytes, d.now)
      && (forall at: nat :: t.Ready(at) <==> t.nextSend.value <= at)
      && t.nextSend.value + CATCH_UP >= d.now + s.nanosPerByte * d.bytes
      && (s.nextSend.None? ==> t.nextSend.value == d.now + s.nanosPerByte * d.bytes)
      && (s.nextSend.Some? ==> t.nextSend.value >= s.nextSend.value + s.nanosPerByte * d.bytes)
      && (s.nextSend.Some? ==>
            (t.nextSend.value == s.nextSend.value + s.nanosPerByte * d.bytes <==> Earliest(d.now) <= s.nextSend.value))
  {
    PaceOrder(s.nanosPerByte, d.bytes, bytes);
  }

  lemma {:induction false} ScheduleKeepsUp(s: Spread, sends: seq<Datagram>, bytes: nat)
    requires Paced(s, bytes) && Bytes(sends) <= bytes && Patient(s, sends)
    ensures var t := SendAll(s, sends);
      && t.nanosPerByte == s.nanosPerByte
      && (sends != [] ==>
            && t.nextSend.Some?
            && t.nextSend.value + CATCH_UP >= sends[0].now + s.nanosPerByte * Bytes(sends))
  {
    if sends != [] {
      var init, d := sends[..|sends| - 1], sends[|sends| - 1];
      ScheduleKeepsUp(s, init, bytes);
      SentMoves(SendAll(s, init), d, bytes);
      PaceAdds(s.nanosPerByte, Bytes(init), d.bytes);
    }
  }

  lemma {:induction false} SendsSplit(s: Spread, before: seq<Datagram>, window: seq<Datagram>)
    requires Patient(s, before + window)
    ensures Patient(s, before) && Patient(SendAll(s, before), window)
    ensures SendAll(s, before + window) == SendAll(SendAll(s, before), window)
    ensures Bytes(before + window) == Bytes(before) + Bytes(window)
  {
    if window == [] {
      assert before + window == before;
    } else {
      var init := window[..|window| - 1];
      assert (before + window)[..|before + window| - 1] == before + init;
      SendsSplit(s, before, init);
    }
  }

  /** In any window of a spread frame, what was sent before the last datagram fits the window at the frame's pace,
      give or take two milliseconds. */
  lemma SpreadLimitsEveryWindow(p: Spread, bytes: nat, target: U64, began: nat, before: seq<Datagram>,
                                window: seq<Datagram>)
    requires p.BeginFrame(bytes, target, began).nanosPerByte > 0
    requires Patient(p.BeginFrame(bytes, target, began), before + window) && Bytes(before + window) <= bytes
      && window != []
    ensures var pace := p.BeginFrame(bytes, target, began).nanosPerByte;
      pace * Bytes(window[..|window| - 1]) <= window[|window| - 1].now - window[0].now + CATCH_UP
  {
    var s := p.BeginFrame(bytes, target, began);
    BeginFramePaces(p, bytes, target, began);
    SendsSplit(s, before, window);
    ScheduleKeepsUp(s, before, bytes);
    WindowFits(SendAll(s, before), window, bytes);
  }

  lemma WindowFits(s: Spread, window: seq<Datagram>, bytes: nat)
    requires Paced(s, bytes) && Bytes(window) <= bytes && Patient(s, window) && window != []
    ensures s.nanosPerByte * Bytes(window[..|window| - 1]) <= window[|window| - 1].now - window[0].now + CATCH_UP
  {
    ScheduleKeepsUp(s, window[..|window| - 1], bytes);
  }

  /** No send is more than two milliseconds behind the schedule; a clock that cannot be set back
      by as much allows none. */
  ghost predicate OnTime(s: Spread, sends: seq<Datagram>) {
    sends == [] ||
    var init := sends[..|sends| - 1];
    var next := SendAll(s, init).nextSend;
    OnTime(s, init) && (next.Some? ==> Earliest(sends[|sends| - 1].now) <= next.value)
  }

  lemma HoldsStep(first: nat, next: nat, after: nat, spent: nat, more: nat, before: bool, onTime: bool)
    requires next >= first + spent && (next == first + spent <==> before)
    requires after >= next + more && (after == next + more <==> onTime)
    ensures after >= first + (spent + more) && (after == first + (spent + more) <==> before && onTime)
  {
  }

  /** The time the pace gives to the datagrams. */
  function Spent(pace: nat, sends: seq<Datagram>): nat {
    if sends == [] then 0 else Spent(pace, sends[..|sends| - 1]) + pace * sends[|sends| - 1].bytes
  }

  lemma {:induction false} SpentIsPaceTimesBytes(pace: nat, sends: seq<Datagram>)
    ensures Spent(pace, sends) == pace * Bytes(sends)
  {
    if sends != [] {
      var init := sends[..|sends| - 1];
      SpentIsPaceTimesBytes(pace, init);
      PaceAdds(pace, Bytes(init), sends[|sends| - 1].bytes);
    }
  }

  /** The schedule stays where the pace puts it exactly when no send is more than two milliseconds late. */
  lemma {:induction false} ScheduleHoldsIffOnTime(s: Spread, sends: seq<Datagram>, bytes: nat)
    requires Paced(s, bytes) && s.nextSend.None? && Bytes(sends) <= bytes && Patient(s, sends)
    requires sends != []
    ensures var t := SendAll(s, sends);
      && t.nanosPerByte == s.nanosPerByte && t.nextSend.Some?
      && t.nextSend.value >= sends[0].now + Spent(s.nanosPerByte, sends)
      && (t.nextSend.value == sends[0].now + Spent(s.nanosPerByte, sends) <==> OnTime(s, sends))
  {
    var init, d := sends[..|sends| - 1], sends[|sends| - 1];
    if init == [] {
      SentMoves(s, d, bytes);
      assert SendAll(s, init) == s && Spent(s.nanosPerByte, init) == 0 && OnTime(s, init);
    } else {
      ScheduleHoldsIffOnTime(s, init, bytes);
      var u := SendAll(s, init);
      SentMoves(u, d, bytes);
      HoldsStep(sends[0].now, u.nextSend.value, u.Sent(d.bytes, d.now).nextSend.value, Spent(s.nanosPerByte, init),
                s.nanosPerByte * d.bytes, OnTime(s, init), Earliest(d.now) <= u.nextSend.value);
    }
  }

  /** A frame whose sends are on time is due entirely within twenty milliseconds of its first datagram. */
  lemma FrameDueWithinLongestSpread(p: Spread, bytes: nat, target: U64, began: nat, sends: seq<Datagram>)
    requires p.BeginFrame(bytes, target, began).nanosPerByte > 0
    requires Patient(p.BeginFrame(bytes, target, began), sends) && OnTime(p.BeginFrame(bytes, target, began), sends)
    requires Bytes(sends) <= bytes && sends != []
    ensures var next := SendAll(p.BeginFrame(bytes, target, began), sends).nextSend;
      next.Some? && next.value <= sends[0].now + LONGEST_SPREAD
  {
    var s := p.BeginFrame(bytes, target, began);
    BeginFramePaces(p, bytes, target, began);
    ScheduleHoldsIffOnTime(s, sends, bytes);
    SpentIsPaceTimesBytes(s.nanosPerByte, sends);
    PaceOrder(s.nanosPerByte, Bytes(sends), bytes);
  }
}
