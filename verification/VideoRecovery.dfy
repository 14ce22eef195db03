/** Keyframe recovery: which encoded frames may be sent, and when to ask the encoder for a keyframe. */
module VideoRecovery {
  import opened Numbers

  const KEYFRAME_RETRY: nat := 250_000_000

  datatype Recovery = Recovery(lastSequence: Option<U64>, waiting: bool, lastRequest: Option<nat>)
  {
    function RequireKeyframe(): Recovery {
      this.(waiting := true)
    }

    predicate Follows(sequence: U64) {
      lastSequence.Some? && lastSequence.value + 1 == sequence
    }

    function Accept(sequence: U64, keyframe: bool): (Recovery, bool) {
      var stillWaiting := !keyframe && (waiting || !Follows(sequence));
      (this.(lastSequence := Some(sequence), waiting := stillWaiting), !stillWaiting)
    }

    function RequestDue(now: nat): (Recovery, bool) {
      if !waiting || (lastRequest.Some? && now < lastRequest.value + KEYFRAME_RETRY) then (this, false)
      else (this.(lastRequest := Some(now)), true)
    }
  }

  const START := Recovery(None, false, None)

  class KeyframeRecovery {
    var lastSequence: Option<U64>
    var waitingForKeyframe: bool
    var lastRequest: Option<nat>
    ghost var events: seq<Event>

    function Snapshot(): Recovery
      reads this
    {
      Recovery(lastSequence, waitingForKeyframe, lastRequest)
    }

    /** The state is what the events so far have made of it. */
    ghost predicate Valid()
      reads this
    {
      Snapshot() == Run(events)
    }

    constructor ()
      ensures Valid() && events == [] && Snapshot() == START
    {
      lastSequence, waitingForKeyframe, lastRequest := None, false, None;
      events := [];
    }

    method RequireKeyframe()
      requires Valid()
      modifies this
      ensures Valid() && events == old(events) + [Required]
      ensures Snapshot() == old(Snapshot()).RequireKeyframe()
    {
      waitingForKeyframe := true;
      events := events + [Required];
    }

    /** A frame is sent exactly when the player can decode it. */
    method Accept(sequence: U64, keyframe: bool) returns (accepted: bool)
      requires Valid()
      modifies this
      ensures Valid() && events == old(events) + [Frame(sequence, keyframe)]
      ensures accepted <==> Decodable(events, |old(events)|)
      ensures (Snapshot(), accepted) == old(Snapshot()).Accept(sequence, keyframe)
    {
      hide Run, Decodable, NewestFrame;
      ghost var before, s := events, Snapshot();
      if lastSequence.None? || lastSequence.value + 1 != sequence {
        waitingForKeyframe := true;
      }
      lastSequence := Some(sequence);
      if keyframe {
        waitingForKeyframe := false;
      }
      accepted := !waitingForKeyframe;
      events := before + [Frame(sequence, keyframe)];
      assert (Snapshot(), accepted) == s.Accept(sequence, keyframe);
      RunAppends(before, Frame(sequence, keyframe));
      AcceptedIffDecodable(events, |before|);
    }

    /** A keyframe is asked for exactly while one is missing, and a quarter second after the last request. */
    method RequestDue(now: nat) returns (due: bool)
      requires Valid()
      modifies this
      ensures Valid() && events == old(events) + [Polled(now)]
      ensures due <==> Missing(events, |old(events)|) && Rested(events, |old(events)|)
      ensures (Snapshot(), due) == old(Snapshot()).RequestDue(now)
    {
      ghost var before, s := events, Snapshot();
      due := waitingForKeyframe && (lastRequest.None? || now >= lastRequest.value + KEYFRAME_RETRY);
      if due {
        lastRequest := Some(now);
      }
      events := before + [Polled(now)];
      assert (Snapshot(), due) == s.RequestDue(now);
      RunAppends(before, Polled(now));
      DueIff(events, |before|);
    }
  }

  // Whole runs

  datatype Event = Required | Frame(sequence: U64, keyframe: bool) | Polled(now: nat)

  ghost function Step(s: Recovery, e: Event): Recovery {
    match e
    case Required => s.RequireKeyframe()
    case Frame(sequence, keyframe) => s.Accept(sequence, keyframe).0
    case Polled(now) => s.RequestDue(now).0
  }

  ghost function Run(es: seq<Event>): Recovery {
    if es == [] then START else Step(Run(es[..|es| - 1]), es[|es| - 1])
  }

  lemma RunAppends(es: seq<Event>, e: Event)
    ensures (es + [e])[..|es|] == es && Run(es + [e]) == Step(Run(es), e)
  {
    assert (es + [e])[..|es|] == es;
  }

  ghost predicate Accepted(es: seq<Event>, k: nat)
    requires k < |es|
  {
    es[k].Frame? && Run(es[..k]).Accept(es[k].sequence, es[k].keyframe).1
  }

  ghost predicate Due(es: seq<Event>, k: nat)
    requires k < |es|
  {
    es[k].Polled? && Run(es[..k]).RequestDue(es[k].now).1
  }

  /** The index of the newest frame among the first `n` events. */
  ghost function NewestFrame(es: seq<Event>, n: nat): (k: Option<nat>)
    requires n <= |es|
    ensures k.Some? ==> k.value < n && es[k.value].Frame?
    ensures k.Some? ==> forall j :: k.value < j < n ==> !es[j].Frame?
    ensures k.None? ==> forall j :: 0 <= j < n ==> !es[j].Frame?
  {
    if n == 0 then None else if es[n - 1].Frame? then Some(n - 1) else NewestFrame(es, n - 1)
  }

  ghost predicate NothingRequired(es: seq<Event>, from: nat, to: nat)
    requires to <= |es|
  {
    forall j :: from <= j < to ==> !es[j].Required?
  }

  /** The player can decode frame `k`: it is a keyframe, or the frame just before it in the stream was the one
      before it in sequence, could itself be decoded, and no keyframe was required in between. */
  ghost predicate Decodable(es: seq<Event>, k: nat)
    requires k < |es| && es[k].Frame?
    decreases k
  {
    || es[k].keyframe
    || (&& NewestFrame(es, k).Some?
        && es[NewestFrame(es, k).value].sequence + 1 == es[k].sequence
        && NothingRequired(es, NewestFrame(es, k).value, k)
        && Decodable(es, NewestFrame(es, k).value))
  }

  /** A keyframe is missing: the newest frame cannot be decoded, or one was required since. */
  ghost predicate Missing(es: seq<Event>, n: nat)
    requires n <= |es|
  {
    var k := NewestFrame(es, n);
    if k.None? then !NothingRequired(es, 0, n)
    else !Decodable(es, k.value) || !NothingRequired(es, k.value, n)
  }

  /** The state remembers the newest frame, and waits exactly while a keyframe is missing. */
  lemma {:induction false} RunTracksDecodability(es: seq<Event>, n: nat)
    requires n <= |es|
    ensures var s := Run(es[..n]);
      var k := NewestFrame(es, n);
      && s.lastSequence == (if k.None? then None else Some(es[k.value].sequence))
      && (s.waiting <==> Missing(es, n))
  {
    if n > 0 {
      RunTracksDecodability(es, n - 1);
      assert es[..n][..n - 1] == es[..n - 1] && es[..n][n - 1] == es[n - 1];
    }
  }

  /** In every run a frame is sent exactly when it can be decoded. */
  lemma AcceptedIffDecodable(es: seq<Event>, k: nat)
    requires k < |es| && es[k].Frame?
    ensures Accepted(es, k) <==> Decodable(es, k)
  {
    RunTracksDecodability(es, k);
  }

  /** An accepted frame is the end of an unbroken accepted chain that begins with a keyframe. */
  lemma {:induction false} AcceptedChain(es: seq<Event>, k: nat) returns (chain: seq<nat>)
    requires k < |es| && Accepted(es, k)
    ensures |chain| > 0 && chain[|chain| - 1] == k
    ensures forall i :: 0 <= i < |chain| ==> chain[i] <= k && es[chain[i]].Frame? && Accepted(es, chain[i])
    ensures es[chain[0]].keyframe
    ensures forall i {:trigger chain[i + 1]} :: 0 <= i < |chain| - 1 ==>
      && chain[i] < chain[i + 1]
      && es[chain[i]].sequence + 1 == es[chain[i + 1]].sequence
      && NothingRequired(es, chain[i], chain[i + 1])
    decreases k
  {
    AcceptedIffDecodable(es, k);
    if es[k].keyframe {
      chain := [k];
    } else {
      var j := NewestFrame(es, k).value;
      AcceptedIffDecodable(es, j);
      var prefix := AcceptedChain(es, j);
      chain := prefix + [k];
    }
  }

  /** The latest poll among the first `n` events that asked for a keyframe. */
  ghost function LastDue(es: seq<Event>, n: nat): (k: Option<nat>)
    requires n <= |es|
    ensures k.Some? ==> k.value < n && Due(es, k.value)
    ensures k.Some? ==> forall j :: k.value < j < n ==> !Due(es, j)
    ensures k.None? ==> forall j :: 0 <= j < n ==> !Due(es, j)
  {
    if n == 0 then None else if Due(es, n - 1) then Some(n - 1) else LastDue(es, n - 1)
  }

  lemma {:induction false} RunRemembersRequest(es: seq<Event>, n: nat)
    requires n <= |es|
    ensures Run(es[..n]).lastRequest == (if LastDue(es, n).None? then None else Some(es[LastDue(es, n).value].now))
  {
    if n > 0 {
      RunRemembersRequest(es, n - 1);
      assert es[..n][..n - 1] == es[..n - 1] && es[..n][n - 1] == es[n - 1];
    }
  }

  /** The last request, if any, is a quarter second ago. */
  ghost predicate Rested(es: seq<Event>, k: nat)
    requires k < |es| && es[k].Polled?
  {
    LastDue(es, k).Some? ==> es[k].now >= es[LastDue(es, k).value].now + 250_000_000
  }

  /** A poll asks for a keyframe exactly when one is missing and a quarter second has passed since the last request. */
  lemma DueIff(es: seq<Event>, k: nat)
    requires k < |es| && es[k].Polled?
    ensures Due(es, k) <==>
      Missing(es, k) && Rested(es, k)
  {
    RunTracksDecodability(es, k);
    RunRemembersRequest(es, k);
  }

  ghost predicate ClockForward(es: seq<Event>) {
    forall i, j :: 0 <= i < j < |es| && es[i].Polled? && es[j].Polled? ==> es[i].now <= es[j].now
  }

  /** Any two requests of a run are at least a quarter second apart. */
  lemma RequestsSpaced(es: seq<Event>, j: nat, k: nat)
    requires ClockForward(es) && j < k < |es| && Due(es, j) && Due(es, k)
    ensures es[k].now >= es[j].now + 250_000_000
  {
    DueIff(es, k);
    assert LastDue(es, k).Some? && j <= LastDue(es, k).value;
  }
}
