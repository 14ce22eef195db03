/** Which frames of a stream are sent, and when it asks for a keyframe: what is said of keyframe recovery, said of runs
    of the stream. */
module VideoStreamFrames {
  import opened Numbers
  import opened BitrateModel
  import opened VideoStreamModel
  import opened VideoStreamRuns
  import R = VideoRecovery

  /** What the run means to keyframe recovery: a dropped frame and an expired deadline require a keyframe too. */
  ghost function Framed(es: seq<Event>): seq<R.Event> {
    if es == [] then []
    else
      var init := es[..|es| - 1];
      match es[|es| - 1]
      case QueueDropped => Framed(init) + [R.Required]
      case DeadlineExpired(_) => Framed(init) + [R.Required]
      case KeyframeRequired => Framed(init) + [R.Required]
      case KeyframePolled(now) => Framed(init) + [R.Polled(now)]
      case FrameEncoded(sequence, keyframe) => Framed(init) + [R.Frame(sequence, keyframe)]
      case _ => Framed(init)
  }

  lemma HandleRecovery(p: Policy, e: Event)
    ensures Handle(p, e).policy.recovery ==
      match e
      case QueueDropped => R.Step(p.recovery, R.Required)
      case DeadlineExpired(_) => R.Step(p.recovery, R.Required)
      case KeyframeRequired => R.Step(p.recovery, R.Required)
      case KeyframePolled(now) => R.Step(p.recovery, R.Polled(now))
      case FrameEncoded(sequence, keyframe) => R.Step(p.recovery, R.Frame(sequence, keyframe))
      case _ => p.recovery
  {
    hide Policy.Evaluate, Controller.Observe, Controller.ObserveSenderCongestion, Controller.ObserveSenderPressure;
  }

  lemma {:induction false} RecoveryFollows(start: Policy, es: seq<Event>)
    requires start.recovery == R.START
    ensures Run(start, es).recovery == R.Run(Framed(es))
  {
    if es != [] {
      hide Handle, R.Step;
      var init, e := es[..|es| - 1], es[|es| - 1];
      RecoveryFollows(start, init);
      HandleRecovery(Run(start, init), e);
      assert Framed(es) != Framed(init) ==> Framed(es)[..|Framed(es)| - 1] == Framed(init);
    }
  }

  /** A frame of a stream is sent exactly when the player can decode it, which after a drop, an expired deadline or a
      gap needs a keyframe. */
  lemma StreamSendsDecodable(start: Policy, es: seq<Event>, sequence: U64, keyframe: bool)
    requires start.recovery == R.START
    ensures Run(start, es).AcceptEncodedFrame(sequence, keyframe).1 <==>
      R.Decodable(Framed(es) + [R.Frame(sequence, keyframe)], |Framed(es)|)
  {
    hide Run, R.Run, R.Decodable, Framed;
    RecoveryFollows(start, es);
    var frames := Framed(es) + [R.Frame(sequence, keyframe)];
    assert frames[..|Framed(es)|] == Framed(es);
    R.AcceptedIffDecodable(frames, |Framed(es)|);
  }

  /** A stream asks for a keyframe exactly while one is missing and a quarter second after it last asked. */
  lemma StreamAsksWhileMissing(start: Policy, es: seq<Event>, now: nat)
    requires start.recovery == R.START
    ensures Run(start, es).KeyframeRequestDue(now).1 <==>
      R.Missing(Framed(es) + [R.Polled(now)], |Framed(es)|) && R.Rested(Framed(es) + [R.Polled(now)], |Framed(es)|)
  {
    hide Run, R.Run, R.Missing, R.Rested, Framed;
    RecoveryFollows(start, es);
    var frames := Framed(es) + [R.Polled(now)];
    assert frames[..|Framed(es)|] == Framed(es);
    R.DueIff(frames, |Framed(es)|);
  }
}
