/** The queue that hands work to one asynchronous handler at a time: its state between the steps of an event loop, with
    the handler's start and its end as separate steps. */
module AsyncQueue {
  import opened Decimals
  import opened Numbers

  type Token = seq<nat>

  /** What every token of a generation starts with. */
  function Prefix(generation: nat): Token {
    Decimal(generation) + [0]
  }

  function TokenOf(generation: nat, key: seq<nat>): Token {
    Prefix(generation) + key
  }

  datatype Item<+V> = Item(generation: nat, token: Token, value: V)

  /** The fields of the queue, and the item whose handler has started and not ended. */
  datatype Queue<+V> = Queue(generation: nat, items: seq<Item<V>>, keys: set<Token>, running: bool,
                             inFlight: Option<Item<V>>)
  {
    function Reset(next: nat): Queue<V> {
      this.(generation := next, items := [], keys := {})
    }

    predicate Accepts(of: nat, key: seq<nat>) {
      of == generation && TokenOf(of, key) !in keys
    }

    function StartNext(): Queue<V> {
      if items == [] then this.(running := false, inFlight := None)
      else this.(running := true, items := items[1..], inFlight := Some(items[0]))
    }

    function Drain(): Queue<V> {
      if running then this else StartNext()
    }

    function HandlerEnds(succeeds: bool): Queue<V>
      requires inFlight.Some?
    {
      var released := this.(keys := keys - {inFlight.value.token});
      if succeeds then released.StartNext() else released.(running := false, inFlight := None)
    }
  }

  function Enqueued<V>(q: Queue<V>, of: nat, key: seq<nat>, value: V): Queue<V> {
    var token := TokenOf(of, key);
    if q.Accepts(of, key) then q.(items := q.items + [Item(of, token, value)], keys := q.keys + {token}) else q
  }

  function Empty<V>(): Queue<V> {
    Queue(0, [], {}, false, None)
  }

  class UniqueAsyncQueue<V> {
    var generation: nat
    var items: seq<Item<V>>
    var keys: set<Token>
    var running: bool
    var inFlight: Option<Item<V>>
    ghost var taken: seq<Item<V>>
    ghost var started: seq<Item<V>>

    function Snapshot(): Queue<V>
      reads this
    {
      Queue(generation, items, keys, running, inFlight)
    }

    /** The queue with what it took and started since the last reset. */
    ghost function Past(): History<V>
      reads this
    {
      History(Snapshot(), taken, started)
    }

    /** No key is queued or running twice, and what was taken is what was started and then what is queued, in order. */
    ghost predicate Valid()
      reads this
    {
      Faithful(Past())
    }

    constructor ()
      ensures Valid() && Snapshot() == Empty()
    {
      generation, items, keys, running, inFlight := 0, [], {}, false, None;
      taken, started := [], [];
    }

    /** Exactly a reset to the generation of the handler still running breaks the queue. */
    method Reset(next: nat)
      modifies this
      ensures Past() == Step(old(Past()), Event.Reset(next))
      ensures old(Valid()) ==> (Valid() <==> !Collides(old(Snapshot()), next))
    {
      ghost var h := Past();
      if Sound(h.queue) {
        ResetIsSoundIff(h.queue, next);
      }
      hide Sound, Collides;
      generation := next;
      items := [];
      keys := {};
      taken, started := [], [];
      assert Past() == Step(h, Event.Reset(next));
      if Faithful(h) && !Collides(h.queue, next) {
        StepStaysFaithful(h, Event.Reset(next));
      }
    }

    /** Takes the key exactly when it is of this generation and neither queued nor running in it. */
    method Enqueue(of: nat, key: seq<nat>, value: V) returns (accepted: bool)
      modifies this
      ensures Past() == Step(old(Past()), Event.Enqueue(of, key, value))
      ensures accepted == old(Snapshot()).Accepts(of, key)
      ensures old(Valid()) ==>
        && Valid()
        && (accepted <==> of == generation && TokenOf(of, key) !in old(Pending(Snapshot())))
    {
      ghost var h := Past();
      var token := TokenOf(of, key);
      if of != generation || token in keys {
        accepted := false;
      } else {
        keys := keys + {token};
        items := items + [Item(of, token, value)];
        taken := taken + [Item(of, token, value)];
        accepted := true;
      }
      assert Past() == Step(h, Event.Enqueue(of, key, value));
      if Faithful(h) {
        StepStaysFaithful(h, Event.Enqueue(of, key, value));
      }
    }

    /** Runs up to the first wait for a handler. */
    method Drain()
      modifies this
      ensures Past() == Step(old(Past()), Event.Drain)
      ensures old(Valid()) ==> Valid()
    {
      ghost var h := Past();
      if !running {
        running := true;
        Continue();
      }
      assert Past() == Step(h, Event.Drain);
      if Faithful(h) {
        StepStaysFaithful(h, Event.Drain);
      }
    }

    /** From the end of one handler to the wait for the next. */
    method HandlerEnds(succeeds: bool)
      requires running && inFlight.Some?
      modifies this
      ensures Past() == Step(old(Past()), Event.HandlerEnds(succeeds))
      ensures old(Valid()) ==> Valid()
    {
      ghost var h := Past();
      keys := keys - {inFlight.value.token};
      if succeeds {
        Continue();
      } else {
        inFlight := None;
        running := false;
      }
      assert Past() == Step(h, Event.HandlerEnds(succeeds));
      if Faithful(h) {
        StepStaysFaithful(h, Event.HandlerEnds(succeeds));
      }
    }

    method Continue()
      requires running
      modifies this
      ensures Past() == History(old(Snapshot()).StartNext(), old(taken), old(started) + Next(old(Snapshot())))
    {
      if items != [] {
        started := started + [items[0]];
        inFlight := Some(items[0]);
        items := items[1..];
      } else {
        inFlight := None;
        running := false;
      }
    }
  }

  // Tokens

  lemma TokenNamesGeneration(g: nat, h: nat, token: Token)
    requires Prefix(g) <= token && Prefix(h) <= token
    ensures g == h
  {
    var a, b := Decimal(g), Decimal(h);
    DecimalReadsBack(g);
    DecimalReadsBack(h);
    assert Prefix(g)[|a|] == token[|a|] == 0 && Prefix(h)[|b|] == token[|b|] == 0;
    assert a == Prefix(g)[..|a|] == token[..|a|];
    assert b == Prefix(h)[..|b|] == token[..|b|];
  }

  /** A token stands for one generation and one key. */
  lemma TokensIdentify(g: nat, key: seq<nat>, h: nat, other: seq<nat>)
    ensures TokenOf(g, key) == TokenOf(h, other) <==> g == h && key == other
  {
    if TokenOf(g, key) == TokenOf(h, other) {
      TokenNamesGeneration(g, h, TokenOf(g, key));
      assert TokenOf(g, key)[|Prefix(g)|..] == key;
      assert TokenOf(h, other)[|Prefix(g)|..] == other;
    }
  }

  // What the steps keep

  ghost function Tokens<V>(items: seq<Item<V>>): set<Token> {
    set i | 0 <= i < |items| :: items[i].token
  }

  ghost function Pending<V>(q: Queue<V>): set<Token> {
    Tokens(q.items) + (if q.inFlight.Some? && q.inFlight.value.generation == q.generation
                       then {q.inFlight.value.token} else {})
  }

  ghost predicate Distinct<V>(items: seq<Item<V>>) {
    forall i, j :: 0 <= i < j < |items| ==> items[i].token != items[j].token
  }

  /** The keys are the tokens queued or running in this generation, and none of these is there twice. */
  ghost predicate Sound<V>(q: Queue<V>) {
    && (q.running <==> q.inFlight.Some?)
    && (forall i :: 0 <= i < |q.items| ==>
          q.items[i].generation == q.generation && Prefix(q.generation) <= q.items[i].token)
    && (q.inFlight.Some? ==>
          Prefix(q.inFlight.value.generation) <= q.inFlight.value.token && q.inFlight.value.token !in Tokens(q.items))
    && Distinct(q.items)
    && q.keys == Pending(q)
  }

  /** The reset is to the generation of the handler still running. */
  ghost predicate Collides<V>(q: Queue<V>, next: nat) {
    q.inFlight.Some? && q.inFlight.value.generation == next
  }

  /** A reset keeps the queue sound exactly when its generation is not that of the handler still running. */
  lemma ResetIsSoundIff<V>(q: Queue<V>, next: nat)
    requires Sound(q)
    ensures Sound(q.Reset(next)) <==> !Collides(q, next)
  {
    if Collides(q, next) {
      assert q.inFlight.value.token in Pending(q.Reset(next));
    }
  }

  lemma TokensAppended<V>(items: seq<Item<V>>, item: Item<V>)
    ensures Tokens(items + [item]) == Tokens(items) + {item.token}
  {
    var all := items + [item];
    assert all[|items|] == item;
    forall i | 0 <= i < |items| ensures items[i].token in Tokens(all) {
      assert all[i] == items[i];
    }
  }

  lemma EnqueueStaysSound<V>(q: Queue<V>, of: nat, key: seq<nat>, value: V)
    requires Sound(q)
    ensures Sound(Enqueued(q, of, key, value))
  {
    var token := TokenOf(of, key);
    var next := Enqueued(q, of, key, value);
    if q.Accepts(of, key) {
      TokensAppended(q.items, Item(of, token, value));
      if q.inFlight.Some? && q.inFlight.value.token == token {
        TokenNamesGeneration(q.inFlight.value.generation, of, token);
        assert false;
      }
      forall i | 0 <= i < |q.items| ensures q.items[i].token != token {
        assert q.items[i].token in Tokens(q.items);
      }
    }
  }

  lemma StartStaysSound<V>(q: Queue<V>)
    requires Sound(q.(running := false, inFlight := None))
    ensures Sound(q.StartNext())
  {
    if q.items != [] {
      var rest := q.items[1..];
      assert Tokens(q.items) == Tokens(rest) + {q.items[0].token};
    }
  }

  lemma EndStaysSound<V>(q: Queue<V>, succeeds: bool)
    requires Sound(q) && q.inFlight.Some?
    ensures Sound(q.HandlerEnds(succeeds))
  {
    var item := q.inFlight.value;
    var released := q.(keys := q.keys - {item.token}, running := false, inFlight := None);
    assert released.keys == Tokens(released.items);
    if succeeds {
      StartStaysSound(q.(keys := q.keys - {item.token}));
    }
  }

  /** A key is taken exactly when it is of this generation and neither queued nor running in it. */
  lemma AcceptsIffNotPending<V>(q: Queue<V>, of: nat, key: seq<nat>)
    requires Sound(q)
    ensures q.Accepts(of, key) <==>
      && of == q.generation
      && (forall i :: 0 <= i < |q.items| ==> q.items[i].token != TokenOf(of, key))
      && (q.inFlight.Some? ==> q.inFlight.value.token != TokenOf(of, key))
  {
    var token := TokenOf(of, key);
    if of == q.generation && q.inFlight.Some? && q.inFlight.value.token == token {
      TokenNamesGeneration(q.inFlight.value.generation, of, token);
    }
  }

  // Whole runs

  datatype Event<+V> = Reset(next: nat) | Enqueue(of: nat, key: seq<nat>, value: V) | Drain
      | HandlerEnds(succeeds: bool)

  /** The queue, what it has taken since the last reset, and what of that it has started. */
  datatype History<+V> = History(queue: Queue<V>, taken: seq<Item<V>>, started: seq<Item<V>>)

  /** The item that a step towards the next handler starts. */
  function Next<V>(q: Queue<V>): seq<Item<V>> {
    if q.items == [] then [] else [q.items[0]]
  }

  ghost function Step<V>(h: History<V>, e: Event<V>): History<V> {
    var q := h.queue;
    match e
    case Reset(next) => History(q.Reset(next), [], [])
    case Enqueue(of, key, value) =>
      var taken := if q.Accepts(of, key) then [Item(of, TokenOf(of, key), value)] else [];
      History(Enqueued(q, of, key, value), h.taken + taken, h.started)
    case Drain => History(q.Drain(), h.taken, if q.running then h.started else h.started + Next(q))
    case HandlerEnds(succeeds) =>
      if q.inFlight.None? then h
      else History(q.HandlerEnds(succeeds), h.taken, if succeeds then h.started + Next(q) else h.started)
  }

  ghost function Run<V>(events: seq<Event<V>>): History<V> {
    if events == [] then History(Empty(), [], []) else Step(Run(events[..|events| - 1]), events[|events| - 1])
  }

  /** Sound, and first in first out: what was taken is what was started and then what is queued. */
  ghost predicate Faithful<V>(h: History<V>) {
    && Sound(h.queue)
    && h.taken == h.started + h.queue.items
    && (h.queue.inFlight.Some? && h.queue.inFlight.value.generation == h.queue.generation ==>
          h.started != [] && h.started[|h.started| - 1] == h.queue.inFlight.value)
  }

  lemma NextThenRest<V>(q: Queue<V>)
    ensures q.items == Next(q) + q.StartNext().items
  {
  }

  lemma DrainStaysFaithful<V>(h: History<V>)
    requires Faithful(h)
    ensures Faithful(Step(h, Drain))
  {
    if !h.queue.running {
      StartStaysSound(h.queue);
      NextThenRest(h.queue);
    }
  }

  lemma EndStaysFaithful<V>(h: History<V>, succeeds: bool)
    requires Faithful(h)
    ensures Faithful(Step(h, HandlerEnds(succeeds)))
  {
    hide Sound;
    if h.queue.inFlight.Some? {
      EndStaysSound(h.queue, succeeds);
      NextThenRest(h.queue);
    }
  }

  lemma StepStaysFaithful<V>(h: History<V>, e: Event<V>)
    requires Faithful(h)
    requires e.Reset? ==> !Collides(h.queue, e.next)
    ensures Faithful(Step(h, e))
  {
    match e
    case Reset(next) => ResetIsSoundIff(h.queue, next);
    case Enqueue(of, key, value) => EnqueueStaysSound(h.queue, of, key, value);
    case Drain => DrainStaysFaithful(h);
    case HandlerEnds(succeeds) => EndStaysFaithful(h, succeeds);
  }

  /** The reset at position k is to the generation of the handler still running. */
  ghost predicate CollidesAt<V>(events: seq<Event<V>>, k: nat)
    requires k < |events|
  {
    events[k].Reset? && Collides(Run(events[..k]).queue, events[k].next)
  }

  ghost predicate SoundUpTo<V>(events: seq<Event<V>>, n: nat)
    requires n <= |events|
  {
    forall k: nat :: k <= n ==> Sound(Run(events[..k]).queue)
  }

  ghost predicate NoCollisions<V>(events: seq<Event<V>>, n: nat)
    requires n <= |events|
  {
    forall k: nat :: k < n ==> !CollidesAt(events, k)
  }

  lemma {:induction false} RunStaysFaithful<V>(events: seq<Event<V>>, n: nat)
    requires n <= |events| && NoCollisions(events, n)
    ensures Faithful(Run(events[..n]))
  {
    if n > 0 {
      RunStaysFaithful(events, n - 1);
      assert events[..n][..n - 1] == events[..n - 1];
      assert !CollidesAt(events, n - 1);
      StepStaysFaithful(Run(events[..n - 1]), events[n - 1]);
    }
  }

  /** Under every interleaving, the queue is sound throughout exactly when no reset is to the generation of the handler
      still running. */
  lemma {:induction false} SoundThroughoutIff<V>(events: seq<Event<V>>, n: nat)
    requires n <= |events|
    ensures SoundUpTo(events, n) <==> NoCollisions(events, n)
  {
    if NoCollisions(events, n) {
      forall k: nat | k <= n ensures Sound(Run(events[..k]).queue) {
        RunStaysFaithful(events, k);
      }
    } else {
      var k: nat :| k < n && CollidesAt(events, k);
      var q := Run(events[..k]).queue;
      assert events[..k + 1][..k] == events[..k];
      assert Run(events[..k + 1]).queue == q.Reset(events[k].next);
      if SoundUpTo(events, n) {
        assert Sound(q);
        ResetIsSoundIff(q, events[k].next);
      }
    }
  }

  // Increasing generations, as the client uses them

  /** Every reset is to a generation above the last. */
  ghost predicate Increasing<V>(events: seq<Event<V>>) {
    forall k :: 0 <= k < |events| && events[k].Reset? ==> events[k].next > Run(events[..k]).queue.generation
  }

  ghost predicate NotAhead<V>(q: Queue<V>) {
    && (q.inFlight.Some? ==> q.inFlight.value.generation <= q.generation)
    && (forall i :: 0 <= i < |q.items| ==> q.items[i].generation <= q.generation)
  }

  lemma StepStaysNotAhead<V>(h: History<V>, e: Event<V>)
    requires NotAhead(h.queue)
    requires e.Reset? ==> e.next > h.queue.generation
    ensures NotAhead(Step(h, e).queue)
    ensures e.Reset? ==> !Collides(h.queue, e.next)
  {
  }

  lemma {:induction false} IncreasingNeverCollides<V>(events: seq<Event<V>>, n: nat)
    requires n <= |events| && Increasing(events)
    ensures NoCollisions(events, n) && NotAhead(Run(events[..n]).queue)
  {
    if n > 0 {
      IncreasingNeverCollides(events, n - 1);
      assert events[..n][..n - 1] == events[..n - 1];
      StepStaysNotAhead(Run(events[..n - 1]), events[n - 1]);
    }
  }

  /** With increasing generations every interleaving keeps the queue sound and first in first out. */
  lemma IncreasingRunsAreFaithful<V>(events: seq<Event<V>>)
    requires Increasing(events)
    ensures Faithful(Run(events))
  {
    IncreasingNeverCollides(events, |events|);
    RunStaysFaithful(events, |events|);
    assert events[..|events|] == events;
  }

  // One handler at a time

  /** A handler begins with an item, or ends. */
  datatype Mark<+V> = Began(item: Item<V>) | Ended(item: Item<V>)

  function Starting<V>(q: Queue<V>): seq<Mark<V>> {
    if q.items == [] then [] else [Began(q.items[0])]
  }

  /** The handlers that a step ends and begins, in this order. Only the running flag keeps a
      drain from beginning one. */
  function Marks<V>(q: Queue<V>, e: Event<V>): seq<Mark<V>> {
    match e
    case Drain => if q.running then [] else Starting(q)
    case HandlerEnds(succeeds) =>
      if q.inFlight.None? then [] else [Ended(q.inFlight.value)] + (if succeeds then Starting(q) else [])
    case _ => []
  }

  ghost function Log<V>(events: seq<Event<V>>): seq<Mark<V>> {
    if events == [] then []
    else
      var init := events[..|events| - 1];
      Log(init) + Marks(Run(init).queue, events[|events| - 1])
  }

  /** The handler in flight by the log. */
  ghost function InFlight<V>(log: seq<Mark<V>>): Option<Item<V>> {
    if log == [] || log[|log| - 1].Ended? then None else Some(log[|log| - 1].item)
  }

  /** A handler begins only where none is in flight, and only the one in flight ends. */
  ghost predicate OneByOne<V>(log: seq<Mark<V>>) {
    log == [] ||
    var init, mark := log[..|log| - 1], log[|log| - 1];
    OneByOne(init) && InFlight(init) == if mark.Began? then None else Some(mark.item)
  }

  lemma MarkGoesOn<V>(log: seq<Mark<V>>, mark: Mark<V>)
    requires OneByOne(log) && InFlight(log) == if mark.Began? then None else Some(mark.item)
    ensures OneByOne(log + [mark]) && InFlight(log + [mark]) == if mark.Began? then Some(mark.item) else None
  {
    assert (log + [mark])[..|log|] == log;
  }

  lemma StartGoesOn<V>(log: seq<Mark<V>>, q: Queue<V>)
    requires OneByOne(log) && InFlight(log).None?
    ensures OneByOne(log + Starting(q)) && InFlight(log + Starting(q)) == q.StartNext().inFlight
  {
    hide OneByOne, InFlight;
    if q.items == [] {
      assert log + Starting(q) == log;
    } else {
      MarkGoesOn(log, Began(q.items[0]));
    }
  }

  lemma EndGoesOn<V>(log: seq<Mark<V>>, q: Queue<V>, succeeds: bool)
    requires OneByOne(log) && q.inFlight.Some? && InFlight(log) == q.inFlight
    ensures var grown := log + Marks(q, HandlerEnds(succeeds));
      OneByOne(grown) && InFlight(grown) == q.HandlerEnds(succeeds).inFlight
  {
    hide OneByOne, InFlight;
    var ended := log + [Ended(q.inFlight.value)];
    MarkGoesOn(log, Ended(q.inFlight.value));
    StartGoesOn(ended, q);
    assert succeeds ==> log + Marks(q, HandlerEnds(succeeds)) == ended + Starting(q);
    assert !succeeds ==> log + Marks(q, HandlerEnds(succeeds)) == ended;
  }

  lemma MarksGoOn<V>(log: seq<Mark<V>>, q: Queue<V>, e: Event<V>, t: Queue<V>)
    requires OneByOne(log) && q.inFlight == InFlight(log) && (q.running <==> q.inFlight.Some?)
    requires t == Step(History(q, [], []), e).queue
    ensures OneByOne(log + Marks(q, e)) && t.inFlight == InFlight(log + Marks(q, e))
    ensures t.running <==> t.inFlight.Some?
  {
    hide OneByOne, InFlight;
    assert log + [] == log;
    match e
    case Drain =>
      if !q.running {
        StartGoesOn(log, q);
      }
    case HandlerEnds(succeeds) =>
      if q.inFlight.Some? {
        EndGoesOn(log, q, succeeds);
      }
    case _ =>
  }

  lemma StepOfQueue<V>(h: History<V>, e: Event<V>)
    ensures Step(h, e).queue == Step(History(h.queue, [], []), e).queue
  {
  }

  /** Under every interleaving, with any resets, handlers run one by one, and the queue runs while the
      log has one in flight. */
  lemma {:induction false} HandlersRunOneByOne<V>(events: seq<Event<V>>)
    ensures var q, log := Run(events).queue, Log(events);
      OneByOne(log) && q.inFlight == InFlight(log) && (q.running <==> q.inFlight.Some?)
  {
    hide OneByOne, InFlight, Marks, Step;
    if events == [] {
      NothingBegan<V>();
    } else {
      var init, e := events[..|events| - 1], events[|events| - 1];
      HandlersRunOneByOne(init);
      StepOfQueue(Run(init), e);
      MarksGoOn(Log(init), Run(init).queue, e, Run(events).queue);
    }
  }

  lemma NothingBegan<V>()
    ensures OneByOne<V>([]) && InFlight<V>([]).None?
  {
  }

  /** A second reset to the same generation lets a key be queued while its handler still runs. */
  lemma SameGenerationRunsTwice<V>(generation: nat, key: seq<nat>, value: V) returns (events: seq<Event<V>>)
    ensures events == [Reset(generation), Enqueue(generation, key, value), Drain, Reset(generation),
                       Enqueue(generation, key, value)]
    ensures var q := Run(events).queue;
      |q.items| == 1 && q.inFlight == Some(q.items[0])
  {
    var reset: Event<V> := Reset(generation);
    var enqueue: Event<V> := Enqueue(generation, key, value);
    var drain: Event<V> := Drain;
    events := [reset, enqueue, drain, reset, enqueue];
    assert events[..4] == [reset, enqueue, drain, reset];
    assert events[..4][..3] == [reset, enqueue, drain];
    assert events[..4][..3][..2] == [reset, enqueue];
    assert events[..4][..3][..2][..1] == [reset];
    assert Run([reset]) == Step(Run([]), reset) == History(Empty<V>().Reset(generation), [], []);
    var q1 := Run([reset]).queue;
    var q2 := Run([reset, enqueue]).queue;
    assert q2.items == [Item(generation, TokenOf(generation, key), value)];
    var q3 := Run([reset, enqueue, drain]).queue;
    assert q3.items == [] && q3.inFlight == Some(Item(generation, TokenOf(generation, key), value));
  }

  // Draining

  ghost function AfterEnds<V>(h: History<V>, n: nat): History<V>
    decreases n
  {
    if n == 0 then h else AfterEnds(Step(h, HandlerEnds(true)), n - 1)
  }

  lemma {:induction false} EndsFinish<V>(h: History<V>)
    requires Faithful(h) && h.queue.running
    ensures var end := AfterEnds(h, |h.queue.items| + 1);
      Faithful(end) && !end.queue.running && end.queue.items == [] && end.taken == h.taken
    decreases |h.queue.items|
  {
    var next := Step(h, HandlerEnds(true));
    EndStaysFaithful(h, true);
    if h.queue.items == [] {
      assert AfterEnds(h, 1) == AfterEnds(next, 0);
    } else {
      EndsFinish(next);
    }
  }

  /** Once drained with handlers that succeed, the queue is idle and has started all it took, in
      the order it took it. */
  lemma DrainStartsEverything<V>(h: History<V>)
    requires Faithful(h) && (h.queue.running || h.queue.items != [])
    ensures var drained := Step(h, Drain);
      var end := AfterEnds(drained, |drained.queue.items| + 1);
      end.started == h.taken && end.queue.items == [] && !end.queue.running && end.queue.keys == {}
  {
    DrainStaysFaithful(h);
    var drained := Step(h, Drain);
    EndsFinish(drained);
    var end := AfterEnds(drained, |drained.queue.items| + 1);
    assert end.taken == end.started + [];
  }
}
