/**
  The operation queue of src/livekit/operations.rs and the staleness test of its worker
  (src/livekit/client/operation_worker.rs), as steps of producers, cancellers and one worker.
 */
module AudioQueue {
  import opened Wrappers
  import opened Counting

  type ProducerId = nat

  const TWO_64: nat := 0x1_0000_0000_0000_0000

  /** An audio operation remembers the step at which it read the generation. */
  datatype Item = Audio(stampedAt: nat, generation: nat) | Other

  /** `queue_audio` is a stamp and then a send; the worker receives an operation and then tests it. */
  datatype Event =
    | Stamp(p: ProducerId)
    | Send(p: ProducerId)
    | SendOther
    | Cancel
    | Receive
    | Test

  /** `sent` and `received` keep the whole history of the channel. */
  datatype State = State(
    generation: nat, stamped: map<ProducerId, Item>, queue: seq<Item>, inHand: Option<Item>,
    sent: seq<Item>, received: seq<Item>)

  const Init := State(0, map[], [], None, [], [])

  datatype QueueError = Closed

  predicate Enabled(capacity: nat, s: State, e: Event) {
    match e
    case Stamp(p) => p !in s.stamped
    case Send(p) => p in s.stamped && |s.queue| < capacity
    case SendOther => |s.queue| < capacity
    case Cancel => true
    case Receive => s.inHand.None? && |s.queue| > 0
    case Test => s.inHand.Some?
  }

  function Next(s: State, e: Event, now: nat): State
    requires e.Send? ==> e.p in s.stamped
    requires e.Receive? ==> |s.queue| > 0
  {
    match e
    case Stamp(p) => s.(stamped := s.stamped[p := Audio(now, s.generation)])
    case Send(p) =>
      var item := s.stamped[p];
      s.(stamped := s.stamped - {p}, queue := s.queue + [item], sent := s.sent + [item])
    case SendOther => s.(queue := s.queue + [Other], sent := s.sent + [Other])
    case Cancel => s.(generation := (s.generation + 1) % TWO_64)
    case Receive => s.(queue := s.queue[1..], inHand := Some(s.queue[0]), received := s.received + [s.queue[0]])
    case Test => s.(inHand := None)
  }

  /**
    The queue's own methods, each as the steps it takes; `now` is the step at which it starts. `send` waits for
    room, which here is part of the caller's turn and in `Enabled` is part of the interleaving.
   */
  class OperationQueue {
    var audioGeneration: nat
    var channel: seq<Item>
    /** The worker has dropped its end. */
    var closed: bool
    const capacity: nat

    constructor (bufferSize: nat)
      ensures Shows(Init) && !closed && capacity == bufferSize
    {
      audioGeneration, channel, closed, capacity := 0, [], false, bufferSize;
    }

    ghost predicate Shows(s: State)
      reads this
    {
      audioGeneration == s.generation && channel == s.queue
    }

    method CancelAudio(ghost s: State, now: nat) returns (r: nat)
      requires Shows(s)
      modifies this`audioGeneration
      ensures Enabled(capacity, s, Cancel) && Shows(Next(s, Cancel, now)) && r == audioGeneration
    {
      audioGeneration := (audioGeneration + 1) % TWO_64;
      r := audioGeneration;
    }

    method CurrentAudioGeneration() returns (r: nat)
      ensures r == audioGeneration
    {
      r := audioGeneration;
    }

    /** `send` fails exactly when the channel is closed; on a full one it first waits for the worker to make room. */
    method Queue(item: Item) returns (r: Result<(), QueueError>)
      requires closed || |channel| < capacity
      modifies this`channel
      ensures r == if closed then Err(Closed) else Ok(())
      ensures channel == if closed then old(channel) else old(channel) + [item]
    {
      if closed { return Err(Closed); }
      channel := channel + [item];
      r := Ok(());
    }

    method QueueAudio(ghost p: ProducerId, ghost s: State, now: nat) returns (r: Result<(), QueueError>)
      requires Shows(s) && Enabled(capacity, s, Stamp(p)) && (closed || |channel| < capacity)
      modifies this`channel
      ensures r == if closed then Err(Closed) else Ok(())
      ensures closed ==> Shows(Next(s, Stamp(p), now))
      ensures !closed ==>
        && Enabled(capacity, Next(s, Stamp(p), now), Send(p))
        && Shows(Next(Next(s, Stamp(p), now), Send(p), now + 1))
    {
      var generation := CurrentAudioGeneration();
      r := Queue(Audio(now, generation));
    }
  }

  /** The worker's test: skip an audio operation of an older generation. */
  predicate Stale(item: Item, generation: nat) { item.Audio? && item.generation < generation }

  /** A run is legal when every event was enabled in the state the earlier ones led to. */
  ghost predicate Legal(capacity: nat, events: seq<Event>)
    decreases |events|, 0
  {
    |events| > 0 ==>
      var n := |events| - 1;
      Legal(capacity, events[..n]) && Enabled(capacity, Run(capacity, events[..n]), events[n])
  }

  ghost function Run(capacity: nat, events: seq<Event>): State
    requires Legal(capacity, events)
    decreases |events|, 1
  {
    if |events| == 0 then Init else
    var n := |events| - 1;
    Next(Run(capacity, events[..n]), events[n], n)
  }

  function Cancels(events: seq<Event>): (r: nat)
    ensures r <= |events|
  {
    if |events| == 0 then 0
    else Cancels(events[..|events| - 1]) + if events[|events| - 1].Cancel? then 1 else 0
  }

  /** Cancels only accumulate, and grow over a stretch exactly when it holds a cancel. */
  lemma {:induction false} CancelsGrow(events: seq<Event>, i: nat)
    requires i <= |events|
    ensures Cancels(events[..i]) <= Cancels(events)
    ensures Cancels(events[..i]) < Cancels(events) <==> exists k :: i <= k < |events| && events[k].Cancel?
    decreases |events|
  {
    if i == |events| {
      assert events[..i] == events;
    } else {
      var n := |events| - 1;
      CancelsGrow(events[..n], i);
      assert events[..n][..i] == events[..i];
      if k :| i <= k < n && events[..n][k].Cancel? { assert events[k].Cancel?; }
      if k :| i <= k < |events| && events[k].Cancel? {
        if k < n { assert events[..n][k].Cancel?; }
      }
    }
  }

  // ---- Stamps ----

  ghost predicate StampIsTrue(events: seq<Event>, item: Item) {
    item.Audio? ==>
      item.stampedAt < |events| && events[item.stampedAt].Stamp? && item.generation == Cancels(events[..item.stampedAt])
  }

  /** What the channel holds, with the whole history of sends and receives. */
  ghost predicate ChannelInvariant(capacity: nat, s: State) {
    && |s.queue| <= capacity
    && s.sent == s.received + s.queue
    && (s.inHand.Some? ==> |s.received| > 0 && s.inHand.value == s.received[|s.received| - 1])
  }

  ghost predicate StampInvariant(events: seq<Event>, s: State) {
    && s.generation == Cancels(events)
    && (forall p :: p in s.stamped ==> s.stamped[p].Audio? && StampIsTrue(events, s.stamped[p]))
    && (forall i :: 0 <= i < |s.sent| ==> StampIsTrue(events, s.sent[i]))
  }

  lemma StampStaysTrue(events: seq<Event>, e: Event, item: Item)
    requires StampIsTrue(events, item)
    ensures StampIsTrue(events + [e], item)
  {
    if item.Audio? { assert (events + [e])[..item.stampedAt] == events[..item.stampedAt]; }
  }

  lemma StepChannel(capacity: nat, s: State, e: Event, now: nat)
    requires ChannelInvariant(capacity, s) && Enabled(capacity, s, e)
    ensures ChannelInvariant(capacity, Next(s, e, now))
  {
    if e.Receive? { assert s.queue == [s.queue[0]] + s.queue[1..]; }
  }

  lemma StepStamps(capacity: nat, events: seq<Event>, s: State, e: Event)
    requires StampInvariant(events, s) && Enabled(capacity, s, e) && |events| + 1 < TWO_64
    ensures StampInvariant(events + [e], Next(s, e, |events|))
  {
    assert (events + [e])[..|events|] == events;
    var s' := Next(s, e, |events|);
    forall p | p in s'.stamped ensures s'.stamped[p].Audio? && StampIsTrue(events + [e], s'.stamped[p]) {
      if p in s.stamped && s'.stamped[p] == s.stamped[p] { StampStaysTrue(events, e, s.stamped[p]); }
    }
    forall i | 0 <= i < |s'.sent| ensures StampIsTrue(events + [e], s'.sent[i]) {
      if i < |s.sent| {
        StampStaysTrue(events, e, s.sent[i]);
      } else if e.Send? {
        StampStaysTrue(events, e, s.stamped[e.p]);
      }
    }
  }

  lemma {:induction false} RunInvariant(capacity: nat, events: seq<Event>)
    requires Legal(capacity, events) && |events| < TWO_64
    ensures ChannelInvariant(capacity, Run(capacity, events)) && StampInvariant(events, Run(capacity, events))
  {
    if |events| > 0 {
      var n := |events| - 1;
      RunInvariant(capacity, events[..n]);
      StepChannel(capacity, Run(capacity, events[..n]), events[n], n);
      StepStamps(capacity, events[..n], Run(capacity, events[..n]), events[n]);
      assert events[..n] + [events[n]] == events;
    }
  }

  /**
    In every interleaving, an audio operation fails the worker's test exactly when some cancel came between its
    stamp and the test.
   */
  lemma StaleIffCancelledSinceStamp(capacity: nat, events: seq<Event>)
    requires Legal(capacity, events) && |events| < TWO_64
    requires Run(capacity, events).inHand.Some? && Run(capacity, events).inHand.value.Audio?
    ensures
      var s := Run(capacity, events);
      var i := s.inHand.value.stampedAt;
      && i < |events| && events[i].Stamp?
      && (Stale(s.inHand.value, s.generation) <==> exists k :: i < k < |events| && events[k].Cancel?)
  {
    RunInvariant(capacity, events);
    var s := Run(capacity, events);
    var item := s.inHand.value;
    assert item == s.sent[|s.received| - 1];
    CancelsGrow(events, item.stampedAt);
    if k :| item.stampedAt <= k < |events| && events[k].Cancel? { assert k != item.stampedAt; }
  }

  /** The channel is first in, first out, loses nothing and never exceeds its capacity. */
  lemma QueueIsFifo(capacity: nat, events: seq<Event>)
    requires Legal(capacity, events) && |events| < TWO_64
    ensures var s := Run(capacity, events);
      s.received <= s.sent && s.queue == s.sent[|s.received|..] && |s.queue| <= capacity
  {
    RunInvariant(capacity, events);
  }

  // ---- Nothing is lost, repeated or stuck ----

  predicate IsStamp(e: Event) { e.Stamp? }
  predicate IsSend(e: Event) { e.Send? || e.SendOther? }
  predicate IsAudioSend(e: Event) { e.Send? }
  predicate IsReceive(e: Event) { e.Receive? }
  predicate IsTest(e: Event) { e.Test? }

  /** What was sent is in the history, what was stamped is sent or still to be sent, and what was received is tested or in hand. */
  lemma {:induction false} StepsAreCounted(capacity: nat, events: seq<Event>)
    requires Legal(capacity, events)
    ensures var s := Run(capacity, events);
      && |s.sent| == Count(events, IsSend) && |s.received| == Count(events, IsReceive)
      && Count(events, IsStamp) == Count(events, IsAudioSend) + |s.stamped|
      && Count(events, IsReceive) == Count(events, IsTest) + if s.inHand.Some? then 1 else 0
  {
    if |events| == 0 {
      CountNone(IsSend);
      CountNone(IsReceive);
      CountNone(IsStamp);
      CountNone(IsAudioSend);
      CountNone(IsTest);
    } else {
      var n := |events| - 1;
      StepsAreCounted(capacity, events[..n]);
      CountLast(events, IsSend);
      CountLast(events, IsReceive);
      CountLast(events, IsStamp);
      CountLast(events, IsAudioSend);
      CountLast(events, IsTest);
      StampedSize(capacity, Run(capacity, events[..n]), events[n], n);
    }
  }

  lemma StampedSize(capacity: nat, s: State, e: Event, now: nat)
    requires Enabled(capacity, s, e)
    ensures |Next(s, e, now).stamped| + (if e.Send? then 1 else 0) == |s.stamped| + if e.Stamp? then 1 else 0
  {
    var after := Next(s, e, now).stamped;
    if e.Send? { assert s.stamped.Keys == after.Keys + {e.p}; }
    if e.Stamp? { assert after.Keys == s.stamped.Keys + {e.p}; }
  }

  /** Two audio operations come from different stamps. */
  predicate Apart(a: Item, b: Item) { a.Audio? && b.Audio? ==> a.stampedAt != b.stampedAt }

  ghost predicate AllApart(s: State, now: nat) {
    && (forall p :: p in s.stamped ==> s.stamped[p].Audio? && s.stamped[p].stampedAt < now)
    && (forall i :: 0 <= i < |s.sent| && s.sent[i].Audio? ==> s.sent[i].stampedAt < now)
    && (forall i, j :: 0 <= i < j < |s.sent| ==> Apart(s.sent[i], s.sent[j]))
    && (forall p, q :: p in s.stamped && q in s.stamped && p != q ==> Apart(s.stamped[p], s.stamped[q]))
    && (forall p, i :: p in s.stamped && 0 <= i < |s.sent| ==> Apart(s.stamped[p], s.sent[i]))
  }

  lemma StepKeepsApart(capacity: nat, s: State, e: Event, now: nat)
    requires AllApart(s, now) && Enabled(capacity, s, e)
    ensures AllApart(Next(s, e, now), now + 1)
  {
  }

  /** No audio operation is sent, and so none is received, twice. */
  lemma {:induction false} NothingIsRepeated(capacity: nat, events: seq<Event>)
    requires Legal(capacity, events)
    ensures AllApart(Run(capacity, events), |events|)
    ensures var sent := Run(capacity, events).sent; forall i, j :: 0 <= i < j < |sent| ==> Apart(sent[i], sent[j])
  {
    if |events| > 0 {
      var n := |events| - 1;
      NothingIsRepeated(capacity, events[..n]);
      StepKeepsApart(capacity, Run(capacity, events[..n]), events[n], n);
    }
  }

  /** A cancel is never held up, the worker goes on while there is work, and while a producer cannot send the worker can go on. */
  lemma NobodyIsStuck(capacity: nat, s: State, p: ProducerId)
    requires capacity > 0
    ensures Enabled(capacity, s, Cancel)
    ensures |s.queue| > 0 || s.inHand.Some? ==> Enabled(capacity, s, Receive) || Enabled(capacity, s, Test)
    ensures Enabled(capacity, s, Stamp(p)) || Enabled(capacity, s, Send(p)) || Enabled(capacity, s, Receive) || Enabled(capacity, s, Test)
    ensures Enabled(capacity, s, SendOther) || Enabled(capacity, s, Receive) || Enabled(capacity, s, Test)
  {
  }

  // ---- One producer ----

  ghost predicate OneProducer(p: ProducerId, events: seq<Event>) {
    forall i :: 0 <= i < |events| ==> (events[i].Stamp? || events[i].Send? ==> events[i].p == p)
  }

  /** Generations of audio operations do not decrease along the queue's history. */
  ghost predicate SortedByGeneration(items: seq<Item>) {
    forall i, j :: 0 <= i < j < |items| && items[i].Audio? && items[j].Audio? ==> items[i].generation <= items[j].generation
  }

  ghost predicate AtMost(items: seq<Item>, generation: nat) {
    forall i :: 0 <= i < |items| && items[i].Audio? ==> items[i].generation <= generation
  }

  ghost predicate SortedInvariant(p: ProducerId, s: State) {
    && s.stamped.Keys <= {p}
    && SortedByGeneration(s.sent) && AtMost(s.sent, s.generation)
    && (p in s.stamped ==>
         s.stamped[p].Audio? && AtMost(s.sent, s.stamped[p].generation) && s.stamped[p].generation <= s.generation)
  }

  lemma StepSorted(capacity: nat, p: ProducerId, s: State, e: Event, now: nat)
    requires SortedInvariant(p, s) && Enabled(capacity, s, e) && s.generation + 1 < TWO_64
    requires e.Stamp? || e.Send? ==> e.p == p
    ensures SortedInvariant(p, Next(s, e, now))
  {
    if e.Send? {
      SortedAppend(s.sent, s.stamped[p]);
    } else if e.SendOther? {
      SortedAppend(s.sent, Other);
    }
  }

  lemma SortedAppend(items: seq<Item>, item: Item)
    requires SortedByGeneration(items) && (item.Audio? ==> AtMost(items, item.generation))
    ensures SortedByGeneration(items + [item])
  {
  }

  lemma {:induction false} OneProducerSorts(capacity: nat, p: ProducerId, events: seq<Event>)
    requires Legal(capacity, events) && |events| < TWO_64 && OneProducer(p, events)
    ensures SortedInvariant(p, Run(capacity, events))
  {
    if |events| > 0 {
      var n := |events| - 1;
      forall i | 0 <= i < n ensures events[..n][i] == events[i] { }
      OneProducerSorts(capacity, p, events[..n]);
      RunInvariant(capacity, events[..n]);
      StepSorted(capacity, p, Run(capacity, events[..n]), events[n], n);
    }
  }

  /** With one producer, once an operation waiting in the queue is current, so are all the later ones until the next cancel. */
  lemma CurrentSuffix(capacity: nat, p: ProducerId, events: seq<Event>, i: nat, j: nat)
    requires Legal(capacity, events) && |events| < TWO_64 && OneProducer(p, events)
    requires i < j < |Run(capacity, events).queue|
    requires var q := Run(capacity, events).queue; q[i].Audio? && q[j].Audio?
    requires !Stale(Run(capacity, events).queue[i], Run(capacity, events).generation)
    ensures !Stale(Run(capacity, events).queue[j], Run(capacity, events).generation)
  {
    OneProducerSorts(capacity, p, events);
    QueueIsFifo(capacity, events);
    var s := Run(capacity, events);
    assert s.queue[i] == s.sent[|s.received| + i] && s.queue[j] == s.sent[|s.received| + j];
  }

  lemma Extend(capacity: nat, events: seq<Event>, e: Event)
    requires Legal(capacity, events) && Enabled(capacity, Run(capacity, events), e)
    ensures Legal(capacity, events + [e]) && Run(capacity, events + [e]) == Next(Run(capacity, events), e, |events|)
  {
    assert (events + [e])[..|events|] == events;
  }

  /** Two producers can leave a stale operation behind a current one. */
  lemma TwoProducersInterleave(capacity: nat)
    requires capacity >= 2
    ensures exists events ::
      && Legal(capacity, events)
      && var s := Run(capacity, events);
         |s.queue| == 2 && s.queue[0].Audio? && s.queue[1].Audio? && !Stale(s.queue[0], s.generation) && Stale(s.queue[1], s.generation)
  {
    assert Legal(capacity, []);
    var e0: seq<Event> := [];
    Extend(capacity, e0, Stamp(0));
    var e1 := e0 + [Stamp(0)];
    Extend(capacity, e1, Cancel);
    var e2 := e1 + [Cancel];
    Extend(capacity, e2, Stamp(1));
    var e3 := e2 + [Stamp(1)];
    Extend(capacity, e3, Send(1));
    var e4 := e3 + [Send(1)];
    Extend(capacity, e4, Send(0));
    var e5 := e4 + [Send(0)];
    assert Run(capacity, e5).queue == [Audio(2, 1), Audio(0, 0)];
  }
}
