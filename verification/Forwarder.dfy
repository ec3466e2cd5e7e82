/** Forwarding watch events into a bounded queue: what is dropped is announced by
    a marker in its place. */
module Forwarder {
  import opened Bytes

  datatype Item = Event(body: Key) | Backpressure

  /** The queue, everything the consumer took from it so far, and the flag. */
  datatype State = State(queue: seq<Item>, taken: seq<Item>, overflow: bool, open: bool)

  datatype Input = Forward(body: Key) | Drain | Close

  const START := State([], [], false, true)

  function TrySend(s: State, x: Item, capacity: nat): State {
    if s.open && |s.queue| < capacity then s.(queue := s.queue + [x]) else s
  }

  function AfterForward(s: State, e: Key, capacity: nat): State {
    var room := s.open && |s.queue| < capacity;
    if s.overflow then
      TrySend(s, Backpressure, capacity).(overflow := s.open && !room)
    else
      TrySend(s, Event(e), capacity).(overflow := s.open && !room)
  }

  predicate Enabled(s: State, i: Input) {
    match i
    case Forward(_) => s.open                 // forwarding ends once the receiver is gone
    case Drain => s.queue != []
    case Close => s.open
  }

  function Next(s: State, i: Input, capacity: nat): State
    requires Enabled(s, i)
  {
    match i
    case Forward(e) => AfterForward(s, e, capacity)
    case Drain => s.(queue := s.queue[1..], taken := s.taken + [s.queue[0]])
    case Close => s.(open := false)
  }

  function Run(inputs: seq<Input>, capacity: nat): Option<State> {
    if inputs == [] then Some(START)
    else
      var n := |inputs| - 1;
      match Run(inputs[..n], capacity)
      case None => None
      case Some(s) => if Enabled(s, inputs[n]) then Some(Next(s, inputs[n], capacity)) else None
  }

  /** The events handed to the forwarder, in order. */
  function Offered(inputs: seq<Input>): seq<Key> {
    if inputs == [] then []
    else
      var n := |inputs| - 1;
      Offered(inputs[..n]) + if inputs[n].Forward? then [inputs[n].body] else []
  }

  /** `stream` is `events` with some disjoint blocks of two or more neighbours each
      replaced by one marker. */
  ghost predicate Abridges(stream: seq<Item>, events: seq<Key>)
    decreases |stream|
  {
    if stream == [] then events == []
    else
      var n := |stream| - 1;
      match stream[n]
      case Event(e) =>
        events != [] && events[|events| - 1] == e && Abridges(stream[..n], events[..|events| - 1])
      case Backpressure => exists cut: nat :: cut + 2 <= |events| && Abridges(stream[..n], events[..cut])
  }

  /** All but the last `gap` events are accounted for. */
  ghost predicate Inv(s: State, events: seq<Key>, gap: nat, capacity: nat) {
    && gap <= |events|
    && Abridges(s.taken + s.queue, events[..|events| - gap])
    && (s.overflow <==> gap > 0)
    && |s.queue| <= capacity
  }

  lemma {:induction false} SnocEvent(stream: seq<Item>, events: seq<Key>, e: Key)
    requires Abridges(stream, events)
    ensures Abridges(stream + [Event(e)], events + [e])
  {
    assert (stream + [Event(e)])[..|stream|] == stream;
    assert (events + [e])[..|events|] == events;
  }

  lemma {:induction false} SnocMarker(stream: seq<Item>, events: seq<Key>, cut: nat)
    requires cut + 2 <= |events| && Abridges(stream, events[..cut])
    ensures Abridges(stream + [Backpressure], events)
  {
    assert (stream + [Backpressure])[..|stream|] == stream;
  }

  lemma ForwardKeeps(s: State, e: Key, events: seq<Key>, gap: nat, capacity: nat) returns (gap': nat)
    requires Inv(s, events, gap, capacity) && s.open
    ensures Inv(AfterForward(s, e, capacity), events + [e], gap', capacity)
  {
    var s', all := AfterForward(s, e, capacity), events + [e];
    var room := |s.queue| < capacity;
    if !room {
      gap' := gap + 1;
      assert all[..|all| - gap'] == events[..|events| - gap];
    } else if s.overflow {
      gap' := 0;
      assert all[..|events| - gap] == events[..|events| - gap];
      SnocMarker(s.taken + s.queue, all, |events| - gap);
      assert s'.taken + s'.queue == (s.taken + s.queue) + [Backpressure];
      assert all[..|all| - gap'] == all;
    } else {
      gap' := 0;
      assert events[..|events| - gap] == events;
      SnocEvent(s.taken + s.queue, events, e);
      assert s'.taken + s'.queue == (s.taken + s.queue) + [Event(e)];
      assert all[..|all| - gap'] == all;
    }
  }

  lemma {:induction false} RunInv(inputs: seq<Input>, capacity: nat) returns (gap: nat)
    requires Run(inputs, capacity).Some?
    ensures Inv(Run(inputs, capacity).value, Offered(inputs), gap, capacity)
  {
    if inputs == [] {
      gap := 0;
    } else {
      var n := |inputs| - 1;
      gap := RunInv(inputs[..n], capacity);
      var s := Run(inputs[..n], capacity).value;
      match inputs[n]
      case Forward(e) => gap := ForwardKeeps(s, e, Offered(inputs[..n]), gap, capacity);
      case Drain =>
        var s' := Next(s, Drain, capacity);
        assert s'.taken + s'.queue == s.taken + s.queue;
        assert Offered(inputs) == Offered(inputs[..n]);
      case Close => assert Offered(inputs) == Offered(inputs[..n]);
    }
  }

  /** The stream accounts for the first `kept` events; the flag tells of the rest. */
  ghost predicate Accounted(s: State, events: seq<Key>, kept: nat) {
    && kept <= |events|
    && Abridges(s.taken + s.queue, events[..kept])
    && (s.overflow <==> kept < |events|)
  }

  ghost predicate IsAccounted(s: State, events: seq<Key>) {
    exists kept: nat :: Accounted(s, events, kept)
  }

  lemma InvAccounts(s: State, events: seq<Key>, gap: nat, capacity: nat)
    requires Inv(s, events, gap, capacity)
    ensures IsAccounted(s, events)
  {
    assert Accounted(s, events, |events| - gap);
  }

  /** In every run: the queue never exceeds its capacity; what the consumer has
      taken or will take is the offered events with blocks of two or more dropped
      ones each replaced by one marker, up to a dropped tail not yet announced;
      and the flag is up exactly while there is such a tail. */
  lemma {:induction false} DropsAreAnnounced(inputs: seq<Input>, capacity: nat)
    requires Run(inputs, capacity).Some?
    ensures |Run(inputs, capacity).value.queue| <= capacity
    ensures IsAccounted(Run(inputs, capacity).value, Offered(inputs))
  {
    var gap := RunInv(inputs, capacity);
    InvAccounts(Run(inputs, capacity).value, Offered(inputs), gap, capacity);
  }

  ghost predicate NoMarker(stream: seq<Item>) {
    forall i :: 0 <= i < |stream| ==> stream[i].Event?
  }

  /** A stream without markers is complete: nothing was dropped before its end. */
  lemma {:induction false} SilenceIsComplete(stream: seq<Item>, events: seq<Key>)
    requires Abridges(stream, events) && NoMarker(stream)
    ensures |stream| == |events| && forall i :: 0 <= i < |stream| ==> stream[i] == Event(events[i])
    decreases |stream|
  {
    if stream != [] {
      var n := |stream| - 1;
      SilenceIsComplete(stream[..n], events[..|events| - 1]);
      forall i | 0 <= i < |stream| ensures stream[i] == Event(events[i]) {
        if i < n {
          assert stream[i] == stream[..n][i];
        }
      }
    }
  }

  lemma {:induction false} PrefixAbridges(stream: seq<Item>, events: seq<Key>, b: nat) returns (m: nat)
    requires Abridges(stream, events) && b <= |stream|
    ensures m <= |events| && Abridges(stream[..b], events[..m])
    decreases |stream|
  {
    var n := |stream| - 1;
    if b == |stream| {
      m := |events|;
      assert stream[..b] == stream && events[..m] == events;
    } else {
      assert stream[..n][..b] == stream[..b];
      var cut: nat;
      match stream[n]
      case Event(_) =>
        cut := |events| - 1;
        m := PrefixAbridges(stream[..n], events[..cut], b);
        assert events[..cut][..m] == events[..m];
      case Backpressure =>
        cut :| cut + 2 <= |events| && Abridges(stream[..n], events[..cut]);
        m := PrefixAbridges(stream[..n], events[..cut], b);
        assert events[..cut][..m] == events[..m];
    }
  }

  lemma {:induction false} TailIsComplete(stream: seq<Item>, events: seq<Key>, a: nat)
    requires Abridges(stream, events) && a <= |stream| && NoMarker(stream[a..])
    ensures |stream| - a <= |events|
    ensures forall i :: a <= i < |stream| ==> stream[i] == Event(events[|events| - |stream| + i])
    decreases |stream|
  {
    if a < |stream| {
      var n, m := |stream| - 1, |events| - 1;
      assert stream[a..][n - a] == stream[n];
      assert stream[..n][a..] == stream[a..][..n - a];
      TailIsComplete(stream[..n], events[..m], a);
      forall i | a <= i < |stream| ensures stream[i] == Event(events[|events| - |stream| + i]) {
        if i < n {
          assert stream[..n][i] == stream[i];
        }
      }
    }
  }

  /** Two events with no marker between them were neighbours in the input, with all
      that lies between them: any marker-free stretch of the stream is a stretch of
      the events. */
  lemma StretchIsComplete(stream: seq<Item>, events: seq<Key>, a: nat, b: nat) returns (o: nat)
    requires Abridges(stream, events) && a <= b <= |stream| && NoMarker(stream[a..b])
    ensures o + (b - a) <= |events|
    ensures forall i :: a <= i < b ==> stream[i] == Event(events[o + (i - a)])
  {
    var m := PrefixAbridges(stream, events, b);
    assert stream[..b][a..] == stream[a..b];
    TailIsComplete(stream[..b], events[..m], a);
    o := m - (b - a);
    forall i | a <= i < b ensures stream[i] == Event(events[o + (i - a)]) {
      assert stream[..b][i] == stream[i];
    }
  }

  // ----- As it runs -----

  datatype Sent = Okay | Full | Closed

  class Channel {
    const capacity: nat
    var queue: seq<Item>
    var taken: seq<Item>
    var open: bool

    constructor (capacity: nat)
      ensures this.capacity == capacity && queue == [] && taken == [] && open
    {
      this.capacity := capacity;
      queue, taken, open := [], [], true;
    }

    ghost function Contents(overflow: bool): State
      reads this
    {
      State(queue, taken, overflow, open)
    }

    method Send(x: Item) returns (r: Sent)
      modifies this`queue
      ensures r == if !open then Closed else if |old(queue)| < capacity then Okay else Full
      ensures queue == if r.Okay? then old(queue) + [x] else old(queue)
    {
      if !open {
        return Closed;
      }
      if |queue| >= capacity {
        return Full;
      }
      queue := queue + [x];
      return Okay;
    }
  }

  /** `forward_watch_event`: false exactly when the receiver is gone. */
  method ForwardWatchEvent(tx: Channel, body: Key, overflow: bool) returns (alive: bool, overflow': bool)
    modifies tx`queue
    ensures alive == tx.open
    ensures tx.open ==> tx.Contents(overflow') == AfterForward(old(tx.Contents(overflow)), body, tx.capacity)
    ensures !tx.open ==> tx.queue == old(tx.queue) && overflow' == overflow
  {
    overflow' := overflow;
    if overflow {
      var r := tx.Send(Backpressure);
      match r {
        case Okay =>
          overflow' := false;
          return true, overflow';
        case Full => return true, overflow';
        case Closed => return false, overflow';
      }
    }
    var r := tx.Send(Event(body));
    match r {
      case Okay => return true, overflow';
      case Full => return true, true;
      case Closed => return false, overflow';
    }
  }

  // ----- The stream, told from the inputs -----

  /** How many items wait in the queue. */
  function Waiting(inputs: seq<Input>, capacity: nat): int {
    if inputs == [] then 0
    else
      var n := |inputs| - 1;
      var w := Waiting(inputs[..n], capacity);
      match inputs[n]
      case Forward(_) => if w < capacity then w + 1 else w
      case Drain => w - 1
      case Close => w
  }

  /** The last event offered found the queue full. */
  predicate MissedLast(inputs: seq<Input>, capacity: nat) {
    inputs != [] &&
    var n := |inputs| - 1;
    if inputs[n].Forward? then Waiting(inputs[..n], capacity) >= capacity else MissedLast(inputs[..n], capacity)
  }

  /** One item for each event that found room: the event itself, or a marker if the
      one offered just before it had been missed. */
  function Passed(inputs: seq<Input>, capacity: nat): seq<Item> {
    if inputs == [] then []
    else
      var n := |inputs| - 1;
      if inputs[n].Forward? && Waiting(inputs[..n], capacity) < capacity then
        Passed(inputs[..n], capacity)
        + [if MissedLast(inputs[..n], capacity) then Backpressure else Event(inputs[n].body)]
      else Passed(inputs[..n], capacity)
  }

  lemma StepSends(s: State, e: Key, capacity: nat)
    requires s.open
    ensures var t := AfterForward(s, e, capacity);
            && t.taken + t.queue == s.taken + s.queue
                                    + (if |s.queue| >= capacity then []
                                       else [if s.overflow then Backpressure else Event(e)])
            && |t.queue| == (if |s.queue| < capacity then |s.queue| + 1 else |s.queue|)
            && (t.overflow <==> |s.queue| >= capacity)
  {
  }

  /** An event is dropped only when the queue is full or a marker takes its place:
      the consumer's stream and the queue are exactly what the inputs send. */
  lemma {:induction false} StreamIs(inputs: seq<Input>, capacity: nat)
    requires Run(inputs, capacity).Some?
    ensures var s := Run(inputs, capacity).value;
            && s.taken + s.queue == Passed(inputs, capacity)
            && |s.queue| == Waiting(inputs, capacity)
            && (s.overflow <==> MissedLast(inputs, capacity))
            && (s.open <==> Close !in inputs)
  {
    if inputs != [] {
      var n := |inputs| - 1;
      StreamIs(inputs[..n], capacity);
      assert inputs == inputs[..n] + [inputs[n]];
      var s := Run(inputs[..n], capacity).value;
      if inputs[n].Drain? {
        assert s.taken + [s.queue[0]] + s.queue[1..] == s.taken + s.queue;
      } else if inputs[n].Forward? {
        StepSends(s, inputs[n].body, capacity);
      }
    }
  }
}
