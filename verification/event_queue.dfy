/** A first-in first-out queue of input events. */
module EventQueues {
  import opened Wrappers
  import opened Events

  /** `events` is a counter the queue declares but never changes. */
  datatype EventQueue = EventQueue(queue: seq<Event>, events: nat)

  function New(): (r: EventQueue)
    ensures |r.queue| == 0 && r.events == 0
  {
    EventQueue([], 0)
  }

  /** Appends at the back. */
  function AddEvent(q: EventQueue, event: Event): (r: EventQueue)
    ensures |r.queue| == |q.queue| + 1
    ensures r.queue[|q.queue|] == event
    ensures r.queue[..|q.queue|] == q.queue
    ensures r.events == q.events
  {
    q.(queue := q.queue + [event])
  }

  /** Takes from the front: nothing from an empty queue. */
  function GetEvent(q: EventQueue): (r: (Option<Event>, EventQueue))
    ensures |q.queue| == 0 <==> r.0 == None
    ensures |q.queue| == 0 ==> r.1 == q
    ensures |q.queue| > 0 ==> r.0 == Some(q.queue[0]) && [q.queue[0]] + r.1.queue == q.queue
    ensures r.1.events == q.events
  {
    if |q.queue| == 0 then (None, q) else (Some(q.queue[0]), q.(queue := q.queue[1..]))
  }

  /** Repeated `GetEvent` until it yields nothing: the events it delivers, in order. */
  function Drain(q: EventQueue): (r: seq<Event>)
    ensures r == q.queue
    decreases |q.queue|
  {
    match GetEvent(q)
    case (None, _) => []
    case (Some(e), rest) => [e] + Drain(rest)
  }

  /** Adds the events one after the other. */
  function AddAll(q: EventQueue, events: seq<Event>): (r: EventQueue)
    ensures r.queue == q.queue + events
    ensures r.events == q.events
    decreases |events|
  {
    if |events| == 0 then q
    else
      var r := AddAll(AddEvent(q, events[0]), events[1..]);
      assert [events[0]] + events[1..] == events;
      r
  }

  /** A new queue delivers nothing. */
  lemma NewQueueIsEmpty()
    ensures GetEvent(New()).0 == None
    ensures Drain(New()) == []
  {
  }

  /** Whatever kinds of event were added, draining a fresh queue returns them in the order added. */
  lemma DrainYieldsInsertionOrder(events: seq<Event>)
    ensures Drain(AddAll(New(), events)) == events
  {
  }

  /** One step of a client: add an event or ask for one. */
  datatype Op = Add(event: Event) | Get

  /** Performs the steps in order; returns the events the `Get` steps
      received (the ones that found the queue empty receive nothing) and the final queue. */
  function Replay(q: EventQueue, ops: seq<Op>): (r: (seq<Event>, EventQueue))
    ensures r.1.events == q.events
    decreases |ops|
  {
    if |ops| == 0 then ([], q)
    else
      match ops[0]
      case Add(e) => Replay(AddEvent(q, e), ops[1..])
      case Get =>
        var (got, q') := GetEvent(q);
        var (rest, final) := Replay(q', ops[1..]);
        (if got.Some? then [got.value] + rest else rest, final)
  }

  /** The events the `Add` steps put in, in order. */
  function Added(ops: seq<Op>): (r: seq<Event>)
    ensures |r| <= |ops|
    decreases |ops|
  {
    if |ops| == 0 then []
    else (if ops[0].Add? then [ops[0].event] else []) + Added(ops[1..])
  }

  /** FIFO under any interleaving: what was received followed by what is still
      queued is exactly what was queued at the start followed by everything added. */
  lemma {:induction false} ReplayIsFifo(q: EventQueue, ops: seq<Op>)
    ensures Replay(q, ops).0 + Replay(q, ops).1.queue == q.queue + Added(ops)
    decreases |ops|
  {
    if |ops| > 0 {
      var tail := ops[1..];
      if ops[0].Add? {
        var e := ops[0].event;
        ReplayAddStep(q, ops);
        ReplayIsFifo(AddEvent(q, e), tail);
        AppendAssoc(q.queue, [e], Added(tail));
      } else if |q.queue| == 0 {
        ReplayGetStep(q, ops);
        ReplayIsFifo(q, tail);
      } else {
        var q' := q.(queue := q.queue[1..]);
        ReplayGetStep(q, ops);
        ReplayIsFifo(q', tail);
        AppendAssoc([q.queue[0]], Replay(q', tail).0, Replay(q', tail).1.queue);
        AppendAssoc([q.queue[0]], q'.queue, Added(tail));
      }
    }
  }

  lemma AppendAssoc(a: seq<Event>, b: seq<Event>, c: seq<Event>)
    ensures a + b + c == a + (b + c)
  {
  }

  /** One `Add` step of `Replay`, unfolded. */
  lemma ReplayAddStep(q: EventQueue, ops: seq<Op>)
    requires |ops| > 0 && ops[0].Add?
    ensures Replay(q, ops) == Replay(AddEvent(q, ops[0].event), ops[1..])
    ensures Added(ops) == [ops[0].event] + Added(ops[1..])
  {
  }

  /** One `Get` step of `Replay`, unfolded. */
  lemma ReplayGetStep(q: EventQueue, ops: seq<Op>)
    requires |ops| > 0 && ops[0].Get?
    ensures Added(ops) == Added(ops[1..])
    ensures |q.queue| == 0 ==> Replay(q, ops) == Replay(q, ops[1..])
    ensures |q.queue| > 0 ==>
      var q' := q.(queue := q.queue[1..]);
      Replay(q, ops) == ([q.queue[0]] + Replay(q', ops[1..]).0, Replay(q', ops[1..]).1)
  {
  }
}
