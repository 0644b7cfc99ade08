/** The queue of watched events an agent keeps between responses, and what becomes of each. */
module WatchRing {
  import opened Bytes
  import opened M64p

  const QUEUE: nat := 16
  const MAX_LEN: nat := 8

  predicate Small(events: seq<Event>) {
    forall e <- events :: |e.bytes| <= MAX_LEN
  }

  /** How many events, from the oldest, `room` bytes take. */
  function Fitting(queue: seq<Event>, room: int): (n: nat)
    ensures n <= |queue|
  {
    if queue == [] || 2 + |queue[0].bytes| > room then 0
    else 1 + Fitting(queue[1..], room - (2 + |queue[0].bytes|))
  }

  function EventsBytes(events: seq<Event>): (b: seq<byte>)
    requires Small(events)
  {
    Concat(EventParts(events))
  }

  function EventParts(events: seq<Event>): (parts: seq<seq<byte>>)
    requires Small(events)
    ensures |parts| == |events|
  {
    seq(|events|, i requires 0 <= i < |events| => assert events[i] in events; EventBytes(events[i]))
  }

  lemma SmallPart(events: seq<Event>, from: nat, to: nat)
    requires Small(events) && from <= to <= |events|
    ensures Small(events[from..to]) && Small(events[..to]) && Small(events[from..])
    ensures forall i :: 0 <= i < |events| ==> |events[i].bytes| <= MAX_LEN
  {
    assert forall i :: 0 <= i < |events| ==> events[i] in events;
    assert forall e <- events[from..to] :: e in events;
    assert forall e <- events[..to] :: e in events;
    assert forall e <- events[from..] :: e in events;
  }

  lemma EventsMore(events: seq<Event>, n: nat)
    requires Small(events) && n < |events|
    ensures Small(events[..n]) && Small(events[..n + 1]) && |events[n].bytes| <= MAX_LEN
    ensures EventsBytes(events[..n + 1]) == EventsBytes(events[..n]) + EventBytes(events[n])
  {
    hide EventBytes; hide Small; hide Concat;
    SmallPart(events, 0, n);
    SmallPart(events, 0, n + 1);
    assert EventParts(events[..n + 1]) == EventParts(events[..n]) + [EventBytes(events[n])];
    ConcatOne(EventParts(events[..n]), EventBytes(events[n]));
  }

  lemma EventsFront(events: seq<Event>)
    requires Small(events) && events != []
    ensures Small(events[1..]) && |events[0].bytes| <= MAX_LEN
    ensures EventsBytes(events) == EventBytes(events[0]) + EventsBytes(events[1..])
  {
    hide EventBytes; hide Small;
    SmallPart(events, 1, |events|);
    assert EventParts(events)[1..] == EventParts(events[1..]);
  }

  function EventBytes(e: Event): (b: seq<byte>)
    requires |e.bytes| <= MAX_LEN
    ensures |b| == 2 + |e.bytes|
  {
    [e.slot, |e.bytes|] + e.bytes
  }

  lemma NoEvents()
    ensures EventsBytes([]) == []
  {}

  /** The trailer of a response: how many events, how many are known lost, and the events. */
  function Trailer(queue: seq<Event>, dropped: uint16, room: int): (b: seq<byte>)
    requires Small(queue) && |queue| <= QUEUE
  {
    if room < 3 then []
    else
      var n := Fitting(queue, room - 3);
      [n] + Put16(dropped) + EventsBytes(queue[..n])
  }

  /** How many events a trailer in `room` bytes takes with it. */
  function Taken(queue: seq<Event>, room: int): (n: nat)
    ensures n <= |queue|
  {
    if room < 3 then 0 else Fitting(queue, room - 3)
  }

  /** An event no longer waiting: handed to the host, or lost. */
  datatype Settled = Settled(event: Event, handed: bool)

  /** What has been handed over, in the order it came. */
  function HandedOf(settled: seq<Settled>): (events: seq<Event>) {
    if settled == [] then []
    else
      var n := |settled| - 1;
      HandedOf(settled[..n]) + if settled[n].handed then [settled[n].event] else []
  }

  function LostOf(settled: seq<Settled>): (n: nat)
    ensures n + |HandedOf(settled)| == |settled|
  {
    if settled == [] then 0
    else
      var n := |settled| - 1;
      LostOf(settled[..n]) + if settled[n].handed then 0 else 1
  }

  /** Every event there has been, in the order it came. */
  function Came(settled: seq<Settled>, queue: seq<Event>): (events: seq<Event>)
    ensures |events| == |settled| + |queue|
  {
    seq(|settled|, i requires 0 <= i < |settled| => settled[i].event) + queue
  }

  /** The first `n` of the queue, settled. */
  function Settle(queue: seq<Event>, n: nat, handed: bool): (s: seq<Settled>)
    requires n <= |queue|
    ensures |s| == n
  {
    seq(n, i requires 0 <= i < n => Settled(queue[i], handed))
  }

  lemma {:induction false} SettleOf(settled: seq<Settled>, queue: seq<Event>, n: nat, handed: bool)
    requires n <= |queue|
    ensures var s := settled + Settle(queue, n, handed);
      && HandedOf(s) == HandedOf(settled) + (if handed then queue[..n] else [])
      && LostOf(s) == LostOf(settled) + (if handed then 0 else n)
  {
    hide HandedOf; hide LostOf;
    var s := settled + Settle(queue, n, handed);
    if n == 0 {
      assert s == settled;
    } else {
      var before := settled + Settle(queue, n - 1, handed);
      SettleOf(settled, queue, n - 1, handed);
      assert s == before + [Settled(queue[n - 1], handed)];
      SettleOne(before, Settled(queue[n - 1], handed));
      if handed {
        assert queue[..n] == queue[..n - 1] + [queue[n - 1]];
        AppendAssociates(HandedOf(settled), queue[..n - 1], [queue[n - 1]]);
      }
    }
  }

  lemma SettleOne(settled: seq<Settled>, one: Settled)
    ensures HandedOf(settled + [one]) == HandedOf(settled) + if one.handed then [one.event] else []
    ensures LostOf(settled + [one]) == LostOf(settled) + if one.handed then 0 else 1
  {
    assert (settled + [one])[..|settled|] == settled;
  }

  /** Settling events changes nothing of what came. */
  lemma CameSame(settled: seq<Settled>, queue: seq<Event>, n: nat, handed: bool)
    requires n <= |queue|
    ensures Came(settled + Settle(queue, n, handed), queue[n..]) == Came(settled, queue)
  {}

  function Saturated(n: nat): (d: uint16) {
    Min(n, 0xFFFF)
  }

  // ---- the ring ----

  function Slot(first: nat, i: nat): (at: nat)
    ensures at < QUEUE
  {
    (first + i) % QUEUE
  }

  ghost predicate Rings(ring: seq<Event>, first: nat, queue: seq<Event>) {
    |ring| == QUEUE && first < QUEUE && |queue| <= QUEUE && forall i :: 0 <= i < |queue| ==> ring[Slot(first, i)] == queue[i]
  }

  lemma RingsAppend(ring: seq<Event>, first: nat, queue: seq<Event>, e: Event)
    requires Rings(ring, first, queue) && |queue| < QUEUE
    ensures Rings(ring[Slot(first, |queue|) := e], first, queue + [e])
  {}

  lemma RingsDrop(ring: seq<Event>, first: nat, queue: seq<Event>, n: nat)
    requires Rings(ring, first, queue) && n <= |queue|
    ensures Rings(ring, Slot(first, n), queue[n..])
  {
    assert forall i :: 0 <= i < |queue| - n ==> Slot(Slot(first, n), i) == Slot(first, n + i);
  }

  /** An agent's ring of events: the oldest is lost to the newest when it is full. */
  class Ring {
    const events: array<Event>
    var first: nat
    var count: nat
    var dropped: uint16
    /** What waits, oldest first, and what has become of every event before since the ring was cleared. */
    ghost var queue: seq<Event>
    ghost var settled: seq<Settled>

    ghost predicate Valid()
      reads this, events
    {
      && events.Length == QUEUE && first < QUEUE && count <= QUEUE
      && Rings(events[..], first, queue) && |queue| == count && Small(queue) && dropped == Saturated(LostOf(settled))
    }

    constructor ()
      ensures Valid() && fresh(events) && queue == [] && settled == []
    {
      events := new Event[QUEUE](_ => Event(0, []));
      first, count, dropped := 0, 0, 0;
      queue, settled := [], [];
    }

    method Clear()
      requires Valid()
      modifies this
      ensures Valid() && queue == [] && settled == []
    {
      first, count, dropped := 0, 0, 0;
      queue, settled := [], [];
    }

    /** Appends one event. When full, the first goes and `dropped` rises. */
    method Push(e: Event)
      requires Valid() && |e.bytes| <= MAX_LEN
      modifies this, events
      ensures Valid() && Came(settled, queue) == old(Came(settled, queue)) + [e]
      ensures queue == (if old(|queue|) == QUEUE then old(queue)[1..] else old(queue)) + [e]
      ensures HandedOf(settled) == old(HandedOf(settled))
      ensures LostOf(settled) == old(LostOf(settled)) + if old(|queue|) == QUEUE then 1 else 0
    {
      hide HandedOf; hide LostOf; hide Rings; hide Came; hide Settle;
      if count == QUEUE {
        RingsDrop(events[..], first, queue, 1);
        SettleOf(settled, queue, 1, false);
        CameSame(settled, queue, 1, false);
        first := (first + 1) % QUEUE;
        count := count - 1;
        if dropped != 0xFFFF { dropped := dropped + 1; }
        settled, queue := settled + Settle(queue, 1, false), queue[1..];
      }
      RingsAppend(events[..], first, queue, e);
      var at := (first + count) % QUEUE;
      ghost var ring := events[..];
      events[at] := e;
      assert events[..] == ring[at := e];
      count := count + 1;
      CameMore(settled, queue, e);
      queue := queue + [e];
    }

    /** Put what fits in a response's trailer, and let it go. */
    method Drain(room: int) returns (b: seq<byte>)
      requires Valid()
      modifies this
      ensures Valid() && Came(settled, queue) == old(Came(settled, queue)) && LostOf(settled) == old(LostOf(settled))
      ensures b == Trailer(old(queue), dropped, room)
      ensures queue == old(queue)[Taken(old(queue), room)..]
      ensures HandedOf(settled) == old(HandedOf(settled)) + old(queue)[..Taken(old(queue), room)]
    {
      hide HandedOf; hide LostOf; hide Rings; hide Came; hide Settle;
      if room < 3 {
        assert old(queue)[0..] == old(queue);
        return [];
      }
      var n, out := Fill(room - 3);
      b := [n] + Put16(dropped) + out;
      RingsDrop(events[..], first, queue, n);
      SettleOf(settled, queue, n, true);
      CameSame(settled, queue, n, true);
      first := (first + n) % QUEUE;
      count := count - n;
      settled, queue := settled + Settle(queue, n, true), queue[n..];
    }

    /** The events that fit in `room` bytes. */
    method Fill(room: nat) returns (n: nat, out: seq<byte>)
      requires Valid()
      ensures n == Fitting(queue, room) && n <= QUEUE && out == EventsBytes(queue[..n])
    {
      hide Rings; hide EventBytes; hide EventsBytes;
      assert EventsBytes([]) == [] by { NoEvents(); }
      n, out := 0, [];
      assert queue[0..] == queue;
      while n < count && |out| + 2 + |Waiting(n).bytes| <= room
        invariant n <= count && out == EventsBytes(queue[..n])
        invariant Fitting(queue, room) == n + Fitting(queue[n..], room - |out|)
        decreases count - n
      {
        assert queue[n..][1..] == queue[n + 1..];
        EventsMore(queue, n);
        out := out + EventBytes(Waiting(n));
        n := n + 1;
      }
    }

    /** The `n`th event waiting. */
    function Waiting(n: nat): (e: Event)
      requires Valid() && n < count
      reads this, events
      ensures e == queue[n] && |e.bytes| <= MAX_LEN
    {
      var e := events[(first + n) % QUEUE];
      assert e == events[..][Slot(first, n)] && queue[n] in queue;
      e
    }
  }

  lemma CameMore(settled: seq<Settled>, queue: seq<Event>, e: Event)
    ensures Came(settled, queue + [e]) == Came(settled, queue) + [e]
  {}
}
