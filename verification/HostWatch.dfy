/** The host's end of a watched slot: changes kept for a client that reads the slot more slowly than it changes. */
module HostWatch {
  import opened Bytes
  import opened M64p
  import opened WatchRing

  const QUEUE_CAP: nat := 16

  /** Only changes with one of these values at one byte count. */
  datatype Filter = Filter(at: nat, values: seq<byte>)

  predicate Admits(filter: Option<Filter>, value: seq<byte>) {
    filter.Some? ==> filter.value.at < |value| && value[filter.value.at] in filter.value.values
  }

  /** A sample worth keeping: not the first, not the same again, not the slot being cleared, and let through. */
  predicate Worth(last: Option<seq<byte>>, now: seq<byte>, filter: Option<Filter>) {
    && last.Some? && now != last.value && (exists k :: 0 <= k < |now| && now[k] != 0)
    && Admits(filter, now)
  }

  function AsEvents(queue: seq<seq<byte>>): (events: seq<Event>)
    ensures |events| == |queue|
  {
    seq(|queue|, i requires 0 <= i < |queue| => Event(0, queue[i]))
  }

  class Watch {
    const len: nat
    const filter: Option<Filter>
    var last: Option<seq<byte>>
    var queue: seq<seq<byte>>
    var queued: nat
    var replayed: nat
    var dropped: nat
    /** What has become of every value kept and no longer waiting, and how many an agent said it had lost. */
    ghost var settled: seq<Settled>
    ghost var told: nat

    /** The values waiting, as events of the one slot. */
    ghost function Waiting(): (events: seq<Event>)
      reads this
      ensures |events| == |queue|
    {
      AsEvents(queue)
    }

    ghost predicate Valid()
      reads this
    {
      && |queue| <= QUEUE_CAP && (forall v <- queue :: |v| == len) && (last.Some? ==> |last.value| == len)
      && queued == |settled| + |queue| && replayed == |HandedOf(settled)|
      && (LostOf(settled) + told <= 0xFFFF_FFFF ==> dropped == LostOf(settled) + told)
    }

    /** All values kept so far, oldest first. */
    ghost function Kept(): (values: seq<Event>)
      reads this
    {
      Came(settled, Waiting())
    }

    constructor (len: nat, filter: Option<Filter>)
      ensures Valid() && this.len == len && this.filter == filter && last == None && Kept() == [] && queue == []
    {
      this.len, this.filter, last, queue := len, filter, None, [];
      queued, replayed, dropped, settled, told := 0, 0, 0, [], 0;
    }

    /** Appends a value; a full queue drops its first and counts it. */
    method Push(bytes: seq<byte>)
      requires Valid() && |bytes| == len
      modifies this`queue, this`queued, this`dropped, this`settled
      ensures Valid() && Kept() == old(Kept()) + [Event(0, bytes)] && HandedOf(settled) == old(HandedOf(settled))
      ensures queue == (if |old(queue)| == QUEUE_CAP then old(queue)[1..] else old(queue)) + [bytes]
    {
      hide HandedOf; hide LostOf; hide Came; hide Settle; hide AsEvents;
      if |queue| == QUEUE_CAP {
        var lost := PopFront(false);
        dropped := dropped + 1;
      }
      CameMore(settled, Waiting(), Event(0, bytes));
      AsMore(queue, bytes);
      queue, queued := queue + [bytes], queued + 1;
    }

    /** The oldest, no longer waiting: handed over, or lost. */
    method PopFront(ghost handed: bool) returns (v: seq<byte>)
      requires |queue| > 0
      modifies this`queue, this`settled
      ensures v == old(queue)[0] && queue == old(queue)[1..] && Kept() == old(Kept()) && |settled| == |old(settled)| + 1
      ensures HandedOf(settled) == old(HandedOf(settled)) + if handed then [Event(0, v)] else []
      ensures LostOf(settled) == old(LostOf(settled)) + if handed then 0 else 1
    {
      hide HandedOf; hide LostOf; hide Came; hide Settle; hide AsEvents;
      ghost var waiting := Waiting();
      SettleOf(settled, waiting, 1, handed);
      CameSame(settled, waiting, 1, handed);
      AsFirst(queue);
      v := queue[0];
      settled, queue := settled + Settle(waiting, 1, handed), queue[1..];
    }

    /** One reading of the watched bytes, appended if it differs from the last and the filter admits it. */
    method Observe(bytes: seq<byte>)
      requires Valid()
      modifies this`last, this`queue, this`queued, this`dropped, this`settled
      ensures Valid() && HandedOf(settled) == old(HandedOf(settled))
      ensures last == if |bytes| == len then Some(bytes) else old(last)
      ensures Kept() == old(Kept()) + if |bytes| == len && Worth(old(last), bytes, filter) then [Event(0, bytes)] else []
    {
      hide HandedOf; hide LostOf; hide Came;
      if |bytes| != len { return; }
      var was := last;
      last := Some(bytes);
      if was == None || was.value == bytes { return; }
      var zero := forall k :: 0 <= k < |bytes| ==> bytes[k] == 0;
      if zero || !Admits(filter, bytes) { return; }
      Push(bytes);
    }

    /** A change an agent saw, and kept by the same rules. */
    method PushEvent(bytes: seq<byte>)
      requires Valid()
      modifies this`queue, this`queued, this`dropped, this`settled
      ensures Valid() && last == old(last) && HandedOf(settled) == old(HandedOf(settled))
      ensures Kept() == old(Kept()) + if |bytes| == len then [Event(0, bytes)] else []
    {
      if |bytes| == len { Push(bytes); }
    }

    method AddDropped(n: uint32)
      requires Valid()
      modifies this`dropped, this`told
      ensures Valid() && Kept() == old(Kept()) && told == old(told) + n
    {
      dropped, told := Min(dropped + n, 0xFFFF_FFFF), told + n;
    }

    /** The oldest change not handed over yet, if there is one. */
    method Take() returns (v: Option<seq<byte>>)
      requires Valid()
      modifies this`queue, this`settled, this`replayed
      ensures Valid() && Kept() == old(Kept()) && (v == None <==> old(queue) == [])
      ensures HandedOf(settled) == old(HandedOf(settled)) + match v case Some(b) => [Event(0, b)] case None => []
      ensures v.Some? ==> v.value == old(queue)[0] && queue == old(queue)[1..]
    {
      hide HandedOf; hide LostOf; hide Came;
      if queue == [] { return None; }
      var b := PopFront(true);
      replayed := replayed + 1;
      v := Some(b);
    }
  }

  lemma AsMore(queue: seq<seq<byte>>, v: seq<byte>)
    ensures AsEvents(queue + [v]) == AsEvents(queue) + [Event(0, v)]
  {}

  lemma AsFirst(queue: seq<seq<byte>>)
    requires queue != []
    ensures AsEvents(queue)[..1] == [Event(0, queue[0])] && AsEvents(queue)[1..] == AsEvents(queue[1..])
  {}

  /** `some` in the order of `all`. */
  ghost predicate Among(some: seq<Event>, all: seq<Event>)
    decreases |all|
  {
    if some == [] then true
    else all != [] && ((some[|some| - 1] == all[|all| - 1] && Among(some[..|some| - 1], all[..|all| - 1])) || Among(some, all[..|all| - 1]))
  }

  lemma {:induction false} HandedAmong(settled: seq<Settled>, queue: seq<Event>)
    ensures Among(HandedOf(settled), Came(settled, queue))
    decreases |settled| + |queue|
  {
    var all := Came(settled, queue);
    if queue != [] {
      assert all[..|all| - 1] == Came(settled, queue[..|queue| - 1]);
      HandedAmong(settled, queue[..|queue| - 1]);
    } else if settled != [] {
      var n := |settled| - 1;
      assert all[..n] == Came(settled[..n], []) && all[n] == settled[n].event;
      HandedAmong(settled[..n], []);
      var some, before := HandedOf(settled), HandedOf(settled[..n]);
      if settled[n].handed {
        assert some == before + [all[n]] && some[..|some| - 1] == before;
      } else {
        assert some == before;
      }
    }
  }

  /**
   * What has been handed over is some of the values kept, in their order; the rest wait, at most sixteen of them,
   * or were lost and are counted.
   */
  lemma TakenInOrder(w: Watch)
    requires w.Valid()
    ensures Among(HandedOf(w.settled), w.Kept()) && |w.queue| <= QUEUE_CAP && w.queued == |w.Kept()|
    ensures w.queued == w.replayed + LostOf(w.settled) + |w.queue|
  {
    HandedAmong(w.settled, w.Waiting());
  }
}
