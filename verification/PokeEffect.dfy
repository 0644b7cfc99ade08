/** What a write's copies do to memory over a link, however many of them arrive. */
module PokeEffect {
  import opened Bytes
  import opened M64p
  import opened MemProto
  import opened AtMostOnce
  import opened Link
  import opened M64pRoundTrip
  import opened WriteMerge
  import opened Multi64

  // ---- writing again what is written ----

  /** Applying `p` to `ram` changes nothing. */
  predicate Harmless(ram: seq<byte>, p: seq<byte>)
    requires |ram| <= 0xFFFF_FFFF
  {
    Takes(|ram|, p) ==> Written(ram, p) == ram
  }

  /** A write taken leaves memory as its writes in turn would. */
  lemma WrittenIs(ram: seq<byte>, rid: uint16, ws: seq<Write>)
    requires |ram| <= 0xFFFF_FFFF && Limits(WriteLengths(ws)).None? && Takes(|ram|, Poke(rid, ws))
    ensures (forall w <- ws :: w.addr as int + |w.data| <= |ram|) && Written(ram, Poke(rid, ws)) == WriteAll(ram, ws)
  {
    hide Validate; hide WriteBlocks; hide WriteAll; hide WritesAt; hide Poke; hide Limits; hide StandAt; hide WritesBytes;
    PokeBodyIs(rid, ws);
    PokeHolds(rid, ws);
    var p := Poke(rid, ws);
    assert p[7] == p[5..][2] == |ws|;
    BlocksAreWrites(ram, p[5..], 3, |ws|, 0);
  }

  /** Writes made twice leave what they left the first time. */
  lemma TwiceIsOnce(ram: seq<byte>, ws: seq<Write>)
    requires forall w <- ws :: w.addr as int + |w.data| <= |ram|
    ensures WriteAll(WriteAll(ram, ws), ws) == WriteAll(ram, ws)
  {
    hide WriteAll; hide BytesOf;
    var once := WriteAll(ram, ws);
    forall a | 0 <= a < |ram| ensures WriteAll(once, ws)[a] == once[a] {
      WriteAllIs(ram, ws, a);
      WriteAllIs(once, ws, a);
    }
  }

  lemma WrittenTwice(ram: seq<byte>, rid: uint16, ws: seq<Write>)
    requires |ram| <= 0xFFFF_FFFF && Limits(WriteLengths(ws)).None? && Takes(|ram|, Poke(rid, ws))
    ensures Harmless(Written(ram, Poke(rid, ws)), Poke(rid, ws))
  {
    hide WriteAll; hide Written; hide Takes; hide Poke; hide Limits;
    WrittenIs(ram, rid, ws);
    WrittenIs(WriteAll(ram, ws), rid, ws);
    TwiceIsOnce(ram, ws);
  }

  /** Writes one list after another are writes of both. */
  lemma {:induction false} WriteAllMore(ram: seq<byte>, a: seq<Write>, b: seq<Write>)
    requires (forall w <- a :: w.addr as int + |w.data| <= |ram|) && (forall w <- b :: w.addr as int + |w.data| <= |ram|)
    ensures WriteAll(ram, a + b) == WriteAll(WriteAll(ram, a), b)
    decreases |a|
  {
    hide Overwrite;
    if a == [] {
      assert a + b == b;
    } else {
      assert a[0] in a && forall w <- a[1..] :: w in a;
      assert (a + b)[0] == a[0] && (a + b)[1..] == a[1..] + b;
      WriteAllMore(Overwrite(ram, a[0].addr, a[0].data), a[1..], b);
    }
  }

  // ---- what a link brings ----

  /** What is left of two stretches sent, some of it lost, is something of the one and then of the other. */
  lemma LossyCut(u: seq<seq<byte>>, v: seq<seq<byte>>, msgs: seq<seq<byte>>) returns (cut: nat)
    requires Lossy(u + v, msgs)
    ensures cut <= |msgs| && (forall i :: 0 <= i < cut ==> msgs[i] in u) && (forall i :: cut <= i < |msgs| ==> msgs[i] in v)
  {
    var at: seq<nat> :| Picks(u + v, at, msgs);
    cut := 0;
    while cut < |msgs| && at[cut] < |u|
      invariant cut <= |msgs| && forall i :: 0 <= i < cut ==> msgs[i] in u
    {
      cut := cut + 1;
    }
    forall i | cut <= i < |msgs| ensures msgs[i] in v {
      assert cut < |msgs| && at[i] >= at[cut] >= |u|;
      assert msgs[i] == v[at[i] - |u|];
    }
  }

  /** `p`, or something that writes nothing. */
  ghost predicate Only(p: seq<byte>, msgs: seq<seq<byte>>) {
    forall m <- msgs :: m == p || !IsPoke(m)
  }

  /** Harmless requests, and then copies of `p`: memory is as it was until one is applied, and as that one leaves it ever after. */
  lemma {:induction false} RamOnce(ram: seq<byte>, hold: Option<Held>, msgs: seq<seq<byte>>, cut: nat, p: seq<byte>)
    requires |ram| <= 0xFFFF_FFFF && (forall i :: 0 <= i < cut && i < |msgs| ==> Harmless(ram, msgs[i]))
    requires forall i :: cut <= i < |msgs| ==> msgs[i] == p || !IsPoke(msgs[i])
    requires Takes(|ram|, p) && Harmless(Written(ram, p), p)
    ensures RamOver(ram, hold, msgs)
         == if exists k :: cut <= k < |msgs| && AppliedAt(|ram|, hold, msgs, k) then Written(ram, p) else ram
    decreases |msgs|
  {
    hide Takes; hide Written; hide IsCopy; hide HoldOver;
    if msgs != [] {
      var n := |msgs| - 1;
      var rest := msgs[..n];
      RamOnce(ram, hold, rest, cut, p);
      forall k | cut <= k < n ensures AppliedAt(|ram|, hold, rest, k) == AppliedAt(|ram|, hold, msgs, k) {
        AppliedBefore(|ram|, hold, rest, [msgs[n]], k);
        assert rest + [msgs[n]] == msgs;
      }
      if Takes(|ram|, msgs[n]) { TakesPoke(|ram|, msgs[n]); }
      assert AppliedAt(|ram|, hold, msgs, n) == Applies(|ram|, HoldOver(|ram|, hold, rest), msgs[n]);
    }
  }

  /** The agent's memory is `ram`, nothing else writes it, and nothing on its way changes it. */
  ghost predicate Ready(w: Wire, ram: seq<byte>) {
    w.still && |ram| <= MAX_RAM && w.agent.ram == ram && forall m <- w.outbound :: Harmless(ram, m)
  }

  /** Once a write has landed, memory is what it makes it, and nothing still on its way changes that. */
  lemma LandedWrites(a: Wire, sent: seq<seq<byte>>, b: Wire, rid: uint16, ws: seq<Write>, ram: seq<byte>)
    requires Limits(WriteLengths(ws)).None? && Ready(a, ram) && Runs(a, sent, b) && Quiet(a, rid)
    requires Only(Poke(rid, ws), sent) && Landed(a, b, Poke(rid, ws))
    ensures (forall w <- ws :: w.addr as int + |w.data| <= |ram|) && Ready(b, WriteAll(ram, ws))
  {
    var p := Poke(rid, ws);
    hide Lossy; hide Fresh; hide WriteAll; hide Written; hide Takes; hide Poke; hide Limits; hide IsCopy; hide HoldOver; hide RamOver;
    hide MsgRid; hide Harmless;
    var later := New(a, b);
    var k :| 0 <= k < |later| && later[k] == p && AppliedAt(|ram|, a.agent.hold, later, k);
    WrittenIs(ram, rid, ws);
    WrittenTwice(ram, rid, ws);
    PokeIs(rid, ws);
    var cut := LossyCut(a.outbound, sent, later + b.outbound);
    PartsOf(later, b.outbound, cut, k, a.outbound, sent, p);
    RamOnce(ram, a.agent.hold, later, cut, p);
    forall m | m in b.outbound ensures Harmless(WriteAll(ram, ws), m) {
      assert m in sent;
      if m != p { NotTaken(WriteAll(ram, ws), m); }
    }
  }

  lemma PartsOf(later: seq<seq<byte>>, rest: seq<seq<byte>>, cut: nat, k: nat, u: seq<seq<byte>>, v: seq<seq<byte>>, p: seq<byte>)
    requires k < |later| && later[k] == p && p !in u && cut <= |later + rest|
    requires forall i :: 0 <= i < cut ==> (later + rest)[i] in u
    requires forall i :: cut <= i < |later + rest| ==> (later + rest)[i] in v
    ensures cut <= k && (forall m <- rest :: m in v)
    ensures (forall i :: 0 <= i < cut ==> later[i] in u) && (forall i :: cut <= i < |later| ==> later[i] in v)
  {
    assert (later + rest)[k] == p;
    assert forall i :: 0 <= i < |later| ==> (later + rest)[i] == later[i];
    assert forall i :: 0 <= i < |rest| ==> (later + rest)[|later| + i] == rest[i];
  }

  /**
   * A write put on the link and given up on: memory is as it was or as the write leaves it, whatever of it has arrived
   * and whatever of it still does.
   */
  lemma GivenUp(a: Wire, sent: seq<seq<byte>>, b: Wire, rid: uint16, ws: seq<Write>, ram: seq<byte>)
    requires Limits(WriteLengths(ws)).None? && Ready(a, ram) && Runs(a, sent, b) && Only(Poke(rid, ws), sent)
    ensures b.still && (b.agent.ram == ram || ((forall w <- ws :: w.addr as int + |w.data| <= |ram|) && b.agent.ram == WriteAll(ram, ws)))
  {
    var p := Poke(rid, ws);
    hide Fresh; hide WriteAll; hide Written; hide Takes; hide Poke; hide Limits; hide IsCopy; hide HoldOver; hide RamOver;
    hide Harmless; hide Lossy;
    var later := New(a, b);
    var cut := LossyCut(a.outbound, sent, later + b.outbound);
    assert forall i :: 0 <= i < |later| ==> later[i] == (later + b.outbound)[i];
    if Takes(|ram|, p) {
      WrittenIs(ram, rid, ws);
      WrittenTwice(ram, rid, ws);
      RamOnce(ram, a.agent.hold, later, cut, p);
    } else {
      RamNever(ram, a.agent.hold, later, cut, p);
    }
  }

  lemma {:induction false} RamNever(ram: seq<byte>, hold: Option<Held>, msgs: seq<seq<byte>>, cut: nat, p: seq<byte>)
    requires |ram| <= 0xFFFF_FFFF && !Takes(|ram|, p) && (forall i :: 0 <= i < cut && i < |msgs| ==> Harmless(ram, msgs[i]))
    requires forall i :: cut <= i < |msgs| ==> msgs[i] == p || !IsPoke(msgs[i])
    ensures RamOver(ram, hold, msgs) == ram
    decreases |msgs|
  {
    hide Takes; hide Written; hide IsCopy; hide HoldOver;
    if msgs != [] {
      var n := |msgs| - 1;
      RamNever(ram, hold, msgs[..n], cut, p);
      if Takes(|ram|, msgs[n]) { TakesPoke(|ram|, msgs[n]); }
    }
  }

  /** Given up on as the link is rebuilt, a write has been made whole or not at all, and never will be on the new link. */
  lemma AcrossRebuild(a: Wire, sent: seq<seq<byte>>, b: Wire, rid: uint16, ws: seq<Write>, ram: seq<byte>)
    requires Limits(WriteLengths(ws)).None? && Ready(a, ram) && Runs(a, sent, b) && Sound(b) && Only(Poke(rid, ws), sent)
    ensures Sound(Rebuilt(b))
    ensures Ready(Rebuilt(b), ram) || ((forall w <- ws :: w.addr as int + |w.data| <= |ram|) && Ready(Rebuilt(b), WriteAll(ram, ws)))
  {
    hide WriteAll; hide Runs; hide Poke; hide Limits; hide Only;
    GivenUp(a, sent, b, rid, ws, ram);
  }

  lemma NotTaken(ram: seq<byte>, m: seq<byte>)
    requires |ram| <= 0xFFFF_FFFF && !IsPoke(m)
    ensures Harmless(ram, m)
  {}

  // ---- rids not used yet ----

  /** A rid nothing on the link is under, and nothing sent since, is one nothing on the link is under. */
  lemma QuietStays(a: Wire, sent: seq<seq<byte>>, b: Wire, rid: uint16)
    requires Runs(a, sent, b) && Sound(b) && Quiet(a, rid) && rid != 0 && forall m <- sent :: MsgRid(m) != Some(rid)
    ensures Quiet(b, rid)
  {
    hide Lossy; hide Truthful; hide MsgRid; hide ReplyRid; hide Since; hide HoldOver; hide Takes; hide Fresh;
    var later := New(a, b);
    var all := later + b.outbound;
    forall m | m in all ensures MsgRid(m) != Some(rid) { LossyIn(a.outbound + sent, all, m); }
    forall e | e in b.inbound ensures ReplyRid(e.reply) != Some(rid) {
      if e !in a.inbound && ReplyRid(e.reply) == Some(rid) {
        FreshOf(a, sent, later, e);
        assert e.of in all;
        ReplyParses(e.reply);
        EchoRid(e, rid);
      }
    }
    HoldQuiet(a, sent, b, rid);
  }

  lemma FreshOf(a: Wire, sent: seq<seq<byte>>, msgs: seq<seq<byte>>, e: Echo)
    requires |a.agent.ram| <= MAX_RAM && Fresh(a, sent, msgs, e)
    ensures e.of in msgs
  {
    hide Since;
  }

  lemma ReplyParses(reply: seq<byte>)
    requires ReplyRid(reply).Some?
    ensures Parse(reply).Fine?
  {}

  lemma HoldQuiet(a: Wire, sent: seq<seq<byte>>, b: Wire, rid: uint16)
    requires Runs(a, sent, b) && (a.agent.hold.Some? ==> a.agent.hold.value.rid != rid)
    requires forall m <- New(a, b) :: MsgRid(m) != Some(rid)
    ensures b.agent.hold.Some? ==> b.agent.hold.value.rid != rid
  {
    hide Lossy; hide Fresh; hide HoldOver; hide AppliedAt; hide RamOver;
    var later := New(a, b);
    assert later[..|later|] == later;
    if b.agent.hold.Some? {
      HeldFrom(|a.agent.ram|, a.agent.hold, later, |later|);
      if a.agent.hold != b.agent.hold {
        var i :| 0 <= i < |later| && AppliedAt(|a.agent.ram|, a.agent.hold, later, i) && IsPoke(later[i]) && Be16(later[i], 5) == b.agent.hold.value.rid;
        assert MsgRid(later[i]) == Some(Be16(later[i], 5));
      }
    }
  }
}
