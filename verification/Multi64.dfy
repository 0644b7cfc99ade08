/** The host's end of the link. Each request has a rid, waits for its reply, and may be repeated. */
module Multi64 {
  import opened Bytes
  import opened M64p
  import opened MemProto
  import opened AtMostOnce
  import opened Link
  import opened Batching
  import opened M64pRoundTrip

  // ---- whose reply it is ----

  /** The rid a request carries. */
  function MsgRid(p: seq<byte>): (rid: Option<uint16>) {
    if IsM64p(p) && p[4] != HELLO && |p| >= 7 then Some(Be16(p, 5)) else None
  }

  /** The rid a reply is to. */
  function ReplyRid(reply: seq<byte>): (rid: Option<uint16>) {
    match Parse(reply) case Fine(resp) => RidOf(resp) case Failed(_) => None
  }

  /** A reply's header: its opcode and its rid, which is 0 in a reply to nothing in particular. */
  predicate HeadOf(reply: seq<byte>, p: seq<byte>) {
    && |reply| >= 8 && reply[..4] == MAGIC
    && (reply[4] != HELLO_ACK ==> Be16(reply, 5) == 0 || MsgRid(p) == Some(Be16(reply, 5)))
  }

  lemma ShortHead(msg: byte, rid: uint16, n: byte)
    ensures var r := Short(msg, rid, n); r[..4] == MAGIC && r[4] == msg && Be16(r, 5) == rid && r[7] == n
  {
    var r := Short(msg, rid, n);
    assert r[5] == Put16(rid)[0] && r[6] == Put16(rid)[1];
  }

  lemma PeekHeadIs(msg: byte, body: seq<byte>, more: seq<byte>)
    requires |body| >= 3
    ensures var r := PeekHead(msg, body) + more; r[..4] == MAGIC && r[4] == msg && Be16(r, 5) == Be16(body, 0)
  {
    var r, rid := PeekHead(msg, body) + more, Put16(Be16(body, 0));
    assert r[5] == rid[0] && r[6] == rid[1];
  }

  /** Every reply is under the rid of its request, and a POKE_ACK is to a write that is applied or held. */
  lemma ServedHead(st: State, p: seq<byte>, busy: bool)
    requires Sane(st) && Serve(st, p, busy).reply.Some?
    ensures var r := Serve(st, p, busy).reply.value;
      && HeadOf(r, p)
      && (r[4] == POKE_ACK ==> Takes(|st.ram|, p) || IsCopy(st.hold, p))
      && (r[4] == PEEKV_RESP ==> p[4] == PEEKV && Serve(st, p, busy).reply == ServePeek(st, p[5..]).reply)
      && (r[4] == PEEKROM_RESP ==> p[4] == PEEKROM && Serve(st, p, busy).reply == ServePeekRom(st, p[5..], busy).reply)
  {
    hide Sane; hide Wrong; hide ReadBlocks; hide WriteBlocks; hide SlotsAsked; hide Reads; hide Short; hide PeekHead; hide Put16; hide Put32;
    if IsCopy(st.hold, p) {
      ShortHead(POKE_ACK, st.hold.value.rid, st.hold.value.applied);
    } else if p[4] == PEEKV {
      PeekReplyHead(st, p);
    } else if p[4] == POKEV {
      PokeReplyHead(st, p);
    } else if p[4] == PEEKROM {
      RomReplyHead(st, p, busy);
    } else if p[4] == WATCH {
      WatchReplyHead(st, p);
    } else if p[4] != HELLO {
      ShortHead(ERR, Rid(p[5..]), MALFORMED);
    } else {
      HelloHead(|st.ram|, |st.rom|);
    }
  }

  lemma HelloHead(ram: uint32, rom: uint32)
    ensures var r := HelloAckOf(ram, rom); |r| >= 8 && r[..4] == MAGIC && r[4] == HELLO_ACK
  {}

  lemma PeekReplyHead(st: State, p: seq<byte>)
    requires Sane(st) && IsM64p(p) && p[4] == PEEKV
    ensures var r := ServePeek(st, p[5..]).reply; r.Some? && HeadOf(r.value, p) && r.value[4] in {ERR, PEEKV_RESP}
  {
    hide Wrong; hide ReadBlocks; hide Short; hide PeekHead;
    var body := p[5..];
    if |body| < 3 {
      ShortHead(ERR, 0, MALFORMED);
    } else {
      var wrong := Wrong(body, body[2], false, |st.ram|);
      if wrong.Some? { ShortHead(ERR, Be16(body, 0), wrong.value); }
      var r := ServePeek(st, body).reply.value;
      if wrong.None? {
        PeekHeadIs(PEEKV_RESP, body, r[8..]);
        assert r == PeekHead(PEEKV_RESP, body) + r[8..];
      }
    }
  }

  lemma PokeReplyHead(st: State, p: seq<byte>)
    requires Sane(st) && IsM64p(p) && p[4] == POKEV
    ensures var r := ServePoke(st, p[5..]).reply;
      r.Some? && HeadOf(r.value, p) && r.value[4] in {ERR, POKE_ACK} && (r.value[4] == POKE_ACK ==> Takes(|st.ram|, p))
  {
    hide Wrong; hide WriteBlocks; hide Short;
    var body := p[5..];
    if |body| < 3 {
      ShortHead(ERR, 0, MALFORMED);
    } else {
      var wrong := Wrong(body, body[2], true, |st.ram|);
      if wrong.Some? { ShortHead(ERR, Be16(body, 0), wrong.value); }
      ShortHead(POKE_ACK, Be16(body, 0), body[2]);
    }
  }

  lemma RomReplyHead(st: State, p: seq<byte>, busy: bool)
    requires Sane(st) && IsM64p(p) && p[4] == PEEKROM
    ensures var r := ServePeekRom(st, p[5..], busy).reply; r.Some? && HeadOf(r.value, p) && r.value[4] in {ERR, PEEKROM_RESP}
  {
    hide Wrong; hide ReadBlocks; hide Short; hide PeekHead; hide Reads;
    var body := p[5..];
    if |body| < 3 {
      ShortHead(ERR, 0, MALFORMED);
    } else {
      ShortHead(ERR, Be16(body, 0), UNSUPPORTED);
      ShortHead(ERR, Be16(body, 0), BUSY);
      var wrong := Wrong(body, body[2], false, |st.rom|);
      if wrong.Some? { ShortHead(ERR, Be16(body, 0), wrong.value); }
      var r := ServePeekRom(st, body, busy).reply.value;
      if |r| >= 8 && r[..8] == PeekHead(PEEKROM_RESP, body) {
        PeekHeadIs(PEEKROM_RESP, body, r[8..]);
        assert r == PeekHead(PEEKROM_RESP, body) + r[8..];
      }
    }
  }

  lemma WatchReplyHead(st: State, p: seq<byte>)
    requires Sane(st) && IsM64p(p) && p[4] == WATCH
    ensures var r := ServeWatch(st, p[5..]).reply; r.Some? && HeadOf(r.value, p) && r.value[4] in {ERR, WATCH_ACK}
  {
    hide SlotsAsked; hide Short;
    var body := p[5..];
    if |body| < 3 {
      ShortHead(ERR, 0, MALFORMED);
    } else {
      ShortHead(ERR, Be16(body, 0), TOO_MANY);
      ShortHead(WATCH_ACK, Be16(body, 0), body[2]);
      if body[2] <= WATCH_SLOTS {
        var asked := SlotsAsked(body, 3, body[2], |st.ram|);
        if asked.Refused? { ShortHead(ERR, Be16(body, 0), asked.code); }
      }
    }
  }

  /** A reply that parses is of the kind its head says, under the rid its head has. */
  lemma ParsedHead(r: seq<byte>)
    requires |r| >= 8 && r[..4] == MAGIC && Parse(r).Fine?
    ensures var resp := Parse(r).value;
      && (RidOf(resp).Some? ==> r[4] != HELLO_ACK && RidOf(resp).value == Be16(r, 5))
      && (resp.PokeAck? <==> r[4] == POKE_ACK) && (resp.PeekV? <==> r[4] == PEEKV_RESP) && (resp.PeekRom? <==> r[4] == PEEKROM_RESP)
  {
    hide Blocks; hide ParseTrailer; hide ParseHello;
    assert Be16(r[5..], 0) == Be16(r, 5);
    HelloParsed(r[5..]);
  }

  lemma HelloParsed(b: seq<byte>)
    ensures ParseHello(b).Fine? ==> ParseHello(b).value.HelloAck?
  {}

  /** A reply under a rid answers a request under it. */
  lemma EchoRid(e: Echo, rid: uint16)
    requires Truthful(e) && rid != 0 && ReplyRid(e.reply) == Some(rid)
    ensures MsgRid(e.of) == Some(rid) && Parse(e.reply).Fine?
    ensures Parse(e.reply).value.PokeAck? ==> IsPoke(e.of) && (Takes(|e.st.ram|, e.of) || IsCopy(e.st.hold, e.of))
    ensures Parse(e.reply).value.PeekV? ==> e.of[4] == PEEKV && Some(e.reply) == ServePeek(e.st, e.of[5..]).reply
    ensures Parse(e.reply).value.PeekRom? ==> e.of[4] == PEEKROM && Some(e.reply) == ServePeekRom(e.st, e.of[5..], e.busy).reply
  {
    hide Serve; hide ServePeek; hide ServePeekRom; hide MsgRid; hide Takes; hide Parse;
    ServedHead(e.st, e.of, e.busy);
    ParsedHead(e.reply);
    if Takes(|e.st.ram|, e.of) { TakesPoke(|e.st.ram|, e.of); }
  }

  // ---- the host ----

  /** Nothing under `rid` is on its way, or held by the agent. */
  ghost predicate Quiet(a: Wire, rid: uint16) {
    && (a.agent.hold.Some? ==> a.agent.hold.value.rid != rid)
    && (forall m <- a.outbound :: MsgRid(m) != Some(rid))
    && (forall e <- a.inbound :: ReplyRid(e.reply) != Some(rid))
  }

  /** What waiting for an answer comes to. */
  datatype Answer = Got(resp: Response) | Silence | Broken

  /** What a write, or a look at the ROM's header, comes to. */
  datatype Outcome = Done | Denied(code: byte) | TimedOut | BusyBus | RomChanged | LinkDown

  const ROM_HEADER: uint16 := 0x40

  /** A read of the ROM's header. */
  predicate IsHeaderRead(q: seq<byte>) {
    IsM64p(q) && q[4] == PEEKROM
  }

  function HeaderRead(rid: uint16): (q: seq<byte>) {
    Peek(PEEKROM, rid, [Region(0, ROM_HEADER)])
  }

  lemma HeaderReadIs(rid: uint16)
    ensures IsHeaderRead(HeaderRead(rid))
  {
    hide Put16;
  }

  /** One try at a write: the rids of header reads sent first, then the copies of the write. */
  datatype Try = Try(headers: seq<seq<byte>>, copies: nat)

  function TryWire(p: seq<byte>, try: Try): (sent: seq<seq<byte>>) {
    try.headers + seq(try.copies, _ => p)
  }

  /** Reads of the header, all of them one request. */
  ghost predicate HeadersUnder(headers: seq<seq<byte>>, rid: uint16) {
    rid != 0 && forall q <- headers :: q == HeaderRead(rid)
  }

  /**
   * What a try may send: at most two copies, one at least the first time; and before a later copy, when there is a
   * header to compare, one read of it, at most twice.
   */
  ghost predicate TryAllowed(known: bool, first: bool, try: Try) {
    && try.copies <= 2 && (first ==> try.copies >= 1)
    && (first || !known ==> try.headers == []) && (!first && known && try.copies > 0 ==> try.headers != [])
    && |try.headers| <= 2 && (try.headers == [] || exists rid: uint16 :: HeadersUnder(try.headers, rid))
  }

  /** An unanswered request's frame, whether it may be repeated, and whether it was. */
  datatype Outstanding = Outstanding(rid: uint16, app: seq<byte>, mayCopy: bool, copied: bool)

  class Host {
    const link: Channel
    /** What the agent and the link announced: held writes, and whole requests or none. */
    const pokeOnce: bool
    const whole: bool
    const softRetries: nat
    var nextRid: uint16
    var outstanding: Option<Outstanding>
    /** The cached ROM header, `None` before any ROM read. */
    var known: Option<seq<byte>>

    ghost predicate Valid()
      reads this, link
    {
      Sound(link.w) && nextRid != 0 && (pokeOnce ==> whole)
    }

    constructor (link: Channel, pokeOnce: bool, whole: bool, softRetries: nat)
      requires Sound(link.w)
      ensures Valid() && this.link == link && nextRid == 1 && known == None
    {
      this.link, this.pokeOnce, this.whole, this.softRetries := link, pokeOnce && whole, whole, softRetries;
      nextRid, outstanding, known := 1, None, None;
    }

    /** The next request's rid: 0 is no request's. */
    method Rid() returns (rid: uint16)
      requires nextRid != 0
      modifies this`nextRid
      ensures rid == old(nextRid) && nextRid != 0
    {
      rid := nextRid;
      nextRid := if nextRid == 0xFFFF then 1 else nextRid + 1;
    }

    method SendRequest(rid: uint16, app: seq<byte>, mayCopy: bool, ghost a: Wire, ghost sent: seq<seq<byte>>) returns (ok: bool)
      requires Valid() && Runs(a, sent, link.w)
      modifies link, this`outstanding
      ensures Valid() && Runs(a, sent + [app], link.w)
      ensures ok ==> outstanding == Some(Outstanding(rid, app, mayCopy, false))
    {
      ok := link.Send(app, a, sent);
      if ok { outstanding := Some(Outstanding(rid, app, mayCopy, false)); }
    }

    /** The link rebuilt: nothing waits, and rids start again. */
    method Renew()
      requires Valid()
      modifies link, this`outstanding, this`nextRid
      ensures Valid() && link.w == Rebuilt(old(link.w)) && nextRid == 1 && outstanding == None
      ensures Unused(link.w, [], nextRid)
    {
      hide Sound;
      RebuiltSound(link.w);
      link.w := Rebuilt(link.w);
      nextRid, outstanding := 1, None;
    }

    /** Whether the request waiting may go again early: if it may at all, the first time it is late. */
    predicate MayCopy(rid: uint16)
      reads this
    {
      outstanding.Some? && outstanding.value.rid == rid && outstanding.value.mayCopy && !outstanding.value.copied && whole
    }

    /** What waits under `rid`, if anything, is `p`. */
    predicate Waits(rid: uint16, p: seq<byte>)
      reads this`outstanding
    {
      outstanding.Some? && outstanding.value.rid == rid ==>
        outstanding.value.app == p && (outstanding.value.mayCopy ==> pokeOnce)
    }

    /** Wait for the answer to `rid`; what else arrives is dropped. The request may go again, once, early. */
    method AwaitResponse(rid: uint16, ghost a: Wire, ghost sent: seq<seq<byte>>)
      returns (r: Answer, ghost copies: seq<seq<byte>>, ghost e: Option<Echo>)
      requires Valid() && Runs(a, sent, link.w)
      modifies link, this`outstanding
      ensures Valid() && Runs(a, sent + copies, link.w)
      ensures copies == [] || (old(MayCopy(rid)) && copies == [old(outstanding.value.app)])
      ensures r.Got? ==> RidOf(r.resp) == Some(rid) && e.Some? && Heard(a, sent + copies, link.w, e.value)
                         && Parse(e.value.reply) == Fine(r.resp)
      ensures r.Got? ==> outstanding.None? || outstanding.value.rid != rid
      ensures outstanding.Some? ==> old(outstanding).Some? && outstanding.value.(copied := false) == old(outstanding).value.(copied := false)
    {
      hide Runs; hide Sound; hide Heard; hide Parse; hide Junk;
      copies, e := [], None;
      assert sent + copies == sent;
      var patience: nat := *;
      while patience > 0
        invariant Valid() && Runs(a, sent + copies, link.w)
        invariant copies == [] || (old(MayCopy(rid)) && copies == [old(outstanding.value.app)])
        invariant copies == [] ==> outstanding == old(outstanding)
        invariant copies != [] ==> outstanding.Some? && outstanding.value.copied
        invariant outstanding.Some? ==> old(outstanding).Some? && outstanding.value.(copied := false) == old(outstanding).value.(copied := false)
      {
        patience := patience - 1;
        var late := *;
        if late && MayCopy(rid) {
          var app := outstanding.value.app;
          outstanding := Some(outstanding.value.(copied := true));
          assert sent + copies + [app] == sent + [app];
          copies := [app];
          var ok := link.Send(app, a, sent);
          if !ok { return Broken, copies, None; }
        }
        var got;
        got, e := link.Listen(a, sent + copies);
        if got.None? { continue; }
        match Parse(got.value)
        case Failed(error) =>
          JunkIs(got.value);
          if !error.NotM64p? && !error.EchoedRequest? { return Broken, copies, None; }
        case Fine(resp) =>
          JunkIs(got.value);
          if RidOf(resp) == Some(rid) {
            if outstanding.Some? && outstanding.value.rid == rid { outstanding := None; }
            return Got(resp), copies, e;
          }
      }
      r := Silence;
    }

    /** `Done` only after an acknowledgement of `rid` that names `count` regions. */
    method AwaitPoke(rid: uint16, count: nat, ghost a: Wire, ghost sent: seq<seq<byte>>)
      returns (o: Outcome, ghost copies: seq<seq<byte>>, ghost e: Option<Echo>)
      requires Valid() && Runs(a, sent, link.w)
      modifies link, this`outstanding
      ensures Valid() && Runs(a, sent + copies, link.w)
      ensures copies == [] || (old(MayCopy(rid)) && copies == [old(outstanding.value.app)])
      ensures outstanding.Some? ==> old(outstanding).Some? && outstanding.value.(copied := false) == old(outstanding).value.(copied := false)
      ensures o.Done? ==> e.Some? && Heard(a, sent + copies, link.w, e.value)
                          && ReplyRid(e.value.reply) == Some(rid) && Parse(e.value.reply).value.PokeAck?
    {
      hide Runs; hide Sound; hide Heard; hide Parse;
      var r;
      r, copies, e := AwaitResponse(rid, a, sent);
      match r
      case Got(PokeAck(_, applied)) => o := if applied as int == count then Done else LinkDown;
      case Got(Refusal(_, code)) => o := Denied(code);
      case Got(_) => o := LinkDown;
      case Silence => o := TimedOut;
      case Broken => o := LinkDown;
    }

    /** `Done` if a fresh read of the header equals `header`. */
    method SameRom(header: seq<byte>, ghost a: Wire, ghost sent: seq<seq<byte>>)
      returns (o: Outcome, ghost headers: seq<seq<byte>>)
      requires Valid() && Runs(a, sent, link.w)
      modifies link, this`outstanding, this`nextRid
      ensures Valid() && Runs(a, sent + headers, link.w)
      ensures 1 <= |headers| <= 2 && old(nextRid) != 0 && (forall q <- headers :: q == HeaderRead(old(nextRid)))
      ensures o.Done? ==> outstanding.None?
    {
      hide Runs; hide Sound; hide Limits; hide Peek; hide Unused; hide RomAnswer;
      HeaderLimits();
      var blocks;
      o, blocks, headers := PeekRom([Region(0, ROM_HEADER)], a, sent);
      if o.Done? && blocks[0] != header {
        o := RomChanged;
      } else if o.Denied? {
        o := RomChanged;
      }
    }

    /** One try at a write: sent the first time, and after that sent again only if a copy is safe, once the header is. */
    method TryPoke(rid: uint16, p: seq<byte>, count: nat, first: bool, ghost a: Wire, ghost sent: seq<seq<byte>>)
      returns (o: Outcome, ghost try: Try, ghost e: Option<Echo>)
      requires Valid() && Runs(a, sent, link.w) && (!first && (known.None? || !pokeOnce) ==> Waits(rid, p))
      modifies link, this`outstanding, this`nextRid
      ensures Valid() && Runs(a, sent + TryWire(p, try), link.w)
      ensures known.None? || !pokeOnce ==> Waits(rid, p)
      ensures TryAllowed(known.Some?, first, try) && (!pokeOnce ==> TryWire(p, try) == if first then [p] else [])
      ensures o.Done? ==> e.Some? && Heard(a, sent + TryWire(p, try), link.w, e.value)
                          && ReplyRid(e.value.reply) == Some(rid) && Parse(e.value.reply).value.PokeAck?
    {
      hide Runs; hide Sound; hide Heard; hide Parse; hide ReplyRid; hide HeaderRead;
      try, e := Try([], 0), None;
      ghost var copies;
      assert sent + TryWire(p, try) == sent;
      if first {
        var ok := SendRequest(rid, p, pokeOnce, a, sent);
        try := Try([], 1);
        assert TryWire(p, try) == [p];
        if !ok {
          outstanding := None;
          return LinkDown, try, None;
        }
      } else if pokeOnce {
        if known.Some? {
          ghost var headers, at: uint16 := [], nextRid;
          o, headers := SameRom(known.value, a, sent);
          try := Try(headers, 0);
          assert TryWire(p, try) == headers && HeadersUnder(try.headers, at);
          assert TryAllowed(true, false, try);
          if !o.Done? { return o, try, None; }
        }
        ghost var before := TryWire(p, try);
        var ok := link.Send(p, a, sent + before);
        try := Try(try.headers, 1);
        assert sent + before + [p] == sent + TryWire(p, try);
        if !ok { return LinkDown, try, None; }
      }
      ghost var before := TryWire(p, try);
      o, copies, e := AwaitPoke(rid, count, a, sent + before);
      assert sent + before + copies == sent + (before + copies);
      TryMore(p, try, copies);
      try := try.(copies := try.copies + |copies|);
    }

    /** One vectored read, asked once: a block for each region, each as long as was asked. */
    method PeekV(rs: seq<Region>, ghost a: Wire, ghost sent: seq<seq<byte>>)
      returns (o: Outcome, blocks: seq<seq<byte>>, ghost copies: seq<seq<byte>>)
      requires Valid() && Runs(a, sent, link.w) && Askable(rs, |a.agent.ram|) && |rs| <= MAX_REGIONS
      modifies link, this`outstanding, this`nextRid
      ensures Valid() && Runs(a, sent + copies, link.w)
      ensures forall m <- copies :: m == Peek(PEEKV, old(nextRid), rs)
      ensures o.Done? ==> |blocks| == |rs|
      ensures o.Done? && Unused(a, sent, old(nextRid)) ==> Seen(a, sent + copies, link.w, rs, blocks)
    {
      hide Runs; hide Sound; hide Heard; hide Parse; hide Peek; hide Askable; hide Unused; hide Seen; hide ReplyRid; hide Limits;
      o, blocks, copies := LinkDown, [], [];
      var rid := Rid();
      RunsSize(a, sent, link.w);
      AskableLimits(rs, |a.agent.ram|);
      var encoded := EncodePeek(PEEKV, rid, rs);
      var app := encoded.value;
      var ok := SendRequest(rid, app, true, a, sent);
      copies := [app];
      if !ok { return; }
      var r;
      ghost var more, e;
      r, more, e := AwaitResponse(rid, a, sent + copies);
      assert sent + copies + more == sent + (copies + more);
      copies := copies + more;
      match r
      case Got(PeekV(_, regions, _, _)) =>
        RidIs(e.value.reply, r.resp);
        EchoSeen(a, sent, copies, link.w, rs, rid, e.value);
        blocks := regions;
        var fits := AsAsked(rs, regions);
        if fits { o := Done; }
      case Got(Refusal(_, code)) => o := Denied(code);
      case Got(_) =>
      case Silence => o := TimedOut;
      case Broken =>
    }

    /** One vectored read of the ROM, asked once: the link's ROM in each region, unless an older request had its rid. */
    method PeekRom(rs: seq<Region>, ghost a: Wire, ghost sent: seq<seq<byte>>)
      returns (o: Outcome, blocks: seq<seq<byte>>, ghost copies: seq<seq<byte>>)
      requires Valid() && Runs(a, sent, link.w) && Limits(RegionLengths(rs)).None? && rs != []
      modifies link, this`outstanding, this`nextRid
      ensures Valid() && Runs(a, sent + copies, link.w) && old(nextRid) != 0
      ensures 1 <= |copies| <= 2 && forall m <- copies :: m == Peek(PEEKROM, old(nextRid), rs)
      ensures o.Done? ==> outstanding.None? && LongAs(rs, blocks)
      ensures !o.RomChanged? && (Unused(a, sent, old(nextRid)) ==> RomAnswer(a.agent.rom, rs, o, blocks))
    {
      hide Runs; hide Sound; hide Heard; hide Parse; hide Peek; hide Unused; hide ReplyRid; hide Limits; hide RomAnswer;
      o, blocks := LinkDown, [];
      var rid := Rid();
      var encoded := EncodePeek(PEEKROM, rid, rs);
      var app := encoded.value;
      NoRomAnswer(a.agent.rom, rs);
      FewRegions(rs);
      var ok := SendRequest(rid, app, true, a, sent);
      copies := [app];
      if !ok { return; }
      var r;
      ghost var more, e;
      r, more, e := AwaitResponse(rid, a, sent + copies);
      assert sent + copies + more == sent + (copies + more);
      copies := copies + more;
      if r.Got? { RidIs(e.value.reply, r.resp); }
      if r.Got? && Unused(a, sent, rid) {
        RomEcho(a, sent, copies, link.w, rs, rid, e.value);
        RomAnswerOf(a.agent.rom, rs, rid, r.resp);
      }
      match r
      case Got(PeekRom(_, regions)) =>
        var fits := AsAsked(rs, regions);
        if fits { o, blocks := Done, regions; }
      case Got(Refusal(_, code)) => o := if code == BUSY then BusyBus else Denied(code);
      case Got(_) =>
      case Silence => o := TimedOut;
      case Broken =>
    }

    /** The blocks match the regions one to one in length. */
    static method AsAsked(rs: seq<Region>, got: seq<seq<byte>>) returns (ok: bool)
      ensures ok <==> LongAs(rs, got)
    {
      if |got| != |rs| { return false; }
      for i := 0 to |rs|
        invariant forall j :: 0 <= j < i ==> |got[j]| == rs[j].len as int
      {
        if |got[i]| != rs[i].len as int { return false; }
      }
      ok := true;
    }

    /**
     * One write, tried until it is answered or the tries run out, and never carried to a rebuilt link.
     * `tries` is what was put on this one.
     */
    method PokeOnce(batch: seq<Write>) returns (o: Outcome, ghost tries: seq<Try>)
      requires Valid() && Limits(WriteLengths(batch)).None?
      modifies link, this`outstanding, this`nextRid, this`known
      ensures Valid()
      ensures var p := Poke(old(nextRid), batch);
        && Runs(old(link.w), Wired(p, tries), link.w) && TriesAllowed(old(known).Some?, tries)
        && (batch == [] ==> o.Done? && tries == [])
        && (!pokeOnce ==> |Wired(p, tries)| <= 1)
        && (batch != [] && o.Done? && Quiet(old(link.w), old(nextRid)) ==> Landed(old(link.w), link.w, p))
        && (old(known).None? && Quiet(old(link.w), old(nextRid)) ==> NotTwice(old(link.w), link.w, p))
      ensures old(known).None? ==> known.None?
    {
      hide Runs; hide Sound; hide Quiet; hide Landed; hide NotTwice; hide Limits; hide Poke; hide Tried; hide TriesAllowed; hide Wired;
      PokeIs(nextRid, batch);
      Begin(link.w);
      NothingTried(known.Some?, pokeOnce, Poke(nextRid, batch));
      ghost var a, knew := link.w, known.Some?;
      if batch == [] {
        o, tries := Done, [];
      } else {
        var rid := Rid();
        var encoded := EncodePoke(rid, batch);
        o, tries := TryAll(rid, encoded.value, |batch|);
      }
      AppliedOnce(a, link.w, Poke(old(nextRid), batch), old(nextRid), tries, knew);
    }

    /** Try until an answer comes, or the tries run out. */
    method TryAll(rid: uint16, p: seq<byte>, count: nat) returns (o: Outcome, ghost tries: seq<Try>)
      requires Valid() && rid != 0 && IsPoke(p) && Be16(p, 5) == rid
      modifies link, this`outstanding, this`nextRid, this`known
      ensures Valid() && Runs(old(link.w), Wired(p, tries), link.w) && TriesAllowed(old(known).Some?, tries)
      ensures !pokeOnce ==> |Wired(p, tries)| <= 1
      ensures old(known).None? ==> known.None?
      ensures o.Done? && Quiet(old(link.w), rid) ==> Landed(old(link.w), link.w, p)
    {
      hide Runs; hide Sound; hide Heard; hide Parse; hide ReplyRid; hide Quiet; hide Landed; hide TryAllowed; hide Tried; hide IsPoke; hide TryWire;
      ghost var a, knew, sent := link.w, known.Some?, [];
      tries := [];
      Begin(a);
      NothingTried(knew, pokeOnce, p);
      o := TimedOut;
      var timeouts := 0;
      var first := true;
      ghost var e: Option<Echo> := None;
      var patience: nat := *;
      while patience > 0
        invariant Valid() && Runs(a, sent, link.w) && Tried(knew, pokeOnce, p, tries, sent) && (first <==> tries == [])
        invariant !o.Done? && known.Some? == knew && (!first && (known.None? || !pokeOnce) ==> Waits(rid, p))
      {
        patience := patience - 1;
        ghost var try;
        o, try, e := TryPoke(rid, p, count, first, a, sent);
        TriedMore(knew, pokeOnce, p, tries, sent, try);
        first := false;
        tries, sent := tries + [try], sent + TryWire(p, try);
        if o.Done? {
          TriedIs(knew, pokeOnce, p, tries, sent);
          EchoLanded(a, sent, link.w, p, rid, tries, knew, e.value);
          return;
        }
        if o.TimedOut? && timeouts < softRetries {
          timeouts := timeouts + 1;
        } else if !o.BusyBus? {
          if o.RomChanged? { known := None; }
          break;
        }
      }
      TriedIs(knew, pokeOnce, p, tries, sent);
    }
  }

  lemma PokeIs(rid: uint16, batch: seq<Write>)
    requires Limits(WriteLengths(batch)).None?
    ensures var p := Poke(rid, batch); IsPoke(p) && Be16(p, 5) == rid && MsgRid(p) == Some(rid)
  {
    hide WritesBytes; hide Limits;
    var p := Poke(rid, batch);
    assert p[5] == Put16(rid)[0] && p[6] == Put16(rid)[1];
  }

  /** What the tries so far have put on the link. */
  ghost predicate Tried(known: bool, pokeOnce: bool, p: seq<byte>, tries: seq<Try>, sent: seq<seq<byte>>) {
    sent == Wired(p, tries) && TriesAllowed(known, tries) && (!pokeOnce ==> |sent| <= if tries == [] then 0 else 1)
  }

  lemma NothingTried(known: bool, pokeOnce: bool, p: seq<byte>)
    ensures Tried(known, pokeOnce, p, [], []) && Wired(p, []) == [] && TriesAllowed(known, [])
  {}

  lemma TriedMore(known: bool, pokeOnce: bool, p: seq<byte>, tries: seq<Try>, sent: seq<seq<byte>>, try: Try)
    requires Tried(known, pokeOnce, p, tries, sent) && TryAllowed(known, tries == [], try)
    requires !pokeOnce ==> TryWire(p, try) == if tries == [] then [p] else []
    ensures Tried(known, pokeOnce, p, tries + [try], sent + TryWire(p, try))
  {
    hide TryAllowed; hide TryWire;
    assert (tries + [try])[..|tries|] == tries;
  }

  lemma TriedIs(known: bool, pokeOnce: bool, p: seq<byte>, tries: seq<Try>, sent: seq<seq<byte>>)
    requires Tried(known, pokeOnce, p, tries, sent)
    ensures sent == Wired(p, tries) && TriesAllowed(known, tries) && (!pokeOnce ==> |sent| <= 1)
  {
    hide TriesAllowed; hide Wired;
  }

  lemma Begin(a: Wire)
    requires Sound(a)
    ensures Runs(a, [], a)
  {
    RunsStart(a);
  }

  function Wired(p: seq<byte>, tries: seq<Try>): (sent: seq<seq<byte>>) {
    if tries == [] then [] else Wired(p, tries[..|tries| - 1]) + TryWire(p, tries[|tries| - 1])
  }

  ghost predicate TriesAllowed(known: bool, tries: seq<Try>) {
    forall i :: 0 <= i < |tries| ==> TryAllowed(known, i == 0, tries[i])
  }

  /** Between `a` and `b` the agent applied a write under the rid of `p`. */
  ghost predicate Landed(a: Wire, b: Wire, p: seq<byte>) {
    && |a.agent.ram| <= MAX_RAM && |a.served| <= |b.served|
    && exists k :: 0 <= k < |New(a, b)| && New(a, b)[k] == p && AppliedAt(|a.agent.ram|, a.agent.hold, New(a, b), k)
  }

  lemma TryMore(p: seq<byte>, try: Try, copies: seq<seq<byte>>)
    requires forall q <- copies :: q == p
    ensures TryWire(p, try.(copies := try.copies + |copies|)) == TryWire(p, try) + copies
  {
    assert forall i :: 0 <= i < |copies| ==> copies[i] in copies;
  }

  // ---- reads ----

  /** Nothing on its way is under `rid`, and nothing sent since. */
  ghost predicate Unused(a: Wire, sent: seq<seq<byte>>, rid: uint16) {
    Quiet(a, rid) && forall m <- sent :: MsgRid(m) != Some(rid)
  }

  /** `blocks` are what memory held in `rs` at one moment since `a`. */
  ghost predicate Seen(a: Wire, sent: seq<seq<byte>>, b: Wire, rs: seq<Region>, blocks: seq<seq<byte>>) {
    && |a.agent.ram| <= MAX_RAM && |a.served| <= |b.served| && (forall r <- rs :: RegionIn(r, |a.agent.ram|))
    && exists st: State, k :: 0 <= k <= |New(a, b)| && Since(a, sent, New(a, b)[..k], st) && blocks == Slices(st.ram, rs)
  }

  /** The answer to a read is what memory held when it was served. */
  lemma EchoSeen(a: Wire, sent: seq<seq<byte>>, copies: seq<seq<byte>>, b: Wire, rs: seq<Region>, rid: uint16, e: Echo)
    requires |rs| <= MAX_REGIONS && Runs(a, sent + copies, b) && Heard(a, sent + copies, b, e) && rid != 0
    requires (forall m <- copies :: m == Peek(PEEKV, rid, rs)) && Askable(rs, |a.agent.ram|)
    requires ReplyRid(e.reply) == Some(rid) && Parse(e.reply).Fine? && Parse(e.reply).value.PeekV?
    ensures Unused(a, sent, rid) ==> Seen(a, sent + copies, b, rs, Parse(e.reply).value.regions)
  {
    hide Lossy; hide Truthful; hide Parse; hide ReplyRid; hide Peek; hide MsgRid; hide ServePeek; hide Slices; hide Askable; hide RegionIn;
    if Unused(a, sent, rid) {
      EchoRid(e, rid);
      assert e !in a.inbound;
      var later := New(a, b);
      var k :| 0 <= k < |later| && e.of == later[k] && Since(a, sent + copies, later[..k], e.st);
      OnlyRead(a, sent, copies, b, rid, Peek(PEEKV, rid, rs), e.of);
      SaneEcho(e);
      PeekAnswered(e.st, rid, rs);
    }
  }

  /** A block for each region, as long as was asked. */
  predicate LongAs(rs: seq<Region>, blocks: seq<seq<byte>>) {
    |blocks| == |rs| && forall i :: 0 <= i < |rs| ==> |blocks[i]| == rs[i].len as int
  }

  /** What an agent with this ROM can be found to answer, asked for `rs` in it: its bytes there, unless it serves no reads of it. */
  ghost predicate RomAnswer(rom: seq<byte>, rs: seq<Region>, o: Outcome, blocks: seq<seq<byte>>) {
    if rom == [] then !o.Done?
    else |rom| <= 0xFFFF_FFFF && Askable(rs, |rom|) ==>
      !o.Denied? && (o.Done? ==> (forall r <- rs :: RegionIn(r, |rom|)) && blocks == Slices(rom, rs))
  }

  lemma NoRomAnswer(rom: seq<byte>, rs: seq<Region>)
    ensures RomAnswer(rom, rs, LinkDown, []) && RomAnswer(rom, rs, TimedOut, []) && RomAnswer(rom, rs, BusyBus, [])
  {}

  lemma FewRegions(rs: seq<Region>)
    requires Limits(RegionLengths(rs)).None?
    ensures |rs| <= MAX_REGIONS
  {}

  lemma HeaderLimits()
    ensures Limits(RegionLengths([Region(0, ROM_HEADER)])).None?
  {
    assert RegionLengths([Region(0, ROM_HEADER)]) == [ROM_HEADER];
    assert Sum([ROM_HEADER as nat]) == ROM_HEADER as nat;
  }

  /** What an agent replies to such a read. */
  ghost predicate RomReply(rom: seq<byte>, rs: seq<Region>, rid: uint16, resp: Response) {
    if rom == [] then resp == Refusal(rid, UNSUPPORTED)
    else |rom| <= 0xFFFF_FFFF && Askable(rs, |rom|) ==>
      (forall r <- rs :: RegionIn(r, |rom|)) && (resp == PeekRom(rid, Slices(rom, rs)) || resp == Refusal(rid, BUSY))
  }

  lemma RomAnswerOf(rom: seq<byte>, rs: seq<Region>, rid: uint16, resp: Response)
    requires RomReply(rom, rs, rid, resp)
    ensures resp.PeekRom? ==> RomAnswer(rom, rs, Done, resp.regions)
    ensures resp.Refusal? && resp.code != BUSY ==> RomAnswer(rom, rs, Denied(resp.code), [])
  {
    hide Askable; hide Slices; hide RegionIn;
  }

  /** The answer to a read of the ROM is what the ROM holds, whenever it was served. */
  lemma RomEcho(a: Wire, sent: seq<seq<byte>>, copies: seq<seq<byte>>, b: Wire, rs: seq<Region>, rid: uint16, e: Echo)
    requires |rs| <= MAX_REGIONS && Runs(a, sent + copies, b) && Heard(a, sent + copies, b, e) && rid != 0
    requires forall m <- copies :: m == Peek(PEEKROM, rid, rs)
    requires ReplyRid(e.reply) == Some(rid) && Parse(e.reply).Fine? && Unused(a, sent, rid)
    ensures RomReply(a.agent.rom, rs, rid, Parse(e.reply).value)
  {
    hide Lossy; hide Truthful; hide Parse; hide ReplyRid; hide Peek; hide MsgRid; hide ServePeekRom; hide RomReply;
    EchoRid(e, rid);
    assert e !in a.inbound;
    var later := New(a, b);
    var k :| 0 <= k < |later| && e.of == later[k] && Since(a, sent + copies, later[..k], e.st);
    OnlyRead(a, sent, copies, b, rid, Peek(PEEKROM, rid, rs), e.of);
    ServedRom(e, rid, rs);
  }

  lemma ServedRom(e: Echo, rid: uint16, rs: seq<Region>)
    requires Truthful(e) && |rs| <= MAX_REGIONS && e.of == Peek(PEEKROM, rid, rs) && Parse(e.reply).Fine?
    ensures RomReply(e.st.rom, rs, rid, Parse(e.reply).value)
  {
    var rom := e.st.rom;
    BodyIs(PEEKROM, rid, rs);
    hide Parse; hide Peek; hide Slices; hide Askable; hide RegionIn; hide Wrong; hide ReadBlocks; hide Reads; hide Short; hide PeekHead;
    RefusalParses(rid, UNSUPPORTED);
    if rom != [] && |rom| <= 0xFFFF_FFFF && Askable(rs, |rom|) { PeekRomAnswered(e.st, rid, rs, e.busy); }
  }

  lemma RunsSize(a: Wire, sent: seq<seq<byte>>, b: Wire)
    requires Runs(a, sent, b)
    ensures |a.agent.ram| <= MAX_RAM
  {}

  lemma AskableLimits(rs: seq<Region>, size: uint32)
    requires Askable(rs, size)
    ensures Limits(RegionLengths(rs)).None?
  {}

  lemma RidIs(reply: seq<byte>, resp: Response)
    requires Parse(reply) == Fine(resp)
    ensures ReplyRid(reply) == RidOf(resp)
  {}

  lemma SaneEcho(e: Echo)
    requires Truthful(e)
    ensures Sane(e.st)
  {}

  lemma OnlyRead(a: Wire, sent: seq<seq<byte>>, copies: seq<seq<byte>>, b: Wire, rid: uint16, p: seq<byte>, m: seq<byte>)
    requires Runs(a, sent + copies, b) && Unused(a, sent, rid) && (forall q <- copies :: q == p)
    requires m in New(a, b) && MsgRid(m) == Some(rid)
    ensures m == p
  {
    hide Since; hide Fresh; hide Lossy; hide MsgRid;
    assert m in New(a, b) + b.outbound;
    LossyIn(a.outbound + (sent + copies), New(a, b) + b.outbound, m);
  }

  lemma PeekRid(msg: byte, rid: uint16, rs: seq<Region>)
    requires |rs| <= MAX_REGIONS && msg != HELLO
    ensures MsgRid(Peek(msg, rid, rs)) == Some(rid) && (msg != POKEV ==> !IsPoke(Peek(msg, rid, rs)))
  {
    hide RegionsBytes;
    var p := Peek(msg, rid, rs);
    assert p[5] == Put16(rid)[0] && p[6] == Put16(rid)[1];
  }

  lemma JunkIs(app: seq<byte>)
    ensures Parse(app).Fine? ==> !Junk(app)
  {}

  /** All a write's tries put on the link is the write and header reads. */
  lemma {:induction false} WiredHas(p: seq<byte>, tries: seq<Try>, known: bool, m: seq<byte>)
    requires TriesAllowed(known, tries) && m in Wired(p, tries)
    ensures m == p || (known && IsHeaderRead(m))
  {
    hide IsHeaderRead; hide HeaderRead;
    var n := |tries| - 1;
    assert TryAllowed(known, n == 0, tries[n]);
    if tries[n].headers != [] {
      var rid: uint16 :| HeadersUnder(tries[n].headers, rid);
      HeaderReadIs(rid);
    }
    if m in Wired(p, tries[..n]) {
      forall i | 0 <= i < n ensures TryAllowed(known, i == 0, tries[..n][i]) { assert tries[i] == tries[..n][i]; }
      WiredHas(p, tries[..n], known, m);
    } else {
      assert m in TryWire(p, tries[n]);
    }
  }

  /** A write answered was applied. */
  lemma EchoLanded(a: Wire, sent: seq<seq<byte>>, b: Wire, p: seq<byte>, rid: uint16, tries: seq<Try>, known: bool, e: Echo)
    requires Runs(a, sent, b) && sent == Wired(p, tries) && TriesAllowed(known, tries) && rid != 0
    requires Heard(a, sent, b, e) && ReplyRid(e.reply) == Some(rid) && Parse(e.reply).value.PokeAck?
    requires IsPoke(p) && Be16(p, 5) == rid
    ensures Quiet(a, rid) ==> Landed(a, b, p)
  {
    hide Wired; hide TriesAllowed; hide AppliedAt; hide IsHeaderRead; hide Lossy; hide Truthful; hide Parse; hide Takes; hide IsCopy; hide ReplyRid;
    if Quiet(a, rid) {
      EchoRid(e, rid);
      assert e !in a.inbound;
      var later := New(a, b);
      var k :| 0 <= k < |later| && e.of == later[k] && Since(a, sent, later[..k], e.st);
      AckedApplied(|a.agent.ram|, a.agent.hold, later, k);
      var j :| 0 <= j <= k && AppliedAt(|a.agent.ram|, a.agent.hold, later, j) && SameRid(later[j], later[k]);
      OnlyWrite(a, sent, b, p, rid, tries, known, later[j]);
    }
  }

  lemma OnlyWrite(a: Wire, sent: seq<seq<byte>>, b: Wire, p: seq<byte>, rid: uint16, tries: seq<Try>, known: bool, m: seq<byte>)
    requires Runs(a, sent, b) && sent == Wired(p, tries) && TriesAllowed(known, tries) && Quiet(a, rid)
    requires m in New(a, b) && IsPoke(m) && Be16(m, 5) == rid
    ensures m == p
  {
    hide Wired; hide TriesAllowed; hide Since; hide Fresh; hide Lossy;
    assert m in New(a, b) + b.outbound;
    LossyIn(a.outbound + sent, New(a, b) + b.outbound, m);
    if m in sent { WiredHas(p, tries, known, m); }
  }

  // ---- at most once ----

  /** Requests that are no write under the rid of `p`. */
  ghost predicate Others(p: seq<byte>, msgs: seq<seq<byte>>) {
    forall m <- msgs :: !SameRid(p, m)
  }

  /** What an agent finds on the link: what was on its way, a write's tries, and whatever follows. */
  function Stream(before: seq<seq<byte>>, p: seq<byte>, tries: seq<Try>, after: seq<seq<byte>>): (sent: seq<seq<byte>>) {
    before + Wired(p, tries) + after
  }

  /** With no header to read between the copies, a write is applied at most once, whatever is lost. */
  lemma WriteOnce(size: uint32, hold: Option<Held>, before: seq<seq<byte>>, p: seq<byte>, tries: seq<Try>, after: seq<seq<byte>>)
    requires NotHeld(hold, p) && Others(p, before) && Others(p, after) && TriesAllowed(false, tries)
    ensures Once(size, hold, Stream(before, p, tries, after), p)
  {
    hide Takes; hide Wired; hide TriesAllowed; hide SameRid; hide IsM64p; hide Stream;
    var sent := Stream(before, p, tries, after);
    forall i: nat, k: nat, j: nat ensures !Between(size, sent, p, i, k, j) {
      if i < k < j < |sent| && SameRid(p, sent[i]) && SameRid(p, sent[j]) {
        CopiesTogether(before, p, tries, after, i, k, j);
        assert SameRid(p, p) by { SelfRid(p, sent[i]); }
      }
    }
    OnceUnlessInterrupted(size, hold, sent, p);
  }

  lemma SelfRid(p: seq<byte>, q: seq<byte>)
    requires SameRid(p, q)
    ensures SameRid(p, p)
  {}

  lemma OthersAt(p: seq<byte>, msgs: seq<seq<byte>>)
    requires Others(p, msgs)
    ensures forall i :: 0 <= i < |msgs| ==> !SameRid(p, msgs[i])
  {
    hide SameRid;
  }

  /** Only the write's own tries are under its rid, and with no header there is nothing else among them. */
  lemma CopiesTogether(before: seq<seq<byte>>, p: seq<byte>, tries: seq<Try>, after: seq<seq<byte>>, i: nat, k: nat, j: nat)
    requires Others(p, before) && Others(p, after) && TriesAllowed(false, tries)
    requires var sent := Stream(before, p, tries, after);
      i <= k <= j < |sent| && SameRid(p, sent[i]) && SameRid(p, sent[j])
    ensures Stream(before, p, tries, after)[k] == p
  {
    hide Wired; hide TriesAllowed; hide SameRid;
    var w := Wired(p, tries);
    assert before + w + after == Stream(before, p, tries, after);
    OthersAt(p, before);
    OthersAt(p, after);
    assert |before| <= i && j < |before| + |w|;
    assert w[k - |before|] in w;
    WiredHas(p, tries, false, w[k - |before|]);
  }

  /** Between `a` and `b` the agent applied at most one write under the rid of `p`. */
  ghost predicate NotTwice(a: Wire, b: Wire, p: seq<byte>) {
    && |a.agent.ram| <= MAX_RAM && |a.served| <= |b.served|
    && var msgs := New(a, b);
    forall j, k :: 0 <= j < k < |msgs| && SameRid(p, msgs[j]) && SameRid(p, msgs[k]) ==>
      !(AppliedAt(|a.agent.ram|, a.agent.hold, msgs, j) && AppliedAt(|a.agent.ram|, a.agent.hold, msgs, k))
  }

  lemma AppliedOnce(a: Wire, b: Wire, p: seq<byte>, rid: uint16, tries: seq<Try>, known: bool)
    requires Runs(a, Wired(p, tries), b) && TriesAllowed(known, tries) && IsPoke(p) && Be16(p, 5) == rid
    ensures !known && Quiet(a, rid) ==> NotTwice(a, b, p)
  {
    hide Wired; hide TriesAllowed; hide Since; hide Fresh; hide AppliedAt; hide SameRid;
    if !known && Quiet(a, rid) {
      QuietOthers(a, p, rid);
      WriteOnce(|a.agent.ram|, a.agent.hold, a.outbound, p, tries, []);
      var msgs := New(a, b) + b.outbound;
      var sent := a.outbound + Wired(p, tries);
      assert Stream(a.outbound, p, tries, []) == sent;
      var at :| Picks(sent, at, msgs);
      forall j, k | 0 <= j < k < |New(a, b)| && SameRid(p, New(a, b)[j]) && SameRid(p, New(a, b)[k])
        ensures !(AppliedAt(|a.agent.ram|, a.agent.hold, New(a, b), j) && AppliedAt(|a.agent.ram|, a.agent.hold, New(a, b), k))
      {
        AppliedBefore(|a.agent.ram|, a.agent.hold, New(a, b), b.outbound, j);
        AppliedBefore(|a.agent.ram|, a.agent.hold, New(a, b), b.outbound, k);
        assert msgs[j] == New(a, b)[j] && msgs[k] == New(a, b)[k];
      }
    }
  }

  lemma QuietOthers(a: Wire, p: seq<byte>, rid: uint16)
    requires Quiet(a, rid) && IsPoke(p) && Be16(p, 5) == rid
    ensures NotHeld(a.agent.hold, p) && Others(p, a.outbound) && Others(p, [])
  {
    forall m | m in a.outbound ensures !SameRid(p, m) { assert MsgRid(m) != Some(rid); }
  }

  lemma AppliedBefore(size: uint32, hold: Option<Held>, msgs: seq<seq<byte>>, more: seq<seq<byte>>, k: nat)
    requires k < |msgs|
    ensures AppliedAt(size, hold, msgs + more, k) <==> AppliedAt(size, hold, msgs, k)
  {
    hide Applies;
    assert (msgs + more)[..k] == msgs[..k];
  }

  /** Whatever the tries and whatever is lost, the write is applied at most once. */
  ghost predicate Safe(size: uint32, hold: Option<Held>, before: seq<seq<byte>>, p: seq<byte>, known: bool) {
    forall tries: seq<Try>, after: seq<seq<byte>> :: TriesAllowed(known, tries) && Others(p, after) ==>
      Once(size, hold, Stream(before, p, tries, after), p)
  }

  /**
   * A write is applied at most once exactly when no ROM header has been read: with one, the read of it sent
   * between two copies ends the agent's hold, and a copy after it is a write of its own.
   */
  lemma SafeIffNoHeader(size: uint32, hold: Option<Held>, before: seq<seq<byte>>, p: seq<byte>, known: bool)
    requires NotHeld(hold, p) && Others(p, before) && Takes(size, p)
    ensures Safe(size, hold, before, p, known) <==> !known
  {
    hide Takes; hide Once; hide NotHeld; hide Others; hide Interrupted; hide Stream; hide TriesAllowed; hide HeaderRead;
    if known {
      var rid, tries := AfterHeader(p);
      CopyAfterHeader(size, before, p, rid, tries);
      OnceUnlessInterrupted(size, hold, Stream(before, p, tries, []), p);
      assert Others(p, []) by { NoOthers(p); }
    } else {
      forall tries: seq<Try>, after: seq<seq<byte>> | TriesAllowed(known, tries) && Others(p, after)
        ensures Once(size, hold, Stream(before, p, tries, after), p)
      {
        WriteOnce(size, hold, before, p, tries, after);
      }
    }
  }

  lemma NoOthers(p: seq<byte>)
    ensures Others(p, [])
  {}

  /** One copy, unanswered in time; then the header read, under a rid of its own, and a second copy. */
  lemma AfterHeader(p: seq<byte>) returns (rid: uint16, tries: seq<Try>)
    ensures rid != 0 && MsgRid(p) != Some(rid) && tries == [Try([], 1), Try([HeaderRead(rid)], 1)]
  {
    hide HeaderRead; hide MsgRid;
    rid := if MsgRid(p) == Some(1) then 2 else 1;
    tries := [Try([], 1), Try([HeaderRead(rid)], 1)];
  }

  lemma CopyAfterHeader(size: uint32, before: seq<seq<byte>>, p: seq<byte>, rid: uint16, tries: seq<Try>)
    requires Takes(size, p) && rid != 0 && tries == [Try([], 1), Try([HeaderRead(rid)], 1)]
    ensures TriesAllowed(true, tries) && Interrupted(size, Stream(before, p, tries, []), p)
    ensures Wired(p, tries) == [p, HeaderRead(rid), p]
  {
    TakesPoke(size, p);
    HeaderReadIs(rid);
    hide Takes; hide HeaderRead;
    var q := HeaderRead(rid);
    assert HeadersUnder(tries[1].headers, rid);
    assert tries[..1] == [tries[0]] && tries[..1][..0] == [];
    assert Wired(p, tries[..1]) == [p];
    assert TryWire(p, tries[1]) == [q, p];
    assert Wired(p, tries) == [p, q, p];
    var sent, n := Stream(before, p, tries, []), |before|;
    assert Between(size, sent, p, n, n + 1, n + 2);
  }

  /** It happens on the link itself: all three requests arrive, their replies are late, and both copies are applied. */
  lemma TwiceOnTheLink(a: Wire, p: seq<byte>) returns (rid: uint16, tries: seq<Try>, b: Wire)
    requires Sound(a) && a.outbound == [] && NotHeld(a.agent.hold, p) && Takes(|a.agent.ram|, p)
    ensures rid != 0 && MsgRid(p) != Some(rid) && tries == [Try([], 1), Try([HeaderRead(rid)], 1)] && TriesAllowed(true, tries)
    ensures Runs(a, Wired(p, tries), b) && Sound(b) && !NotTwice(a, b, p)
  {
    rid, tries := AfterHeader(p);
    Begin(a);
    RunsSize(a, [], a);
    hide Takes; hide HeaderRead; hide Runs; hide Sound; hide TriesAllowed; hide Wired; hide MsgRid; hide NotHeld; hide NotTwice;
    CopyAfterHeader(|a.agent.ram|, [], p, rid, tries);
    var q := HeaderRead(rid);
    assert [] + [p] == [p] && [p] + [q] == [p, q] && [p, q] + [p] == [p, q, p];
    var b1 := SentAndServed(a, [], a, p);
    var b2 := SentAndServed(a, [p], b1, q);
    b := SentAndServed(a, [p, q], b2, p);
    assert b.served == a.served + [p] + [q] + [p];
    TwiceServed(a, b, p, rid);
  }

  lemma SentAndServed(a: Wire, sent: seq<seq<byte>>, b: Wire, m: seq<byte>) returns (c: Wire)
    requires Sound(b) && Runs(a, sent, b) && b.outbound == []
    ensures Sound(c) && Runs(a, sent + [m], c) && c.outbound == [] && c.served == b.served + [m]
  {
    hide Runs;
    RunsSend(a, sent, b, m);
    var on := b.(outbound := b.outbound + [m]);
    RunsServe(a, sent + [m], on, false, false);
    hide Sound; hide Serve;
    c := Served1(on, false, false);
  }

  lemma TwiceServed(a: Wire, b: Wire, p: seq<byte>, rid: uint16)
    requires |a.agent.ram| <= MAX_RAM && NotHeld(a.agent.hold, p) && Takes(|a.agent.ram|, p)
    requires b.served == a.served + [p] + [HeaderRead(rid)] + [p]
    ensures !NotTwice(a, b, p)
  {
    var size, hold := |a.agent.ram|, a.agent.hold;
    TakesPoke(size, p);
    HeaderReadIs(rid);
    hide Takes; hide HeaderRead; hide Be16;
    var q := HeaderRead(rid);
    var msgs := New(a, b);
    assert msgs == [p, q, p] && msgs[..0] == [] && msgs[..1] == [p] && msgs[..2] == [p, q] && [p, q][..1] == [p] && [p][..0] == [];
    if Takes(size, q) { TakesPoke(size, q); }
    assert HoldOver(size, hold, [p]) == HoldNext(size, hold, p);
    assert HoldOver(size, hold, [p, q]) == HoldNext(size, HoldOver(size, hold, [p]), q);
    assert AppliedAt(size, hold, msgs, 0) && AppliedAt(size, hold, msgs, 2) && SameRid(p, msgs[0]) && SameRid(p, msgs[2]);
  }
}
