/** What a host asks, an agent finds asked; and what the agent answers, the host reads. */
module M64pRoundTrip {
  import opened Bytes
  import opened M64p
  import opened MemProto
  import opened WatchRing
  import opened Batching

  // ---- a read, as the agent finds it ----

  lemma {:induction false} RegionBytesAt(rs: seq<Region>, i: nat)
    requires i < |rs|
    ensures RegionsBytes(rs)[6 * i..6 * i + 6] == RegionBytes(rs[i])
  {
    hide RegionBytes;
    var n := |rs| - 1;
    if i < n {
      RegionBytesAt(rs[..n], i);
      assert RegionsBytes(rs)[6 * i..6 * i + 6] == RegionsBytes(rs[..n])[6 * i..6 * i + 6];
    }
  }

  lemma BodyIs(msg: byte, rid: uint16, rs: seq<Region>)
    requires |rs| <= MAX_REGIONS
    ensures var p := Peek(msg, rid, rs); var body := p[5..];
      && p[..4] == MAGIC && p[4] == msg && |body| == 3 + 6 * |rs| && body[2] == |rs| && Be16(body, 0) == rid
      && body[3..] == RegionsBytes(rs)
  {
    hide RegionsBytes; 
    var p := Peek(msg, rid, rs);
    assert p[5] == Put16(rid)[0] && p[6] == Put16(rid)[1];
  }

  lemma BodyRegion(msg: byte, rid: uint16, rs: seq<Region>, i: nat)
    requires |rs| <= MAX_REGIONS && i < |rs|
    ensures var body := Peek(msg, rid, rs)[5..];
      |body| == 3 + 6 * |rs| && Be32(body, 3 + 6 * i) == rs[i].addr && Be16(body, 3 + 6 * i + 4) == rs[i].len
  {
    hide Peek; hide RegionsBytes;
    var body := Peek(msg, rid, rs)[5..];
    BodyIs(msg, rid, rs);
    assert |body| >= 3;
    RegionBytesAt(rs, i);
    RegionAt(body, 3 + 6 * i, rs[i], body[3..], 6 * i);
  }

  lemma RegionAt(body: seq<byte>, at: nat, r: Region, tail: seq<byte>, off: nat)
    requires at == 3 + off && |body| >= 3 && tail == body[3..] && off + 6 <= |tail| && tail[off..off + 6] == RegionBytes(r)
    ensures Be32(body, at) == r.addr && Be16(body, at + 4) == r.len
  {
    var a, l := Put32(r.addr), Put16(r.len);
    forall k | 0 <= k < 6 ensures body[at + k] == (a + l)[k] { assert body[at + k] == tail[off..off + 6][k]; }
    assert body[at] == a[0] && body[at + 1] == a[1] && body[at + 2] == a[2] && body[at + 3] == a[3];
    assert body[at + 4] == l[0] && body[at + 5] == l[1];
    hide Put32; hide Put16;
  }

  ghost predicate Askable(rs: seq<Region>, size: uint32) {
    Limits(RegionLengths(rs)).None? && forall r <- rs :: RegionIn(r, size)
  }

  lemma {:induction false} SumPrefix(lens: seq<nat>, i: nat)
    requires i <= |lens|
    ensures Sum(lens[..i]) <= Sum(lens) && (i < |lens| ==> Sum(lens[..i + 1]) == Sum(lens[..i]) + lens[i] <= Sum(lens))
    decreases |lens| - i
  {
    if i < |lens| {
      assert lens[..i + 1][..i] == lens[..i];
      SumPrefix(lens, i + 1);
    } else {
      assert lens[..i] == lens;
    }
  }

  /** An agent finds nothing wrong with a read within the limits. */
  lemma {:induction false} ReadValid(msg: byte, rid: uint16, rs: seq<Region>, size: uint32, i: nat)
    requires |rs| <= MAX_REGIONS && Askable(rs, size) && i <= |rs|
    ensures Validate(Peek(msg, rid, rs)[5..], 3 + 6 * i, |rs| - i, false, size, Sum(RegionLengths(rs)[..i])).None?
    ensures Sum(RegionLengths(rs)[..i]) <= MAX_TOTAL_BYTES
    decreases |rs| - i
  {
    hide Peek; hide Sum; hide Be32; hide Be16;
    var lens := RegionLengths(rs);
    SumPrefix(lens, i);
    if i < |rs| {
      ReadValid(msg, rid, rs, size, i + 1);
      BodyRegion(msg, rid, rs, i);
      assert rs[i] in rs && lens[i] <= MAX_REGION_BYTES;
    }
  }

  // ---- a read's answer, as the host finds it ----

  predicate AllSmall(bs: seq<seq<byte>>) {
    forall i :: 0 <= i < |bs| ==> |bs[i]| <= MAX_REGION_BYTES
  }

  function BlocksBytes(bs: seq<seq<byte>>): (b: seq<byte>)
    requires AllSmall(bs)
  {
    if bs == [] then [] else Put16(|bs[0]|) + bs[0] + BlocksBytes(bs[1..])
  }

  lemma BlocksBytesIs(bs: seq<seq<byte>>)
    requires bs != [] && AllSmall(bs)
    ensures |bs[0]| <= MAX_REGION_BYTES && AllSmall(bs[1..])
    ensures BlocksBytes(bs) == Put16(|bs[0]|) + bs[0] + BlocksBytes(bs[1..])
  {}

  /** Blocks parse back, wherever they stand. */
  lemma {:induction false} BlocksBack(b: seq<byte>, at: nat, bs: seq<seq<byte>>)
    requires AllSmall(bs) && at + |BlocksBytes(bs)| <= |b| && b[at..at + |BlocksBytes(bs)|] == BlocksBytes(bs)
    ensures Blocks(b, at, |bs|) == Some((bs, at + |BlocksBytes(bs)|))
    decreases |bs|
  {
    hide Put16; hide Be16; hide AllSmall;
    if bs != [] {
      hide BlocksBytes;
      BlocksBytesIs(bs);
      var head, block, rest := Put16(|bs[0]|), bs[0], BlocksBytes(bs[1..]);
      PartsAt(b, at, head + block, rest);
      PartsAt(b, at, head, block);
      BlocksBack(b, at + 2 + |block|, bs[1..]);
      HalfAt(b, at, |block|);
      assert [block] + bs[1..] == bs;
    }
  }

  lemma HalfAt(b: seq<byte>, at: nat, w: uint16)
    requires at + 2 <= |b| && b[at..at + 2] == Put16(w)
    ensures Be16(b, at) == w
  {
    assert b[at] == b[at..at + 2][0] && b[at + 1] == b[at..at + 2][1];
  }

  lemma SmallSlices(mem: seq<byte>, rs: seq<Region>)
    requires |mem| <= 0xFFFF_FFFF && Askable(rs, |mem|)
    ensures AllSmall(Slices(mem, rs))
  {
    hide Sum;
    forall i | 0 <= i < |rs| ensures |Slices(mem, rs)[i]| <= MAX_REGION_BYTES {
      assert RegionLengths(rs)[i] <= MAX_REGION_BYTES && rs[i] in rs;
    }
  }

  /** The region at `at` of `body` is `r`, and `block` is what memory holds there. */
  predicate Answers(mem: seq<byte>, body: seq<byte>, r: Region, at: nat, block: seq<byte>) {
    && at + 6 <= |body| && Be32(body, at) == r.addr && Be16(body, at + 4) == r.len
    && r.addr as int + r.len as int <= |mem| && block == RegionOf(mem, r) && |block| <= MAX_REGION_BYTES
  }

  /** One region read, and the rest. */
  lemma NextRead(mem: seq<byte>, body: seq<byte>, off: nat, n: nat, total: nat, r: Region, block: seq<byte>)
    requires |mem| <= 0xFFFF_FFFF && n > 0 && total <= MAX_TOTAL_BYTES && Answers(mem, body, r, off, block)
    requires Validate(body, off, n, false, |mem|, total).None?
    ensures |block| <= MAX_REGION_BYTES && total + r.len <= MAX_TOTAL_BYTES
    ensures Validate(body, off + 6, n - 1, false, |mem|, total + r.len).None?
    ensures ReadBlocks(mem, body, off, n, total) == Put16(|block|) + block + ReadBlocks(mem, body, off + 6, n - 1, total + r.len)
  {
    hide Be32; hide Be16; hide Put16;
  }

  /** The agent answers each region with what memory holds there. */
  lemma {:induction false} ReadIs(mem: seq<byte>, body: seq<byte>, rs: seq<Region>, bs: seq<seq<byte>>, i: nat, total: nat)
    requires |mem| <= 0xFFFF_FFFF && i <= |rs| && |bs| == |rs| && total <= MAX_TOTAL_BYTES && AllSmall(bs[i..])
    requires Validate(body, 3 + 6 * i, |rs| - i, false, |mem|, total).None?
    requires forall j :: i <= j < |rs| ==> Answers(mem, body, rs[j], 3 + 6 * j, bs[j])
    ensures ReadBlocks(mem, body, 3 + 6 * i, |rs| - i, total) == BlocksBytes(bs[i..])
    decreases |rs| - i
  {
    hide Validate; hide Answers; hide AllSmall; hide Put16;
    if i < |rs| {
      hide ReadBlocks; hide BlocksBytes;
      BlocksBytesIs(bs[i..]);
      NextRead(mem, body, 3 + 6 * i, |rs| - i, total, rs[i], bs[i]);
      assert bs[i..][0] == bs[i] && bs[i..][1..] == bs[i + 1..];
      ReadIs(mem, body, rs, bs, i + 1, total + rs[i].len);
    }
  }

  lemma AnswersAll(mem: seq<byte>, msg: byte, rid: uint16, rs: seq<Region>, j: nat)
    requires |mem| <= 0xFFFF_FFFF && |rs| <= MAX_REGIONS && Askable(rs, |mem|) && j < |rs|
    ensures Answers(mem, Peek(msg, rid, rs)[5..], rs[j], 3 + 6 * j, Slices(mem, rs)[j])
  {
    hide Peek; hide Limits; hide Be16; hide Be32;
    SmallSlices(mem, rs);
    BodyRegion(msg, rid, rs, j);
    assert RegionIn(rs[j], |mem|);
  }

  /** A read asked for, and what is answered: what memory holds, region by region. */
  lemma ReadAnswered(mem: seq<byte>, msg: byte, rid: uint16, rs: seq<Region>)
    requires |mem| <= 0xFFFF_FFFF && |rs| <= MAX_REGIONS && Askable(rs, |mem|)
    ensures var body := Peek(msg, rid, rs)[5..];
      && body[2] == |rs| && Be16(body, 0) == rid && Wrong(body, body[2], false, |mem|).None?
      && AllSmall(Slices(mem, rs)) && ReadBlocks(mem, body, 3, |rs|, 0) == BlocksBytes(Slices(mem, rs))
  {
    hide *;
    AskableIn(rs, |mem|);
    var body, bs := Peek(msg, rid, rs)[5..], Slices(mem, rs);
    BodyIs(msg, rid, rs);
    ValidAll(msg, rid, rs, |mem|);
    SmallSlices(mem, rs);
    forall j | 0 <= j < |rs| ensures Answers(mem, body, rs[j], 3 + 6 * j, bs[j]) { AnswersAll(mem, msg, rid, rs, j); }
    assert bs[0..] == bs;
    ReadIs(mem, body, rs, bs, 0, 0);
  }

  lemma AskableIn(rs: seq<Region>, size: uint32)
    requires Askable(rs, size)
    ensures forall r <- rs :: RegionIn(r, size)
  {}

  lemma ValidAll(msg: byte, rid: uint16, rs: seq<Region>, size: uint32)
    requires |rs| <= MAX_REGIONS && Askable(rs, size)
    ensures var body := Peek(msg, rid, rs)[5..];
      Validate(body, 3, |rs|, false, size, 0).None? && Wrong(body, |rs|, false, size).None?
  {
    hide Validate; hide Peek; hide Askable; hide RegionLengths;
    ReadValid(msg, rid, rs, size, 0);
  }

  // ---- the watch's trailer ----

  /** Events parse back, wherever they stand. */
  lemma {:induction false} EventsBack(b: seq<byte>, at: nat, events: seq<Event>)
    requires Small(events) && at + |EventsBytes(events)| <= |b| && b[at..at + |EventsBytes(events)|] == EventsBytes(events)
    ensures M64p.Events(b, at, |events|) == Some(events)
    decreases |events|
  {
    hide EventBytes; hide EventsBytes; hide Small;
    if events != [] {
      EventsFront(events);
      var e, rest := events[0], EventsBytes(events[1..]);
      PartsAt(b, at, EventBytes(e), rest);
      EventAt(b, at, e);
      EventsBack(b, at + |EventBytes(e)|, events[1..]);
      assert [e] + events[1..] == events;
    }
  }

  lemma EventAt(b: seq<byte>, at: nat, e: Event)
    requires |e.bytes| <= MAX_LEN && at + |EventBytes(e)| <= |b| && b[at..at + |EventBytes(e)|] == EventBytes(e)
    ensures b[at] == e.slot && b[at + 1] as int == |e.bytes| && b[at + 2..at + 2 + |e.bytes|] == e.bytes
  {
    var s := b[at..at + |EventBytes(e)|];
    assert b[at] == s[0] && b[at + 1] == s[1] && b[at + 2..at + 2 + |e.bytes|] == s[2..];
  }

  /** What a trailer takes fits the room there was. */
  lemma {:induction false} FittingFits(queue: seq<Event>, room: int)
    requires Small(queue) && room >= 0
    ensures Small(queue[..Fitting(queue, room)]) && |EventsBytes(queue[..Fitting(queue, room)])| <= room
  {
    hide EventsBytes; hide Small;
    var n := Fitting(queue, room);
    SmallPart(queue, 0, n);
    if n > 0 {
      SmallPart(queue, 1, |queue|);
      FittingFits(queue[1..], room - (2 + |queue[0].bytes|));
      EventsFront(queue[..n]);
      assert queue[..n][1..] == queue[1..][..n - 1];
    } else {
      NoEvents();
      assert queue[..0] == [];
    }
  }

  /** A trailer at the end of a response reads back; with no room for one, there is none. */
  lemma TrailerBack(b: seq<byte>, off: nat, queue: seq<Event>, dropped: uint16, room: int)
    requires Small(queue) && |queue| <= QUEUE && off <= |b| && b[off..] == Trailer(queue, dropped, room)
    ensures ParseTrailer(b, off) == Some((queue[..Taken(queue, room)], if room < 3 then 0 else dropped))
    ensures |Trailer(queue, dropped, room)| <= if room < 0 then 0 else room
  {
    if room >= 3 {
      FittingFits(queue, room - 3);
      var n := Fitting(queue, room - 3);
      TrailerParts(b, off, n, dropped, EventsBytes(queue[..n]));
      hide EventsBytes; hide Fitting; hide Small; hide Put16;
      EventsBack(b, off + 3, queue[..n]);
    }
  }

  lemma TrailerParts(b: seq<byte>, off: nat, n: byte, dropped: uint16, events: seq<byte>)
    requires off <= |b| && b[off..] == [n] + Put16(dropped) + events
    ensures off + 3 + |events| == |b| && b[off] == n && Be16(b, off + 1) == dropped && b[off + 3..off + 3 + |events|] == events
  {
    var t, d := [n] + Put16(dropped) + events, Put16(dropped);
    assert b[off] == b[off..][0] && b[off + 1] == b[off..][1] && b[off + 2] == b[off..][2];
    assert t[3..] == events && b[off + 3..off + 3 + |events|] == b[off..][3..];
    assert t[1] == d[0] && t[2] == d[1];
  }

  // ---- a read, asked, answered and read ----

  /** A response's blocks, and what follows them. */
  lemma ResponseParses(msg: byte, body: seq<byte>, bs: seq<seq<byte>>, trailer: seq<byte>)
    requires msg == PEEKV_RESP || msg == PEEKROM_RESP
    requires |body| >= 3 && AllSmall(bs) && body[2] as int == |bs|
    ensures var r := PeekHead(msg, body) + BlocksBytes(bs) + trailer; var b := r[5..];
      && |r| == 8 + |BlocksBytes(bs)| + |trailer|
      && Blocks(b, 3, b[2]) == Some((bs, 3 + |BlocksBytes(bs)|)) && b[3 + |BlocksBytes(bs)|..] == trailer
      && r[..4] == MAGIC && r[4] == msg && Be16(b, 0) == Be16(body, 0)
  {
    hide BlocksBytes; hide Blocks; hide AllSmall;
    var out, head := BlocksBytes(bs), PeekHead(msg, body);
    var r := head + out + trailer;
    var b := r[5..];
    assert b[2] == head[7] == body[2];
    assert b[3..3 + |out|] == out;
    BlocksBack(b, 3, bs);
    var rid := Put16(Be16(body, 0));
    assert b[0] == head[5] == rid[0] && b[1] == head[6] == rid[1];
  }

  /** What a response to a read of memory has room for besides. */
  function Room(bs: seq<seq<byte>>): (room: int)
    requires AllSmall(bs)
  {
    APP_CAP - (8 + |BlocksBytes(bs)|)
  }

  /** A read of memory brings back what memory holds, and of the watch's events what there is room for. */
  lemma PeekAnswered(st: State, rid: uint16, rs: seq<Region>)
    requires Sane(st) && |rs| <= MAX_REGIONS && Askable(rs, |st.ram|)
    ensures (forall r <- rs :: RegionIn(r, |st.ram|)) && AllSmall(Slices(st.ram, rs))
    ensures var bs := Slices(st.ram, rs); var reply := ServePeek(st, Peek(PEEKV, rid, rs)[5..]).reply;
      && reply.Some? && |reply.value| <= APP_CAP
      && Parse(reply.value) == Fine(PeekV(rid, bs,
           if st.slots == [] then [] else st.queue[..Taken(st.queue, Room(bs))],
           if st.slots == [] || Room(bs) < 3 then 0 else st.dropped))
  {
    hide *;
    SaneIs(st);
    AskableIn(rs, |st.ram|);
    ReadAnswered(st.ram, PEEKV, rid, rs);
    var body, bs := Peek(PEEKV, rid, rs)[5..], Slices(st.ram, rs);
    ReadBlocksFit(st.ram, body);
    PeekReplyIs(st, body);
    RoomIs(bs);
    var trailer := if st.slots == [] then [] else Trailer(st.queue, st.dropped, Room(bs));
    var reply := PeekHead(PEEKV_RESP, body) + BlocksBytes(bs) + trailer;
    ResponseParses(PEEKV_RESP, body, bs, trailer);
    var b, off := reply[5..], 3 + |BlocksBytes(bs)|;
    if st.slots == [] {
      NoTrailer(b, off);
    } else {
      TrailerBack(b, off, st.queue, st.dropped, Room(bs));
    }
    PeekVParses(reply, bs, off);
  }

  lemma SaneIs(st: State)
    requires Sane(st)
    ensures |st.ram| <= 0xFFFF_FFFF && |st.rom| <= 0xFFFF_FFFF && |st.queue| <= QUEUE && Small(st.queue)
  {}

  lemma RoomIs(bs: seq<seq<byte>>)
    requires AllSmall(bs)
    ensures Room(bs) == APP_CAP - (8 + |BlocksBytes(bs)|)
  {}

  lemma PeekVParses(reply: seq<byte>, bs: seq<seq<byte>>, off: nat)
    requires |reply| >= 8 && reply[..4] == MAGIC && reply[4] == PEEKV_RESP
    requires var b := reply[5..]; Blocks(b, 3, b[2]) == Some((bs, off)) && ParseTrailer(b, off).Some?
    ensures var b := reply[5..]; var t := ParseTrailer(b, off).value;
      Parse(reply) == Fine(PeekV(Be16(b, 0), bs, t.0, t.1))
  {
    hide Blocks; hide ParseTrailer; hide Be16;
  }

  lemma PeekReplyIs(st: State, body: seq<byte>)
    requires Sane(st) && |body| >= 3 && Wrong(body, body[2], false, |st.ram|).None?
    ensures var out := ReadBlocks(st.ram, body, 3, body[2], 0);
      ServePeek(st, body).reply == Some(PeekHead(PEEKV_RESP, body) + out
        + if st.slots == [] then [] else Trailer(st.queue, st.dropped, APP_CAP - (8 + |out|)))
  {
    hide ReadBlocks; hide Validate; hide Trailer; hide Taken; hide PeekHead;
    var out := ReadBlocks(st.ram, body, 3, body[2], 0);
    assert PeekHead(PEEKV_RESP, body) + out + [] == PeekHead(PEEKV_RESP, body) + out;
  }

  lemma NoTrailer(b: seq<byte>, off: nat)
    requires off <= |b| && b[off..] == []
    ensures ParseTrailer(b, off) == Some(([], 0))
  {}

  lemma ReadBlocksFit(mem: seq<byte>, body: seq<byte>)
    requires |mem| <= 0xFFFF_FFFF && |body| >= 3 && Wrong(body, body[2], false, |mem|).None?
    ensures 8 + |ReadBlocks(mem, body, 3, body[2], 0)| <= APP_CAP
  {
    hide ReadBlocks;
  }

  /** A read of the ROM brings back what the ROM holds, or that the bus was busy. */
  lemma PeekRomAnswered(st: State, rid: uint16, rs: seq<Region>, busy: bool)
    requires Sane(st) && |rs| <= MAX_REGIONS && Askable(rs, |st.rom|) && |st.rom| > 0
    ensures forall r <- rs :: RegionIn(r, |st.rom|)
    ensures var reply := ServePeekRom(st, Peek(PEEKROM, rid, rs)[5..], busy).reply;
      && reply.Some? && |reply.value| <= APP_CAP
      && Parse(reply.value) in {Fine(PeekRom(rid, Slices(st.rom, rs))), Fine(Refusal(rid, BUSY))}
      && (!busy ==> Parse(reply.value) == Fine(PeekRom(rid, Slices(st.rom, rs))))
  {
    AskableIn(rs, |st.rom|);
    ReadAnswered(st.rom, PEEKROM, rid, rs);
    var body, bs := Peek(PEEKROM, rid, rs)[5..], Slices(st.rom, rs);
    hide Peek; hide ReadBlocks; hide Wrong; hide BlocksBytes; hide AllSmall; hide PeekHead; hide Reads; hide Short;
    hide Blocks; hide Slices; hide RegionIn; hide Askable; hide Be16;
    ReadBlocksFit(st.rom, body);
    ResponseParses(PEEKROM_RESP, body, bs, []);
    assert PeekHead(PEEKROM_RESP, body) + BlocksBytes(bs) + [] == PeekHead(PEEKROM_RESP, body) + BlocksBytes(bs);
    RefusalParses(rid, BUSY);
  }

  lemma RefusalParses(rid: uint16, code: byte)
    ensures Parse(Short(ERR, rid, code)) == Fine(Refusal(rid, code))
  {
    var r, w := Short(ERR, rid, code), Put16(rid);
    assert r[5..][0] == w[0] && r[5..][1] == w[1] && r[5..][2] == code;
  }

  // ---- a write, asked and served ----

  /** Writes put into memory, one after the other. */
  function WriteAll(mem: seq<byte>, ws: seq<Write>): (after: seq<byte>)
    requires forall w <- ws :: w.addr as int + |w.data| <= |mem|
    ensures |after| == |mem|
    decreases |ws|
  {
    if ws == [] then mem
    else
      assert ws[0] in ws;
      WriteAll(Overwrite(mem, ws[0].addr, ws[0].data), ws[1..])
  }

  ghost predicate Writable(ws: seq<Write>, size: nat) {
    Limits(WriteLengths(ws)).None? && forall w <- ws :: w.addr as int + |w.data| <= size
  }

  /** Where the `i`th write's bytes start, among all of them. */
  function OffsetOf(ws: seq<Write>, i: nat): (off: nat)
    requires i <= |ws| && forall w <- ws :: |w.data| <= MAX_REGION_BYTES
  {
    |WritesBytes(ws[..i])|
  }

  /** The `i`th write, as it stands. */
  lemma {:induction false} WriteAt(ws: seq<Write>, i: nat, n: nat)
    requires i < n <= |ws| && forall w <- ws :: |w.data| <= MAX_REGION_BYTES
    ensures OffsetOf(ws, i + 1) == OffsetOf(ws, i) + 6 + |ws[i].data| <= OffsetOf(ws, n)
    ensures WritesBytes(ws[..n])[OffsetOf(ws, i)..OffsetOf(ws, i + 1)] == WriteBytes(ws[i])
  {
    hide WriteBytes;
    WritesNext(ws, n - 1);
    if i < n - 1 {
      WriteAt(ws, i, n - 1);
      var b := WritesBytes(ws[..n - 1]);
      assert WritesBytes(ws[..n])[..|b|] == b;
      SliceOfSlice(WritesBytes(ws[..n]), 0, |b|, 0);
    }
  }

  lemma WritesNext(ws: seq<Write>, i: nat)
    requires i < |ws| && forall w <- ws :: |w.data| <= MAX_REGION_BYTES
    ensures (forall w <- ws[..i] :: w in ws) && (forall w <- ws[..i + 1] :: w in ws)
    ensures WritesBytes(ws[..i + 1]) == WritesBytes(ws[..i]) + WriteBytes(ws[i]) && |ws[i].data| <= MAX_REGION_BYTES
  {
    assert ws[..i + 1][..i] == ws[..i];
  }

  lemma PokeBodyIs(rid: uint16, ws: seq<Write>)
    requires Limits(WriteLengths(ws)).None?
    ensures forall w <- ws :: |w.data| <= MAX_REGION_BYTES
    ensures var p := Poke(rid, ws); var body := p[5..];
      && p[..4] == MAGIC && p[4] == POKEV && |body| == 3 + |WritesBytes(ws)| && body[2] == |ws| && Be16(body, 0) == rid
      && body[3..] == WritesBytes(ws)
  {
    SmallWrites(ws);
    hide WritesBytes; hide Limits;
    var p := Poke(rid, ws);
    assert p[5] == Put16(rid)[0] && p[6] == Put16(rid)[1];
  }

  /** The write at `at` of `body` is `w`. */
  predicate Carries(body: seq<byte>, w: Write, at: nat) {
    && at + 6 + |w.data| <= |body| && |w.data| <= MAX_REGION_BYTES
    && Be32(body, at) == w.addr && Be16(body, at + 4) == |w.data| && body[at + 6..at + 6 + |w.data|] == w.data
  }

  lemma CarriesIf(body: seq<byte>, w: Write, off: nat)
    requires |w.data| <= MAX_REGION_BYTES && |body| >= 3 && off + 6 + |w.data| <= |body[3..]|
    requires body[3..][off..off + 6 + |w.data|] == WriteBytes(w)
    ensures Carries(body, w, 3 + off)
  {
    var r := Region(w.addr, |w.data|);
    hide RegionBytes;
    PartsAt(body[3..], off, RegionBytes(r), w.data);
    RegionAt(body, 3 + off, r, body[3..], off);
  }

  lemma CarriesAll(rid: uint16, ws: seq<Write>, i: nat)
    requires Limits(WriteLengths(ws)).None? && i < |ws|
    ensures forall w <- ws :: |w.data| <= MAX_REGION_BYTES
    ensures Carries(Poke(rid, ws)[5..], ws[i], 3 + OffsetOf(ws, i))
  {
    PokeBodyIs(rid, ws);
    hide Poke; hide Limits; hide WriteBytes; hide Carries; hide WritesBytes;
    WriteAt(ws, i, |ws|);
    assert ws[..|ws|] == ws && ws[i] in ws;
    CarriesIf(Poke(rid, ws)[5..], ws[i], OffsetOf(ws, i));
  }

  /** One write served, and the rest. */
  lemma NextWrite(mem: seq<byte>, body: seq<byte>, off: nat, n: nat, total: nat, w: Write)
    requires |mem| <= 0xFFFF_FFFF && n > 0 && Carries(body, w, off) && total + |w.data| <= MAX_TOTAL_BYTES
    requires w.addr as int + |w.data| <= |mem|
    ensures Validate(body, off, n, true, |mem|, total) == Validate(body, off + 6 + |w.data|, n - 1, true, |mem|, total + |w.data|)
    ensures Validate(body, off, n, true, |mem|, total).None? ==>
      WriteBlocks(mem, body, off, n, total)
      == WriteBlocks(Overwrite(mem, w.addr, w.data), body, off + 6 + |w.data|, n - 1, total + |w.data|)
  {
    hide Be32; hide Be16;
  }

  /** An agent takes the writes from the `i`th on, and memory after them is as if each was put there in turn. */
  lemma {:induction false} WritesServed(mem: seq<byte>, body: seq<byte>, ws: seq<Write>, i: nat)
    requires |mem| <= 0xFFFF_FFFF && Writable(ws, |mem|) && i <= |ws| && (forall w <- ws :: |w.data| <= MAX_REGION_BYTES)
    requires forall j :: i <= j < |ws| ==> Carries(body, ws[j], 3 + OffsetOf(ws, j))
    ensures var off, total := 3 + OffsetOf(ws, i), Sum(WriteLengths(ws)[..i]);
      && (forall w <- ws[i..] :: w in ws)
      && Validate(body, off, |ws| - i, true, |mem|, total).None?
      && WriteBlocks(mem, body, off, |ws| - i, total) == WriteAll(mem, ws[i..])
    decreases |ws| - i
  {
    hide *;
    if i < |ws| {
      var lens := WriteLengths(ws);
      WritableAt(ws, i, |mem|);
      WriteAt(ws, i, |ws|);
      WritesServed(Overwrite(mem, ws[i].addr, ws[i].data), body, ws, i + 1);
      NextWrite(mem, body, 3 + OffsetOf(ws, i), |ws| - i, Sum(lens[..i]), ws[i]);
      WriteAllNext(mem, ws, i);
    } else {
      assert ws[i..] == [];
      NothingLeft(mem, body, 3 + OffsetOf(ws, i), Sum(WriteLengths(ws)[..i]));
    }
  }

  lemma NothingLeft(mem: seq<byte>, body: seq<byte>, off: nat, total: nat)
    requires |mem| <= 0xFFFF_FFFF
    ensures Validate(body, off, 0, true, |mem|, total).None? && WriteBlocks(mem, body, off, 0, total) == mem == WriteAll(mem, [])
  {}

  lemma WriteAllNext(mem: seq<byte>, ws: seq<Write>, i: nat)
    requires i < |ws| && forall w <- ws :: w.addr as int + |w.data| <= |mem|
    ensures ws[i] in ws && (forall w <- ws[i..] :: w in ws) && (forall w <- ws[i + 1..] :: w in ws)
    ensures WriteAll(mem, ws[i..]) == WriteAll(Overwrite(mem, ws[i].addr, ws[i].data), ws[i + 1..])
  {
    hide Overwrite;
    assert ws[i..][0] == ws[i] && ws[i..][1..] == ws[i + 1..];
  }

  lemma WritableAt(ws: seq<Write>, i: nat, size: nat)
    requires Writable(ws, size) && i < |ws|
    ensures (forall w <- ws :: w.addr as int + |w.data| <= size) && ws[i].addr as int + |ws[i].data| <= size
    ensures var lens := WriteLengths(ws);
      Sum(lens[..i + 1]) == Sum(lens[..i]) + |ws[i].data| <= MAX_TOTAL_BYTES
  {
    hide Limits;
    assert ws[i] in ws;
    WithinTotal(ws, i);
  }

  lemma WithinTotal(ws: seq<Write>, i: nat)
    requires Limits(WriteLengths(ws)).None? && i < |ws|
    ensures var lens := WriteLengths(ws);
      Sum(lens[..i + 1]) == Sum(lens[..i]) + |ws[i].data| <= MAX_TOTAL_BYTES
  {
    SumPrefix(WriteLengths(ws), i);
  }

  /** A write within the limits and in range is taken whole, and memory after it is as if each was put there in turn. */
  lemma PokeServed(st: State, rid: uint16, ws: seq<Write>)
    requires Sane(st) && Writable(ws, |st.ram|)
    ensures var r := ServePoke(st, Poke(rid, ws)[5..]);
      r.st == st.(ram := WriteAll(st.ram, ws)) && r.reply == Some(Short(POKE_ACK, rid, |ws|))
  {
    PokeBodyIs(rid, ws);
    SmallWrites(ws);
    PokeTaken(st.ram, rid, ws);
    hide Poke; hide Validate; hide WriteBlocks; hide WriteAll; hide Short; hide Limits; hide WritesBytes;
  }

  lemma WritableIs(ws: seq<Write>, size: nat)
    requires Writable(ws, size)
    ensures Limits(WriteLengths(ws)).None? && forall w <- ws :: w.addr as int + |w.data| <= size
  {
    hide Limits;
  }

  lemma PokeTaken(mem: seq<byte>, rid: uint16, ws: seq<Write>)
    requires |mem| <= 0xFFFF_FFFF && Writable(ws, |mem|)
    ensures var body := Poke(rid, ws)[5..];
      && |ws| <= MAX_REGIONS && Validate(body, 3, |ws|, true, |mem|, 0).None?
      && WriteBlocks(mem, body, 3, |ws|, 0) == WriteAll(mem, ws)
  {
    hide *;
    WritableIs(ws, |mem|);
    PokeBodyIs(rid, ws);
    SmallWrites(ws);
    var body := Poke(rid, ws)[5..];
    forall j | 0 <= j < |ws| ensures Carries(body, ws[j], 3 + OffsetOf(ws, j)) { CarriesAll(rid, ws, j); }
    WritesServed(mem, body, ws, 0);
    NoSum(WriteLengths(ws));
    NoneBefore(ws);
    assert ws[0..] == ws;
  }

  lemma NoSum(lens: seq<nat>)
    ensures Sum(lens[..0]) == 0
  {}

  lemma NoneBefore(ws: seq<Write>)
    requires forall w <- ws :: |w.data| <= MAX_REGION_BYTES
    ensures OffsetOf(ws, 0) == 0
  {}

  // ---- any body at all ----

  /** The writes a body holds from `off` on: what of `n` is there. */
  function WritesAt(body: seq<byte>, off: nat, n: nat): (ws: seq<Write>)
    ensures forall w <- ws :: |w.data| <= 0xFFFF
    decreases n
  {
    if n == 0 || off + 6 > |body| || off + 6 + Be16(body, off + 4) > |body| then []
    else
      var end := off + 6 + Be16(body, off + 4);
      [Write(Be32(body, off), body[off + 6..end])] + WritesAt(body, end, n - 1)
  }

  /** `ws` stand in `body` from `off` on, one after the other. */
  ghost predicate StandAt(body: seq<byte>, off: nat, ws: seq<Write>) {
    (forall w <- ws :: |w.data| <= MAX_REGION_BYTES) && forall i :: 0 <= i < |ws| ==> Carries(body, ws[i], off + OffsetOf(ws, i))
  }

  lemma {:induction false} OffsetAfter(w: Write, rest: seq<Write>, i: nat)
    requires i <= |rest| && forall v <- [w] + rest :: |v.data| <= MAX_REGION_BYTES
    ensures forall v <- rest :: v in [w] + rest
    ensures OffsetOf([w] + rest, i + 1) == 6 + |w.data| + OffsetOf(rest, i)
  {
    hide WriteBytes; hide OffsetOf;
    var ws := [w] + rest;
    assert forall v <- rest :: v in ws;
    NoneBefore(ws);
    NoneBefore(rest);
    if i == 0 {
      WriteAt(ws, 0, 1);
    } else {
      OffsetAfter(w, rest, i - 1);
      WriteAt(ws, i, i + 1);
      WriteAt(rest, i - 1, i);
    }
  }

  lemma StandMore(body: seq<byte>, off: nat, w: Write, rest: seq<Write>)
    requires Carries(body, w, off) && StandAt(body, off + 6 + |w.data|, rest)
    ensures StandAt(body, off, [w] + rest)
  {
    hide Carries; hide OffsetOf;
    var ws := [w] + rest;
    assert |w.data| <= MAX_REGION_BYTES by { SmallCarried(body, w, off); }
    NoneBefore(ws);
    forall i | 0 <= i < |ws| ensures Carries(body, ws[i], off + OffsetOf(ws, i)) {
      if i > 0 { OffsetAfter(w, rest, i - 1); }
    }
  }

  lemma SmallCarried(body: seq<byte>, w: Write, off: nat)
    requires Carries(body, w, off)
    ensures |w.data| <= MAX_REGION_BYTES
  {}

  /** A body an agent takes is writes one after the other, all in range, and memory after them is as if each was put there in turn. */
  lemma {:induction false} BlocksAreWrites(mem: seq<byte>, body: seq<byte>, off: nat, n: nat, total: nat)
    requires |mem| <= 0xFFFF_FFFF && Validate(body, off, n, true, |mem|, total).None?
    ensures var ws := WritesAt(body, off, n);
      && |ws| == n && StandAt(body, off, ws) && (forall w <- ws :: w.addr as int + |w.data| <= |mem|)
      && WriteBlocks(mem, body, off, n, total) == WriteAll(mem, ws)
    decreases n
  {
    hide Be32; hide Be16; hide Overwrite; hide StandAt;
    if n > 0 {
      var end := off + 6 + Be16(body, off + 4);
      var w := Write(Be32(body, off), body[off + 6..end]);
      BlocksAreWrites(Overwrite(mem, w.addr, w.data), body, end, n - 1, total + |w.data|);
      var rest := WritesAt(body, end, n - 1);
      StandMore(body, off, w, rest);
      assert ([w] + rest)[1..] == rest;
    } else {
      StandNone(body, off);
    }
  }

  lemma StandNone(body: seq<byte>, off: nat)
    ensures StandAt(body, off, [])
  {}

  /** The writes that stand in a body are the ones read from it. */
  lemma {:induction false} WritesRead(body: seq<byte>, off: nat, ws: seq<Write>)
    requires StandAt(body, off, ws)
    ensures WritesAt(body, off, |ws|) == ws
    decreases |ws|
  {
    hide *;
    if ws != [] {
      var w, rest := ws[0], ws[1..];
      assert ws == [w] + rest;
      StandRest(body, off, w, rest);
      WritesRead(body, off + 6 + |w.data|, rest);
      ReadFirst(body, off, w, |rest|);
    } else {
      ReadNone(body, off);
    }
  }

  lemma ReadNone(body: seq<byte>, off: nat)
    ensures WritesAt(body, off, 0) == []
  {}

  lemma ReadFirst(body: seq<byte>, off: nat, w: Write, n: nat)
    requires Carries(body, w, off)
    ensures WritesAt(body, off, n + 1) == [w] + WritesAt(body, off + 6 + |w.data|, n)
  {
    hide Be32; hide Be16;
  }

  lemma StandRest(body: seq<byte>, off: nat, w: Write, rest: seq<Write>)
    requires StandAt(body, off, [w] + rest)
    ensures Carries(body, w, off) && StandAt(body, off + 6 + |w.data|, rest)
  {
    hide OffsetOf; hide Carries;
    var ws := [w] + rest;
    assert forall v <- rest :: v in ws;
    NoneBefore(ws);
    assert Carries(body, ws[0], off + OffsetOf(ws, 0));
    forall i | 0 <= i < |rest| ensures Carries(body, rest[i], off + 6 + |w.data| + OffsetOf(rest, i)) {
      OffsetAfter(w, rest, i);
      assert Carries(body, ws[i + 1], off + OffsetOf(ws, i + 1));
    }
  }

  /** The writes a request was made of are those that stand in it. */
  lemma PokeHolds(rid: uint16, ws: seq<Write>)
    requires Limits(WriteLengths(ws)).None?
    ensures WritesAt(Poke(rid, ws)[5..], 3, |ws|) == ws
  {
    hide *;
    PokeStands(rid, ws);
    WritesRead(Poke(rid, ws)[5..], 3, ws);
  }

  lemma PokeStands(rid: uint16, ws: seq<Write>)
    requires Limits(WriteLengths(ws)).None?
    ensures StandAt(Poke(rid, ws)[5..], 3, ws)
  {
    hide *;
    SmallWrites(ws);
    var body := Poke(rid, ws)[5..];
    forall i | 0 <= i < |ws| ensures Carries(body, ws[i], 3 + OffsetOf(ws, i)) { CarriesAll(rid, ws, i); }
    StandIf(body, 3, ws);
  }

  lemma StandIf(body: seq<byte>, off: nat, ws: seq<Write>)
    requires (forall w <- ws :: |w.data| <= MAX_REGION_BYTES) && forall i :: 0 <= i < |ws| ==> Carries(body, ws[i], off + OffsetOf(ws, i))
    ensures StandAt(body, off, ws)
  {}

  /**
   * Whatever the body of a write, it is refused and nothing is changed, or it is acknowledged: then it holds as many
   * writes as it says, each in range, and memory is as if each was put there in turn.
   */
  lemma PokeAllOrNothing(st: State, body: seq<byte>)
    requires Sane(st)
    ensures var r := ServePoke(st, body);
      && r.reply.Some? && |r.reply.value| == 8 && r.reply.value[4] in {ERR, POKE_ACK}
      && (r.reply.value[4] == ERR ==> r.st == st)
      && (r.reply.value[4] == POKE_ACK ==>
        && |body| >= 3 && r.reply.value[7] == body[2]
        && exists ws: seq<Write> ::
            && |ws| == body[2] as int && StandAt(body, 3, ws) && (forall w <- ws :: w.addr as int + |w.data| <= |st.ram|)
            && r.st == st.(ram := WriteAll(st.ram, ws)))
  {
    hide StandAt; hide Validate; hide WriteBlocks; hide WriteAll; hide Put16; hide Be16; hide WritesAt;
    if |body| >= 3 && Wrong(body, body[2], true, |st.ram|).None? {
      BlocksAreWrites(st.ram, body, 3, body[2], 0);
    }
  }
}
