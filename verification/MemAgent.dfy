/** The agent serving M64P requests: its statics, and the loops that read and write memory. */
module MemAgent {
  import opened Bytes
  import opened M64p
  import opened MemProto
  import opened WatchRing

  /** Words loaded from the cart per PI access. */
  const CHUNK_WORDS: nat := 16

  class Agent {
    const ram: array<byte>
    const rom: seq<byte>
    const ring: Ring
    var slots: seq<Slot>
    var errors: uint32
    var pokeHeld: bool
    var pokeApplied: byte
    var pokeRid: uint16

    ghost predicate Valid()
      reads this, ram, ring, ring.events
    {
      ring.Valid() && Sane(View())
    }

    ghost function View(): (st: State)
      reads this, ram, ring
    {
      State(ram[..], rom, slots, ring.queue, ring.dropped, if pokeHeld then Some(Held(pokeRid, pokeApplied)) else None)
    }

    constructor (ram: array<byte>, rom: seq<byte>)
      requires ram.Length <= MAX_RAM && |rom| <= 0xFFFF_FFFF && Whole(|rom|)
      ensures Valid() && View() == State(ram[..], rom, [], [], 0, None) && this.ram == ram
      ensures fresh(ring) && fresh(ring.events)
    {
      this.ram, this.rom := ram, rom;
      ring := new Ring();
      slots, errors, pokeHeld, pokeApplied, pokeRid := [], 0, false, 0, 0;
    }

    // ---- replies ----

    method SendErr(rid: uint16, code: byte) returns (reply: seq<byte>)
      modifies this`errors
      ensures reply == Short(ERR, rid, code) && errors == (old(errors) + 1) % 0x1_0000_0000
    {
      reply := Header(ERR) + Put16(rid) + [code];
      errors := (errors + 1) % 0x1_0000_0000;
    }

    /** `len` bytes of memory. */
    method Load(addr: nat, len: nat) returns (out: seq<byte>)
      requires addr + len <= ram.Length
      ensures out == ram[addr..addr + len]
    {
      out := [];
      for j := 0 to len
        invariant out == ram[addr..addr + j]
      {
        out := out + [ram[addr + j]];
      }
    }

    /** `n` regions of memory, each with its length. */
    method CopyOut(body: seq<byte>, n: byte) returns (out: seq<byte>)
      requires |body| >= 3 && ram.Length <= MAX_RAM && Wrong(body, n, false, ram.Length).None?
      ensures out == ReadBlocks(ram[..], body, 3, n, 0)
    {
      hide Put16; hide Be16; hide Be32; hide ReadBlocks; hide Validate;
      out := [];
      var off: nat := 3;
      ghost var total: nat := 0;
      for i := 0 to n as int
        invariant total <= MAX_TOTAL_BYTES && Validate(body, off, n as int - i, false, ram.Length, total).None?
        invariant out + ReadBlocks(ram[..], body, off, n as int - i, total) == ReadBlocks(ram[..], body, 3, n, 0)
      {
        BlockIn(body, off, n as int - i, ram.Length, total);
        var addr, len := Be32(body, off), Be16(body, off + 4);
        var block := Load(addr, len);
        assert block == ram[..][addr..addr as int + len as int];
        NextBlock(out, ram[..], body, off, n as int - i, total);
        out := out + Put16(len) + block;
        off, total := off + 6, total + len;
      }
      NoBlocks(out, ram[..], body, off, total);
    }

    /** Put one region's bytes in memory. */
    method Store(addr: nat, data: seq<byte>)
      requires addr + |data| <= ram.Length
      modifies ram
      ensures ram[..] == Overwrite(old(ram[..]), addr, data)
    {
      for j := 0 to |data|
        invariant forall k :: 0 <= k < ram.Length ==> ram[k] == if addr <= k < addr + j then data[k - addr] else old(ram[k])
      {
        ram[addr + j] := data[j];
      }
    }

    /** The `n` regions of a request already checked, written one after the other. */
    method CopyIn(body: seq<byte>, n: byte)
      requires |body| >= 3 && ram.Length <= MAX_RAM && Wrong(body, n, true, ram.Length).None?
      modifies ram
      ensures ram[..] == WriteBlocks(old(ram[..]), body, 3, n, 0)
    {
      hide Overwrite; hide Be16; hide Be32;
      var off: nat := 3;
      ghost var total: nat := 0;
      for i := 0 to n as int
        invariant Validate(body, off, n as int - i, true, ram.Length, total).None?
        invariant WriteBlocks(ram[..], body, off, n as int - i, total) == WriteBlocks(old(ram[..]), body, 3, n, 0)
      {
        var addr, len := Be32(body, off), Be16(body, off + 4);
        Store(addr, body[off + 6..off + 6 + len]);
        off, total := off + 6 + len, total + len;
      }
    }

    // ---- the cart ROM ----

    /** `len` bytes of ROM from `off`, of any alignment, out of whole aligned words. */
    method CartRomRead(off: nat, len: nat) returns (ok: bool, dst: seq<byte>)
      requires off + len <= |rom| && Whole(|rom|)
      ensures ok ==> dst == rom[off..off + len]
    {
      hide Clip; hide Chunk; hide Whole; hide WordStart;
      dst := [];
      var end := off + len;
      var pos := WordStart(off);
      while pos < end
        invariant Whole(pos) && dst == rom[off..Clip(off, pos, end)]
        decreases end - pos
      {
        var n := Chunk(pos, end, |rom|);
        var free := *;
        if !free { return false, dst; }
        var more := Unpack(pos, n, off, end);
        dst := dst + more;
        pos := pos + n * 4;
      }
      ok := true;
    }

    /** The bytes of `n` words from `pos` that are of `off..end`. */
    method Unpack(pos: nat, n: nat, off: nat, end: nat) returns (dst: seq<byte>)
      requires pos + n * 4 <= |rom| && off <= end <= |rom|
      ensures dst == rom[Clip(off, pos, end)..Clip(off, pos + n * 4, end)]
    {
      hide Clip; hide Unpacked;
      dst := [];
      for i := 0 to n * 4
        invariant dst == rom[Clip(off, pos, end)..Clip(off, pos + i, end)]
      {
        var at := pos + i;
        ClipNext(rom, off, pos, at, end);
        if off <= at < end { dst := dst + [Unpacked(rom, pos, n, i)]; }
      }
    }

    /** `n` regions of the ROM, unless the bus stays busy under one. */
    method CopyOutRom(body: seq<byte>, n: byte) returns (ok: bool, out: seq<byte>)
      requires |body| >= 3 && |rom| <= 0xFFFF_FFFF && Whole(|rom|) && Wrong(body, n, false, |rom|).None?
      ensures 3 + 6 * n as int <= |body|
      ensures ok ==> out == ReadBlocks(rom, body, 3, n, 0)
      ensures !ok ==> Reads(body, 3, n)
    {
      hide SoFar; hide ReadBlocks; hide Wrong; hide Reads; hide Whole;
      ghost var total := NoneYet(rom, body, n);
      ok, out := true, [];
      var i: nat := 0;
      while ok && i < n as int
        invariant i <= n as int && (!ok ==> Reads(body, 3, n)) && (ok ==> SoFar(rom, body, n, i, total, out))
        decreases ok, n as int - i
      {
        ok, out, total := AddBlock(body, i, n, total, out);
        if ok { i := i + 1; }
      }
      if ok { AllRead(rom, body, n, total, out); }
    }

    /** The `i`th region of the ROM, after those before it. */
    method AddBlock(body: seq<byte>, i: nat, n: byte, ghost total: nat, out: seq<byte>)
      returns (ok: bool, more: seq<byte>, ghost after: nat)
      requires i < n as int && |rom| <= 0xFFFF_FFFF && Whole(|rom|) && SoFar(rom, body, n, i, total, out)
      ensures 3 + 6 * n as int <= |body| && if ok then SoFar(rom, body, n, i + 1, after, more) else Reads(body, 3, n)
    {
      hide Put16; hide Be16; hide Be32; hide ReadBlocks; hide Validate; hide Reads; hide LengthAt; hide Whole;
      var off := 3 + 6 * i;
      BlockIn(body, off, n as int - i, |rom|, total);
      var addr, len := Be32(body, off), Be16(body, off + 4);
      var block;
      ok, block := RomBlock(addr, len);
      after, more := total, out;
      if !ok {
        ReadsIf(body, 3, n, i);
        return;
      }
      NextBlock(out, rom, body, off, n as int - i, total);
      more := out + Put16(len) + block;
      after := total + len;
    }

    method RomBlock(addr: nat, len: nat) returns (ok: bool, block: seq<byte>)
      requires addr + len <= |rom| && Whole(|rom|)
      ensures if ok then block == rom[addr..addr + len] else len != 0
    {
      ok, block := true, [];
      if len != 0 { ok, block := CartRomRead(addr, len); }
    }

    // ---- requests ----

    /** Whether the errors were counted that `reply` says there was. */
    ghost predicate Counted(was: uint32, reply: seq<byte>)
      reads this
    {
      |reply| >= 5 && errors == if reply[4] == ERR then (was + 1) % 0x1_0000_0000 else was
    }

    method HandlePeekv(body: seq<byte>) returns (reply: seq<byte>)
      requires Valid()
      modifies this`errors, ring
      ensures Valid() && Served(View(), Some(reply)) == ServePeek(old(View()), body) && Counted(old(errors), reply)
    {
      hide Sane; hide ReadBlocks; hide Trailer; hide Taken; hide Wrong; hide HandedOf; hide LostOf; hide Came;
      SaneSize(View());
      if |body| < 3 {
        reply := SendErr(0, MALFORMED);
        return;
      }
      var wrong := ValidateRegions(body, body[2], false, ram.Length);
      if wrong.Some? {
        reply := SendErr(Be16(body, 0), wrong.value);
        return;
      }
      var blocks := CopyOut(body, body[2]);
      reply := PeekHead(PEEKV_RESP, body) + blocks;
      if slots != [] {
        SaneDrain(View(), Taken(ring.queue, APP_CAP - |reply|));
        var trailer := ring.Drain(APP_CAP - |reply|);
        reply := reply + trailer;
      }
    }

    method HandlePokev(body: seq<byte>) returns (reply: seq<byte>)
      requires Valid()
      modifies this`errors, ram
      ensures Valid() && Served(View(), Some(reply)) == ServePoke(old(View()), body) && Counted(old(errors), reply)
    {
      hide Sane; hide WriteBlocks; hide Wrong; hide HandedOf; hide LostOf; hide Came;
      SaneSize(View());
      if |body| < 3 {
        reply := SendErr(0, MALFORMED);
        return;
      }
      var wrong := ValidateRegions(body, body[2], true, ram.Length);
      if wrong.Some? {
        reply := SendErr(Be16(body, 0), wrong.value);
        return;
      }
      CopyIn(body, body[2]);
      SaneRam(old(View()), ram[..]);
      reply := Header(POKE_ACK) + Put16(Be16(body, 0)) + [body[2]];
    }

    method HandlePeekrom(body: seq<byte>) returns (reply: seq<byte>, ghost busy: bool)
      requires Valid()
      modifies this`errors
      ensures Valid() && Served(View(), Some(reply)) == ServePeekRom(old(View()), body, busy) && Counted(old(errors), reply)
    {
      hide Sane; hide ReadBlocks; hide Wrong; hide HandedOf; hide LostOf; hide Came; hide Reads;
      SaneSize(View());
      busy := false;
      if |body| < 3 {
        reply := SendErr(0, MALFORMED);
        return;
      }
      if |rom| == 0 {
        reply := SendErr(Be16(body, 0), UNSUPPORTED);
        return;
      }
      var wrong := ValidateRegions(body, body[2], false, |rom|);
      if wrong.Some? {
        reply := SendErr(Be16(body, 0), wrong.value);
        return;
      }
      var ok, blocks := CopyOutRom(body, body[2]);
      if !ok {
        busy := true;
        reply := SendErr(Be16(body, 0), BUSY);
        return;
      }
      reply := PeekHead(PEEKROM_RESP, body) + blocks;
    }

    /** The slots of a WATCH, built aside. */
    method NextSlots(body: seq<byte>, n: byte) returns (r: Asked)
      requires ram.Length <= MAX_RAM
      ensures r == SlotsAsked(body, 3, n, ram.Length)
    {
      var next: seq<Slot>, off: nat := [], 3;
      var size: uint32 := ram.Length;
      assert forall rest: seq<Slot> :: [] + rest == rest;
      hide Be32;
      for i := 0 to n as int
        invariant SlotsAsked(body, 3, n, size)
               == match SlotsAsked(body, off, n as int - i, size)
                  case Refused(code) => Refused(code)
                  case Watched(rest) => Watched(next + rest)
      {
        if |body| < off + 7 { return Refused(MALFORMED); }
        var addr, len, at, nvalues := Be32(body, off), body[off + 4], body[off + 5], body[off + 6];
        if len == 0 || len > MAX_LEN || nvalues > MAX_VALUES { return Refused(TOO_LARGE); }
        if |body| < off + 7 + nvalues { return Refused(MALFORMED); }
        if nvalues != 0 && at >= len { return Refused(OUT_OF_RANGE); }
        if (addr as int + len as int) % 0x1_0000_0000 > size as int || addr > size { return Refused(OUT_OF_RANGE); }
        ghost var was, one := next, Slot(addr, len, at, body[off + 7..off + 7 + nvalues], None);
        next := next + [Slot(addr, len, at, body[off + 7..off + 7 + nvalues], None)];
        assert forall rest: seq<Slot> :: was + ([one] + rest) == next + rest;
        off := off + 7 + nvalues;
      }
      assert next + [] == next;
      r := Watched(next);
    }

    method HandleWatch(body: seq<byte>) returns (reply: seq<byte>)
      requires Valid()
      modifies this`errors, this`slots, ring
      ensures Valid() && Served(View(), Some(reply)) == ServeWatch(old(View()), body) && Counted(old(errors), reply)
    {
      hide Sane; hide SlotsAsked; hide HandedOf; hide LostOf; hide Came;
      SaneSize(View());
      if |body| < 3 {
        reply := SendErr(0, MALFORMED);
        return;
      }
      if body[2] > WATCH_SLOTS {
        reply := SendErr(Be16(body, 0), TOO_MANY);
        return;
      }
      var next := NextSlots(body, body[2]);
      if next.Refused? {
        reply := SendErr(Be16(body, 0), next.code);
        return;
      }
      SaneWatch(View(), body, 3, body[2], next.slots);
      ring.Clear();
      slots := next.slots;
      NoLoss();
      reply := Header(WATCH_ACK) + Put16(Be16(body, 0)) + [body[2]];
    }

    method HandleHello() returns (reply: seq<byte>)
      requires Valid()
      modifies this`slots, ring
      ensures Valid() && View() == old(View()).(slots := [], queue := [], dropped := 0)
      ensures reply == HelloAckOf(ram.Length, |rom|)
    {
      hide HandedOf; hide LostOf; hide Came; hide Sane; hide HelloAckOf;
      SaneSize(View());
      SaneHello(View());
      reply := HelloAckOf(ram.Length, |rom|);
      ring.Clear();
      slots := [];
      NoLoss();
    }

    /** Serve the request `p`, whatever was served before; nothing is answered what is not M64P. */
    method Dispatch(p: seq<byte>) returns (reply: Option<seq<byte>>, ghost busy: bool)
      requires Valid()
      modifies this`errors, this`slots, ring, ram
      ensures Valid() && Served(View(), reply) == MemProto.Dispatch(old(View()), p, busy)
      ensures if reply.Some? then Counted(old(errors), reply.value) else errors == old(errors)
    {
      hide Sane; hide ServePeek; hide ServePoke; hide ServePeekRom; hide ServeWatch; hide HelloAckOf; hide HandedOf; hide LostOf; hide Came;
      SaneSize(View());
      reply, busy := None, false;
      if |p| < 5 || p[..4] != MAGIC { return; }
      var msg, body, out := p[4], p[5..], [];
      if msg == HELLO {
        out := HandleHello();
      } else if msg == PEEKV {
        out := HandlePeekv(body);
      } else if msg == POKEV {
        out := HandlePokev(body);
      } else if msg == PEEKROM {
        out, busy := HandlePeekrom(body);
      } else if msg == WATCH {
        out := HandleWatch(body);
      } else {
        out := SendErr(if |body| >= 2 then Be16(body, 0) else 0, MALFORMED);
      }
      reply := Some(out);
    }

    /** Serves `p` as `Serve` says: a repeat of the held write changes no memory and is acknowledged. */
    method Handle(p: seq<byte>) returns (reply: Option<seq<byte>>, ghost busy: bool)
      requires Valid()
      modifies this, ring, ram
      ensures Valid() && Served(View(), reply) == Serve(old(View()), p, busy)
    {
      hide Sane; hide MemProto.Dispatch; hide HandedOf; hide LostOf; hide Came;
      ghost var was := View();
      var before, poke := errors, IsPoke(p);
      if poke && pokeHeld && Be16(p, 5) == pokeRid {
        busy := false;
        HalfIs(p, 5);
        return Some(Header(POKE_ACK) + [p[5], p[6]] + [pokeApplied]), false;
      }
      reply, busy := Dispatch(p);
      if reply.None? { return; }
      SaneHold(View(), HoldAfter(was.hold, p, reply));
      pokeHeld := poke && errors == before;
      if pokeHeld {
        pokeRid, pokeApplied := Be16(p, 5), p[7];
      }
    }

    /** Whether a slot changed, if it was seen before, and whether it is all zero now. */
    static method Compare(last: Option<seq<byte>>, now: seq<byte>) returns (changed: bool, zero: bool)
      requires last.Some? ==> |last.value| == |now|
      ensures last.Some? ==> (changed <==> now != last.value)
      ensures zero <==> forall k :: 0 <= k < |now| ==> now[k] == 0
    {
      changed, zero := false, true;
      for j := 0 to |now|
        invariant last.Some? ==> (changed <==> exists k :: 0 <= k < j && now[k] != last.value[k])
        invariant zero <==> forall k :: 0 <= k < j ==> now[k] == 0
      {
        if last.Some? && now[j] != last.value[j] { changed := true; }
        if now[j] != 0 { zero := false; }
      }
    }

    /** What a frame's sample of one slot adds to the queue. */
    method Sample(i: nat)
      requires Valid() && i < |slots|
      modifies this`slots, ring, ring.events
      ensures Valid() && View() == Sampled(old(View()), i)
    {
      var w := slots[i];
      assert w in View().slots;
      var now := ram[w.addr..w.addr as int + w.len as int];
      var changed, zero := Compare(w.last, now);
      slots := slots[i := w.(last := Some(now))];
      if w.last.None? || !changed || zero { return; }
      if w.values == [] || now[w.at] in w.values { ring.Push(Event(i, now)); }
    }

    /** Read every watched slot, once a frame. */
    method WatchTick()
      requires Valid()
      modifies this`slots, ring, ring.events
      ensures Valid() && View() == Ticked(old(View()), |old(slots)|)
    {
      var n := |slots|;
      for i := 0 to n
        invariant Valid() && |slots| == n && View() == Ticked(old(View()), i)
      {
        Sample(i);
      }
    }
  }

  lemma SaneHello(st: State)
    requires Sane(st)
    ensures Sane(st.(slots := [], queue := [], dropped := 0))
  {}

  lemma SaneHold(st: State, hold: Option<Held>)
    requires Sane(st)
    ensures Sane(st.(hold := hold))
  {}

  lemma HalfIs(s: seq<byte>, at: nat)
    requires at + 2 <= |s|
    ensures Put16(Be16(s, at)) == [s[at], s[at + 1]]
  {}

  lemma ReadsIf(body: seq<byte>, off: nat, n: nat, i: nat)
    requires off + 6 * n <= |body| && i < n && Be16(body, off + 6 * i + 4) != 0
    ensures Reads(body, off, n)
  {
    assert LengthAt(body, off, i) != 0;
  }

  lemma NoLoss()
    ensures Saturated(LostOf([])) == 0
  {}

  lemma SaneSize(st: State)
    requires Sane(st)
    ensures |st.ram| <= MAX_RAM && |st.rom| <= 0xFFFF_FFFF && Whole(|st.rom|)
  {}

  lemma SaneDrain(st: State, n: nat)
    requires Sane(st) && n <= |st.queue|
    ensures Sane(st.(queue := st.queue[n..]))
  {
    assert forall e <- st.queue[n..] :: e in st.queue;
  }

  lemma SaneRam(st: State, ram: seq<byte>)
    requires Sane(st) && |ram| == |st.ram|
    ensures Sane(st.(ram := ram))
  {}

  lemma SaneWatch(st: State, body: seq<byte>, off: nat, n: nat, slots: seq<Slot>)
    requires Sane(st) && n <= WATCH_SLOTS && SlotsAsked(body, off, n, |st.ram|) == Watched(slots)
    ensures Sane(st.(slots := slots, queue := [], dropped := 0))
  {
    SlotsFit(body, off, n, |st.ram|, slots);
  }

  /** The blocks of the first `i` regions, the rest still to come. */
  ghost predicate SoFar(mem: seq<byte>, body: seq<byte>, n: byte, i: nat, total: nat, out: seq<byte>)
    requires |mem| <= 0xFFFF_FFFF
  {
    && i <= n as int && 3 + 6 * n as int <= |body| && total <= MAX_TOTAL_BYTES
    && Validate(body, 3, n, false, |mem|, 0).None? && Validate(body, 3 + 6 * i, n as int - i, false, |mem|, total).None?
    && out + ReadBlocks(mem, body, 3 + 6 * i, n as int - i, total) == ReadBlocks(mem, body, 3, n, 0)
  }

  lemma NoneYet(mem: seq<byte>, body: seq<byte>, n: byte) returns (total: nat)
    requires |body| >= 3 && |mem| <= 0xFFFF_FFFF && Wrong(body, n, false, |mem|).None?
    ensures SoFar(mem, body, n, 0, total, []) && 3 + 6 * n as int <= |body|
  {
    hide ReadBlocks; hide Validate;
    total := 0;
    ValidFits(body, 3, n, |mem|, 0);
    assert [] + ReadBlocks(mem, body, 3, n, 0) == ReadBlocks(mem, body, 3, n, 0);
  }

  lemma AllRead(mem: seq<byte>, body: seq<byte>, n: byte, total: nat, out: seq<byte>)
    requires |mem| <= 0xFFFF_FFFF && SoFar(mem, body, n, n, total, out)
    ensures Validate(body, 3, n, false, |mem|, 0).None? && out == ReadBlocks(mem, body, 3, n, 0)
  {
    NoBlocks(out, mem, body, 3 + 6 * n as int, total);
  }

  lemma NoBlocks(out: seq<byte>, mem: seq<byte>, body: seq<byte>, off: nat, total: nat)
    requires |mem| <= 0xFFFF_FFFF && total <= MAX_TOTAL_BYTES && Validate(body, off, 0, false, |mem|, total).None?
    ensures out + ReadBlocks(mem, body, off, 0, total) == out
  {}

  lemma BlockIn(body: seq<byte>, off: nat, n: nat, space: uint32, total: nat)
    requires n > 0 && Validate(body, off, n, false, space, total).None?
    ensures off + 6 <= |body| && Be32(body, off) as int + Be16(body, off + 4) as int <= space as int
  {
    hide Be16; hide Be32;
  }

  /** One region of a read, and what it answers after it. */
  lemma NextBlock(out: seq<byte>, mem: seq<byte>, body: seq<byte>, off: nat, n: nat, total: nat)
    requires n > 0 && |mem| <= 0xFFFF_FFFF && Validate(body, off, n, false, |mem|, total).None? && total <= MAX_TOTAL_BYTES
    ensures var addr, len := Be32(body, off), Be16(body, off + 4);
      Validate(body, off + 6, n - 1, false, |mem|, total + len).None? && total + len <= MAX_TOTAL_BYTES &&
      out + ReadBlocks(mem, body, off, n, total)
      == out + Put16(len) + mem[addr..addr as int + len as int] + ReadBlocks(mem, body, off + 6, n - 1, total + len)
  {
    hide Put16; hide Be16; hide Be32;
    var addr, len := Be32(body, off), Be16(body, off + 4);
    var a, b, c := Put16(len), mem[addr..addr as int + len as int], ReadBlocks(mem, body, off + 6, n - 1, total + len);
    Regroup(out, a, b, c);
  }

  /** `off` rounded down to a multiple of 4, where a burst may begin. */
  function WordStart(off: nat): (pos: nat)
    ensures Whole(pos) && pos <= off
  {
    off / 4 * 4
  }

  /** How many words to load next: what is left, at most a buffer of them. */
  function Chunk(pos: nat, end: nat, size: nat): (n: nat)
    requires pos < end <= size && Whole(pos) && Whole(size)
    ensures 1 <= n <= CHUNK_WORDS && pos + n * 4 <= size && Whole(pos + n * 4)
  {
    Min((end - pos + 3) / 4, CHUNK_WORDS)
  }

  /** Byte `i` of the `n` words from `pos`. */
  function Unpacked(rom: seq<byte>, pos: nat, n: nat, i: nat): (b: byte)
    requires pos + n * 4 <= |rom| && i < n * 4
    ensures b == rom[pos + i]
  {
    assert i / 4 * 4 + i % 4 == i;
    ByteOfWord(rom, pos + i / 4 * 4, i % 4);
    OfWord(Be32(rom, pos + i / 4 * 4), i % 4)
  }

  /** `at`, brought between `off` and `end`. */
  function Clip(off: nat, at: nat, end: nat): (c: nat)
    requires off <= end
    ensures off <= c <= end
    ensures at <= off ==> c == off
    ensures end <= at ==> c == end
    ensures off <= at <= end ==> c == at
  {
    if at < off then off else Min(at, end)
  }

  lemma ClipNext(s: seq<byte>, off: nat, pos: nat, at: nat, end: nat)
    requires off <= end <= |s| && pos <= at
    ensures Clip(off, pos, end) <= Clip(off, at, end) <= Clip(off, at + 1, end)
    ensures s[Clip(off, pos, end)..Clip(off, at + 1, end)]
         == s[Clip(off, pos, end)..Clip(off, at, end)] + if off <= at < end then [s[at]] else []
  {}

  /** Byte `k` of a big-endian word, as the shift and mask take it. */
  function OfWord(w: uint32, k: nat): (b: byte)
    requires k < 4
  {
    w / (if k == 0 then 0x100_0000 else if k == 1 then 0x1_0000 else if k == 2 then 0x100 else 1) % 0x100
  }

  lemma ByteOfWord(s: seq<byte>, at: nat, k: nat)
    requires at + 4 <= |s| && k < 4
    ensures OfWord(Be32(s, at), k) == s[at + k]
  {
    Digits(s[at], s[at + 1], s[at + 2], s[at + 3]);
  }

  lemma Digits(a: byte, b: byte, c: byte, d: byte)
    ensures var w := (a as int * 0x100 + b as int) * 0x1_0000 + (c as int * 0x100 + d as int);
      && w / 0x100_0000 == a as int && w / 0x1_0000 % 0x100 == b as int
      && w / 0x100 % 0x100 == c as int && w % 0x100 == d as int
  {
    var w := (a as int * 0x100 + b as int) * 0x1_0000 + (c as int * 0x100 + d as int);
    assert w / 0x1_0000 == a as int * 0x100 + b as int;
    assert w / 0x100 == (a as int * 0x100 + b as int) * 0x100 + c as int;
  }
}
