/** The agent's end of M64P: what it answers each request, and what the request does to memory. */
module MemProto {
  import opened Bytes
  import opened M64p
  import opened WatchRing

  const MALFORMED: byte := 0x01
  const TOO_MANY: byte := 0x02
  const TOO_LARGE: byte := 0x03
  const OUT_OF_RANGE: byte := 0x04
  const UNSUPPORTED: byte := 0x06
  const BUSY: byte := 0x07
  const WATCH_SLOTS: nat := 4
  const MAX_VALUES: nat := 8
  /** RDRAM is at most 8 MiB. */
  const MAX_RAM: nat := 0x80_0000

  /** A watched slot: where, which changes count, and what it held last, once it has been read. */
  datatype Slot = Slot(addr: uint32, len: byte, at: byte, values: seq<byte>, last: Option<seq<byte>>)

  /** The write held: set when the request just served was applied as one. */
  datatype Held = Held(rid: uint16, applied: byte)

  /** All of an agent a request can see or change. */
  datatype State = State(ram: seq<byte>, rom: seq<byte>, slots: seq<Slot>, queue: seq<Event>, dropped: uint16,
                         hold: Option<Held>)

  /** A whole number of words. */
  predicate Whole(n: nat) {
    n % 4 == 0
  }

  predicate Sane(st: State) {
    && |st.ram| <= MAX_RAM && |st.rom| <= 0xFFFF_FFFF && Whole(|st.rom|)
    && |st.slots| <= WATCH_SLOTS && (forall s <- st.slots :: SlotIn(s, |st.ram|))
    && |st.queue| <= QUEUE && Small(st.queue)
  }

  predicate SlotIn(s: Slot, size: nat) {
    && 1 <= s.len as int <= MAX_LEN && s.addr as int + s.len as int <= size && |s.values| <= MAX_VALUES
    && (s.values != [] ==> s.at < s.len) && (s.last.Some? ==> |s.last.value| == s.len as int)
  }

  // ---- checking a request ----

  /** The first thing wrong with the `n` regions from `off` on, when `total` bytes are already asked for. */
  function Validate(body: seq<byte>, off: nat, n: nat, withData: bool, space: uint32, total: nat): (wrong: Option<byte>)
    decreases n
  {
    if n == 0 then None
    else if off + 6 > |body| then Some(MALFORMED)
    else
      var addr, len := Be32(body, off), Be16(body, off + 4);
      if len > MAX_REGION_BYTES || total + len > MAX_TOTAL_BYTES then Some(TOO_LARGE)
      else if addr > space || len as int > space as int - addr as int then Some(OUT_OF_RANGE)
      else if withData && off + 6 + len > |body| then Some(MALFORMED)
      else Validate(body, off + 6 + (if withData then len else 0), n - 1, withData, space, total + len)
  }

  function Wrong(body: seq<byte>, n: byte, withData: bool, space: uint32): (wrong: Option<byte>) {
    if n > MAX_REGIONS then Some(TOO_MANY) else Validate(body, 3, n, withData, space, 0)
  }

  method ValidateRegions(body: seq<byte>, n: byte, withData: bool, space: uint32) returns (wrong: Option<byte>)
    ensures wrong == Wrong(body, n, withData, space)
  {
    if n > MAX_REGIONS { return Some(TOO_MANY); }
    var total: nat, off: nat := 0, 3;
    for i := 0 to n as int
      invariant Validate(body, 3, n, withData, space, 0) == Validate(body, off, n as int - i, withData, space, total)
    {
      if off + 6 > |body| { return Some(MALFORMED); }
      var addr, len := Be32(body, off), Be16(body, off + 4);
      off := off + 6;
      if len > MAX_REGION_BYTES { return Some(TOO_LARGE); }
      total := total + len;
      if total > MAX_TOTAL_BYTES { return Some(TOO_LARGE); }
      if addr > space || len as int > space as int - addr as int { return Some(OUT_OF_RANGE); }
      if withData {
        if off + len > |body| { return Some(MALFORMED); }
        off := off + len;
      }
    }
    wrong := None;
  }

  // ---- what each request comes to ----

  /** The blocks a read of `n` regions of `mem` answers. */
  function ReadBlocks(mem: seq<byte>, body: seq<byte>, off: nat, n: nat, total: nat): (out: seq<byte>)
    requires |mem| <= 0xFFFF_FFFF && Validate(body, off, n, false, |mem|, total).None? && total <= MAX_TOTAL_BYTES
    ensures |out| <= 2 * n + (MAX_TOTAL_BYTES - total)
    decreases n
  {
    if n == 0 then []
    else
      var addr, len := Be32(body, off), Be16(body, off + 4);
      Put16(len) + mem[addr..addr as int + len as int] + ReadBlocks(mem, body, off + 6, n - 1, total + len)
  }

  /** `mem` with the `n` regions from `off` on written into it, in order. */
  function WriteBlocks(mem: seq<byte>, body: seq<byte>, off: nat, n: nat, total: nat): (after: seq<byte>)
    requires |mem| <= 0xFFFF_FFFF && Validate(body, off, n, true, |mem|, total).None?
    ensures |after| == |mem|
    decreases n
  {
    if n == 0 then mem
    else
      var addr, len := Be32(body, off), Be16(body, off + 4);
      WriteBlocks(Overwrite(mem, addr, body[off + 6..off + 6 + len]), body, off + 6 + len, n - 1, total + len)
  }

  function Short(msg: byte, rid: uint16, n: byte): (app: seq<byte>)
    ensures |app| == 8
  {
    Header(msg) + Put16(rid) + [n]
  }

  function HelloAckOf(ram: uint32, rom: uint32): (app: seq<byte>)
    ensures |app| >= 5 && app[4] == HELLO_ACK
  {
    // may be written, holds its last write, can watch
    var flags := 0x01 + 0x08 + 0x04 + if rom != 0 then 0x02 else 0;
    Header(HELLO_ACK) + [0] + Put16(0x0100) + Put32(ram) + [flags] + (if rom != 0 then Put32(rom) else []) + [WATCH_SLOTS]
  }

  datatype Asked = Watched(slots: seq<Slot>) | Refused(code: byte)

  /** The slots a WATCH asks for, or why it is refused. */
  function SlotsAsked(body: seq<byte>, off: nat, n: nat, size: uint32): (r: Asked)
    decreases n
  {
    if n == 0 then Watched([])
    else if |body| < off + 7 then Refused(MALFORMED)
    else
      var addr, len, at, nvalues := Be32(body, off), body[off + 4], body[off + 5], body[off + 6];
      if len == 0 || len > MAX_LEN || nvalues > MAX_VALUES then Refused(TOO_LARGE)
      else if |body| < off + 7 + nvalues then Refused(MALFORMED)
      else if nvalues != 0 && at >= len then Refused(OUT_OF_RANGE)
      else if (addr as int + len as int) % 0x1_0000_0000 > size as int || addr > size then Refused(OUT_OF_RANGE)
      else match SlotsAsked(body, off + 7 + nvalues, n - 1, size)
        case Refused(code) => Refused(code)
        case Watched(rest) => Watched([Slot(addr, len, at, body[off + 7..off + 7 + nvalues], None)] + rest)
  }

  /** The slots asked for are slots an agent can watch. */
  lemma {:induction false} SlotsFit(body: seq<byte>, off: nat, n: nat, size: uint32, slots: seq<Slot>)
    requires size <= MAX_RAM && SlotsAsked(body, off, n, size) == Watched(slots)
    ensures |slots| == n && forall s <- slots :: SlotIn(s, size)
    decreases n
  {
    if n > 0 {
      hide Be32;
      SlotsFit(body, off + 7 + body[off + 6], n - 1, size, slots[1..]);
      assert slots == [slots[0]] + slots[1..];
    }
  }

  // ---- serving a request ----

  /** What serving a payload leaves, and what is answered: nothing if it is not M64P. */
  datatype Served = Served(st: State, reply: Option<seq<byte>>)

  function Refuse(st: State, rid: uint16, code: byte): (r: Served) {
    Served(st, Some(Short(ERR, rid, code)))
  }

  predicate IsM64p(p: seq<byte>) {
    |p| >= 5 && p[..4] == MAGIC
  }

  /** A POKEV long enough to carry a rid. */
  predicate IsPoke(p: seq<byte>) {
    |p| >= 8 && p[..4] == MAGIC && p[4] == POKEV
  }

  function Rid(body: seq<byte>): (rid: uint16) {
    if |body| >= 2 then Be16(body, 0) else 0
  }

  function PeekHead(msg: byte, body: seq<byte>): (h: seq<byte>)
    requires |body| >= 3
    ensures |h| == 8
  {
    Header(msg) + Put16(Be16(body, 0)) + [body[2]]
  }

  function ServePeek(st: State, body: seq<byte>): (r: Served)
    requires Sane(st)
  {
    if |body| < 3 then Refuse(st, 0, MALFORMED)
    else match Wrong(body, body[2], false, |st.ram|)
      case Some(code) => Refuse(st, Be16(body, 0), code)
      case None =>
        var out := PeekHead(PEEKV_RESP, body) + ReadBlocks(st.ram, body, 3, body[2], 0);
        if st.slots == [] then Served(st, Some(out))
        else
          var room := APP_CAP - |out|;
          Served(st.(queue := st.queue[Taken(st.queue, room)..]), Some(out + Trailer(st.queue, st.dropped, room)))
  }

  function ServePoke(st: State, body: seq<byte>): (r: Served)
    requires Sane(st)
  {
    if |body| < 3 then Refuse(st, 0, MALFORMED)
    else match Wrong(body, body[2], true, |st.ram|)
      case Some(code) => Refuse(st, Be16(body, 0), code)
      case None =>
        Served(st.(ram := WriteBlocks(st.ram, body, 3, body[2], 0)), Some(Short(POKE_ACK, Be16(body, 0), body[2])))
  }

  /** Whether a checked read of `n` regions has any bytes to read. */
  predicate Reads(body: seq<byte>, off: nat, n: nat)
    requires off + 6 * n <= |body|
  {
    exists i :: 0 <= i < n && LengthAt(body, off, i) != 0
  }

  function LengthAt(body: seq<byte>, off: nat, i: nat): (len: uint16)
    requires off + 6 * i + 6 <= |body|
  {
    Be16(body, off + 6 * i + 4)
  }

  /** `busy` is the PI having stayed busy under one of the reads, when there are any. */
  function ServePeekRom(st: State, body: seq<byte>, busy: bool): (r: Served)
    requires Sane(st)
  {
    if |body| < 3 then Refuse(st, 0, MALFORMED)
    else if |st.rom| == 0 then Refuse(st, Be16(body, 0), UNSUPPORTED)
    else match Wrong(body, body[2], false, |st.rom|)
      case Some(code) => Refuse(st, Be16(body, 0), code)
      case None =>
        ValidFits(body, 3, body[2], |st.rom|, 0);
        if busy && Reads(body, 3, body[2]) then Refuse(st, Be16(body, 0), BUSY)
        else Served(st, Some(PeekHead(PEEKROM_RESP, body) + ReadBlocks(st.rom, body, 3, body[2], 0)))
  }

  lemma {:induction false} ValidFits(body: seq<byte>, off: nat, n: nat, space: uint32, total: nat)
    requires Validate(body, off, n, false, space, total).None? && off <= |body|
    ensures off + 6 * n <= |body|
    decreases n
  {
    if n > 0 { ValidFits(body, off + 6, n - 1, space, total + Be16(body, off + 4)); }
  }

  function ServeWatch(st: State, body: seq<byte>): (r: Served)
    requires Sane(st)
  {
    if |body| < 3 then Refuse(st, 0, MALFORMED)
    else if body[2] > WATCH_SLOTS then Refuse(st, Be16(body, 0), TOO_MANY)
    else match SlotsAsked(body, 3, body[2], |st.ram|)
      case Refused(code) => Refuse(st, Be16(body, 0), code)
      case Watched(slots) =>
        Served(st.(slots := slots, queue := [], dropped := 0), Some(Short(WATCH_ACK, Be16(body, 0), body[2])))
  }

  /** The request `p`, whatever was served before. */
  function Dispatch(st: State, p: seq<byte>, busy: bool): (r: Served)
    requires Sane(st)
  {
    if !IsM64p(p) then Served(st, None)
    else
      var msg, body := p[4], p[5..];
      if msg == HELLO then Served(st.(slots := [], queue := [], dropped := 0), Some(HelloAckOf(|st.ram|, |st.rom|)))
      else if msg == PEEKV then ServePeek(st, body)
      else if msg == POKEV then ServePoke(st, body)
      else if msg == PEEKROM then ServePeekRom(st, body, busy)
      else if msg == WATCH then ServeWatch(st, body)
      else Refuse(st, Rid(body), MALFORMED)
  }

  /** `p` is a write under the held write's rid. */
  predicate IsCopy(hold: Option<Held>, p: seq<byte>) {
    hold.Some? && IsPoke(p) && Be16(p, 5) == hold.value.rid
  }

  predicate Answered(reply: Option<seq<byte>>) {
    reply.Some? && |reply.value| >= 5 && reply.value[4] != ERR
  }

  /** The write held once `p` has been served: itself if it was applied, and none if it was anything else. */
  function HoldAfter(hold: Option<Held>, p: seq<byte>, reply: Option<seq<byte>>): (after: Option<Held>) {
    if reply.None? then hold
    else if IsPoke(p) && Answered(reply) then Some(Held(Be16(p, 5), p[7]))
    else None
  }

  /** The request `p`, a write served just before acknowledged again and not applied. */
  function Serve(st: State, p: seq<byte>, busy: bool): (r: Served)
    requires Sane(st)
  {
    if IsCopy(st.hold, p) then Served(st, Some(Short(POKE_ACK, st.hold.value.rid, st.hold.value.applied)))
    else
      var r := Dispatch(st, p, busy);
      Served(r.st.(hold := HoldAfter(st.hold, p, r.reply)), r.reply)
  }

  // ---- watching ----

  /** The queue with one more event, the oldest lost if there is no room. */
  function Pushed(st: State, e: Event): (r: State) {
    if |st.queue| == QUEUE then st.(queue := st.queue[1..] + [e], dropped := Min(st.dropped as int + 1, 0xFFFF))
    else st.(queue := st.queue + [e])
  }

  /** Whether a slot's change is worth keeping: not the first sight of it, not to zero, and of a listed value. */
  predicate Kept(w: Slot, now: seq<byte>)
    requires |now| == w.len as int && (w.values != [] ==> w.at < w.len)
  {
    && w.last.Some? && now != w.last.value && (exists k :: 0 <= k < |now| && now[k] != 0)
    && (w.values != [] ==> now[w.at] in w.values)
  }

  /** One frame's sample of slot `i`. */
  function Sampled(st: State, i: nat): (r: State)
    requires Sane(st) && i < |st.slots|
    ensures Sane(r) && |r.slots| == |st.slots| && r.ram == st.ram
  {
    var w := st.slots[i];
    assert w in st.slots;
    var now := st.ram[w.addr..w.addr as int + w.len as int];
    var seen := st.(slots := st.slots[i := w.(last := Some(now))]);
    if Kept(w, now) then Pushed(seen, Event(i, now)) else seen
  }

  /** A frame's sample of the first `n` slots. */
  function Ticked(st: State, n: nat): (r: State)
    requires Sane(st) && n <= |st.slots|
    ensures Sane(r) && |r.slots| == |st.slots| && r.ram == st.ram
  {
    if n == 0 then st else Sampled(Ticked(st, n - 1), n - 1)
  }
}
