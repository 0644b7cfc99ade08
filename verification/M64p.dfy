/** The M64P codec: what a host puts in an APPLICATION payload, and what it reads out of one. */
module M64p {
  import opened Bytes

  const MAGIC: seq<byte> := [0x4D, 0x36, 0x34, 0x50]

  const HELLO: byte := 0x01
  const PEEKV: byte := 0x02
  const POKEV: byte := 0x03
  const PEEKROM: byte := 0x04
  const WATCH: byte := 0x05
  const HELLO_ACK: byte := 0x81
  const PEEKV_RESP: byte := 0x82
  const POKE_ACK: byte := 0x83
  const PEEKROM_RESP: byte := 0x84
  const WATCH_ACK: byte := 0x85
  const ERR: byte := 0xE0

  const MAX_REGIONS: nat := 32
  const MAX_REGION_BYTES: nat := 4096
  const MAX_TOTAL_BYTES: nat := 7936
  /** The largest payload an agent builds. */
  const APP_CAP: nat := 5 + 3 + MAX_REGIONS * 2 + MAX_TOTAL_BYTES

  datatype Region = Region(addr: uint32, len: uint16)
  datatype Write = Write(addr: uint32, data: seq<byte>)
  datatype Event = Event(slot: byte, bytes: seq<byte>)

  datatype Error = NotM64p | Truncated | UnknownMsg(msg: byte) | EchoedRequest(msg: byte)
                 | TooManyRegions | RegionTooLarge | TotalTooLarge

  datatype Parsed<+T> = Fine(value: T) | Failed(error: Error)

  datatype Response =
    | HelloAck(proto: byte, version: uint16, rdramBytes: uint32, flags: byte,
               romBytes: Option<uint32>, watchSlots: Option<byte>)
    | PeekV(rid: uint16, regions: seq<seq<byte>>, events: seq<Event>, dropped: uint16)
    | PeekRom(rid: uint16, regions: seq<seq<byte>>)
    | PokeAck(rid: uint16, applied: byte)
    | WatchAck(rid: uint16, watching: byte)
    | Refusal(rid: uint16, code: byte)

  // ---- requests ----

  function Sum(lens: seq<nat>): (total: nat) {
    if lens == [] then 0 else Sum(lens[..|lens| - 1]) + lens[|lens| - 1]
  }

  lemma {:induction false} SumAppend(a: seq<nat>, b: seq<nat>)
    ensures Sum(a + b) == Sum(a) + Sum(b)
  {
    if b == [] {
      assert a + b == a;
    } else {
      SumAppend(a, b[..|b| - 1]);
      assert (a + b)[..|a + b| - 1] == a + b[..|b| - 1];
    }
  }

  /** The limits every request of regions keeps, and which of them is broken first. */
  function Limits(lens: seq<nat>): (broken: Option<Error>) {
    if |lens| > MAX_REGIONS then Some(TooManyRegions)
    else if exists i :: 0 <= i < |lens| && lens[i] > MAX_REGION_BYTES then Some(RegionTooLarge)
    else if Sum(lens) > MAX_TOTAL_BYTES then Some(TotalTooLarge)
    else None
  }

  method CheckLimits(lens: seq<nat>) returns (broken: Option<Error>)
    ensures broken == Limits(lens)
  {
    if |lens| > MAX_REGIONS { return Some(TooManyRegions); }
    var total := 0;
    for i := 0 to |lens|
      invariant total == Sum(lens[..i]) && forall j :: 0 <= j < i ==> lens[j] <= MAX_REGION_BYTES
    {
      assert lens[..i + 1][..i] == lens[..i];
      if lens[i] > MAX_REGION_BYTES { return Some(RegionTooLarge); }
      total := total + lens[i];
    }
    assert lens[..|lens|] == lens;
    broken := if total > MAX_TOTAL_BYTES then Some(TotalTooLarge) else None;
  }

  function RegionLengths(rs: seq<Region>): (lens: seq<nat>)
    ensures |lens| == |rs| && forall i :: 0 <= i < |rs| ==> lens[i] == rs[i].len
  {
    seq(|rs|, i requires 0 <= i < |rs| => rs[i].len as int)
  }

  function WriteLengths(ws: seq<Write>): (lens: seq<nat>)
    ensures |lens| == |ws| && forall i :: 0 <= i < |ws| ==> lens[i] == |ws[i].data|
  {
    seq(|ws|, i requires 0 <= i < |ws| => |ws[i].data|)
  }

  function Header(msg: byte): (h: seq<byte>)
    ensures |h| == 5
  {
    MAGIC + [msg]
  }

  function RegionBytes(r: Region): (b: seq<byte>)
    ensures |b| == 6
  {
    Put32(r.addr) + Put16(r.len)
  }

  function WriteBytes(w: Write): (b: seq<byte>)
    requires |w.data| <= MAX_REGION_BYTES
    ensures |b| == 6 + |w.data|
  {
    RegionBytes(Region(w.addr, |w.data|)) + w.data
  }

  function RegionsBytes(rs: seq<Region>): (b: seq<byte>)
    ensures |b| == 6 * |rs|
  {
    if rs == [] then [] else RegionsBytes(rs[..|rs| - 1]) + RegionBytes(rs[|rs| - 1])
  }

  function WritesBytes(ws: seq<Write>): (b: seq<byte>)
    requires forall w <- ws :: |w.data| <= MAX_REGION_BYTES
  {
    if ws == [] then [] else WritesBytes(ws[..|ws| - 1]) + WriteBytes(ws[|ws| - 1])
  }

  function Peek(msg: byte, rid: uint16, rs: seq<Region>): (app: seq<byte>)
    requires |rs| <= MAX_REGIONS
    ensures |app| == 8 + 6 * |rs|
  {
    Header(msg) + Put16(rid) + [|rs|] + RegionsBytes(rs)
  }

  function Poke(rid: uint16, ws: seq<Write>): (app: seq<byte>)
    requires Limits(WriteLengths(ws)).None?
    ensures |app| >= 8
  {
    SmallWrites(ws);
    Header(POKEV) + Put16(rid) + [|ws|] + WritesBytes(ws)
  }

  lemma SmallWrites(ws: seq<Write>)
    requires Limits(WriteLengths(ws)).None?
    ensures |ws| <= MAX_REGIONS && (forall w <- ws :: |w.data| <= MAX_REGION_BYTES) && Sum(WriteLengths(ws)) <= MAX_TOTAL_BYTES
  {
    forall w | w in ws ensures |w.data| <= MAX_REGION_BYTES {
      var i :| 0 <= i < |ws| && ws[i] == w;
      assert WriteLengths(ws)[i] <= MAX_REGION_BYTES;
    }
  }

  /** A read of RDRAM or of the ROM, as its body is. */
  method EncodePeek(msg: byte, rid: uint16, rs: seq<Region>) returns (r: Parsed<seq<byte>>)
    ensures r == match Limits(RegionLengths(rs)) case Some(e) => Failed(e) case None => Fine(Peek(msg, rid, rs))
  {
    var broken := CheckLimits(RegionLengths(rs));
    if broken.Some? { return Failed(broken.value); }
    var v := Header(msg) + Put16(rid) + [|rs|];
    ghost var h := v;
    for i := 0 to |rs|
      invariant v == h + RegionsBytes(rs[..i])
    {
      assert rs[..i + 1][..i] == rs[..i];
      v := v + Put32(rs[i].addr) + Put16(rs[i].len);
    }
    assert rs[..|rs|] == rs;
    r := Fine(v);
  }

  method EncodePoke(rid: uint16, ws: seq<Write>) returns (r: Parsed<seq<byte>>)
    ensures match Limits(WriteLengths(ws)) case Some(e) => r == Failed(e) case None => r == Fine(Poke(rid, ws))
  {
    var broken := CheckLimits(WriteLengths(ws));
    if broken.Some? { return Failed(broken.value); }
    SmallWrites(ws);
    hide WritesBytes;
    var v := Header(POKEV) + Put16(rid) + [|ws|];
    ghost var h := v;
    assert h + WritesBytes([]) == h by { WritesNone(); }
    for i := 0 to |ws|
      invariant v == h + WritesBytes(ws[..i])
    {
      WritesMore(ws, i);
      v := v + Put32(ws[i].addr) + Put16(|ws[i].data|) + ws[i].data;
    }
    assert ws[..|ws|] == ws;
    r := Fine(v);
  }

  lemma WritesNone()
    ensures WritesBytes([]) == []
  {}

  lemma WritesMore(ws: seq<Write>, i: nat)
    requires i < |ws| && forall w <- ws :: |w.data| <= MAX_REGION_BYTES
    ensures forall w <- ws[..i] :: |w.data| <= MAX_REGION_BYTES
    ensures WritesBytes(ws[..i + 1]) == WritesBytes(ws[..i]) + Put32(ws[i].addr) + Put16(|ws[i].data|) + ws[i].data
  {
    hide Put32; hide Put16;
    assert ws[..i + 1][..i] == ws[..i];
  }

  // ---- responses ----

  /** `n` blocks of a length and as many bytes, from `off` on, and where they end. */
  function Blocks(b: seq<byte>, off: nat, n: nat): (r: Option<(seq<seq<byte>>, nat)>)
    ensures r.Some? ==> |r.value.0| == n && r.value.1 >= off + 2 * n
    ensures r.Some? && n > 0 ==> r.value.1 <= |b|
    decreases n
  {
    if n == 0 then Some(([], off))
    else if off + 2 > |b| then None
    else
      var end := off + 2 + Be16(b, off);
      if end > |b| then None
      else match Blocks(b, end, n - 1)
        case None => None
        case Some((rest, at)) => Some(([b[off + 2..end]] + rest, at))
  }

  /** `n` events from `off` on. */
  function Events(b: seq<byte>, off: nat, n: nat): (r: Option<seq<Event>>)
    ensures r.Some? ==> |r.value| == n
    decreases n
  {
    if n == 0 then Some([])
    else if off + 2 > |b| then None
    else
      var end := off + 2 + b[off + 1];
      if end > |b| then None
      else match Events(b, end, n - 1)
        case None => None
        case Some(rest) => Some([Event(b[off], b[off + 2..end])] + rest)
  }

  function ParseHello(b: seq<byte>): (r: Parsed<Response>) {
    if |b| < 8 then Failed(Truncated)
    else
      var flags := b[7];
      var rom := flags / 2 % 2 == 1;
      if rom && |b| < 12 then Failed(Truncated)
      else
        var off := if rom then 12 else 8;
        var watch := flags / 4 % 2 == 1;
        if watch && off >= |b| then Failed(Truncated)
        else Fine(HelloAck(b[0], Be16(b, 1), Be32(b, 3), flags,
                           if rom then Some(Be32(b, 8)) else None,
                           if watch then Some(b[off]) else None))
  }

  /** The watch's trailer is there only if the response goes on. */
  function ParseTrailer(b: seq<byte>, off: nat): (r: Option<(seq<Event>, uint16)>) {
    if off + 3 > |b| then Some(([], 0))
    else match Events(b, off + 3, b[off])
      case None => None
      case Some(events) => Some((events, Be16(b, off + 1)))
  }

  function Parse(app: seq<byte>): (r: Parsed<Response>) {
    if |app| < 5 || app[..4] != MAGIC then Failed(NotM64p)
    else
      var msg, b := app[4], app[5..];
      if msg == HELLO_ACK then ParseHello(b)
      else if msg in {PEEKV_RESP, PEEKROM_RESP, POKE_ACK, WATCH_ACK, ERR} && |b| < 3 then Failed(Truncated)
      else if msg == PEEKV_RESP || msg == PEEKROM_RESP then
        match Blocks(b, 3, b[2])
        case None => Failed(Truncated)
        case Some((regions, off)) =>
          if msg == PEEKROM_RESP then Fine(PeekRom(Be16(b, 0), regions))
          else (match ParseTrailer(b, off)
            case None => Failed(Truncated)
            case Some((events, dropped)) => Fine(PeekV(Be16(b, 0), regions, events, dropped)))
      else if msg == POKE_ACK then Fine(PokeAck(Be16(b, 0), b[2]))
      else if msg == WATCH_ACK then Fine(WatchAck(Be16(b, 0), b[2]))
      else if msg == ERR then Fine(Refusal(Be16(b, 0), b[2]))
      else if msg in {HELLO, PEEKV, POKEV, PEEKROM, WATCH} then Failed(EchoedRequest(msg))
      else Failed(UnknownMsg(msg))
  }

  /** `parse`'s loop over a response's blocks. */
  method TakeBlocks(b: seq<byte>, off: nat, n: nat) returns (r: Option<(seq<seq<byte>>, nat)>)
    ensures r == Blocks(b, off, n)
  {
    var regions: seq<seq<byte>>, at := [], off;
    assert forall rest: seq<seq<byte>> :: [] + rest == rest;
    for i := 0 to n
      invariant off <= at
      invariant Blocks(b, off, n)
             == match Blocks(b, at, n - i) case None => None case Some((rest, end)) => Some((regions + rest, end))
    {
      if at + 2 > |b| { return None; }
      var len := Be16(b, at);
      if at + 2 + len > |b| { return None; }
      ghost var was, block := regions, b[at + 2..at + 2 + len];
      regions := regions + [b[at + 2..at + 2 + len]];
      assert forall rest: seq<seq<byte>> :: was + ([block] + rest) == regions + rest;
      at := at + 2 + len;
    }
    assert regions + [] == regions;
    r := Some((regions, at));
  }

  function RidOf(r: Response): (rid: Option<uint16>) {
    if r.HelloAck? then None else Some(r.rid)
  }
}
