/**
 * The agent's EverDrive driver: a resumable receiver that is never out of step with the host's stream, whichever
 * bus access or clock reading stops it, the queue it fills, and a sender of 512-byte blocks.
 */
module EverDriveDriver {
  import opened Bytes
  import opened OneShot
  import opened UsbFraming
  import opened EverDriveCart
  import opened EverDrivePlace

  const BUSY_SPINS: nat := 20000
  const BUSY_TICKS: uint32 := 75 * 46875
  const RECEIVE_TICKS: uint32 := 100 * 46875
  const BURST_TICKS: uint32 := 30 * 46875
  const SEND_TICKS: uint32 := 250 * 46875
  const READ_AHEAD_MAX: nat := 32
  const MAX_MESSAGE: nat := 0x00FF_FFFF

  /** What `Receive` returns for a gap: L3 bytes left the stream that no call will return. */
  const RECEIVE_LOST: uint32 := 0xFFFF_FFFF

  datatype Usb = Busy | Idle | Stuck
  datatype Rx = RxBusy | RxClear | RxDone | RxLost | RxFull

  /** The items a step adds to the trace when it ends in `r` with `msg` queued. */
  function Outcome(r: Rx, msg: seq<byte>): seq<Item> {
    match r
    case RxDone => Octets(msg)
    case RxLost => [Lost]
    case _ => []
  }

  /** Ticks of the CPU's 32-bit Count register. */
  function Elapsed(began: uint32, now: uint32): (ticks: uint32) {
    (now as int - began as int) % 0x1_0000_0000
  }

  lemma HeadDigits(len: nat)
    requires 0 < len <= MAX_MESSAGE
    ensures var head := 0x0100_0000 + len;
            && head / 0x100_0000 == 1 && head / 0x1_0000 % 0x100 == len / 0x1_0000
            && head / 0x100 % 0x100 == len / 0x100 % 0x100 && head % 0x100 == len % 0x100
  {
    var head := 0x0100_0000 + len;
    assert head / 0x1_0000 == 0x100 + len / 0x1_0000;
    assert head / 0x100 == 0x1_0000 + len / 0x100;
  }

  /** Byte `p` of the header of the message the console sends. */
  function HeadByte(len: nat, p: nat): (b: byte)
    requires 0 < len <= MAX_MESSAGE && p < 8
    ensures b == OutgoingHead(len)[p]
  {
    var head := 0x0100_0000 + len;
    HeadDigits(len);
    if p < 4 then MAGIC[p]
    else if p == 4 then head / 0x100_0000
    else if p == 5 then head / 0x1_0000 % 0x100
    else if p == 6 then head / 0x100 % 0x100
    else head % 0x100
  }

  /** Index `p` of the framed message: prefix, header, payload, trailer or padding. */
  function MessageByte(data: seq<byte>, p: nat): (b: byte)
    requires 0 < |data| <= MAX_MESSAGE && p < |Outgoing(data)|
    ensures b == Outgoing(data)[p]
  {
    if p < 8 then HeadByte(|data|, p)
    else if p - 8 < |data| then data[p - 8]
    else if p - 8 - |data| < 4 then TRAILER[p - 8 - |data|]
    else 0
  }

  /** What is queued, with the loss where it fell. */
  function WaitingIn(q: seq<byte>, lost: bool, beforeLoss: nat): (w: seq<Item>)
    requires lost ==> beforeLoss <= |q|
  {
    if lost then Octets(q[..beforeLoss]) + [Lost] + Octets(q[beforeLoss..]) else Octets(q)
  }

  lemma WaitingJoin(q: seq<byte>, lost: bool, beforeLoss: nat, msg: seq<byte>)
    requires lost ==> beforeLoss <= |q|
    ensures WaitingIn(q + msg, lost, beforeLoss) == WaitingIn(q, lost, beforeLoss) + Octets(msg)
  {
    hide Octets;
    if lost {
      assert (q + msg)[..beforeLoss] == q[..beforeLoss] && (q + msg)[beforeLoss..] == q[beforeLoss..] + msg;
      OctetsAppend(q[beforeLoss..], msg);
    } else {
      OctetsAppend(q, msg);
    }
  }

  lemma WaitingLoss(q: seq<byte>)
    ensures WaitingIn(q, true, 0) == [Lost] + WaitingIn(q, false, 0)
  {
    assert q[0..] == q && Octets(q[..0]) == [];
  }

  lemma WaitingTake(q: seq<byte>, lost: bool, beforeLoss: nat, n: nat)
    requires n <= |q| && (lost ==> n <= beforeLoss <= |q|)
    ensures WaitingIn(q, lost, beforeLoss)
         == Octets(q[..n]) + WaitingIn(q[n..], lost, if lost then beforeLoss - n else beforeLoss)
  {
    hide Octets;
    if lost {
      assert q[..beforeLoss] == q[..n] + q[n..][..beforeLoss - n] && q[beforeLoss..] == q[n..][beforeLoss - n..];
      OctetsAppend(q[..n], q[n..][..beforeLoss - n]);
    } else {
      assert q == q[..n] + q[n..];
      OctetsAppend(q[..n], q[n..]);
    }
  }

  lemma WaitingNone(beforeLoss: nat)
    ensures WaitingIn([], false, beforeLoss) == [] == Octets([])
  {}

  lemma WaitingMarked(q: seq<byte>, beforeLoss: nat)
    ensures WaitingIn(q, true, |q|) == WaitingIn(q, false, beforeLoss) + [Lost]
  {
    assert q[..|q|] == q && Octets(q[|q|..]) == [];
  }

  lemma WaitingFolded(q: seq<byte>, beforeLoss: nat)
    requires beforeLoss <= |q|
    ensures WaitingIn(q, true, beforeLoss) == Octets(q[..beforeLoss]) + [Lost] + Octets(q[beforeLoss..])
    ensures WaitingIn(q[..beforeLoss], true, beforeLoss) == Octets(q[..beforeLoss]) + [Lost]
  {
    var r := q[..beforeLoss];
    assert r[..beforeLoss] == r && Octets(r[beforeLoss..]) == [];
  }

  /** A byte-by-byte copy; within one array, only towards its front. */
  method Copy(dst: array<byte>, to: nat, src: array<byte>, at: nat, n: nat)
    requires to + n <= dst.Length && at + n <= src.Length && (src != dst || to <= at)
    modifies dst
    ensures dst[..] == Overwrite(old(dst[..]), to, old(src[at..at + n]))
  {
    for i := 0 to n
      invariant forall k :: to <= k < to + i ==> dst[k] == old(src[at + (k - to)])
      invariant forall k :: 0 <= k < dst.Length && !(to <= k < to + i) ==> dst[k] == old(dst[k])
    {
      dst[to + i] := src[at + i];
    }
  }

  /** What putting `bytes` at `to` leaves before and behind `mid`. */
  lemma Copied(was: seq<byte>, now: seq<byte>, from: nat, mid: nat, to: nat, bytes: seq<byte>)
    requires from <= mid <= to && to + |bytes| <= |was| && now == Overwrite(was, to, bytes)
    ensures now[from..mid] == was[from..mid]
    ensures now[mid..][..to - mid + |bytes|] == was[mid..][..to - mid] + bytes
  {
    assert now[mid..][..to - mid + |bytes|] == now[mid..to] + now[to..to + |bytes|];
  }

  class Driver {
    const cart: Cart
    /** The data window, as the console holds it. */
    const window: array<byte>
    /** The queue is `rxq[off..off + len]`: L3 bytes received and still to be returned. */
    const rxq: array<byte>
    var off: nat
    var len: nat
    /** A message read ahead was lost, after the first `beforeLoss` bytes of the queue. */
    var lost: bool
    var beforeLoss: nat
    var place: Place
    /** Set when a stuck read took a message's bytes with it; cleared by the loss that says so. */
    var rxCut: bool
    // The call under way, and the time the run of receives has used.
    var callAt: uint32
    var callTicks: uint32
    var retry: bool
    var used: uint32
    ghost var trace: Trace
    /** What the agent has been handed. */
    ghost var handed: seq<Item>

    ghost predicate Shape()
      reads this, cart
    {
      && window.Length == WINDOW && rxq.Length == RXQ_CAP && window != rxq
      && cart.Valid() && off + len <= RXQ_CAP && (lost ==> beforeLoss <= len)
    }

    ghost function Queue(): seq<byte>
      requires off + len <= rxq.Length
      reads this, rxq
    {
      rxq[off..off + len]
    }

    /** The room behind the queue, where a message is put together. */
    ghost function Tail(): seq<byte>
      requires off + len <= rxq.Length
      reads this, rxq
    {
      rxq[off + len..]
    }

    /** What every step of the receive path keeps. */
    ghost predicate Core()
      reads this, cart, rxq
    {
      Shape() && InPlace(place, trace, cart.usb, Tail())
    }

    ghost function Waiting(): seq<Item>
      requires off + len <= rxq.Length && (lost ==> beforeLoss <= len)
      reads this, rxq
    {
      WaitingIn(Queue(), lost, beforeLoss)
    }

    /**
     * The invariant of every call: the counters fit the stream, and `handed` followed by the queue is
     * `trace.produced` up to folded losses.
     */
    ghost predicate Valid()
      reads this, cart, rxq
    {
      Core() && !rxCut && Folded(trace.produced, handed + Waiting())
    }

    /** The driver as `ed64_init` leaves it on a cart nothing has been read from. */
    constructor (cart: Cart)
      requires cart.Valid() && cart.usb.moved == [] && cart.usb.want == 0
      ensures Valid() && this.cart == cart && fresh(rxq) && fresh(window)
      ensures trace == Trace(0, [], []) && handed == [] && Between(place)
    {
      this.cart := cart;
      window := new byte[WINDOW](i => 0);
      rxq := new byte[RXQ_CAP](i => 0);
      off, len, lost, beforeLoss := 0, 0, false, 0;
      place := Place(Header, 0, 0, 0, 0, 0, false);
      rxCut, callAt, callTicks, retry, used := false, 0, 0, false, 0;
      trace, handed := Trace(0, [], []), [];
      new;
      hide InPlace;
      StartKeeps(cart.usb, Tail());
      WaitingNone(0);
    }

    // ---- time ----

    method Count() returns (ticks: uint32) {
      ticks := *;
    }

    method CallBegin(ticks: uint32)
      modifies this`callAt, this`callTicks, this`retry
      ensures callTicks == ticks && !retry
    {
      callAt := Count();
      callTicks, retry := ticks, false;
    }

    method OutOfTime() returns (out: bool) {
      var now := Count();
      out := Elapsed(callAt, now) >= callTicks;
    }

    // ---- USB unit ----

    /** One look at the USB unit, which may find that a transfer has finished. */
    method UsbPoll() returns (ok: bool, st: Status)
      requires Core()
      modifies this`place, cart`usb
      ensures Core()
      ensures if ok && !st.active then Arrived(old(cart.usb), cart.usb) && place == old(place).(reading := false)
              else cart.usb == old(cart.usb) && place == old(place)
    {
      ok, st := cart.ReadStatus();
      if ok && !st.active {
        ArrivedKeeps(place, trace, old(cart.usb), cart.usb, Tail());
        place := place.(reading := false);
      }
    }

    /**
     * Polls the unit. `Idle` if it was seen idle, `Stuck` if the transfer is overdue, `Busy` if a refused
     * access or the time limit came before either.
     */
    method UsbWait() returns (r: Usb, st: Status)
      requires Core()
      modifies this`place, cart`usb
      ensures Core()
      ensures if r.Idle? then Arrived(old(cart.usb), cart.usb) && place == old(place).(reading := false)
              else cart.usb == old(cart.usb) && place == old(place)
    {
      r, st := Stuck, Status(false, true, false);
      var began := Count();
      var spins := 0;
      while spins < BUSY_SPINS
        invariant r.Stuck? && Core() && cart.usb == old(cart.usb) && place == old(place)
      {
        spins := spins + 1;
        var late := OutOfTime();
        if late { r := Busy; break; }
        var ok;
        ok, st := UsbPoll();
        if !ok {
          if !retry { r := Busy; break; }
          continue;
        }
        if !st.active { r := Idle; break; }
        var now := Count();
        if Elapsed(began, now) >= BUSY_TICKS { break; }
      }
    }

    /**
     * As `UsbWait`, and an overdue transfer is abandoned. If that was a read, the counters start over at a
     * header of an unknown stream, and `rxCut` is set if any of it was for the current message.
     */
    method UsbIdle() returns (r: Usb, st: Status)
      requires Core() && !rxCut
      modifies this`place, this`trace, this`rxCut, cart`usb
      ensures Core()
      ensures r.Idle? ==> Arrived(old(cart.usb), cart.usb) && place == old(place).(reading := false) && trace == old(trace)
      ensures r.Busy? || (r.Stuck? && !old(place.reading)) ==> place == old(place) && trace == old(trace)
      ensures r.Stuck? && old(place.reading) ==>
        place == Forgotten(old(place)) && trace == Restarted(old(trace)) && !cart.usb.trusted
      ensures rxCut == (r.Stuck? && old(place.reading) && old(place.pull) != 0)
    {
      r, st := UsbWait();
      if r.Stuck? {
        var ok, stored := cart.Abandon();
        if !stored {
          r := Busy;
        } else if place.reading {
          ForgottenKeeps(place, trace, cart.usb.data, Tail());
          rxCut := place.pull != 0;
          place, trace := Forgotten(place), Restarted(trace);
        }
      }
    }

    /** Begins a read of `n` bytes. On failure no request was stored and every field is as before. */
    method UsbAsk(n: nat) returns (asked: bool)
      requires cart.Valid() && cart.usb.want == 0 && 1 <= n <= WINDOW
      modifies cart`usb
      ensures cart.Valid()
      ensures if asked then AskedFor(old(cart.usb), n, cart.usb) else cart.usb == old(cart.usb)
    {
      var late := OutOfTime();
      if late { return false; }
      var ok, stored := cart.AskRead(n);
      asked := stored;
    }

    /** Load the whole words of the window that hold what was pulled, from `addr` on. */
    method LoadPulled(addr: nat, at: nat) returns (ok: bool)
      requires Core() && 0 < place.pull <= WINDOW && !place.reading
      requires addr == WINDOW - place.pull && at == addr % 4
      modifies window
      ensures Core() && place.pull <= |cart.usb.moved|
      ensures ok ==> window[at..at + place.pull] == cart.usb.moved[|cart.usb.moved| - place.pull..]
    {
      hide InPlace;
      PlaceFacts(place, trace, cart.usb, Tail());
      ok := cart.LoadWords(window, addr - at);
      assert ok ==> window[at..at + place.pull] == window[..WINDOW - (addr - at)][at..] == cart.usb.data[addr..];
    }

    /**
     * Completes the read of `place.pull` bytes: they are `window[at..at + n]` if `ok`. If not, either `pull`
     * is unchanged, for another call to complete, or the read was abandoned.
     */
    method UsbTake() returns (ok: bool, at: nat, n: nat)
      requires Core() && !rxCut && place.pull > 0
      modifies this`place, this`trace, this`rxCut, window, cart`usb
      ensures Shape()
      ensures !ok ==> Core() && trace.produced == old(trace.produced)
      ensures !ok && rxCut ==> place == Forgotten(old(place)) && trace == Restarted(old(trace)) && !cart.usb.trusted
      ensures ok ==>
        && n == old(place.pull) && place == old(place).(pull := 0, reading := false) && trace == old(trace) && !rxCut
        && InPlace(place.(pull := n), trace, cart.usb, Tail())
        && at + n <= WINDOW && n <= |cart.usb.moved| && window[at..at + n] == cart.usb.moved[|cart.usb.moved| - n..]
    {
      hide InPlace;
      PlaceFacts(place, trace, cart.usb, Tail());
      var addr := WINDOW - place.pull;
      var r, st := UsbIdle();
      ok, at, n := false, addr % 4, 0;
      if r.Idle? {
        var late := OutOfTime();
        if !late {
          n := place.pull;
          ok := LoadPulled(addr, at);
          if ok { place := place.(pull := 0); }
        }
      }
    }

    // ---- receive ----

    /** Moves the queue to index 0, its contents the same; what lies behind it is overwritten. */
    method RxqToFront()
      requires off + len <= rxq.Length
      modifies this`off, rxq
      ensures off == 0 && len <= rxq.Length && rxq[..len] == old(Queue())
    {
      if off > 0 {
        Copy(rxq, 0, rxq, off, len);
        off := 0;
      }
    }

    /** How a call ends that got no bytes: in a loss if `rxCut` was set, else in `RxBusy`. */
    method RxStopped() returns (r: Rx)
      requires Core() && (rxCut ==> trace.cursor == 0 && trace.base == trace.produced && !cart.usb.trusted && place.phase.Header?)
      modifies this`rxCut, this`trace
      ensures Core() && !rxCut && (r.RxBusy? || r.RxLost?)
      ensures trace.produced == old(trace.produced) + Outcome(r, [])
      ensures r.RxLost? ==> place.phase.Header?
    {
      if !rxCut { return RxBusy; }
      rxCut := false;
      LossKeeps(place, trace, cart.usb, Tail());
      trace := Trace(0, trace.produced + [Lost], trace.produced + [Lost]);
      r := RxLost;
    }

    /**
     * Skips the `owed` bytes, by reads of at most one window whose data is ignored. `None`: none
     * is left, or a read waits to be taken.
     */
    method DrainOwed() returns (stopped: Option<Rx>, st: Status)
      requires Core() && !rxCut
      modifies this`place, this`trace, this`rxCut, cart`usb
      ensures Core() && !rxCut
      ensures stopped == None ==>
        && place.phase == old(place.phase) && place.pull == old(place.pull) && trace == old(trace)
        && (place.pull == 0 ==> place.owed == 0 && !place.reading)
      ensures stopped.Some? ==>
        && (stopped.value.RxBusy? || (stopped.value.RxLost? && place.phase.Header?))
        && trace.produced == old(trace.produced) + Outcome(stopped.value, [])
    {
      hide InPlace;
      st := Status(false, false, false);
      if place.pull > 0 { return None, st; }
      while true
        invariant Core() && !rxCut && trace == old(trace) && place.phase == old(place.phase) && place.pull == 0
        decreases place.owed
      {
        var n := Min(place.owed, WINDOW);
        var r;
        r, st := UsbIdle();
        if !r.Idle? {
          var s := RxStopped();
          return Some(s), st;
        }
        PlaceFacts(place, trace, cart.usb, Tail());
        if n == 0 { return None, st; }
        ghost var usb := cart.usb;
        var asked := UsbAsk(n);
        if !asked { return Some(RxBusy), st; }
        AskKeeps(place, place.(owed := place.owed - n, reading := true), trace, usb, n, cart.usb, Tail());
        place := place.(owed := place.owed - n, reading := true);
      }
    }

    /** Between messages: read a header, and settle what becomes of its message. */
    method ReceiveHeader(st: Status) returns (stopped: Option<Rx>)
      requires Core() && !rxCut && place.phase.Header? && (place.pull == 0 ==> Between(place))
      modifies this`place, this`trace, this`rxCut, window, cart`usb
      ensures Core() && !rxCut
      ensures stopped == None ==> place.phase.Room? && trace == old(trace)
      ensures stopped.Some? ==>
        && (stopped.value.RxClear? ==> Between(place)) && !stopped.value.RxFull?
        && (stopped.value.RxLost? ==> place.phase.Header?)
        && trace.produced == old(trace.produced) + Outcome(stopped.value, [])
    {
      hide InPlace;
      PlaceFacts(place, trace, cart.usb, Tail());
      if place.pull == 0 {
        if !st.power || st.rxEmpty { return Some(RxClear); }
        ghost var usb := cart.usb;
        var asked := UsbAsk(8);
        if !asked { return Some(RxBusy); }
        AskKeeps(place, place.(pull := 8, reading := true), trace, usb, 8, cart.usb, Tail());
        place := place.(pull := 8, reading := true);
      }
      var ok, at, n := UsbTake();
      if !ok {
        var s := RxStopped();
        return Some(s);
      }
      stopped := SettleHeader(window[at..at + n]);
    }

    /** A header has been loaded as `b`. */
    method SettleHeader(b: seq<byte>) returns (stopped: Option<Rx>)
      requires Shape() && place.phase.Header? && place.pull == 0 && !place.reading
      requires InPlace(place.(pull := 8), trace, cart.usb, Tail())
      requires |b| == 8 && b == cart.usb.moved[|cart.usb.moved| - 8..]
      modifies this`place, this`trace
      ensures Core()
      ensures if stopped == None then place.phase.Room? && trace == old(trace)
              else place.phase.Header? && (stopped == Some(RxDone) || stopped == Some(RxLost))
                   && trace.produced == old(trace.produced) + Outcome(stopped.value, [])
    {
      hide InPlace;
      HeaderKeeps(place.(pull := 8), trace, cart.usb, Tail(), b);
      if b[..4] != MAGIC {
        trace := Yield(trace, trace.cursor + 8, [Lost]);
        return Some(RxLost);
      }
      var size := Be24(b, 5);
      var left := Padded(size);
      place := place.(left := left);
      if b[4] != DATATYPE_L3 {
        place := place.(owed := left + 4);
        trace := Yield(trace, trace.cursor + 12 + left, []);
        return Some(RxDone);
      }
      if size > RXQ_CAP {
        place := place.(owed := left + 4);
        trace := Yield(trace, trace.cursor + 12 + left, [Lost]);
        return Some(RxLost);
      }
      place := place.(size := size, got := 0, phase := Room);
      stopped := None;
    }

    /** Goes on from the header to the payload if the whole message fits behind the queue. */
    method MakeRoom() returns (room: bool)
      requires Core() && place.phase.Room?
      modifies this`place, this`off, rxq
      ensures Core() && Queue() == old(Queue())
      ensures room ==> place.phase.Payload?
    {
      RxqToFront();
      room := place.size <= RXQ_CAP - len;
      if room {
        RoomKeeps(place, trace, cart.usb, Tail());
        place := place.(phase := Payload);
      }
    }

    /** Copies the loaded `window[at..at + n]` behind the queue, cut at the message's own size. */
    method CopyIn(at: nat, n: nat)
      requires Shape() && at + n <= WINDOW && place.got <= place.size <= |Tail()|
      modifies this`place, rxq
      ensures Shape() && Queue() == old(Queue())
      ensures var k := Min(n, old(place.size - place.got));
              && place == old(place).(got := old(place.got) + k)
              && Tail()[..place.got] == old(Tail())[..old(place.got)] + window[at..at + n][..k]
    {
      var to, k := off + len + place.got, Min(n, place.size - place.got);
      Copy(rxq, to, window, at, k);
      place := place.(got := place.got + k);
      Copied(old(rxq[..]), rxq[..], off, off + len, to, window[at..at + n][..k]);
    }

    /** Gathers the rest of the payload behind the queue. `None`: it is complete and the trailer is next. */
    method GatherPayload() returns (stopped: Option<Rx>)
      requires Core() && !rxCut && place.phase.Payload?
      modifies this`place, this`trace, this`rxCut, window, rxq, cart`usb
      ensures Core() && !rxCut && Queue() == old(Queue())
      ensures stopped == None ==> place.phase.Trailer? && trace == old(trace)
      ensures stopped.Some? ==>
        && (stopped.value.RxBusy? || (stopped.value.RxLost? && place.phase.Header?))
        && trace.produced == old(trace.produced) + Outcome(stopped.value, [])
    {
      hide InPlace;
      while place.pull > 0 || place.left > 0
        invariant Core() && !rxCut && trace == old(trace) && place.phase.Payload? && Queue() == old(Queue())
        decreases place.left + place.pull
      {
        if place.pull == 0 {
          var asked := AskPayload();
          if !asked { return Some(RxBusy); }
        }
        stopped := TakePayload();
        if stopped.Some? { return; }
      }
      PlaceFacts(place, trace, cart.usb, Tail());
      ghost var usb := cart.usb;
      var asked := UsbAsk(4);
      if !asked { return Some(RxBusy); }
      AskKeeps(place, place.(pull := 4, phase := Trailer, reading := true), trace, usb, 4, cart.usb, Tail());
      place := place.(pull := 4, phase := Trailer, reading := true);
      stopped := None;
    }

    /** Ask for as much of the payload as the window holds. */
    method AskPayload() returns (asked: bool)
      requires Core() && place.phase.Payload? && place.pull == 0 < place.left
      modifies this`place, cart`usb
      ensures Core() && place.phase.Payload?
      ensures place.left + place.pull == old(place.left) && (asked ==> place.pull > 0)
    {
      hide InPlace;
      PlaceFacts(place, trace, cart.usb, Tail());
      var n := Min(place.left, WINDOW);
      ghost var usb := cart.usb;
      asked := UsbAsk(n);
      if asked {
        AskKeeps(place, place.(pull := n, left := place.left - n, reading := true), trace, usb, n, cart.usb, Tail());
        place := place.(pull := n, left := place.left - n, reading := true);
      }
    }

    /** Take the stretch of payload that was pulled. */
    method TakePayload() returns (stopped: Option<Rx>)
      requires Core() && !rxCut && place.phase.Payload? && place.pull > 0
      modifies this`place, this`trace, this`rxCut, window, rxq, cart`usb
      ensures Core() && !rxCut && Queue() == old(Queue())
      ensures stopped == None ==> place.phase.Payload? && place.pull == 0 && place.left == old(place.left) && trace == old(trace)
      ensures stopped.Some? ==>
        && (stopped.value.RxBusy? || (stopped.value.RxLost? && place.phase.Header?))
        && trace.produced == old(trace.produced) + Outcome(stopped.value, [])
    {
      hide InPlace;
      var ok, at, n := UsbTake();
      if !ok {
        var s := RxStopped();
        return Some(s);
      }
      ghost var p, tail := place, Tail();
      PlaceFacts(place.(pull := n), trace, cart.usb, Tail());
      CopyIn(at, n);
      PayloadKeeps(p.(pull := n), trace, cart.usb, tail, window[at..at + n], Tail());
      stopped := None;
    }

    /** Reads the trailer. If it is CMPH, `msg` joins the queue; otherwise nothing does, and a loss is recorded. */
    method CheckTrailer() returns (r: Rx, ghost msg: seq<byte>)
      requires Core() && !rxCut && place.phase.Trailer?
      modifies this`place, this`trace, this`rxCut, this`len, window, cart`usb
      ensures Core() && !rxCut && Queue() == old(Queue()) + msg && (!r.RxDone? ==> msg == [])
      ensures r.RxBusy? || r.RxDone? || (r.RxLost? && place.phase.Header?)
      ensures trace.produced == old(trace.produced) + Outcome(r, msg)
    {
      hide InPlace;
      msg := [];
      PlaceFacts(place, trace, cart.usb, Tail());
      var ok, at, n := UsbTake();
      if !ok {
        r := RxStopped();
        return;
      }
      r, msg := SettleMessage(window[at..at + n]);
    }

    /** A trailer has been loaded as `b`. */
    method SettleMessage(b: seq<byte>) returns (r: Rx, ghost msg: seq<byte>)
      requires Shape() && place.phase.Trailer? && place.pull == 0 && !place.reading
      requires InPlace(place.(pull := 4), trace, cart.usb, Tail())
      requires |b| == 4 <= |cart.usb.moved| && b == cart.usb.moved[|cart.usb.moved| - 4..]
      modifies this`place, this`trace, this`len
      ensures Core() && Queue() == old(Queue()) + msg && place.phase.Header?
      ensures if b == TRAILER then r.RxDone? else r.RxLost? && msg == []
      ensures trace.produced == old(trace.produced) + Outcome(r, msg)
    {
      hide InPlace; hide Octets; hide Padded;
      PlaceFacts(place.(pull := 4), trace, cart.usb, Tail());
      SliceExtends(rxq[..], off, off + len, off + len + place.got);
      ghost var body, rest := Tail()[..place.size], Tail()[place.size..];
      TrailerKeeps(place.(pull := 4), trace, cart.usb, Tail(), b, if b == TRAILER then rest else Tail());
      var next := trace.cursor + 12 + Padded(place.size);
      place := place.(phase := Header);
      if b != TRAILER {
        trace := Yield(trace, next, [Lost]);
        return RxLost, [];
      }
      trace := Yield(trace, next, Octets(body));
      len := len + place.got;
      r, msg := RxDone, body;
    }

    /**
     * Resumes at `place` and does not go past one message. `trace.produced` grows by exactly `Outcome(r, msg)`:
     * the payload `msg`, now queued, or one loss, or nothing.
     */
    method UsbReceive() returns (r: Rx, ghost msg: seq<byte>)
      requires Core() && !rxCut
      modifies this`place, this`trace, this`rxCut, this`off, this`len, window, rxq, cart`usb
      ensures Core() && !rxCut && Queue() == old(Queue()) + msg && (!r.RxDone? ==> msg == [])
      ensures (r.RxClear? ==> Between(place)) && (r.RxLost? ==> place.phase.Header?)
      ensures trace.produced == old(trace.produced) + Outcome(r, msg)
    {
      hide InPlace;
      msg := [];
      var stopped, st := DrainOwed();
      if stopped.Some? { return stopped.value, []; }
      if place.phase.Header? {
        stopped := ReceiveHeader(st);
        if stopped.Some? { return stopped.value, []; }
      }
      if place.phase.Room? {
        var room := MakeRoom();
        if !room { return RxFull, []; }
      }
      if place.phase.Payload? {
        stopped := GatherPayload();
        if stopped.Some? { return stopped.value, []; }
      }
      r, msg := CheckTrailer();
    }

    /** Hand over the next `n` queued bytes, all of them ahead of any loss. */
    method TakeBytes(dst: array<byte>, at: nat, n: nat) returns (ghost out: seq<byte>)
      requires Valid() && dst != rxq && at + n <= dst.Length && n <= len && (lost ==> n <= beforeLoss)
      modifies this`off, this`len, this`beforeLoss, this`handed, dst
      ensures Valid() && len == old(len) - n
      ensures |out| == n && handed == old(handed) + Octets(out) && dst[..] == Overwrite(old(dst[..]), at, out)
    {
      hide InPlace; hide Folded; hide Octets; hide WaitingIn; hide Overwrite;
      ghost var q, sum := Queue(), handed + Waiting();
      WaitingTake(q, lost, beforeLoss, n);
      SliceOfSlice(rxq[..], off, off + len, n);
      Copy(dst, at, rxq, off, n);
      off, len := off + n, len - n;
      if lost { beforeLoss := beforeLoss - n; }
      out := q[..n];
      handed := handed + Octets(out);
      assert handed + Waiting() == sum;
    }

    /** Returns a loss if it is at the queue's front, else the queued bytes before it, up to `cap`. */
    method RxqTake(dst: array<byte>, at: nat, cap: nat) returns (n: nat, ghost out: seq<byte>)
      requires Valid() && dst != rxq && at + cap <= dst.Length
      modifies this`off, this`len, this`lost, this`beforeLoss, this`handed, dst
      ensures Valid()
      ensures |out| <= cap && dst[..] == Overwrite(old(dst[..]), at, out)
      ensures if n == RECEIVE_LOST then out == [] && handed == old(handed) + [Lost]
              else |out| == n && handed == old(handed) + Octets(out)
      ensures len == old(len) - |out| && (n != RECEIVE_LOST ==> lost == old(lost))
      ensures n == 0 && len == 0 ==> !lost
      ensures n == 0 ==> cap == 0 || (old(len) == 0 && !old(lost))
    {
      hide InPlace; hide Folded; hide Octets; hide WaitingIn;
      if lost && beforeLoss == 0 {
        ghost var sum := handed + Waiting();
        WaitingLoss(Queue());
        lost := false;
        handed := handed + [Lost];
        assert handed + Waiting() == sum;
        return RECEIVE_LOST, [];
      }
      n := Min(len, cap);
      if lost && n > beforeLoss { n := beforeLoss; }
      out := TakeBytes(dst, at, n);
    }

    /**
     * `handed` grows by exactly what is returned: bytes `out`, or one loss. The cart is not touched while
     * anything is queued, nor when the run's ticks are spent.
     */
    method Receive(dst: array<byte>, at: nat, cap: nat) returns (n: nat, ghost out: seq<byte>)
      requires Valid() && dst != rxq && dst != window && at + cap <= dst.Length
      modifies this, window, rxq, cart`usb, dst
      ensures Valid()
      ensures |out| <= cap && dst[..] == Overwrite(old(dst[..]), at, out)
      ensures if n == RECEIVE_LOST then out == [] && handed == old(handed) + [Lost]
              else |out| == n && handed == old(handed) + Octets(out)
      ensures old(len) > 0 || old(lost) || old(used) >= BURST_TICKS ==>
        cart.usb == old(cart.usb) && place == old(place) && trace == old(trace)
    {
      hide InPlace; hide Folded; hide Octets; hide WaitingIn;
      n, out := RxqTake(dst, at, cap);
      if n == 0 && len == 0 {
        assert handed == old(handed) && dst[..] == old(dst[..]) by { WaitingNone(beforeLoss); }
        n, out := ReceiveMore(dst, at, cap);
      }
      if n == 0 || n == RECEIVE_LOST { used := 0; }
    }

    /** The queue is empty: unless the run has used its time, receive a message within the call's. */
    method ReceiveMore(dst: array<byte>, at: nat, cap: nat) returns (n: nat, ghost out: seq<byte>)
      requires Valid() && len == 0 && !lost && dst != rxq && dst != window && at + cap <= dst.Length
      modifies this, window, rxq, cart`usb, dst
      ensures Valid()
      ensures |out| <= cap && dst[..] == Overwrite(old(dst[..]), at, out)
      ensures if n == RECEIVE_LOST then out == [] && handed == old(handed) + [Lost]
              else |out| == n && handed == old(handed) + Octets(out)
      ensures old(used) >= BURST_TICKS ==>
        n == 0 && cart.usb == old(cart.usb) && place == old(place) && trace == old(trace)
    {
      hide InPlace; hide Folded; hide Octets; hide WaitingIn;
      if used >= BURST_TICKS {
        WaitingNone(beforeLoss);
        used := 0;
        return 0, [];
      }
      CallBegin(RECEIVE_TICKS);
      n, out := ReceiveMessage(dst, at, cap);
      var now := Count();
      used := (used + Elapsed(callAt, now)) % 0x1_0000_0000;
    }

    /** The queue is empty: receive a message, and hand it over. */
    method ReceiveMessage(dst: array<byte>, at: nat, cap: nat) returns (n: nat, ghost out: seq<byte>)
      requires Valid() && len == 0 && !lost && dst != rxq && dst != window && at + cap <= dst.Length
      modifies this`place, this`trace, this`rxCut, this`off, this`len, this`lost, this`beforeLoss, this`handed
      modifies window, rxq, cart`usb, dst
      ensures Valid()
      ensures |out| <= cap && dst[..] == Overwrite(old(dst[..]), at, out)
      ensures if n == RECEIVE_LOST then out == [] && handed == old(handed) + [Lost]
              else |out| == n && handed == old(handed) + Octets(out)
    {
      hide InPlace; hide Folded; hide Octets; hide WaitingIn;
      var r := ReceiveNext();
      if r.RxLost? {
        WaitingNone(beforeLoss);
        assert Queue() == [];
        handed := handed + [Lost];
        assert handed + Waiting() == old(handed) + [] + [Lost];
        return RECEIVE_LOST, [];
      }
      if r.RxDone? {
        n, out := RxqTake(dst, at, cap);
      } else {
        n, out := 0, [];
        WaitingNone(beforeLoss);
      }
    }

    /** `UsbReceive`, with what it produced behind what waits; a loss is still to be placed. */
    method ReceiveNext() returns (r: Rx)
      requires Valid()
      modifies this`place, this`trace, this`rxCut, this`off, this`len, window, rxq, cart`usb
      ensures Core() && !rxCut && (r.RxClear? ==> Between(place))
      ensures !r.RxLost? ==> Valid()
      ensures r.RxLost? ==> place.phase.Header? && Queue() == old(Queue()) && Folded(trace.produced, handed + Waiting() + [Lost])
    {
      hide InPlace; hide Folded; hide Octets; hide WaitingIn;
      ghost var q, sum := Queue(), handed + Waiting();
      ghost var msg;
      r, msg := UsbReceive();
      FoldedAppend(old(trace.produced), sum, Outcome(r, msg));
      WaitingJoin(q, lost, beforeLoss, msg);
      WaitingNone(beforeLoss);
      assert Waiting() == WaitingIn(q, lost, beforeLoss) + Octets(msg);
      assert !r.RxLost? ==> sum + Outcome(r, msg) == handed + Waiting();
    }

    /**
     * Receives into the queue, `handed` unchanged, until a call brings nothing. When `clear`, no message is
     * begun, no read outstanding and no byte to be skipped.
     */
    method ReadAhead() returns (clear: bool)
      requires Valid()
      modifies this`place, this`trace, this`rxCut, this`off, this`len, this`lost, this`beforeLoss
      modifies window, rxq, cart`usb
      ensures Valid() && (clear ==> Between(place))
    {
      hide InPlace; hide Folded; hide Octets; hide WaitingIn;
      for i := 0 to READ_AHEAD_MAX
        invariant Valid()
      {
        var r := ReadOneAhead();
        if r.RxClear? { return true; }
        if r.RxBusy? || r.RxFull? { return false; }
      }
      clear := false;
    }

    /** Read a message into the queue; a second loss in the queue folds into the first. */
    method ReadOneAhead() returns (r: Rx)
      requires Valid()
      modifies this`place, this`trace, this`rxCut, this`off, this`len, this`lost, this`beforeLoss
      modifies window, rxq, cart`usb
      ensures Valid() && (r.RxClear? ==> Between(place))
    {
      hide InPlace; hide Folded; hide Octets; hide WaitingIn;
      r := ReceiveNext();
      if r.RxLost? {
        ghost var q := Queue();
        if !lost {
          WaitingMarked(q, beforeLoss);
          assert handed + WaitingIn(q, true, len) == handed + Waiting() + [Lost];
          lost, beforeLoss := true, len;
        } else {
          MergeLoss();
        }
      }
    }

    /** Records a loss behind the queue. If there is one already, the bytes behind that one are dropped. */
    method MergeLoss()
      requires Core() && !rxCut && place.phase.Header? && lost && Folded(trace.produced, handed + Waiting() + [Lost])
      modifies this`len
      ensures Valid()
    {
      hide InPlace; hide Folded; hide Octets; hide WaitingIn;
      ghost var q := Queue();
      ghost var kept, since := handed + Octets(q[..beforeLoss]), Octets(q[beforeLoss..]);
      WaitingFolded(q, beforeLoss);
      assert handed + Waiting() + [Lost] == kept + [Lost] + since + [Lost];
      FoldedMerge(trace.produced, kept, q[beforeLoss..]);
      DropTail(beforeLoss);
      assert handed + Waiting() == kept + [Lost];
    }

    /** Between messages the queue's end can move: nothing is being put together there. */
    method DropTail(n: nat)
      requires Core() && place.phase.Header? && n <= len && (lost ==> beforeLoss <= n)
      modifies this`len
      ensures Core() && len == n && Queue() == old(Queue())[..n]
    {
      hide InPlace;
      TailKeeps(place, trace, cart.usb, Tail(), rxq[off + n..]);
      SliceOfSlice(rxq[..], off, off + len, n);
      len := n;
    }

    // ---- send ----

    /** A block for `window[..WINDOW - first]`: `lead` zeros, then `n` bytes of the message from `p`. */
    method FillBlock(data: seq<byte>, p: nat, lead: nat, n: nat)
      requires 0 < |data| <= MAX_MESSAGE && p + n <= |Outgoing(data)| && window.Length == WINDOW && lead + n <= WINDOW
      modifies window
      ensures window[lead..lead + n] == Outgoing(data)[p..p + n]
    {
      for i := 0 to lead { window[i] := 0; }
      for i := 0 to n
        invariant forall k :: lead <= k < lead + i ==> window[k] == Outgoing(data)[p + (k - lead)]
      {
        window[lead + i] := MessageByte(data, p + i);
      }
    }

    /**
     * Sends the window from `addr` on. Accesses refused before the request are repeated if `retry` and the
     * limits allow, but a request once stored is never made again, confirmed or not: `cart.sent` grows by the
     * block once if `started`, else not at all.
     */
    method StartBlock(first: nat, addr: nat) returns (started: bool)
      requires Core() && Between(place) && first <= addr < WINDOW && first % 4 == 0
      modifies cart`usb, cart`sent
      ensures Core()
      ensures cart.sent == if started then old(cart.sent) + window[addr - first..WINDOW - first] else old(cart.sent)
    {
      hide InPlace;
      var rounds: nat := *; // tries the call has time for
      while true
        invariant Core() && cart.sent == old(cart.sent)
        decreases rounds
      {
        started := TryBlock(first, addr);
        if started { return; }
        var late := OutOfTime();
        if !retry || late || rounds == 0 { return; }
        rounds := rounds - 1;
      }
    }

    /** One try at starting a block. */
    method TryBlock(first: nat, addr: nat) returns (started: bool)
      requires Core() && Between(place) && first <= addr < WINDOW && first % 4 == 0
      modifies cart`usb, cart`sent
      ensures Core()
      ensures cart.sent == if started then old(cart.sent) + window[addr - first..WINDOW - first] else old(cart.sent)
    {
      hide InPlace;
      PlaceFacts(place, trace, cart.usb, Tail());
      var late := OutOfTime();
      if late { return false; }
      var ok := cart.WriteMode();
      if !ok { return false; }
      late := OutOfTime();
      if late { return false; }
      ok := cart.StoreWords(window, first);
      StoreKeeps(place, trace, old(cart.usb), cart.usb.data, Tail());
      if !ok { return false; }
      late := OutOfTime();
      if late { return false; }
      assert cart.usb.data[addr..] == cart.usb.data[first..][addr - first..] == window[..WINDOW - first][addr - first..];
      var stored;
      ok, stored := cart.AskWrite(addr);
      started := ok || stored;
    }

    /**
     * Send `data` as one message. What the cart has been asked to transmit of it is its first `n`
     * bytes: whole 512-byte blocks, no block twice, or all of it. True only for all of it; and
     * nothing is started unless the receive path is between messages, with nothing pulled or owed.
     */
    method Send(data: seq<byte>) returns (done: bool, ghost n: nat)
      requires Valid()
      modifies this, window, rxq, cart
      ensures Valid() && handed == old(handed)
      ensures n > 0 ==> Between(place) && 0 < |data| <= MAX_MESSAGE
      ensures 0 < |data| <= MAX_MESSAGE ==>
        && n <= |Outgoing(data)| && (n % WINDOW == 0 || n == |Outgoing(data)|)
        && cart.sent == old(cart.sent) + Outgoing(data)[..n] && (done ==> n == |Outgoing(data)|)
      ensures n == 0 ==> !done && cart.sent == old(cart.sent)
    {
      hide InPlace; hide Folded; hide Outgoing; hide WaitingIn;
      n := 0;
      if |data| == 0 || |data| > MAX_MESSAGE { return false, 0; }
      assert Outgoing(data)[..0] == [];
      CallBegin(SEND_TICKS);
      used := 0;
      var clear := ReadAhead();
      if !clear { return false, 0; }
      retry := false;
      done, n := SendBlocks(data);
    }

    /** Send the message block by block. */
    method SendBlocks(data: seq<byte>) returns (done: bool, ghost n: nat)
      requires Valid() && Between(place) && 0 < |data| <= MAX_MESSAGE
      modifies this`retry, this`place, this`trace, this`rxCut, window, cart
      ensures Valid() && Between(place)
      ensures n <= |Outgoing(data)| && (n % WINDOW == 0 || n == |Outgoing(data)|)
      ensures cart.sent == old(cart.sent) + Outgoing(data)[..n] && (done ==> n == |Outgoing(data)|)
    {
      hide InPlace; hide Folded; hide Outgoing; hide WaitingIn; hide Valid;
      var total := Padded(8 + |data| + 4);
      var p := 0;
      assert Outgoing(data)[..0] == [];
      while p < total
        invariant Valid() && Between(place)
        invariant p <= total == |Outgoing(data)| && (p % WINDOW == 0 || p == total)
        invariant cart.sent == old(cart.sent) + Outgoing(data)[..p]
        decreases total - p
      {
        var k := Min(total - p, WINDOW);
        SliceExtends(Outgoing(data), 0, p, p + k);
        var started, idle := SendBlock(data, p, k);
        if !started { return false, p; }
        p := p + k;
        if !idle { return false, p; }
      }
      done, n := true, p;
    }

    /** Start the block of `k` bytes from `p`, and wait for it to be sent. */
    method SendBlock(data: seq<byte>, p: nat, k: nat) returns (started: bool, idle: bool)
      requires Valid() && Between(place) && 0 < |data| <= MAX_MESSAGE && p + k <= |Outgoing(data)| && 0 < k <= WINDOW
      modifies this`retry, this`place, this`trace, this`rxCut, window, cart
      ensures Valid() && Between(place)
      ensures cart.sent == old(cart.sent) + if started then Outgoing(data)[p..p + k] else []
      ensures idle ==> started
    {
      hide InPlace; hide Folded; hide Outgoing; hide WaitingIn;
      var addr := WINDOW - k;
      var lead := addr % 4;
      FillBlock(data, p, lead, k);
      started := StartBlock(addr - lead, addr);
      if !started { return false, false; }
      retry := true;
      var r, _ := UsbIdle();
      idle := r.Idle?;
    }
  }

  // ---- what the calls amount to ----

  /** As long as reads are trusted, what has been produced is a prefix of the host's stream, parsed whole. */
  lemma ProducedFollowsHost(t: Trace, u: Unit, host: seq<byte>)
    requires ParsedTo(t, u) && UnitOk(u, host) && u.trusted
    ensures t.produced <= All(UsbStep, host, 0)
  {
    hide UsbStep;
    UsbStepGood();
    ReachedGrows(UsbStep, u.moved, host, t.cursor, t.base, t.produced);
    UptoAll(UsbStep, host, 0, t.cursor);
    assert t.produced == Upto(UsbStep, host, 0, t.cursor).value;
  }

  /**
   * For any host stream, and after any calls: what the agent has been handed, and then what waits, is
   * a prefix of the one-shot parse of the stream, but for losses folded into one.
   */
  lemma DeliveredFollowsHost(d: Driver)
    requires d.Valid() && d.cart.usb.trusted
    ensures d.trace.produced <= All(UsbStep, d.cart.host, 0)
    ensures Folded(d.trace.produced, d.handed + d.Waiting())
  {
    ProducedFollowsHost(d.trace, d.cart.usb, d.cart.host);
  }

  /** From a host that sends messages as it must, nothing is lost and nothing is out of order. */
  lemma NothingLost(d: Driver, ms: seq<Message>)
    requires d.Valid() && d.cart.usb.trusted && Sendable(ms) && d.cart.host == Wire(ms)
    ensures d.handed + d.Waiting() <= Octets(L3Bytes(ms))
    ensures d.handed <= Octets(L3Bytes(ms)) && Lost !in d.handed
  {
    hide UsbStep; hide WaitingIn; hide InPlace;
    DeliveredFollowsHost(d);
    WireParses([], ms);
    assert [] + Wire(ms) == Wire(ms);
    FoldedClean(d.trace.produced, d.handed + d.Waiting());
  }
}
