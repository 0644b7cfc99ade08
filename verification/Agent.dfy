/** The game-resident agent: L3 frames put together from the EverDrive's bytes, a tick at a time. */
module Agent {
  import opened Bytes
  import opened OneShot
  import opened UsbFraming
  import opened EverDriveCart
  import opened EverDriveDriver
  import opened L3Stream

  const STREAM_PULLS: nat := 32
  const STREAM_STALE_TICKS: nat := 60
  const AGENT_TX_CAP: nat := 16 + (5 + 3 + 32 * 2 + 7936) + 16
  const TYPE_DATA: byte := 0x10
  const CH_APPLICATION: byte := 0x00

  /**
   * What the buffer is measured against: every byte received since a partial frame was last thrown
   * away, where in them the buffer begins, and the frames returned, before that and in all.
   */
  datatype Hearing = Hearing(heard: seq<byte>, at: nat, before: seq<seq<byte>>, frames: seq<seq<byte>>)

  /** The buffer is the unparsed rest of the stream, behind `done` bytes of a frame returned. */
  ghost predicate Assembled(h: Hearing, buf: seq<byte>, done: nat) {
    && h.at <= |h.heard| && buf == h.heard[h.at..] && done <= |buf|
    && Reached(L3Step, h.heard, h.at + done, h.before, h.frames)
  }

  lemma DropKeeps(h: Hearing, buf: seq<byte>, done: nat)
    requires Assembled(h, buf, done)
    ensures Assembled(h.(at := h.at + done), buf[done..], 0)
  {}

  /** One byte at the front that begins no frame is junk. */
  lemma JunkKeeps(h: Hearing, buf: seq<byte>)
    requires Assembled(h, buf, 0) && buf != []
    requires !MagicAt(buf, 0) || (L3_HEADER_LEN <= |buf| && !Plausible(buf, 0))
    ensures Assembled(h.(at := h.at + 1), buf[1..], 0)
  {
    Shifted(h, buf);
    L3StepGood();
    ReachedStep(L3Step, h.heard, h.at, h.before, h.frames);
    assert h.frames + [] == h.frames;
  }

  /** What the buffer holds at its front is what the stream holds there. */
  lemma Shifted(h: Hearing, buf: seq<byte>)
    requires Assembled(h, buf, 0)
    ensures MagicAt(h.heard, h.at) == MagicAt(buf, 0)
    ensures forall k :: 0 <= k < |buf| ==> h.heard[h.at + k] == buf[k]
  {
    forall k | 0 <= k < 4 && h.at + k < |h.heard| ensures h.heard[h.at + k] == buf[k] {}
  }

  /** A complete frame at the front is the next the stream holds. */
  lemma FrameKeeps(h: Hearing, buf: seq<byte>, n: nat)
    requires Assembled(h, buf, 0) && MagicAt(buf, 0)
    requires L3_HEADER_LEN <= |buf| && Plausible(buf, 0) && n == L3_HEADER_LEN + Be32(buf, 12) <= |buf|
    ensures Assembled(h.(frames := h.frames + [buf[..n]]), buf, n)
  {
    Shifted(h, buf);
    L3StepGood();
    assert h.heard[h.at..h.at + n] == buf[..n];
    ReachedStep(L3Step, h.heard, h.at, h.before, h.frames);
  }

  /** The buffer does not yet decide what the stream holds next. */
  lemma UndecidedIs(h: Hearing, buf: seq<byte>)
    requires Assembled(h, buf, 0) && MagicAt(buf, 0)
    requires |buf| >= L3_HEADER_LEN ==> Plausible(buf, 0) && |buf| < L3_HEADER_LEN + Be32(buf, 12)
    ensures L3Step(h.heard, h.at) == None
  {
    Shifted(h, buf);
  }

  lemma MagicFrom(s: seq<byte>, i: nat)
    requires i <= |s|
    ensures MagicAt(s, i) == MagicAt(s[i..], 0)
  {
    forall k | 0 <= k < 4 && i + k < |s| ensures s[i..][k] == s[i + k] {}
    if MagicAt(s[i..], 0) {
      forall k | 0 <= k < 4 && i + k < |s| ensures s[i + k] == L3_MAGIC[k] { assert s[i..][0 + k] == L3_MAGIC[k]; }
    }
  }

  lemma HeardMore(h: Hearing, buf: seq<byte>, more: seq<byte>)
    requires Assembled(h, buf, 0)
    ensures Assembled(h.(heard := h.heard + more), buf + more, 0)
  {
    L3StepGood();
    ReachedGrows(L3Step, h.heard, h.heard + more, h.at, h.before, h.frames);
  }

  lemma StartedAnew(frames: seq<seq<byte>>)
    ensures Assembled(Hearing([], 0, frames, frames), [], 0)
  {
    ReachedStart(L3Step, [], frames);
  }

  /** The M64P payload of a frame, if it carries one: DATA on the APPLICATION channel, not empty. */
  function Request(f: seq<byte>): (r: Option<seq<byte>>) {
    if |f| > L3_HEADER_LEN && f[..4] == L3_MAGIC && f[4] == TYPE_DATA && f[5] == CH_APPLICATION
    then Some(f[L3_HEADER_LEN..]) else None
  }

  function Requests(frames: seq<seq<byte>>): (rs: seq<seq<byte>>) {
    if frames == [] then []
    else
      var last := frames[|frames| - 1];
      Requests(frames[..|frames| - 1]) + match Request(last) case Some(r) => [r] case None => []
  }

  /** A reply behind its L3 header. */
  function ReplyFrame(app: seq<byte>): (f: seq<byte>)
    requires |app| < 0x1_0000_0000
  {
    L3_MAGIC + [TYPE_DATA, CH_APPLICATION] + Put16(0x0001) + Put32(0) + Put32(|app|) + app
  }

  class Agent {
    const driver: Driver
    const rx: array<byte>
    var rxLen: nat
    var rxDone: nat
    var rxIdleTicks: nat
    ghost var h: Hearing
    /** What the driver had handed over when a partial frame was last thrown away. */
    ghost var earlier: seq<Item>
    /** A partial frame has waited too long and been thrown away. */
    ghost var stalled: bool
    /** The requests handed to the M64P handler, in order. */
    ghost var handled: seq<seq<byte>>

    ghost predicate Shape()
      reads this, driver, driver.cart, driver.rxq
    {
      && driver.Valid() && rx.Length == AGENT_RX_CAP && rx != driver.rxq && rx != driver.window
      && rxLen <= AGENT_RX_CAP
    }

    ghost function Buffer(): seq<byte>
      requires rxLen <= rx.Length
      reads this, rx
    {
      rx[..rxLen]
    }

    /** The bytes heard are the last the driver handed over; nothing earlier unless some were lost. */
    ghost predicate Heard()
      reads this, driver
    {
      && driver.handed == earlier + Octets(h.heard)
      && (!stalled && Lost !in driver.handed ==> earlier == [] && h.before == [])
    }

    ghost predicate Valid()
      reads this, driver, driver.cart, driver.rxq, rx
    {
      Shape() && Heard() && Assembled(h, Buffer(), rxDone)
    }

    /** What holds between ticks: the requests handled are those of the frames returned. */
    ghost predicate Ticking()
      reads this, driver, driver.cart, driver.rxq, rx
    {
      Valid() && handled == Requests(h.frames)
    }

    constructor (driver: Driver)
      requires driver.Valid() && driver.handed == []
      ensures Ticking() && this.driver == driver && h == Hearing([], 0, [], []) && !stalled && fresh(rx)
    {
      this.driver := driver;
      rx := new byte[AGENT_RX_CAP](i => 0);
      rxLen, rxDone, rxIdleTicks := 0, 0, 0;
      h, earlier, stalled, handled := Hearing([], 0, [], []), [], false, [];
      new;
      StartedAnew([]);
    }

    method RxDrop(n: nat)
      requires rxLen <= rx.Length
      modifies this`rxLen, rx
      ensures rxLen <= rx.Length && Buffer() == old(Buffer())[Min(n, old(rxLen))..]
    {
      if n >= rxLen {
        rxLen := 0;
        return;
      }
      Copy(rx, 0, rx, n, rxLen - n);
      rxLen := rxLen - n;
    }

    method RxMagicAt(i: nat) returns (b: bool)
      requires i < rxLen <= rx.Length
      ensures b == MagicAt(Buffer(), i)
    {
      var k := 0;
      while k < 4 && i + k < rxLen
        invariant k <= 4 && forall j :: 0 <= j < k && i + j < rxLen ==> Buffer()[i + j] == L3_MAGIC[j]
      {
        if rx[i + k] != L3_MAGIC[k] {
          assert Buffer()[i + k] != L3_MAGIC[k];
          return false;
        }
        k := k + 1;
      }
      b := true;
    }

    /**
     * Drops junk until a frame begins at index 0. `len` is that frame's length if the buffer has all of
     * it; else 0, and then there is room left and what was heard does not decide the next step.
     */
    method RxFrameLen() returns (len: nat)
      requires Valid() && rxDone == 0
      modifies this`rxLen, this`h, rx
      ensures Valid() && h == old(h).(at := h.at)
      ensures len == 0 ==> rxLen < AGENT_RX_CAP && L3Step(h.heard, h.at) == None
      ensures len != 0 ==> FrameReady(len)
    {
      hide Reached; hide L3Step; hide Assembled;
      while true
        invariant Valid() && h == old(h).(at := h.at)
        decreases rxLen
      {
        DropJunk();
        if rxLen < L3_HEADER_LEN {
          UndecidedIs(h, Buffer());
          return 0;
        }
        var b := rx[..rxLen];
        if !Plausible(b, 0) {
          DropOne();
          continue;
        }
        var n := L3_HEADER_LEN + Be32(b, 12);
        if rxLen < n {
          UndecidedIs(h, Buffer());
          return 0;
        }
        return n;
      }
    }

    /** Look past a byte at the front that begins no frame. */
    method DropOne()
      requires Valid() && rxDone == 0 < rxLen
      requires !MagicAt(Buffer(), 0) || (L3_HEADER_LEN <= rxLen && !Plausible(Buffer(), 0))
      modifies this`rxLen, this`h, rx
      ensures Valid() && rxLen == old(rxLen) - 1 && h == old(h).(at := h.at)
    {
      hide Reached; hide L3Step; hide Assembled; hide MagicAt; hide Plausible;
      ghost var was := Buffer();
      JunkKeeps(h, was);
      RxDrop(1);
      assert Buffer() == was[1..];
      h := h.(at := h.at + 1);
    }

    /** Drop everything ahead of the first place a frame could begin. */
    method DropJunk()
      requires Valid() && rxDone == 0
      modifies this`rxLen, this`h, rx
      ensures Valid() && rxLen <= old(rxLen) && h == old(h).(at := h.at) && MagicAt(Buffer(), 0)
    {
      hide Reached; hide L3Step; hide Assembled;
      var i := 0;
      ghost var g := h;
      assert Buffer()[0..] == Buffer();
      while i < rxLen
        invariant Valid() && rxLen == old(rxLen) && h == old(h)
        invariant i <= rxLen && g == h.(at := g.at) && Assembled(g, Buffer()[i..], 0)
      {
        var b := RxMagicAt(i);
        MagicFrom(Buffer(), i);
        if b { break; }
        JunkKeeps(g, Buffer()[i..]);
        g := g.(at := g.at + 1);
        assert Buffer()[i..][1..] == Buffer()[i + 1..];
        i := i + 1;
      }
      MagicFrom(Buffer(), i);
      RxDrop(i);
      h := g;
    }

    /** A complete frame of `len` bytes is at the buffer's start. */
    ghost predicate FrameReady(len: nat)
      requires rxLen <= rx.Length
      reads this, rx
    {
      && MagicAt(Buffer(), 0) && L3_HEADER_LEN <= |Buffer()| && Plausible(Buffer(), 0)
      && len == L3_HEADER_LEN + Be32(Buffer(), 12) <= rxLen
    }

    /** One call of the driver: its bytes join the buffer, or its loss empties it. */
    method Pull() returns (n: uint32)
      requires Valid() && rxDone == 0 && rxLen < AGENT_RX_CAP
      modifies this`rxLen, this`h, this`earlier, rx, driver, driver.window, driver.rxq, driver.cart`usb
      ensures Valid() && h.frames == old(h.frames)
      ensures n != RECEIVE_LOST ==> h == old(h).(heard := h.heard) && rxLen == old(rxLen) + n
      ensures n == RECEIVE_LOST ==> rxLen == 0
    {
      hide Reached; hide L3Step; hide Assembled; hide Folded; hide WaitingIn; hide Octets;
      ghost var was := Buffer();
      ghost var out;
      n, out := driver.Receive(rx, rxLen, AGENT_RX_CAP - rxLen);
      if n == RECEIVE_LOST {
        StartAnew();
        return;
      }
      HeardMore(h, was, out);
      OctetsAppend(h.heard, out);
      h := h.(heard := h.heard + out);
      rxLen := rxLen + n;
      assert Buffer() == was + out;
    }

    /** Empties the buffer, and begins a new account of what was heard. */
    method StartAnew()
      requires Shape() && rxDone == 0 && (stalled || Lost in driver.handed)
      modifies this`rxLen, this`h, this`earlier
      ensures Valid() && rxLen == 0 && h == Hearing([], 0, old(h.frames), old(h.frames))
    {
      hide Reached; hide L3Step; hide Assembled; hide Octets;
      rxLen := 0;
      earlier, h := driver.handed, Hearing([], 0, h.frames, h.frames);
      StartedAnew(h.frames);
      NoOctets();
    }

    lemma NoOctets()
      ensures Octets([]) == []
    {}

    /** Drop the frame returned last. */
    method DropDone()
      requires Valid()
      modifies this`rxLen, this`rxDone, this`h, rx
      ensures Valid() && rxDone == 0 && h.frames == old(h.frames)
    {
      hide Reached; hide L3Step; hide Assembled;
      DropKeeps(h, Buffer(), rxDone);
      assert rxDone <= rxLen by { DoneFits(h, Buffer(), rxDone); }
      RxDrop(rxDone);
      h := h.(at := h.at + rxDone);
      rxDone := 0;
    }

    lemma DoneFits(h: Hearing, buf: seq<byte>, done: nat)
      requires Assembled(h, buf, done)
      ensures done <= |buf|
    {}

    /** Receive until there is a whole frame, or the cart has nothing, or a loss; true if bytes arrived. */
    method PullAll() returns (arrived: bool)
      requires Valid() && rxDone == 0
      modifies this`rxLen, this`h, this`earlier, rx, driver, driver.window, driver.rxq, driver.cart`usb
      ensures Valid() && h.frames == old(h.frames)
    {
      hide Valid;
      arrived := false;
      for pulls := 0 to STREAM_PULLS
        invariant Valid() && h.frames == old(h.frames)
      {
        if rxLen >= AGENT_RX_CAP { break; }
        var len := RxFrameLen();
        if len != 0 { break; }
        var n := Pull();
        if n == RECEIVE_LOST || n == 0 { break; }
        arrived := true;
      }
    }

    /**
     * `len` is 0, or that of a frame now at index 0, which stays there until this is called again. `h.frames`
     * grows by that frame, and `Valid` makes it the parse of what was heard.
     */
    method StreamFrame() returns (len: nat)
      requires Valid()
      modifies this`rxLen, this`rxDone, this`rxIdleTicks, this`h, this`earlier, this`stalled
      modifies rx, driver, driver.window, driver.rxq, driver.cart`usb
      ensures Valid() && rxDone == len <= rxLen <= rx.Length && (old(stalled) ==> stalled)
      ensures h.frames == old(h.frames) + if len == 0 then [] else [Buffer()[..len]]
    {
      hide Reached; hide L3Step; hide Assembled; hide Heard; hide FrameReady;
      DropDone();
      var arrived := PullAll();
      len := RxFrameLen();
      if len != 0 { Return(len); } else { NoFrame(arrived); }
    }

    /** Counts ticks in a row that bring nothing to an unfinished frame; at the limit the buffer is emptied. */
    method NoFrame(arrived: bool)
      requires Valid() && rxDone == 0
      modifies this`rxLen, this`rxIdleTicks, this`h, this`earlier, this`stalled
      ensures Valid() && h.frames == old(h.frames) && (old(stalled) ==> stalled)
    {
      hide Reached; hide L3Step; hide Assembled;
      if arrived || rxLen == 0 {
        rxIdleTicks := 0;
      } else {
        rxIdleTicks := rxIdleTicks + 1;
        if rxIdleTicks >= STREAM_STALE_TICKS { Stall(); }
      }
    }

    method Return(len: nat)
      requires Valid() && rxDone == 0 && FrameReady(len)
      modifies this`rxDone, this`rxIdleTicks, this`h
      ensures Valid() && rxDone == len <= rxLen && h.frames == old(h.frames) + [Buffer()[..len]]
    {
      hide Reached; hide L3Step; hide Assembled;
      FrameKeeps(h, Buffer(), len);
      h := h.(frames := h.frames + [Buffer()[..len]]);
      rxDone, rxIdleTicks := len, 0;
    }

    /** At the limit: what is in the buffer is given up, and the count begins again. */
    method Stall()
      requires Valid() && rxDone == 0
      modifies this`rxLen, this`rxIdleTicks, this`h, this`earlier, this`stalled
      ensures Valid() && h.frames == old(h.frames) && stalled
    {
      rxIdleTicks, stalled := 0, true;
      StartAnew();
    }

    /**
     * One tick: at most one frame is taken up. A request goes to the M64P handler, whose answer, if it
     * gives one, is `reply`.
     */
    method Tick(reply: seq<byte>)
      requires Ticking()
      modifies this, rx, driver, driver.window, driver.rxq, driver.cart
      ensures Ticking() && (old(stalled) ==> stalled)
      ensures old(h.frames) <= h.frames && |h.frames| <= |old(h.frames)| + 1
    {
      hide Valid; hide Reached; hide L3Step;
      var size := StreamFrame();
      if size == 0 {
        assert h.frames == old(h.frames);
        return;
      }
      assert h.frames[..|h.frames| - 1] == old(h.frames);
      var taken := TakeUp(size);
      if taken && 0 < |reply| && L3_HEADER_LEN + |reply| <= AGENT_TX_CAP {
        Answer(reply);
      }
    }

    /** Whether the frame at the buffer's start is a request; if so it is handed to the handler. */
    method TakeUp(size: nat) returns (taken: bool)
      requires Valid() && 0 < size <= rxLen && h.frames != []
      requires h.frames[|h.frames| - 1] == Buffer()[..size] && handled == Requests(h.frames[..|h.frames| - 1])
      modifies this`handled
      ensures Ticking()
    {
      hide Assembled;
      var f := rx[..size];
      assert f == Buffer()[..size];
      var r := Request(f);
      taken := r.Some?;
      if taken { handled := handled + [r.value]; }
    }

    /** Sends a reply; bytes that arrive first are queued in the driver and so still delivered later. */
    method Answer(reply: seq<byte>)
      requires Ticking() && |reply| < 0x1_0000_0000
      modifies driver, driver.window, driver.rxq, driver.cart
      ensures Ticking()
    {
      hide Assembled; hide Folded; hide ReplyFrame; hide Requests; hide WaitingIn; hide Octets;
      var done, n := driver.Send(ReplyFrame(reply));
    }
  }

  /**
   * From end to end: whatever the PI bus, the clock and the USB unit do short of a read abandoned, and
   * however its L3 stream is cut into messages, the requests the agent handles are the host's, whole
   * and in order, none of them twice.
   */
  lemma HandledInOrder(a: Agent, ms: seq<Message>, frames: seq<seq<byte>>)
    requires a.Ticking() && a.driver.cart.usb.trusted && !a.stalled
    requires Sendable(ms) && a.driver.cart.host == Wire(ms)
    requires (forall f <- frames :: WellFormed(f)) && L3Bytes(ms) == Concat(frames)
    ensures a.h.frames <= frames
    ensures a.handled <= Requests(frames)
  {
    hide L3Step; hide WellFormed; hide Requests; hide Concat; hide L3Bytes; hide Wire;
    NothingLost(a.driver, ms);
    var s := Concat(frames);
    HeardIsPrefix(a.h.heard, s) by { assert [] + Octets(a.h.heard) == Octets(a.h.heard); }
    L3StepGood();
    ReachedGrows(L3Step, a.h.heard, s, a.h.at + a.rxDone, a.h.before, a.h.frames);
    UptoAll(L3Step, s, 0, a.h.at + a.rxDone);
    FramesParse([], frames);
    assert [] + s == s;
    RequestsPrefix(a.h.frames, frames);
  }

  /** A whole session, from power-on: however many ticks there are, and whatever is answered. */
  method Session(host: seq<byte>, ticks: nat, ghost ms: seq<Message>, ghost frames: seq<seq<byte>>) returns (a: Agent)
    requires Sendable(ms) && host == Wire(ms) && (forall f <- frames :: WellFormed(f)) && L3Bytes(ms) == Concat(frames)
    ensures a.Ticking()
    ensures a.driver.cart.usb.trusted && !a.stalled ==> a.handled <= Requests(frames)
  {
    hide Sendable; hide Wire; hide L3Bytes; hide Concat; hide WellFormed; hide Requests;
    var cart := new Cart(host);
    var driver := new Driver(cart);
    a := new Agent(driver);
    for i := 0 to ticks
      invariant a.Ticking() && a.driver == driver && driver.cart == cart && cart.host == host
      invariant fresh(a.rx) && fresh(driver.window) && fresh(driver.rxq)
    {
      var reply: seq<byte> := *;
      a.Tick(reply);
    }
    if a.driver.cart.usb.trusted && !a.stalled { HandledInOrder(a, ms, frames); }
  }

  lemma HeardIsPrefix(heard: seq<byte>, s: seq<byte>)
    requires Octets(heard) <= Octets(s)
    ensures heard <= s
  {
    forall i | 0 <= i < |heard| ensures heard[i] == s[i] {
      assert Octets(heard)[i] == Octets(s)[i];
    }
  }

  lemma {:induction false} RequestsPrefix(some: seq<seq<byte>>, all: seq<seq<byte>>)
    requires some <= all
    ensures Requests(some) <= Requests(all)
    decreases |all|
  {
    if some != all {
      var front := all[..|all| - 1];
      RequestsPrefix(some, front);
    }
  }
}
