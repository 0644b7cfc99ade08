/**
 * The EverDrive's USB unit as the driver meets it over the PI bus: an environment that may refuse
 * any access, finish a transfer whenever it likes, or never.
 *
 * Bytes reach the console in two steps: a read of `n` bytes fills the last `n` bytes of a 512-byte
 * window from the host's stream, and the window is then loaded over the bus.
 */
module EverDriveCart {
  import opened Bytes

  const WINDOW: nat := 512

  /** The USBCFG bits the driver looks at. `rxEmpty` is RXF: set, the receive FIFO is empty. */
  datatype Status = Status(active: bool, rxEmpty: bool, power: bool)

  /**
   * `data` is the window, `want` how long the read under way is (0 for no read), and `moved` all that
   * came into the window since the last abandoned read. While `trusted`, that is what the host sent. It
   * ends when a read is abandoned or an unconfirmed store had no effect, and then anything may come.
   */
  datatype Unit = Unit(moved: seq<byte>, want: nat, data: seq<byte>, trusted: bool)

  ghost predicate UnitOk(u: Unit, host: seq<byte>) {
    |u.data| == WINDOW && u.want <= WINDOW && (u.trusted ==> u.moved <= host)
  }

  /** The read under way, if any, has finished: its bytes are at the window's end. */
  ghost predicate Arrived(u: Unit, v: Unit) {
    && v.want == 0 && v.trusted == u.trusted && |v.data| == WINDOW
    && u.moved <= v.moved && |v.moved| == |u.moved| + u.want && u.want <= WINDOW
    && (if u.want == 0 then v == u else v.data[WINDOW - u.want..] == v.moved[|u.moved|..])
  }

  /** A read of `n` bytes has been asked for. */
  ghost predicate AskedFor(u: Unit, n: nat, v: Unit) {
    v == u.(want := n, trusted := v.trusted) && (v.trusted ==> u.trusted)
  }

  class Cart {
    /** Everything the host will ever send. */
    const host: seq<byte>
    var usb: Unit
    /** Everything the cart has been asked to transmit. */
    var sent: seq<byte>

    ghost predicate Valid()
      reads this
    {
      UnitOk(usb, host)
    }

    constructor (host: seq<byte>)
      ensures Valid() && this.host == host && sent == []
      ensures usb == Unit([], 0, Zeros(WINDOW), true)
    {
      this.host := host;
      usb, sent := Unit([], 0, Zeros(WINDOW), true), [];
    }

    /** Read USBCFG. A read seen finished has put its bytes at the window's end. */
    method ReadStatus() returns (ok: bool, st: Status)
      requires Valid()
      modifies this`usb
      ensures Valid()
      ensures if ok && !st.active then Arrived(old(usb), usb) else usb == old(usb)
    {
      ok := *;
      var active: bool, rxEmpty: bool, power: bool := *, *, *;
      if ok && !active && usb.want > 0 {
        var bytes: seq<byte>;
        if usb.trusted {
          if |usb.moved| + usb.want > |host| {
            active := true; // fewer bytes have arrived than the read wants
          }
          bytes := host[|usb.moved|..Min(|usb.moved| + usb.want, |host|)];
        } else {
          assert |Zeros(usb.want)| == usb.want;
          bytes :| |bytes| == usb.want;
        }
        if !active {
          usb := usb.(moved := usb.moved + bytes, want := 0, data := usb.data[..WINDOW - usb.want] + bytes);
        }
      }
      st := Status(active, rxEmpty, power);
    }

    /** Requests `n` bytes; the request has reached the cart if and only if `stored`. */
    method AskRead(n: nat) returns (ok: bool, stored: bool)
      requires Valid() && 1 <= n <= WINDOW && usb.want == 0
      modifies this`usb
      ensures Valid()
      ensures ok ==> stored && usb.trusted == old(usb.trusted)
      ensures if stored then AskedFor(old(usb), n, usb) else usb == old(usb)
    {
      ok, stored := *, *;
      if ok { stored := true; }
      if stored {
        var took: bool := *;
        usb := usb.(want := n, trusted := usb.trusted && (ok || took));
      }
    }

    /** Stores the idle mode; a read it stops ends `trusted`. */
    method Abandon() returns (ok: bool, stored: bool)
      requires Valid()
      modifies this`usb
      ensures Valid()
      ensures ok ==> stored
      ensures usb == if stored && old(usb.want) > 0 then Unit([], 0, old(usb.data), false) else old(usb)
    {
      ok, stored := *, *;
      if ok { stored := true; }
      if stored && usb.want > 0 {
        usb := Unit([], 0, usb.data, false);
      }
    }

    /** Load the window from `first` to its end. Refused part-way, `dst` is incomplete. */
    method LoadWords(dst: array<byte>, first: nat) returns (ok: bool)
      requires Valid() && usb.want == 0 && first <= WINDOW && first % 4 == 0 && dst.Length == WINDOW
      modifies dst
      ensures ok ==> dst[..WINDOW - first] == usb.data[first..]
    {
      var loaded: nat := *;
      ok := loaded >= WINDOW - first;
      var n := Min(loaded, WINDOW - first);
      for i := 0 to n
        invariant forall k :: 0 <= k < i ==> dst[k] == usb.data[first + k]
      {
        dst[i] := usb.data[first + i];
      }
    }

    /** Turns the unit round for sending. */
    method WriteMode() returns (ok: bool)
      requires usb.want == 0
    {
      ok := *;
    }

    /** Store `src` over the window from `first`. Refused part-way, the window holds part of it. */
    method StoreWords(src: array<byte>, first: nat) returns (ok: bool)
      requires Valid() && usb.want == 0 && first <= WINDOW && first % 4 == 0 && src.Length == WINDOW
      modifies this`usb
      ensures Valid() && usb == old(usb).(data := usb.data)
      ensures ok ==> usb.data[first..] == src[..WINDOW - first]
    {
      var stored: nat := *;
      ok := stored >= WINDOW - first;
      var n := Min(stored, WINDOW - first);
      usb := usb.(data := usb.data[..first] + src[..n] + usb.data[first + n..]);
      assert ok ==> n == WINDOW - first;
    }

    /** Ask for the window from `addr` to its end to be transmitted. */
    method AskWrite(addr: nat) returns (ok: bool, stored: bool)
      requires Valid() && usb.want == 0 && addr <= WINDOW
      modifies this`sent
      ensures ok ==> stored
      ensures sent == if stored then old(sent) + usb.data[addr..] else old(sent)
    {
      ok, stored := *, *;
      if ok { stored := true; }
      if stored { sent := sent + usb.data[addr..]; }
    }
  }
}
