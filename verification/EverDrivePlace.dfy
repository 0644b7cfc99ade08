/** The receiver's position in the stream, as its own counters give it, and how each step moves it. */
module EverDrivePlace {
  import opened Bytes
  import opened OneShot
  import opened UsbFraming
  import opened EverDriveCart

  datatype Phase = Header | Room | Payload | Trailer

  /**
   * The receiver's counters. `pull`: bytes of a read begun and not loaded. `size`, `left`, `got`: the current
   * message's L3 bytes, the padded payload no read was begun for, and the bytes queued of it. `owed`: bytes
   * to be skipped. `reading`: a read is under way.
   */
  datatype Place = Place(phase: Phase, pull: nat, size: nat, left: nat, got: nat, owed: nat, reading: bool)

  /**
   * What the account is measured against: where in the moved bytes the message under way, or the
   * next, begins; all that has been produced; and what of that came before the moved bytes.
   */
  datatype Trace = Trace(cursor: nat, produced: seq<Item>, base: seq<Item>)

  /** Between messages, with nothing asked of the cart and not loaded, or owed. */
  predicate Between(p: Place) {
    p.phase.Header? && p.pull == 0 && p.owed == 0 && !p.reading
  }

  /** An L3 message that fits the queue has its header at `at`. */
  ghost predicate HeaderAt(s: seq<byte>, at: nat, size: nat) {
    && at + 8 <= |s| && s[at..at + 4] == MAGIC && s[at + 4] == DATATYPE_L3
    && Be24(s, at + 5) == size && size <= RXQ_CAP
  }

  /** A pulled read is on its way to the window's end, or there. */
  ghost predicate Pulled(p: Place, u: Unit) {
    && (p.reading <==> u.want > 0) && p.pull <= WINDOW && |u.data| == WINDOW
    && (p.pull > 0 && p.reading ==> u.want == p.pull)
    && (p.pull > 0 && !p.reading ==> p.pull <= |u.moved| && u.data[WINDOW - p.pull..] == u.moved[|u.moved| - p.pull..])
  }

  /** What has been gathered of the message at `at` is at the start of `tail`, the room behind the queue. */
  ghost predicate Gathered(p: Place, at: nat, s: seq<byte>, tail: seq<byte>) {
    && p.got <= p.size <= |tail| && at + 8 + p.got <= |s|
    && tail[..p.got] == s[at + 8..at + 8 + p.got]
  }

  /** The account is right, phase by phase. */
  ghost predicate Placed(p: Place, at: nat, u: Unit, tail: seq<byte>) {
    var asked := |u.moved| + u.want;
    match p.phase
    case Header =>
      if p.pull > 0 then p.pull == 8 && p.owed == 0 && at + 8 == asked
      else at == asked + p.owed
    case Room =>
      && p.pull == 0 && p.owed == 0 && !p.reading && at + 8 == asked
      && HeaderAt(u.moved, at, p.size) && p.left == Padded(p.size) && p.got == 0
    case Payload =>
      && p.owed == 0 && (p.pull == 0 ==> !p.reading) && HeaderAt(u.moved, at, p.size)
      && p.left + p.pull <= Padded(p.size) && at + 8 + Padded(p.size) == asked + p.left
      && p.got == Min(p.size, Padded(p.size) - p.left - p.pull) && Gathered(p, at, u.moved, tail)
    case Trailer =>
      && p.owed == 0 && p.pull == 4 && p.left == 0 && HeaderAt(u.moved, at, p.size)
      && at + 12 + Padded(p.size) == asked && p.got == p.size && Gathered(p, at, u.moved, tail)
  }

  /** What has been produced since `base` is the one-shot parse of the moved bytes up to the cursor. */
  ghost predicate ParsedTo(t: Trace, u: Unit) {
    && Reached(UsbStep, u.moved, t.cursor, t.base, t.produced)
    && (u.trusted ==> t.base == [])
  }

  /** What every step of the receive path keeps. */
  ghost predicate InPlace(p: Place, t: Trace, u: Unit, tail: seq<byte>) {
    Pulled(p, u) && Placed(p, t.cursor, u, tail) && ParsedTo(t, u)
  }

  lemma StartKeeps(u: Unit, tail: seq<byte>)
    requires u.moved == [] && u.want == 0 && |u.data| == WINDOW
    ensures InPlace(Place(Header, 0, 0, 0, 0, 0, false), Trace(0, [], []), u, tail)
  {
    ReachedStart(UsbStep, u.moved, []);
  }

  /** What a phase says of the account by itself. */
  lemma PlaceFacts(p: Place, t: Trace, u: Unit, tail: seq<byte>)
    requires InPlace(p, t, u, tail)
    ensures p.pull <= WINDOW && |u.data| == WINDOW && (p.reading <==> u.want > 0)
    ensures p.pull > 0 && !p.reading ==> p.pull <= |u.moved| && u.data[WINDOW - p.pull..] == u.moved[|u.moved| - p.pull..]
    ensures p.phase.Header? ==> p.pull == 0 || (p.pull == 8 && p.owed == 0)
    ensures !p.phase.Header? ==> p.owed == 0
    ensures p.phase.Payload? ==> p.got <= p.size <= |tail| && (p.pull == 0 ==> !p.reading)
    ensures p.phase.Trailer? ==> p.pull == 4 && p.got == p.size <= |tail|
  {}

  // ---- the unit's steps ----

  /** A read that finishes leaves the place as it was. */
  lemma ArrivedKeeps(p: Place, t: Trace, u: Unit, v: Unit, tail: seq<byte>)
    requires InPlace(p, t, u, tail) && Arrived(u, v)
    ensures InPlace(p.(reading := false), t, v, tail)
  {
    UsbStepGood();
    ReachedGrows(UsbStep, u.moved, v.moved, t.cursor, t.base, t.produced);
    hide Reached; hide UsbStep;
    var s, w, at := u.moved, v.moved, t.cursor;
    if !p.phase.Header? {
      assert s[at..at + 4] == w[at..at + 4];
      assert HeaderAt(w, at, p.size);
    }
    if p.phase.Payload? || p.phase.Trailer? {
      assert w[at + 8..at + 8 + p.got] == s[at + 8..at + 8 + p.got];
    }
  }

  function Forgotten(p: Place): Place {
    p.(phase := Header, pull := 0, owed := 0, reading := false)
  }

  /** The stream begins anew where it stands. */
  function Restarted(t: Trace): Trace {
    Trace(0, t.produced, t.produced)
  }

  lemma ForgottenKeeps(p: Place, t: Trace, data: seq<byte>, tail: seq<byte>)
    requires |data| == WINDOW
    ensures InPlace(Forgotten(p), Restarted(t), Unit([], 0, data, false), tail)
  {
    ReachedStart(UsbStep, [], t.produced);
  }

  lemma LossKeeps(p: Place, t: Trace, u: Unit, tail: seq<byte>)
    requires InPlace(p, t, u, tail) && t.cursor == 0 && t.base == t.produced && !u.trusted
    ensures var more := t.produced + [Lost]; InPlace(p, Trace(0, more, more), u, tail)
  {
    ReachedStart(UsbStep, u.moved, t.produced + [Lost]);
  }

  /** The next header, or owed bytes, or more of the payload, or the trailer, is asked for. */
  lemma AskKeeps(p: Place, q: Place, t: Trace, u: Unit, n: nat, v: Unit, tail: seq<byte>)
    requires InPlace(p, t, u, tail) && p.pull == 0 && !p.reading && AskedFor(u, n, v) && 0 < n <= WINDOW
    requires || (q == p.(pull := 8, reading := true) && n == 8 && Between(p))
             || (p.phase.Header? && n <= p.owed && q == p.(owed := p.owed - n, reading := true))
             || (p.phase.Payload? && n <= p.left && q == p.(pull := n, left := p.left - n, reading := true))
             || (q == p.(pull := 4, phase := Trailer, reading := true) && p.phase.Payload? && p.left == 0 && n == 4)
    ensures InPlace(q, t, v, tail)
  {}

  /** Room in the queue: the payload can be read to its end. */
  lemma RoomKeeps(p: Place, t: Trace, u: Unit, tail: seq<byte>)
    requires InPlace(p, t, u, tail) && p.phase.Room? && p.size <= |tail|
    ensures InPlace(p.(phase := Payload), t, u, tail)
  {
    assert tail[..0] == u.moved[t.cursor + 8..t.cursor + 8];
  }

  /** Between messages the window is the driver's own, to store what it sends in. */
  lemma StoreKeeps(p: Place, t: Trace, u: Unit, data: seq<byte>, tail: seq<byte>)
    requires InPlace(p, t, u, tail) && Between(p) && |data| == WINDOW
    ensures InPlace(p, t, u.(data := data), tail)
  {}

  // ---- what has been loaded ----

  function Yield(t: Trace, next: nat, out: seq<Item>): Trace {
    Trace(next, t.produced + out, t.base)
  }

  /** One message on: what it yields has been produced. */
  lemma ParsedStep(t: Trace, u: Unit)
    requires ParsedTo(t, u) && UsbStep(u.moved, t.cursor).Some?
    ensures var m := UsbStep(u.moved, t.cursor).value; ParsedTo(Yield(t, m.next, m.out), u)
  {
    UsbStepGood();
    ReachedStep(UsbStep, u.moved, t.cursor, t.base, t.produced);
  }

  /** A header loaded as `b`: what becomes of the place, and whether the message is lost. */
  lemma HeaderKeeps(p: Place, t: Trace, u: Unit, tail: seq<byte>, b: seq<byte>)
    requires InPlace(p, t, u, tail) && p.phase.Header? && p.pull == 8 && !p.reading
    requires |b| == 8 && b == u.moved[|u.moved| - 8..]
    ensures b[..4] != MAGIC ==> InPlace(p.(pull := 0), Yield(t, t.cursor + 8, [Lost]), u, tail)
    ensures var size := Be24(b, 5);
            var left := Padded(size);
            var next := t.cursor + 12 + left;
            b[..4] == MAGIC ==>
            if b[4] != DATATYPE_L3 then InPlace(p.(pull := 0, left := left, owed := left + 4), Yield(t, next, []), u, tail)
            else if size > RXQ_CAP then InPlace(p.(pull := 0, left := left, owed := left + 4), Yield(t, next, [Lost]), u, tail)
            else InPlace(p.(pull := 0, left := left, phase := Room, size := size, got := 0), t, u, tail)
  {
    var s, at := u.moved, t.cursor;
    assert s[at..at + 4] == b[..4];
    assert s[at + 4] == b[4] && s[at + 5] == b[5] && s[at + 6] == b[6] && s[at + 7] == b[7];
    if UsbStep(s, at).Some? { ParsedStep(t, u); }
  }

  /** Loading `b`, part of a payload, and queueing it up to the message's own size keeps the invariants. */
  lemma PayloadKeeps(p: Place, t: Trace, u: Unit, tail: seq<byte>, b: seq<byte>, tail': seq<byte>)
    requires InPlace(p, t, u, tail) && p.phase.Payload? && p.pull == |b| > 0 && !p.reading
    requires b == u.moved[|u.moved| - |b|..]
    requires var n := Min(|b|, p.size - p.got); |tail'| == |tail| && tail'[..p.got + n] == tail[..p.got] + b[..n]
    ensures InPlace(p.(pull := 0, got := p.got + Min(|b|, p.size - p.got)), t, u, tail')
  {
    hide ParsedTo;
    var s, at, n := u.moved, t.cursor, Min(|b|, p.size - p.got);
    if n == 0 {
      assert b[..n] == [];
      assert tail[..p.got] + b[..n] == tail[..p.got];
    } else {
      assert at + 8 + p.got == |s| - |b|;
      assert b[..n] == s[at + 8 + p.got..at + 8 + p.got + n];
      assert tail'[..p.got + n] == s[at + 8..at + 8 + p.got + n];
    }
  }

  /** With the trailer loaded, the stream decides the message. */
  lemma TrailerStep(p: Place, at: nat, u: Unit, tail: seq<byte>, b: seq<byte>)
    requires Placed(p, at, u, tail) && u.want == 0 && p.phase.Trailer?
    requires |b| == 4 <= |u.moved| && b == u.moved[|u.moved| - 4..]
    ensures UsbStep(u.moved, at)
         == Some(Parsed(at + 12 + Padded(p.size), if b == TRAILER then Octets(tail[..p.size]) else [Lost]))
  {
    hide Octets;
    var s, after := u.moved, at + 12 + Padded(p.size);
    assert |s| == after && s[after - 4..after] == b;
    assert tail[..p.size] == s[at + 8..at + 8 + p.size];
  }

  /** A trailer loaded as `b`: the message is produced, or lost. */
  lemma TrailerKeeps(p: Place, t: Trace, u: Unit, tail: seq<byte>, b: seq<byte>, tail': seq<byte>)
    requires InPlace(p, t, u, tail) && p.phase.Trailer? && !p.reading
    requires |b| == 4 <= |u.moved| && b == u.moved[|u.moved| - 4..]
    ensures InPlace(p.(pull := 0, phase := Header),
                    Yield(t, t.cursor + 12 + Padded(p.size), if b == TRAILER then Octets(tail[..p.size]) else [Lost]), u, tail')
  {
    hide UsbStep; hide Octets; hide Reached;
    TrailerStep(p, t.cursor, u, tail, b);
    ParsedStep(t, u);
  }

  /** Between messages what is behind the queue does not matter. */
  lemma TailKeeps(p: Place, t: Trace, u: Unit, tail: seq<byte>, tail': seq<byte>)
    requires InPlace(p, t, u, tail) && p.phase.Header?
    ensures InPlace(p, t, u, tail')
  {
    hide ParsedTo;
  }
}
