/**
 * The relay between a client and two mailboxes in the game's memory: what the game puts out is sent on,
 * and what the client sends is put in when there is room for it.
 */
module Relay {
  import opened Bytes

  function Len(b: seq<byte>): (n: nat)
    requires |b| >= 2
  {
    Be16(b, 0) as int + 2
  }

  function Cmd(b: seq<byte>): (cmd: uint16)
    requires |b| >= 4
  {
    Be16(b, 2)
  }

  /** A packet as long as it says, and no longer than a mailbox. */
  predicate IsPacket(b: seq<byte>, max: nat) {
    4 <= |b| <= max && |b| == Len(b)
  }

  /** The packet a mailbox holds, if it holds one: none while its command is 0, or if it cannot be whole. */
  function InBox(box: seq<byte>): (packet: Option<seq<byte>>)
    requires |box| >= 4
  {
    if Cmd(box) != 0 && 4 <= Len(box) <= |box| then Some(box[..Len(box)]) else None
  }

  function Held(box: seq<byte>): (packets: seq<seq<byte>>)
    requires |box| >= 4
  {
    match InBox(box) case Some(p) => [p] case None => []
  }

  /** The packets a game will see put in: those with a command. */
  function Seen(packets: seq<seq<byte>>): (seen: seq<seq<byte>>)
    requires forall p <- packets :: |p| >= 4
  {
    if packets == [] then []
    else
      var n := |packets| - 1;
      Seen(packets[..n]) + if Cmd(packets[n]) != 0 then [packets[n]] else []
  }

  /** A mailbox once `packet` is put in it. */
  function PutIn(box: seq<byte>, packet: seq<byte>): (after: seq<byte>)
    requires |packet| <= |box|
    ensures |after| == |box|
  {
    packet + box[|packet|..]
  }

  /** A mailbox once its packet is taken. */
  function Cleared(box: seq<byte>): (after: seq<byte>)
    requires |box| >= 4
    ensures |after| == |box| && Cmd(after) == 0 && InBox(after) == None
  {
    box[..2] + [0, 0] + box[4..]
  }

  /** A game running the mailboxes, on a cart whose link may restart and whose console may be reset. */
  class Game {
    const max: nat
    var pointers: (nat, nat)
    var generation: nat
    var output: seq<byte>
    var input: seq<byte>
    /** The packets put out by it, taken by it, and put in for it, since it last booted. */
    ghost var spoken: seq<seq<byte>>
    ghost var took: seq<seq<byte>>
    ghost var put: seq<seq<byte>>
    ghost var boots: nat
    /** Requests made of the cart. */
    ghost var looks: nat
    ghost var writes: nat

    ghost predicate Valid()
      reads this
    {
      max >= 4 && Mailboxes(max, output, input, spoken, took, put)
    }

    /** Where in what was put out the packet still to be sent on is, or the end. */
    ghost function Sent(): (n: nat)
      requires Valid()
      reads this
      ensures n <= |spoken|
    {
      |spoken| - |Held(output)|
    }

    /** Any number of frames: what was put in is taken, and once its last is cleared the game puts out another. */
    method Frames()
      requires Valid()
      modifies this`output, this`input, this`spoken, this`took
      ensures Valid() && old(spoken) <= spoken && old(Sent()) == Sent()
      ensures Cmd(old(output)) != 0 ==> output == old(output) && spoken == old(spoken)
      ensures Cmd(old(input)) == 0 ==> input == old(input)
    {
      var takes: bool, puts: bool := *, *;
      if takes && Cmd(input) != 0 {
        took := took + Held(input);
        input := Cleared(input);
      }
      if puts && Cmd(output) == 0 {
        var box: seq<byte> := *;
        if |box| == max {
          output := box;
          spoken := spoken + Held(box);
        }
      }
    }

    /** The console boots, into this game or another, with whatever its memory holds. */
    method Boot()
      requires Valid()
      modifies this`pointers, this`output, this`input, this`spoken, this`took, this`put, this`boots
      ensures Valid() && boots == old(boots) + 1
    {
      hide Mailboxes; hide Held;
      MailboxSize(max, output, input, spoken, took, put);
      pointers := *;
      output, input := *, *;
      if |output| != max { output := Zeros(max); }
      if |input| != max { input := Zeros(max); }
      spoken, took, put, boots := Held(output), [], Held(input), boots + 1;
      Booted(max, output, input);
    }

    /** One read of the cart: where the mailboxes are, and what they hold. A console reset under it may show in neither. */
    method Look() returns (ok: bool, at: (nat, nat), out: seq<byte>, head: seq<byte>)
      requires Valid()
      modifies this
      ensures Valid() && looks == old(looks) + 1 && writes == old(writes) && boots >= old(boots)
      ensures at == pointers && out == output && head == input[..4]
      ensures boots == old(boots) ==> pointers == old(pointers) && generation == old(generation)
      ensures boots == old(boots) ==> old(spoken) <= spoken && Sent() == old(Sent()) && put == old(put)
    {
      hide Mailboxes; hide Held;
      MailboxSize(max, output, input, spoken, took, put);
      looks := looks + 1;
      var fate: nat := *;
      if fate == 0 {
        generation := generation + 1;
        Boot();
      } else {
        Frames();
        if fate == 1 { Boot(); }
      }
      MailboxSize(max, output, input, spoken, took, put);
      ok := *;
      at, out, head := pointers, output, input[..4];
    }

    /** One write: the packet put out is cleared, or one is put in, or both. The console may be reset under it, and leave what it likes. */
    method Write(clear: bool, packet: Option<seq<byte>>) returns (ok: bool)
      requires Valid() && (clear ==> Cmd(output) != 0)
      requires packet.Some? ==> IsPacket(packet.value, max) && Cmd(input) == 0
      modifies this
      ensures Valid() && looks == old(looks) && writes == old(writes) + 1 && boots >= old(boots)
      ensures boots == old(boots) ==> pointers == old(pointers) && generation == old(generation)
      ensures !ok ==> boots != old(boots)
      ensures boots == old(boots) ==>
        && old(spoken) <= spoken && Sent() == (if clear then |old(spoken)| else old(Sent()))
        && put == old(put) + match packet case Some(p) => Seen([p]) case None => []
    {
      hide Mailboxes; hide Held; hide Seen; hide Cleared; hide PutIn; hide IsPacket; hide Cmd;
      writes := writes + 1;
      ok := *;
      var restarts: bool := *;
      if restarts || !ok {
        var shows: bool := *;
        if shows { generation := generation + 1; }
        Boot();
        return;
      }
      Frames();
      if clear {
        ClearedIs(max, output, input, spoken, took, put);
        output := Cleared(output);
      }
      if packet.Some? {
        PutInKeeps(max, output, input, spoken, took, put, packet.value);
        input := PutIn(input, packet.value);
        put := put + Seen([packet.value]);
      }
    }
  }

  lemma MailboxSize(max: nat, output: seq<byte>, input: seq<byte>, spoken: seq<seq<byte>>, took: seq<seq<byte>>, put: seq<seq<byte>>)
    requires Mailboxes(max, output, input, spoken, took, put)
    ensures |output| == max == |input| && max >= 4
  {}

  /** A packet to be sent on is the last put out. */
  lemma OnItsWay(max: nat, output: seq<byte>, input: seq<byte>, spoken: seq<seq<byte>>, took: seq<seq<byte>>, put: seq<seq<byte>>)
    requires Mailboxes(max, output, input, spoken, took, put) && |output| >= 4 && Cmd(output) != 0 && 4 <= Len(output) <= max
    ensures |Held(output)| == 1 <= |spoken| && spoken[|spoken| - 1..] == [output[..Len(output)]]
  {}

  lemma NoneWaits(output: seq<byte>)
    requires |output| >= 4 && Cmd(output) == 0
    ensures Held(output) == []
  {}

  lemma Booted(max: nat, output: seq<byte>, input: seq<byte>)
    requires |output| == max == |input| && max >= 4
    ensures Mailboxes(max, output, input, Held(output), [], Held(input))
  {}

  lemma ClearedIs(max: nat, output: seq<byte>, input: seq<byte>, spoken: seq<seq<byte>>, took: seq<seq<byte>>, put: seq<seq<byte>>)
    requires Mailboxes(max, output, input, spoken, took, put)
    ensures |output| >= 4 && Held(Cleared(output)) == [] && Mailboxes(max, Cleared(output), input, spoken, took, put)
  {}

  lemma PutInKeeps(max: nat, output: seq<byte>, input: seq<byte>, spoken: seq<seq<byte>>, took: seq<seq<byte>>, put: seq<seq<byte>>, packet: seq<byte>)
    requires Mailboxes(max, output, input, spoken, took, put) && Cmd(input) == 0 && IsPacket(packet, max)
    ensures 4 <= |packet| <= |input| && Mailboxes(max, output, PutIn(input, packet), spoken, took, put + Seen([packet]))
  {
    PutInIs(input, packet);
    hide Seen; hide PutIn;
  }

  lemma PutInIs(box: seq<byte>, packet: seq<byte>)
    requires |box| >= 4 && IsPacket(packet, |box|)
    ensures Held(PutIn(box, packet)) == Seen([packet])
  {
    var after := PutIn(box, packet);
    assert after[..|packet|] == packet && after[0] == packet[0] && after[1] == packet[1] && after[2] == packet[2] && after[3] == packet[3];
    assert [packet][..0] == [];
  }

  ghost predicate Mailboxes(max: nat, output: seq<byte>, input: seq<byte>, spoken: seq<seq<byte>>, took: seq<seq<byte>>, put: seq<seq<byte>>) {
    && |output| == max == |input| && max >= 4
    && (forall p <- spoken :: IsPacket(p, max)) && |Held(output)| <= |spoken| && spoken[|spoken| - |Held(output)|..] == Held(output)
    && took + Held(input) == put
  }

  // ---- the relay ----

  /** A connection to the client, which may close it at any time. */
  class Client {
    /** What it has been sent, and what has been heard from it. */
    var got: seq<byte>
    var heard: seq<byte>

    constructor ()
      ensures got == [] && heard == []
    {
      got, heard := [], [];
    }

    /** Send a whole packet, or some of it and no more. */
    method Send(packet: seq<byte>) returns (ok: bool)
      modifies this`got
      ensures if ok then got == old(got) + packet else old(got) <= got <= old(got) + packet
    {
      var n: nat := *;
      ok := n >= |packet|;
      got := got + packet[..Min(n, |packet|)];
    }

    /** Whatever it has sent since. */
    method Receive() returns (ok: bool, bytes: seq<byte>)
      modifies this`heard
      ensures heard == old(heard) + bytes
    {
      ok, bytes := *, *;
      heard := heard + bytes;
    }
  }

  /**
   * Where a connection stands: of the packets put out, the first it is to be sent and how many have gone; of
   * those put in, the first of its own and all of them; and what it has got, been heard to say, and not had put in yet.
   */
  datatype Ledger = Ledger(max: nat, spoken: seq<seq<byte>>, sent: nat, put: seq<seq<byte>>, base: nat, from: nat,
                           given: seq<seq<byte>>, inbox: seq<byte>, got: seq<byte>, heard: seq<byte>)

  /** The client has every packet put out up to there, and the game every one of the client's so far. */
  ghost predicate InStep(l: Ledger) {
    && l.base <= l.sent <= |l.spoken| && l.got == Concat(l.spoken[l.base..l.sent])
    && Concat(l.given) + l.inbox == l.heard && (forall p <- l.given :: IsPacket(p, l.max))
    && l.from <= |l.put| && l.put[l.from..] == Seen(l.given)
  }

  lemma StepSpoken(l: Ledger, spoken: seq<seq<byte>>)
    requires InStep(l) && l.spoken <= spoken
    ensures InStep(l.(spoken := spoken))
  {
    assert spoken[l.base..l.sent] == l.spoken[l.base..l.sent];
  }

  lemma StepSend(l: Ledger, p: seq<byte>)
    requires InStep(l) && l.spoken[l.sent..] == [p]
    ensures InStep(l.(sent := |l.spoken|, got := l.got + p))
  {
    assert l.spoken[l.sent] == l.spoken[l.sent..][0];
    assert l.spoken[l.base..|l.spoken|] == l.spoken[l.base..l.sent] + [p];
    ConcatOne(l.spoken[l.base..l.sent], p);
  }

  lemma StepHear(l: Ledger, bytes: seq<byte>)
    requires InStep(l)
    ensures InStep(l.(inbox := l.inbox + bytes, heard := l.heard + bytes))
  {
    AppendAssociates(Concat(l.given), l.inbox, bytes);
  }

  lemma StepGive(l: Ledger, p: seq<byte>, rest: seq<byte>)
    requires InStep(l) && l.inbox == p + rest && IsPacket(p, l.max)
    ensures InStep(l.(inbox := rest, given := l.given + [p], put := l.put + Seen([p])))
  {
    ConcatOne(l.given, p);
    AppendAssociates(Concat(l.given), p, rest);
    SeenMore(l.given, p);
    assert (l.put + Seen([p]))[l.from..] == l.put[l.from..] + Seen([p]);
  }

  lemma SeenMore(given: seq<seq<byte>>, p: seq<byte>)
    requires (forall q <- given :: |q| >= 4) && |p| >= 4
    ensures forall q <- given + [p] :: |q| >= 4
    ensures Seen(given + [p]) == Seen(given) + Seen([p])
  {
    assert (given + [p])[..|given|] == given && [p][..0] == [];
  }

  lemma StepStart(max: nat, spoken: seq<seq<byte>>, sent: nat, put: seq<seq<byte>>)
    requires sent <= |spoken|
    ensures InStep(Ledger(max, spoken, sent, put, sent, |put|, [], [], [], []))
  {}

  class Link {
    const game: Game
    var buffers: Option<(nat, nat)>
    var conn: Client?
    /** What the client has sent and is not in the game yet. */
    var inbox: seq<byte>
    var generation: Option<nat>
    /** Where the game's packets, and those put in for it, stood when the client was connected, and those put in since. */
    ghost var base: nat
    ghost var from: nat
    ghost var given: seq<seq<byte>>
    /** The boot of the console the client was connected in. */
    ghost var boot: nat

    ghost predicate Valid()
      reads this, game, conn
    {
      && game.Valid() && (buffers == None || generation == None ==> conn == null)
      && (conn != null ==> boot <= game.boots && (Current() ==> InStep(Books(conn))))
    }

    /** The console has not been booted since the client was connected. */
    ghost predicate Current()
      reads this, game
    {
      game.boots == boot
    }

    ghost function Books(c: Client): (l: Ledger)
      requires game.Valid()
      reads this, game, c
    {
      Ledger(game.max, game.spoken, game.Sent(), game.put, base, from, given, inbox, c.got, c.heard)
    }

    constructor (game: Game)
      requires game.Valid()
      ensures Valid() && this.game == game && conn == null
    {
      this.game := game;
      buffers, conn, inbox, generation := None, null, [], None;
      base, from, given, boot := 0, 0, [], 0;
    }

    method DropClient()
      requires game.Valid()
      modifies this`conn, this`inbox
      ensures Valid() && conn == null
    {
      conn, inbox := null, [];
    }

    /** Takes note of the link's generation. If it moved, buffers and client are given up. */
    method Restarted() returns (restarted: bool)
      requires game.Valid() && (buffers == None || generation == None ==> conn == null)
      modifies this`generation, this`buffers, this`conn, this`inbox
      ensures generation == Some(game.generation)
      ensures restarted <==> old(generation).Some? && old(generation) != Some(game.generation)
      ensures restarted ==> Valid() && conn == null && buffers == None
      ensures !restarted ==> buffers == old(buffers) && conn == old(conn) && inbox == old(inbox)
    {
      var was := generation;
      generation := Some(game.generation);
      restarted := was.Some? && was.value != game.generation;
      if restarted {
        buffers := None;
        DropClient();
      }
    }

    /** The mailboxes' addresses alone: kept if both fit in memory. */
    method FindBuffers(rdram: nat) returns (ok: bool)
      requires Valid() && conn == null
      modifies this`buffers, this`conn, this`inbox, game
      ensures Valid() && conn == null && game.looks == old(game.looks) + 1 && game.writes == old(game.writes)
    {
      hide Mailboxes;
      var at, out, head;
      ok, at, out, head := game.Look();
      if ok {
        if Fits(at.0, rdram, game.max) && Fits(at.1, rdram, game.max) {
          buffers := Some(at);
        } else {
          DropClient();
        }
      }
    }

    /** Connect to the client, if it is listening; a game is spoken for only once it has spoken. */
    method Dial()
      requires game.Valid() && conn == null && buffers.Some? && generation.Some?
      modifies this`conn, this`inbox, this`base, this`from, this`given, this`boot
      ensures Valid() && (conn != null ==> fresh(conn) && inbox == [] && base == game.Sent() && InStep(Books(conn)))
    {
      hide Mailboxes; hide InStep;
      var listening: bool := *;
      if listening {
        base, from, given, boot := game.Sent(), |game.put|, [], game.boots;
        inbox := [];
        conn := new Client();
        StepStart(game.max, game.spoken, game.Sent(), game.put);
      }
    }

    /** The client's next packet, if there is room for one and all of it has arrived; `fit` unless it can never be put in. */
    method NextPacket(free: bool) returns (fit: bool, packet: Option<seq<byte>>)
      requires game.max >= 4
      modifies this`inbox
      ensures match packet
              case Some(p) => free && IsPacket(p, game.max) && old(inbox) == p + inbox
              case None => inbox == old(inbox) && (fit && free ==> !Whole(inbox))
    {
      fit, packet := true, None;
      if free && |inbox| >= 4 {
        var n := Len(inbox);
        if !(4 <= n <= game.max) {
          fit := false;
        } else if |inbox| >= n {
          var p := inbox[..n];
          assert Len(p) == Len(inbox);
          packet, inbox := Some(p), inbox[n..];
        }
      }
    }

    /** Drops the connection; with `clear`, the game's own packet is still cleared, in one write. */
    method HangUp(clear: bool) returns (ok: bool)
      requires game.Valid() && (clear ==> Cmd(game.output) != 0)
      modifies this`conn, this`inbox, game
      ensures Valid() && conn == null && game.boots >= old(game.boots)
      ensures game.looks == old(game.looks) && game.writes <= old(game.writes) + 1
    {
      hide Mailboxes;
      conn, inbox, ok := null, [], true;
      if clear { ok := game.Write(true, None); }
    }

    /**
     * With a client: what the game has put out is sent on and cleared, and what has arrived from the client is
     * put in if there is room, in one write.
     */
    method Exchange(out: seq<byte>, head: seq<byte>) returns (ok: bool, moved: bool)
      requires Valid() && conn != null && out == game.output && head == game.input[..4]
      modifies this`conn, this`inbox, this`given, game, conn
      ensures Valid() && (conn == old(conn) || conn == null)
      ensures game.looks == old(game.looks) && game.writes <= old(game.writes) + 1 && game.boots >= old(game.boots)
      ensures ok && conn != null && game.boots == old(game.boots) ==>
        && old(game.spoken) <= game.spoken && game.Sent() == |old(game.spoken)|
        && old(given) <= given && (Cmd(head) == 0 ==> given != old(given) || !Whole(inbox))
    {
      hide Mailboxes; hide Seen; hide Held; hide IsPacket; hide InStep; hide Whole; hide PutIn; hide Cleared; hide Len;
      MailboxSize(game.max, game.output, game.input, game.spoken, game.took, game.put);
      ghost var l, live := Books(conn), Current();
      var clear := Cmd(out) != 0;
      if clear {
        var n := Len(out);
        if !(4 <= n <= game.max) {
          DropClient();
          return true, false;
        }
        var sent := conn.Send(out[..n]);
        if !sent {
          DropClient();
          return true, false;
        }
        OnItsWay(game.max, game.output, game.input, game.spoken, game.took, game.put);
        if live { StepSend(l, out[..n]); }
        l := l.(sent := |l.spoken|, got := conn.got);
      } else {
        NoneWaits(game.output);
      }
      var up, bytes := conn.Receive();
      inbox := inbox + bytes;
      if !up {
        ok := HangUp(clear);
        return ok, clear;
      }
      if live { StepHear(l, bytes); }
      l := l.(inbox := inbox, heard := conn.heard);
      var fit, packet := NextPacket(Cmd(head) == 0);
      if !fit {
        ok := HangUp(clear);
        return ok, clear;
      }
      ok, moved := true, clear || packet.Some?;
      if packet.Some? {
        if live { StepGive(l, packet.value, inbox); }
        given := given + [packet.value];
        l := l.(inbox := inbox, given := given, put := l.put + Seen([packet.value]));
      }
      if moved {
        ok := game.Write(clear, packet);
        if Current() {
          StepSpoken(l, game.spoken);
          assert Books(conn) == l.(spoken := game.spoken);
        }
      }
    }

    /** One pass of the loop: `game.looks` grows by at most one, and so does `game.writes`. */
    method Pass(rdram: nat) returns (ok: bool, moved: bool)
      requires Valid()
      modifies this, game, conn
      ensures game.Valid() && (ok ==> Valid()) && (conn == null || conn == old(conn) || fresh(conn))
      ensures game.looks <= old(game.looks) + 1 && game.writes <= old(game.writes) + 1
      ensures ok && conn != null && game.boots == old(game.boots) ==> |old(game.spoken)| <= game.Sent()
    {
      hide Mailboxes; hide InStep;
      var restarted := Restarted();
      if restarted { return true, false; }
      if buffers.None? {
        ok := FindBuffers(rdram);
        return ok, false;
      }
      var at, out, head;
      ghost var l := if conn != null then Some(Books(conn)) else None;
      ok, at, out, head := game.Look();
      if !ok { return false, false; }
      if l.Some? && Current() && game.boots == old(game.boots) { StepSpoken(l.value, game.spoken); }
      MailboxSize(game.max, game.output, game.input, game.spoken, game.took, game.put);
      restarted := Restarted();
      if restarted { return true, false; }
      if at != buffers.value {
        buffers := None;
        DropClient();
        return true, false;
      }
      if conn == null && Cmd(out) != 0 { Dial(); }
      if conn == null { return true, false; }
      ok, moved := Exchange(out, head);
    }
  }

  /** A whole packet is at the front. */
  predicate Whole(inbox: seq<byte>) {
    |inbox| >= 4 && |inbox| >= Len(inbox)
  }

  /** Pass after pass, until told to stop or the cart fails. */
  method Serve(link: Link, rdram: nat, passes: nat) returns (ok: bool)
    requires link.Valid() && link.conn == null
    modifies link, link.game
    ensures link.game.Valid() && (ok ==> link.Valid())
  {
    ok := true;
    for i := 0 to passes
      invariant link.game.Valid() && (ok ==> link.Valid()) && (link.conn != null ==> fresh(link.conn))
    {
      var moved;
      ok, moved := link.Pass(rdram);
      if !ok { return; }
    }
  }

  // ---- what has crossed ----

  /** A stream is packets in only one way. */
  lemma {:induction false} OneWay(a: seq<seq<byte>>, b: seq<seq<byte>>, max: nat)
    requires (forall p <- a :: IsPacket(p, max)) && (forall p <- b :: IsPacket(p, max)) && Concat(a) <= Concat(b)
    ensures a <= b
  {
    assert a != [] ==> a[0] in a;
    if a != [] && b != [] {
      assert b[0] in b;
      SameFirst(a[0], b[0], Concat(a[1..]), Concat(b[1..]));
      OneWay(a[1..], b[1..], max);
      assert a == [a[0]] + a[1..] && b == [b[0]] + b[1..];
    }
  }

  lemma SameFirst(p: seq<byte>, q: seq<byte>, r: seq<byte>, s: seq<byte>)
    requires 4 <= |p| == Len(p) && 4 <= |q| == Len(q) && p + r <= q + s
    ensures p == q && r <= s
  {
    assert (p + r)[0] == (q + s)[0] && (p + r)[1] == (q + s)[1];
    assert p == (p + r)[..|p|] == (q + s)[..|p|] == q;
    assert r == (p + r)[|p|..] && s == (q + s)[|p|..];
  }

  /**
   * To a client that sends `ps`: it has been sent every packet the game has put out since it was connected, whole and
   * in order, but one still there; and the game has had put in every one of `ps` that has crossed, once and in order,
   * and has taken all of them, as far as they have a command, but one still there.
   */
  lemma Crossed(link: Link, ps: seq<seq<byte>>)
    requires link.Valid() && link.conn != null && link.Current()
    requires (forall p <- ps :: IsPacket(p, link.game.max)) && link.conn.heard <= Concat(ps)
    ensures var g := link.game;
      && link.base <= g.Sent() && |g.spoken| - 1 <= g.Sent() && link.conn.got == Concat(g.spoken[link.base..g.Sent()])
      && link.given <= ps && link.from <= |g.put| && g.put[link.from..] == Seen(link.given) && g.took + Held(g.input) == g.put
  {
    assert Concat(link.given) <= link.conn.heard;
    OneWay(link.given, ps, link.game.max);
  }

  predicate Fits(p: nat, rdram: nat, max: nat) {
    0x8000_0000 < p && p + max <= 0x8000_0000 + rdram
  }
}
