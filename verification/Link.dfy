/**
 * The link between a host and an agent: requests and replies in order, any of them lost or late, the agent
 * serving when it will and the game running in between.
 */
module Link {
  import opened Bytes
  import opened M64p
  import opened MemProto
  import opened AtMostOnce
  import opened WatchRing

  /** A reply on its way, and the request it answers as the agent found it. */
  datatype Echo = Echo(reply: seq<byte>, st: State, of: seq<byte>, busy: bool)

  /** What is on its way each way, the agent, and the requests it has served. `still` is a game that writes no memory. */
  datatype Wire = Wire(outbound: seq<seq<byte>>, inbound: seq<Echo>, agent: State, served: seq<seq<byte>>, still: bool)

  ghost predicate Truthful(e: Echo) {
    Sane(e.st) && Serve(e.st, e.of, e.busy).reply == Some(e.reply)
  }

  ghost predicate Sound(w: Wire) {
    Sane(w.agent) && forall e <- w.inbound :: Truthful(e)
  }

  function New(a: Wire, b: Wire): (msgs: seq<seq<byte>>)
    requires |a.served| <= |b.served|
  {
    b.served[|a.served|..]
  }

  /** Nothing changes memory: not the game, and not a write. */
  ghost predicate Frozen(a: Wire, sent: seq<seq<byte>>) {
    a.still && forall m <- a.outbound + sent :: !IsPoke(m)
  }

  /** The agent `st`, having served `msgs` since `a`. */
  ghost predicate Since(a: Wire, sent: seq<seq<byte>>, msgs: seq<seq<byte>>, st: State)
    requires |a.agent.ram| <= MAX_RAM
  {
    && |st.ram| == |a.agent.ram| && st.rom == a.agent.rom && (Frozen(a, sent) ==> st.ram == a.agent.ram)
    && st.hold == HoldOver(|a.agent.ram|, a.agent.hold, msgs)
    && (a.still ==> st.ram == RamOver(a.agent.ram, a.agent.hold, msgs))
  }

  /** A reply to a request served since `a`. */
  ghost predicate Fresh(a: Wire, sent: seq<seq<byte>>, msgs: seq<seq<byte>>, e: Echo)
    requires |a.agent.ram| <= MAX_RAM
  {
    exists k :: 0 <= k < |msgs| && e.of == msgs[k] && Since(a, sent, msgs[..k], e.st)
  }

  /** From `a`, with `sent` sent, the link may have come to `b`. */
  ghost predicate Runs(a: Wire, sent: seq<seq<byte>>, b: Wire) {
    && |a.agent.ram| <= MAX_RAM && b.still == a.still && |a.served| <= |b.served| && b.served[..|a.served|] == a.served
    && Lossy(a.outbound + sent, New(a, b) + b.outbound) && Since(a, sent, New(a, b), b.agent)
    && forall e <- b.inbound :: e in a.inbound || Fresh(a, sent, New(a, b), e)
  }

  lemma RunsStart(a: Wire)
    requires Sane(a.agent)
    ensures Runs(a, [], a)
  {
    assert New(a, a) + a.outbound == a.outbound && a.outbound + [] == a.outbound;
    LossyAll(a.outbound);
  }

  /** Sending more changes nothing of what has happened, if it freezes no more. */
  lemma SinceSent(a: Wire, sent: seq<seq<byte>>, p: seq<byte>, msgs: seq<seq<byte>>, st: State)
    requires |a.agent.ram| <= MAX_RAM && Since(a, sent, msgs, st)
    ensures Since(a, sent + [p], msgs, st)
  {
    if Frozen(a, sent + [p]) {
      forall m | m in a.outbound + sent ensures !IsPoke(m) { assert m in a.outbound + (sent + [p]); }
    }
  }

  lemma FreshSent(a: Wire, sent: seq<seq<byte>>, p: seq<byte>, msgs: seq<seq<byte>>, e: Echo)
    requires |a.agent.ram| <= MAX_RAM && Fresh(a, sent, msgs, e)
    ensures Fresh(a, sent + [p], msgs, e)
  {
    hide Since;
    var k :| 0 <= k < |msgs| && e.of == msgs[k] && Since(a, sent, msgs[..k], e.st);
    SinceSent(a, sent, p, msgs[..k], e.st);
  }

  lemma RunsSend(a: Wire, sent: seq<seq<byte>>, b: Wire, p: seq<byte>)
    requires Runs(a, sent, b)
    ensures Runs(a, sent + [p], b) && Runs(a, sent + [p], b.(outbound := b.outbound + [p]))
  {
    hide Since; hide Fresh; hide Lossy;
    var later := New(a, b);
    assert a.outbound + (sent + [p]) == a.outbound + sent + [p] && later + (b.outbound + [p]) == later + b.outbound + [p];
    LossySent(a.outbound + sent, later + b.outbound, p);
    SinceSent(a, sent, p, later, b.agent);
    forall e | e in b.inbound && e !in a.inbound ensures Fresh(a, sent + [p], later, e) { FreshSent(a, sent, p, later, e); }
  }

  lemma RunsLose(a: Wire, sent: seq<seq<byte>>, b: Wire)
    requires Runs(a, sent, b) && b.outbound != []
    ensures Runs(a, sent, b.(outbound := b.outbound[1..]))
  {
    hide Since; hide Fresh; hide Lossy;
    var later := New(a, b);
    LossyDrop(a.outbound + sent, later + b.outbound, |later|);
    assert (later + b.outbound)[..|later|] + (later + b.outbound)[|later| + 1..] == later + b.outbound[1..];
  }

  /** The agent serves the first request waiting; its reply may be lost. */
  function Served1(b: Wire, busy: bool, lost: bool): (c: Wire)
    requires Sane(b.agent) && b.outbound != []
  {
    var p := b.outbound[0];
    var r := Serve(b.agent, p, busy);
    Wire(b.outbound[1..], if r.reply.None? || lost then b.inbound else b.inbound + [Echo(r.reply.value, b.agent, p, busy)],
         r.st, b.served + [p], b.still)
  }

  lemma ServedSane(st: State, p: seq<byte>, busy: bool)
    requires Sane(st)
    ensures Sane(Serve(st, p, busy).st) && |Serve(st, p, busy).st.ram| == |st.ram| && Serve(st, p, busy).st.rom == st.rom
  {
    hide ReadBlocks; hide Wrong; hide SlotIn; hide HelloAckOf; hide Trailer;
    var r := Serve(st, p, busy).st;
    assert forall e <- r.queue :: e in st.queue;
    if IsM64p(p) && p[4] == WATCH && |p[5..]| >= 3 && p[5..][2] <= WATCH_SLOTS {
      var asked := SlotsAsked(p[5..], 3, p[5..][2], |st.ram|);
      if asked.Watched? { SlotsFit(p[5..], 3, p[5..][2], |st.ram|, asked.slots); }
    }
  }

  lemma SinceServed(a: Wire, sent: seq<seq<byte>>, b: Wire, busy: bool)
    requires Runs(a, sent, b) && Sane(b.agent) && b.outbound != []
    ensures Since(a, sent, New(a, b) + [b.outbound[0]], Serve(b.agent, b.outbound[0], busy).st)
  {
    hide Fresh; hide Lossy; hide Serve; hide Sane; hide WriteBlocks; hide Applies; hide Written;
    var p, later := b.outbound[0], New(a, b);
    ServedSane(b.agent, p, busy);
    ServeWrites(b.agent, p, busy);
    assert (later + [p])[..|later|] == later;
    if Frozen(a, sent) {
      LossyIn(a.outbound + sent, later + b.outbound, p);
      NoPoke(|b.agent.ram|, b.agent.hold, p);
    }
  }

  lemma NoPoke(size: uint32, hold: Option<Held>, p: seq<byte>)
    requires !IsPoke(p)
    ensures !Applies(size, hold, p)
  {}

  lemma RunsServe(a: Wire, sent: seq<seq<byte>>, b: Wire, busy: bool, lost: bool)
    requires Runs(a, sent, b) && Sound(b) && b.outbound != []
    ensures Runs(a, sent, Served1(b, busy, lost)) && Sound(Served1(b, busy, lost))
  {
    hide Serve; hide Sane; hide Lossy; hide Since;
    var p, later, c := b.outbound[0], New(a, b), Served1(b, busy, lost);
    SinceServed(a, sent, b, busy);
    ServedSane(b.agent, p, busy);
    assert New(a, c) == later + [p] && later + [p] + b.outbound[1..] == later + b.outbound;
    forall e | e in c.inbound && e !in a.inbound ensures Fresh(a, sent, New(a, c), e) {
      if e in b.inbound {
        FreshMore(a, sent, later, p, e);
      } else {
        assert (later + [p])[..|later|] == later && e.of == (later + [p])[|later|] && e.st == b.agent;
      }
    }
  }

  lemma FreshMore(a: Wire, sent: seq<seq<byte>>, msgs: seq<seq<byte>>, p: seq<byte>, e: Echo)
    requires |a.agent.ram| <= MAX_RAM && Fresh(a, sent, msgs, e)
    ensures Fresh(a, sent, msgs + [p], e)
  {
    hide Since;
    var k :| 0 <= k < |msgs| && e.of == msgs[k] && Since(a, sent, msgs[..k], e.st);
    assert (msgs + [p])[..k] == msgs[..k] && (msgs + [p])[k] == msgs[k];
  }

  /** The game runs, and the agent samples what it watches. */
  predicate Played(before: State, after: State, still: bool) {
    && Sane(after) && |after.ram| == |before.ram| && after.rom == before.rom && after.hold == before.hold
    && (still ==> after.ram == before.ram)
  }

  lemma RunsPlay(a: Wire, sent: seq<seq<byte>>, b: Wire, st: State)
    requires Runs(a, sent, b) && Sound(b) && Played(b.agent, st, b.still)
    ensures Runs(a, sent, b.(agent := st)) && Sound(b.(agent := st))
  {
    hide Fresh; hide Lossy; hide Truthful;
  }

  lemma RunsHear(a: Wire, sent: seq<seq<byte>>, b: Wire)
    requires Runs(a, sent, b) && Sound(b) && b.inbound != []
    ensures Runs(a, sent, b.(inbound := b.inbound[1..])) && Sound(b.(inbound := b.inbound[1..]))
  {
    hide Fresh; hide Lossy; hide Truthful; hide Since;
    assert forall e <- b.inbound[1..] :: e in b.inbound;
  }

  /** A payload that is no reply: other traffic on the channel, or a request read back. */
  predicate Junk(app: seq<byte>) {
    Parse(app) == Failed(NotM64p) || (Parse(app).Failed? && Parse(app).error.EchoedRequest?)
  }

  /** An echo that arrived since `a`, sent since or on its way then. */
  ghost predicate Heard(a: Wire, sent: seq<seq<byte>>, b: Wire, e: Echo)
    requires |a.agent.ram| <= MAX_RAM && |a.served| <= |b.served|
  {
    Truthful(e) && (e in a.inbound || Fresh(a, sent, New(a, b), e))
  }

  /** The link rebuilt: nothing on its way either way, and an agent that holds and watches nothing, its memory as it was. */
  function Rebuilt(w: Wire): (after: Wire) {
    Wire([], [], State(w.agent.ram, w.agent.rom, [], [], 0, None), w.served, w.still)
  }

  lemma RebuiltSound(w: Wire)
    requires Sound(w)
    ensures Sound(Rebuilt(w))
  {}

  /** Nothing on the link changes the ROM. */
  lemma SameCartridge(a: Wire, sent: seq<seq<byte>>, b: Wire)
    requires Runs(a, sent, b)
    ensures b.agent.rom == a.agent.rom
  {
    hide Fresh; hide Lossy;
  }

  class Channel {
    var w: Wire

    constructor (w: Wire)
      ensures this.w == w
    {
      this.w := w;
    }

    /** Put a request on the link. Whatever becomes of the send, it may arrive or not. */
    method Send(app: seq<byte>, ghost a: Wire, ghost sent: seq<seq<byte>>) returns (ok: bool)
      requires Sound(w) && Runs(a, sent, w)
      modifies this
      ensures Sound(w) && Runs(a, sent + [app], w) && old(w.served) == w.served
    {
      RunsSend(a, sent, w, app);
      ok := *;
      var arrives := *;
      if ok || arrives { w := w.(outbound := w.outbound + [app]); }
    }

    /** One thing the link or the console does of itself. */
    method Happen(ghost a: Wire, ghost sent: seq<seq<byte>>)
      requires Sound(w) && Runs(a, sent, w)
      modifies this
      ensures Sound(w) && Runs(a, sent, w)
    {
      hide Runs; hide Sound;
      var served, lost, busy := *, *, *;
      if served && w.outbound != [] {
        Serving(w);
        RunsServe(a, sent, w, busy, lost);
        w := Served1(w, busy, lost);
      } else if lost && w.outbound != [] {
        RunsLose(a, sent, w);
        SoundLose(w);
        w := w.(outbound := w.outbound[1..]);
      } else if lost && w.inbound != [] {
        RunsHear(a, sent, w);
        w := w.(inbound := w.inbound[1..]);
      } else {
        var st: State := *;
        if Played(w.agent, st, w.still) {
          RunsPlay(a, sent, w, st);
          w := w.(agent := st);
        }
      }
    }

    /** Wait a while for whatever arrives: a reply, something that is not one, or nothing. */
    method Listen(ghost a: Wire, ghost sent: seq<seq<byte>>) returns (got: Option<seq<byte>>, ghost echo: Option<Echo>)
      requires Sound(w) && Runs(a, sent, w)
      modifies this
      ensures Sound(w) && Runs(a, sent, w)
      ensures got.Some? ==> Junk(got.value) || (echo.Some? && echo.value.reply == got.value && Heard(a, sent, w, echo.value))
    {
      hide Runs; hide Sound; hide Junk; hide Heard;
      var n: nat := *;
      while n > 0
        invariant Sound(w) && Runs(a, sent, w)
      {
        Happen(a, sent);
        n := n - 1;
      }
      got, echo := None, None;
      var arrives := *;
      if arrives && w.inbound != [] {
        var e := w.inbound[0];
        RunsHear(a, sent, w);
        IsHeard(a, sent, w, e);
        w := w.(inbound := w.inbound[1..]);
        return Some(e.reply), Some(e);
      }
      var junk: seq<byte> := *;
      if arrives && Junk(junk) { got := Some(junk); }
    }
  }

  lemma Serving(b: Wire)
    requires Sound(b)
    ensures Sane(b.agent)
  {}

  lemma SoundLose(b: Wire)
    requires Sound(b) && b.outbound != []
    ensures Sound(b.(outbound := b.outbound[1..]))
  {
    hide Truthful;
  }

  lemma IsHeard(a: Wire, sent: seq<seq<byte>>, b: Wire, e: Echo)
    requires Runs(a, sent, b) && Sound(b) && e in b.inbound
    ensures Heard(a, sent, b.(inbound := b.inbound[1..]), e)
  {
    hide Fresh; hide Lossy; hide Since; hide Truthful;
  }
}
