/** Lists of reads and writes of any length, carried out over several requests of the link. */
module Backend {
  import opened Bytes
  import opened M64p
  import opened MemProto
  import opened AtMostOnce
  import opened Link
  import opened Batching
  import opened M64pRoundTrip
  import opened WriteMerge
  import opened Multi64
  import opened PokeEffect

  /** The rids of the requests of a call, every message of which is under one of them. */
  ghost predicate Under(sent: seq<seq<byte>>, rids: seq<uint16>) {
    forall m <- sent :: exists rid <- rids :: MsgRid(m) == Some(rid)
  }

  /** No rid is used twice in a call, and nothing on its way when it began is under any. */
  ghost predicate Apt(a: Wire, rids: seq<uint16>) {
    && (forall i, j :: 0 <= i < j < |rids| ==> rids[i] != rids[j]) && (forall rid <- rids :: Quiet(a, rid))
  }

  lemma AptUnused(a: Wire, sent: seq<seq<byte>>, rids: seq<uint16>, rid: uint16)
    requires Under(sent, rids) && Apt(a, rids + [rid])
    ensures Unused(a, sent, rid)
  {
    hide Quiet; hide MsgRid;
    assert (rids + [rid])[|rids|] == rid;
    forall m | m in sent ensures MsgRid(m) != Some(rid) {
      var r :| r in rids && MsgRid(m) == Some(r);
      var i :| 0 <= i < |rids| && rids[i] == r;
      assert (rids + [rid])[i] == r;
    }
  }

  lemma AptPrefix(a: Wire, rids: seq<uint16>, more: seq<uint16>)
    requires Apt(a, rids + more)
    ensures Apt(a, rids)
  {
    hide Quiet;
    forall i, j | 0 <= i < j < |rids| ensures rids[i] != rids[j] {
      assert (rids + more)[i] == rids[i] && (rids + more)[j] == rids[j];
    }
    assert forall rid <- rids :: rid in rids + more;
  }

  lemma UnderMore(sent: seq<seq<byte>>, rids: seq<uint16>, rid: uint16, copies: seq<seq<byte>>)
    requires Under(sent, rids) && forall m <- copies :: MsgRid(m) == Some(rid)
    ensures Under(sent + copies, rids + [rid])
  {
    hide MsgRid;
    forall m | m in sent + copies ensures exists r <- rids + [rid] :: MsgRid(m) == Some(r) {
      if m in sent {
        var r :| r in rids && MsgRid(m) == Some(r);
        assert r in rids + [rid];
      } else {
        assert rid in rids + [rid];
      }
    }
  }

  /** Nothing writes memory: not the game, and no write on its way. */
  ghost predicate Still(a: Wire) {
    a.still && forall m <- a.outbound :: !IsPoke(m)
  }

  /** What a reading call has sent writes nothing. */
  ghost predicate OnlyReads(sent: seq<seq<byte>>) {
    forall m <- sent :: !IsPoke(m)
  }

  lemma SeenStill(a: Wire, sent: seq<seq<byte>>, b: Wire, rs: seq<Region>, blocks: seq<seq<byte>>)
    requires Seen(a, sent, b, rs, blocks) && Still(a) && OnlyReads(sent)
    ensures |a.agent.ram| <= MAX_RAM && (forall r <- rs :: RegionIn(r, |a.agent.ram|)) && blocks == Slices(a.agent.ram, rs)
  {
    hide Slices; hide IsPoke; hide HoldOver; hide RegionIn;
    var st: State, k :| 0 <= k <= |New(a, b)| && Since(a, sent, New(a, b)[..k], st) && blocks == Slices(st.ram, rs);
    assert Frozen(a, sent);
  }

  class Memory {
    const host: Host

    constructor (host: Host)
      ensures this.host == host
    {
      this.host := host;
    }

    /** One batch read, asked again while it goes unanswered. */
    method ReadBatch(rs: seq<Region>, ghost a: Wire, ghost sent: seq<seq<byte>>, ghost rids: seq<uint16>)
      returns (o: Outcome, blocks: seq<seq<byte>>, ghost more: seq<seq<byte>>, ghost used: seq<uint16>)
      requires host.Valid() && Runs(a, sent, host.link.w) && Askable(rs, |a.agent.ram|) && |rs| <= MAX_REGIONS
      requires Under(sent, rids) && OnlyReads(sent)
      modifies host.link, host`outstanding, host`nextRid
      ensures host.Valid() && Runs(a, sent + more, host.link.w) && Under(sent + more, rids + used) && OnlyReads(sent + more)
      ensures o.Done? ==> |blocks| == |rs|
      ensures o.Done? && Apt(a, rids + used) ==> Seen(a, sent + more, host.link.w, rs, blocks)
    {
      hide Runs; hide Sound; hide Peek; hide Askable; hide Unused; hide Seen; hide Under; hide Apt; hide OnlyReads;
      o, blocks, more, used := TimedOut, [], [], [];
      var timeouts := 0;
      var patience: nat := *;
      assert sent + more == sent && rids + used == rids;
      while patience > 0
        invariant host.Valid() && Runs(a, sent + more, host.link.w) && Under(sent + more, rids + used) && OnlyReads(sent + more)
        invariant !o.Done?
      {
        patience := patience - 1;
        ghost var rid, copies := host.nextRid, [];
        o, blocks, copies := host.PeekV(rs, a, sent + more);
        CopiesRead(sent + more, rids + used, rid, rs, copies);
        if Apt(a, rids + (used + [rid])) {
          assert rids + used + [rid] == rids + (used + [rid]);
          AptUnused(a, sent + more, rids + used, rid);
        }
        assert sent + more + copies == sent + (more + copies) && rids + used + [rid] == rids + (used + [rid]);
        more, used := more + copies, used + [rid];
        if o.Done? { return; }
        if o.TimedOut? && timeouts < host.softRetries {
          timeouts := timeouts + 1;
        } else if !o.BusyBus? {
          return;
        }
      }
    }

    /**
     * Reads every span, batch by batch. `probe` is one more region added wherever a batch has room; its block
     * is dropped from the answer.
     */
    method ReadMany(spans: seq<Span>, probe: Option<Region>, size: uint32)
      returns (o: Outcome, out: seq<seq<byte>>, ghost rids: seq<uint16>)
      requires host.Valid() && size as int == |host.link.w.agent.ram|
      requires probe.Some? ==> RegionIn(probe.value, size) && probe.value.len <= 8
      modifies host.link, host`outstanding, host`nextRid
      ensures host.Valid()
      ensures o.Done? ==> (forall s <- spans :: InRange(s, size)) && |out| == |spans|
      ensures o.Done? && Apt(old(host.link.w), rids) && Still(old(host.link.w)) ==>
        forall i :: 0 <= i < |spans| ==> InRange(spans[i], size) && out[i] == Slice(old(host.link.w).agent.ram, spans[i])
    {
      hide Runs; hide Sound; hide Under; hide Apt; hide OnlyReads; hide Still; hide Packed; hide Seen; hide RegionIn; hide InRange; hide Askable; hide Slice; hide Slices;
      ghost var a, ram := host.link.w, host.link.w.agent.ram;
      ghost var sent: seq<seq<byte>> := [];
      o, out, rids := LinkDown, [], [];
      SoundSize(a);
      Nothing(a);
      var ok, chunks, counts := Split(spans, size);
      if !ok { return; }
      ChunksIn(spans, size);
      var all := Batches(chunks);
      var flat: seq<seq<byte>> := [];
      FlatNone(ram);
      for i := 0 to |all|
        invariant host.Valid() && Runs(a, sent, host.link.w) && Under(sent, rids) && OnlyReads(sent)
        invariant |flat| == |Concat(all[..i])|
        invariant Apt(a, rids) && Still(a) ==> HeldIn(ram, Concat(all[..i]), flat)
      {
        BatchAskable(all, i, chunks, size);
        var batch := all[i];
        var probed := probe.Some? && Fits(batch, probe.value.len);
        if probed {
          Probed(batch, probe.value, size);
          batch := batch + [probe.value];
        }
        ghost var more, used;
        var blocks;
        o, blocks, more, used := ReadBatch(batch, a, sent, rids);
        if !o.Done? { return; }
        if Apt(a, rids + used) && Still(a) {
          AptPrefix(a, rids, used);
          SeenStill(a, sent + more, host.link.w, batch, blocks);
          BlocksHold(ram, batch, blocks, |all[i]|);
        }
        if probed { blocks := blocks[..|blocks| - 1]; }
        assert batch[..|all[i]|] == all[i];
        FlatMore(ram, all, i, flat, blocks);
        sent, rids, flat := sent + more, rids + used, flat + blocks;
      }
      assert all[..|all|] == all;
      var joined := Stitch(flat, counts);
      Stitches(ram, spans, size, counts, flat);
      if joined.None? {
        o := LinkDown;
      } else {
        o, out := Done, joined.value;
      }
    }

    /**
     * A batch of writes: merged into runs when those fit one request, and in the caller's order when they do not.
     * `sent` is what each request carried, under which of `rids`, `wires` what went on the link for it, and `marks`
     * the link before and after. If nothing else writes memory, it is left as the caller's writes in their order
     * would leave it, and no copy that arrives later changes that. A batch given up on has made whole requests in
     * their order, and of the one given up on, `left`, all or nothing; what was to follow is not sent.
     */
    method WriteMany(ws: seq<Write>, size: uint32)
      returns (o: Outcome, ghost sent: seq<seq<Write>>, ghost rids: seq<uint16>, ghost wires: seq<seq<seq<byte>>>,
               ghost marks: seq<Wire>, ghost left: Option<Left>)
      requires host.Valid()
      modifies host.link, host`outstanding, host`nextRid, host`known
      ensures host.Valid()
      ensures o.Done? ==> (forall w <- ws :: End(w) <= size as int) && BytesOf(Concat(sent)) == BytesOf(ws)
      ensures Carried(sent, rids, wires, marks, old(host.known).None?) && marks[0] == old(host.link.w)
      ensures EndsAt(marks[|sent|], left, host.link.w) && (o.Done? ==> left == None)
      ensures var ram, done := old(host.link.w.agent.ram), Concat(sent);
        left.Some? && Ready(old(host.link.w), ram) && Unmixed(old(host.link.w), rids, wires) ==>
          && (exists more: seq<Write> :: Planned(ws, done + left.value.batch + more))
          && (forall w <- done :: w.addr as int + |w.data| <= |ram|)
          && OneOrOther(host.link.w, WriteAll(ram, done), left.value.batch)
      ensures !o.Done? && left == None ==> sent == [] && host.link.w == old(host.link.w)
      ensures var ram := old(host.link.w.agent.ram);
        o.Done? && size as int == |ram| && Ready(old(host.link.w), ram) && Unmixed(old(host.link.w), rids, wires) ==>
          (forall w <- ws :: w.addr as int + |w.data| <= |ram|) && Ready(host.link.w, WriteAll(ram, ws))
      ensures o.Done? && FitsOne(ws) ==> |sent| <= 1
      ensures o.Done? && !FitsOne(ws) ==> (forall w <- ws :: End(w) <= 0xFFFF_FFFF) && Concat(sent) == ChunksOf(ws)
    {
      hide BytesOf; hide Concat; hide ChunksOf; hide Carried; hide FitsOne; hide OneRequestOf; hide End; hide Sound; hide Went;
      hide Ready; hide Unmixed; hide WriteAll; hide EndsAt; hide OneOrOther; hide Planned;
      o, sent, rids, wires, marks, left := LinkDown, [], [], [], [host.link.w], None;
      NothingCarried(host.link.w, host.known.None?);
      for i := 0 to |ws|
        invariant o.LinkDown? && host.Valid() && host.link.w == old(host.link.w) && host.known == old(host.known)
        invariant forall w <- ws[..i] :: End(w) <= size as int
      {
        assert ws[..i + 1] == ws[..i] + [ws[i]];
        EndIs(ws[i]);
        if ws[i].addr as int + |ws[i].data| > size as int { return; }
      }
      assert ws[..|ws|] == ws;
      var chunks := Plan(ws, size);
      PlannedSmall(ws, chunks);
      ghost var a, bare := host.link.w, host.known.None?;
      o, sent, rids, wires, marks, left := SendAll(chunks);
      if o.Done? {
        PlanSent(ws, chunks, sent);
        Lands(a, sent, rids, wires, marks, bare, ws, size, host.link.w);
      } else {
        ghost var more: seq<Write> :| Concat(sent) + left.value.batch + more == chunks;
        assert Planned(ws, Concat(sent) + left.value.batch + more);
        LeftPart(a, sent, rids, wires, marks, bare, left, host.link.w);
      }
    }

    /** Chunks in their order, as few requests as that takes, each sent once the last is answered. */
    method SendAll(chunks: seq<Write>)
      returns (o: Outcome, ghost sent: seq<seq<Write>>, ghost rids: seq<uint16>, ghost wires: seq<seq<seq<byte>>>,
               ghost marks: seq<Wire>, ghost left: Option<Left>)
      requires host.Valid() && forall c <- chunks :: |c.data| <= MAX_REGION_BYTES
      modifies host.link, host`outstanding, host`nextRid, host`known
      ensures host.Valid()
      ensures Carried(sent, rids, wires, marks, old(host.known).None?) && marks[0] == old(host.link.w)
      ensures EndsAt(marks[|sent|], left, host.link.w) && (o.Done? <==> left == None)
      ensures match left
              case None => Concat(sent) == chunks
              case Some(l) => exists more: seq<Write> :: Concat(sent) + l.batch + more == chunks
      ensures o.Done? && OneRequestOf(chunks) ==> |sent| <= 1
    {
      hide Concat; hide Carried; hide OneRequestOf; hide Sound; hide Went; hide Sum; hide WriteLengths; hide Broke;
      o, sent, rids, wires, marks, left := Done, [], [], [], [host.link.w], None;
      var batch: seq<Write>, bytes := [], 0;
      ghost var bare := host.known.None?;
      NothingCarried(host.link.w, bare);
      for i := 0 to |chunks|
        invariant host.Valid() && Concat(sent) + batch == chunks[..i] && o.Done? && left == None && (bare ==> host.known.None?)
        invariant Carried(sent, rids, wires, marks, bare) && |marks| == |sent| + 1 && marks[0] == old(host.link.w) && marks[|sent|] == host.link.w
        invariant bytes == Sum(WriteLengths(batch)) && OneRequestOf(batch)
        invariant OneRequestOf(chunks) ==> sent == []
      {
        var c := chunks[i];
        assert c in chunks;
        if |batch| == MAX_REGIONS || bytes + |c.data| > MAX_TOTAL_BYTES {
          Overfull(chunks, i, sent, batch);
          ghost var rid, wire := host.nextRid, [];
          o, wire := Send(batch, bare);
          if !o.Done? {
            left := Some(Left(batch, rid, wire));
            assert Concat(sent) + batch + chunks[i..] == chunks;
            return;
          }
          CarriedMore(sent, rids, wires, marks, bare, batch, rid, wire, host.link.w);
          ConcatOne(sent, batch);
          sent, rids, wires, marks := sent + [batch], rids + [rid], wires + [wire], marks + [host.link.w];
          batch, bytes := [], 0;
        }
        WriteMore(batch, c);
        bytes := bytes + |c.data|;
        assert chunks[..i + 1] == chunks[..i] + [c];
        batch := batch + [c];
      }
      assert chunks[..|chunks|] == chunks;
      if batch != [] {
        ghost var rid, wire := host.nextRid, [];
        o, wire := Send(batch, bare);
        if !o.Done? {
          left := Some(Left(batch, rid, wire));
          assert Concat(sent) + batch + [] == chunks;
          return;
        }
        CarriedMore(sent, rids, wires, marks, bare, batch, rid, wire, host.link.w);
        ConcatOne(sent, batch);
        sent, rids, wires, marks := sent + [batch], rids + [rid], wires + [wire], marks + [host.link.w];
      }
    }

    method Send(batch: seq<Write>, ghost bare: bool) returns (o: Outcome, ghost wire: seq<seq<byte>>)
      requires host.Valid() && OneRequestOf(batch) && batch != [] && (bare ==> host.known.None?)
      modifies host.link, host`outstanding, host`nextRid, host`known
      ensures host.Valid() && (bare ==> host.known.None?)
      ensures o.Done? ==> Went(old(host.link.w), host.link.w, old(host.nextRid), batch, wire, bare)
      ensures Broke(old(host.link.w), host.link.w, Left(batch, old(host.nextRid), wire))
    {
      hide Runs; hide Sound; hide Quiet; hide Landed; hide NotTwice; hide Limits; hide Poke; hide TriesAllowed; hide Wired; hide Only;
      ghost var tries, p, knew := [], Poke(host.nextRid, batch), host.known.Some?;
      PokeIs(host.nextRid, batch);
      o, tries := host.PokeOnce(batch);
      wire := Wired(p, tries);
      WiredOnly(p, tries, knew);
    }

    /** What is sent: the runs if they fit one request, and otherwise the writes as they came. */
    method Plan(ws: seq<Write>, size: uint32) returns (chunks: seq<Write>)
      requires forall w <- ws :: End(w) <= size as int
      ensures Planned(ws, chunks)
    {
      hide BytesOf; hide ChunksOf; hide Apart; hide End;
      assert forall w <- ws :: End(w) <= 0xFFFF_FFFF;
      var merged := Coalesce(ws);
      RunsIn(ws, merged, size);
      chunks := Chunk(merged);
      ChunksName(merged);
      ChunksName(ws);
      var lens := WriteLengths(chunks);
      var broken := CheckLimits(lens);
      PlanIf(ws, merged, size);
      if broken.Some? { chunks := Chunk(ws); }
    }
  }

  /**
   * Between `a` and `b` one request went, under `rid`, with `wire` put on the link for it. If nothing else was under
   * `rid` the agent applied it, and with no header known (`bare`) not twice.
   */
  ghost predicate Went(a: Wire, b: Wire, rid: uint16, batch: seq<Write>, wire: seq<seq<byte>>, bare: bool) {
    && OneRequestOf(batch) && batch != [] && rid != 0 && Runs(a, wire, b) && Sound(b) && Only(Poke(rid, batch), wire)
    && (Quiet(a, rid) ==> Landed(a, b, Poke(rid, batch)))
    && (bare && Quiet(a, rid) ==> NotTwice(a, b, Poke(rid, batch)))
  }

  /** A request given up on: its writes, its rid, and what of it was put on the link. */
  datatype Left = Left(batch: seq<Write>, rid: uint16, wire: seq<seq<byte>>)

  ghost predicate Broke(a: Wire, b: Wire, l: Left) {
    OneRequestOf(l.batch) && Runs(a, l.wire, b) && Sound(b) && Only(Poke(l.rid, l.batch), l.wire)
  }

  /** From the last mark nothing more was sent, or the request given up on was. */
  ghost predicate EndsAt(a: Wire, left: Option<Left>, b: Wire) {
    match left case None => a == b case Some(l) => Broke(a, b, l)
  }

  /** Memory is as it was or with the writes made, and is that still on a link rebuilt now. */
  ghost predicate OneOrOther(w: Wire, ram: seq<byte>, ws: seq<Write>) {
    Ready(Rebuilt(w), ram) || ((forall v <- ws :: v.addr as int + |v.data| <= |ram|) && Ready(Rebuilt(w), WriteAll(ram, ws)))
  }

  ghost predicate Carried(sent: seq<seq<Write>>, rids: seq<uint16>, wires: seq<seq<seq<byte>>>, marks: seq<Wire>, bare: bool) {
    && |rids| == |wires| == |sent| && |marks| == |sent| + 1
    && forall i :: 0 <= i < |sent| ==> Went(marks[i], marks[i + 1], rids[i], sent[i], wires[i], bare)
  }

  /** No rid of a write is under anything on its way when the call began, or put on the link before it. */
  ghost predicate Unmixed(a: Wire, rids: seq<uint16>, wires: seq<seq<seq<byte>>>) {
    && (forall rid <- rids :: Quiet(a, rid))
    && forall i, j :: 0 <= i < j < |rids| && i < |wires| ==> forall m <- wires[i] :: MsgRid(m) != Some(rids[j])
  }

  lemma WiredOnly(p: seq<byte>, tries: seq<Try>, known: bool)
    requires TriesAllowed(known, tries)
    ensures Only(p, Wired(p, tries))
  {
    hide Wired; hide TriesAllowed;
    forall m <- Wired(p, tries) ensures m == p || !IsPoke(m) { WiredHas(p, tries, known, m); }
  }

  lemma CarriedMore(sent: seq<seq<Write>>, rids: seq<uint16>, wires: seq<seq<seq<byte>>>, marks: seq<Wire>, bare: bool,
                    batch: seq<Write>, rid: uint16, wire: seq<seq<byte>>, b: Wire)
    requires Carried(sent, rids, wires, marks, bare) && Went(marks[|sent|], b, rid, batch, wire, bare)
    ensures Carried(sent + [batch], rids + [rid], wires + [wire], marks + [b], bare)
  {
    hide Went;
    forall i | 0 <= i < |sent| + 1
      ensures Went((marks + [b])[i], (marks + [b])[i + 1], (rids + [rid])[i], (sent + [batch])[i], (wires + [wire])[i], bare) {
      if i < |sent| { assert Went(marks[i], marks[i + 1], rids[i], sent[i], wires[i], bare); }
    }
  }

  /** Before the `i`th request nothing on the link is under its rid or a later one. */
  lemma {:induction false} QuietYet(sent: seq<seq<Write>>, rids: seq<uint16>, wires: seq<seq<seq<byte>>>, marks: seq<Wire>, bare: bool,
                                    i: nat, j: nat)
    requires Carried(sent, rids, wires, marks, bare) && Unmixed(marks[0], rids, wires) && i <= j < |rids|
    ensures Quiet(marks[i], rids[j])
  {
    hide Quiet; hide Runs; hide Sound; hide OneRequestOf; hide Poke; hide Landed; hide NotTwice; hide Only; hide MsgRid;
    if i > 0 {
      QuietYet(sent, rids, wires, marks, bare, i - 1, j);
      assert Went(marks[i - 1], marks[i], rids[i - 1], sent[i - 1], wires[i - 1], bare);
      assert Went(marks[j], marks[j + 1], rids[j], sent[j], wires[j], bare);
      QuietStays(marks[i - 1], wires[i - 1], marks[i], rids[j]);
    }
  }

  /** After `i` requests memory is as their writes in turn leave it. */
  lemma {:induction false} WrittenYet(sent: seq<seq<Write>>, rids: seq<uint16>, wires: seq<seq<seq<byte>>>, marks: seq<Wire>, bare: bool,
                                      ram: seq<byte>, i: nat)
    requires Carried(sent, rids, wires, marks, bare) && Unmixed(marks[0], rids, wires) && Ready(marks[0], ram) && i <= |sent|
    ensures (forall w <- Concat(sent[..i]) :: w.addr as int + |w.data| <= |ram|) && Ready(marks[i], WriteAll(ram, Concat(sent[..i])))
  {
    hide Quiet; hide Runs; hide Sound; hide Poke; hide Landed; hide NotTwice; hide Only; hide Ready; hide Limits; hide Concat; hide WriteAll;
    if i > 0 {
      var before := Concat(sent[..i - 1]);
      WrittenYet(sent, rids, wires, marks, bare, ram, i - 1);
      assert Went(marks[i - 1], marks[i], rids[i - 1], sent[i - 1], wires[i - 1], bare);
      QuietYet(sent, rids, wires, marks, bare, i - 1, i - 1);
      LandedWrites(marks[i - 1], wires[i - 1], marks[i], rids[i - 1], sent[i - 1], WriteAll(ram, before));
      assert sent[..i] == sent[..i - 1] + [sent[i - 1]];
      ConcatOne(sent[..i - 1], sent[i - 1]);
      WriteAllMore(ram, before, sent[i - 1]);
    } else {
      assert sent[..0] == [];
      NoWrites(ram);
    }
  }

  /** What was carried is in memory, and the request given up on whole or not at all. */
  lemma LeftPart(a: Wire, sent: seq<seq<Write>>, rids: seq<uint16>, wires: seq<seq<seq<byte>>>, marks: seq<Wire>, bare: bool,
                 left: Option<Left>, b: Wire)
    requires Carried(sent, rids, wires, marks, bare) && marks[0] == a && left.Some? && EndsAt(marks[|sent|], left, b)
    ensures var ram, done := a.agent.ram, Concat(sent);
      Ready(a, ram) && Unmixed(a, rids, wires) ==>
        (forall w <- done :: w.addr as int + |w.data| <= |ram|) && OneOrOther(b, WriteAll(ram, done), left.value.batch)
  {
    hide Unmixed; hide Ready; hide Went; hide Concat; hide WriteAll; hide Runs; hide Sound; hide Only; hide Poke; hide Limits;
    if Ready(a, a.agent.ram) && Unmixed(a, rids, wires) {
      WrittenYet(sent, rids, wires, marks, bare, a.agent.ram, |sent|);
      assert sent[..|sent|] == sent;
      var l := left.value;
      AcrossRebuild(marks[|sent|], l.wire, b, l.rid, l.batch, WriteAll(a.agent.ram, Concat(sent)));
    }
  }

  lemma NoWrites(ram: seq<byte>)
    ensures Concat<Write>([]) == [] && WriteAll(ram, []) == ram
  {}

  /** What was sent in the end leaves memory as the caller's writes do. */
  lemma Lands(a: Wire, sent: seq<seq<Write>>, rids: seq<uint16>, wires: seq<seq<seq<byte>>>, marks: seq<Wire>, bare: bool,
              ws: seq<Write>, size: uint32, b: Wire)
    requires Carried(sent, rids, wires, marks, bare) && marks[0] == a && EndsAt(marks[|sent|], None, b)
    requires BytesOf(Concat(sent)) == BytesOf(ws) && forall w <- ws :: End(w) <= size as int
    ensures size as int == |a.agent.ram| && Ready(a, a.agent.ram) && Unmixed(a, rids, wires) ==>
      (forall w <- ws :: w.addr as int + |w.data| <= |a.agent.ram|) && Ready(b, WriteAll(a.agent.ram, ws))
  {
    hide Unmixed; hide Ready; hide Went; hide BytesOf; hide Concat; hide WriteAll;
    if size as int == |a.agent.ram| && Ready(a, a.agent.ram) && Unmixed(a, rids, wires) {
      WrittenYet(sent, rids, wires, marks, bare, a.agent.ram, |sent|);
      assert sent[..|sent|] == sent;
      SameEffect(a.agent.ram, Concat(sent), ws);
    }
  }

  lemma EndIs(w: Write)
    ensures End(w) == w.addr as int + |w.data|
  {}

  /** Some batch with the same effect fits one request. */
  ghost predicate FitsOne(ws: seq<Write>) {
    exists alt: seq<Write> :: OneRequestOf(alt) && BytesOf(alt) == BytesOf(ws)
  }

  /** Chunks with the same effect: in one request if any batch with that effect is, and otherwise in the caller's order. */
  ghost predicate Planned(ws: seq<Write>, chunks: seq<Write>) {
    && (forall c <- chunks :: |c.data| <= MAX_REGION_BYTES) && BytesOf(chunks) == BytesOf(ws)
    && (forall w <- ws :: End(w) <= 0xFFFF_FFFF)
    && if FitsOne(ws) then OneRequestOf(chunks) else chunks == ChunksOf(ws)
  }

  lemma NothingCarried(w: Wire, bare: bool)
    ensures Carried([], [], [], [w], bare) && EndsAt(w, None, w) && Concat<Write>([]) == [] && OneRequestOf([]) && Sum(WriteLengths([])) == 0
  {}

  /** A batch is cut short only if all the chunks do not fit one request. */
  lemma Overfull(chunks: seq<Write>, i: nat, sent: seq<seq<Write>>, batch: seq<Write>)
    requires i < |chunks| && Concat(sent) + batch == chunks[..i] && OneRequestOf(batch) && |chunks[i].data| <= MAX_REGION_BYTES
    requires |batch| == MAX_REGIONS || Sum(WriteLengths(batch)) + |chunks[i].data| > MAX_TOTAL_BYTES
    ensures batch != [] && Sum(WriteLengths([])) == 0 && OneRequestOf([]) && Concat<Write>([]) == []
    ensures sent == [] ==> !OneRequestOf(chunks)
  {
    hide Sum; hide WriteLengths; hide OneRequestOf; hide Concat;
    NothingCarriedYet();
    if sent == [] && OneRequestOf(chunks) { WholeFits(chunks, i, batch); }
    OverfullSome(batch, chunks[i]);
  }

  lemma NothingCarriedYet()
    ensures Concat<Write>([]) == [] && OneRequestOf([]) && Sum(WriteLengths([])) == 0
  {}

  lemma OverfullSome(batch: seq<Write>, c: Write)
    requires |batch| == MAX_REGIONS || Sum(WriteLengths(batch)) + |c.data| > MAX_TOTAL_BYTES
    requires |c.data| <= MAX_REGION_BYTES
    ensures batch != []
  {
    NothingCarriedYet();
  }

  /** Chunks that fit one request fit it as far as they go. */
  lemma WholeFits(chunks: seq<Write>, i: nat, batch: seq<Write>)
    requires i < |chunks| && batch == chunks[..i] && OneRequestOf(chunks)
    ensures |batch| != MAX_REGIONS && Sum(WriteLengths(batch)) + |chunks[i].data| <= MAX_TOTAL_BYTES
  {
    assert WriteLengths(chunks)[..i] == WriteLengths(batch);
    SumPrefix(WriteLengths(chunks), i);
  }

  lemma WriteMore(batch: seq<Write>, c: Write)
    requires OneRequestOf(batch) && |c.data| <= MAX_REGION_BYTES
    requires |batch| != MAX_REGIONS && Sum(WriteLengths(batch)) + |c.data| <= MAX_TOTAL_BYTES
    ensures OneRequestOf(batch + [c]) && Sum(WriteLengths(batch + [c])) == Sum(WriteLengths(batch)) + |c.data|
  {
    assert WriteLengths(batch + [c]) == WriteLengths(batch) + [|c.data|];
    assert (WriteLengths(batch) + [|c.data|])[..|batch|] == WriteLengths(batch);
  }

  lemma PlannedSmall(ws: seq<Write>, chunks: seq<Write>)
    requires Planned(ws, chunks)
    ensures forall c <- chunks :: |c.data| <= MAX_REGION_BYTES
  {}

  lemma PlanSent(ws: seq<Write>, chunks: seq<Write>, sent: seq<seq<Write>>)
    requires Planned(ws, chunks) && Concat(sent) == chunks
    ensures BytesOf(Concat(sent)) == BytesOf(ws) && (forall w <- ws :: End(w) <= 0xFFFF_FFFF)
    ensures FitsOne(ws) ==> OneRequestOf(chunks)
    ensures !FitsOne(ws) ==> Concat(sent) == ChunksOf(ws)
  {
    hide BytesOf; hide ChunksOf; hide FitsOne;
  }

  lemma RunsIn(ws: seq<Write>, runs: seq<Write>, size: uint32)
    requires (forall w <- ws :: End(w) <= size as int) && Apart(runs) && BytesOf(runs) == BytesOf(ws)
    ensures forall r <- runs :: End(r) <= 0xFFFF_FFFF
  {
    hide BytesOf; hide End;
    NamedWithin(ws, runs, size);
  }

  lemma PlanIf(ws: seq<Write>, merged: seq<Write>, size: uint32)
    requires (forall w <- ws :: End(w) <= 0xFFFF_FFFF) && (forall r <- merged :: End(r) <= 0xFFFF_FFFF)
    requires Apart(merged) && BytesOf(merged) == BytesOf(ws)
    ensures FitsOne(ws) <==> OneRequestOf(ChunksOf(merged))
    ensures BytesOf(ChunksOf(merged)) == BytesOf(ws) == BytesOf(ChunksOf(ws))
    ensures (forall c <- ChunksOf(merged) :: |c.data| <= MAX_REGION_BYTES) && (forall c <- ChunksOf(ws) :: |c.data| <= MAX_REGION_BYTES)
  {
    hide BytesOf; hide ChunksOf; hide Apart; hide End; hide OneRequestOf;
    ChunksName(merged);
    ChunksName(ws);
    if FitsOne(ws) {
      var alt: seq<Write> :| OneRequestOf(alt) && BytesOf(alt) == BytesOf(ws);
      MergedFits(merged, alt);
    }
  }

  /** `blocks` are what `mem` holds in `rs`. */
  ghost predicate HeldIn(mem: seq<byte>, rs: seq<Region>, blocks: seq<seq<byte>>) {
    |mem| <= 0xFFFF_FFFF && (forall r <- rs :: RegionIn(r, |mem|)) && blocks == Slices(mem, rs)
  }

  lemma CopiesRead(sent: seq<seq<byte>>, rids: seq<uint16>, rid: uint16, rs: seq<Region>, copies: seq<seq<byte>>)
    requires |rs| <= MAX_REGIONS && Under(sent, rids) && OnlyReads(sent) && forall m <- copies :: m == Peek(PEEKV, rid, rs)
    ensures Under(sent + copies, rids + [rid]) && OnlyReads(sent + copies)
  {
    hide MsgRid; hide IsPoke; hide Peek;
    PeekRid(PEEKV, rid, rs);
    UnderMore(sent, rids, rid, copies);
  }

  lemma SoundSize(a: Wire)
    requires Sound(a)
    ensures |a.agent.ram| <= MAX_RAM
  {}

  lemma Nothing(a: Wire)
    requires Sound(a)
    ensures Runs(a, [], a) && Under([], []) && OnlyReads([])
  {
    Begin(a);
  }

  lemma ChunksIn(spans: seq<Span>, size: uint32)
    requires forall s <- spans :: InRange(s, size)
    ensures forall r <- Concat(CutAll(spans, size)) :: RegionIn(r, size) && r.len as int <= MAX_REGION_BYTES
  {
    hide RegionIn; hide InRange;
    var parts := CutAll(spans, size);
    forall i | 0 <= i < |parts| ensures forall r <- parts[i] :: RegionIn(r, size) && r.len as int <= MAX_REGION_BYTES {
      assert spans[i] in spans;
      CutIn(spans[i], 0, size);
    }
    ConcatAll(parts, size);
  }

  lemma {:induction false} ConcatAll(parts: seq<seq<Region>>, size: uint32)
    requires forall i :: 0 <= i < |parts| ==> forall r <- parts[i] :: RegionIn(r, size) && r.len as int <= MAX_REGION_BYTES
    ensures forall r <- Concat(parts) :: RegionIn(r, size) && r.len as int <= MAX_REGION_BYTES
  {
    hide RegionIn;
    if parts != [] { ConcatAll(parts[1..], size); }
  }

  lemma {:induction false} InConcat<T>(parts: seq<seq<T>>, i: nat, x: T)
    requires i < |parts| && x in parts[i]
    ensures x in Concat(parts)
  {
    if i > 0 {
      assert parts[1..][i - 1] == parts[i];
      InConcat(parts[1..], i - 1, x);
    }
  }

  lemma BatchAskable(all: seq<seq<Region>>, i: nat, chunks: seq<Region>, size: uint32)
    requires Packed(all) && i < |all| && Concat(all) == chunks && forall r <- chunks :: RegionIn(r, size)
    ensures Askable(all[i], size) && OneRequest(all[i]) && |all[i]| <= MAX_REGIONS
  {
    hide RegionIn; hide Fits;
    assert all[i] in all;
    forall r | r in all[i] ensures RegionIn(r, size) { InConcat(all, i, r); }
  }

  /** With room for it, a probe leaves a request within the limits. */
  lemma Probed(batch: seq<Region>, probe: Region, size: uint32)
    requires OneRequest(batch) && Askable(batch, size) && Fits(batch, probe.len) && probe.len <= 8 && RegionIn(probe, size)
    ensures Askable(batch + [probe], size) && |batch + [probe]| <= MAX_REGIONS
  {
    hide RegionIn;
    LengthsMore(batch, probe);
  }

  lemma BlocksHold(mem: seq<byte>, batch: seq<Region>, blocks: seq<seq<byte>>, n: nat)
    requires |mem| <= 0xFFFF_FFFF && (forall r <- batch :: RegionIn(r, |mem|)) && blocks == Slices(mem, batch) && n <= |batch|
    ensures HeldIn(mem, batch[..n], blocks[..n]) && HeldIn(mem, batch, blocks)
  {
    hide RegionIn;
  }

  lemma FlatNone(mem: seq<byte>)
    requires |mem| <= 0xFFFF_FFFF
    ensures HeldIn(mem, Concat([]), [])
  {}

  lemma FlatMore(mem: seq<byte>, all: seq<seq<Region>>, i: nat, flat: seq<seq<byte>>, blocks: seq<seq<byte>>)
    requires i < |all|
    ensures Concat(all[..i + 1]) == Concat(all[..i]) + all[i]
    ensures HeldIn(mem, Concat(all[..i]), flat) && HeldIn(mem, all[i], blocks) ==> HeldIn(mem, Concat(all[..i + 1]), flat + blocks)
  {
    hide RegionIn; hide Slices;
    assert all[..i + 1] == all[..i] + [all[i]];
    ConcatOne(all[..i], all[i]);
    if HeldIn(mem, Concat(all[..i]), flat) && HeldIn(mem, all[i], blocks) {
      SlicesAppend(mem, Concat(all[..i]), all[i]);
    }
  }

  /** What each span's regions hold, and that together they hold what all the regions do. */
  lemma {:induction false} PartsOf(mem: seq<byte>, parts: seq<seq<Region>>) returns (held: seq<seq<seq<byte>>>)
    requires |mem| <= 0xFFFF_FFFF && forall i :: 0 <= i < |parts| ==> forall r <- parts[i] :: RegionIn(r, |mem|)
    ensures |held| == |parts| && HeldIn(mem, Concat(parts), Concat(held))
    ensures forall i :: 0 <= i < |parts| ==> HeldIn(mem, parts[i], held[i]) && |held[i]| == |parts[i]|
  {
    hide RegionIn; hide Slices;
    held := [];
    if parts != [] {
      var rest := PartsOf(mem, parts[1..]);
      assert forall r <- parts[0] :: RegionIn(r, |mem|);
      held := [Slices(mem, parts[0])] + rest;
      SlicesAppend(mem, parts[0], Concat(parts[1..]));
      assert held[1..] == rest;
    }
  }

  /** The blocks of all the regions, stitched, are the spans. */
  lemma Stitches(mem: seq<byte>, spans: seq<Span>, size: uint32, counts: seq<nat>, flat: seq<seq<byte>>)
    requires size as int == |mem| && (forall s <- spans :: InRange(s, size)) && |counts| == |spans|
    requires forall i :: 0 <= i < |spans| ==> counts[i] == |CutAll(spans, size)[i]|
    ensures Stitched(flat, counts).Some? ==> |Stitched(flat, counts).value| == |spans|
    ensures HeldIn(mem, Concat(CutAll(spans, size)), flat) ==>
      && Stitched(flat, counts).Some?
      && forall i :: 0 <= i < |spans| ==> InRange(spans[i], size) && Stitched(flat, counts).value[i] == Slice(mem, spans[i])
  {
    hide RegionIn; hide Slices; hide Stitched; hide Slice;
    StitchedLength(flat, counts);
    if HeldIn(mem, Concat(CutAll(spans, size)), flat) {
      var parts := CutAll(spans, size);
      forall i | 0 <= i < |parts| ensures forall r <- parts[i] :: RegionIn(r, |mem|) {
        assert spans[i] in spans;
        CutIn(spans[i], 0, size);
      }
      var held := PartsOf(mem, parts);
      assert counts == Counts(held);
      StitchBack(held);
      forall i | 0 <= i < |spans| ensures InRange(spans[i], size) && Joined(held)[i] == Slice(mem, spans[i]) {
        assert spans[i] in spans;
        SpanBack(mem, spans[i], held[i]);
      }
    }
  }

  lemma {:induction false} StitchedLength(flat: seq<seq<byte>>, counts: seq<nat>)
    ensures Stitched(flat, counts).Some? ==> |Stitched(flat, counts).value| == |counts|
  {
    if counts != [] && counts[0] <= |flat| { StitchedLength(flat[counts[0]..], counts[1..]); }
  }

  lemma SpanBack(mem: seq<byte>, s: Span, held: seq<seq<byte>>)
    requires |mem| <= 0xFFFF_FFFF && InRange(s, |mem|) && HeldIn(mem, Cut(s, 0, |mem|), held)
    ensures Concat(held) == Slice(mem, s)
  {
    hide Slices; hide RegionIn;
    CutReads(mem, s, 0);
  }
}
