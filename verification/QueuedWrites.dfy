/**
 * The one batch a queue of client writes becomes: bytes that differ from what the client was shown, and of a
 * flag byte only the bits that do, over its live value.
 */
module QueuedWrites {
  import M64p
  import M64pRoundTrip

  type octet = bv8

  /** A write of a word: `served` is what the client last read of it, `client` what it wrote. */
  datatype Queued = Queued(phys: nat, served: seq<octet>, client: seq<octet>)

  predicate Whole(w: Queued) {
    |w.served| == 4 && |w.client| == 4
  }

  /** A range of addresses whose bits are written one by one. */
  datatype Range = Range(from: nat, to: nat)

  predicate IsFlag(bitwise: seq<Range>, a: nat) {
    exists r <- bitwise :: r.from <= a < r.to
  }

  /** `now`, with each bit in which `served` and `client` differ taken from `client`. */
  function Merge(now: octet, served: octet, client: octet): (b: octet) {
    (now & !(served & !client)) | (client & !served)
  }

  /** A bit the client left alone stays; one it changed is as the client has it. */
  lemma MergeBits(now: octet, served: octet, client: octet, bit: octet)
    ensures (served ^ client) & bit == 0 ==> Merge(now, served, client) & bit == now & bit
    ensures (served ^ client) & bit == bit ==> Merge(now, served, client) & bit == client & bit
  {}

  // ---- one write at a time ----

  /** What one write makes of the byte at `a`, where memory holds `now`. */
  function After(bitwise: seq<Range>, w: Queued, a: nat, now: octet): (b: octet)
    requires Whole(w)
  {
    if !(w.phys <= a < w.phys + 4) then now
    else
      var served, client := w.served[a - w.phys], w.client[a - w.phys];
      if client == served then now
      else if IsFlag(bitwise, a) then Merge(now, served, client)
      else client
  }

  /** What the writes, one after the other, make of the byte at `a`. */
  function AfterAll(bitwise: seq<Range>, ws: seq<Queued>, a: nat, now: octet): (b: octet)
    requires forall w <- ws :: Whole(w)
  {
    if ws == [] then now
    else
      var n := |ws| - 1;
      assert ws[n] in ws;
      After(bitwise, ws[n], a, AfterAll(bitwise, ws[..n], a, now))
  }

  /** Memory after the writes, put there one after the other. */
  function Sequential(bitwise: seq<Range>, ws: seq<Queued>, mem: seq<octet>): (after: seq<octet>)
    requires forall w <- ws :: Whole(w)
    ensures |after| == |mem|
  {
    seq(|mem|, a requires 0 <= a < |mem| => AfterAll(bitwise, ws, a, mem[a]))
  }

  predicate Changes(w: Queued, a: nat)
    requires Whole(w)
  {
    w.phys <= a < w.phys + 4 && w.client[a - w.phys] != w.served[a - w.phys]
  }

  lemma {:induction false} Untouched(bitwise: seq<Range>, ws: seq<Queued>, a: nat, now: octet)
    requires (forall w <- ws :: Whole(w)) && forall w <- ws :: !Changes(w, a)
    ensures AfterAll(bitwise, ws, a, now) == now
  {
    if ws != [] {
      var n := |ws| - 1;
      assert ws[n] in ws && forall w <- ws[..n] :: w in ws;
      Untouched(bitwise, ws[..n], a, now);
    }
  }

  // ---- the cart ----

  /** Blocks of these lengths are read in one request. */
  predicate OneRead(lens: seq<nat>) {
    |lens| <= M64p.MAX_REGIONS && M64p.Sum(lens) <= M64p.MAX_TOTAL_BYTES
  }

  /** What a write comes to: acknowledged, cut short by a restart of the link, or failed for any other reason. */
  datatype Came = Fine | Restarted | Failed

  /** Bytes put on a console, and the link they went on. */
  datatype Sent = Sent(out: map<nat, octet>, on: nat)

  /** A console behind a link that may restart at any request: another image, another memory. */
  class Cart {
    var mem: seq<octet>
    var generation: nat
    /** Everything that was put on a console. */
    ghost var written: seq<Sent>

    constructor (mem: seq<octet>)
      ensures this.mem == mem && written == []
    {
      this.mem := mem;
      generation := 0;
      written := [];
    }

    /**
     * `lens[i]` bytes at each `at[i]`, as many in one request as the limits let; a restart may come before any of the
     * requests. `from` is the link each block was read on.
     */
    method ReadMany(at: seq<nat>, lens: seq<nat>) returns (ok: bool, blocks: seq<seq<octet>>, ghost from: seq<nat>)
      requires |lens| == |at|
      modifies this
      ensures generation >= old(generation) && written == old(written) && |mem| == old(|mem|)
      ensures generation == old(generation) ==> mem == old(mem)
      ensures ok ==> |blocks| == |from| == |at|
      ensures ok ==> forall i :: 0 <= i < |at| ==>
        && at[i] + lens[i] <= |mem| && |blocks[i]| == lens[i] && old(generation) <= from[i] <= generation
        && (from[i] == generation ==> blocks[i] == mem[at[i]..at[i] + lens[i]])
      ensures ok && OneRead(lens) ==> forall i :: 0 <= i < |at| ==> from[i] == generation
    {
      ok := *;
      Restart();
      blocks, from := [], [];
      if !ok { return; }
      var count, bytes := 0, 0;
      for i := 0 to |at|
        invariant |blocks| == |from| == i && generation >= old(generation) && written == old(written) && |mem| == old(|mem|)
        invariant generation == old(generation) ==> mem == old(mem)
        invariant forall j :: 0 <= j < i ==>
          && at[j] + lens[j] <= |mem| && |blocks[j]| == lens[j] && old(generation) <= from[j] <= generation
          && (from[j] == generation ==> blocks[j] == mem[at[j]..at[j] + lens[j]])
        invariant OneRead(lens) ==> count == i && bytes == M64p.Sum(lens[..i]) && forall j :: 0 <= j < i ==> from[j] == generation
      {
        M64pRoundTrip.SumPrefix(lens, i);
        if count == M64p.MAX_REGIONS || bytes + lens[i] > M64p.MAX_TOTAL_BYTES {
          Restart();
          count, bytes := 0, 0;
        }
        if at[i] + lens[i] > |mem| { return false, blocks, from; }
        blocks, from := blocks + [mem[at[i]..at[i] + lens[i]]], from + [generation];
        count, bytes := count + 1, bytes + lens[i];
      }
    }

    method Restart()
      modifies this`mem, this`generation
      ensures generation >= old(generation) && |mem| == old(|mem|) && (generation == old(generation) ==> mem == old(mem))
    {
      var restarts := *;
      if restarts {
        var other: seq<octet> := *;
        if |other| == |mem| { mem, generation := other, generation + 1; }
      }
    }

    /**
     * The bytes of `out`, all in one request, on the link there is. Not acknowledged, they may have landed or not;
     * acknowledged, they have, and a restart may still be noticed before this returns.
     */
    method WriteMany(out: map<nat, octet>) returns (r: Came)
      requires forall a <- out :: a < |mem|
      modifies this
      ensures |mem| == old(|mem|) && generation >= old(generation) && (r.Restarted? ==> generation > old(generation))
      ensures written == old(written) + [Sent(out, old(generation))] || (!r.Fine? && written == old(written))
      ensures r.Fine? && generation == old(generation) ==>
        forall a :: 0 <= a < |mem| ==> mem[a] == if a in out then out[a] else old(mem)[a]
    {
      r := *;
      var lands := *;
      if r.Fine? || lands {
        var was := mem;
        mem := seq(|was|, a requires 0 <= a < |was| => if a in out then out[a] else was[a]);
        written := written + [Sent(out, generation)];
      }
      var before := generation;
      Restart();
      if r.Restarted? && generation == before { r := Failed; }
    }
  }

  // ---- all of them at once ----

  /** Whether a write changes a flag byte, whose live value it is merged into. */
  ghost predicate NeedsLive(bitwise: seq<Range>, w: Queued)
    requires Whole(w)
  {
    exists a: nat :: Changes(w, a) && IsFlag(bitwise, a)
  }

  /** The words whose live bytes are needed, each once. */
  method LiveWords(ws: seq<Queued>, bitwise: seq<Range>) returns (words: seq<nat>)
    requires forall w <- ws :: Whole(w)
    ensures forall p :: p in words <==> exists w <- ws :: w.phys == p && NeedsLive(bitwise, w)
  {
    hide NeedsLive;
    words := [];
    for i := 0 to |ws|
      invariant forall p :: p in words <==> exists j :: 0 <= j < i && ws[j].phys == p && NeedsLive(bitwise, ws[j])
    {
      assert ws[i] in ws;
      var needs := Needs(ws[i], bitwise);
      if needs && ws[i].phys !in words { words := words + [ws[i].phys]; }
    }
  }

  method Needs(w: Queued, bitwise: seq<Range>) returns (needs: bool)
    requires Whole(w)
    ensures needs <==> NeedsLive(bitwise, w)
  {
    needs := false;
    for i := 0 to 4
      invariant needs <==> exists a: nat :: Changes(w, a) && a < w.phys + i && IsFlag(bitwise, a)
    {
      if Changes(w, w.phys + i) && IsFlag(bitwise, w.phys + i) { needs := true; }
    }
  }

  /** The live bytes there are, each as memory has it, all that are needed among them. */
  ghost predicate Live(live: map<nat, octet>, bitwise: seq<Range>, ws: seq<Queued>, mem: seq<octet>)
    requires forall w <- ws :: Whole(w)
  {
    && (forall a <- live :: a < |mem| && live[a] == mem[a])
    && forall w, a: nat :: w in ws && Changes(w, a) && IsFlag(bitwise, a) ==> a in live
  }

  method Gather(words: seq<nat>, data: seq<seq<octet>>, ghost mem: seq<octet>) returns (live: map<nat, octet>)
    requires |data| == |words| && forall i :: 0 <= i < |words| ==> words[i] + 4 <= |mem| && data[i] == mem[words[i]..words[i] + 4]
    ensures forall a <- live :: a < |mem| && live[a] == mem[a]
    ensures forall a, i :: 0 <= i < |words| && words[i] <= a < words[i] + 4 ==> a in live
  {
    live := map[];
    for i := 0 to |words|
      invariant forall a <- live :: a < |mem| && live[a] == mem[a]
      invariant forall a, j :: 0 <= j < i && words[j] <= a < words[j] + 4 ==> a in live
    {
      var p, d := words[i], data[i];
      assert forall k :: 0 <= k < 4 ==> d[k] == mem[p + k];
      live := live[p := d[0]][p + 1 := d[1]][p + 2 := d[2]][p + 3 := d[3]];
    }
  }

  /** The bytes to be put there, so far: what the writes so far make of each byte they change. */
  ghost predicate OutIs(out: map<nat, octet>, bitwise: seq<Range>, ws: seq<Queued>, mem: seq<octet>)
    requires forall w <- ws :: Whole(w)
  {
    && (forall a <- out :: a < |mem| && out[a] == AfterAll(bitwise, ws, a, mem[a]))
    && forall a: nat :: a in out <==> exists w <- ws :: Changes(w, a)
  }

  /** One byte of one write, over what is there already or the live byte. */
  function ByteOf(bitwise: seq<Range>, w: Queued, a: nat, out: map<nat, octet>, live: map<nat, octet>): (b: octet)
    requires Whole(w) && Changes(w, a)
  {
    var served, client := w.served[a - w.phys], w.client[a - w.phys];
    if IsFlag(bitwise, a) then Merge(if a in out then out[a] else if a in live then live[a] else served, served, client)
    else client
  }

  /** One write's bytes over those before. */
  method Add(out: map<nat, octet>, w: Queued, bitwise: seq<Range>, live: map<nat, octet>) returns (more: map<nat, octet>)
    requires Whole(w)
    ensures forall a: nat :: a in more <==> a in out || Changes(w, a)
    ensures forall a <- more :: more[a] == if Changes(w, a) then ByteOf(bitwise, w, a, out, live) else out[a]
  {
    hide IsFlag; hide Merge;
    more := out;
    for i := 0 to 4
      invariant forall a: nat :: a in more <==> a in out || (Changes(w, a) && a < w.phys + i)
      invariant forall a <- more :: more[a] == if Changes(w, a) && a < w.phys + i then ByteOf(bitwise, w, a, out, live) else out[a]
    {
      var a := w.phys + i;
      if w.client[i] != w.served[i] {
        var byte;
        if IsFlag(bitwise, a) {
          var now := if a in more then more[a] else if a in live then live[a] else w.served[i];
          byte := Merge(now, w.served[i], w.client[i]);
        } else {
          byte := w.client[i];
        }
        more := more[a := byte];
      }
    }
  }

  lemma OutMore(out: map<nat, octet>, bitwise: seq<Range>, ws: seq<Queued>, i: nat, mem: seq<octet>, live: map<nat, octet>, more: map<nat, octet>)
    requires i < |ws| && (forall w <- ws :: Whole(w) && w.phys + 4 <= |mem|) && Live(live, bitwise, ws, mem)
    requires (forall w <- ws[..i] :: w in ws) && OutIs(out, bitwise, ws[..i], mem)
    requires forall a: nat :: a in more <==> a in out || Changes(ws[i], a)
    requires forall a <- more :: more[a] == if Changes(ws[i], a) then ByteOf(bitwise, ws[i], a, out, live) else out[a]
    ensures (forall w <- ws[..i + 1] :: w in ws) && OutIs(more, bitwise, ws[..i + 1], mem)
  {
    var before, w := ws[..i], ws[i];
    assert ws[..i + 1] == before + [w] && ws[..i + 1][..i] == before && w in ws;
    hide IsFlag; hide Merge;
    forall a | a in more ensures a < |mem| && more[a] == AfterAll(bitwise, ws[..i + 1], a, mem[a]) {
      if a !in out { Untouched(bitwise, before, a, mem[a]); }
    }
    forall a: nat ensures a in more <==> exists v <- ws[..i + 1] :: Changes(v, a) {
      if a in out {
        var v :| v in before && Changes(v, a);
        assert v in ws[..i + 1];
      } else if Changes(w, a) {
        assert w in ws[..i + 1];
      }
    }
  }

  /**
   * Acknowledged with the link as it was, memory is that of the writes one by one. Whatever happens, at most one
   * request is put on a console, on the link the writes were made against, and it names no byte they do not change.
   */
  method Apply(cart: Cart, ws: seq<Queued>, bitwise: seq<Range>, readOn: nat) returns (r: Came)
    requires forall w <- ws :: Whole(w) && w.phys + 4 <= |cart.mem|
    requires readOn == cart.generation
    modifies cart
    ensures r.Fine? && cart.generation == readOn ==> cart.mem == Sequential(bitwise, ws, old(cart.mem))
    ensures |cart.written| <= |old(cart.written)| + 1 && old(cart.written) <= cart.written
    ensures forall k :: |old(cart.written)| <= k < |cart.written| ==>
      cart.written[k].on == readOn && forall a <- cart.written[k].out :: exists w <- ws :: Changes(w, a)
    ensures |cart.mem| == old(|cart.mem|) && cart.generation >= readOn && (r.Restarted? ==> cart.generation > readOn)
  {
    hide IsFlag; hide Merge; hide Live; hide OutIs; hide Sequential;
    ghost var mem := cart.mem;
    var words := LiveWords(ws, bitwise);
    var live: map<nat, octet> := map[];
    if words != [] {
      ghost var from;
      var ok, data;
      ok, data, from := cart.ReadMany(words, seq(|words|, i => 4));
      if !ok { return Failed; }
      if cart.generation != readOn { return Fine; }
      live := Gather(words, data, mem);
    }
    AllLive(words, live, bitwise, ws, mem);
    var out: map<nat, octet> := map[];
    NoneOut(bitwise, mem);
    assert ws[..0] == [];
    for i := 0 to |ws|
      invariant cart.mem == mem && cart.generation == readOn && cart.written == old(cart.written)
      invariant (forall w <- ws[..i] :: w in ws) && OutIs(out, bitwise, ws[..i], mem)
    {
      assert ws[i] in ws;
      var more := Add(out, ws[i], bitwise, live);
      OutMore(out, bitwise, ws, i, mem, live, more);
      out := more;
    }
    assert ws[..|ws|] == ws;
    OutDone(out, bitwise, ws, mem);
    if out == map[] { return Fine; }
    r := cart.WriteMany(out);
  }

  lemma AllLive(words: seq<nat>, live: map<nat, octet>, bitwise: seq<Range>, ws: seq<Queued>, mem: seq<octet>)
    requires forall w <- ws :: Whole(w)
    requires forall p :: p in words <==> exists w <- ws :: w.phys == p && NeedsLive(bitwise, w)
    requires forall a <- live :: a < |mem| && live[a] == mem[a]
    requires forall a, i :: 0 <= i < |words| && words[i] <= a < words[i] + 4 ==> a in live
    ensures Live(live, bitwise, ws, mem)
  {
    forall w, a: nat | w in ws && Changes(w, a) && IsFlag(bitwise, a) ensures a in live {
      assert NeedsLive(bitwise, w) && w.phys in words;
    }
  }

  lemma NoneOut(bitwise: seq<Range>, mem: seq<octet>)
    ensures OutIs(map[], bitwise, [], mem)
  {}

  /** The bytes put there, over memory, are memory after the writes one at a time. */
  lemma OutDone(out: map<nat, octet>, bitwise: seq<Range>, ws: seq<Queued>, mem: seq<octet>)
    requires (forall w <- ws :: Whole(w)) && OutIs(out, bitwise, ws, mem)
    ensures forall a <- out :: a < |mem|
    ensures forall a <- out :: exists w <- ws :: Changes(w, a)
    ensures Sequential(bitwise, ws, mem) == seq(|mem|, a requires 0 <= a < |mem| => if a in out then out[a] else mem[a])
  {
    forall a | 0 <= a < |mem| && a !in out ensures AfterAll(bitwise, ws, a, mem[a]) == mem[a] {
      Untouched(bitwise, ws, a, mem[a]);
    }
  }
}
