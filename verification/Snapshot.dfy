/**
 * What a client reads comes from here: windows cached from the cart, overlaid with writes the client made that
 * are still queued.
 */
module Snapshot {
  import opened Bytes
  import opened QueuedWrites

  const WINDOW: nat := 0x100

  function Base(phys: nat): (base: nat)
    ensures base <= phys < base + WINDOW && base % WINDOW == 0
  {
    phys / WINDOW * WINDOW
  }

  /** What the last of `ws` to the word at `phys` wrote there. */
  function LastTo(ws: seq<Queued>, phys: nat): (client: Option<seq<octet>>) {
    if ws == [] then None
    else
      var n := |ws| - 1;
      if ws[n].phys == phys then Some(ws[n].client) else LastTo(ws[..n], phys)
  }

  predicate WordAt(phys: nat, rdram: nat) {
    phys % 4 == 0 && phys + 4 <= rdram
  }

  function WindowLength(base: nat, rdram: nat): (len: nat)
    requires base <= rdram
  {
    Min(WINDOW, rdram - base)
  }

  /** The word at `phys`, in the window that holds it. */
  function WordIn(window: seq<octet>, base: nat, phys: nat): (w: seq<octet>)
    requires base <= phys && phys - base + 4 <= |window|
    ensures |w| == 4
  {
    window[phys - base..phys - base + 4]
  }

  /** A window with a word written over it. */
  function Over(window: seq<octet>, base: nat, w: Queued): (after: seq<octet>)
    requires Whole(w) && base <= w.phys && w.phys - base + 4 <= |window|
    ensures |after| == |window|
  {
    window[..w.phys - base] + w.client + window[w.phys - base + 4..]
  }

  /** Words at different aligned addresses do not overlap. */
  lemma OverWords(window: seq<octet>, base: nat, w: Queued, phys: nat)
    requires Whole(w) && base <= w.phys && w.phys - base + 4 <= |window| && base <= phys && phys - base + 4 <= |window|
    requires w.phys % 4 == 0 && phys % 4 == 0
    ensures WordIn(Over(window, base, w), base, phys) == if phys == w.phys then w.client else WordIn(window, base, phys)
  {
    assert phys < w.phys ==> phys + 4 <= w.phys;
    assert w.phys < phys ==> w.phys + 4 <= phys;
  }

  /** A window with every queued write to it written over, in order. */
  function Overlaid(window: seq<octet>, base: nat, ws: seq<Queued>, rdram: nat): (after: seq<octet>)
    requires base % WINDOW == 0 && base < rdram && |window| == WindowLength(base, rdram)
    requires forall w <- ws :: Whole(w) && WordAt(w.phys, rdram)
    ensures |after| == |window|
  {
    if ws == [] then window
    else
      var n := |ws| - 1;
      assert ws[n] in ws;
      var before := Overlaid(window, base, ws[..n], rdram);
      if Base(ws[n].phys) == base then InWindow(ws[n].phys, rdram); Over(before, base, ws[n]) else before
  }

  /** A word of memory is whole in its window. */
  lemma InWindow(phys: nat, rdram: nat)
    requires WordAt(phys, rdram)
    ensures Base(phys) < rdram && phys - Base(phys) + 4 <= WindowLength(Base(phys), rdram)
  {
    assert phys % WINDOW <= WINDOW - 4;
  }

  /** What is read back of an overlaid window: the last write to the word, if any, and what was there if none. */
  lemma {:induction false} OverlaidWord(window: seq<octet>, base: nat, ws: seq<Queued>, rdram: nat, phys: nat)
    requires base % WINDOW == 0 && base < rdram && |window| == WindowLength(base, rdram)
    requires (forall w <- ws :: Whole(w) && WordAt(w.phys, rdram)) && WordAt(phys, rdram) && Base(phys) == base
    ensures phys - base + 4 <= |window|
    ensures WordIn(Overlaid(window, base, ws, rdram), base, phys)
         == match LastTo(ws, phys) case Some(client) => client case None => WordIn(window, base, phys)
  {
    hide WordIn; hide Over; hide Base;
    InWindow(phys, rdram);
    if ws != [] {
      var n := |ws| - 1;
      assert ws[n] in ws && forall w <- ws[..n] :: w in ws;
      OverlaidWord(window, base, ws[..n], rdram, phys);
      if Base(ws[n].phys) == base {
        InWindow(ws[n].phys, rdram);
        OverWords(Overlaid(window, base, ws[..n], rdram), base, ws[n], phys);
      }
    }
  }

  // ---- what is answered ----

  predicate Sized(windows: map<nat, seq<octet>>, rdram: nat) {
    forall base <- windows :: base % WINDOW == 0 && base < rdram && |windows[base]| == WindowLength(base, rdram)
  }

  predicate Sound(ws: seq<Queued>, rdram: nat) {
    forall w <- ws :: Whole(w) && WordAt(w.phys, rdram)
  }

  /** A word that can be answered, and what is answered. */
  function Answer(windows: map<nat, seq<octet>>, rdram: nat, phys: nat): (word: Option<seq<octet>>)
    requires Sized(windows, rdram) && WordAt(phys, rdram)
  {
    InWindow(phys, rdram);
    if Base(phys) in windows then Some(WordIn(windows[Base(phys)], Base(phys), phys)) else None
  }

  /** Every word written and not yet put on the cart is answered as it was last written. */
  ghost predicate Coherent(windows: map<nat, seq<octet>>, ws: seq<Queued>, rdram: nat)
    requires Sized(windows, rdram)
  {
    forall phys: nat :: WordAt(phys, rdram) && Answer(windows, rdram, phys).Some? && LastTo(ws, phys).Some? ==>
      Answer(windows, rdram, phys) == LastTo(ws, phys)
  }

  lemma LastToMore(ws: seq<Queued>, w: Queued, phys: nat)
    ensures LastTo(ws + [w], phys) == if w.phys == phys then Some(w.client) else LastTo(ws, phys)
  {
    assert (ws + [w])[..|ws|] == ws;
  }

  lemma {:induction false} LastToRest(a: seq<Queued>, b: seq<Queued>, phys: nat)
    ensures LastTo(a + b, phys) == if LastTo(b, phys).Some? then LastTo(b, phys) else LastTo(a, phys)
  {
    if b == [] {
      assert a + b == a;
    } else {
      var n := |b| - 1;
      LastToRest(a, b[..n], phys);
      assert (a + b)[..|a| + n] == a + b[..n];
    }
  }

  /** The client's write, in its window and on the queue. */
  lemma CoherentWrite(windows: map<nat, seq<octet>>, ws: seq<Queued>, rdram: nat, w: Queued)
    requires Sized(windows, rdram) && Coherent(windows, ws, rdram) && Whole(w) && WordAt(w.phys, rdram)
    requires Base(w.phys) in windows
    ensures w.phys - Base(w.phys) + 4 <= |windows[Base(w.phys)]|
    ensures var after := windows[Base(w.phys) := Over(windows[Base(w.phys)], Base(w.phys), w)];
      Sized(after, rdram) && Coherent(after, ws + [w], rdram)
  {
    hide Base; hide WordIn; hide Over; hide LastTo;
    InWindow(w.phys, rdram);
    var base := Base(w.phys);
    var after := windows[base := Over(windows[base], base, w)];
    forall phys: nat | WordAt(phys, rdram) && Answer(after, rdram, phys).Some? && LastTo(ws + [w], phys).Some?
      ensures Answer(after, rdram, phys) == LastTo(ws + [w], phys)
    {
      InWindow(phys, rdram);
      LastToMore(ws, w, phys);
      if Base(phys) == base { OverWords(windows[base], base, w, phys); }
      assert Answer(windows, rdram, phys).Some?;
    }
  }

  /** A window as the cart has it, with the queue over it. */
  lemma CoherentFetch(windows: map<nat, seq<octet>>, ws: seq<Queued>, rdram: nat, base: nat, window: seq<octet>)
    requires Sized(windows, rdram) && Coherent(windows, ws, rdram) && Sound(ws, rdram)
    requires base % WINDOW == 0 && base < rdram && |window| == WindowLength(base, rdram)
    ensures var after := windows[base := Overlaid(window, base, ws, rdram)];
      Sized(after, rdram) && Coherent(after, ws, rdram)
  {
    hide Base; hide WordIn; hide Overlaid; hide LastTo;
    var after := windows[base := Overlaid(window, base, ws, rdram)];
    forall phys: nat | WordAt(phys, rdram) && Answer(after, rdram, phys).Some? && LastTo(ws, phys).Some?
      ensures Answer(after, rdram, phys) == LastTo(ws, phys)
    {
      InWindow(phys, rdram);
      if Base(phys) == base {
        OverlaidWord(window, base, ws, rdram, phys);
      } else {
        assert Answer(windows, rdram, phys) == Answer(after, rdram, phys);
      }
    }
  }

  /** Writes put on the cart no longer have to be answered from here. */
  lemma CoherentPut(windows: map<nat, seq<octet>>, taken: seq<Queued>, ws: seq<Queued>, rdram: nat)
    requires Sized(windows, rdram) && Coherent(windows, taken + ws, rdram)
    ensures Coherent(windows, ws, rdram)
  {
    hide LastTo; hide Answer;
    forall phys: nat | WordAt(phys, rdram) && Answer(windows, rdram, phys).Some? && LastTo(ws, phys).Some?
      ensures Answer(windows, rdram, phys) == LastTo(ws, phys)
    {
      LastToRest(taken, ws, phys);
    }
  }

  /**
   * What became of an acknowledged write: put on the cart over the link it was made on, dropped because that link
   * restarted, or lost to an error of any other kind. One dropped or lost may have landed first.
   */
  datatype Fate = Put | Dropped | Lost

  datatype Settled = Settled(w: Queued, fate: Fate)

  function WritesOf(settled: seq<Settled>): (ws: seq<Queued>) {
    seq(|settled|, i requires 0 <= i < |settled| => settled[i].w)
  }

  function AllAs(ws: seq<Queued>, fate: Fate): (settled: seq<Settled>)
    ensures WritesOf(settled) == ws
  {
    seq(|ws|, i requires 0 <= i < |ws| => Settled(ws[i], fate))
  }

  function FateOf(r: Came, moved: bool): (fate: Fate) {
    if moved then Dropped else if r.Fine? then Put else Lost
  }

  /** Since `before`, further writes have met a fate, every one of them by being dropped. */
  predicate OnlyDropped(before: seq<Settled>, after: seq<Settled>) {
    before <= after && forall k :: |before| <= k < |after| ==> after[k].fate.Dropped?
  }

  lemma DroppedMore(a: seq<Settled>, b: seq<Settled>, c: seq<Settled>)
    requires OnlyDropped(a, b) && OnlyDropped(b, c)
    ensures OnlyDropped(a, c)
  {}

  /** Since `before`, the writes `ws` have met one fate, and further ones at most that of being dropped. */
  predicate MetThen(before: seq<Settled>, ws: seq<Queued>, fate: Fate, after: seq<Settled>) {
    OnlyDropped(before + AllAs(ws, fate), after)
  }

  lemma OneMore(a: seq<Queued>, b: seq<Queued>, c: seq<Queued>, w: Queued)
    ensures a + (b + (c + [w])) == a + (b + c) + [w] && b + (c + [w]) == b + c + [w]
  {}

  lemma GrewBy(a: seq<Settled>, b: seq<Settled>)
    requires OnlyDropped(a, b)
    ensures a <= b
  {}

  lemma MetGrew(a: seq<Settled>, b: seq<Settled>, ws: seq<Queued>, fate: Fate, c: seq<Settled>)
    requires OnlyDropped(a, b) && MetThen(b, ws, fate, c)
    ensures a <= c && |c| >= |b| + |ws|
  {}

  /** What the fates of a pass are: those of the queue it took, and droppings. */
  lemma PassMet(a: seq<Settled>, b: seq<Settled>, ws: seq<Queued>, fate: Fate, c: seq<Settled>, d: seq<Settled>)
    requires OnlyDropped(a, b) && MetThen(b, ws, fate, c) && OnlyDropped(c, d)
    ensures a <= d && |d| >= |b| + |ws| && forall k :: |a| <= k < |d| ==> d[k].fate in {fate, Dropped}
    ensures a == b && c == d && |c| == |b| + |ws| ==> forall k :: |a| <= k < |d| ==> d[k].fate == fate
  {
    var mid := b + AllAs(ws, fate);
    forall k | |a| <= k < |d|
      ensures d[k].fate in {fate, Dropped} && (|b| <= k < |mid| ==> d[k].fate == fate)
    {
      if k < |b| { assert d[k] == b[k]; }
      else if k < |mid| { assert d[k] == mid[k] == AllAs(ws, fate)[k - |b|]; }
      else if k < |c| { assert d[k] == c[k]; }
    }
  }

  lemma WritesOfMore(settled: seq<Settled>, ws: seq<Queued>, fate: Fate)
    ensures WritesOf(settled + AllAs(ws, fate)) == WritesOf(settled) + ws
  {
    assert forall i :: 0 <= i < |ws| ==> AllAs(ws, fate)[i].w == ws[i];
  }

  // ---- windows read ----

  function Lengths(bases: seq<nat>, rdram: nat): (lens: seq<nat>)
    requires forall base <- bases :: base < rdram
  {
    seq(|bases|, i requires 0 <= i < |bases| => assert bases[i] in bases; WindowLength(bases[i], rdram))
  }

  /** Blocks for different windows, each as long as its window. */
  predicate BlocksOf(bases: seq<nat>, blocks: seq<seq<octet>>, rdram: nat) {
    && |blocks| == |bases| && (forall i, j :: 0 <= i < j < |bases| ==> bases[i] != bases[j])
    && forall i :: 0 <= i < |bases| ==> bases[i] % WINDOW == 0 && bases[i] < rdram && |blocks[i]| == WindowLength(bases[i], rdram)
  }

  lemma AreBlocks(bases: seq<nat>, blocks: seq<seq<octet>>, rdram: nat)
    requires (forall base <- bases :: base % WINDOW == 0 && base < rdram) && |blocks| == |bases|
    requires forall i, j :: 0 <= i < j < |bases| ==> bases[i] != bases[j]
    requires forall i :: 0 <= i < |bases| ==> |blocks[i]| == Lengths(bases, rdram)[i]
    ensures BlocksOf(bases, blocks, rdram)
  {
    hide WindowLength;
    forall i | 0 <= i < |bases| ensures bases[i] % WINDOW == 0 && bases[i] < rdram { assert bases[i] in bases; }
  }

  /** The first `n` blocks are their windows, under the writes. */
  predicate InOver(windows: map<nat, seq<octet>>, bases: seq<nat>, blocks: seq<seq<octet>>, ws: seq<Queued>, rdram: nat, n: nat)
    requires BlocksOf(bases, blocks, rdram) && Sound(ws, rdram) && n <= |bases|
  {
    forall i :: 0 <= i < n ==> bases[i] in windows && windows[bases[i]] == Overlaid(blocks[i], bases[i], ws, rdram)
  }

  lemma NoneOver(windows: map<nat, seq<octet>>, bases: seq<nat>, blocks: seq<seq<octet>>, ws: seq<Queued>, rdram: nat)
    requires BlocksOf(bases, blocks, rdram) && Sound(ws, rdram)
    ensures InOver(windows, bases, blocks, ws, rdram, 0)
  {}

  lemma InOverMore(windows: map<nat, seq<octet>>, bases: seq<nat>, blocks: seq<seq<octet>>, ws: seq<Queued>, rdram: nat, i: nat)
    requires BlocksOf(bases, blocks, rdram) && Sound(ws, rdram) && i < |bases| && InOver(windows, bases, blocks, ws, rdram, i)
    ensures InOver(windows[bases[i] := Overlaid(blocks[i], bases[i], ws, rdram)], bases, blocks, ws, rdram, i + 1)
  {
    hide Overlaid; hide Sound; hide WindowLength;
  }

  /** A word as the cart has it, under the writes that wait. */
  function CartWord(mem: seq<octet>, ws: seq<Queued>, phys: nat): (word: Option<seq<octet>>)
    requires phys + 4 <= |mem|
  {
    match LastTo(ws, phys) case Some(c) => Some(c) case None => Some(mem[phys..phys + 4])
  }

  lemma Answered(windows: map<nat, seq<octet>>, bases: seq<nat>, blocks: seq<seq<octet>>, ws: seq<Queued>, rdram: nat, i: nat,
                 mem: seq<octet>, phys: nat)
    requires Sized(windows, rdram) && BlocksOf(bases, blocks, rdram) && Sound(ws, rdram) && InOver(windows, bases, blocks, ws, rdram, |bases|)
    requires i < |bases| && WordAt(phys, rdram) && Base(phys) == bases[i] && |mem| == rdram
    requires blocks[i] == mem[bases[i]..bases[i] + |blocks[i]|]
    ensures Answer(windows, rdram, phys) == CartWord(mem, ws, phys)
  {
    var base := bases[i];
    assert base + |blocks[i]| <= |mem|;
    hide Overlaid; hide LastTo; hide Base; hide WindowLength; hide Sound; hide WordIn;
    InWindow(phys, rdram);
    AllSound(ws, rdram);
    assert windows[base] == Overlaid(blocks[i], base, ws, rdram) && |blocks[i]| == WindowLength(base, rdram);
    hide InOver; hide BlocksOf;
    OverlaidWord(blocks[i], base, ws, rdram, phys);
    SliceWord(mem, base, |blocks[i]|, phys);
  }

  lemma AllSound(ws: seq<Queued>, rdram: nat)
    requires Sound(ws, rdram)
    ensures forall w <- ws :: Whole(w) && WordAt(w.phys, rdram)
  {}

  lemma SliceWord(mem: seq<octet>, base: nat, len: nat, phys: nat)
    requires base <= phys && phys + 4 <= base + len <= |mem|
    ensures WordIn(mem[base..base + len], base, phys) == mem[phys..phys + 4]
  {
    var window, at := mem[base..base + len], phys - base;
    forall k | 0 <= k < 4 ensures WordIn(window, base, phys)[k] == mem[phys..phys + 4][k] {
      assert window[at + k] == mem[base + (at + k)];
    }
  }

  class Store {
    const rdram: nat
    var windows: map<nat, seq<octet>>
    var wanted: seq<nat>
    var writes: seq<Queued>
    /** The generation every window and queued write belongs to. */
    var generation: Option<nat>
    /** Writes taken from the queue and being put on the cart. */
    ghost var taken: seq<Queued>
    /** The link each window was read on, and each queued write made on. */
    ghost var readOn: map<nat, nat>
    ghost var madeOn: seq<nat>
    /** A window was taken in that was read on a link before the one followed. */
    ghost var mixed: bool
    /** Every write acknowledged, and what became of those no longer waiting. */
    ghost var made: seq<Queued>
    ghost var settled: seq<Settled>

    /** Every window and every queued write is of the link the snapshot follows. */
    ghost predicate OneLink()
      reads this`generation, this`readOn, this`madeOn
    {
      (forall base <- readOn :: generation == Some(readOn[base])) && (forall g <- madeOn :: generation == Some(g))
    }

    /** Each window and queued write has its link, one for all unless a window from before was taken in. */
    ghost predicate Linked()
      reads this`windows, this`writes, this`generation, this`readOn, this`madeOn, this`mixed
    {
      readOn.Keys == windows.Keys && |madeOn| == |writes| && (!mixed ==> OneLink())
    }

    /** Every acknowledged write, in order, has met one fate or waits. */
    ghost predicate Conserved()
      reads this`made, this`settled, this`taken, this`writes
    {
      made == WritesOf(settled) + (taken + writes)
    }

    ghost predicate Valid()
      reads this
    {
      && Sized(windows, rdram) && Sound(taken + writes, rdram) && Coherent(windows, taken + writes, rdram) && Linked() && Conserved()
      && forall base <- wanted :: base % WINDOW == 0 && base < rdram
    }

    constructor (rdram: nat)
      ensures Valid() && taken == [] && writes == [] && made == [] && !mixed && this.rdram == rdram
    {
      this.rdram := rdram;
      windows, wanted, writes, generation := map[], [], [], None;
      taken, readOn, madeOn, mixed, made, settled := [], map[], [], false, [], [];
    }

    /** Answer a read: from the window, or not at all if it has not been read yet. */
    method Read(phys: nat) returns (word: Option<seq<octet>>)
      requires Valid()
      modifies this`wanted
      ensures Valid()
      ensures word.Some? ==> WordAt(phys, rdram) && word == Answer(windows, rdram, phys)
      ensures word.Some? && LastTo(taken + writes, phys).Some? ==> word == LastTo(taken + writes, phys)
    {
      hide Base; hide LastTo; hide WordIn;
      if phys % 4 != 0 || phys + 4 > rdram { return None; }
      InWindow(phys, rdram);
      word := Answer(windows, rdram, phys);
      if word.None? && Base(phys) !in wanted { wanted := wanted + [Base(phys)]; }
    }

    /** Answer a write: acknowledged, in its window and on the queue, or refused as if never made. */
    method Write(phys: nat, client: seq<octet>) returns (acked: bool)
      requires Valid() && |client| == 4
      modifies this`windows, this`wanted, this`writes, this`madeOn, this`made
      ensures Valid() && windows.Keys == old(windows.Keys)
      ensures if acked then exists w: Queued :: w.phys == phys && w.client == client && writes == old(writes) + [w]
              else writes == old(writes) && windows == old(windows) && made == old(made)
      ensures old(made) <= made
      ensures acked ==> LastTo(taken + writes, phys) == Some(client) && WordAt(phys, rdram) && Answer(windows, rdram, phys) == Some(client)
    {
      hide Base; hide LastTo; hide WordIn; hide Over; hide Coherent; hide WindowLength; hide WritesOf;
      var served := Read(phys);
      if served.None? { return false; }
      Ack(Queued(phys, served.value, client));
      acked := true;
    }

    /** A write to a window that is there: in the window, and queued. */
    method Ack(w: Queued)
      requires Valid() && Whole(w) && WordAt(w.phys, rdram) && Base(w.phys) in windows
      modifies this`windows, this`writes, this`madeOn, this`made
      ensures Valid() && windows.Keys == old(windows.Keys) && writes == old(writes) + [w] && made == old(made) + [w]
      ensures LastTo(taken + writes, w.phys) == Some(w.client) && Answer(windows, rdram, w.phys) == Some(w.client)
    {
      hide Base; hide LastTo; hide WordIn; hide Over; hide Coherent; hide WindowLength; hide WritesOf;
      var base := Base(w.phys);
      CoherentWrite(windows, taken + writes, rdram, w);
      OneMore(WritesOf(settled), taken, writes, w);
      LastToMore(taken + writes, w, w.phys);
      OverWords(windows[base], base, w, w.phys);
      windows := windows[base := Over(windows[base], base, w)];
      writes, madeOn, made := writes + [w], madeOn + [readOn[base]], made + [w];
    }

    /** Adopts `now`. If another was known, windows and queue are emptied and every window is wanted. */
    method Follow(now: nat)
      requires Valid() && taken == []
      modifies this
      ensures Valid() && generation == Some(now) && taken == [] && made == old(made)
      ensures if old(generation) == None || old(generation) == Some(now)
              then windows == old(windows) && writes == old(writes) && mixed == old(mixed) && settled == old(settled)
              else windows == map[] && writes == [] && old(windows.Keys) <= (set base | base in wanted) && !mixed
                   && settled == old(settled) + AllAs(old(writes), Dropped)
      ensures OnlyDropped(old(settled), settled)
    {
      hide Coherent; hide Sound;
      var was := generation;
      generation := Some(now);
      if was.None? || was == Some(now) { return; }
      WantAll();
      StartOver();
    }

    /** Every window is wanted, as if it had never been read. */
    method WantAll()
      requires Sized(windows, rdram) && forall base <- wanted :: base % WINDOW == 0 && base < rdram
      modifies this`wanted
      ensures (forall base <- wanted :: base % WINDOW == 0 && base < rdram) && windows.Keys <= set base | base in wanted
    {
      var keys := windows.Keys;
      while keys != {}
        invariant keys <= windows.Keys && forall base <- windows.Keys :: base in keys || base in wanted
        invariant forall base <- wanted :: base % WINDOW == 0 && base < rdram
        decreases |keys|
      {
        var base :| base in keys;
        wanted := wanted + [base];
        keys := keys - {base};
      }
    }

    /** Nothing is kept, and every queued write is dropped. */
    method StartOver()
      requires taken == [] && Conserved() && forall base <- wanted :: base % WINDOW == 0 && base < rdram
      modifies this`windows, this`writes, this`readOn, this`madeOn, this`mixed, this`settled
      ensures Valid() && windows == map[] && writes == [] && !mixed && settled == old(settled) + AllAs(old(writes), Dropped)
    {
      WritesOfMore(settled, writes, Dropped);
      assert taken + writes == writes;
      settled, mixed := settled + AllAs(writes, Dropped), false;
      windows, writes, readOn, madeOn := map[], [], map[], [];
      assert WritesOf(settled) + (taken + writes) == WritesOf(settled);
    }

    /** Whatever the client asks meanwhile. */
    method Clients()
      requires Valid()
      modifies this`windows, this`wanted, this`writes, this`madeOn, this`made
      ensures Valid() && windows.Keys == old(windows.Keys) && old(writes) <= writes && old(made) <= made
    {
      hide Sized; hide QueuedWrites.Whole; hide Coherent; hide Sound; hide Linked; hide Conserved; hide LastTo; hide Answer; hide WordAt;
      var n: nat := *;
      while n > 0
        invariant Valid() && windows.Keys == old(windows.Keys) && old(writes) <= writes && old(made) <= made
      {
        var phys: nat, client: seq<octet>, asks := *, *, *;
        if asks {
          var word := Read(phys);
        } else if |client| == 4 {
          var acked := Write(phys, client);
        }
        n := n - 1;
      }
    }

    /** One window as it was read on link `from`, under the client's own writes. */
    method Insert(base: nat, window: seq<octet>, ghost from: nat)
      requires Valid() && generation.Some? && base % WINDOW == 0 && base < rdram && |window| == WindowLength(base, rdram)
      requires taken == []
      modifies this`windows, this`readOn, this`mixed
      ensures Valid() && windows.Keys == old(windows.Keys) + {base} && mixed == (old(mixed) || from != generation.value)
      ensures Sound(writes, rdram) && windows == old(windows)[base := Overlaid(window, base, writes, rdram)]
    {
      hide LastTo; hide Overlaid; hide Coherent; hide Base; hide Conserved; hide WindowLength;
      assert taken + writes == writes;
      CoherentFetch(windows, writes, rdram, base, window);
      var data := Overlay(base, window);
      windows := windows[base := data];
      readOn, mixed := readOn[base := from], mixed || from != generation.value;
    }

    /** A window with the queued writes to it copied over. */
    method Overlay(base: nat, window: seq<octet>) returns (data: seq<octet>)
      requires Sound(writes, rdram) && base % WINDOW == 0 && base < rdram && |window| == WindowLength(base, rdram)
      ensures data == Overlaid(window, base, writes, rdram)
    {
      hide Base; hide Over;
      data := window;
      for i := 0 to |writes|
        invariant (forall w <- writes[..i] :: w in writes) && data == Overlaid(window, base, writes[..i], rdram)
      {
        assert writes[..i + 1][..i] == writes[..i] && writes[i] in writes;
        var w := writes[i];
        if Base(w.phys) == base {
          InWindow(w.phys, rdram);
          data := Over(data, base, w);
        }
      }
      assert writes[..|writes|] == writes;
    }

    /** Takes in what was read, `from` which links it was. */
    method TakeIn(bases: seq<nat>, blocks: seq<seq<octet>>, ghost from: seq<nat>)
      requires Valid() && taken == [] && generation.Some? && |blocks| == |from| == |bases| && BlocksOf(bases, blocks, rdram)
      modifies this`windows, this`readOn, this`mixed
      ensures Valid() && windows.Keys == old(windows.Keys) + set base | base in bases
      ensures Sound(writes, rdram) && InOver(windows, bases, blocks, writes, rdram, |bases|)
      ensures mixed <==> old(mixed) || exists i :: 0 <= i < |bases| && from[i] != generation.value
    {
      hide Sized; hide Coherent; hide Linked; hide Conserved; hide Overlaid; hide Sound; hide WindowLength; hide InOver;
      Waiting();
      NoneOver(windows, bases, blocks, writes, rdram);
      for i := 0 to |bases|
        invariant Valid() && windows.Keys == old(windows.Keys) + set base | base in bases[..i]
        invariant Sound(writes, rdram) && InOver(windows, bases, blocks, writes, rdram, i)
        invariant mixed <==> old(mixed) || exists j :: 0 <= j < i && from[j] != generation.value
      {
        assert bases[..i + 1] == bases[..i] + [bases[i]] && bases[i] in bases;
        InOverMore(windows, bases, blocks, writes, rdram, i);
        Insert(bases[i], blocks[i], from[i]);
      }
      assert bases[..|bases|] == bases;
    }

    lemma Waiting()
      requires Valid()
      ensures Sound(writes, rdram)
    {
      assert forall w <- writes :: w in taken + writes;
    }

    /**
     * Reads windows from the cart, the client going on meanwhile; a restart is followed. What was read since the last
     * restart is answered as the cart has it, under the writes that wait. A window read before it is taken in all the
     * same, and then, and only then, the snapshot is `mixed`; in one request there is no such window.
     */
    method Fetch(cart: Cart, bases: seq<nat>) returns (ok: bool, ghost from: seq<nat>)
      requires Valid() && taken == [] && generation == Some(cart.generation) && |cart.mem| == rdram
      requires forall i, j :: 0 <= i < j < |bases| ==> bases[i] != bases[j]
      requires forall base <- bases :: base % WINDOW == 0 && base < rdram
      modifies this, cart
      ensures Valid() && taken == [] && |cart.mem| == rdram && cart.generation >= old(cart.generation)
      ensures ok ==> generation == Some(cart.generation) && |from| == |bases| && forall base <- bases :: base in windows
      ensures ok ==> forall i, phys :: 0 <= i < |bases| && from[i] == cart.generation && WordAt(phys, rdram) && Base(phys) == bases[i] ==>
        Sized(windows, rdram) && Answer(windows, rdram, phys) == CartWord(cart.mem, writes, phys)
      ensures ok ==> (mixed <==> (cart.generation == old(cart.generation) && old(mixed)) || exists i :: 0 <= i < |bases| && from[i] != cart.generation)
      ensures ok && OneRead(Lengths(bases, rdram)) ==> forall i :: 0 <= i < |bases| ==> from[i] == cart.generation
      ensures cart.generation == old(cart.generation) ==> settled == old(settled) && cart.mem == old(cart.mem) && old(writes) <= writes
      ensures OnlyDropped(old(settled), settled) && old(made) <= made && cart.written == old(cart.written)
    {
      hide Coherent; hide Sound; hide Linked; hide Conserved; hide Overlaid; hide Answer; hide CartWord; hide LastTo; hide InOver; hide OneRead; hide Base; hide WindowLength;
      from := [];
      if bases == [] { return true, from; }
      var blocks;
      ok, blocks, from := cart.ReadMany(bases, Lengths(bases, rdram));
      Clients();
      if !ok { return; }
      Follow(cart.generation);
      AreBlocks(bases, blocks, rdram);
      TakeIn(bases, blocks, from);
      hide Sized; hide BlocksOf;
      forall i, phys | 0 <= i < |bases| && from[i] == cart.generation && WordAt(phys, rdram) && Base(phys) == bases[i]
        ensures Answer(windows, rdram, phys) == CartWord(cart.mem, writes, phys)
      {
        Answered(windows, bases, blocks, writes, rdram, i, cart.mem, phys);
      }
    }

    /**
     * Takes the queue to put it on the cart, the client going on meanwhile. Each write taken has then met the fate that
     * `FateOf` says; put, memory is that of the writes one by one; and whatever is put went on the link followed before.
     */
    method PutQueue(cart: Cart, bitwise: seq<Range>) returns (r: Came)
      requires Valid() && taken == [] && generation == Some(cart.generation) && |cart.mem| == rdram
      modifies this, cart
      ensures Valid() && taken == [] && |cart.mem| == rdram && cart.generation >= old(cart.generation)
      ensures Sound(old(writes), rdram) && old(made) <= made
      ensures MetThen(old(settled), old(writes), FateOf(r, cart.generation != old(cart.generation)), settled)
      ensures cart.generation == old(cart.generation) ==> |settled| == |old(settled)| + |old(writes)| && !r.Restarted?
      ensures r.Fine? && cart.generation == old(cart.generation) ==>
        (forall w <- old(writes) :: Whole(w)) && cart.mem == Sequential(bitwise, old(writes), old(cart.mem))
      ensures old(cart.written) <= cart.written && |cart.written| <= |old(cart.written)| + 1
      ensures forall k :: |old(cart.written)| <= k < |cart.written| ==> cart.written[k].on == old(cart.generation)
      ensures !r.Failed? ==> generation == Some(cart.generation)
    {
      hide Sized; hide Coherent; hide Linked; hide Sequential; hide Conserved;
      var ws := writes;
      Drain();
      Clients();
      r := Apply(cart, ws, bitwise, generation.value);
      Clients();
      Settle(FateOf(r, cart.generation != generation.value));
      if !r.Failed? { Follow(cart.generation); }
    }

    /** Everything queued, taken from the queue. */
    method Drain()
      requires Valid() && taken == []
      modifies this`taken, this`writes, this`madeOn
      ensures Valid() && taken == old(writes) && writes == [] && Sound(taken, rdram)
    {
      hide Coherent;
      assert taken + writes == writes;
      taken, writes, madeOn := writes, [], [];
      assert taken + writes == taken;
    }

    /** The writes taken have met their fate. */
    ghost method Settle(fate: Fate)
      requires Valid()
      modifies this`taken, this`settled
      ensures Valid() && taken == [] && settled == old(settled) + AllAs(old(taken), fate)
    {
      hide LastTo; hide Answer;
      CoherentPut(windows, taken, writes, rdram);
      WritesOfMore(settled, taken, fate);
      assert WritesOf(settled) + (taken + writes) == WritesOf(settled) + taken + writes;
      assert forall w <- writes :: w in taken + writes;
      settled, taken := settled + AllAs(taken, fate), [];
      assert [] + writes == writes;
    }

    /** Drops every window when no client is left. */
    method Forget()
      requires Valid() && taken == []
      modifies this`windows, this`readOn
      ensures Valid() && windows == map[]
    {
      windows, readOn := map[], map[];
    }

    /** The windows there are, but for those just read. */
    method Others(first: seq<nat>) returns (rest: seq<nat>)
      requires Sized(windows, rdram)
      ensures forall base <- rest :: base % WINDOW == 0 && base < rdram
      ensures forall base :: base in rest <==> base in windows && base !in first
      ensures forall i, j :: 0 <= i < j < |rest| ==> rest[i] != rest[j]
    {
      var keys := windows.Keys;
      rest := [];
      while keys != {}
        invariant keys <= windows.Keys && (forall base <- rest :: base in windows)
        invariant forall base :: base in rest <==> base in windows && base !in first && base !in keys
        invariant forall i, j :: 0 <= i < j < |rest| ==> rest[i] != rest[j]
        decreases |keys|
      {
        var base :| base in keys;
        if base !in first { rest := rest + [base]; }
        keys := keys - {base};
      }
    }

    /**
     * One pass of whoever owns the cart: the windows just asked for, then the queue, then every other window. Done, with
     * no restart meanwhile, every write queued when it began has been put on the cart; a write is lost only in a pass
     * that fails.
     */
    method Refresh(cart: Cart, bitwise: seq<Range>) returns (ok: bool)
      requires Valid() && taken == [] && |cart.mem| == rdram
      modifies this, cart
      ensures Valid() && taken == [] && |cart.mem| == rdram
      ensures old(settled) <= settled && old(made) <= made
      ensures ok ==> generation == Some(cart.generation) && |settled| >= |old(settled)| + |old(writes)|
      ensures ok ==> forall k :: |old(settled)| <= k < |settled| ==>
        if cart.generation == old(cart.generation) && old(generation) in {None, Some(cart.generation)}
        then settled[k].fate.Put? else !settled[k].fate.Lost?
    {
      hide Sized; hide Coherent; hide Sound; hide Linked; hide Sequential; hide Conserved; hide OneRead; hide OnlyDropped; hide MetThen;
      hide BlocksOf; hide Answer; hide CartWord; hide AllAs;
      ghost var s0 := settled;
      Counted();
      var first;
      ok, first := FetchNew(cart);
      GrewBy(s0, settled);
      if !ok { return; }
      Clients();
      ghost var s2, ws, g2 := settled, writes, cart.generation;
      Counted();
      var r := PutQueue(cart, bitwise);
      ghost var s3, fate := settled, FateOf(r, cart.generation != g2);
      MetGrew(s0, s2, ws, fate, s3);
      if r.Failed? { return false; }
      Clients();
      ok := FetchRest(cart, first);
      PassMet(s0, s2, ws, fate, s3, settled);
    }

    /** Follows the link, and reads the windows just asked for. */
    method FetchNew(cart: Cart) returns (ok: bool, first: seq<nat>)
      requires Valid() && taken == [] && |cart.mem| == rdram
      modifies this, cart
      ensures Valid() && taken == [] && |cart.mem| == rdram && cart.generation >= old(cart.generation)
      ensures OnlyDropped(old(settled), settled) && old(made) <= made && (ok ==> generation == Some(cart.generation))
      ensures cart.generation == old(cart.generation) && old(generation) in {None, Some(cart.generation)} ==> settled == old(settled)
    {
      hide Sized; hide Coherent; hide Sound; hide Linked; hide Conserved; hide OneRead; hide OnlyDropped;
      hide BlocksOf; hide Answer; hide CartWord; hide AllAs;
      ghost var s0 := settled;
      Follow(cart.generation);
      ghost var s1 := settled;
      var gone := *;
      if gone { Forget(); }
      first := Asked();
      wanted := [];
      Clients();
      ghost var from;
      ok, from := Fetch(cart, first);
      DroppedMore(s0, s1, settled);
    }

    method FetchRest(cart: Cart, first: seq<nat>) returns (ok: bool)
      requires Valid() && taken == [] && |cart.mem| == rdram && generation == Some(cart.generation)
      modifies this, cart
      ensures Valid() && taken == [] && |cart.mem| == rdram && cart.generation >= old(cart.generation)
      ensures OnlyDropped(old(settled), settled) && old(made) <= made && (ok ==> generation == Some(cart.generation))
      ensures cart.generation == old(cart.generation) ==> settled == old(settled)
    {
      hide Coherent; hide Sound; hide Linked; hide Conserved; hide OneRead; hide OnlyDropped;
      hide BlocksOf; hide Answer; hide CartWord; hide AllAs;
      var rest := Others(first);
      hide Sized;
      ghost var from;
      ok, from := Fetch(cart, rest);
    }

    lemma Counted()
      requires Valid() && taken == []
      ensures |made| == |settled| + |writes|
    {}

    /** The windows asked for that are not there, each once. */
    method Asked() returns (first: seq<nat>)
      requires forall base <- wanted :: base % WINDOW == 0 && base < rdram
      ensures forall base <- first :: base % WINDOW == 0 && base < rdram
      ensures forall base :: base in first <==> base in wanted && base !in windows
      ensures forall i, j :: 0 <= i < j < |first| ==> first[i] != first[j]
    {
      first := [];
      for i := 0 to |wanted|
        invariant forall base <- first :: base % WINDOW == 0 && base < rdram
        invariant forall base :: base in first <==> base in wanted[..i] && base !in windows
        invariant forall j, k :: 0 <= j < k < |first| ==> first[j] != first[k]
      {
        assert wanted[i] in wanted && wanted[..i + 1] == wanted[..i] + [wanted[i]];
        if wanted[i] !in windows && wanted[i] !in first { first := first + [wanted[i]]; }
      }
      assert wanted[..|wanted|] == wanted;
    }
  }
}
