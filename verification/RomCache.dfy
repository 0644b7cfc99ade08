/** The ROM a host has read, kept in pages, and whether it is all of one image when the console is reset. */
module RomCache {
  import opened Bytes
  import opened M64p
  import opened Batching
  import Multi64
  import Link
  import MemProto
  import M64pRoundTrip

  const PAGE: nat := 1024
  /** The cartridge header, which tells one image from another. */
  const HEADER: nat := 0x40

  datatype Cache = Cache(pages: map<nat, seq<byte>>, missed: bool, generation: nat)

  function PageOf(rom: seq<byte>, p: nat): (b: seq<byte>)
    requires (p + 1) * PAGE <= |rom|
  {
    rom[p * PAGE..(p + 1) * PAGE]
  }

  /** Every page is the image's. */
  ghost predicate AllOf(pages: map<nat, seq<byte>>, rom: seq<byte>) {
    forall p <- pages :: (p + 1) * PAGE <= |rom| && pages[p] == PageOf(rom, p)
  }

  // ---- looking again after a silence ----

  /** What asking for the header comes to: the one known, another, or no answer that tells. */
  datatype Look = Same | Other | Unknown

  /** What an answer leaves of the cache: looked at again after a silence, if its header is in it. */
  function Answered(c: Cache, look: Look): (after: Cache) {
    if !c.missed then c
    else if 0 !in c.pages then c.(missed := false)
    else match look
      case Same => c.(missed := false)
      case Other => Cache(map[], false, c.generation + 1)
      case Unknown => c
  }

  /** `look` is what a console holding `rom` can give, asked for the header of the cache. */
  ghost predicate CanLook(c: Cache, rom: seq<byte>, look: Look) {
    0 in c.pages && look == Same ==> HEADER <= |rom| && HEADER <= |c.pages[0]| && c.pages[0][..HEADER] == rom[..HEADER]
  }

  /** An answer is checked: no silence came before it, nothing is cached, or the header is and was looked at. */
  predicate Checked(c: Cache, look: Look) {
    c.missed && c.pages != map[] ==> 0 in c.pages && look != Unknown
  }

  /** Images of one size that their headers tell apart. */
  ghost predicate Shelf(images: set<seq<byte>>, size: nat) {
    && PAGE <= size <= 0xFFFF_FFFF && size % PAGE == 0
    && (forall a <- images :: |a| == size)
    && forall a <- images, b <- images :: a[..HEADER] == b[..HEADER] ==> a == b
  }

  /**
   * A page of the image now in the console, answered after a silence, is kept with pages of that image and
   * no other exactly when they already are, or the header is among them and the look at it was answered.
   */
  lemma OneImageIff(images: set<seq<byte>>, size: nat, c: Cache, was: seq<byte>, now: seq<byte>, look: Look, p: nat)
    requires Shelf(images, size) && was in images && now in images && (p + 1) * PAGE <= size && p !in c.pages
    requires c.missed && AllOf(c.pages, was) && CanLook(c, now, look)
    ensures AllOf(Answered(c, look).pages[p := PageOf(now, p)], now) <==> AllOf(c.pages, now) || (0 in c.pages && look != Unknown)
  {
    var kept := Answered(c, look).pages;
    var after := kept[p := PageOf(now, p)];
    assert forall q <- kept :: q in after && after[q] == kept[q];
    if 0 in c.pages { assert c.pages[0] == PageOf(was, 0) && PageOf(was, 0)[..HEADER] == was[..HEADER]; }
  }

  /** What happens to a cache: a silence, after which the console may hold another image, or a page read that was not there. */
  datatype Turn = Silence(rom: seq<byte>) | Page(p: nat, look: Look)

  /** A cache and the image in the console. */
  datatype Sight = Sight(c: Cache, rom: seq<byte>)

  function Next(s: Sight, t: Turn, size: nat): (after: Sight)
    requires |s.rom| == size && (t.Page? ==> (t.p + 1) * PAGE <= size)
  {
    match t
    case Silence(rom) => Sight(s.c.(missed := true), rom)
    case Page(p, look) =>
      var kept := Answered(s.c, look);
      Sight(kept.(pages := kept.pages[p := PageOf(s.rom, p)]), s.rom)
  }

  /** A turn that can come, its answer checked. */
  ghost predicate CheckedTurn(s: Sight, t: Turn, images: set<seq<byte>>, size: nat) {
    match t
    case Silence(rom) => rom in images
    case Page(p, look) => (p + 1) * PAGE <= size && p !in s.c.pages && (s.c.missed ==> CanLook(s.c, s.rom, look)) && Checked(s.c, look)
  }

  ghost predicate CheckedTurns(s: Sight, ts: seq<Turn>, images: set<seq<byte>>, size: nat)
    requires Shelf(images, size) && s.rom in images
    decreases |ts|
  {
    ts != [] ==> CheckedTurn(s, ts[0], images, size) && CheckedTurns(Next(s, ts[0], size), ts[1..], images, size)
  }

  function Sights(s: Sight, ts: seq<Turn>, images: set<seq<byte>>, size: nat): (after: Sight)
    requires Shelf(images, size) && s.rom in images && CheckedTurns(s, ts, images, size)
    decreases |ts|
  {
    if ts == [] then s else Sights(Next(s, ts[0], size), ts[1..], images, size)
  }

  /** All the pages are of one image: the console's, unless a silence since hides which that is. */
  ghost predicate OneImage(s: Sight, images: set<seq<byte>>) {
    AllOf(s.c.pages, s.rom) || (s.c.missed && exists was <- images :: AllOf(s.c.pages, was))
  }

  /** However often the console is reset, and into what, while every answer is checked the pages are all of one image. */
  lemma {:induction false} RunsOfOneImage(s: Sight, ts: seq<Turn>, images: set<seq<byte>>, size: nat)
    requires Shelf(images, size) && s.rom in images && OneImage(s, images) && CheckedTurns(s, ts, images, size)
    ensures OneImage(Sights(s, ts, images, size), images)
    decreases |ts|
  {
    hide PageOf;
    if ts != [] {
      TurnKeeps(s, ts[0], images, size);
      RunsOfOneImage(Next(s, ts[0], size), ts[1..], images, size);
    }
  }

  lemma TurnKeeps(s: Sight, t: Turn, images: set<seq<byte>>, size: nat)
    requires Shelf(images, size) && s.rom in images && OneImage(s, images) && CheckedTurn(s, t, images, size)
    ensures Next(s, t, size).rom in images && OneImage(Next(s, t, size), images)
  {
    match t {
      case Silence(_) =>
      case Page(p, look) =>
        if s.c.missed && s.c.pages != map[] {
          var was := if AllOf(s.c.pages, s.rom) then s.rom else var w :| w in images && AllOf(s.c.pages, w); w;
          OneImageIff(images, size, s.c, was, s.rom, look, p);
        }
    }
  }

  /** Unchecked, they need not be: a page of one image, not the header's, and after a silence a page of another. */
  lemma TwoImages(a: seq<byte>, b: seq<byte>, size: nat, p: nat, q: nat)
    requires Shelf({a, b}, size) && 0 < p && 0 < q && p != q && (p + 1) * PAGE <= size && (q + 1) * PAGE <= size
    requires PageOf(a, p) != PageOf(b, p) && PageOf(a, q) != PageOf(b, q)
    ensures var first := Next(Sight(Cache(map[], false, 0), a), Page(p, Unknown), size);
      var last := Next(Next(first, Silence(b), size), Page(q, Unknown), size);
      CanLook(first.c.(missed := true), b, Unknown) && !last.c.missed && !AllOf(last.c.pages, a) && !AllOf(last.c.pages, b)
  {
    hide PageOf;
    var last := map[p := PageOf(a, p)][q := PageOf(b, q)];
    assert last[p] == PageOf(a, p) && last[q] == PageOf(b, q);
  }

  // ---- the console ----

  datatype Reply = Blocks(blocks: seq<seq<byte>>) | Refused | Busy | Silent | Broken

  /** The agent serves the image, or, an older one, no reads of it. */
  ghost predicate Serves(w: Link.Wire, image: seq<byte>) {
    w.agent.rom == image || w.agent.rom == []
  }

  /** A console that may be reset, into another image, under any request, and the host's link to it. */
  class Console {
    const host: Multi64.Host
    var rom: seq<byte>
    /** Whether the agent greeted when the link was made serves reads of the ROM. */
    var offered: bool
    const size: uint32
    const images: set<seq<byte>>
    /** Whether a reset costs the request it falls in its answer. */
    const noticed: bool
    /** How many requests went under a rid that something still on the link was under. */
    ghost var reused: nat

    ghost predicate Valid()
      reads this, host, host.link
    {
      Shelf(images, size) && rom in images && host.Valid() && Serves(host.link.w, rom)
    }

    constructor (host: Multi64.Host, images: set<seq<byte>>, noticed: bool)
      requires host.Valid() && Shelf(images, |host.link.w.agent.rom|) && host.link.w.agent.rom in images
      ensures Valid() && this.host == host && rom == host.link.w.agent.rom && this.size == |rom| && this.images == images
      ensures this.noticed == noticed
    {
      this.host, this.images, this.noticed, reused := host, images, noticed, 0;
      rom, offered, size := host.link.w.agent.rom, true, |host.link.w.agent.rom|;
    }

    /** Whatever is on its way meets the new image's agent. */
    method Reset()
      requires Valid()
      modifies this`rom, host.link
      ensures Valid() && forall rid :: Multi64.Quiet(old(host.link.w), rid) ==> Multi64.Quiet(host.link.w, rid)
    {
      hide MemProto.Sane; hide Link.Truthful; hide Multi64.MsgRid; hide Multi64.ReplyRid;
      var next :| next in images;
      var st: MemProto.State := *;
      var still: bool := *;
      if MemProto.Sane(st) && st.hold == None && (st.rom == next || st.rom == []) {
        rom := next;
        host.link.w := host.link.w.(agent := st, still := still);
      }
    }

    /** A new link, and what its agent says it serves. */
    method Greet()
      requires Valid()
      modifies this`offered, host.link, host`outstanding, host`nextRid
      ensures Valid() && Multi64.Unused(host.link.w, [], host.nextRid)
    {
      host.Renew();
      offered := host.link.w.agent.rom != [];
    }

    /** One read of the ROM: what it holds when the read is answered, or no answer. */
    method PeekRom(batch: seq<Region>) returns (r: Reply)
      requires Valid() && M64pRoundTrip.Askable(batch, size) && batch != []
      modifies this`rom, this`reused, host.link, host`outstanding, host`nextRid
      ensures Valid() && reused >= old(reused) && (noticed && !r.Silent? ==> rom == old(rom))
      ensures r.Blocks? ==> Multi64.LongAs(batch, r.blocks) && (reused == old(reused) ==> AreIn(rom, batch, r.blocks))
      ensures Multi64.Unused(old(host.link.w), [], old(host.nextRid)) ==> reused == old(reused)
    {
      hide Multi64.Quiet; hide Link.Sound; hide Link.Runs; hide Shelf; hide AreIn; hide Slices; hide Multi64.RomAnswer;
      if !offered { return Broken; }
      var reset: bool := *;
      if reset && !noticed { Reset(); }
      ghost var a, rid := host.link.w, host.nextRid;
      Multi64.Begin(a);
      AskedIn(images, size, rom, batch);
      ghost var copies;
      var o, blocks;
      o, blocks, copies := host.PeekRom(batch, a, []);
      Link.SameCartridge(a, [] + copies, host.link.w);
      if Multi64.Unused(a, [], rid) { Answers(a.agent.rom, rom, batch, o, blocks); }
      if !Multi64.Unused(a, [], rid) { reused := reused + 1; }
      if reset && noticed {
        Reset();
        return Silent;
      }
      match o
      case Done => r := Blocks(blocks);
      case Denied(_) => r := Refused;
      case BusyBus => r := Busy;
      case TimedOut => r := Silent;
      case _ => r := Broken;
    }
  }

  /** The blocks are what the image holds in each region. */
  ghost predicate AreIn(rom: seq<byte>, batch: seq<Region>, blocks: seq<seq<byte>>) {
    |blocks| == |batch| && forall i :: 0 <= i < |batch| ==>
      batch[i].addr as int + batch[i].len as int <= |rom| && blocks[i] == rom[batch[i].addr..batch[i].addr as int + batch[i].len as int]
  }

  lemma AskedIn(images: set<seq<byte>>, size: nat, rom: seq<byte>, batch: seq<Region>)
    requires Shelf(images, size) && rom in images && M64pRoundTrip.Askable(batch, size)
    ensures Limits(RegionLengths(batch)).None? && |rom| == size && rom != [] && |rom| <= 0xFFFF_FFFF
  {}

  /** What the agent answers is the image's. */
  lemma Answers(served: seq<byte>, rom: seq<byte>, batch: seq<Region>, o: Multi64.Outcome, blocks: seq<seq<byte>>)
    requires served == rom || served == []
    requires |rom| <= 0xFFFF_FFFF && rom != [] && M64pRoundTrip.Askable(batch, |rom|) && Multi64.RomAnswer(served, batch, o, blocks)
    ensures o.Done? ==> AreIn(rom, batch, blocks)
  {
    hide M64pRoundTrip.Askable; hide RegionIn;
    if o.Done? {
      forall i | 0 <= i < |batch|
        ensures batch[i].addr as int + batch[i].len as int <= |rom|
             && blocks[i] == rom[batch[i].addr..batch[i].addr as int + batch[i].len as int]
      {
        assert batch[i] in batch;
        RegionIs(batch[i], |rom|);
      }
    }
  }

  lemma RegionIs(r: Region, size: uint32)
    requires RegionIn(r, size)
    ensures r.addr as int + r.len as int <= size as int
  {}

  // ---- the cache ----

  /** The header known: that of the first page, once it is cached. */
  function Known(pages: map<nat, seq<byte>>): (header: Option<seq<byte>>) {
    if 0 in pages && |pages[0]| >= HEADER then Some(pages[0][..HEADER]) else None
  }

  /** How many answers have gone unchecked, and how many requests under a rid still in use. */
  datatype Faults = Faults(unchecked: nat, reused: nat)

  class Pages {
    const console: Console
    const softRetries: nat
    var pages: map<nat, seq<byte>>
    var missed: bool
    var generation: nat
    /** The image the pages were last read from, and how many answers went unchecked. */
    ghost var source: seq<byte>
    ghost var unchecked: nat

    ghost predicate Valid()
      reads this, console, console.host, console.host.link
    {
      && console.Valid() && softRetries >= 1 && source in console.images && console.host.known == Known(pages)
      && forall p <- pages :: (p + 1) * PAGE <= console.size && |pages[p]| == PAGE
    }

    function View(): (c: Cache)
      reads this
    {
      Cache(pages, missed, generation)
    }

    ghost function Seen(): (f: Faults)
      reads this, console
    {
      Faults(unchecked, console.reused)
    }

    /** Every page is of one image, and of the console's unless a silence since may hide a reset. */
    ghost predicate Coherent()
      reads this, console
    {
      AllOf(pages, source) && (pages != map[] && !missed ==> source == console.rom)
    }

    /** The console has only one image to be reset into. */
    ghost predicate Fixed()
      reads this, console
    {
      forall image <- console.images :: image == console.rom
    }

    /**
     * Since `before` no rid was used again while still in use; and no answer has gone unchecked, where a reset is always
     * noticed, or there is nothing to reset into.
     */
    ghost predicate Trusted(before: Faults)
      reads this, console
    {
      console.reused == before.reused && (Fixed() || (console.noticed && unchecked == before.unchecked))
    }

    /** Nothing is forgotten of what went wrong. */
    ghost predicate Later(before: Faults)
      reads this, console
    {
      unchecked >= before.unchecked && console.reused >= before.reused
    }

    constructor (console: Console, softRetries: nat)
      requires console.Valid() && softRetries >= 1 && console.host.known == None
      ensures Valid() && Coherent() && this.console == console && pages == map[] && !missed
    {
      this.console, this.softRetries := console, softRetries;
      pages, missed, generation, source, unchecked := map[], false, 0, console.rom, 0;
    }

    /** Nothing read so far is kept. */
    method Forget()
      requires Valid()
      modifies this`pages, this`missed, this`generation, console.host`known
      ensures Valid() && View() == Cache(map[], false, old(generation) + 1)
    {
      pages, missed, generation := map[], false, generation + 1;
      console.host.known := None;
    }

    /** Reads the header once more and compares it with the one the pages go with. */
    method SameRom(known: seq<byte>) returns (look: Look)
      requires console.Valid()
      modifies console, console.host.link, console.host`outstanding, console.host`nextRid
      ensures console.Valid() && console.reused >= old(console.reused)
      ensures console.noticed && look != Unknown ==> console.rom == old(console.rom)
      ensures look == Same && console.reused == old(console.reused) ==> HEADER <= |console.rom| && known == console.rom[..HEADER]
    {
      hide Shelf;
      HeaderAskable(console.images, console.size);
      var r := console.PeekRom([Region(0, HEADER)]);
      match r
      case Blocks(blocks) => look := if blocks[0] == known then Same else Other;
      case Refused => look := Other;
      case _ => look := Unknown;
    }

    /** The cart answered: after a silence, look at whether it still holds the ROM the pages are of. */
    method Answering() returns (ghost look: Look)
      requires Valid()
      modifies this`pages, this`missed, this`generation, this`unchecked, console, console.host, console.host.link
      ensures Valid() && View() == Answered(old(View()), look) && Later(old(Seen()))
      ensures console.reused == old(console.reused) ==> CanLook(old(View()), console.rom, look)
      ensures (pages == old(pages) && generation == old(generation)) || (pages == map[] && generation > old(generation))
      ensures console.rom == old(console.rom) || !console.noticed || look == Unknown
      ensures unchecked == old(unchecked) + if Checked(old(View()), look) then 0 else 1
      ensures Trusted(old(Seen())) && old(Coherent()) ==>
        Coherent() && console.rom == old(console.rom) && (pages == map[] || source == console.rom)
    {
      hide Shelf; hide Serves; hide Known;
      look := Unknown;
      ghost var c := View();
      if missed {
        if 0 in pages {
          look := Recheck();
        } else {
          missed := false;
        }
      }
      if !Checked(c, look) { unchecked := unchecked + 1; }
      if AllOf(c.pages, source) && CanLook(c, console.rom, look) && Checked(c, look) {
        StillOf(console.images, console.size, c, source, console.rom, look);
      }
    }

    /** With the header cached, look whether it is still the ROM's, and give up the pages if not. */
    method Recheck() returns (ghost look: Look)
      requires Valid() && missed && 0 in pages
      modifies this`pages, this`missed, this`generation, console, console.host, console.host.link
      ensures Valid() && View() == Answered(old(View()), look) && console.reused >= old(console.reused)
      ensures console.reused == old(console.reused) ==> CanLook(old(View()), console.rom, look)
      ensures console.rom == old(console.rom) || !console.noticed || look == Unknown
    {
      hide Serves; hide Multi64.Unused; hide Known; hide Shelf;
      var found := SameRom(pages[0][..HEADER]);
      look := found;
      match found
      case Same => missed := false;
      case Other =>
        var greeted: bool := *;
        if greeted { console.Greet(); }
        Forget();
      case Unknown =>
    }

    /** One batch of pages, asked again while it goes unanswered, on a rebuilt link in the end. */
    method ReadBatch(batch: seq<Region>) returns (ok: bool, blocks: seq<seq<byte>>, ghost from: seq<byte>)
      requires Valid() && M64pRoundTrip.Askable(batch, console.size) && batch != []
      modifies this`pages, this`missed, this`generation, this`unchecked, console, console.host, console.host.link
      ensures Valid() && Later(old(Seen()))
      ensures ok ==> from in console.images && Multi64.LongAs(batch, blocks)
      ensures ok && console.reused == old(console.reused) ==> AreIn(from, batch, blocks)
      ensures (pages == old(pages) && generation == old(generation)) || (pages == map[] && generation > old(generation))
      ensures Trusted(old(Seen())) && old(Coherent()) ==>
        Coherent() && (ok ==> console.rom == from && (pages == map[] || source == from))
    {
      hide AreIn; hide AllOf; hide Answered; hide Checked; hide CanLook; hide Known; hide M64pRoundTrip.Askable; hide Multi64.LongAs;
      ok, blocks, from := false, [], source;
      var timeouts := 0;
      var patience: nat := *;
      while patience > 0
        invariant Valid() && pages == old(pages) && generation == old(generation) && unchecked == old(unchecked)
        invariant console.reused >= old(console.reused)
        invariant (Trusted(old(Seen())) && old(Coherent()) ==> Coherent()) && (timeouts > 0 ==> missed)
      {
        patience := patience - 1;
        var r := console.PeekRom(batch);
        match r
        case Blocks(got) =>
          from := console.rom;
          ghost var look := Answering();
          return true, got, from;
        case Refused =>
          ghost var look := Answering();
          return;
        case Busy =>
        case Silent =>
          if timeouts >= softRetries { break; }
          timeouts, missed := timeouts + 1, true;
        case Broken => break;
      }
      ok, blocks, from := ReadRebuilt(batch);
    }

    /** On a rebuilt link: nothing read on the old one is kept. */
    method ReadRebuilt(batch: seq<Region>) returns (ok: bool, blocks: seq<seq<byte>>, ghost from: seq<byte>)
      requires Valid() && M64pRoundTrip.Askable(batch, console.size) && batch != []
      modifies this`pages, this`missed, this`generation, console, console.host, console.host.link
      ensures Valid() && unchecked == old(unchecked) && console.reused == old(console.reused)
      ensures ok ==> from in console.images && Multi64.LongAs(batch, blocks) && AreIn(from, batch, blocks)
      ensures ok ==> console.rom == from && !missed && pages == map[]
      ensures (pages == old(pages) && generation == old(generation) && !ok) || (pages == map[] && generation > old(generation))
      ensures pages == map[] ==> Coherent()
      ensures pages != map[] ==> console.rom == old(console.rom) && missed == old(missed)
    {
      hide AreIn; hide M64pRoundTrip.Askable; hide Multi64.LongAs; hide Multi64.Unused; hide Known;
      ok, blocks, from := false, [], source;
      var patience: nat := *;
      while patience > 0
        invariant Valid() && unchecked == old(unchecked) && console.reused == old(console.reused)
        invariant (pages == old(pages) && generation == old(generation)) || (pages == map[] && generation > old(generation))
        invariant pages != map[] ==> console.rom == old(console.rom) && missed == old(missed)
      {
        patience := patience - 1;
        var connected: bool := *;
        if connected {
          Forget();
          console.Reset();
          console.Greet();
          var r := console.PeekRom(batch);
          match r
          case Blocks(got) => return true, got, console.rom;
          case Refused => return;
          case _ =>
        }
      }
    }

    /** Keep the pages of a batch, read from one image. */
    method Keep(batch: seq<Region>, blocks: seq<seq<byte>>, ghost from: seq<byte>)
      requires Valid() && (forall g <- batch :: IsPage(g, console.size)) && Multi64.LongAs(batch, blocks) && from in console.images
      modifies this`pages, this`source, console.host`known
      ensures Valid() && source == from && (forall p <- old(pages) :: p in pages) && (forall g <- batch :: g.addr / PAGE in pages)
      ensures AllOf(old(pages), from) && AreIn(from, batch, blocks) ==> AllOf(pages, from)
    {
      hide AllOf; hide Shelf; hide AreIn;
      source := from;
      SizeOf(console.images, console.size, from);
      for j := 0 to |batch|
        invariant Valid() && source == from && (forall p <- old(pages) :: p in pages) && (forall g <- batch[..j] :: g.addr / PAGE in pages)
        invariant AllOf(old(pages), from) && AreIn(from, batch, blocks) ==> AllOf(pages, from)
      {
        var g := batch[j];
        assert g in batch;
        if AllOf(pages, from) && AreIn(from, batch, blocks) { KeepOne(pages, from, batch, blocks, j); }
        pages := pages[g.addr / PAGE := blocks[j]];
        console.host.known := Known(pages);
      }
      assert batch[..|batch|] == batch;
    }

    /** Batches of reads for whatever of `pages` is not cached yet. */
    method Fill(asked: seq<nat>) returns (ok: bool)
      requires Valid() && forall p <- asked :: (p + 1) * PAGE <= console.size
      modifies this, console, console.host, console.host.link
      ensures Valid() && Later(old(Seen())) && generation >= old(generation)
      ensures ok && generation == old(generation) ==> forall p <- asked :: p in pages
      ensures Trusted(old(Seen())) && old(Coherent()) ==> Coherent()
    {
      hide AreIn; hide AllOf; hide Packed; hide M64pRoundTrip.Askable; hide Multi64.LongAs; hide Known; hide Shelf; hide Serves;
      var missing := Missing(asked);
      var all := Batches(missing);
      ok := true;
      for i := 0 to |all|
        invariant Valid() && Later(old(Seen())) && generation >= old(generation)
        invariant generation == old(generation) ==>
          (forall p <- old(pages) :: p in pages) && forall g: Region <- Concat(all[..i]) :: g.addr / PAGE in pages
        invariant Trusted(old(Seen())) && old(Coherent()) ==> Coherent()
      {
        PartOf(all, i, console.size);
        var blocks;
        ghost var from, fixed := source, Fixed();
        ok, blocks, from := ReadBatch(all[i]);
        assert Fixed() ==> fixed;
        if !ok { return; }
        assert AllOf(map[], from) by { NoPages(from); }
        Keep(all[i], blocks, from);
      }
      assert all[..|all|] == all;
    }

    /** Each page asked for and not there, as the region that brings it. */
    method Missing(asked: seq<nat>) returns (missing: seq<Region>)
      requires Valid() && forall p <- asked :: (p + 1) * PAGE <= console.size
      ensures forall g: Region <- missing :: IsPage(g, console.size)
      ensures forall p <- asked :: p in pages || exists g: Region <- missing :: g.addr as int == p * PAGE
    {
      missing := [];
      for i := 0 to |asked|
        invariant forall g: Region <- missing :: IsPage(g, console.size)
        invariant forall p <- asked[..i] :: p in pages || exists g: Region <- missing :: g.addr as int == p * PAGE
      {
        assert asked[i] in asked;
        if asked[i] !in pages {
          var g := Region(asked[i] * PAGE, PAGE);
          assert g in missing + [g];
          missing := missing + [g];
        }
      }
      assert asked[..|asked|] == asked;
    }

    /**
     * The bytes of each span. While every answer after a silence is checked, or the console has one image only, and no
     * rid comes round while still in use, they are all of one image, which is the console's unless a silence since may
     * hide a reset; and so is the header known.
     */
    method ReadMany(spans: seq<Span>) returns (ok: bool, out: seq<seq<byte>>)
      requires Valid()
      modifies this, console, console.host, console.host.link
      ensures Valid() && Later(old(Seen())) && generation >= old(generation)
      ensures ok ==> generation == old(generation) && |out| == |spans| && forall s <- spans :: InRange(s, console.size)
      ensures Trusted(old(Seen())) && old(Coherent()) ==>
        Coherent() && (console.host.known.Some? ==> HEADER <= |source| && console.host.known.value == source[..HEADER])
      ensures ok && Trusted(old(Seen())) && old(Coherent()) ==>
        forall i :: 0 <= i < |spans| ==> InRange(spans[i], |source|) && out[i] == Slice(source, spans[i])
    {
      hide AllOf; hide Known;
      out := [];
      var fits, asked := Touched(spans, console.size);
      if AllOf(pages, source) { KnownOf(pages, source); }
      if !fits { return false, []; }
      var was := generation;
      ok := Fill(asked);
      if AllOf(pages, source) { KnownOf(pages, source); }
      if !ok || generation != was { return false, []; }
      out := AssembleAll(spans, asked);
    }

    method AssembleAll(spans: seq<Span>, ghost asked: seq<nat>) returns (out: seq<seq<byte>>)
      requires Valid() && (forall s <- spans :: InRange(s, console.size)) && forall p <- asked :: p in pages
      requires forall s <- spans, p :: Touches(s, p) ==> p in asked
      ensures |out| == |spans| && |source| == console.size
      ensures AllOf(pages, source) ==> forall i :: 0 <= i < |spans| ==> InRange(spans[i], |source|) && out[i] == Slice(source, spans[i])
    {
      hide AllOf; hide Shelf; hide Touches; hide Slice;
      out := [];
      SizeOf(console.images, console.size, source);
      for i := 0 to |spans|
        invariant |out| == i && |source| == console.size && forall j :: 0 <= j < |spans| ==> InRange(spans[j], console.size)
        invariant AllOf(pages, source) ==> forall j :: 0 <= j < i ==> out[j] == Slice(source, spans[j])
      {
        assert spans[i] in spans;
        var bytes := Assemble(spans[i]);
        out := out + [bytes];
      }
    }

    /** One span out of the pages that hold it. */
    method Assemble(s: Span) returns (out: seq<byte>)
      requires Valid() && InRange(s, console.size) && forall p :: Touches(s, p) ==> p in pages
      ensures AllOf(pages, source) ==> out == Slice(source, s)
    {
      hide Shelf;
      assert |source| == console.size by { SizeOf(console.images, console.size, source); }
      out := [];
      var at, end := s.addr as int, s.addr as int + s.len;
      while at < end
        invariant s.addr as int <= at <= end && (AllOf(pages, source) ==> out == source[s.addr..at])
      {
        var p, off := at / PAGE, at % PAGE;
        assert Touches(s, p);
        var take := Min(end - at, PAGE - off);
        out := out + pages[p][off..off + take];
        if AllOf(pages, source) { InPage(source, p, off, take); }
        at := at + take;
      }
    }
  }

  /** Some byte of the span is in page `p`. */
  predicate Touches(s: Span, p: nat) {
    s.len > 0 && s.addr as int / PAGE <= p <= (s.addr as int + s.len - 1) / PAGE
  }

  lemma SizeOf(images: set<seq<byte>>, size: nat, image: seq<byte>)
    requires Shelf(images, size) && image in images
    ensures |image| == size
  {}

  lemma InPage(rom: seq<byte>, p: nat, off: nat, take: nat)
    requires (p + 1) * PAGE <= |rom| && off + take <= PAGE
    ensures PageOf(rom, p)[off..off + take] == rom[p * PAGE + off..p * PAGE + off + take]
  {
    var b, e := p * PAGE, (p + 1) * PAGE;
    assert PageOf(rom, p)[off..off + take] == PageOf(rom, p)[off..][..take];
    SliceOfSlice(rom, b, e, off);
    SliceOfSlice(rom, b + off, e, take);
  }

  /** The pages the spans touch, in order and each once. */
  method Touched(spans: seq<Span>, size: nat) returns (ok: bool, asked: seq<nat>)
    requires size % PAGE == 0 && size <= 0xFFFF_FFFF
    ensures ok <==> forall s <- spans :: InRange(s, size)
    ensures ok ==> InOrder(asked) && forall p :: p in asked <==> exists s <- spans :: Touches(s, p)
    ensures ok ==> forall p <- asked :: (p + 1) * PAGE <= size
  {
    asked := [];
    for i := 0 to |spans|
      invariant (forall s <- spans[..i] :: InRange(s, size)) && InOrder(asked)
      invariant forall p :: p in asked <==> exists s <- spans[..i] :: Touches(s, p)
      invariant forall p <- asked :: (p + 1) * PAGE <= size
    {
      var s := spans[i];
      assert s in spans;
      if s.addr as int + s.len > size { return false, []; }
      assert spans[..i + 1] == spans[..i] + [s];
      if s.len > 0 {
        asked := AddSpan(asked, s, size);
      }
      assert forall q <- spans[..i] :: q in spans[..i + 1];
      assert forall q <- spans[..i + 1] :: q in spans[..i] || q == s;
    }
    assert spans[..|spans|] == spans;
    ok := true;
  }

  predicate InOrder(asked: seq<nat>) {
    forall i, j :: 0 <= i < j < |asked| ==> asked[i] < asked[j]
  }

  method AddSpan(asked: seq<nat>, s: Span, size: nat) returns (more: seq<nat>)
    requires InOrder(asked) && s.len > 0 && s.addr as int + s.len <= size && size % PAGE == 0
    requires forall p <- asked :: (p + 1) * PAGE <= size
    ensures InOrder(more) && (forall p :: p in more <==> p in asked || Touches(s, p)) && forall p <- more :: (p + 1) * PAGE <= size
  {
    more := asked;
    var first, last := s.addr as int / PAGE, (s.addr as int + s.len - 1) / PAGE;
    for p := first to last + 1
      invariant InOrder(more) && (forall q :: q in more <==> q in asked || first <= q < p) && forall q <- more :: (q + 1) * PAGE <= size
    {
      more := Insert(more, p);
    }
  }

  /** One more page, at its place, if it is not there yet. */
  method Insert(asked: seq<nat>, p: nat) returns (more: seq<nat>)
    requires InOrder(asked)
    ensures InOrder(more) && forall q :: q in more <==> q in asked || q == p
  {
    var k := 0;
    while k < |asked| && asked[k] < p
      invariant k <= |asked| && forall j :: 0 <= j < k ==> asked[j] < p
    {
      k := k + 1;
    }
    more := asked;
    if k == |asked| || asked[k] != p {
      Inserted(asked, k, p);
      more := asked[..k] + ([p] + asked[k..]);
    }
  }

  lemma Inserted(asked: seq<nat>, k: nat, p: nat)
    requires InOrder(asked) && k <= |asked|
    requires (forall j :: 0 <= j < k ==> asked[j] < p) && forall j :: k <= j < |asked| ==> p < asked[j]
    ensures InOrder(asked[..k] + ([p] + asked[k..]))
    ensures forall q :: q in asked[..k] + ([p] + asked[k..]) <==> q in asked || q == p
  {
    var more := asked[..k] + ([p] + asked[k..]);
    forall i | 0 <= i < |more| ensures more[i] == if i < k then asked[i] else if i == k then p else asked[i - 1] {}
    forall q | q in asked ensures q in more {
      var i :| 0 <= i < |asked| && asked[i] == q;
      assert more[if i < k then i else i + 1] == q;
    }
    assert more[k] == p;
  }

  lemma KeepOne(pages: map<nat, seq<byte>>, rom: seq<byte>, batch: seq<Region>, blocks: seq<seq<byte>>, j: nat)
    requires AllOf(pages, rom) && AreIn(rom, batch, blocks) && j < |batch| && IsPage(batch[j], |rom|)
    ensures AllOf(pages[batch[j].addr / PAGE := blocks[j]], rom)
  {
    var p := batch[j].addr as int / PAGE;
    assert blocks[j] == PageOf(rom, p);
  }

  /** Pages of one image, checked and kept, are of the image now in the console. */
  lemma StillOf(images: set<seq<byte>>, size: nat, c: Cache, was: seq<byte>, now: seq<byte>, look: Look)
    requires Shelf(images, size) && was in images && now in images && AllOf(c.pages, was)
    requires CanLook(c, now, look) && Checked(c, look)
    ensures c.missed && Answered(c, look).pages != map[] ==> was == now
  {
    if 0 in c.pages { assert c.pages[0] == PageOf(was, 0) && PageOf(was, 0)[..HEADER] == was[..HEADER]; }
  }

  lemma KnownOf(pages: map<nat, seq<byte>>, rom: seq<byte>)
    requires AllOf(pages, rom)
    ensures Known(pages).Some? ==> HEADER <= |rom| && Known(pages).value == rom[..HEADER]
  {
    if Known(pages).Some? { assert pages[0] == PageOf(rom, 0) && PageOf(rom, 0)[..HEADER] == rom[..HEADER]; }
  }

  lemma HeaderAskable(images: set<seq<byte>>, size: uint32)
    requires Shelf(images, size)
    ensures M64pRoundTrip.Askable([Region(0, HEADER)], size)
  {
    Multi64.HeaderLimits();
  }

  lemma NoPages(rom: seq<byte>)
    ensures AllOf(map[], rom)
  {}

  /** A region that is one whole page. */
  predicate IsPage(g: Region, size: nat) {
    g.addr as int % PAGE == 0 && g.len as int == PAGE && g.addr as int + PAGE <= size
  }

  lemma PartOf(all: seq<seq<Region>>, i: nat, size: uint32)
    requires i < |all| && Packed(all) && forall g: Region <- Concat(all) :: IsPage(g, size)
    ensures Concat(all[..i + 1]) == Concat(all[..i]) + all[i] && (forall g: Region <- all[i] :: IsPage(g, size))
    ensures M64pRoundTrip.Askable(all[i], size) && all[i] != []
  {
    hide Concat; hide IsPage; hide Packed; hide M64pRoundTrip.Askable;
    var before, after := all[..i], all[i + 1..];
    assert all[..i + 1] == before + [all[i]] && all == before + [all[i]] + after;
    ConcatOne(before, all[i]);
    ConcatAppend(before + [all[i]], after);
    PackedAt(all, i);
    PagesAskable(all[i], size);
  }

  lemma PackedAt(all: seq<seq<Region>>, i: nat)
    requires i < |all| && Packed(all)
    ensures OneRequest(all[i])
  {
    hide OneRequest;
  }

  lemma PagesAskable(batch: seq<Region>, size: uint32)
    requires OneRequest(batch) && forall g: Region <- batch :: IsPage(g, size)
    ensures M64pRoundTrip.Askable(batch, size) && batch != []
  {
    hide Limits;
  }
}
