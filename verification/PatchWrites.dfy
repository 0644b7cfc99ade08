/** What a patch puts over a seed, and that every byte it changes is one the seed was checked for. */
module PatchWrites {
  import opened Bytes
  import opened PatchProfile
  import opened Checksum
  import opened Patcher
  import opened Immediates

  // ---- bytes put one over another ----

  function PutAll(out: seq<byte>, puts: seq<Put>): (r: seq<byte>)
    ensures |out| <= |r|
  {
    if puts == [] then out else Over(PutAll(out, puts[..|puts| - 1]), puts[|puts| - 1])
  }

  lemma PutAllOne(out: seq<byte>, puts: seq<Put>, p: Put)
    ensures PutAll(out, puts + [p]) == Over(PutAll(out, puts), p)
  {
    assert (puts + [p])[..|puts|] == puts;
  }

  // ---- what a seed was checked for ----

  predicate Reads(b: Bundle, found: Found, of: (Place, uint32), i: int) {
    var a := Resolve(b.profile, found, of.0); a.Some? && a.value <= i < a.value + of.1 as int
  }

  /** A byte of the seed that a check the seed passed has read. */
  predicate PinnedByte(b: Bundle, input: seq<byte>, found: Found, i: int) {
    i < |input| && exists r <- b.profile.checks :: Passes(b, input, found, r) && exists of <- Places(r) :: Reads(b, found, of, i)
  }

  /** A byte of a stretch where the seed holds bytes the profile lists. */
  predicate ListedByte(b: Bundle, input: seq<byte>, i: int) {
    exists w <- b.profile.writes :: ListedAt(input, w) && w.where <= i < w.where + |w.bytes|
  }

  predicate ChecksumByte(i: int) {
    CRC_OFFSET <= i < CRC_OFFSET + 8
  }

  predicate Answered(b: Bundle, input: seq<byte>, found: Found, i: int) {
    ChecksumByte(i) || PinnedByte(b, input, found, i) || ListedByte(b, input, i)
  }

  /** Nothing below the appended region is put over a byte that was not checked. */
  ghost predicate Lawful(b: Bundle, input: seq<byte>, found: Found, start: nat, p: Put) {
    forall i :: Covers(p, i) && i < start ==> Answered(b, input, found, i)
  }

  lemma PassedIsThere(b: Bundle, input: seq<byte>, found: Found, r: Require, of: (Place, uint32))
    requires Passes(b, input, found, r) && of in Places(r)
    ensures Resolve(b.profile, found, of.0).Some? && Resolve(b.profile, found, of.0).value + of.1 as int <= |input|
  {
    hide Resolve; hide ImmValue; hide BoundOf; hide Opcode;
  }

  lemma SameBase(b: Bundle, input: seq<byte>, found: Found, at: Place, len: nat, of: (Place, uint32))
    requires AllLocated(b, input, found) && Within(at, len, of) && Resolve(b.profile, found, of.0).Some?
    ensures var s := Resolve(b.profile, found, of.0).value; var a := Resolve(b.profile, found, at);
      && (a.Some? ==> a.value == s + (at.offset - of.0.offset))
      && (a == None ==> s + (at.offset - of.0.offset) > 0xFFFF_FFFF)
  {
    hide FindOf; hide Located;
  }

  /** Where a check covers a place, the seed has that place, and the check has read it. */
  lemma CheckedThere(b: Bundle, input: seq<byte>, found: Found, at: Place, len: nat)
    requires Verified(b, input, found) && Checked(b.profile, at, len)
    ensures var a := Resolve(b.profile, found, at);
      && (a.Some? ==> forall i :: a.value <= i < a.value + len ==> PinnedByte(b, input, found, i))
      && (|input| <= 0xFFFF_FFFF ==> a.Some?)
  {
    var r :| r in b.profile.checks && exists of <- Places(r) :: Within(at, len, of);
    var of :| of in Places(r) && Within(at, len, of);
    assert Passes(b, input, found, r);
    PassedIsThere(b, input, found, r, of);
    SameBase(b, input, found, at, len, of);
    var s := Resolve(b.profile, found, of.0).value;
    hide Resolve; hide Passes; hide Places; hide Verified;
    var a := Resolve(b.profile, found, at);
    if a.Some? {
      forall i | a.value <= i < a.value + len ensures PinnedByte(b, input, found, i) {
        assert Reads(b, found, of, i);
      }
    }
  }

  /** A write the profile may make there is over checked bytes, or in the region that is appended. */
  lemma PinnedThere(b: Bundle, input: seq<byte>, found: Found, at: Place, len: nat, bytes: seq<byte>)
    requires Verified(b, input, found) && |bytes| <= len
    requires Known(b.profile, at) && Pinned(b.profile, at, len) == Some(true)
    ensures var a := Resolve(b.profile, found, at);
      && (a.Some? ==> Lawful(b, input, found, AgentPlace(b.profile, input), Put(a.value, bytes)))
      && (|input| <= 0xFFFF_FFFF ==> a.Some?)
  {
    hide Verified; hide PinnedByte; hide ListedByte; hide AgentPlace; hide Checked; hide FindOf;
    if at.base == None && at.offset >= RegionOf(b.profile.agent) as int {
      assert !Moves(b.profile) || |bytes| == 0;
    } else {
      CheckedThere(b, input, found, at, len);
    }
  }

  // ---- what each write puts ----

  datatype Why = NotPlaced | LandsOnAgent | NotAPair | NeedsLow | PastEnd | Unexpected | NoBoot
  datatype Outcome<+T> = Done(value: T) | Failed(why: Why)

  /** A bundle carries every blob its profile names. */
  predicate Carries(b: Bundle) {
    && b.profile.agent.image in b.blobs
    && forall w <- b.profile.writes :: w.Blob? ==> w.file in b.blobs
  }

  /** The bytes a write other than an immediate puts, and where, if it was placed. */
  function PutBy(b: Bundle, input: seq<byte>, found: Found, w: Write): (p: Option<Put>)
    requires !w.Imm? && (w.Blob? ==> w.file in b.blobs)
  {
    match w
    case Blob(at, file, _) => At(Resolve(b.profile, found, at), b.blobs[file])
    case Jal(at, target) => At(Resolve(b.profile, found, at), Put32(0x0C00_0000 + target / 4 % 0x400_0000))
    case Restore(where, bytes, _) => Some(Put(where, bytes))
    case Replace(where, _, bytes) => Some(Put(where, bytes))
    case Copy(from, len, to) =>
      match Stretch(input, from, len) case Some(bytes) => Some(Put(to, bytes)) case None => None
  }

  function At(at: Option<uint32>, bytes: seq<byte>): (p: Option<Put>) {
    match at case Some(a) => Some(Put(a, bytes)) case None => None
  }

  /** What the first `n` writes put, immediates apart. */
  function Plain(b: Bundle, input: seq<byte>, found: Found, n: nat): (ps: seq<Put>)
    requires n <= |b.profile.writes| && Carries(b)
  {
    if n == 0 then []
    else
      var before, w := Plain(b, input, found, n - 1), b.profile.writes[n - 1];
      if w.Imm? then before else
      match PutBy(b, input, found, w) case Some(p) => before + [p] case None => before
  }

  lemma PutByLawful(b: Bundle, input: seq<byte>, found: Found, w: Write)
    requires Accepted(b.profile) && Carries(b) && Verified(b, input, found) && w in b.profile.writes && !w.Imm?
    ensures var p := PutBy(b, input, found, w);
      && (p.Some? ==> Lawful(b, input, found, AgentPlace(b.profile, input), p.value))
      && (|input| <= 0xFFFF_FFFF ==> p.Some?)
  {
    var p := b.profile;
    assert WriteAccepted(p, w) && WriteFits(b, input, w);
    hide Accepted; hide Verified; hide Resolve; hide Pinned; hide PinnedByte; hide Known;
    match w {
      case Blob(at, file, maxLen) => PinnedThere(b, input, found, at, maxLen, b.blobs[file]);
      case Jal(at, target) => PinnedThere(b, input, found, at, 4, Put32(0x0C00_0000 + target / 4 % 0x400_0000));
      case Restore(where, bytes, _) => ListedLawful(b, input, found, w);
      case Replace(where, _, bytes) => ListedLawful(b, input, found, w);
      case Copy(_, _, _) =>
        assert !Moves(p) by { assert Accepted(p) ==> !NoCopy(p) by { assert w.Copy?; } }
    }
  }

  lemma ListedLawful(b: Bundle, input: seq<byte>, found: Found, w: Write)
    requires w in b.profile.writes && ListedAt(input, w) && (w.Restore? || w.Replace?)
    ensures Lawful(b, input, found, AgentPlace(b.profile, input), Put(w.where, w.bytes))
  {
    hide AgentPlace; hide PinnedByte; hide ListedAt;
    forall i | w.where <= i < w.where + |w.bytes| ensures ListedByte(b, input, i) {}
  }

  // ---- the appended region ----

  function ImageAt(p: Profile, start: nat): (at: nat) {
    if Moves(p) then start else p.agent.rom
  }

  /** The agent's image, zeros for its BSS, and zeros up to the next boundary. */
  function AgentPut(b: Bundle, start: nat): (p: Put)
    requires Carries(b)
    ensures p.at == ImageAt(b.profile, start) && ImageLen(b) <= |p.bytes|
    ensures p.bytes[..ImageLen(b)] == b.blobs[b.profile.agent.image] && forall i <- p.bytes[ImageLen(b)..] :: i == 0
  {
    var at, image := ImageAt(b.profile, start), b.blobs[b.profile.agent.image];
    var align := if b.profile.agent.dmaSlot.Some? then 16 else 4;
    Put(at, image + Zeros(RoundUp(at + |image| + b.profile.agent.bss as int, align) - at - |image|))
  }

  /** A file table entry for the appended region as one plain file in place. */
  function EntryPut(slot: uint32, start: uint32, size: uint32): (p: Put) {
    Put(slot, Put32(start) + Put32(Add(start, size)) + Put32(start) + Put32(0))
  }

  function Wrapped(n: nat): (w: uint32) {
    n % 0x1_0000_0000
  }

  function Base(input: seq<byte>, start: nat): (out: seq<byte>)
    ensures |out| == start && forall i :: 0 <= i < start ==> out[i] == if i < |input| then input[i] else 0
  {
    if start <= |input| then input[..start] else input + Zeros(start - |input|)
  }

  /** The seed's own bytes with everything but the immediates put over them, and how long what was appended is. */
  function Laid(b: Bundle, input: seq<byte>, found: Found): (r: Outcome<(seq<byte>, uint32)>)
    requires Carries(b)
  {
    var p, start := b.profile, AgentPlace(b.profile, input);
    var plain := PutAll(Base(input, start), Plain(b, input, found, |p.writes|));
    if |plain| > ImageAt(p, start) then Failed(LandsOnAgent)
    else
      var whole := Over(plain, AgentPut(b, start));
      var size := Wrapped(|whole| - start);
      Done((match p.agent.dmaSlot
            case Some(slot) => Over(whole, EntryPut(slot, Wrapped(start), size))
            case None => whole, size))
  }

  // ---- immediates ----

  function ValueOf(p: Profile, v: Value, start: nat, size: uint32): (w: uint32) {
    match v
    case Const(c) => c
    case RegionStart => Wrapped(start)
    case AgentRom => Wrapped(ImageAt(p, start))
    case RegionSize => size
  }

  /** The immediates that make one write's instructions load its value. */
  function StepsOf(p: Profile, found: Found, out: seq<byte>, w: Write, v: uint32): (r: Outcome<seq<Step>>)
    requires w.Imm?
  {
    var hi := Resolve(p, found, w.hi);
    if hi == None then Failed(NotPlaced) else
    match w.lo
    case None =>
      if v % 0x1_0000 != 0 then Failed(NeedsLow)
      else if hi.value + 4 > |out| then Failed(PastEnd) else Done([Step(hi.value, v / 0x1_0000)])
    case Some(place) =>
      var lo := Resolve(p, found, place);
      if lo == None then Failed(NotPlaced)
      else if lo.value + 4 > |out| then Failed(NotAPair)
      else
        var op := Opcode(Be32(out, lo.value));
        if op != ADDIU && op != ORI then Failed(NotAPair)
        else if hi.value + 4 > |out| then Failed(PastEnd)
        else Done([Step(hi.value, Halves(v, op).0), Step(lo.value, Halves(v, op).1)])
  }

  /** The immediates of the first `n` writes, each worked out over the image as those before it left it. */
  function StepsTo(b: Bundle, found: Found, laid: seq<byte>, start: nat, size: uint32, n: nat): (r: Outcome<seq<Step>>)
    requires n <= |b.profile.writes|
  {
    if n == 0 then Done([])
    else
      var w, before := b.profile.writes[n - 1], StepsTo(b, found, laid, start, size, n - 1);
      if before.Failed? || !w.Imm? then before
      else
        match StepsOf(b.profile, found, SetAll(laid, before.value), w, ValueOf(b.profile, w.value, start, size))
        case Done(s) => Done(before.value + s)
        case Failed(why) => Failed(why)
  }

  // ---- the patch ----

  datatype Range = Span(lo: nat, hi: nat) | From(lo: nat)

  predicate In(r: Range, i: nat) {
    r.lo <= i && (r.Span? ==> i < r.hi)
  }

  predicate Allowed(allowed: seq<Range>, i: nat) {
    exists r <- allowed :: In(r, i)
  }

  /** The image so far: every byte that is not the seed's is allowed for, and answered for by a check. */
  ghost predicate Accounted(b: Bundle, input: seq<byte>, found: Found, out: seq<byte>, allowed: seq<Range>) {
    var start := AgentPlace(b.profile, input);
    && start <= |out| && From(start) in allowed
    && (forall i :: 0 <= i < Min(|input|, |out|) && out[i] != input[i] ==> Allowed(allowed, i))
    && (forall i :: 0 <= i < Min(|input|, start) && out[i] != input[i] ==> Answered(b, input, found, i))
  }

  function SpanOf(p: Put): (r: Range) {
    Span(p.at, p.at + |p.bytes|)
  }

  lemma OverAccounted(b: Bundle, input: seq<byte>, found: Found, out: seq<byte>, allowed: seq<Range>, p: Put)
    requires Accounted(b, input, found, out, allowed) && Lawful(b, input, found, AgentPlace(b.profile, input), p)
    ensures Accounted(b, input, found, Over(out, p), allowed + [SpanOf(p)])
  {
    hide Answered; hide AgentPlace;
    var r, start := Over(out, p), AgentPlace(b.profile, input);
    forall i | 0 <= i < Min(|input|, |r|) && r[i] != input[i] ensures Allowed(allowed + [SpanOf(p)], i) {
      if Covers(p, i) { assert SpanOf(p) in allowed + [SpanOf(p)]; }
      else if i < |out| { var a :| a in allowed && In(a, i); assert a in allowed + [SpanOf(p)]; }
      else { assert From(start) in allowed + [SpanOf(p)]; }
    }
  }
}
