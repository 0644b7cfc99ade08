/** The checks a profile makes of a seed, and when a seed passes them all. */
module Patcher {
  import opened Bytes
  import opened PatchProfile
  import opened Checksum

  const ROM_LIMIT: nat := 0x400_0000
  const MOVED_ALIGN: nat := 0x1000

  /**
   * A profile and what it writes; `hash` is the digest of bytes, `boot` the chip that boot code goes with, and `game`
   * whether a header has the profile's game code and version.
   */
  datatype Bundle = Bundle(profile: Profile, blobs: map<Name, seq<byte>>, agentEnd: uint32, cic: Cic,
                           hash: seq<byte> -> nat, boot: seq<byte> -> Option<Cic>, game: seq<byte> -> bool)

  type Found = map<Name, nat>

  // ---- places in a seed ----

  function Stretch(rom: seq<byte>, at: nat, len: nat): (b: Option<seq<byte>>) {
    if at + len <= |rom| then Some(rom[at..at + len]) else None
  }

  function Word32(rom: seq<byte>, at: nat): (w: Option<uint32>) {
    if at + 4 <= |rom| then Some(Be32(rom, at)) else None
  }

  predicate HitAt(b: Bundle, f: Find, rom: seq<byte>, at: nat) {
    && at % 4 == 0 && Word32(rom, at) == Some(f.word)
    && Stretch(rom, at, f.len).Some? && b.hash(Stretch(rom, at, f.len).value) == f.digest
  }

  /** The find is there, and nowhere else. */
  ghost predicate Located(b: Bundle, f: Find, rom: seq<byte>, at: nat) {
    HitAt(b, f, rom, at) && forall i :: HitAt(b, f, rom, i) ==> i == at
  }

  /** Where the find is, if there is one such place. */
  method LocateOne(b: Bundle, f: Find, rom: seq<byte>) returns (at: Option<nat>)
    ensures at.Some? ==> Located(b, f, rom, at.value)
    ensures at == None ==> forall i :: !Located(b, f, rom, i)
  {
    at := None;
    var i := 0;
    while i + 4 <= |rom|
      invariant i % 4 == 0
      invariant match at
                case Some(n) => HitAt(b, f, rom, n) && n < i && forall j :: 0 <= j < i && HitAt(b, f, rom, j) ==> j == n
                case None => forall j :: 0 <= j < i ==> !HitAt(b, f, rom, j)
    {
      if HitAt(b, f, rom, i) {
        if at.Some? { return None; }
        at := Some(i);
      }
      i := i + 4;
    }
  }

  method Locate(b: Bundle, rom: seq<byte>) returns (ok: bool, found: Found)
    requires forall i, j :: 0 <= i < j < |b.profile.finds| ==> b.profile.finds[i].name != b.profile.finds[j].name
    ensures ok ==> AllLocated(b, rom, found)
    ensures !ok ==> forall f :: !AllLocated(b, rom, f)
  {
    ok, found := true, map[];
    for i := 0 to |b.profile.finds|
      invariant !ok ==> forall f :: !AllLocated(b, rom, f)
      invariant ok ==> forall j :: 0 <= j < i ==> var f := b.profile.finds[j]; f.name in found && Located(b, f, rom, found[f.name])
    {
      var f := b.profile.finds[i];
      var at := LocateOne(b, f, rom);
      if at.Some? { found := found[f.name := at.value]; } else { ok := false; }
    }
  }

  ghost predicate AllLocated(b: Bundle, rom: seq<byte>, found: Found) {
    forall j :: 0 <= j < |b.profile.finds| ==> var f := b.profile.finds[j]; f.name in found && Located(b, f, rom, found[f.name])
  }

  function Resolve(p: Profile, found: Found, at: Place): (o: Option<uint32>) {
    match at.base
    case None => if 0 <= at.offset <= 0xFFFF_FFFF then Some(at.offset) else None
    case Some(name) =>
      if FindOf(p, name).Some? && name in found && 0 <= found[name] + at.offset <= 0xFFFF_FFFF
      then Some(found[name] + at.offset) else None
  }

  // ---- the checks ----

  /** The register's value after both instructions; only `addiu` takes its half as signed. */
  function ImmValue(hi: uint32, lo: uint32): (v: uint32) {
    var low := lo % 0x1_0000;
    var signed := if Opcode(lo) == ADDIU && low >= 0x8000 then low - 0x1_0000 else low;
    (hi % 0x1_0000 * 0x1_0000 + signed) % 0x1_0000_0000
  }

  function BoundOf(b: Bundle, bound: Bound): (v: uint32) {
    match bound case Number(v) => v case AgentEnd => b.agentEnd
  }

  predicate Passes(b: Bundle, rom: seq<byte>, found: Found, r: Require) {
    match r
    case Word(at, equals) =>
      var a := Resolve(b.profile, found, at); a.Some? && Word32(rom, a.value) == Some(equals)
    case Digest(at, len, digest) =>
      var a := Resolve(b.profile, found, at);
      a.Some? && Stretch(rom, a.value, len).Some? && b.hash(Stretch(rom, a.value, len).value) == digest
    case Pair(hi, lo, hiWord, loWord, min, max) =>
      var h, l := Resolve(b.profile, found, hi), Resolve(b.profile, found, lo);
      && h.Some? && l.Some? && Word32(rom, h.value).Some? && Word32(rom, l.value).Some?
      && var hw, lw := Word32(rom, h.value).value, Word32(rom, l.value).value;
      && hw / 0x1_0000 * 0x1_0000 == hiWord && lw / 0x1_0000 * 0x1_0000 == loWord
      && BoundOf(b, min) <= ImmValue(hw, lw) <= BoundOf(b, max)
  }

  /** What the seed holds where listed bytes are put back or replaced. */
  predicate ListedAt(rom: seq<byte>, w: Write) {
    match w
    case Restore(where, bytes, accept) =>
      var held := Stretch(rom, where, |bytes|); held.Some? && (held.value == bytes || held.value in accept)
    case Replace(where, was, bytes) =>
      var held := Stretch(rom, where, |bytes|); held.Some? && (held.value == bytes || held.value == was)
    case _ => false
  }

  predicate WriteFits(b: Bundle, rom: seq<byte>, w: Write) {
    match w
    case Restore(_, _, _) => ListedAt(rom, w)
    case Replace(_, _, _) => ListedAt(rom, w)
    case Blob(_, file, maxLen) => file in b.blobs ==> |b.blobs[file]| <= maxLen as int
    case Copy(from, len, _) => Stretch(rom, from, len).Some?
    case _ => true
  }

  predicate IsPadding(v: byte) {
    v == 0 || v == 0xFF
  }

  predicate ClearFrom(rom: seq<byte>, at: nat) {
    forall i :: at <= i < |rom| ==> IsPadding(rom[i])
  }

  /** The least offset from which all is padding. */
  function DataEnd(rom: seq<byte>): (end: nat)
    ensures end <= |rom| && ClearFrom(rom, end) && (end > 0 ==> !IsPadding(rom[end - 1]))
  {
    if rom == [] || !IsPadding(rom[|rom| - 1]) then |rom|
    else
      var rest := rom[..|rom| - 1];
      assert forall i :: DataEnd(rest) <= i < |rest| ==> IsPadding(rom[i]);
      DataEnd(rest)
  }

  function RoundUp(n: nat, align: nat): (r: nat)
    requires align == 4 || align == 16 || align == MOVED_ALIGN
    ensures n <= r < n + align && r % 4 == 0 && (align == 16 ==> r % 16 == 0)
  {
    var k := (n + (align - 1)) / align;
    if align == 4 then k * 4
    else if align == 16 then
      assert k * 16 == 4 * (4 * k);
      k * 16
    else
      assert k * 0x1000 == 4 * (0x400 * k);
      k * 0x1000
  }

  /** Where what is appended starts: where the profile says, unless its agent can move and has to. */
  function AgentPlace(p: Profile, rom: seq<byte>): (at: nat)
    ensures RegionOf(p.agent) <= at && (!Moves(p) ==> at == RegionOf(p.agent))
    ensures Moves(p) ==> ClearFrom(rom, at)
  {
    var usual: nat := RegionOf(p.agent);
    if ClearFrom(rom, usual) || !Moves(p) then usual else RoundUp(DataEnd(rom), MOVED_ALIGN)
  }

  // ---- the verdict ----

  datatype Put = Put(at: nat, bytes: seq<byte>)

  predicate Covers(p: Put, i: int) {
    p.at <= i < p.at + |p.bytes|
  }

  function Over(out: seq<byte>, p: Put): (r: seq<byte>)
    ensures |r| == if |out| < p.at + |p.bytes| then p.at + |p.bytes| else |out|
    ensures forall i :: 0 <= i < |r| ==>
      r[i] == if Covers(p, i) then p.bytes[i - p.at] else if i < |out| then out[i] else 0
  {
    var end := p.at + |p.bytes|;
    var wide := if |out| < end then out + Zeros(end - |out|) else out;
    wide[..p.at] + p.bytes + wide[end..]
  }

  function Identify(b: Bundle, rom: seq<byte>): (cic: Option<Cic>) {
    if |rom| >= CRC_START then b.boot(rom[0x40..CRC_START]) else None
  }

  /** The seed with the first `n` writes' bytes put back. */
  function Restored(p: Profile, rom: seq<byte>, n: nat): (r: seq<byte>)
    requires n <= |p.writes|
  {
    if n == 0 then rom
    else
      var before, w := Restored(p, rom, n - 1), p.writes[n - 1];
      if w.Restore? && ListedAt(rom, w) then Over(before, Put(w.where, w.bytes)) else before
  }

  function ImageLen(b: Bundle): (n: nat) {
    if b.profile.agent.image in b.blobs then |b.blobs[b.profile.agent.image]| else 0
  }

  predicate HasRoom(b: Bundle, rom: seq<byte>) {
    var p, at := b.profile, AgentPlace(b.profile, rom);
    ClearFrom(rom, at) && (p.transform.Some? || at + ImageLen(b) + p.agent.bss as int <= ROM_LIMIT)
  }

  predicate Checks(b: Bundle, rom: seq<byte>, found: Found) {
    && b.game(rom) && CRC_END <= |rom|
    && (forall r <- b.profile.checks :: Passes(b, rom, found, r))
    && (forall w <- b.profile.writes :: WriteFits(b, rom, w))
    && Identify(b, Restored(b.profile, rom, |b.profile.writes|)) == Some(b.cic)
    && HasRoom(b, rom)
  }

  ghost predicate Verified(b: Bundle, rom: seq<byte>, found: Found) {
    AllLocated(b, rom, found) && Checks(b, rom, found)
  }

  /** What is found is found in one way, so the checks come to the same wherever it is written down. */
  lemma ResolveSame(b: Bundle, rom: seq<byte>, f: Found, g: Found, at: Place)
    requires AllLocated(b, rom, f) && AllLocated(b, rom, g)
    ensures Resolve(b.profile, f, at) == Resolve(b.profile, g, at)
  {
    hide HitAt; hide FindOf;
    if at.base.Some? {
      var find := FindOf(b.profile, at.base.value);
      if find.Some? {
        var j :| 0 <= j < |b.profile.finds| && b.profile.finds[j] == find.value;
        assert Located(b, find.value, rom, f[find.value.name]) && Located(b, find.value, rom, g[find.value.name]);
      }
    }
  }

  lemma ChecksSame(b: Bundle, rom: seq<byte>, f: Found, g: Found)
    requires AllLocated(b, rom, f) && AllLocated(b, rom, g)
    ensures Checks(b, rom, f) == Checks(b, rom, g)
  {
    hide AllLocated; hide Resolve; hide HasRoom; hide Restored; hide WriteFits; hide Stretch; hide Word32; hide ImmValue;
    forall r: Require ensures Passes(b, rom, f, r) == Passes(b, rom, g, r) {
      match r
      case Word(at, _) => ResolveSame(b, rom, f, g, at);
      case Digest(at, _, _) => ResolveSame(b, rom, f, g, at);
      case Pair(hi, lo, _, _, _, _) => ResolveSame(b, rom, f, g, hi); ResolveSame(b, rom, f, g, lo);
    }
    hide Passes;
  }

  /** Every check of a profile, made of a seed: it is accepted exactly when they all hold. */
  method Verify(b: Bundle, rom: seq<byte>) returns (ok: bool, found: Found)
    requires Accepted(b.profile)
    ensures ok ==> Verified(b, rom, found)
    ensures !ok ==> forall f :: !Verified(b, rom, f)
  {
    var p := b.profile;
    if !b.game(rom) || |rom| < CRC_END { return false, map[]; }
    ok, found := Locate(b, rom);
    if !ok { return; }
    hide AllLocated; hide Passes; hide WriteFits; hide HasRoom; hide Resolve;
    for i := 0 to |p.checks|
      invariant ok == forall j :: 0 <= j < i ==> Passes(b, rom, found, p.checks[j])
    {
      if !Passes(b, rom, found, p.checks[i]) { ok := false; }
    }
    var restored := rom;
    for i := 0 to |p.writes|
      invariant ok ==> forall j :: 0 <= j < |p.checks| ==> Passes(b, rom, found, p.checks[j])
      invariant ok ==> forall j :: 0 <= j < i ==> WriteFits(b, rom, p.writes[j])
      invariant !ok ==> !Checks(b, rom, found)
      invariant restored == Restored(p, rom, i)
    {
      var w := p.writes[i];
      if w.Restore? && ListedAt(rom, w) { restored := Over(restored, Put(w.where, w.bytes)); }
      if !WriteFits(b, rom, w) { ok := false; }
    }
    ok := ok && Identify(b, restored) == Some(b.cic) && HasRoom(b, rom);
    forall f ensures !ok ==> !Verified(b, rom, f) {
      if Verified(b, rom, f) { ChecksSame(b, rom, f, found); }
    }
  }
}
