/** What a profile may write, and the checks that must pin every byte of it before it is accepted. */
module PatchProfile {
  import opened Bytes

  type Name = string

  /** A place in a seed: an offset in it, or from something to be found in it. */
  datatype Place = Place(base: Option<Name>, offset: int)

  /** Bytes looked for: a first word, a length and a digest. */
  datatype Find = Find(name: Name, word: uint32, len: uint32, digest: nat)

  /** One end of a range: a number, or where the agent ends in memory. */
  datatype Bound = Number(v: uint32) | AgentEnd

  /** What a seed must hold before anything is written. */
  datatype Require =
    | Word(at: Place, equals: uint32)
    | Digest(at: Place, len: uint32, digest: nat)
    | Pair(hi: Place, lo: Place, hiWord: uint32, loWord: uint32, min: Bound, max: Bound)

  datatype Value = Const(v: uint32) | RegionStart | RegionSize | AgentRom

  datatype Write =
    | Blob(at: Place, file: Name, maxLen: uint32)
    | Jal(at: Place, target: uint32)
    | Copy(from: uint32, len: uint32, to: uint32)
    | Imm(hi: Place, lo: Option<Place>, value: Value)
    | Restore(where: uint32, bytes: seq<byte>, accept: seq<seq<byte>>)
    | Replace(where: uint32, was: seq<byte>, bytes: seq<byte>)

  datatype Agent = Agent(image: Name, rom: uint32, region: Option<uint32>, bss: uint32, dmaSlot: Option<uint32>)

  /** `transform` is the file table of a game whose seeds are patched as the image they decompress to. */
  datatype Profile = Profile(finds: seq<Find>, checks: seq<Require>, writes: seq<Write>, agent: Agent,
                             transform: Option<uint32>)

  function RegionOf(a: Agent): (at: uint32) {
    match a.region case Some(r) => r case None => a.rom
  }

  /** Some write gives the stub the agent's offset, so the offset may vary by seed. */
  predicate Moves(p: Profile) {
    exists w <- p.writes :: w.Imm? && w.value == AgentRom
  }

  /** Every stretch a check reads. */
  function Places(r: Require): (ps: seq<(Place, uint32)>) {
    match r
    case Word(at, _) => [(at, 4)]
    case Digest(at, len, _) => [(at, len)]
    case Pair(hi, lo, _, _, _, _) => [(hi, 4), (lo, 4)]
  }

  function FindOf(p: Profile, name: Name): (f: Option<Find>)
    ensures f.Some? ==> f.value in p.finds && f.value.name == name
    ensures f == None ==> forall g <- p.finds :: g.name != name
  {
    FindFrom(p.finds, name, 0)
  }

  function FindFrom(finds: seq<Find>, name: Name, i: nat): (f: Option<Find>)
    ensures f.Some? ==> f.value in finds && f.value.name == name
    ensures f == None ==> forall k :: i <= k < |finds| ==> finds[k].name != name
    decreases |finds| - i
  {
    if i >= |finds| then None else if finds[i].name == name then Some(finds[i]) else FindFrom(finds, name, i + 1)
  }

  /** `at..at + len` is within a stretch that a check reads, from the same place. */
  predicate Within(at: Place, len: nat, of: (Place, uint32)) {
    of.0.base == at.base && of.0.offset <= at.offset && at.offset + len <= of.0.offset + of.1 as int
  }

  predicate Checked(p: Profile, at: Place, len: nat) {
    exists r <- p.checks :: exists of <- Places(r) :: Within(at, len, of)
  }

  /** `Some(true)` if a check reads all of the place or it is past the region's start; `None` if it is forbidden. */
  function Pinned(p: Profile, at: Place, len: nat): (ok: Option<bool>) {
    if Moves(p) && at.base == None && at.offset + len > RegionOf(p.agent) as int then None
    else if at.base == None && at.offset >= RegionOf(p.agent) as int then Some(true)
    else if at.base.Some? && FindOf(p, at.base.value).Some? && at.offset < FindOf(p, at.base.value).value.len as int && at.offset + len > 0 then None
    else Some(Checked(p, at, len))
  }

  /** A place names something the profile finds. */
  predicate Known(p: Profile, at: Place) {
    match at.base case None => 0 <= at.offset <= 0xFFFF_FFFF case Some(name) => FindOf(p, name).Some?
  }

  predicate WriteAccepted(p: Profile, w: Write) {
    match w
    case Blob(at, _, maxLen) => Known(p, at) && Pinned(p, at, maxLen) == Some(true)
    case Jal(at, _) => Known(p, at) && Pinned(p, at, 4) == Some(true)
    case Copy(_, len, to) => RegionOf(p.agent) <= to && to as int + len as int <= p.agent.rom as int
    case Imm(hi, lo, _) =>
      && Known(p, hi) && Pinned(p, hi, 4) == Some(true)
      && (lo.Some? ==> Known(p, lo.value) && Pinned(p, lo.value, 4) == Some(true))
    case Restore(_, bytes, accept) => forall a <- accept :: |a| == |bytes|
    case Replace(_, was, bytes) => |was| == |bytes|
  }

  const LUI: nat := 0x0F
  const ADDIU: nat := 0x09
  const ORI: nat := 0x0D

  function Opcode(word: uint32): (op: nat) {
    word / 0x400_0000
  }

  /** The instructions a pair check pins, their immediates zeroed, and a range that is not upside down. */
  predicate Shaped(r: Require) {
    r.Pair? ==>
      && Opcode(r.hiWord) == LUI && (Opcode(r.loWord) == ADDIU || Opcode(r.loWord) == ORI)
      && r.hiWord % 0x1_0000 == 0 && r.loWord % 0x1_0000 == 0
      && (r.min.Number? && r.max.Number? ==> r.min.v <= r.max.v)
  }

  /** A profile whose every write lands on bytes a check pins down. */
  predicate Accepted(p: Profile) {
    && (forall i, j :: 0 <= i < j < |p.finds| ==> p.finds[i].name != p.finds[j].name)
    && (forall f <- p.finds :: f.len >= 4)
    && (forall r <- p.checks :: Shaped(r) && forall of <- Places(r) :: Known(p, of.0))
    && RegionOf(p.agent) <= p.agent.rom
    && (p.agent.dmaSlot.Some? ==> Pinned(p, Place(None, p.agent.dmaSlot.value), 32) == Some(true))
    && (forall w <- p.writes :: WriteAccepted(p, w))
    && (Moves(p) ==> p.agent.region == None && p.agent.dmaSlot == None && p.transform == None && NoCopy(p))
  }

  predicate NoCopy(p: Profile) {
    forall w <- p.writes :: !w.Copy?
  }

  /** The profile's own checks, in its order. */
  method Parse(p: Profile) returns (ok: bool)
    ensures ok == Accepted(p)
  {
    hide WriteAccepted; hide Pinned; hide Known; hide Moves;
    var names: set<Name> := {};
    for i := 0 to |p.finds|
      invariant (forall n <- names :: exists j :: 0 <= j < i && p.finds[j].name == n) && (forall j :: 0 <= j < i ==> p.finds[j].name in names)
      invariant forall j, k :: 0 <= j < k < i ==> p.finds[j].name != p.finds[k].name
      invariant forall j :: 0 <= j < i ==> p.finds[j].len >= 4
    {
      if p.finds[i].name in names || p.finds[i].len < 4 { return false; }
      names := names + {p.finds[i].name};
    }
    for i := 0 to |p.checks|
      invariant forall j :: 0 <= j < i ==> Shaped(p.checks[j]) && forall of <- Places(p.checks[j]) :: Known(p, of.0)
    {
      if !(forall of <- Places(p.checks[i]) :: Known(p, of.0)) || !Shaped(p.checks[i]) { return false; }
    }
    if p.agent.rom < RegionOf(p.agent) { return false; }
    if p.agent.dmaSlot.Some? && Pinned(p, Place(None, p.agent.dmaSlot.value), 32) != Some(true) { return false; }
    for i := 0 to |p.writes|
      invariant forall j :: 0 <= j < i ==> WriteAccepted(p, p.writes[j])
    {
      if !WriteAccepted(p, p.writes[i]) { return false; }
    }
    ok := !Moves(p) || (p.agent.region == None && p.agent.dmaSlot == None && p.transform == None && NoCopy(p));
  }
}
