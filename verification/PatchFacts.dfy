/** What holds of every patched ROM: where each write's bytes are, what each pair loads, and how long it is. */
module PatchFacts {
  import opened Bytes
  import opened PatchProfile
  import opened Checksum
  import opened Patcher
  import opened Immediates
  import opened PatchWrites
  import opened Patching

  // ---- the steps are the profile's ----

  /** The words an immediate is written into. */
  function Spots(p: Profile, found: Found, w: Write): (at: seq<nat>) {
    if !w.Imm? then [] else Spot(p, found, w.hi) + match w.lo case Some(lo) => Spot(p, found, lo) case None => []
  }

  function Spot(p: Profile, found: Found, at: Place): (s: seq<nat>) {
    match Resolve(p, found, at) case Some(a) => [a] case None => []
  }

  ghost predicate SpotOf(b: Bundle, found: Found, at: nat) {
    exists w <- b.profile.writes :: at in Spots(b.profile, found, w)
  }

  lemma {:induction false} StepsAtSpots(b: Bundle, found: Found, laid: seq<byte>, start: nat, size: uint32, n: nat)
    requires n <= |b.profile.writes| && StepsTo(b, found, laid, start, size, n).Done?
    ensures forall s <- StepsTo(b, found, laid, start, size, n).value :: SpotOf(b, found, s.at) && s.at + 4 <= |laid|
  {
    hide Resolve; hide SetAll; hide Halves; hide Be32; hide Opcode; hide ValueOf;
    if n > 0 {
      StepsAtSpots(b, found, laid, start, size, n - 1);
      var w, before := b.profile.writes[n - 1], StepsTo(b, found, laid, start, size, n - 1).value;
      if w.Imm? {
        var s := StepsOf(b.profile, found, SetAll(laid, before), w, ValueOf(b.profile, w.value, start, size)).value;
        forall step <- s ensures step.at in Spots(b.profile, found, w) {}
      }
    }
  }

  lemma {:induction false} StepsLeave(out: seq<byte>, steps: seq<Step>, i: nat)
    requires i < |out| && forall s <- steps :: !(s.at <= i < s.at + 4)
    ensures SetAll(out, steps)[i] == out[i]
  {
    hide WithHalf; hide Be32;
    if steps != [] { StepsLeave(out, steps[..|steps| - 1], i); }
  }

  // ---- every write's bytes ----

  predicate PutsAt(b: Bundle, input: seq<byte>, found: Found, w: Write, i: int)
    requires w in b.profile.writes && Carries(b)
  {
    !w.Imm? && var p := PutBy(b, input, found, w); p.Some? && Covers(p.value, i)
  }

  lemma {:induction false} PlainLands(b: Bundle, input: seq<byte>, found: Found, n: nat, j: nat, i: int)
    requires j < n <= |b.profile.writes| && Carries(b) && PutsAt(b, input, found, b.profile.writes[j], i)
    requires forall k :: j < k < n ==> !PutsAt(b, input, found, b.profile.writes[k], i)
    ensures var all := PutAll(Base(input, AgentPlace(b.profile, input)), Plain(b, input, found, n));
      var p := PutBy(b, input, found, b.profile.writes[j]).value;
      i < |all| && all[i] == p.bytes[i - p.at]
  {
    hide PutBy; hide AgentPlace; hide Base; hide PutAll; hide Carries;
    var w, before := b.profile.writes[n - 1], Plain(b, input, found, n - 1);
    Carried(b, w);
    if j < n - 1 { PlainLands(b, input, found, n - 1, j, i); }
    if !w.Imm? && PutBy(b, input, found, w).Some? {
      PutAllOne(Base(input, AgentPlace(b.profile, input)), before, PutBy(b, input, found, w).value);
    }
  }

  lemma Carried(b: Bundle, w: Write)
    requires Carries(b) && w in b.profile.writes
    ensures w.Blob? ==> w.file in b.blobs
  {}

  /** Nothing that comes after the plain writes is at `i`: neither an entry, an immediate nor the checksum. */
  ghost predicate LeftAlone(b: Bundle, found: Found, i: nat) {
    && !ChecksumByte(i)
    && (b.profile.agent.dmaSlot.Some? ==> !(b.profile.agent.dmaSlot.value <= i < b.profile.agent.dmaSlot.value + 16))
    && forall at: nat :: SpotOf(b, found, at) ==> !(at <= i < at + 4)
  }

  /** What was laid out before the entry and the immediates is in the output, where those leave it alone. */
  lemma LaidInOutput(b: Bundle, input: seq<byte>, found: Found, rom: seq<byte>, i: nat)
    requires Carries(b) && Written(b, input, found, rom) && LeftAlone(b, found, i)
    ensures var start := AgentPlace(b.profile, input);
      var plain := PutAll(Base(input, start), Plain(b, input, found, |b.profile.writes|));
      var whole := Over(plain, AgentPut(b, start));
      |plain| <= ImageAt(b.profile, start) && (i < |whole| ==> i < |rom| && rom[i] == whole[i])
  {
    hide AgentPlace; hide PutAll; hide Plain; hide AgentPut; hide StepsTo; hide SpotOf; hide ChecksumByte; hide Carries; hide Moves;
    hide Stored; hide Compute; hide Base; hide SetAll;
    var laid, size := Laid(b, input, found).value.0, Laid(b, input, found).value.1;
    var start, n := AgentPlace(b.profile, input), |b.profile.writes|;
    StepsAtSpots(b, found, laid, start, size, n);
    if i < |laid| { StepsLeave(laid, StepsTo(b, found, laid, start, size, n).value, i); }
  }

  /** Each write's bytes are in the output, where no later write is. */
  lemma WriteLands(b: Bundle, input: seq<byte>, found: Found, rom: seq<byte>, j: nat, i: nat)
    requires Carries(b) && Written(b, input, found, rom) && LeftAlone(b, found, i)
    requires j < |b.profile.writes| && PutsAt(b, input, found, b.profile.writes[j], i)
    requires forall k :: j < k < |b.profile.writes| ==> !PutsAt(b, input, found, b.profile.writes[k], i)
    ensures var p := PutBy(b, input, found, b.profile.writes[j]).value; i < |rom| && rom[i] == p.bytes[i - p.at]
  {
    hide Written; hide LeftAlone; hide PutsAt; hide PutBy; hide AgentPlace; hide PutAll; hide Plain; hide Base; hide Carries; hide ImageAt;
    PlainLands(b, input, found, |b.profile.writes|, j, i);
    LaidInOutput(b, input, found, rom, i);
  }

  /** The agent's image is in the output, whole, at the place its stub was told. */
  lemma AgentLands(b: Bundle, input: seq<byte>, found: Found, rom: seq<byte>, i: nat)
    requires Carries(b) && Written(b, input, found, rom)
    requires i < ImageLen(b) && LeftAlone(b, found, ImageAt(b.profile, AgentPlace(b.profile, input)) + i)
    ensures var at := ImageAt(b.profile, AgentPlace(b.profile, input));
      at + i < |rom| && rom[at + i] == b.blobs[b.profile.agent.image][i]
  {
    var start := AgentPlace(b.profile, input);
    hide Written; hide LeftAlone; hide AgentPlace; hide PutAll; hide Plain; hide Base; hide ImageAt; hide RoundUp;
    LaidInOutput(b, input, found, rom, ImageAt(b.profile, start) + i);
    var p := AgentPut(b, start);
    assert Covers(p, p.at + i) && p.bytes[i] == p.bytes[..ImageLen(b)][i];
  }

  // ---- what each pair loads ----

  /** The steps of a patch, and the image they are taken over. */
  function StepsIn(b: Bundle, input: seq<byte>, found: Found): (steps: seq<Step>)
    requires Carries(b) && ImageOf(b, input, found).Done?
  {
    var laid := Laid(b, input, found).value;
    StepsTo(b, found, laid.0, AgentPlace(b.profile, input), laid.1, |b.profile.writes|).value
  }

  function ValueIn(b: Bundle, input: seq<byte>, found: Found, w: Write): (v: uint32)
    requires Carries(b) && Laid(b, input, found).Done? && w.Imm?
  {
    ValueOf(b.profile, w.value, AgentPlace(b.profile, input), Laid(b, input, found).value.1)
  }

  /** Two words an immediate is written into are the same word or clear of each other. */
  ghost predicate Aligned(b: Bundle, found: Found) {
    forall s: nat, t: nat :: SpotOf(b, found, s) && SpotOf(b, found, t) ==> s == t || Apart(s, t)
  }

  predicate OffChecksum(at: nat) {
    at + 4 <= CRC_OFFSET || CRC_OFFSET + 8 <= at
  }

  /** The half a write puts at a word, by its value and by what its second instruction is. */
  function HalfOf(p: Profile, found: Found, laid: seq<byte>, w: Write, v: uint32, at: nat): (h: Option<uint16>)
    requires w.Imm?
  {
    match w.lo
    case None => if Resolve(p, found, w.hi) == Some(at) then Some(v / 0x1_0000) else None
    case Some(place) =>
      var lo := Resolve(p, found, place);
      if lo == Some(at) then Some(v % 0x1_0000)
      else if Resolve(p, found, w.hi) == Some(at) && lo.Some? && lo.value + 4 <= |laid|
      then Some(Halves(v, Opcode(Be32(laid, lo.value))).0) else None
  }

  /** The half that the last of the first `n` writes at a word puts there. */
  function LastAt(b: Bundle, found: Found, laid: seq<byte>, start: nat, size: uint32, n: nat, at: nat): (h: Option<uint16>)
    requires n <= |b.profile.writes|
  {
    if n == 0 then None
    else
      var w := b.profile.writes[n - 1];
      var h := if w.Imm? then HalfOf(b.profile, found, laid, w, ValueOf(b.profile, w.value, start, size), at) else None;
      if h.Some? then h else LastAt(b, found, laid, start, size, n - 1, at)
  }

  lemma WordInOutput(b: Bundle, input: seq<byte>, found: Found, rom: seq<byte>, at: nat)
    requires Carries(b) && Written(b, input, found, rom) && at + 4 <= |rom| && OffChecksum(at)
    ensures Be32(rom, at) == Be32(ImageOf(b, input, found).value, at)
  {
    hide ImageOf; hide Carries; hide Stored; hide Compute;
    var image := ImageOf(b, input, found).value;
    forall i | at <= i < at + 4 ensures rom[i] == image[i] { assert !ChecksumByte(i); }
  }

  /** The words of a write whose steps are done lie in the image. */
  lemma OwnSpots(b: Bundle, found: Found, laid: seq<byte>, start: nat, size: uint32, n: nat, w: Write, at: nat)
    requires n == |b.profile.writes| && StepsTo(b, found, laid, start, size, n).Done?
    requires w in b.profile.writes && at in Spots(b.profile, found, w)
    ensures SpotOf(b, found, at) && LastHalf(StepsTo(b, found, laid, start, size, n).value, at).Some? && at + 4 <= |laid|
  {
    hide StepsTo; hide Spots; hide LastHalf;
    var j :| 0 <= j < n && b.profile.writes[j] == w;
    OwnSteps(b, found, laid, start, size, n, j);
    StepsAtSpots(b, found, laid, start, size, n);
    LastIsThere(StepsTo(b, found, laid, start, size, n).value, at);
  }

  lemma {:induction false} LastIsThere(steps: seq<Step>, at: nat)
    requires LastHalf(steps, at).Some?
    ensures exists s <- steps :: s.at == at
  {
    if steps[|steps| - 1].at != at {
      LastIsThere(steps[..|steps| - 1], at);
      var s :| s in steps[..|steps| - 1] && s.at == at;
      assert s in steps;
    }
  }

  /**
   * In the output a pair loads its value exactly when, of all the profile's writes, the last at each of its two words
   * puts there the half this value has.
   */
  lemma PairInOutput(b: Bundle, input: seq<byte>, found: Found, rom: seq<byte>, w: Write, hi: nat, lo: nat)
    requires Carries(b) && Written(b, input, found, rom) && w in b.profile.writes && w.Imm? && w.lo.Some?
    requires Resolve(b.profile, found, w.hi) == Some(hi) && Resolve(b.profile, found, w.lo.value) == Some(lo)
    requires Aligned(b, found) && OffChecksum(hi) && OffChecksum(lo)
    ensures var laid, size := Laid(b, input, found).value.0, Laid(b, input, found).value.1;
      var start, n := AgentPlace(b.profile, input), |b.profile.writes|;
      && hi + 4 <= |rom| && lo + 4 <= |rom| && lo + 4 <= |laid|
      && var h := Halves(ValueIn(b, input, found, w), Opcode(Be32(laid, lo)));
        ImmValue(Be32(rom, hi), Be32(rom, lo)) == ValueIn(b, input, found, w)
        <==> LastAt(b, found, laid, start, size, n, hi) == Some(h.0) && LastAt(b, found, laid, start, size, n, lo) == Some(h.1)
  {
    var steps := StepsIn(b, input, found);
    var n, start := |b.profile.writes|, AgentPlace(b.profile, input);
    var laid, size := Laid(b, input, found).value.0, Laid(b, input, found).value.1;
    SpotsOf(b.profile, found, w, hi, lo);
    hide Laid; hide AgentPlace; hide Resolve; hide LastHalf; hide Halves; hide Be32; hide ImmValue; hide Carries; hide Opcode;
    hide ValueOf; hide SetAll; hide LastAt; hide Spots; hide SpotOf; hide Stored; hide Compute;
    OwnSpots(b, found, laid, start, size, n, w, hi);
    OwnSpots(b, found, laid, start, size, n, w, lo);
    LastIs(b, found, laid, start, size, n, hi);
    LastIs(b, found, laid, start, size, n, lo);
    TidySteps(b, found, laid, start, size, n, hi);
    TidySteps(b, found, laid, start, size, n, lo);
    WordInOutput(b, input, found, rom, hi);
    WordInOutput(b, input, found, rom, lo);
    PairLoadsIff(laid, steps, hi, lo, ValueIn(b, input, found, w));
  }

  lemma SpotsOf(p: Profile, found: Found, w: Write, hi: nat, lo: nat)
    requires w.Imm? && w.lo.Some? && Resolve(p, found, w.hi) == Some(hi) && Resolve(p, found, w.lo.value) == Some(lo)
    ensures hi in Spots(p, found, w) && lo in Spots(p, found, w)
  {
    hide Resolve;
  }

  lemma TidySteps(b: Bundle, found: Found, laid: seq<byte>, start: nat, size: uint32, n: nat, at: nat)
    requires n <= |b.profile.writes| && StepsTo(b, found, laid, start, size, n).Done? && Aligned(b, found) && SpotOf(b, found, at)
    ensures Tidy(StepsTo(b, found, laid, start, size, n).value, at)
  {
    hide StepsTo; hide SpotOf;
    StepsAtSpots(b, found, laid, start, size, n);
  }

  /** The last step at a word is that of the last write there. */
  lemma {:induction false} LastIs(b: Bundle, found: Found, laid: seq<byte>, start: nat, size: uint32, n: nat, at: nat)
    requires n <= |b.profile.writes| && StepsTo(b, found, laid, start, size, n).Done? && Aligned(b, found)
    ensures LastHalf(StepsTo(b, found, laid, start, size, n).value, at) == LastAt(b, found, laid, start, size, n, at)
  {
    hide Resolve; hide SetAll; hide Halves; hide Be32; hide Opcode; hide ValueOf; hide LastHalf; hide Aligned; hide SpotOf;
    if n > 0 {
      var w, before := b.profile.writes[n - 1], StepsTo(b, found, laid, start, size, n - 1).value;
      LastIs(b, found, laid, start, size, n - 1, at);
      if w.Imm? {
        var v := ValueOf(b.profile, w.value, start, size);
        var two := StepsOf(b.profile, found, SetAll(laid, before), w, v).value;
        LastOfTwo(before, two, at);
        if w.lo.Some? {
          var lo := Resolve(b.profile, found, w.lo.value).value;
          LowSpot(b, found, w, lo);
          TidySteps(b, found, laid, start, size, n - 1, lo);
          OpcodeAfter(laid, before, lo);
        }
        HalfIs(b.profile, found, SetAll(laid, before), laid, w, v, two, at);
      }
    } else {
      NoLast(at);
    }
  }

  lemma HalfIs(p: Profile, found: Found, out: seq<byte>, laid: seq<byte>, w: Write, v: uint32, two: seq<Step>, at: nat)
    requires w.Imm? && |out| == |laid| && StepsOf(p, found, out, w, v) == Done(two)
    requires w.lo.Some? ==> var lo := Resolve(p, found, w.lo.value).value; Opcode(Be32(out, lo)) == Opcode(Be32(laid, lo))
    ensures 1 <= |two| <= 2
    ensures HalfOf(p, found, laid, w, v, at)
         == if two[|two| - 1].at == at then Some(two[|two| - 1].half) else if two[0].at == at then Some(two[0].half) else None
  {
    hide Resolve; hide Be32; hide Opcode;
  }

  lemma NoLast(at: nat)
    ensures LastHalf([], at) == None
  {}

  lemma LowSpot(b: Bundle, found: Found, w: Write, lo: nat)
    requires w in b.profile.writes && w.Imm? && w.lo.Some? && Resolve(b.profile, found, w.lo.value) == Some(lo)
    ensures SpotOf(b, found, lo)
  {
    hide Resolve;
    assert lo in Spots(b.profile, found, w);
  }

  lemma LastOfTwo(before: seq<Step>, two: seq<Step>, at: nat)
    requires 1 <= |two| <= 2
    ensures LastHalf(before + two, at)
         == if two[|two| - 1].at == at then Some(two[|two| - 1].half)
            else if two[0].at == at then Some(two[0].half) else LastHalf(before, at)
  {
    assert (before + two)[..|before + two| - 1] == if |two| == 1 then before else before + [two[0]];
    assert |two| == 2 ==> (before + [two[0]])[..|before|] == before;
  }

  /** A write's own steps are among the steps, so each of its words has a last one. */
  lemma {:induction false} OwnSteps(b: Bundle, found: Found, laid: seq<byte>, start: nat, size: uint32, n: nat, j: nat)
    requires j < n <= |b.profile.writes| && StepsTo(b, found, laid, start, size, n).Done?
    ensures forall at <- Spots(b.profile, found, b.profile.writes[j]) :: LastHalf(StepsTo(b, found, laid, start, size, n).value, at).Some?
  {
    hide Resolve; hide SetAll; hide Halves; hide Be32; hide Opcode; hide ValueOf; hide LastHalf;
    var w, before := b.profile.writes[n - 1], StepsTo(b, found, laid, start, size, n - 1).value;
    if j < n - 1 { OwnSteps(b, found, laid, start, size, n - 1, j); }
    if w.Imm? {
      var two := StepsOf(b.profile, found, SetAll(laid, before), w, ValueOf(b.profile, w.value, start, size)).value;
      forall at { LastOfTwo(before, two, at); }
    }
  }

  /** A pair whose two words no later write sets loads its value. */
  lemma PairAlone(b: Bundle, input: seq<byte>, found: Found, rom: seq<byte>, j: nat, hi: nat, lo: nat)
    requires Carries(b) && Written(b, input, found, rom) && j < |b.profile.writes|
    requires b.profile.writes[j].Imm? && b.profile.writes[j].lo.Some? && hi != lo
    requires Resolve(b.profile, found, b.profile.writes[j].hi) == Some(hi)
    requires Resolve(b.profile, found, b.profile.writes[j].lo.value) == Some(lo)
    requires Aligned(b, found) && OffChecksum(hi) && OffChecksum(lo)
    requires forall k :: j < k < |b.profile.writes| ==>
      hi !in Spots(b.profile, found, b.profile.writes[k]) && lo !in Spots(b.profile, found, b.profile.writes[k])
    ensures hi + 4 <= |rom| && lo + 4 <= |rom|
    ensures ImmValue(Be32(rom, hi), Be32(rom, lo)) == ValueIn(b, input, found, b.profile.writes[j])
  {
    var laid, size := Laid(b, input, found).value.0, Laid(b, input, found).value.1;
    var start, n := AgentPlace(b.profile, input), |b.profile.writes|;
    hide Laid; hide AgentPlace; hide Resolve; hide Halves; hide Be32; hide ImmValue; hide Carries; hide Opcode; hide LastAt;
    hide ValueOf; hide SetAll; hide Aligned; hide Spots; hide Stored; hide Compute; hide StepsTo;
    PairInOutput(b, input, found, rom, b.profile.writes[j], hi, lo);
    LastIsOwn(b, found, laid, start, size, n, j, hi);
    LastIsOwn(b, found, laid, start, size, n, j, lo);
    OwnHalves(b.profile, found, laid, b.profile.writes[j], ValueIn(b, input, found, b.profile.writes[j]), hi, lo);
  }

  lemma OwnHalves(p: Profile, found: Found, laid: seq<byte>, w: Write, v: uint32, hi: nat, lo: nat)
    requires w.Imm? && w.lo.Some? && hi != lo && lo + 4 <= |laid|
    requires Resolve(p, found, w.hi) == Some(hi) && Resolve(p, found, w.lo.value) == Some(lo)
    ensures var h := Halves(v, Opcode(Be32(laid, lo)));
      HalfOf(p, found, laid, w, v, hi) == Some(h.0) && HalfOf(p, found, laid, w, v, lo) == Some(h.1)
  {
    hide Resolve; hide Opcode; hide Be32;
  }

  /** With no later write at a word, the last half there is a write's own, if it has one. */
  lemma {:induction false} LastIsOwn(b: Bundle, found: Found, laid: seq<byte>, start: nat, size: uint32, n: nat, j: nat, at: nat)
    requires j < n <= |b.profile.writes| && b.profile.writes[j].Imm?
    requires forall k :: j < k < n ==> at !in Spots(b.profile, found, b.profile.writes[k])
    ensures var w := b.profile.writes[j];
      var h := HalfOf(b.profile, found, laid, w, ValueOf(b.profile, w.value, start, size), at);
      h.Some? ==> LastAt(b, found, laid, start, size, n, at) == h
  {
    hide Resolve; hide Halves; hide Be32; hide Opcode; hide ValueOf;
    if j < n - 1 {
      LastIsOwn(b, found, laid, start, size, n - 1, j, at);
      assert at !in Spots(b.profile, found, b.profile.writes[n - 1]);
    }
  }

  lemma OpcodeAfter(out: seq<byte>, steps: seq<Step>, at: nat)
    requires at + 4 <= |out| && Tidy(steps, at)
    ensures Opcode(Be32(SetAll(out, steps), at)) == Opcode(Be32(out, at))
  {
    hide Be32; hide Opcode; hide SetAll; hide Tidy; hide LastHalf;
    WordAfter(out, steps, at);
  }

  // ---- how long it is ----

  /** One past the agent's BSS, alignment left out. */
  function AgentEndsAt(b: Bundle, start: nat): (end: nat) {
    ImageAt(b.profile, start) + ImageLen(b) + b.profile.agent.bss as int
  }

  /** The output fits a cart exactly when the agent's own end and its entry in the file table do. */
  lemma FitsIff(b: Bundle, input: seq<byte>, found: Found, rom: seq<byte>)
    requires Carries(b) && Written(b, input, found, rom)
    ensures |rom| <= ROM_LIMIT <==>
      && AgentEndsAt(b, AgentPlace(b.profile, input)) <= ROM_LIMIT
      && (b.profile.agent.dmaSlot.Some? ==> b.profile.agent.dmaSlot.value + 16 <= ROM_LIMIT)
  {
    hide AgentPlace; hide PutAll; hide Plain; hide StepsTo; hide Carries; hide Moves; hide Base; hide SetAll; hide Compute;
    hide Stored; hide RoundUp;
    RoundFits(AgentEndsAt(b, AgentPlace(b.profile, input)));
  }

  lemma RoundFits(end: nat)
    ensures (RoundUp(end, 4) <= ROM_LIMIT <==> end <= ROM_LIMIT) && (RoundUp(end, 16) <= ROM_LIMIT <==> end <= ROM_LIMIT)
  {}

  /** A seed that passes the room check fits, when nothing is appended before the agent. */
  lemma RoomIsEnough(b: Bundle, input: seq<byte>, found: Found, rom: seq<byte>)
    requires Carries(b) && Verified(b, input, found) && Written(b, input, found, rom) && b.profile.transform == None
    requires b.profile.agent.rom == RegionOf(b.profile.agent) && b.profile.agent.dmaSlot == None
    ensures |rom| <= ROM_LIMIT
  {
    hide Written; hide AllLocated; hide Passes; hide WriteFits; hide Moves;
    FitsIff(b, input, found, rom);
  }

  /** The room check looks at the region's start, so an agent placed after its region's start can end past what a cart holds. */
  lemma RoomIsNotEnough() returns (b: Bundle, input: seq<byte>)
    ensures Accepted(b.profile) && Carries(b) && Verified(b, input, map[]) && b.profile.transform == None
    ensures ImageOf(b, input, map[]).Done? && |ImageOf(b, input, map[]).value| > ROM_LIMIT
  {
    var agent := Agent("agent", ROM_LIMIT, Some(CRC_END), 0, None);
    b := Bundle(Profile([], [], [], agent, None), map["agent" := [1, 2, 3, 4]], 0, Cic6102, bytes => 0, bytes => Some(Cic6102), bytes => true);
    input := Zeros(CRC_END);
    hide Compute;
    assert Plain(b, input, map[], 0) == [] && PutAll(Base(input, CRC_END), []) == Base(input, CRC_END);
    assert |AgentPut(b, CRC_END).bytes| >= 4;
  }

  /** A profile may append below where the checksum's bytes end; the image can then be too short to sum. */
  lemma TooShortToSum() returns (b: Bundle, input: seq<byte>)
    ensures Accepted(b.profile) && Carries(b) && Verified(b, input, map[])
    ensures ImageOf(b, input, map[]).Done? && |ImageOf(b, input, map[]).value| < CRC_END
  {
    var agent := Agent("agent", CRC_START, None, 0, None);
    b := Bundle(Profile([], [], [], agent, None), map["agent" := [1, 2, 3, 4]], 0, Cic6102, bytes => 0, bytes => Some(Cic6102), bytes => true);
    input := Zeros(CRC_END);
    hide Compute;
    assert Plain(b, input, map[], 0) == [] && PutAll(Base(input, CRC_START), []) == Base(input, CRC_START);
    assert |AgentPut(b, CRC_START).bytes| < 8;
  }
}
