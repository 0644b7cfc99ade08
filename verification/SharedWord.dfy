/**
 * A profile that is accepted and a seed that passes it, patched into a ROM in which one of the pairs that were to be
 * set does not load its value: the two share a `lui`, and the second write is the last there.
 */
module SharedWord {
  import opened Bytes
  import opened PatchProfile
  import opened Checksum
  import opened Patcher
  import opened Immediates
  import opened PatchWrites
  import opened Patching
  import opened PatchFacts

  const HI: nat := 0x2000
  const LUI_T0: uint32 := 0x3C08_0000
  const ORI_T0: uint32 := 0x3508_0000

  function Fixed(offset: nat): (at: Place) {
    Place(None, offset)
  }

  function First(): (w: Write) {
    Imm(Fixed(HI), Some(Fixed(HI + 4)), Const(0x1_0000))
  }

  function Second(): (w: Write) {
    Imm(Fixed(HI), Some(Fixed(HI + 8)), Const(0x2_0000))
  }

  function Example(): (p: Profile) {
    Profile([], [Word(Fixed(HI), LUI_T0), Word(Fixed(HI + 4), ORI_T0), Word(Fixed(HI + 8), ORI_T0)],
            [First(), Second()], Agent("agent", CRC_END, None, 0, None), None)
  }

  function Built(): (b: Bundle) {
    Bundle(Example(), map["agent" := [1, 2, 3, 4]], 0, Cic6102, bytes => 0, bytes => Some(Cic6102), bytes => true)
  }

  function Code(): (code: seq<byte>) {
    Put32(LUI_T0) + Put32(ORI_T0) + Put32(ORI_T0)
  }

  function Seed(): (rom: seq<byte>)
    ensures |rom| == CRC_END
  {
    Zeros(HI) + Code() + Zeros(CRC_END - HI - 12)
  }

  lemma SeedWords()
    ensures Be32(Seed(), HI) == LUI_T0 && Be32(Seed(), HI + 4) == ORI_T0 && Be32(Seed(), HI + 8) == ORI_T0
  {
    var rom, code := Seed(), Code();
    forall i | 0 <= i < 12 ensures rom[HI + i] == code[i] {}
    hide Seed; hide Zeros;
    WordRead(rom, HI, Put32(LUI_T0));
    forall i | 0 <= i < 4 ensures rom[HI + 4 + i] == Put32(ORI_T0)[i] { assert rom[HI + (4 + i)] == code[4 + i]; }
    WordRead(rom, HI + 4, Put32(ORI_T0));
    forall i | 0 <= i < 4 ensures rom[HI + 8 + i] == Put32(ORI_T0)[i] { assert rom[HI + (8 + i)] == code[8 + i]; }
    WordRead(rom, HI + 8, Put32(ORI_T0));
  }

  lemma StaysPut()
    ensures !Moves(Example()) && AgentPlace(Example(), Seed()) == CRC_END
  {
    hide Seed;
    var p := Example();
    assert forall w <- p.writes :: w == First() || w == Second();
  }

  /** Each of the three words is checked. */
  lemma WordsChecked(k: nat)
    requires k < 3
    ensures Checked(Example(), Fixed(HI + 4 * k), 4)
  {
    var p := Example();
    assert p.checks[k] in p.checks && Places(p.checks[k]) == [(Fixed(HI + 4 * k), 4)];
    assert Within(Fixed(HI + 4 * k), 4, Places(p.checks[k])[0]);
  }

  lemma WritesAccepted()
    ensures forall w <- Example().writes :: WriteAccepted(Example(), w)
  {
    var p := Example();
    StaysPut();
    WordsChecked(0);
    WordsChecked(1);
    WordsChecked(2);
    hide Moves; hide Seed; hide Checked; hide AgentPlace;
    assert Pinned(p, Fixed(HI), 4) == Pinned(p, Fixed(HI + 4), 4) == Pinned(p, Fixed(HI + 8), 4) == Some(true);
    hide Pinned;
    assert forall w <- p.writes :: w == First() || w == Second();
  }

  lemma IsAccepted()
    ensures Accepted(Example())
  {
    StaysPut();
    WritesAccepted();
    hide WriteAccepted; hide Moves; hide AgentPlace; hide Seed; hide First; hide Second;
  }

  lemma IsCarried()
    ensures Carries(Built())
  {
    assert forall w <- Example().writes :: w == First() || w == Second();
  }

  lemma IsVerified()
    ensures Verified(Built(), Seed(), map[])
  {
    var b, rom := Built(), Seed();
    StaysPut();
    SeedWords();
    hide Seed; hide Moves; hide Be32;
    forall r <- b.profile.checks ensures Passes(b, rom, map[], r) {}
    forall w <- b.profile.writes ensures WriteFits(b, rom, w) {}
    assert Restored(b.profile, rom, 2) == Restored(b.profile, rom, 1) == Restored(b.profile, rom, 0) == rom;
  }

  /** The image before its immediates: the seed, and the agent behind it. */
  lemma IsLaid() returns (laid: seq<byte>, size: uint32)
    ensures Carries(Built())
    ensures Laid(Built(), Seed(), map[]) == Done((laid, size)) && |laid| > CRC_END
    ensures Be32(laid, HI) == LUI_T0 && Be32(laid, HI + 4) == ORI_T0 && Be32(laid, HI + 8) == ORI_T0
  {
    var b, rom := Built(), Seed();
    StaysPut();
    SeedWords();
    IsCarried();
    hide Seed; hide Moves; hide AgentPlace; hide Accepted; hide RoundUp; hide Carries;
    assert b.profile.writes[0].Imm? && b.profile.writes[1].Imm?;
    assert Plain(b, rom, map[], 2) == Plain(b, rom, map[], 1) == Plain(b, rom, map[], 0) == [];
    assert Base(rom, CRC_END) == rom && PutAll(rom, []) == rom;
    var put := AgentPut(b, CRC_END);
    laid := Over(rom, put);
    assert |put.bytes| >= 4;
    size := Wrapped(|laid| - CRC_END);
    assert forall i :: 0 <= i < CRC_END ==> !Covers(put, i);
    assert forall i :: 0 <= i < CRC_END ==> laid[i] == rom[i];
  }

  /** The patch goes through, and then the first pair does not load its value: it loads the second's. */
  lemma FirstIsLost() returns (rom: seq<byte>)
    ensures Accepted(Example()) && Carries(Built()) && Verified(Built(), Seed(), map[])
    ensures Written(Built(), Seed(), map[], rom) && |rom| > HI + 12
    ensures ValueIn(Built(), Seed(), map[], First()) == 0x1_0000
    ensures ImmValue(Be32(rom, HI), Be32(rom, HI + 4)) == 0x2_0000
  {
    var b, seed := Built(), Seed();
    IsAccepted();
    IsCarried();
    IsVerified();
    var laid, size := IsLaid();
    var start := AgentPlace(b.profile, seed);
    var steps := StepsAre(laid, start, size);
    hide Seed; hide Accepted; hide Verified; hide Carries; hide Laid; hide AgentPlace; hide StepsTo; hide Compute; hide Stored; hide SetAll;
    hide Be32; hide ImmValue; hide Opcode; hide Tidy; hide LastHalf; hide Halves;
    var image := SetAll(laid, steps);
    SumsStored(image, b.cic);
    rom := WithSums(image, Compute(image, b.cic));
    hide WithSums;
    assert ImageOf(b, seed, map[]) == Done(image);
    WordInOutput(b, seed, map[], rom, HI);
    WordInOutput(b, seed, map[], rom, HI + 4);
    PairLoadsIff(laid, steps, HI, HI + 4, 0x2_0000);
    OriHalves();
  }

  lemma OriHalves()
    ensures Opcode(ORI_T0) == ORI && Halves(0x1_0000, ORI) == (1, 0) && Halves(0x2_0000, ORI) == (2, 0)
  {}

  /** What the two writes set, in their order. */
  lemma StepsAre(laid: seq<byte>, start: nat, size: uint32) returns (steps: seq<Step>)
    requires |laid| > CRC_END && Be32(laid, HI + 4) == ORI_T0 && Be32(laid, HI + 8) == ORI_T0
    ensures StepsTo(Built(), map[], laid, start, size, 2) == Done(steps)
    ensures Tidy(steps, HI) && Tidy(steps, HI + 4) && LastHalf(steps, HI) == Some(2) && LastHalf(steps, HI + 4) == Some(0)
  {
    var b := Built();
    OriHalves();
    hide Be32; hide Halves; hide SetAll; hide Opcode;
    var one := [Step(HI, 1), Step(HI + 4, 0)];
    assert SetAll(laid, []) == laid by { SetNone(laid); }
    assert StepsTo(b, map[], laid, start, size, 0) == Done([]);
    assert [] + one == one;
    assert StepsTo(b, map[], laid, start, size, 1) == Done(one);
    assert Tidy(one, HI + 8);
    OpcodeAfter(laid, one, HI + 8);
    steps := one + [Step(HI, 2), Step(HI + 8, 0)];
    assert StepsTo(b, map[], laid, start, size, 2) == Done(steps);
    LastOfTwo(one, [Step(HI, 2), Step(HI + 8, 0)], HI);
    LastOfTwo(one, [Step(HI, 2), Step(HI + 8, 0)], HI + 4);
  }
}
