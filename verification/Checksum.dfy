/** The header checksum a console's boot code verifies. */
module Checksum {
  import opened Bytes

  const CRC_START: nat := 0x1000
  const CRC_END: nat := 0x10_1000
  const CRC_OFFSET: nat := 0x10
  /** Where the 6105's boot code keeps the words it mixes in. */
  const MIXED: nat := 0x40 + 0x0710

  datatype Cic = Cic6101 | Cic6102 | Cic6103 | Cic6105

  datatype Sums = Sums(t1: uint32, t2: uint32, t3: uint32, t4: uint32, t5: uint32, t6: uint32)

  function Seed(cic: Cic): (s: uint32) {
    match cic
    case Cic6101 => 0xF8CA_4DDC
    case Cic6102 => 0xF8CA_4DDC
    case Cic6103 => 0xA388_6759
    case Cic6105 => 0xDF26_F436
  }

  function Add(a: uint32, b: uint32): (c: uint32) {
    (a as int + b as int) % 0x1_0000_0000
  }

  function Xor(a: uint32, b: uint32): (c: uint32) {
    ((a as bv32) ^ (b as bv32)) as uint32
  }

  function RotateLeft(d: uint32, n: nat): (c: uint32)
    requires n < 32
  {
    (d as bv32).RotateLeft(n) as uint32
  }

  /** One word of the sum, and the word of the boot code a 6105 mixes with it. */
  function Step(s: Sums, cic: Cic, d: uint32, mixed: uint32): (t: Sums) {
    var t6 := Add(s.t6, d);
    var t4 := if t6 < s.t6 then Add(s.t4, 1) else s.t4;
    var rot := RotateLeft(d, d % 32);
    var t5 := Add(s.t5, rot);
    var t2 := Xor(s.t2, if s.t2 > d then rot else Xor(t6, d));
    Sums(Add(s.t1, Xor(if cic == Cic6105 then mixed else t5, d)), t2, Xor(s.t3, d), t4, t5, t6)
  }

  const WORDS: nat := 0x4_0000

  /** The `k`th word of the sum, and the one mixed with it. */
  function WordAt(rom: seq<byte>, k: nat): (w: uint32)
    requires CRC_END <= |rom| && k < WORDS
  {
    Be32(rom, CRC_START + 4 * k)
  }

  function MixedAt(rom: seq<byte>, k: nat): (w: uint32)
    requires CRC_END <= |rom|
  {
    Be32(rom, MIXED + (CRC_START + 4 * k) % 0x100)
  }

  /** The sums of the words from the `k`th on. */
  function SumFrom(rom: seq<byte>, cic: Cic, k: nat, s: Sums): (t: Sums)
    requires CRC_END <= |rom|
    decreases WORDS - k
  {
    if k >= WORDS then s else SumFrom(rom, cic, k + 1, Step(s, cic, WordAt(rom, k), MixedAt(rom, k)))
  }

  function Finish(cic: Cic, s: Sums): (words: (uint32, uint32)) {
    if cic == Cic6103 then (Add(Xor(s.t6, s.t4), s.t3), Add(Xor(s.t5, s.t2), s.t1))
    else (Xor(Xor(s.t6, s.t4), s.t3), Xor(Xor(s.t5, s.t2), s.t1))
  }

  function Begin(cic: Cic): (s: Sums) {
    var seed := Seed(cic);
    Sums(seed, seed, seed, seed, seed, seed)
  }

  function Compute(rom: seq<byte>, cic: Cic): (words: (uint32, uint32))
    requires CRC_END <= |rom|
  {
    Finish(cic, SumFrom(rom, cic, 0, Begin(cic)))
  }

  function Stored(rom: seq<byte>): (words: (uint32, uint32))
    requires CRC_END <= |rom|
  {
    (Be32(rom, CRC_OFFSET), Be32(rom, CRC_OFFSET + 4))
  }

  /** The checksum is of nothing before the boot code. */
  lemma {:induction false} SumSame(a: seq<byte>, b: seq<byte>, cic: Cic, k: nat, s: Sums)
    requires CRC_END <= |a| && CRC_END <= |b| && forall i :: 0x40 <= i < CRC_END ==> a[i] == b[i]
    ensures SumFrom(a, cic, k, s) == SumFrom(b, cic, k, s)
    decreases WORDS - k
  {
    hide Step;
    if k < WORDS {
      assert WordAt(a, k) == WordAt(b, k) && MixedAt(a, k) == MixedAt(b, k);
      SumSame(a, b, cic, k + 1, Step(s, cic, WordAt(a, k), MixedAt(a, k)));
    }
  }

  lemma ComputeSame(a: seq<byte>, b: seq<byte>, cic: Cic)
    requires CRC_END <= |a| && CRC_END <= |b| && forall k :: 0x40 <= k < CRC_END ==> a[k] == b[k]
    ensures Compute(a, cic) == Compute(b, cic)
  {
    hide Step; hide Finish;
    SumSame(a, b, cic, 0, Begin(cic));
  }

  method Sum(rom: seq<byte>, cic: Cic) returns (words: (uint32, uint32))
    requires CRC_END <= |rom|
    ensures words == Compute(rom, cic)
  {
    hide Step; hide Finish;
    var s := Begin(cic);
    for k := 0 to WORDS
      invariant SumFrom(rom, cic, k, s) == SumFrom(rom, cic, 0, Begin(cic))
    {
      s := Step(s, cic, WordAt(rom, k), MixedAt(rom, k));
    }
    words := Finish(cic, s);
  }

  /** A ROM with these as its checksum. */
  function WithSums(rom: seq<byte>, words: (uint32, uint32)): (out: seq<byte>)
    requires CRC_END <= |rom|
    ensures |out| == |rom|
  {
    rom[..CRC_OFFSET] + (Put32(words.0) + Put32(words.1)) + rom[CRC_OFFSET + 8..]
  }

  /** Storing the checksum changes nothing else, and not what it comes to. */
  lemma SumsStored(rom: seq<byte>, cic: Cic)
    requires CRC_END <= |rom|
    ensures var out := WithSums(rom, Compute(rom, cic));
      && Stored(out) == Compute(out, cic)
      && forall k :: 0 <= k < |rom| && !(CRC_OFFSET <= k < CRC_OFFSET + 8) ==> out[k] == rom[k]
  {
    hide SumFrom; hide Finish; hide Compute; hide Put32;
    var sums := Compute(rom, cic);
    var out, words := WithSums(rom, sums), Put32(sums.0) + Put32(sums.1);
    ComputeSame(rom, out, cic);
    assert forall k :: 0 <= k < 8 ==> out[CRC_OFFSET + k] == words[k];
    StoredIs(out, sums.0, sums.1);
  }

  /** The ROM with its checksum recomputed and stored. */
  method Fix(rom: seq<byte>, cic: Cic) returns (out: seq<byte>)
    requires CRC_END <= |rom|
    ensures out == WithSums(rom, Compute(rom, cic)) && Stored(out) == Compute(out, cic)
    ensures forall k :: 0 <= k < |rom| && !(CRC_OFFSET <= k < CRC_OFFSET + 8) ==> out[k] == rom[k]
  {
    hide SumFrom; hide Finish; hide Compute; hide WithSums; hide Stored;
    var sums := Sum(rom, cic);
    out := WithSums(rom, sums);
    SumsStored(rom, cic);
  }

  lemma StoredIs(out: seq<byte>, a: uint32, b: uint32)
    requires CRC_END <= |out| && forall k :: 0 <= k < 8 ==> out[CRC_OFFSET + k] == (Put32(a) + Put32(b))[k]
    ensures Stored(out) == (a, b)
  {
    var p, q := Put32(a), Put32(b);
    assert forall k :: 0 <= k < 4 ==> out[CRC_OFFSET + k] == (p + q)[k] == p[k];
    forall k | 0 <= k < 4 ensures out[CRC_OFFSET + 4 + k] == q[k] {
      assert out[CRC_OFFSET + (4 + k)] == (p + q)[4 + k];
    }
    hide Put32;
    WordRead(out, CRC_OFFSET, p);
    WordRead(out, CRC_OFFSET + 4, q);
  }
}
