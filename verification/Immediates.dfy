/** Values split over the immediates of two instructions, and which of several such writes a pair is left with. */
module Immediates {
  import opened Bytes
  import opened PatchProfile
  import opened Patcher

  type uint16s = (uint16, uint16)

  /** The halves that make a pair load `v`, by which of the two its second instruction is. */
  function Halves(v: uint32, op: nat): (h: uint16s) {
    (if op == ADDIU then (v + 0x8000) % 0x1_0000_0000 / 0x1_0000 else v / 0x1_0000, v % 0x1_0000)
  }

  function WithHalf(word: uint32, half: uint16): (w: uint32)
    ensures w % 0x1_0000 == half && w / 0x1_0000 == word / 0x1_0000 && Opcode(w) == Opcode(word)
  {
    word / 0x1_0000 * 0x1_0000 + half
  }

  /** A pair loads `v` when it has exactly these halves, and never otherwise. */
  lemma LoadsIff(hi: uint32, lo: uint32, v: uint32)
    ensures ImmValue(hi, lo) == v <==> (hi % 0x1_0000, lo % 0x1_0000) == Halves(v, Opcode(lo))
  {
    var h, l := hi % 0x1_0000, lo % 0x1_0000;
    hide Opcode;
    if Opcode(lo) == ADDIU { SignedSplit(h, l, v); } else { PlainSplit(h, l, v); }
  }

  lemma PlainSplit(h: uint16, l: uint16, v: uint32)
    ensures (h * 0x1_0000 + l) % 0x1_0000_0000 == v <==> h == v / 0x1_0000 && l == v % 0x1_0000
  {}

  /** The low half counts as negative from 0x8000 on, so the high half is one more. */
  lemma SignedSplit(h: uint16, l: uint16, v: uint32)
    ensures (h as int * 0x1_0000 + if l < 0x8000 then l as int else l - 0x1_0000) % 0x1_0000_0000 == v
       <==> h == (v + 0x8000) % 0x1_0000_0000 / 0x1_0000 && l == v % 0x1_0000
  {
    var sum := h as int * 0x1_0000 + if l < 0x8000 then l as int else l - 0x1_0000;
    assert sum % 0x1_0000_0000 == if sum < 0 then sum + 0x1_0000_0000 else sum;
    assert (v + 0x8000) % 0x1_0000_0000 == if v < 0xFFFF_8000 then v + 0x8000 else v - 0xFFFF_8000;
  }

  datatype Step = Step(at: nat, half: uint16)

  predicate Apart(x: nat, y: nat) {
    x + 4 <= y || y + 4 <= x
  }

  /** One instruction's immediate replaced, its opcode and registers kept. */
  function SetHalf(out: seq<byte>, s: Step): (r: seq<byte>)
    ensures |r| == |out|
  {
    if s.at + 4 <= |out| then Over(out, PutOf(out, s)) else out
  }

  function PutOf(out: seq<byte>, s: Step): (p: Put)
    requires s.at + 4 <= |out|
  {
    Put(s.at, Put32(WithHalf(Be32(out, s.at), s.half)))
  }

  function SetAll(out: seq<byte>, steps: seq<Step>): (r: seq<byte>)
    ensures |r| == |out|
  {
    if steps == [] then out else SetHalf(SetAll(out, steps[..|steps| - 1]), steps[|steps| - 1])
  }

  lemma SetAllOne(out: seq<byte>, steps: seq<Step>, s: Step)
    ensures SetAll(out, steps + [s]) == SetHalf(SetAll(out, steps), s)
  {
    assert (steps + [s])[..|steps|] == steps;
  }

  /** The half the last of the steps at a word leaves there. */
  function LastHalf(steps: seq<Step>, at: nat): (h: Option<uint16>) {
    if steps == [] then None
    else if steps[|steps| - 1].at == at then Some(steps[|steps| - 1].half)
    else LastHalf(steps[..|steps| - 1], at)
  }

  /** Every step is at this very word or clear of it. */
  predicate Tidy(steps: seq<Step>, at: nat) {
    forall k :: 0 <= k < |steps| ==> steps[k].at == at || Apart(steps[k].at, at)
  }

  lemma SetHalfWord(out: seq<byte>, s: Step, at: nat)
    requires s.at + 4 <= |out| && at + 4 <= |out|
    requires s.at == at || Apart(s.at, at)
    ensures Be32(SetHalf(out, s), at) == if s.at == at then WithHalf(Be32(out, at), s.half) else Be32(out, at)
  {
    hide WithHalf; hide Put32;
    var r, p := SetHalf(out, s), PutOf(out, s);
    if s.at == at {
      forall i | 0 <= i < 4 ensures r[at + i] == p.bytes[i] { assert Covers(p, at + i); }
      WordRead(r, at, p.bytes);
    } else {
      var w := out[at..at + 4];
      forall i | 0 <= i < 4 ensures r[at + i] == w[i] { assert !Covers(p, at + i); }
      WordRead(r, at, w);
      WordRead(out, at, w);
    }
  }

  /** After all the steps a word is as it was, but for the half the last of them put there. */
  lemma {:induction false} WordAfter(out: seq<byte>, steps: seq<Step>, at: nat)
    requires at + 4 <= |out| && Tidy(steps, at)
    ensures Be32(SetAll(out, steps), at)
         == match LastHalf(steps, at) case Some(h) => WithHalf(Be32(out, at), h) case None => Be32(out, at)
  {
    hide WithHalf; hide SetHalf; hide Be32;
    if steps != [] {
      var rest, s := steps[..|steps| - 1], steps[|steps| - 1];
      WordAfter(out, rest, at);
      if s.at + 4 <= |out| {
        SetHalfWord(SetAll(out, rest), s, at);
        WithTwice(Be32(out, at), s.half);
      } else {
        SetPastEnd(SetAll(out, rest), s);
      }
    }
  }

  lemma SetPastEnd(out: seq<byte>, s: Step)
    requires s.at + 4 > |out|
    ensures SetHalf(out, s) == out
  {}

  lemma WithTwice(word: uint32, half: uint16)
    ensures forall h: uint16 :: WithHalf(WithHalf(word, h), half) == WithHalf(word, half)
  {}

  /**
   * A pair loads its value in the end exactly when the last immediates written at its two words are the
   * halves of that value.
   */
  lemma PairLoadsIff(out: seq<byte>, steps: seq<Step>, hi: nat, lo: nat, v: uint32)
    requires hi + 4 <= |out| && lo + 4 <= |out| && Tidy(steps, hi) && Tidy(steps, lo)
    requires LastHalf(steps, hi).Some? && LastHalf(steps, lo).Some?
    ensures var after := SetAll(out, steps);
      ImmValue(Be32(after, hi), Be32(after, lo)) == v
      <==> (LastHalf(steps, hi).value, LastHalf(steps, lo).value) == Halves(v, Opcode(Be32(out, lo)))
  {
    hide Be32; hide ImmValue; hide Halves; hide SetAll; hide Tidy; hide LastHalf;
    WordAfter(out, steps, hi);
    WordAfter(out, steps, lo);
    LoadsIff(Be32(SetAll(out, steps), hi), Be32(SetAll(out, steps), lo), v);
  }
}
