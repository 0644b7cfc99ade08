/** L3 frames in an octet stream, as a one-shot parse of the whole stream. */
module L3Stream {
  import opened Bytes
  import opened OneShot

  const L3_MAGIC: seq<byte> := [0x4D, 0x36, 0x34, 0x42] // M64B
  const L3_HEADER_LEN: nat := 16
  /** One M64P exchange behind an L3 header, with slack. */
  const AGENT_RX_CAP: nat := 16 + (5 + 3 + 32 * 2 + 7936) + 256 + 16

  /** From `at` on the bytes agree with the magic as far as both go. */
  predicate MagicAt(s: seq<byte>, at: nat) {
    forall k :: 0 <= k < 4 && at + k < |s| ==> s[at + k] == L3_MAGIC[k]
  }

  /** A type the protocol defines, a channel it does not reserve, and a payload the agent could hold. */
  predicate Plausible(s: seq<byte>, at: nat)
    requires at + L3_HEADER_LEN <= |s|
  {
    && s[at + 4] in {0x01, 0x02, 0x03, 0x10, 0x11, 0x12, 0x20, 0x21, 0x30, 0x31, 0x32, 0x33}
    && !(0x03 <= s[at + 5] <= 0x7F)
    && Be32(s, at + 12) <= AGENT_RX_CAP - L3_HEADER_LEN
  }

  /** What the stream holds at `at`: a byte of junk, or a frame. */
  function L3Step(s: seq<byte>, at: nat): (r: Option<Parsed<seq<byte>>>)
  {
    if at >= |s| then None
    else if !MagicAt(s, at) then Some(Parsed(at + 1, []))
    else if at + L3_HEADER_LEN > |s| then None
    else if !Plausible(s, at) then Some(Parsed(at + 1, []))
    else
      var next := at + L3_HEADER_LEN + Be32(s, at + 12);
      if next > |s| then None else Some(Parsed(next, [s[at..next]]))
  }

  lemma L3StepGood()
    ensures Good(L3Step)
  {
    forall s: seq<byte>, u: seq<byte>, at: nat | s <= u && L3Step(s, at).Some?
      ensures L3Step(u, at) == L3Step(s, at)
    {
      assert forall i :: 0 <= i < |s| ==> s[i] == u[i];
      if !MagicAt(s, at) {
        var k :| 0 <= k < 4 && at + k < |s| && s[at + k] != L3_MAGIC[k];
        assert u[at + k] != L3_MAGIC[k];
      } else {
        forall k | 0 <= k < 4 ensures u[at + k] == L3_MAGIC[k] {}
        var next := at + L3_HEADER_LEN + Be32(s, at + 12);
        if Plausible(s, at) { assert s[at..next] == u[at..next]; }
      }
    }
  }

  /** A frame a host sends: the magic, a plausible header, and the payload its header says. */
  ghost predicate WellFormed(f: seq<byte>) {
    && L3_HEADER_LEN <= |f| && f[..4] == L3_MAGIC && Plausible(f, 0)
    && |f| == L3_HEADER_LEN + Be32(f, 12)
  }

  lemma StepTakesFrame(s: seq<byte>, at: nat, f: seq<byte>)
    requires WellFormed(f) && at + |f| <= |s| && s[at..at + |f|] == f
    ensures L3Step(s, at) == Some(Parsed(at + |f|, [f]))
  {
    forall i | 0 <= i < |f| ensures s[at + i] == f[i] {
      assert s[at..at + |f|][i] == s[at + i];
    }
    assert forall k :: 0 <= k < 4 ==> f[k] == f[..4][k];
  }

  /** The one-shot parse of frames sent end to end is those frames. */
  lemma {:induction false} FramesParse(pre: seq<byte>, frames: seq<seq<byte>>)
    requires forall f <- frames :: WellFormed(f)
    ensures All(L3Step, pre + Concat(frames), |pre|) == frames
    decreases |frames|
  {
    hide L3Step; hide WellFormed; hide Concat; hide All;
    if frames == [] {
      NothingLeft(pre);
    } else {
      var f, rest := frames[0], frames[1..];
      var s, next := pre + Concat(frames), pre + f;
      FirstOf(pre, frames);
      StepTakesFrame(s, |pre|, f);
      NotEmpty(f);
      AllStep(L3Step, s, |pre|);
      FramesParse(next, rest);
      assert [f] + rest == frames;
    }
  }

  lemma FirstOf(pre: seq<byte>, frames: seq<seq<byte>>)
    requires frames != []
    ensures var s, f := pre + Concat(frames), frames[0];
      s == pre + f + Concat(frames[1..]) && |pre| + |f| <= |s| && s[|pre|..|pre| + |f|] == f
  {}

  lemma NothingLeft(pre: seq<byte>)
    ensures All(L3Step, pre + Concat([]), |pre|) == []
  {
    hide L3Step;
    assert pre + [] == pre;
    NothingThere(pre);
  }

  lemma NothingThere(s: seq<byte>)
    ensures L3Step(s, |s|) == None
  {}

  lemma NotEmpty(f: seq<byte>)
    requires WellFormed(f)
    ensures f != []
  {}
}
