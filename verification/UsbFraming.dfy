/**
 * The DMA@ framing of the host's USB stream, as a one-shot parse of the whole stream.
 *
 * A message is `DMA@`, a datatype, a 24-bit size, the payload padded to 2 bytes, and `CMPH`.
 */
module UsbFraming {
  import opened Bytes
  import opened OneShot

  const DATATYPE_L3: byte := 0x01
  const MAGIC: seq<byte> := [0x44, 0x4D, 0x41, 0x40]   // DMA@
  const TRAILER: seq<byte> := [0x43, 0x4D, 0x50, 0x48] // CMPH
  /** The most a message may carry: four 512-byte windows, what the driver's queue holds. */
  const RXQ_CAP: nat := 2048

  /** An element of the trace: one L3 byte, or a gap of unknown length. */
  datatype Item = Octet(b: byte) | Lost

  function Octets(s: seq<byte>): (items: seq<Item>)
    ensures |items| == |s|
  {
    seq(|s|, i requires 0 <= i < |s| => Octet(s[i]))
  }

  function Padded(size: nat): (n: nat)
    ensures n % 2 == 0 && size <= n <= size + 1
  {
    (size + 1) / 2 * 2
  }

  /** What the stream holds at `at`, message by message. */
  function UsbStep(s: seq<byte>, at: nat): (r: Option<Parsed<Item>>)
  {
    if at + 8 > |s| then None
    else if s[at..at + 4] != MAGIC then Some(Parsed(at + 8, [Lost]))
    else
      var size := Be24(s, at + 5);
      var after := at + 12 + Padded(size);
      if s[at + 4] != DATATYPE_L3 then Some(Parsed(after, []))
      else if size > RXQ_CAP then Some(Parsed(after, [Lost]))
      else if after > |s| then None
      else if s[after - 4..after] != TRAILER then Some(Parsed(after, [Lost]))
      else Some(Parsed(after, Octets(s[at + 8..at + 8 + size])))
  }

  lemma UsbStepGood()
    ensures Good(UsbStep)
  {
    forall s: seq<byte>, u: seq<byte>, at: nat | s <= u && UsbStep(s, at).Some?
      ensures UsbStep(u, at) == UsbStep(s, at)
    {
      assert s == u[..|s|];
      assert s[at..at + 4] == u[at..at + 4];
      var after := at + 12 + Padded(Be24(s, at + 5));
      if after <= |s| {
        assert s[after - 4..after] == u[after - 4..after];
        if at + 8 + Be24(s, at + 5) <= after {
          assert s[at + 8..at + 8 + Be24(s, at + 5)] == u[at + 8..at + 8 + Be24(s, at + 5)];
        }
      }
    }
  }

  /** A message a host sends. */
  datatype Message = Message(datatypeId: byte, payload: seq<byte>)

  function Encode(m: Message): (s: seq<byte>)
    requires |m.payload| < 0x100_0000
    ensures |s| == 12 + Padded(|m.payload|)
  {
    MAGIC + [m.datatypeId] + Put24(|m.payload|) + m.payload
      + Zeros(Padded(|m.payload|) - |m.payload|) + TRAILER
  }

  /**
   * The console's framing: prefix, header, payload, trailer, then zeros to a block's end. The host's differs:
   * it has a padding byte between an odd payload and the trailer.
   */
  function Outgoing(payload: seq<byte>): (s: seq<byte>)
    requires |payload| < 0x100_0000
    ensures |s| == Padded(|payload| + 12)
  {
    OutgoingHead(|payload|) + payload + TRAILER + Zeros(Padded(|payload| + 12) - (|payload| + 12))
  }

  function OutgoingHead(len: nat): (s: seq<byte>)
    requires len < 0x100_0000
    ensures |s| == 8
  {
    MAGIC + [DATATYPE_L3] + Put24(len)
  }

  /** Messages as the host must send them: sizes that fit the header, L3 ones that fit the queue. */
  ghost predicate Sendable(ms: seq<Message>) {
    forall m <- ms :: |m.payload| < 0x100_0000 && (m.datatypeId == DATATYPE_L3 ==> |m.payload| <= RXQ_CAP)
  }

  function Wire(ms: seq<Message>): (s: seq<byte>)
    requires Sendable(ms)
  {
    if ms == [] then [] else Encode(ms[0]) + Wire(ms[1..])
  }

  /** The L3 stream the messages carry. */
  function L3Bytes(ms: seq<Message>): (s: seq<byte>)
  {
    if ms == [] then []
    else (if ms[0].datatypeId == DATATYPE_L3 then ms[0].payload else []) + L3Bytes(ms[1..])
  }

  /** Where each part of an encoded message is. */
  lemma EncodedParts(m: Message)
    requires |m.payload| < 0x100_0000
    ensures var e := Encode(m); var size := |m.payload|;
            && e[..4] == MAGIC && e[4] == m.datatypeId && e[5..8] == Put24(size)
            && e[8..8 + size] == m.payload && e[|e| - 4..] == TRAILER
  {
    var head := MAGIC + [m.datatypeId] + Put24(|m.payload|);
    var tail := Zeros(Padded(|m.payload|) - |m.payload|) + TRAILER;
    assert Encode(m) == head + m.payload + tail;
  }

  /** A message anywhere in the stream is taken whole, and yields its payload when it is L3. */
  lemma StepTakesMessage(s: seq<byte>, at: nat, m: Message)
    requires |m.payload| < 0x100_0000 && (m.datatypeId == DATATYPE_L3 ==> |m.payload| <= RXQ_CAP)
    requires at + |Encode(m)| <= |s| && s[at..at + |Encode(m)|] == Encode(m)
    ensures UsbStep(s, at)
         == Some(Parsed(at + |Encode(m)|, if m.datatypeId == DATATYPE_L3 then Octets(m.payload) else []))
  {
    hide Octets; hide Encode;
    EncodedParts(m);
    var e, size := Encode(m), |m.payload|;
    forall i | 0 <= i < |e| ensures s[at + i] == e[i] {
      assert s[at..at + |e|][i] == s[at + i];
    }
    assert s[at..at + 4] == e[..4];
    assert s[at + 5..at + 8] == e[5..8];
    assert Be24(s, at + 5) == Be24(s[at + 5..at + 8], 0) == size;
    assert s[at + 8..at + 8 + size] == e[8..8 + size];
    assert s[at + |e| - 4..at + |e|] == e[|e| - 4..];
  }

  /** The one-shot parse of what a well-behaved host sends is its L3 stream, with nothing lost. */
  lemma {:induction false} WireParses(pre: seq<byte>, ms: seq<Message>)
    requires Sendable(ms)
    ensures All(UsbStep, pre + Wire(ms), |pre|) == Octets(L3Bytes(ms))
    decreases |ms|
  {
    hide UsbStep; hide Encode; hide Octets;
    if ms != [] {
      var m, rest := ms[0], ms[1..];
      var s, next := pre + Wire(ms), pre + Encode(m);
      assert s == next + Wire(rest);
      assert s[|pre|..|next|] == Encode(m);
      StepTakesMessage(s, |pre|, m);
      AllStep(UsbStep, s, |pre|);
      WireParses(next, rest);
      OctetsAppend(if m.datatypeId == DATATYPE_L3 then m.payload else [], L3Bytes(rest));
    }
  }

  lemma OctetsAppend(a: seq<byte>, b: seq<byte>)
    ensures Octets(a) + Octets(b) == Octets(a + b)
  {}

  /**
   * `got` is `produced`, except that some stretches from a loss to a later loss have become one
   * loss: the two losses are one, and only what lay between them is gone.
   */
  ghost predicate Folded(produced: seq<Item>, got: seq<Item>)
    decreases |produced|
  {
    if produced == [] then got == []
    else
      && got != [] && produced[0] == got[0]
      && (Folded(produced[1..], got[1..])
          || (produced[0] == Lost && exists k :: 0 < k < |produced| && produced[k] == Lost && Folded(produced[k..], got)))
  }

  lemma {:induction false} FoldedAppend(produced: seq<Item>, got: seq<Item>, more: seq<Item>)
    requires Folded(produced, got)
    ensures Folded(produced + more, got + more)
    decreases |produced|
  {
    if produced == [] {
      assert [] + more == more;
      FoldedSame(more);
    } else if Folded(produced[1..], got[1..]) {
      FoldedAppend(produced[1..], got[1..], more);
      assert (produced + more)[1..] == produced[1..] + more && (got + more)[1..] == got[1..] + more;
    } else {
      var k :| 0 < k < |produced| && produced[k] == Lost && Folded(produced[k..], got);
      FoldedAppend(produced[k..], got, more);
      assert (produced + more)[k..] == produced[k..] + more;
    }
  }

  lemma {:induction false} FoldedSame(s: seq<Item>)
    ensures Folded(s, s)
    decreases |s|
  {
    if s != [] { FoldedSame(s[1..]); }
  }

  /** A second loss can fold into the last one, taking the bytes since. */
  lemma {:induction false} FoldedMerge(produced: seq<Item>, kept: seq<Item>, since: seq<byte>)
    requires Folded(produced, kept + [Lost] + Octets(since) + [Lost])
    ensures Folded(produced, kept + [Lost])
    decreases |produced|
  {
    var got := kept + [Lost] + Octets(since) + [Lost];
    if Folded(produced[1..], got[1..]) {
      if kept == [] {
        FoldedLast(produced[1..], got[1..]);
        var k := |produced| - 1;
        assert produced[k..] == [Lost] == kept + [Lost];
        FoldedSame([Lost]);
      } else {
        assert got[1..] == kept[1..] + [Lost] + Octets(since) + [Lost];
        FoldedMerge(produced[1..], kept[1..], since);
        assert (kept + [Lost])[1..] == kept[1..] + [Lost];
      }
    } else {
      var k :| 0 < k < |produced| && produced[k] == Lost && Folded(produced[k..], got);
      FoldedMerge(produced[k..], kept, since);
    }
  }

  lemma {:induction false} FoldedLast(produced: seq<Item>, got: seq<Item>)
    requires Folded(produced, got) && got != [] && got[|got| - 1] == Lost
    ensures produced != [] && produced[|produced| - 1] == Lost
    decreases |produced|
  {
    if Folded(produced[1..], got[1..]) {
      if |got| > 1 { FoldedLast(produced[1..], got[1..]); }
    } else {
      var k :| 0 < k < |produced| && produced[k] == Lost && Folded(produced[k..], got);
      FoldedLast(produced[k..], got);
    }
  }

  /** With no loss delivered there was none produced: nothing is gone. */
  lemma {:induction false} FoldedNoLoss(produced: seq<Item>, got: seq<byte>)
    requires Folded(produced, Octets(got))
    ensures produced == Octets(got)
    decreases |produced|
  {
    if produced != [] {
      assert Octets(got)[1..] == Octets(got[1..]);
      FoldedNoLoss(produced[1..], got[1..]);
      assert produced == [produced[0]] + produced[1..];
      assert Octets(got) == [Octet(got[0])] + Octets(got[1..]);
    }
  }

  /** And with none produced, none is delivered and nothing is gone. */
  lemma {:induction false} FoldedClean(produced: seq<Item>, got: seq<Item>)
    requires Folded(produced, got) && Lost !in produced
    ensures got == produced
    decreases |produced|
  {
    if produced != [] {
      FoldedClean(produced[1..], got[1..]);
      assert produced == [produced[0]] + produced[1..] && got == [got[0]] + got[1..];
    }
  }
}
