/** Applying a profile: a seed it accepts comes out with nothing changed that was not checked. */
module Patching {
  import opened Bytes
  import opened PatchProfile
  import opened Checksum
  import opened Patcher
  import opened Immediates
  import opened PatchWrites

  /** What applying a profile comes to; the image of a profile with a transform is still to be laid back over its seed. */
  datatype Verdict = Patched(rom: seq<byte>) | ToLayBack(rom: seq<byte>) | Refused | Internal(why: Why) | Panics

  method PlainWrites(b: Bundle, input: seq<byte>, found: Found) returns (why: Option<Why>, out: seq<byte>, allowed: seq<Range>)
    requires Accepted(b.profile) && Carries(b) && Verified(b, input, found)
    ensures why.Some? ==> why.value == NotPlaced && |input| > 0xFFFF_FFFF
    ensures why == None ==>
      && out == PutAll(Base(input, AgentPlace(b.profile, input)), Plain(b, input, found, |b.profile.writes|))
      && Span(CRC_OFFSET, CRC_OFFSET + 8) in allowed && Accounted(b, input, found, out, allowed)
  {
    hide Accepted; hide Verified; hide PutBy; hide AgentPlace; hide PutAll; hide Answered; hide Lawful; hide Over;
    var start := AgentPlace(b.profile, input);
    out, allowed := Base(input, start), [Span(CRC_OFFSET, CRC_OFFSET + 8), From(start)];
    why := None;
    StartAccounted(b, input, found);
    for n := 0 to |b.profile.writes|
      invariant why == None
      invariant out == PutAll(Base(input, start), Plain(b, input, found, n))
      invariant Span(CRC_OFFSET, CRC_OFFSET + 8) in allowed && Accounted(b, input, found, out, allowed)
    {
      var w := b.profile.writes[n];
      if !w.Imm? {
        PutByLawful(b, input, found, w);
        var p := PutBy(b, input, found, w);
        if p == None { return Some(NotPlaced), out, allowed; }
        OverAccounted(b, input, found, out, allowed, p.value);
        PutAllOne(Base(input, start), Plain(b, input, found, n), p.value);
        out, allowed := Over(out, p.value), allowed + [SpanOf(p.value)];
      }
    }
  }

  lemma StartAccounted(b: Bundle, input: seq<byte>, found: Found)
    ensures var start := AgentPlace(b.profile, input);
      && Accounted(b, input, found, Base(input, start), [Span(CRC_OFFSET, CRC_OFFSET + 8), From(start)])
      && PutAll(Base(input, start), []) == Base(input, start)
  {}

  lemma AgentLawful(b: Bundle, input: seq<byte>, found: Found)
    requires Accepted(b.profile) && Carries(b)
    ensures Lawful(b, input, found, AgentPlace(b.profile, input), AgentPut(b, AgentPlace(b.profile, input)))
  {
    hide AgentPlace; hide Answered; hide WriteAccepted; hide Pinned; hide Known; hide Moves;
  }

  lemma EntryLawful(b: Bundle, input: seq<byte>, found: Found, size: uint32)
    requires Accepted(b.profile) && Verified(b, input, found) && b.profile.agent.dmaSlot.Some?
    ensures var start := AgentPlace(b.profile, input);
      Lawful(b, input, found, start, EntryPut(b.profile.agent.dmaSlot.value, Wrapped(start), size))
  {
    hide AgentPlace; hide Answered; hide Verified; hide Pinned; hide WriteAccepted;
    var start := AgentPlace(b.profile, input);
    var entry := EntryPut(b.profile.agent.dmaSlot.value, Wrapped(start), size);
    PinnedThere(b, input, found, Place(None, b.profile.agent.dmaSlot.value), 32, entry.bytes);
  }

  /** The writes but for immediates, then the agent, then its entry in the file table. */
  method LayOut(b: Bundle, input: seq<byte>, found: Found)
    returns (why: Option<Why>, out: seq<byte>, size: uint32, allowed: seq<Range>)
    requires Accepted(b.profile) && Carries(b) && Verified(b, input, found)
    ensures why.Some? ==>
      (why.value == NotPlaced && |input| > 0xFFFF_FFFF) || (why.value == LandsOnAgent && Laid(b, input, found) == Failed(LandsOnAgent))
    ensures why == None ==>
      && Laid(b, input, found) == Done((out, size))
      && Span(CRC_OFFSET, CRC_OFFSET + 8) in allowed && Accounted(b, input, found, out, allowed)
  {
    hide Accepted; hide Verified; hide AgentPlace; hide AgentPut; hide EntryPut; hide Lawful; hide Over; hide Accounted;
    hide PutAll; hide Plain; hide Base; hide Carries; hide Moves; hide SpanOf;
    var start := AgentPlace(b.profile, input);
    size := 0;
    why, out, allowed := PlainWrites(b, input, found);
    if why.Some? { return; }
    if |out| > ImageAt(b.profile, start) { return Some(LandsOnAgent), out, size, allowed; }
    var p := AgentPut(b, start);
    AgentLawful(b, input, found);
    OverAccounted(b, input, found, out, allowed, p);
    out, allowed := Over(out, p), allowed + [SpanOf(p)];
    size := Wrapped(|out| - start);
    if b.profile.agent.dmaSlot.Some? {
      var entry := EntryPut(b.profile.agent.dmaSlot.value, Wrapped(start), size);
      EntryLawful(b, input, found, size);
      OverAccounted(b, input, found, out, allowed, entry);
      out, allowed := Over(out, entry), allowed + [SpanOf(entry)];
    }
  }

  lemma ImmPlaced(b: Bundle, input: seq<byte>, found: Found, w: Write, at: Place, bytes: seq<byte>)
    requires Accepted(b.profile) && Verified(b, input, found) && w in b.profile.writes && w.Imm? && |bytes| == 4
    requires at == w.hi || w.lo == Some(at)
    ensures var a := Resolve(b.profile, found, at);
      && (a.Some? ==> Lawful(b, input, found, AgentPlace(b.profile, input), Put(a.value, bytes)))
      && (|input| <= 0xFFFF_FFFF ==> a.Some?)
  {
    assert WriteAccepted(b.profile, w);
    hide Accepted; hide Verified; hide Pinned; hide Known; hide Resolve; hide Lawful;
    PinnedThere(b, input, found, at, 4, bytes);
  }

  lemma FailedStays(b: Bundle, found: Found, laid: seq<byte>, start: nat, size: uint32, n: nat, m: nat)
    requires n <= m <= |b.profile.writes| && StepsTo(b, found, laid, start, size, n).Failed?
    ensures StepsTo(b, found, laid, start, size, m) == StepsTo(b, found, laid, start, size, n)
  {
    hide StepsOf;
    if n < m { FailedStays(b, found, laid, start, size, n, m - 1); }
  }

  /** One immediate written, and allowed for. */
  method SetOne(b: Bundle, input: seq<byte>, found: Found, w: Write, at: Place, s: Step, before: seq<byte>, was: seq<Range>)
    returns (out: seq<byte>, allowed: seq<Range>)
    requires Accepted(b.profile) && Verified(b, input, found) && w in b.profile.writes && w.Imm?
    requires (at == w.hi || w.lo == Some(at)) && Resolve(b.profile, found, at) == Some(s.at) && s.at + 4 <= |before|
    requires Span(CRC_OFFSET, CRC_OFFSET + 8) in was && Accounted(b, input, found, before, was)
    ensures out == SetHalf(before, s)
    ensures Span(CRC_OFFSET, CRC_OFFSET + 8) in allowed && Accounted(b, input, found, out, allowed)
  {
    hide Accepted; hide Verified; hide Resolve; hide Lawful; hide Accounted; hide Over; hide Be32;
    var p := PutOf(before, s);
    ImmPlaced(b, input, found, w, at, p.bytes);
    OverAccounted(b, input, found, before, was, p);
    out, allowed := Over(before, p), was + [SpanOf(p)];
  }

  lemma SetNone(laid: seq<byte>)
    ensures SetAll(laid, []) == laid
  {}

  method ImmWrites(b: Bundle, input: seq<byte>, found: Found, laid: seq<byte>, size: uint32, was: seq<Range>)
    returns (why: Option<Why>, out: seq<byte>, allowed: seq<Range>)
    requires Accepted(b.profile) && Carries(b) && Verified(b, input, found)
    requires Span(CRC_OFFSET, CRC_OFFSET + 8) in was && Accounted(b, input, found, laid, was)
    ensures var steps := StepsTo(b, found, laid, AgentPlace(b.profile, input), size, |b.profile.writes|);
      && (why.Some? ==> steps == Failed(why.value) && (why.value == NotPlaced ==> |input| > 0xFFFF_FFFF))
      && (why == None ==> steps.Done? && out == SetAll(laid, steps.value)
                          && Span(CRC_OFFSET, CRC_OFFSET + 8) in allowed && Accounted(b, input, found, out, allowed))
  {
    hide Accepted; hide Verified; hide AgentPlace; hide Accounted; hide SetAll; hide SetHalf; hide Halves; hide Opcode;
    hide Resolve; hide Carries; hide Be32; hide Lawful; hide ValueOf;
    var start := AgentPlace(b.profile, input);
    out, allowed, why := laid, was, None;
    ghost var steps: seq<Step> := [];
    SetNone(laid);
    for n := 0 to |b.profile.writes|
      invariant why == None && StepsTo(b, found, laid, start, size, n) == Done(steps) && out == SetAll(laid, steps)
      invariant Span(CRC_OFFSET, CRC_OFFSET + 8) in allowed && Accounted(b, input, found, out, allowed)
    {
      var w := b.profile.writes[n];
      if w.Imm? {
        var s := StepsOf(b.profile, found, out, w, ValueOf(b.profile, w.value, start, size));
        match s {
          case Failed(e) =>
            FailedStays(b, found, laid, start, size, n + 1, |b.profile.writes|);
            ImmPlaced(b, input, found, w, w.hi, [0, 0, 0, 0]);
            if w.lo.Some? { ImmPlaced(b, input, found, w, w.lo.value, [0, 0, 0, 0]); }
            return Some(e), out, allowed;
          case Done(two) =>
            out, allowed := SetOne(b, input, found, w, w.hi, two[0], out, allowed);
            SetAllOne(laid, steps, two[0]);
            if w.lo.Some? {
              out, allowed := SetOne(b, input, found, w, w.lo.value, two[1], out, allowed);
              SetAllOne(laid, steps + [two[0]], two[1]);
            }
            assert steps + two == if w.lo.Some? then steps + [two[0]] + [two[1]] else steps + [two[0]];
            steps := steps + two;
        }
      }
    }
  }

  /** The laid out image, every immediate set. */
  function ImageOf(b: Bundle, input: seq<byte>, found: Found): (r: Outcome<seq<byte>>)
    requires Carries(b)
  {
    match Laid(b, input, found)
    case Failed(why) => Failed(why)
    case Done((laid, size)) =>
      match StepsTo(b, found, laid, AgentPlace(b.profile, input), size, |b.profile.writes|)
      case Failed(why) => Failed(why)
      case Done(steps) => Done(SetAll(laid, steps))
  }

  /** What the seed's writes ask for, and the checksum over it, and no more. */
  ghost predicate Written(b: Bundle, input: seq<byte>, found: Found, rom: seq<byte>)
    requires Carries(b)
  {
    && ImageOf(b, input, found).Done? && CRC_END <= |rom|
    && var image := ImageOf(b, input, found).value;
      && |rom| == |image| && (forall i :: 0 <= i < |rom| && !ChecksumByte(i) ==> rom[i] == image[i])
      && Stored(rom) == Compute(rom, b.cic)
  }

  /** Every byte below the appended region is the seed's or was answered for, and only padding gave way to it. */
  ghost predicate Sound(b: Bundle, input: seq<byte>, found: Found, rom: seq<byte>) {
    var start := AgentPlace(b.profile, input);
    && start <= |rom| && ClearFrom(input, start)
    && forall i :: 0 <= i < Min(|input|, start) && rom[i] != input[i] ==> Answered(b, input, found, i)
  }

  /** A byte changed that nothing allows for. */
  predicate Stray(input: seq<byte>, out: seq<byte>, allowed: seq<Range>) {
    exists i :: 0 <= i < Min(|input|, |out|) && input[i] != out[i] && !Allowed(allowed, i)
  }

  /** Changing only checksum bytes keeps an accounted image sound and free of stray changes. */
  lemma FixAccounted(b: Bundle, input: seq<byte>, found: Found, image: seq<byte>, out: seq<byte>, allowed: seq<Range>)
    requires Verified(b, input, found) && Accounted(b, input, found, image, allowed)
    requires Span(CRC_OFFSET, CRC_OFFSET + 8) in allowed
    requires |out| == |image| && forall i :: 0 <= i < |out| && !ChecksumByte(i) ==> out[i] == image[i]
    ensures Sound(b, input, found, out) && !Stray(input, out, allowed)
  {
    hide AgentPlace; hide PinnedByte; hide ListedByte; hide Passes; hide WriteFits; hide AllLocated;
    forall i | 0 <= i < Min(|input|, |out|) && input[i] != out[i] ensures Allowed(allowed, i) {
      if ChecksumByte(i) { assert In(Span(CRC_OFFSET, CRC_OFFSET + 8), i); }
    }
  }

  lemma NotChecksum(image: seq<byte>, out: seq<byte>)
    requires |out| == |image| && forall i :: 0 <= i < |out| && !(CRC_OFFSET <= i < CRC_OFFSET + 8) ==> out[i] == image[i]
    ensures forall i :: 0 <= i < |out| && !ChecksumByte(i) ==> out[i] == image[i]
  {}

  lemma PastRegion(b: Bundle, input: seq<byte>, found: Found, out: seq<byte>, allowed: seq<Range>)
    requires Accounted(b, input, found, out, allowed)
    ensures RegionOf(b.profile.agent) <= |out|
  {}

  lemma StepsFail(b: Bundle, found: Found, laid: seq<byte>, start: nat, size: uint32, n: nat)
    requires n <= |b.profile.writes| && StepsTo(b, found, laid, start, size, n).Failed?
    ensures StepsTo(b, found, laid, start, size, n).why != Unexpected
  {
    hide SetAll; hide Resolve; hide Halves; hide Be32; hide ValueOf; hide Opcode;
  }

  /**
   * A profile applied to a seed. It is refused exactly when some check fails; what comes out is what the
   * writes ask for, sound, and boots; and no change is ever found that nothing allows for.
   */
  method Apply(b: Bundle, input: seq<byte>) returns (r: Verdict, ghost found: Found)
    requires Accepted(b.profile) && Carries(b)
    ensures r.Refused? <==> forall f :: !Verified(b, input, f)
    ensures !r.Refused? ==> Verified(b, input, found)
    ensures (r.Patched? ==> b.profile.transform == None) && (r.ToLayBack? ==> b.profile.transform.Some?)
    ensures r.Patched? || r.ToLayBack? ==>
      Written(b, input, found, r.rom) && Sound(b, input, found, r.rom) && Identify(b, r.rom) == Some(b.cic)
    ensures r.Internal? ==> r.why != Unexpected && (r.why == NotPlaced ==> |input| > 0xFFFF_FFFF)
    ensures r.Internal? && |input| <= 0xFFFF_FFFF ==> r.why == NoBoot || ImageOf(b, input, found) == Failed(r.why)
    ensures r.Panics? ==> RegionOf(b.profile.agent) < CRC_END && ImageOf(b, input, found).Done? && |ImageOf(b, input, found).value| < CRC_END
  {
    hide Accepted; hide Verified; hide AgentPlace; hide Carries; hide Accounted; hide Sound; hide Laid; hide StepsTo;
    hide SetAll; hide Compute; hide Stored; hide Identify; hide Stray; hide ChecksumByte;
    var ok, f := Verify(b, input);
    found := f;
    if !ok { return Refused, found; }
    var why, laid, size, allowed := LayOut(b, input, f);
    if why.Some? { return Internal(why.value), found; }
    var image: seq<byte>;
    why, image, allowed := ImmWrites(b, input, f, laid, size, allowed);
    if why.Some? {
      StepsFail(b, found, laid, AgentPlace(b.profile, input), size, |b.profile.writes|);
      return Internal(why.value), found;
    }
    PastRegion(b, input, f, image, allowed);
    if |image| < CRC_END { return Panics, found; }
    var out := Fix(image, b.cic);
    NotChecksum(image, out);
    FixAccounted(b, input, f, image, out, allowed);
    r := if Stray(input, out, allowed) then Internal(Unexpected)
         else if Identify(b, out) != Some(b.cic) || Stored(out) != Compute(out, b.cic) then Internal(NoBoot)
         else if b.profile.transform.Some? then ToLayBack(out) else Patched(out);
  }
}
