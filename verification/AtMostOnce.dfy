/**
 * Writes over a link that loses requests: which of those sent an agent applies, and when one can be
 * applied twice.
 */
module AtMostOnce {
  import opened Bytes
  import opened M64p
  import opened MemProto
  import opened WatchRing

  // ---- one request ----

  /** A write an agent with `size` bytes of memory takes. */
  predicate Takes(size: uint32, p: seq<byte>) {
    IsPoke(p) && Wrong(p[5..], p[7], true, size).None?
  }

  predicate Applies(size: uint32, hold: Option<Held>, p: seq<byte>) {
    Takes(size, p) && !IsCopy(hold, p)
  }

  function HoldNext(size: uint32, hold: Option<Held>, p: seq<byte>): (after: Option<Held>) {
    if !IsM64p(p) || IsCopy(hold, p) then hold
    else if Takes(size, p) then Some(Held(Be16(p, 5), p[7]))
    else None
  }

  /** What of serving a request bears on writes: what is held after, and whether memory changed. */
  lemma ServeWrites(st: State, p: seq<byte>, busy: bool)
    requires Sane(st)
    ensures var r := Serve(st, p, busy);
      && r.st.hold == HoldNext(|st.ram|, st.hold, p)
      && r.st.ram == (if Applies(|st.ram|, st.hold, p) then Written(st.ram, p) else st.ram)
  {
    hide Wrong; hide WriteBlocks; hide ReadBlocks; hide Trailer; hide Taken; hide SlotsAsked; hide HelloAckOf; hide Sane;
    if IsPoke(p) {
      assert p[5..][2] == p[7] && Be16(p[5..], 0) == Be16(p, 5);
    }
    if IsM64p(p) && p[4] == POKEV && |p| < 8 {
      assert |p[5..]| < 3;
    }
  }

  // ---- what a run of requests applies ----

  /** What is held once `msgs` have been served. */
  function HoldOver(size: uint32, hold: Option<Held>, msgs: seq<seq<byte>>): (after: Option<Held>) {
    if msgs == [] then hold
    else
      var n := |msgs| - 1;
      HoldNext(size, HoldOver(size, hold, msgs[..n]), msgs[n])
  }

  /** Memory after `p`, if it is applied. */
  function Written(ram: seq<byte>, p: seq<byte>): (after: seq<byte>)
    requires |ram| <= 0xFFFF_FFFF && Takes(|ram|, p)
    ensures |after| == |ram|
  {
    WriteBlocks(ram, p[5..], 3, p[7], 0)
  }

  /** Memory once `msgs` have been served, if nothing else writes it. */
  function RamOver(ram: seq<byte>, hold: Option<Held>, msgs: seq<seq<byte>>): (after: seq<byte>)
    requires |ram| <= 0xFFFF_FFFF
    ensures |after| == |ram|
  {
    if msgs == [] then ram
    else
      var n := |msgs| - 1;
      var before := RamOver(ram, hold, msgs[..n]);
      if Applies(|ram|, HoldOver(|ram|, hold, msgs[..n]), msgs[n]) then Written(before, msgs[n]) else before
  }

  /** Whether the `k`th request served is a write that is applied. */
  predicate AppliedAt(size: uint32, hold: Option<Held>, msgs: seq<seq<byte>>, k: nat)
    requires k < |msgs|
  {
    Applies(size, HoldOver(size, hold, msgs[..k]), msgs[k])
  }

  /** `msgs` are the requests at `at` of those sent, in the order sent: the rest were lost. */
  ghost predicate Picks(sent: seq<seq<byte>>, at: seq<nat>, msgs: seq<seq<byte>>) {
    && |at| == |msgs| && (forall i :: 0 <= i < |at| ==> at[i] < |sent| && msgs[i] == sent[at[i]])
    && forall a, b :: 0 <= a < b < |at| ==> at[a] < at[b]
  }

  predicate SameRid(p: seq<byte>, q: seq<byte>) {
    IsPoke(p) && IsPoke(q) && Be16(p, 5) == Be16(q, 5)
  }

  /** Whatever is lost, writes under the rid of `p` are applied once in all. */
  ghost predicate Once(size: uint32, hold: Option<Held>, sent: seq<seq<byte>>, p: seq<byte>) {
    forall at: seq<nat>, msgs: seq<seq<byte>>, a: nat, b: nat ::
      Picks(sent, at, msgs) && a < b < |msgs| && SameRid(p, msgs[a]) && SameRid(p, msgs[b]) ==>
        !(AppliedAt(size, hold, msgs, a) && AppliedAt(size, hold, msgs, b))
  }

  /** Another request sent between two writes under the rid of `p`. */
  predicate Between(size: uint32, sent: seq<seq<byte>>, p: seq<byte>, i: nat, k: nat, j: nat) {
    && i < k < j < |sent| && Takes(size, sent[i]) && Takes(size, sent[j]) && SameRid(p, sent[i]) && SameRid(p, sent[j])
    && IsM64p(sent[k]) && !SameRid(p, sent[k])
  }

  ghost predicate Interrupted(size: uint32, sent: seq<seq<byte>>, p: seq<byte>) {
    exists i: nat, k: nat, j: nat :: Between(size, sent, p, i, k, j)
  }

  predicate NotHeld(hold: Option<Held>, p: seq<byte>) {
    IsPoke(p) && (hold.Some? ==> hold.value.rid != Be16(p, 5))
  }

  lemma TakesPoke(size: uint32, p: seq<byte>)
    requires Takes(size, p)
    ensures IsPoke(p) && IsM64p(p)
  {}

  /** A write served is held until another request is. */
  lemma {:induction false} HeldUntil(size: uint32, hold: Option<Held>, msgs: seq<seq<byte>>, p: seq<byte>, a: nat, n: nat)
    requires a < n <= |msgs| && AppliedAt(size, hold, msgs, a) && SameRid(p, msgs[a])
    requires forall k :: a < k < n ==> !IsM64p(msgs[k]) || SameRid(p, msgs[k])
    ensures var held := HoldOver(size, hold, msgs[..n]); held.Some? && held.value.rid == Be16(p, 5)
  {
    hide Takes; hide Be16;
    assert msgs[..n][..n - 1] == msgs[..n - 1];
    if n > a + 1 { HeldUntil(size, hold, msgs, p, a, n - 1); }
  }

  /** Once in all, whatever the link loses, exactly when no other request is sent between two copies. */
  lemma OnceUnlessInterrupted(size: uint32, hold: Option<Held>, sent: seq<seq<byte>>, p: seq<byte>)
    requires NotHeld(hold, p)
    ensures Once(size, hold, sent, p) <==> !Interrupted(size, sent, p)
  {
    hide Takes; hide SameRid; hide IsM64p; hide AppliedAt; hide Picks; hide NotHeld;
    if Interrupted(size, sent, p) {
      var i: nat, k: nat, j: nat :| Between(size, sent, p, i, k, j);
      TwiceIf(size, hold, sent, p, i, k, j);
    } else {
      forall at: seq<nat>, msgs: seq<seq<byte>>, a: nat, b: nat |
        Picks(sent, at, msgs) && a < b < |msgs| && SameRid(p, msgs[a]) && SameRid(p, msgs[b])
        ensures !(AppliedAt(size, hold, msgs, a) && AppliedAt(size, hold, msgs, b))
      {
        OnceIf(size, hold, sent, p, at, msgs, a, b);
      }
    }
  }

  /** Another request between two copies: if nothing is lost, the write is applied twice. */
  lemma TwiceIf(size: uint32, hold: Option<Held>, sent: seq<seq<byte>>, p: seq<byte>, i: nat, k: nat, j: nat)
    requires NotHeld(hold, p) && Between(size, sent, p, i, k, j)
    ensures !Once(size, hold, sent, p)
  {
    hide Takes; hide Be16;
    var first, q := sent[i], sent[k];
    TakesPoke(size, first);
    TakesPoke(size, sent[j]);
    if Takes(size, q) { TakesPoke(size, q); }
    var at: seq<nat>, msgs := [i, k, j], [first, q, sent[j]];
    assert Picks(sent, at, msgs);
    assert msgs[..0] == [] && [first][..0] == msgs[..0] && msgs[..1] == [first] && msgs[..2] == [first, q] && [first, q][..1] == [first];
    assert HoldOver(size, hold, [first]) == HoldNext(size, hold, first);
    assert HoldOver(size, hold, [first, q]) == HoldNext(size, HoldOver(size, hold, [first]), q);
    assert AppliedAt(size, hold, msgs, 0) && AppliedAt(size, hold, msgs, 2);
  }

  lemma OnceIf(size: uint32, hold: Option<Held>, sent: seq<seq<byte>>, p: seq<byte>,
               at: seq<nat>, msgs: seq<seq<byte>>, a: nat, b: nat)
    requires Picks(sent, at, msgs) && a < b < |msgs| && !Interrupted(size, sent, p)
    requires SameRid(p, msgs[a]) && SameRid(p, msgs[b])
    ensures !(AppliedAt(size, hold, msgs, a) && AppliedAt(size, hold, msgs, b))
  {
    hide Takes; hide Be16; hide IsM64p;
    if AppliedAt(size, hold, msgs, a) && AppliedAt(size, hold, msgs, b) {
      forall k | a < k < b ensures !IsM64p(msgs[k]) || SameRid(p, msgs[k]) {
        assert !Between(size, sent, p, at[a], at[k], at[b]);
      }
      HeldUntil(size, hold, msgs, p, a, b);
    }
  }

  /** A write acknowledged has been applied by then, by it or an earlier one of its rid. */
  lemma AckedApplied(size: uint32, hold: Option<Held>, msgs: seq<seq<byte>>, k: nat)
    requires k < |msgs| && NotHeld(hold, msgs[k])
    requires Takes(size, msgs[k]) || IsCopy(HoldOver(size, hold, msgs[..k]), msgs[k])
    ensures exists a :: 0 <= a <= k && AppliedAt(size, hold, msgs, a) && SameRid(msgs[a], msgs[k])
  {
    hide Takes; hide Be16;
    if !AppliedAt(size, hold, msgs, k) { HeldFrom(size, hold, msgs, k); }
  }

  /** What is held is a write that was applied, if it was not held at the start. */
  lemma {:induction false} HeldFrom(size: uint32, hold: Option<Held>, msgs: seq<seq<byte>>, n: nat)
    requires n <= |msgs| && HoldOver(size, hold, msgs[..n]).Some?
    ensures var held := HoldOver(size, hold, msgs[..n]).value;
      hold == Some(held) || exists a :: 0 <= a < n && AppliedAt(size, hold, msgs, a) && IsPoke(msgs[a]) && Be16(msgs[a], 5) == held.rid
  {
    hide Takes; hide Be16; hide IsM64p;
    if n > 0 {
      assert msgs[..n][..n - 1] == msgs[..n - 1];
      if HoldOver(size, hold, msgs[..n]) == HoldOver(size, hold, msgs[..n - 1]) {
        HeldFrom(size, hold, msgs, n - 1);
      } else {
        TakesPoke(size, msgs[n - 1]);
        assert AppliedAt(size, hold, msgs, n - 1);
      }
    }
  }

  // ---- losing requests ----

  /** `msgs` are some of those sent, in order. */
  ghost predicate Lossy(sent: seq<seq<byte>>, msgs: seq<seq<byte>>) {
    exists at: seq<nat> :: Picks(sent, at, msgs)
  }

  lemma LossyAll(sent: seq<seq<byte>>)
    ensures Lossy(sent, sent)
  {
    var at: seq<nat> := seq(|sent|, i => i);
    assert Picks(sent, at, sent);
  }

  lemma LossySent(sent: seq<seq<byte>>, msgs: seq<seq<byte>>, p: seq<byte>)
    requires Lossy(sent, msgs)
    ensures Lossy(sent + [p], msgs + [p]) && Lossy(sent + [p], msgs)
  {
    var at: seq<nat> :| Picks(sent, at, msgs);
    assert Picks(sent + [p], at + [|sent|], msgs + [p]);
    assert Picks(sent + [p], at, msgs);
  }

  lemma LossyDrop(sent: seq<seq<byte>>, msgs: seq<seq<byte>>, i: nat)
    requires Lossy(sent, msgs) && i < |msgs|
    ensures Lossy(sent, msgs[..i] + msgs[i + 1..])
  {
    var at: seq<nat> :| Picks(sent, at, msgs);
    assert Picks(sent, at[..i] + at[i + 1..], msgs[..i] + msgs[i + 1..]);
  }

  lemma LossyIn(sent: seq<seq<byte>>, msgs: seq<seq<byte>>, m: seq<byte>)
    requires Lossy(sent, msgs) && m in msgs
    ensures m in sent
  {}
}
