/**
 * The SummerCart64 driver's hold on the cart's write-enable: it is set around staging a packet, and put back
 * as it was, though any command may be refused, or fail without saying whether it took effect.
 */
module Sc64WriteEnable {
  import opened Bytes

  /** The setting in force, the value saved for the restore, and the flag that one is due. */
  datatype State = State(setting: uint32, restore: uint32, pending: bool)

  /** What became of a command: not sent, sent and not known to have completed, or completed. */
  datatype Fate = NotSent | Unknown(took: bool) | Completed

  function Set(st: State, value: uint32, fate: Fate): (after: State) {
    if fate == Completed || fate == Unknown(true) then st.(setting := value) else st
  }

  function Restored(st: State, fate: Fate): (after: State) {
    Set(st, st.restore, fate).(pending := fate != Completed)
  }

  /** What the start of a poll or a write does about a restore still to be done. */
  function Settled(st: State, fate: Fate): (after: State) {
    if st.pending then Restored(st, fate) else st
  }

  /** Staging: the enable, the copy, and the restore. */
  function Staged(st: State, enable: Fate, restore: Fate): (after: State) {
    var on := Set(st, 1, enable);
    var kept := if enable == Completed && !st.pending then on.(restore := st.setting) else on;
    if enable == NotSent then kept else Restored(kept, restore)
  }

  /** A poll, or a write that did or did not come to staging. */
  datatype Step = Poll(first: Fate) | Write(first: Fate, stages: bool, enable: Fate, restore: Fate)

  function Next(st: State, step: Step): (after: State) {
    match step
    case Poll(first) => Settled(st, first)
    case Write(first, stages, enable, restore) =>
      if stages then Staged(Settled(st, first), enable, restore) else Settled(st, first)
  }

  function Run(st: State, steps: seq<Step>): (after: State)
    decreases |steps|
  {
    if steps == [] then st else Run(Next(st, steps[0]), steps[1..])
  }

  /** With no restore still to be done, the cart is set as it was. */
  predicate AsItWas(st: State, own: uint32) {
    !st.pending ==> st.setting == own
  }

  /** What a step keeps once the driver knows what to put back. */
  lemma StepKeeps(st: State, own: uint32, step: Step)
    requires st.restore == own && AsItWas(st, own)
    ensures Next(st, step).restore == own && AsItWas(Next(st, step), own)
  {}

  lemma {:induction false} RunKeeps(st: State, own: uint32, steps: seq<Step>)
    requires st.restore == own && AsItWas(st, own)
    ensures Run(st, steps).restore == own && AsItWas(Run(st, steps), own)
    decreases |steps|
  {
    if steps != [] {
      StepKeeps(st, own, steps[0]);
      RunKeeps(Next(st, steps[0]), own, steps[1..]);
    }
  }

  /**
   * From a cart set as its own and no restore to be done, whatever becomes of the commands of any run: the cart
   * is left as it was exactly when what the driver would put back is what the cart had.
   */
  lemma KeptIff(own: uint32, restore: uint32)
    ensures (forall steps: seq<Step> :: AsItWas(Run(State(own, restore, false), steps), own)) <==> restore == own
  {
    var st := State(own, restore, false);
    if restore == own {
      forall steps: seq<Step> ensures AsItWas(Run(st, steps), own) {
        RunKeeps(st, own, steps);
      }
    } else {
      LostBy(own, restore);
    }
  }

  /** An enable sent and not known to have completed: what is put back is not what was there. */
  lemma LostBy(own: uint32, restore: uint32)
    requires restore != own
    ensures exists steps: seq<Step> :: !AsItWas(Run(State(own, restore, false), steps), own)
  {
    var st := State(own, restore, false);
    var step := Write(NotSent, true, Unknown(false), Completed);
    assert [step][1..] == [];
    assert Run(st, [step]) == Run(Next(st, step), []);
    assert !AsItWas(Run(st, [step]), own);
  }

  /** Once an enable has completed with no restore to be done, the driver knows what the cart had. */
  lemma EnabledKnows(st: State, own: uint32, first: Fate, restore: Fate, steps: seq<Step>)
    requires st.setting == own && !st.pending
    ensures var after := Run(Next(st, Write(first, true, Completed, restore)), steps);
      after.restore == own && AsItWas(after, own)
  {
    RunKeeps(Next(st, Write(first, true, Completed, restore)), own, steps);
  }

  // ---- the driver ----

  /** The cart's command interface: any command may be refused before it is stored, or fail after. */
  class Cart {
    var setting: uint32

    /** CONFIG_SET of write-enable. Not `sent`, it has no effect; `ok`, it has; otherwise it may have. */
    method ConfigSet(value: uint32) returns (ok: bool, sent: bool, previous: uint32, ghost fate: Fate)
      modifies this
      ensures ok ==> sent && fate == Completed && previous == old(setting)
      ensures !ok ==> (sent <==> fate.Unknown?) && (!sent <==> fate == NotSent)
      ensures setting == Set(State(old(setting), 0, false), value, fate).setting
    {
      previous, ok, sent := setting, *, *;
      if ok { sent := true; }
      var took: bool := *;
      fate := if ok then Completed else if sent then Unknown(took) else NotSent;
      if ok || (sent && took) { setting := value; }
    }
  }

  datatype RomWrite = RomWriteNotSent | RomWriteUnknown | RomWriteSet

  class Driver {
    const cart: Cart
    var restore: uint32
    var pending: bool

    ghost function View(): (st: State)
      reads this, cart
    {
      State(cart.setting, restore, pending)
    }

    constructor (cart: Cart)
      ensures this.cart == cart && View() == State(cart.setting, 0, false)
    {
      this.cart, restore, pending := cart, 0, false;
    }

    method SetRomWritable(enable: uint32) returns (r: RomWrite, previous: uint32, ghost fate: Fate)
      modifies cart
      ensures View() == Set(old(View()), enable, fate) && (r.RomWriteSet? ==> previous == old(cart.setting))
      ensures (r.RomWriteSet? <==> fate == Completed) && (r.RomWriteNotSent? <==> fate == NotSent)
    {
      var ok, sent;
      ok, sent, previous, fate := cart.ConfigSet(enable);
      r := if ok then RomWriteSet else if sent then RomWriteUnknown else RomWriteNotSent;
    }

    method RomWriteRestore() returns (ghost fate: Fate)
      modifies this`pending, cart
      ensures View() == Restored(old(View()), fate)
    {
      var r, previous;
      r, previous, fate := SetRomWritable(restore);
      pending := r != RomWriteSet;
    }

    /** Look for a packet from the host; first, a restore still to be done. */
    method Poll() returns (size: nat, ghost step: Step)
      modifies this`pending, cart
      ensures View() == Next(old(View()), step) && step.Poll?
    {
      step := Step.Poll(NotSent);
      if pending {
        ghost var fate := RomWriteRestore();
        step := Step.Poll(fate);
      }
      size := *;
    }

    /** Send a packet: staged with the cart writable, if the one before it has gone. */
    method Write(data: seq<byte>) returns (ok: bool, ghost step: Option<Step>)
      modifies this, cart
      ensures step == None ==> !ok && View() == old(View())
      ensures step.Some? ==> step.value.Write? && View() == Next(old(View()), step.value)
      ensures ok ==> step.Some? && step.value.stages && step.value.enable == Completed && 0 < |data| <= BUFFER
    {
      ok, step := false, None;
      if |data| == 0 || |data| > BUFFER { return; }
      ghost var first := NotSent;
      if pending { first := RomWriteRestore(); }
      step := Some(Step.Write(first, false, NotSent, NotSent));
      var draining: bool := *;
      if !draining { return; }
      var staged := false;
      ghost var enable, put := NotSent, NotSent;
      var r, previous;
      r, previous, enable := SetRomWritable(1);
      if r.RomWriteSet? {
        if !pending { restore := previous; }
        staged := *; // the copy, which the bus may cut short
      }
      if !r.RomWriteNotSent? { put := RomWriteRestore(); }
      step := Some(Step.Write(first, true, enable, put));
      if staged { ok := *; } // what was staged reads back, and is sent
    }
  }

  /** The most one packet holds. */
  const BUFFER: nat := 8192
}
