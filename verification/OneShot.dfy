/**
 * One-shot parsing of a whole byte stream: the reference both receive paths are held to.
 *
 * A `Step` says what a parser makes of the stream from one position on: where the next thing
 * begins and what this one yields, or `None` while the bytes there do not decide it. A receive
 * path that is handed the stream in pieces, and stopped anywhere, is right when what it has
 * yielded is what running the steps over the whole stream yields first.
 */
module OneShot {
  import opened Bytes

  datatype Parsed<+T> = Parsed(next: nat, out: seq<T>)

  type Step<!T> = (seq<byte>, nat) -> Option<Parsed<T>>

  /** A step moves on, reads only what is there, and is not changed by bytes that come later. */
  ghost predicate Good<T(!new)>(step: Step<T>) {
    && (forall s: seq<byte>, at: nat {:trigger step(s, at)} :: step(s, at).Some? ==> at < |s| && at < step(s, at).value.next)
    && (forall s: seq<byte>, u: seq<byte>, at: nat {:trigger step(s, at), step(u, at)} ::
          s <= u && step(s, at).Some? ==> step(u, at) == step(s, at))
  }

  /** What the steps from `at` yield if they reach `to` exactly. */
  function Upto<T>(step: Step<T>, s: seq<byte>, at: nat, to: nat): (o: Option<seq<T>>)
    decreases (to as int) - (at as int)
  {
    if at == to then Some([])
    else if at > to then None
    else match step(s, at)
      case None => None
      case Some(p) =>
        if p.next <= at then None
        else match Upto(step, s, p.next, to)
          case None => None
          case Some(rest) => Some(p.out + rest)
  }

  /** What the steps from `at` yield until the stream no longer decides one. */
  function All<T>(step: Step<T>, s: seq<byte>, at: nat): (out: seq<T>)
    decreases if at < |s| then |s| - at else 0
  {
    match step(s, at)
      case None => []
      case Some(p) => if at < |s| && at < p.next then p.out + All(step, s, p.next) else []
  }

  lemma AllStep<T(!new)>(step: Step<T>, s: seq<byte>, at: nat)
    requires at < |s| && step(s, at).Some? && at < step(s, at).value.next
    ensures All(step, s, at) == step(s, at).value.out + All(step, s, step(s, at).value.next)
  {}

  /** Steps that reach `to` carry on from there. */
  lemma {:induction false} UptoStep<T(!new)>(step: Step<T>, s: seq<byte>, at: nat, to: nat)
    requires Good(step) && Upto(step, s, at, to).Some? && step(s, to).Some?
    ensures var p := step(s, to).value;
            Upto(step, s, at, p.next) == Some(Upto(step, s, at, to).value + p.out)
    decreases (to as int) - (at as int)
  {
    var q := step(s, to).value;
    if at == to {
      assert Upto(step, s, q.next, q.next) == Some([]);
      assert q.out + [] == q.out;
      assert [] + q.out == q.out;
    } else {
      var p := step(s, at).value;
      UptoStep(step, s, p.next, to);
      var rest := Upto(step, s, p.next, to).value;
      assert p.out + (rest + q.out) == (p.out + rest) + q.out;
    }
  }

  /** What was parsed stays parsed when more of the stream arrives. */
  lemma {:induction false} UptoGrows<T(!new)>(step: Step<T>, s: seq<byte>, u: seq<byte>, at: nat, to: nat)
    requires Good(step) && s <= u && Upto(step, s, at, to).Some?
    ensures Upto(step, u, at, to) == Upto(step, s, at, to)
    decreases (to as int) - (at as int)
  {
    if at != to {
      var p := step(s, at).value;
      assert step(u, at) == step(s, at);
      UptoGrows(step, s, u, p.next, to);
    }
  }

  /** What has been parsed so far, and what is still to come, make up the one-shot parse. */
  lemma {:induction false} UptoAll<T(!new)>(step: Step<T>, s: seq<byte>, at: nat, to: nat)
    requires Good(step) && Upto(step, s, at, to).Some?
    ensures All(step, s, at) == Upto(step, s, at, to).value + All(step, s, to)
    decreases (to as int) - (at as int)
  {
    if at == to {
      assert [] + All(step, s, to) == All(step, s, to);
    } else {
      var p := step(s, at).value;
      UptoAll(step, s, p.next, to);
      assert p.out + (Upto(step, s, p.next, to).value + All(step, s, to))
          == (p.out + Upto(step, s, p.next, to).value) + All(step, s, to);
    }
  }

  /** `produced` is `base` and then all that the steps from the start to `at` yield. */
  ghost predicate Reached<T>(step: Step<T>, s: seq<byte>, at: nat, base: seq<T>, produced: seq<T>) {
    Upto(step, s, 0, at).Some? && produced == base + Upto(step, s, 0, at).value
  }

  lemma ReachedStep<T(!new)>(step: Step<T>, s: seq<byte>, at: nat, base: seq<T>, produced: seq<T>)
    requires Good(step) && Reached(step, s, at, base, produced) && step(s, at).Some?
    ensures Reached(step, s, step(s, at).value.next, base, produced + step(s, at).value.out)
  {
    UptoStep(step, s, 0, at);
    var out := Upto(step, s, 0, at).value;
    assert base + (out + step(s, at).value.out) == base + out + step(s, at).value.out;
  }

  lemma ReachedGrows<T(!new)>(step: Step<T>, s: seq<byte>, u: seq<byte>, at: nat, base: seq<T>, produced: seq<T>)
    requires Good(step) && Reached(step, s, at, base, produced) && s <= u
    ensures Reached(step, u, at, base, produced)
  {
    UptoGrows(step, s, u, 0, at);
  }

  lemma ReachedStart<T>(step: Step<T>, s: seq<byte>, produced: seq<T>)
    ensures Reached(step, s, 0, produced, produced)
  {
    assert produced + [] == produced;
  }
}
