/** Painted polygons grouped into runs that share one path, whatever was painted over what still over it. */
module PaintOrder {
  /** A polygon as painted: what it may share a path with, its color and plane, and where it is on screen. */
  datatype Item<Kind(==), Shape> = Item(kind: Kind, shape: Shape)

  /** The runs partition the kept polygons; within one all are of a kind and indices rise. */
  ghost predicate Grouped<Kind, Shape>(items: seq<Item>, runs: seq<seq<nat>>) {
    && (forall i :: 0 <= i < |items| ==> Somewhere(runs, |runs|, i))
    && (forall r, s, k, l :: 0 <= r < s < |runs| && 0 <= k < |runs[r]| && 0 <= l < |runs[s]| ==> runs[r][k] != runs[s][l])
    && (forall r, k :: 0 <= r < |runs| && 0 <= k < |runs[r]| ==> runs[r][k] < |items|)
    && (forall r, k, l :: 0 <= r < |runs| && 0 <= k < l < |runs[r]| ==>
          runs[r][k] < runs[r][l] && items[runs[r][k]].kind == items[runs[r][l]].kind)
  }

  /** In one of the first `n` runs. */
  ghost predicate Somewhere(runs: seq<seq<nat>>, n: nat, i: nat)
    requires n <= |runs|
  {
    exists r :: 0 <= r < n && i in runs[r]
  }

  /** What was painted first, and could be painted over, is in no later run. */
  ghost predicate InPaintOrder<Kind, Shape>(items: seq<Item>, overlaps: (Shape, Shape) -> bool, runs: seq<seq<nat>>) {
    forall r, s, i, j :: 0 <= r < |runs| && 0 <= s < |runs| && i in runs[r] && j in runs[s] ==>
      i < j < |items| && overlaps(items[i].shape, items[j].shape) ==> r <= s
  }

  /** Which of `size` polygons are in the first `n` runs. */
  ghost function TakenBy(size: nat, runs: seq<seq<nat>>, n: nat): (taken: seq<bool>)
    requires n <= |runs|
    ensures |taken| == size
  {
    seq(size, i requires 0 <= i < size => Somewhere(runs, n, i))
  }

  /**
   * A polygon of a run's kind painted after its first is left out only because, of those left out
   * between them, one could be painted over by it, or could be painted over one of the run.
   */
  ghost predicate Complete<Kind, Shape>(items: seq<Item>, overlaps: (Shape, Shape) -> bool, taken: seq<bool>, run: seq<nat>)
    requires |taken| == |items|
  {
    run != [] && run[0] < |items| && Accounted(items, overlaps, taken, run, |items|)
  }

  /** The same, of those before the `n`th. */
  ghost predicate Accounted<Kind, Shape>(items: seq<Item>, overlaps: (Shape, Shape) -> bool, taken: seq<bool>, run: seq<nat>, n: nat)
    requires |taken| == |items| && run != [] && run[0] < n <= |items|
  {
    forall j :: run[0] < j < n && LeftOut(items, taken, run[0], j) ==>
      exists k :: run[0] < k < j && Bars(items, overlaps, taken, run, k, j)
  }

  /** A polygon of the kind of the run at `i`, in no run. */
  ghost predicate LeftOut<Kind, Shape>(items: seq<Item<Kind, Shape>>, now: seq<bool>, i: nat, l: nat)
    requires i < l < |items| == |now|
  {
    !now[l] && items[l].kind == items[i].kind
  }

  ghost predicate Bars<Kind, Shape>(items: seq<Item>, overlaps: (Shape, Shape) -> bool, taken: seq<bool>, run: seq<nat>,
                                    k: nat, j: nat)
    requires k < j < |items| == |taken|
  {
    !taken[k] && (overlaps(items[k].shape, items[j].shape) || Over(items, overlaps, run, k))
  }

  /** `k` could be painted over one of the run painted before it. */
  ghost predicate Over<Kind, Shape>(items: seq<Item>, overlaps: (Shape, Shape) -> bool, run: seq<nat>, k: nat)
    requires k < |items|
  {
    exists m <- run :: m < k && overlaps(items[m].shape, items[k].shape)
  }

  /** Every polygon taken is in its run: -1 is one not taken yet. */
  ghost predicate Placed(taken: seq<bool>, runs: seq<seq<nat>>, runOf: seq<int>)
    requires |taken| == |runOf|
  {
    forall i :: 0 <= i < |taken| ==> -1 <= runOf[i] < |runs| && (taken[i] <==> runOf[i] >= 0) && (taken[i] ==> i in runs[runOf[i]])
  }

  /** No polygon is in two runs, and indices rise within each. */
  ghost predicate Runs(runs: seq<seq<nat>>, runOf: seq<int>) {
    && (forall r, k :: 0 <= r < |runs| && 0 <= k < |runs[r]| ==> runs[r][k] < |runOf| && runOf[runs[r][k]] == r)
    && forall r, k, l :: 0 <= r < |runs| && 0 <= k < l < |runs[r]| ==> runs[r][k] < runs[r][l]
  }

  ghost predicate OneKind<Kind, Shape>(items: seq<Item>, runOf: seq<int>)
    requires |runOf| == |items|
  {
    forall i, j :: 0 <= i < |items| && 0 <= j < |items| && runOf[i] >= 0 && runOf[i] == runOf[j] ==> items[i].kind == items[j].kind
  }

  /** Nothing taken is over something not taken, or in a later run. */
  ghost predicate Ordered<Kind, Shape>(items: seq<Item>, overlaps: (Shape, Shape) -> bool, runOf: seq<int>)
    requires |runOf| == |items|
  {
    forall i, j :: 0 <= i < j < |items| && overlaps(items[i].shape, items[j].shape) && runOf[j] >= 0 ==> 0 <= runOf[i] <= runOf[j]
  }

  /** Runs made so far, of the polygons taken so far. */
  ghost predicate SoFar<Kind, Shape>(items: seq<Item>, overlaps: (Shape, Shape) -> bool, taken: seq<bool>,
                                     runs: seq<seq<nat>>, runOf: seq<int>)
    requires |taken| == |items| == |runOf|
  {
    Placed(taken, runs, runOf) && Runs(runs, runOf) && OneKind(items, runOf) && Ordered(items, overlaps, runOf)
  }

  /** Whether any of `shapes` overlaps one. */
  method Any<Shape>(shapes: seq<Shape>, shape: Shape, overlaps: (Shape, Shape) -> bool) returns (any: bool)
    ensures any <==> exists k :: 0 <= k < |shapes| && overlaps(shapes[k], shape)
  {
    any := false;
    for k := 0 to |shapes|
      invariant any <==> exists l :: 0 <= l < k && overlaps(shapes[l], shape)
    {
      if overlaps(shapes[k], shape) { any := true; }
    }
  }

  method MergeRuns<Kind(==), Shape>(items: seq<Item<Kind, Shape>>, overlaps: (Shape, Shape) -> bool)
    returns (runs: seq<seq<nat>>)
    ensures Grouped(items, runs) && InPaintOrder(items, overlaps, runs)
    ensures forall r :: 0 <= r < |runs| ==> Complete(items, overlaps, TakenBy(|items|, runs, r + 1), runs[r])
    ensures forall r, s :: 0 <= r < s < |runs| ==> runs[r] != [] && runs[s] != [] && runs[r][0] < runs[s][0]
  {
    hide SoFar; hide Complete;
    var taken := seq(|items|, _ => false);
    ghost var of: seq<int> := seq(|items|, _ => -1);
    runs := [];
    NoneTaken(items, overlaps);
    for i := 0 to |items|
      invariant |taken| == |of| == |items| && SoFar(items, overlaps, taken, runs, of) && forall j :: 0 <= j < i ==> taken[j]
      invariant forall r :: 0 <= r < |runs| ==> Complete(items, overlaps, TakenBy(|items|, runs, r + 1), runs[r])
      invariant forall r :: 0 <= r < |runs| ==> runs[r] != [] && runs[r][0] < i
      invariant forall r, s :: 0 <= r < s < |runs| ==> runs[r][0] < runs[s][0]
    {
      if !taken[i] {
        ghost var before := runs;
        var run;
        run, taken, of := OneRun(items, overlaps, i, taken, runs, of);
        runs := runs + [run];
        TakenIs(items, overlaps, taken, runs, of);
        forall r | 0 <= r < |runs| ensures Complete(items, overlaps, TakenBy(|items|, runs, r + 1), runs[r]) {
          if r < |before| { TakenBefore(|items|, before, run, r + 1); }
        }
      }
    }
    AllTaken(items, overlaps, taken, runs, of);
  }

  lemma NoneTaken<Kind, Shape>(items: seq<Item<Kind, Shape>>, overlaps: (Shape, Shape) -> bool)
    ensures SoFar(items, overlaps, seq(|items|, _ => false), [], seq(|items|, _ => -1))
  {}

  lemma TakenBefore(size: nat, runs: seq<seq<nat>>, run: seq<nat>, n: nat)
    requires n <= |runs|
    ensures TakenBy(size, runs + [run], n) == TakenBy(size, runs, n)
  {
    assert forall r :: 0 <= r < n ==> (runs + [run])[r] == runs[r];
    assert forall i :: 0 <= i < size ==> Somewhere(runs + [run], n, i) == Somewhere(runs, n, i);
  }

  lemma TakenIs<Kind, Shape>(items: seq<Item<Kind, Shape>>, overlaps: (Shape, Shape) -> bool,
                             taken: seq<bool>, runs: seq<seq<nat>>, of: seq<int>)
    requires |taken| == |of| == |items| && SoFar(items, overlaps, taken, runs, of)
    ensures TakenBy(|items|, runs, |runs|) == taken
  {
    forall i | 0 <= i < |items| ensures taken[i] <==> Somewhere(runs, |runs|, i) {
      forall r | 0 <= r < |runs| && i in runs[r] ensures taken[i] {
        var k :| 0 <= k < |runs[r]| && runs[r][k] == i;
        assert of[runs[r][k]] == r;
      }
    }
  }

  /** With every polygon taken, the runs are what they should be. */
  lemma AllTaken<Kind, Shape>(items: seq<Item<Kind, Shape>>, overlaps: (Shape, Shape) -> bool,
                              taken: seq<bool>, runs: seq<seq<nat>>, of: seq<int>)
    requires |taken| == |of| == |items| && SoFar(items, overlaps, taken, runs, of) && forall j :: 0 <= j < |items| ==> taken[j]
    ensures Grouped(items, runs) && InPaintOrder(items, overlaps, runs)
  {
    forall r, i | 0 <= r < |runs| && i in runs[r] ensures i < |items| && of[i] == r {
      var k :| 0 <= k < |runs[r]| && runs[r][k] == i;
      assert of[runs[r][k]] == r;
    }
    forall i | 0 <= i < |items| ensures Somewhere(runs, |runs|, i) {
      assert i in runs[of[i]];
    }
    assert forall r, k :: 0 <= r < |runs| && 0 <= k < |runs[r]| ==> of[runs[r][k]] == r;
  }

  /** The run that starts at `i`: every later polygon of its kind, until one is painted over the run. */
  method OneRun<Kind(==), Shape>(items: seq<Item<Kind, Shape>>, overlaps: (Shape, Shape) -> bool, i: nat,
                                 taken: seq<bool>, ghost runs: seq<seq<nat>>, ghost of: seq<int>)
    returns (run: seq<nat>, now: seq<bool>, ghost after: seq<int>)
    requires |taken| == |of| == |items| && SoFar(items, overlaps, taken, runs, of)
    requires i < |items| && !taken[i] && forall j :: 0 <= j < i ==> taken[j]
    ensures |now| == |after| == |items| && SoFar(items, overlaps, now, runs + [run], after)
    ensures (forall j :: 0 <= j <= i ==> now[j]) && run != [] && run[0] == i && Complete(items, overlaps, now, run)
  {
    hide SoFar; hide Over; hide Accounted; hide Skipped; hide ShapesOf;
    run := [i];
    var subs, between := [items[i].shape], [];
    now, after := taken[i := true], of[i := |runs|];
    Starts(items, overlaps, taken, runs, of, i);
    var j := i + 1;
    OnlyOne(items, overlaps, now, i);
    while j < |items|
      invariant i < j <= |items| && |now| == |after| == |items| && SoFar(items, overlaps, now, runs + [run], after)
      invariant (forall k :: 0 <= k <= i ==> now[k]) && run != [] && run[0] == i && (forall m <- run :: m < j)
      invariant ShapesOf(items, run, subs) && Skipped(items, now, i, j, between) && Accounted(items, overlaps, now, run, j)
    {
      if !now[j] {
        var covered := Any(between, items[j].shape, overlaps);
        var over := Any(subs, items[j].shape, overlaps);
        if items[j].kind == items[i].kind && !covered {
          NotCovered(items, overlaps, now, i, j, between);
          assert run[|run| - 1] in run;
          Joins(items, overlaps, now, runs, run, after, i, j);
          JoinAccounted(items, overlaps, now, run, subs, between, j);
          now, after := now[j := true], after[j := |runs|];
          run, subs := run + [j], subs + [items[j].shape];
        } else {
          LeaveAccounted(items, overlaps, now, run, between, j);
          if over {
            OverAccounted(items, overlaps, now, run, subs, j);
            break; // the run is closed from here on
          }
          between := between + [items[j].shape];
        }
      } else {
        TakenAccounted(items, overlaps, now, run, between, j);
      }
      j := j + 1;
    }
  }

  ghost predicate ShapesOf<Kind, Shape>(items: seq<Item<Kind, Shape>>, run: seq<nat>, subs: seq<Shape>) {
    |subs| == |run| && forall k :: 0 <= k < |run| ==> run[k] < |items| && subs[k] == items[run[k]].shape
  }

  /** `between` is every polygon left out between `i` and `j`, and no other. */
  ghost predicate Skipped<Kind, Shape>(items: seq<Item<Kind, Shape>>, now: seq<bool>, i: nat, j: nat, between: seq<Shape>)
    requires i < j <= |items| == |now|
  {
    && (forall k :: i < k < j && !now[k] ==> items[k].shape in between)
    && forall b <- between :: exists k :: i < k < j && !now[k] && items[k].shape == b
  }

  lemma OnlyOne<Kind, Shape>(items: seq<Item<Kind, Shape>>, overlaps: (Shape, Shape) -> bool, now: seq<bool>, i: nat)
    requires i < |items| == |now|
    ensures ShapesOf(items, [i], [items[i].shape]) && Skipped(items, now, i, i + 1, []) && Accounted(items, overlaps, now, [i], i + 1)
  {}

  lemma TakenAccounted<Kind, Shape>(items: seq<Item<Kind, Shape>>, overlaps: (Shape, Shape) -> bool, now: seq<bool>,
                                    run: seq<nat>, between: seq<Shape>, j: nat)
    requires run != [] && run[0] < j < |items| == |now| && now[j]
    requires Skipped(items, now, run[0], j, between) && Accounted(items, overlaps, now, run, j)
    ensures Skipped(items, now, run[0], j + 1, between) && Accounted(items, overlaps, now, run, j + 1)
  {}

  lemma LeaveAccounted<Kind, Shape>(items: seq<Item<Kind, Shape>>, overlaps: (Shape, Shape) -> bool, now: seq<bool>,
                                    run: seq<nat>, between: seq<Shape>, j: nat)
    requires run != [] && run[0] < j < |items| == |now| && !now[j]
    requires Skipped(items, now, run[0], j, between) && Accounted(items, overlaps, now, run, j)
    requires items[j].kind == items[run[0]].kind ==> exists b :: 0 <= b < |between| && overlaps(between[b], items[j].shape)
    ensures Skipped(items, now, run[0], j + 1, between + [items[j].shape]) && Accounted(items, overlaps, now, run, j + 1)
  {
    hide Over;
    if items[j].kind == items[run[0]].kind {
      var b :| 0 <= b < |between| && overlaps(between[b], items[j].shape);
      assert between[b] in between;
      var k :| run[0] < k < j && !now[k] && items[k].shape == between[b];
      assert Bars(items, overlaps, now, run, k, j);
    }
  }

  /** After one that could be painted over the run, none is left out for no reason. */
  lemma OverAccounted<Kind, Shape>(items: seq<Item<Kind, Shape>>, overlaps: (Shape, Shape) -> bool, now: seq<bool>,
                                   run: seq<nat>, subs: seq<Shape>, j: nat)
    requires run != [] && run[0] < j < |items| == |now| && !now[j] && Accounted(items, overlaps, now, run, j + 1)
    requires ShapesOf(items, run, subs) && (forall m <- run :: m < j)
    requires exists k :: 0 <= k < |subs| && overlaps(subs[k], items[j].shape)
    ensures Accounted(items, overlaps, now, run, |items|)
  {
    var k :| 0 <= k < |subs| && overlaps(subs[k], items[j].shape);
    assert run[k] in run;
    assert Over(items, overlaps, run, j);
    forall l | run[0] < l < |items| && LeftOut(items, now, run[0], l)
      ensures exists k :: run[0] < k < l && Bars(items, overlaps, now, run, k, l)
    {
      if l > j { assert Bars(items, overlaps, now, run, j, l); }
    }
  }

  lemma JoinAccounted<Kind, Shape>(items: seq<Item<Kind, Shape>>, overlaps: (Shape, Shape) -> bool, now: seq<bool>,
                                   run: seq<nat>, subs: seq<Shape>, between: seq<Shape>, j: nat)
    requires run != [] && run[0] < j < |items| == |now| && !now[j]
    requires ShapesOf(items, run, subs) && Skipped(items, now, run[0], j, between) && Accounted(items, overlaps, now, run, j)
    ensures ShapesOf(items, run + [j], subs + [items[j].shape])
    ensures Skipped(items, now[j := true], run[0], j + 1, between) && Accounted(items, overlaps, now[j := true], run + [j], j + 1)
  {
    hide Over;
    var more, after := run + [j], now[j := true];
    forall l | run[0] < l < j + 1 && LeftOut(items, after, run[0], l)
      ensures exists k :: run[0] < k < l && Bars(items, overlaps, after, more, k, l)
    {
      assert LeftOut(items, now, run[0], l);
      var k :| run[0] < k < l && Bars(items, overlaps, now, run, k, l);
      if Over(items, overlaps, run, k) { OverMore(items, overlaps, run, j, k); }
      assert Bars(items, overlaps, after, more, k, l);
    }
    forall b <- between ensures exists k :: run[0] < k < j + 1 && !after[k] && items[k].shape == b {
      var k :| run[0] < k < j && !now[k] && items[k].shape == b;
      assert !after[k];
    }
  }

  lemma NotCovered<Kind, Shape>(items: seq<Item<Kind, Shape>>, overlaps: (Shape, Shape) -> bool, now: seq<bool>,
                                i: nat, j: nat, between: seq<Shape>)
    requires i < j < |items| == |now| && Skipped(items, now, i, j, between) && forall k :: 0 <= k <= i ==> now[k]
    requires !exists b :: 0 <= b < |between| && overlaps(between[b], items[j].shape)
    ensures forall k :: 0 <= k < j && !now[k] ==> !overlaps(items[k].shape, items[j].shape)
  {
    forall k | 0 <= k < j && !now[k] ensures !overlaps(items[k].shape, items[j].shape) {
      assert items[k].shape in between;
    }
  }

  lemma OverMore<Kind, Shape>(items: seq<Item<Kind, Shape>>, overlaps: (Shape, Shape) -> bool, run: seq<nat>, j: nat, k: nat)
    requires k < |items| && Over(items, overlaps, run, k)
    ensures Over(items, overlaps, run + [j], k)
  {}

  lemma Starts<Kind, Shape>(items: seq<Item<Kind, Shape>>, overlaps: (Shape, Shape) -> bool,
                            taken: seq<bool>, runs: seq<seq<nat>>, of: seq<int>, i: nat)
    requires |taken| == |of| == |items| && SoFar(items, overlaps, taken, runs, of)
    requires i < |items| && !taken[i] && forall j :: 0 <= j < i ==> taken[j]
    ensures SoFar(items, overlaps, taken[i := true], runs + [[i]], of[i := |runs|])
  {}

  lemma Joins<Kind, Shape>(items: seq<Item<Kind, Shape>>, overlaps: (Shape, Shape) -> bool,
                           taken: seq<bool>, runs: seq<seq<nat>>, run: seq<nat>, of: seq<int>, i: nat, j: nat)
    requires |taken| == |of| == |items| && SoFar(items, overlaps, taken, runs + [run], of) && i < j < |items| && !taken[j]
    requires run != [] && run[0] == i && run[|run| - 1] < j && items[i].kind == items[j].kind
    requires forall k :: 0 <= k < j && !taken[k] ==> !overlaps(items[k].shape, items[j].shape)
    ensures SoFar(items, overlaps, taken[j := true], runs + [run + [j]], of[j := |runs|])
  {
    JoinPlaced(taken, runs, run, of, j);
    JoinRuns(runs, run, of, j);
    JoinKind(items, runs, run, of, i, j);
    hide Placed; hide Runs; hide OneKind;
    JoinOrder(items, overlaps, taken, runs, run, of, j);
  }

  lemma JoinPlaced(taken: seq<bool>, runs: seq<seq<nat>>, run: seq<nat>, of: seq<int>, j: nat)
    requires |taken| == |of| && Placed(taken, runs + [run], of) && j < |taken|
    ensures Placed(taken[j := true], runs + [run + [j]], of[j := |runs|])
  {
    var all, grown := runs + [run], runs + [run + [j]];
    forall i | 0 <= i < |taken| && taken[i] ensures of[j := |runs|][i] >= 0 && i in grown[of[j := |runs|][i]] {
      if i == j {
        assert (run + [j])[|run|] == j;
      } else if of[i] < |runs| {
        assert grown[of[i]] == all[of[i]];
      } else {
        assert i in run;
      }
    }
    assert j in run + [j];
  }

  lemma JoinRuns(runs: seq<seq<nat>>, run: seq<nat>, of: seq<int>, j: nat)
    requires Runs(runs + [run], of) && j < |of| && of[j] == -1 && run != [] && run[|run| - 1] < j
    ensures Runs(runs + [run + [j]], of[j := |runs|])
  {
    var all, grown := runs + [run], runs + [run + [j]];
    forall r, k | 0 <= r < |grown| && 0 <= k < |grown[r]| ensures grown[r][k] < |of| && of[j := |runs|][grown[r][k]] == r {
      if r < |runs| { assert grown[r] == all[r] && all[r][k] == grown[r][k]; }
      else if k < |run| { assert all[r][k] == grown[r][k]; }
    }
    forall r, k, l | 0 <= r < |grown| && 0 <= k < l < |grown[r]| ensures grown[r][k] < grown[r][l] {
      if r < |runs| { assert grown[r] == all[r] && all[r][k] < all[r][l]; }
      else if l < |run| { assert all[r][k] < all[r][l]; }
      else if k < |run| - 1 { assert all[r][k] < all[r][|run| - 1]; }
    }
  }

  lemma JoinKind<Kind, Shape>(items: seq<Item<Kind, Shape>>, runs: seq<seq<nat>>, run: seq<nat>, of: seq<int>, i: nat, j: nat)
    requires |of| == |items| && OneKind(items, of) && Runs(runs + [run], of) && i < j < |items|
    requires run != [] && run[0] == i && items[i].kind == items[j].kind
    ensures OneKind(items, of[j := |runs|])
  {
    assert (runs + [run])[|runs|][0] == i;
  }

  lemma JoinOrder<Kind, Shape>(items: seq<Item<Kind, Shape>>, overlaps: (Shape, Shape) -> bool,
                               taken: seq<bool>, runs: seq<seq<nat>>, run: seq<nat>, of: seq<int>, j: nat)
    requires |taken| == |of| == |items| && Placed(taken, runs + [run], of) && Ordered(items, overlaps, of)
    requires j < |items| && !taken[j]
    requires forall k :: 0 <= k < j && !taken[k] ==> !overlaps(items[k].shape, items[j].shape)
    ensures Ordered(items, overlaps, of[j := |runs|])
  {}
}
