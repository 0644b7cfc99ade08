/** A batch of writes as fewer, with the same effect. */
module WriteMerge {
  import opened Bytes
  import opened M64p
  import opened MemProto
  import opened M64pRoundTrip

  // ---- what writes come to ----

  function End(w: Write): (end: nat) {
    w.addr as int + |w.data|
  }

  /** The first `n` bytes one write names. */
  function NamedTo(w: Write, n: nat): (m: map<nat, byte>)
    requires n <= |w.data|
  {
    if n == 0 then map[] else NamedTo(w, n - 1)[w.addr as int + n - 1 := w.data[n - 1]]
  }

  function Named(w: Write): (m: map<nat, byte>) {
    NamedTo(w, |w.data|)
  }

  lemma {:induction false} NamedIs(w: Write, n: nat, a: nat)
    requires n <= |w.data|
    ensures a in NamedTo(w, n) <==> w.addr as int <= a < w.addr as int + n
    ensures a in NamedTo(w, n) ==> NamedTo(w, n)[a] == w.data[a - w.addr]
  {
    if n > 0 { NamedIs(w, n - 1, a); }
  }

  /** Every byte the writes name, as the last to name it has it. */
  function BytesOf(ws: seq<Write>): (m: map<nat, byte>) {
    if ws == [] then map[] else Named(ws[0]) + BytesOf(ws[1..])
  }

  lemma {:induction false} BytesOfAppend(a: seq<Write>, b: seq<Write>)
    ensures BytesOf(a + b) == BytesOf(a) + BytesOf(b)
  {
    hide Named;
    if a == [] {
      assert a + b == b;
    } else {
      BytesOfAppend(a[1..], b);
      assert (a + b)[1..] == a[1..] + b;
    }
  }

  lemma BytesOfOne(a: seq<Write>, w: Write)
    ensures BytesOf(a + [w]) == BytesOf(a) + Named(w)
  {
    hide Named;
    BytesOfAppend(a, [w]);
    assert BytesOf([w]) == Named(w) + BytesOf([]);
  }

  /** Memory after the writes: the bytes they name, and nothing else. */
  lemma {:induction false} WriteAllIs(mem: seq<byte>, ws: seq<Write>, a: nat)
    requires (forall w <- ws :: End(w) <= |mem|) && a < |mem|
    ensures (forall w <- ws :: w.addr as int + |w.data| <= |mem|)
    ensures WriteAll(mem, ws)[a] == if a in BytesOf(ws) then BytesOf(ws)[a] else mem[a]
    decreases |ws|
  {
    if ws != [] {
      assert ws[0] in ws && forall w <- ws[1..] :: w in ws;
      NamedIs(ws[0], |ws[0].data|, a);
      WriteAllIs(Overwrite(mem, ws[0].addr, ws[0].data), ws[1..], a);
    }
  }

  /** Writes naming the same bytes the same have the same effect. */
  lemma SameEffect(mem: seq<byte>, a: seq<Write>, b: seq<Write>)
    requires (forall w <- a :: End(w) <= |mem|) && (forall w <- b :: End(w) <= |mem|) && BytesOf(a) == BytesOf(b)
    ensures (forall w <- a :: w.addr as int + |w.data| <= |mem|) && (forall w <- b :: w.addr as int + |w.data| <= |mem|)
    ensures WriteAll(mem, a) == WriteAll(mem, b)
  {
    hide BytesOf; hide WriteAll;
    forall i | 0 <= i < |mem| ensures WriteAll(mem, a)[i] == WriteAll(mem, b)[i] {
      WriteAllIs(mem, a, i);
      WriteAllIs(mem, b, i);
    }
  }

  // ---- runs ----

  /** Runs in address order, none empty, and none touching the next. */
  ghost predicate Apart(runs: seq<Write>) {
    && (forall i :: 0 <= i < |runs| ==> runs[i].data != [])
    && forall i, j :: 0 <= i < j < |runs| ==> End(runs[i]) < runs[j].addr as int
  }

  lemma {:induction false} NamedBy(ws: seq<Write>, a: nat)
    ensures a in BytesOf(ws) <==> exists i :: 0 <= i < |ws| && a in Named(ws[i])
  {
    hide Named;
    if ws != [] {
      NamedBy(ws[1..], a);
      if i :| 0 <= i < |ws| && a in Named(ws[i]) {
        if i > 0 { assert ws[1..][i - 1] == ws[i]; }
      }
      if i :| 0 <= i < |ws| - 1 && a in Named(ws[1..][i]) { assert ws[i + 1] == ws[1..][i]; }
    }
  }

  lemma Least(s: set<nat>) returns (a: nat)
    requires s != {}
    ensures a in s && forall b <- s :: a <= b
    decreases |s|
  {
    a :| a in s;
    var rest := s - {a};
    if rest == {} {
      assert s == {a};
    } else {
      var b := Least(rest);
      assert s == rest + {a};
      if b < a { a := b; }
    }
  }

  /** All the bytes of a batch, each as it is written last. */
  method Gather(ws: seq<Write>) returns (bytes: map<nat, byte>)
    ensures bytes == BytesOf(ws)
  {
    hide Named;
    bytes := map[];
    for i := 0 to |ws|
      invariant bytes == BytesOf(ws[..i])
    {
      assert ws[..i + 1] == ws[..i] + [ws[i]];
      BytesOfOne(ws[..i], ws[i]);
      bytes := Insert(bytes, ws[i]);
    }
    assert ws[..|ws|] == ws;
  }

  method Insert(bytes: map<nat, byte>, w: Write) returns (more: map<nat, byte>)
    ensures more == bytes + Named(w)
  {
    more := bytes;
    assert bytes + NamedTo(w, 0) == bytes;
    for k := 0 to |w.data|
      invariant more == bytes + NamedTo(w, k)
    {
      more := more[w.addr as int + k := w.data[k]];
    }
  }

  /** One more byte after the runs: on the end of the last, or a run of its own. */
  method Extend(runs: seq<Write>, a: uint32, b: byte) returns (more: seq<Write>)
    requires Apart(runs) && forall r <- runs :: End(r) <= a as int
    ensures Apart(more) && BytesOf(more) == BytesOf(runs)[a as int := b] && forall r <- more :: End(r) <= a as int + 1
  {
    hide BytesOf; hide Named; hide Apart;
    if runs != [] && End(runs[|runs| - 1]) == a as int {
      var n := |runs| - 1;
      var last := runs[n];
      more := runs[..n] + [last.(data := last.data + [b])];
      Grown(runs, b);
    } else {
      more := runs + [Write(a, [b])];
      Started(runs, a, b);
    }
  }

  lemma Grown(runs: seq<Write>, b: byte)
    requires runs != [] && Apart(runs)
    ensures var n, last := |runs| - 1, runs[|runs| - 1]; var more := runs[..n] + [last.(data := last.data + [b])];
      Apart(more) && BytesOf(more) == BytesOf(runs)[End(last) := b]
  {
    hide BytesOf; hide Named; hide Apart;
    var n, last := |runs| - 1, runs[|runs| - 1];
    var grown := last.(data := last.data + [b]);
    assert runs == runs[..n] + [last];
    BytesOfOne(runs[..n], last);
    BytesOfOne(runs[..n], grown);
    NamedGrown(last, b, |last.data|);
    NamedLast(last, b);
    UpdateLast(BytesOf(runs[..n]), Named(last), End(last), b);
    ApartGrown(runs, grown);
  }

  lemma UpdateLast(m: map<nat, byte>, l: map<nat, byte>, k: nat, b: byte)
    ensures m + l[k := b] == (m + l)[k := b]
  {}

  lemma NamedLast(w: Write, b: byte)
    ensures Named(w.(data := w.data + [b])) == Named(w)[End(w) := b]
  {
    NamedGrown(w, b, |w.data|);
  }

  lemma ApartGrown(runs: seq<Write>, grown: Write)
    requires runs != [] && Apart(runs) && grown.addr == runs[|runs| - 1].addr && grown.data != []
    ensures Apart(runs[..|runs| - 1] + [grown])
  {}

  lemma {:induction false} NamedGrown(w: Write, b: byte, n: nat)
    requires n <= |w.data|
    ensures NamedTo(w.(data := w.data + [b]), n) == NamedTo(w, n)
    ensures Named(w.(data := w.data + [b])) == NamedTo(w.(data := w.data + [b]), |w.data|)[End(w) := b]
  {
    if n > 0 { NamedGrown(w, b, n - 1); }
  }

  lemma Started(runs: seq<Write>, a: uint32, b: byte)
    requires Apart(runs) && forall r <- runs :: End(r) <= a as int
    requires runs != [] ==> End(runs[|runs| - 1]) != a as int
    ensures var more := runs + [Write(a, [b])];
      Apart(more) && BytesOf(more) == BytesOf(runs)[a as int := b]
  {
    hide BytesOf; hide Apart; hide Named;
    BytesOfOne(runs, Write(a, [b]));
    NamedSingle(a, b);
    UpdateLast(BytesOf(runs), map[], a, b);
    assert BytesOf(runs) + map[] == BytesOf(runs);
    ApartStarted(runs, a, b);
  }

  lemma NamedSingle(a: uint32, b: byte)
    ensures Named(Write(a, [b])) == map[][a as int := b]
  {
    assert NamedTo(Write(a, [b]), 1) == NamedTo(Write(a, [b]), 0)[a as int := b];
  }

  lemma ApartStarted(runs: seq<Write>, a: uint32, b: byte)
    requires Apart(runs) && forall r <- runs :: End(r) <= a as int
    requires runs != [] ==> End(runs[|runs| - 1]) != a as int
    ensures Apart(runs + [Write(a, [b])])
  {
    forall i | 0 <= i < |runs| ensures End(runs[i]) < a as int {
      assert runs[i] in runs && (i < |runs| - 1 ==> End(runs[i]) < runs[|runs| - 1].addr as int);
    }
  }

  /** Writes as runs of the same bytes, in address order, joined wherever they touch. */
  method Coalesce(ws: seq<Write>) returns (runs: seq<Write>)
    requires forall w <- ws :: End(w) <= 0xFFFF_FFFF
    ensures Apart(runs) && BytesOf(runs) == BytesOf(ws)
  {
    hide BytesOf; hide Apart; hide Named;
    var bytes := Gather(ws);
    var left := bytes.Keys;
    runs := [];
    ghost var done: map<nat, byte> := map[];
    NoRuns();
    while left != {}
      invariant Apart(runs) && BytesOf(runs) == done && left <= bytes.Keys
      invariant forall a <- left, r <- runs :: End(r) <= a
      invariant done == map a | a in bytes && a !in left :: bytes[a]
      decreases |left|
    {
      ghost var least := Least(left);
      var a :| a in left && forall b <- left :: a <= b;
      AddressSmall(ws, a);
      runs := Extend(runs, a, bytes[a]);
      left := left - {a};
      done := done[a := bytes[a]];
    }
    assert done == bytes;
  }

  lemma NoRuns()
    ensures Apart([]) && BytesOf([]) == map[]
  {}

  lemma AddressSmall(ws: seq<Write>, a: nat)
    requires (forall w <- ws :: End(w) <= 0xFFFF_FFFF) && a in BytesOf(ws)
    ensures a < 0xFFFF_FFFF
  {
    hide BytesOf;
    NamedBy(ws, a);
    var i :| 0 <= i < |ws| && a in Named(ws[i]);
    NamedIs(ws[i], |ws[i].data|, a);
    assert ws[i] in ws;
  }

  // ---- no fewer would do ----

  /** Different numbers below `n` are at most `n`. */
  lemma {:induction false} DistinctBelow(at: seq<nat>, n: nat)
    requires (forall i :: 0 <= i < |at| ==> at[i] < n) && (forall i, j :: 0 <= i < j < |at| ==> at[i] != at[j])
    ensures |at| <= n
    decreases n
  {
    assert at != [] ==> at[0] < n;
    if n > 0 {
      if k :| 0 <= k < |at| && at[k] == n - 1 {
        DistinctBelow(at[..k] + at[k + 1..], n - 1);
      } else {
        DistinctBelow(at, n - 1);
      }
    }
  }

  /** Between two runs is a byte no run names. */
  lemma GapOut(runs: seq<Write>, i: nat)
    requires Apart(runs) && i < |runs|
    ensures End(runs[i]) !in BytesOf(runs)
  {
    var gap := End(runs[i]);
    forall r | 0 <= r < |runs| ensures gap !in Named(runs[r]) {
      NamedIs(runs[r], |runs[r].data|, gap);
      assert r < i ==> End(runs[r]) < runs[i].addr as int;
      assert r > i ==> End(runs[i]) < runs[r].addr as int;
    }
    NamedBy(runs, gap);
  }

  /** One write cannot name the starts of two runs: it would name the byte between them. */
  lemma OneEach(runs: seq<Write>, ws: seq<Write>, i: nat, j: nat, k: nat)
    requires Apart(runs) && BytesOf(ws) == BytesOf(runs) && i < j < |runs| && k < |ws|
    requires runs[i].addr as int in Named(ws[k])
    ensures runs[j].addr as int !in Named(ws[k])
  {
    var w, gap := ws[k], End(runs[i]);
    GapOut(runs, i);
    NamedBy(ws, gap);
    NamedIs(w, |w.data|, runs[i].addr);
    NamedIs(w, |w.data|, runs[j].addr);
    NamedIs(w, |w.data|, gap);
  }

  /** Which write names the start of each of the first `n` runs. */
  lemma {:induction false} Starts(runs: seq<Write>, ws: seq<Write>, n: nat) returns (at: seq<nat>)
    requires Apart(runs) && BytesOf(ws) == BytesOf(runs) && n <= |runs|
    ensures |at| == n && forall i :: 0 <= i < n ==> at[i] < |ws| && runs[i].addr as int in Named(ws[at[i]])
  {
    hide Named; hide BytesOf;
    at := [];
    if n > 0 {
      var before := Starts(runs, ws, n - 1);
      var r := runs[n - 1];
      NamedIs(r, |r.data|, r.addr);
      StartNamed(r);
      NamedBy(runs, r.addr);
      NamedBy(ws, r.addr);
      var k :| 0 <= k < |ws| && r.addr as int in Named(ws[k]);
      at := before + [k];
    }
  }

  lemma StartNamed(w: Write)
    requires w.data != []
    ensures w.addr as int in Named(w)
  {
    NamedIs(w, |w.data|, w.addr);
  }

  /** No batch with the same effect has fewer writes than the runs. */
  lemma Fewest(runs: seq<Write>, ws: seq<Write>)
    requires Apart(runs) && BytesOf(ws) == BytesOf(runs)
    ensures |runs| <= |ws|
  {
    hide Named; hide BytesOf; hide Apart;
    var at := Starts(runs, ws, |runs|);
    forall i, j | 0 <= i < j < |at| ensures at[i] != at[j] {
      OneEach(runs, ws, i, j, at[i]);
    }
    DistinctBelow(at, |ws|);
  }

  // ---- cutting ----

  /** The rest of a write from `done` on, in pieces of at most `MAX_REGION_BYTES`. */
  function Pieces(w: Write, done: nat): (ws: seq<Write>)
    requires done <= |w.data| && End(w) <= 0xFFFF_FFFF
    decreases |w.data| - done
  {
    if done == |w.data| then []
    else
      var take := Min(|w.data| - done, MAX_REGION_BYTES);
      [Write(w.addr as int + done, w.data[done..done + take])] + Pieces(w, done + take)
  }

  function ChunksOf(ws: seq<Write>): (chunks: seq<Write>)
    requires forall w <- ws :: End(w) <= 0xFFFF_FFFF
  {
    if ws == [] then []
    else
      assert ws[|ws| - 1] in ws;
      ChunksOf(ws[..|ws| - 1]) + Pieces(ws[|ws| - 1], 0)
  }

  method Chunk(ws: seq<Write>) returns (chunks: seq<Write>)
    requires forall w <- ws :: End(w) <= 0xFFFF_FFFF
    ensures chunks == ChunksOf(ws)
  {
    chunks := [];
    for i := 0 to |ws|
      invariant chunks == ChunksOf(ws[..i])
    {
      assert ws[..i + 1][..i] == ws[..i] && ws[i] in ws;
      var pieces := CutOne(ws[i]);
      chunks := chunks + pieces;
    }
    assert ws[..|ws|] == ws;
  }

  method CutOne(w: Write) returns (pieces: seq<Write>)
    requires End(w) <= 0xFFFF_FFFF
    ensures pieces == Pieces(w, 0)
  {
    pieces := [];
    var done := 0;
    assert [] + Pieces(w, 0) == Pieces(w, 0);
    while done < |w.data|
      invariant done <= |w.data| && pieces + Pieces(w, done) == Pieces(w, 0)
    {
      var take := Min(|w.data| - done, MAX_REGION_BYTES);
      var piece := Write(w.addr as int + done, w.data[done..done + take]);
      assert pieces + ([piece] + Pieces(w, done + take)) == pieces + [piece] + Pieces(w, done + take);
      pieces := pieces + [piece];
      done := done + take;
    }
    assert pieces + [] == pieces;
  }

  /** Cutting names the same bytes, and each piece fits a region. */
  lemma {:induction false} PiecesName(w: Write, done: nat)
    requires done <= |w.data| && End(w) <= 0xFFFF_FFFF
    ensures NamedTo(w, done) + BytesOf(Pieces(w, done)) == Named(w)
    ensures forall p <- Pieces(w, done) :: |p.data| <= MAX_REGION_BYTES && End(p) <= End(w)
    decreases |w.data| - done
  {
    if done < |w.data| {
      var take := Min(|w.data| - done, MAX_REGION_BYTES);
      var piece := Write(w.addr as int + done, w.data[done..done + take]);
      PiecesName(w, done + take);
      NamedPiece(w, done, take, take);
      hide NamedTo; hide BytesOf; hide Named;
      var rest := Pieces(w, done + take);
      assert Pieces(w, done) == [piece] + rest;
      BytesOfAppend([piece], rest);
      BytesOfSingle(piece);
      NamedFull(piece);
      MapRegroup(NamedTo(w, done), Named(piece), BytesOf(rest));
    } else {
      NamedFull(w);
      NoRuns();
      assert NamedTo(w, done) + map[] == NamedTo(w, done);
    }
  }

  lemma NamedFull(w: Write)
    ensures NamedTo(w, |w.data|) == Named(w)
  {}

  lemma BytesOfSingle(w: Write)
    ensures BytesOf([w]) == Named(w)
  {
    hide Named;
    assert BytesOf([w]) == Named(w) + BytesOf([]);
  }

  lemma MapRegroup(a: map<nat, byte>, b: map<nat, byte>, c: map<nat, byte>)
    ensures a + b + c == a + (b + c)
  {}

  lemma {:induction false} NamedPiece(w: Write, done: nat, take: nat, n: nat)
    requires n <= take && done + take <= |w.data| && w.addr as int + done <= 0xFFFF_FFFF
    ensures NamedTo(w, done) + NamedTo(Write(w.addr as int + done, w.data[done..done + take]), n) == NamedTo(w, done + n)
  {
    if n > 0 { NamedPiece(w, done, take, n - 1); }
  }

  lemma {:induction false} ChunksName(ws: seq<Write>)
    requires forall w <- ws :: End(w) <= 0xFFFF_FFFF
    ensures BytesOf(ChunksOf(ws)) == BytesOf(ws)
    ensures forall p <- ChunksOf(ws) :: |p.data| <= MAX_REGION_BYTES && exists w <- ws :: End(p) <= End(w)
  {
    hide Named; hide BytesOf; hide NamedTo;
    if ws == [] {
    } else {
      var n, w := |ws| - 1, ws[|ws| - 1];
      assert w in ws && forall v <- ws[..n] :: v in ws;
      ChunksName(ws[..n]);
      PiecesName(w, 0);
      NamedNone(w);
      assert ws == ws[..n] + [w];
      BytesOfOne(ws[..n], w);
      BytesOfAppend(ChunksOf(ws[..n]), Pieces(w, 0));
    }
  }

  lemma NamedNone(w: Write)
    ensures forall m: map<nat, byte> :: NamedTo(w, 0) + m == m
  {}

  // ---- no batch that fits one request is missed ----

  /** Two starts no one region can name: far apart, or with a byte between that is not written. */
  ghost predicate Parted(m: map<nat, byte>, a: nat, b: nat) {
    a + MAX_REGION_BYTES <= b || exists g :: a < g < b && g !in m
  }

  ghost predicate AllParted(m: map<nat, byte>, chunks: seq<Write>) {
    && (forall i :: 0 <= i < |chunks| ==> chunks[i].data != [])
    && forall i, j :: 0 <= i < j < |chunks| ==> Parted(m, chunks[i].addr, chunks[j].addr)
  }

  lemma {:induction false} PiecesParted(m: map<nat, byte>, w: Write, done: nat)
    requires done <= |w.data| && End(w) <= 0xFFFF_FFFF
    ensures AllParted(m, Pieces(w, done))
    ensures forall i :: 0 <= i < |Pieces(w, done)| ==> w.addr as int + done <= Pieces(w, done)[i].addr as int < End(w)
    decreases |w.data| - done
  {
    if done < |w.data| {
      var take := Min(|w.data| - done, MAX_REGION_BYTES);
      PiecesParted(m, w, done + take);
      var all, rest := Pieces(w, done), Pieces(w, done + take);
      assert all == [all[0]] + rest;
      forall i, j | 0 <= i < j < |all| ensures Parted(m, all[i].addr, all[j].addr) {
        if i > 0 { assert all[i] == rest[i - 1] && all[j] == rest[j - 1]; }
        else { assert all[j] == rest[j - 1]; }
      }
    }
  }

  /** The pieces of runs are parted, since the runs are. */
  lemma {:induction false} ChunksParted(runs: seq<Write>, n: nat)
    requires Apart(runs) && n <= |runs| && forall w <- runs :: End(w) <= 0xFFFF_FFFF
    ensures (forall w <- runs[..n] :: w in runs) && AllParted(BytesOf(runs), ChunksOf(runs[..n]))
    ensures forall i :: 0 <= i < |ChunksOf(runs[..n])| && n > 0 ==> ChunksOf(runs[..n])[i].addr as int < End(runs[n - 1])
  {
    hide BytesOf; hide Pieces; hide Parted;
    if n > 0 {
      assert runs[..n][..n - 1] == runs[..n - 1] && runs[n - 1] in runs;
      ChunksParted(runs, n - 1);
      PiecesParted(BytesOf(runs), runs[n - 1], 0);
      var a, b := ChunksOf(runs[..n - 1]), Pieces(runs[n - 1], 0);
      forall i, j | 0 <= i < |a| && 0 <= j < |b| ensures Parted(BytesOf(runs), a[i].addr, b[j].addr) {
        GapOut(runs, n - 2);
        PartedBy(BytesOf(runs), a[i].addr, End(runs[n - 2]), b[j].addr);
      }
      PartedJoin(BytesOf(runs), a, b);
    }
  }

  lemma PartedBy(m: map<nat, byte>, a: nat, g: nat, b: nat)
    requires a < g < b && g !in m
    ensures Parted(m, a, b)
  {}

  lemma PartedJoin(m: map<nat, byte>, a: seq<Write>, b: seq<Write>)
    requires AllParted(m, a) && AllParted(m, b)
    requires forall i, j :: 0 <= i < |a| && 0 <= j < |b| ==> Parted(m, a[i].addr, b[j].addr)
    ensures AllParted(m, a + b)
  {
    hide Parted;
    var c := a + b;
    forall i, j | 0 <= i < j < |c| ensures Parted(m, c[i].addr, c[j].addr) {
      if i >= |a| {
        assert c[i] == b[i - |a|] && c[j] == b[j - |a|];
      } else if j >= |a| {
        assert c[i] == a[i] && c[j] == b[j - |a|];
      }
    }
  }

  /** One region cannot name two parted starts. */
  lemma NotBothNamed(m: map<nat, byte>, ws: seq<Write>, k: nat, a: nat, b: nat)
    requires BytesOf(ws) == m && k < |ws| && |ws[k].data| <= MAX_REGION_BYTES && Parted(m, a, b) && a in Named(ws[k])
    ensures b !in Named(ws[k])
  {
    var w := ws[k];
    NamedIs(w, |w.data|, a);
    NamedIs(w, |w.data|, b);
    if a + MAX_REGION_BYTES > b {
      var g :| a < g < b && g !in m;
      NamedIs(w, |w.data|, g);
      NamedBy(ws, g);
    }
  }

  /** Which region names the start of each of the first `n` chunks. */
  lemma {:induction false} ChunkStarts(chunks: seq<Write>, ws: seq<Write>, n: nat) returns (at: seq<nat>)
    requires (forall i :: 0 <= i < |chunks| ==> chunks[i].data != []) && BytesOf(ws) == BytesOf(chunks) && n <= |chunks|
    ensures |at| == n && forall i :: 0 <= i < n ==> at[i] < |ws| && chunks[i].addr as int in Named(ws[at[i]])
  {
    hide Named; hide BytesOf;
    at := [];
    if n > 0 {
      var before := ChunkStarts(chunks, ws, n - 1);
      var r := chunks[n - 1];
      StartNamed(r);
      NamedBy(chunks, r.addr);
      NamedBy(ws, r.addr);
      var k :| 0 <= k < |ws| && r.addr as int in Named(ws[k]);
      at := before + [k];
    }
  }

  /** The runs, cut, are no more regions than any batch of regions with the same effect. */
  lemma FewestRegions(runs: seq<Write>, ws: seq<Write>)
    requires Apart(runs) && (forall w <- runs :: End(w) <= 0xFFFF_FFFF) && BytesOf(ws) == BytesOf(runs)
    requires forall w <- ws :: |w.data| <= MAX_REGION_BYTES
    ensures |ChunksOf(runs)| <= |ws|
  {
    hide Named; hide BytesOf; hide Apart; hide ChunksOf; hide Parted;
    var chunks := ChunksOf(runs);
    ChunksParted(runs, |runs|);
    assert runs[..|runs|] == runs;
    ChunksName(runs);
    var at := ChunkStarts(chunks, ws, |chunks|);
    forall i, j | 0 <= i < j < |at| ensures at[i] != at[j] {
      assert ws[at[i]] in ws;
      NotBothNamed(BytesOf(runs), ws, at[i], chunks[i].addr, chunks[j].addr);
    }
    DistinctBelow(at, |ws|);
  }

  // ---- how many bytes ----

  lemma {:induction false} NamedSize(w: Write, n: nat)
    requires n <= |w.data|
    ensures |NamedTo(w, n)| == n
  {
    if n > 0 {
      NamedSize(w, n - 1);
      NamedIs(w, n - 1, w.addr as int + n - 1);
    }
  }

  lemma UnionSize(a: map<nat, byte>, b: map<nat, byte>)
    ensures |a + b| <= |a| + |b|
    ensures a.Keys !! b.Keys ==> |a + b| == |a| + |b|
  {
    assert (a + b).Keys == a.Keys + b.Keys;
    assert |a.Keys + b.Keys| == |a.Keys| + |b.Keys| - |a.Keys * b.Keys|;
    assert a.Keys !! b.Keys ==> a.Keys * b.Keys == {};
  }

  /** Every byte written is sent at least once. */
  lemma {:induction false} BytesAtLeast(ws: seq<Write>)
    ensures |BytesOf(ws)| <= Sum(WriteLengths(ws))
  {
    hide Named; hide BytesOf;
    if ws == [] {
      NoRuns();
    } else {
      var n := |ws| - 1;
      assert ws == ws[..n] + [ws[n]];
      BytesAtLeast(ws[..n]);
      BytesOfOne(ws[..n], ws[n]);
      NamedIsSize(ws[n]);
      UnionSize(BytesOf(ws[..n]), Named(ws[n]));
      assert WriteLengths(ws)[..n] == WriteLengths(ws[..n]);
    }
  }

  lemma NamedIsSize(w: Write)
    ensures |Named(w)| == |w.data|
  {
    NamedSize(w, |w.data|);
  }

  /** Runs send each byte once. */
  lemma {:induction false} RunsExact(runs: seq<Write>, n: nat)
    requires Apart(runs) && n <= |runs|
    ensures |BytesOf(runs[..n])| == Sum(WriteLengths(runs[..n]))
    ensures forall a <- BytesOf(runs[..n]) :: n > 0 && a < End(runs[n - 1])
  {
    hide Named; hide BytesOf; hide Sum; hide WriteLengths;
    if n == 0 {
      NoRuns();
      NoLengths();
      assert runs[..0] == [];
    } else {
      RunsExact(runs, n - 1);
      assert runs[..n] == runs[..n - 1] + [runs[n - 1]];
      RunMore(runs[..n - 1], runs[n - 1]);
    }
  }

  lemma NoLengths()
    ensures Sum(WriteLengths([])) == 0
  {}

  lemma RunMore(before: seq<Write>, w: Write)
    requires |BytesOf(before)| == Sum(WriteLengths(before)) && forall a <- BytesOf(before) :: a < w.addr as int
    ensures |BytesOf(before + [w])| == Sum(WriteLengths(before + [w]))
    ensures forall a <- BytesOf(before + [w]) :: a < End(w)
  {
    hide Named; hide BytesOf;
    BytesOfOne(before, w);
    NamedIsSize(w);
    forall a | a in Named(w) ensures w.addr as int <= a < End(w) { NamedIsAt(w, a); }
    UnionSize(BytesOf(before), Named(w));
    assert WriteLengths(before + [w])[..|before|] == WriteLengths(before);
  }

  lemma NamedIsAt(w: Write, a: nat)
    requires a in Named(w)
    ensures w.addr as int <= a < End(w)
  {
    NamedIs(w, |w.data|, a);
  }

  /** Cutting sends no byte more. */
  lemma {:induction false} CutExact(w: Write, done: nat)
    requires done <= |w.data| && End(w) <= 0xFFFF_FFFF
    ensures Sum(WriteLengths(Pieces(w, done))) == |w.data| - done
    decreases |w.data| - done
  {
    if done == |w.data| {
      NoLengths();
    } else {
      var take := Min(|w.data| - done, MAX_REGION_BYTES);
      var piece := Write(w.addr as int + done, w.data[done..done + take]);
      CutExact(w, done + take);
      hide Sum; hide WriteLengths;
      LengthsAppend([piece], Pieces(w, done + take));
      OneLength(piece);
    }
  }

  lemma OneLength(w: Write)
    ensures Sum(WriteLengths([w])) == |w.data|
  {
    assert WriteLengths([w]) == [|w.data|] && [|w.data|][..0] == [];
  }

  lemma LengthsAppend(a: seq<Write>, b: seq<Write>)
    ensures Sum(WriteLengths(a + b)) == Sum(WriteLengths(a)) + Sum(WriteLengths(b))
  {
    assert WriteLengths(a + b) == WriteLengths(a) + WriteLengths(b);
    SumAppend(WriteLengths(a), WriteLengths(b));
  }

  lemma {:induction false} ChunksExact(ws: seq<Write>)
    requires forall w <- ws :: End(w) <= 0xFFFF_FFFF
    ensures Sum(WriteLengths(ChunksOf(ws))) == Sum(WriteLengths(ws))
  {
    hide Pieces;
    if ws != [] {
      var n, w := |ws| - 1, ws[|ws| - 1];
      assert w in ws && forall v <- ws[..n] :: v in ws;
      ChunksExact(ws[..n]);
      CutExact(w, 0);
      LengthsAppend(ChunksOf(ws[..n]), Pieces(w, 0));
      LengthsAppend(ws[..n], [w]);
      assert ws == ws[..n] + [w];
      OneLength(w);
    }
  }

  /** A batch one request carries. */
  predicate OneRequestOf(ws: seq<Write>) {
    Limits(WriteLengths(ws)).None?
  }

  /** If any batch with the same effect fits one request, the runs do. */
  lemma MergedFits(runs: seq<Write>, ws: seq<Write>)
    requires Apart(runs) && (forall w <- runs :: End(w) <= 0xFFFF_FFFF) && BytesOf(ws) == BytesOf(runs) && OneRequestOf(ws)
    ensures OneRequestOf(ChunksOf(runs))
  {
    hide BytesOf; hide Apart; hide ChunksOf; hide Sum;
    SmallWrites(ws);
    FewestRegions(runs, ws);
    BytesAtLeast(ws);
    RunsExact(runs, |runs|);
    assert runs[..|runs|] == runs;
    ChunksExact(runs);
    ChunksName(runs);
    forall i | 0 <= i < |ChunksOf(runs)| ensures |ChunksOf(runs)[i].data| <= MAX_REGION_BYTES {
      assert ChunksOf(runs)[i] in ChunksOf(runs);
    }
  }

  /** Writes named in range are in range, merged or cut. */
  lemma NamedWithin(ws: seq<Write>, runs: seq<Write>, size: nat)
    requires (forall w <- ws :: End(w) <= size) && BytesOf(runs) == BytesOf(ws) && forall i :: 0 <= i < |runs| ==> runs[i].data != []
    ensures forall r <- runs :: End(r) <= size
  {
    hide *;
    forall i | 0 <= i < |runs| ensures End(runs[i]) <= size {
      var last := End(runs[i]) - 1;
      LastNamed(runs[i]);
      NamedBy(runs, last);
      NamedBelow(ws, last, size);
    }
  }

  lemma NamedBelow(ws: seq<Write>, a: nat, size: nat)
    requires (forall w <- ws :: End(w) <= size) && a in BytesOf(ws)
    ensures a < size
  {
    hide *;
    NamedBy(ws, a);
    var k :| 0 <= k < |ws| && a in Named(ws[k]);
    NamedIsAt(ws[k], a);
    assert ws[k] in ws;
  }

  lemma LastNamed(w: Write)
    requires w.data != []
    ensures End(w) - 1 in Named(w)
  {
    NamedIs(w, |w.data|, End(w) - 1);
  }
}
