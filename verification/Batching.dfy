/** Cutting what a caller asks for into requests, and putting what they bring back together. */
module Batching {
  import opened Bytes
  import opened M64p

  /** What a caller asks for: `len` bytes at `addr`. */
  datatype Span = Span(addr: uint32, len: nat)

  predicate InRange(s: Span, size: uint32) {
    s.addr as int + s.len <= size as int
  }

  predicate RegionIn(r: Region, size: uint32) {
    r.addr as int + r.len as int <= size as int
  }

  function Slice(mem: seq<byte>, s: Span): (b: seq<byte>)
    requires s.addr as int + s.len <= |mem|
  {
    mem[s.addr..s.addr as int + s.len]
  }

  function RegionOf(mem: seq<byte>, r: Region): (b: seq<byte>)
    requires r.addr as int + r.len as int <= |mem|
  {
    mem[r.addr..r.addr as int + r.len as int]
  }

  /** What memory holds in each of `rs`. */
  function Slices(mem: seq<byte>, rs: seq<Region>): (bs: seq<seq<byte>>)
    requires |mem| <= 0xFFFF_FFFF && forall r <- rs :: RegionIn(r, |mem|)
    ensures |bs| == |rs|
  {
    seq(|rs|, i requires 0 <= i < |rs| => assert RegionIn(rs[i], |mem|); RegionOf(mem, rs[i]))
  }

  // ---- cutting ----

  /** One span as regions a request can carry, from `done` on. */
  function Cut(s: Span, done: nat, size: uint32): (rs: seq<Region>)
    requires InRange(s, size) && done <= s.len
    decreases s.len - done
  {
    if done == s.len then []
    else
      var take := Min(s.len - done, MAX_REGION_BYTES);
      [Region(s.addr as int + done, take)] + Cut(s, done + take, size)
  }

  /** The regions of the spans, and how many each came to. */
  method Split(spans: seq<Span>, size: uint32) returns (ok: bool, chunks: seq<Region>, counts: seq<nat>)
    ensures ok <==> forall s <- spans :: InRange(s, size)
    ensures ok ==> |counts| == |spans| && chunks == Concat(CutAll(spans, size))
                   && forall i :: 0 <= i < |spans| ==> counts[i] == |CutAll(spans, size)[i]|
  {
    chunks, counts := [], [];
    for i := 0 to |spans|
      invariant forall s <- spans[..i] :: InRange(s, size)
      invariant |counts| == i && chunks == Concat(CutAll(spans[..i], size))
      invariant forall j :: 0 <= j < i ==> counts[j] == |CutAll(spans[..i], size)[j]|
    {
      var s := spans[i];
      if !(s.addr as int + s.len <= size as int) {
        assert s in spans;
        return false, [], [];
      }
      var before, done := |chunks|, 0;
      ghost var was := chunks;
      assert was + Cut(s, 0, size) == chunks + Cut(s, 0, size);
      while done < s.len
        invariant done <= s.len && chunks + Cut(s, done, size) == was + Cut(s, 0, size)
      {
        var take := Min(s.len - done, MAX_REGION_BYTES);
        ghost var rest := Cut(s, done + take, size);
        assert chunks + ([Region(s.addr as int + done, take)] + rest) == chunks + [Region(s.addr as int + done, take)] + rest;
        chunks := chunks + [Region(s.addr as int + done, take)];
        done := done + take;
      }
      assert chunks + [] == chunks;
      counts := counts + [|chunks| - before];
      CutMore(spans, i, size);
    }
    assert spans[..|spans|] == spans;
    ok := true;
  }

  function CutAll(spans: seq<Span>, size: uint32): (rs: seq<seq<Region>>)
    requires forall s <- spans :: InRange(s, size)
    ensures |rs| == |spans|
  {
    seq(|spans|, i requires 0 <= i < |spans| => assert spans[i] in spans; Cut(spans[i], 0, size))
  }

  lemma CutMore(spans: seq<Span>, i: nat, size: uint32)
    requires i < |spans| && (forall s <- spans[..i] :: InRange(s, size)) && InRange(spans[i], size)
    ensures forall s <- spans[..i + 1] :: InRange(s, size)
    ensures CutAll(spans[..i + 1], size) == CutAll(spans[..i], size) + [Cut(spans[i], 0, size)]
    ensures Concat(CutAll(spans[..i + 1], size)) == Concat(CutAll(spans[..i], size)) + Cut(spans[i], 0, size)
  {
    assert spans[..i + 1] == spans[..i] + [spans[i]];
    assert CutAll(spans[..i + 1], size) == CutAll(spans[..i], size) + [Cut(spans[i], 0, size)];
    ConcatOne(CutAll(spans[..i], size), Cut(spans[i], 0, size));
  }

  // ---- packing ----

  predicate Fits(batch: seq<Region>, len: nat) {
    |batch| < MAX_REGIONS && Sum(RegionLengths(batch)) + len <= MAX_TOTAL_BYTES
  }

  /** A batch one request carries, with something in it. */
  predicate OneRequest(batch: seq<Region>) {
    batch != [] && Limits(RegionLengths(batch)).None?
  }

  lemma LengthsMore(batch: seq<Region>, c: Region)
    ensures RegionLengths(batch + [c]) == RegionLengths(batch) + [c.len as int]
    ensures Sum(RegionLengths(batch + [c])) == Sum(RegionLengths(batch)) + c.len
  {
    assert (RegionLengths(batch) + [c.len as int])[..|batch|] == RegionLengths(batch);
  }

  /** Each a request, and none that the next one's first chunk would still fit. */
  ghost predicate Packed(out: seq<seq<Region>>) {
    && (forall b <- out :: OneRequest(b))
    && forall i :: 0 < i < |out| ==> out[i] != [] && !Fits(out[i - 1], out[i][0].len)
  }

  /** The batch being filled comes after `out`. */
  ghost predicate Follows(out: seq<seq<Region>>, batch: seq<Region>) {
    batch != [] ==> OneRequest(batch) && (out != [] ==> !Fits(out[|out| - 1], batch[0].len))
  }

  lemma PackedMore(out: seq<seq<Region>>, batch: seq<Region>)
    requires Packed(out) && Follows(out, batch) && batch != []
    ensures Packed(out + [batch]) && Concat(out + [batch]) == Concat(out) + batch
  {
    hide OneRequest; hide Fits;
    ConcatOne(out, batch);
  }

  /** Chunks as requests, in their order, cut only where a request would break a limit. */
  method Batches(chunks: seq<Region>) returns (out: seq<seq<Region>>)
    requires forall c <- chunks :: c.len as int <= MAX_REGION_BYTES
    ensures Concat(out) == chunks && Packed(out)
  {
    hide Packed; hide Follows; hide Concat; hide Sum; hide Limits;
    out := [];
    var batch: seq<Region>, bytes := [], 0;
    NoBatches();
    for i := 0 to |chunks|
      invariant Concat(out) + batch == chunks[..i] && Packed(out) && Follows(out, batch)
      invariant bytes == Sum(RegionLengths(batch)) && (batch == [] ==> out == [])
    {
      var c := chunks[i];
      assert c in chunks;
      if |batch| == MAX_REGIONS || bytes + c.len > MAX_TOTAL_BYTES {
        BatchFull(out, batch, c);
        PackedMore(out, batch);
        out := out + [batch];
        batch, bytes := [], 0;
      }
      BatchMore(out, batch, c);
      bytes := bytes + c.len;
      assert chunks[..i + 1] == chunks[..i] + [c];
      batch := batch + [c];
    }
    assert chunks[..|chunks|] == chunks;
    if batch != [] {
      PackedMore(out, batch);
      out := out + [batch];
    }
  }

  lemma NoBatches()
    ensures Concat<Region>([]) == [] && Packed([]) && Follows([], []) && Sum(RegionLengths([])) == 0
  {}

  lemma BatchFull(out: seq<seq<Region>>, batch: seq<Region>, c: Region)
    requires c.len as int <= MAX_REGION_BYTES && Follows(out, batch)
    requires |batch| == MAX_REGIONS || Sum(RegionLengths(batch)) + c.len > MAX_TOTAL_BYTES
    ensures batch != [] && Follows(out + [batch], [c]) && Follows(out + [batch], []) && Sum(RegionLengths([])) == 0
  {
    LengthsMore([], c);
  }

  lemma BatchMore(out: seq<seq<Region>>, batch: seq<Region>, c: Region)
    requires c.len as int <= MAX_REGION_BYTES && Follows(out, batch)
    requires batch == [] && out != [] ==> Follows(out, [c])
    requires |batch| != MAX_REGIONS && Sum(RegionLengths(batch)) + c.len <= MAX_TOTAL_BYTES
    ensures Follows(out, batch + [c]) && Sum(RegionLengths(batch + [c])) == Sum(RegionLengths(batch)) + c.len
  {
    LengthsMore(batch, c);
    if batch == [] {
      assert batch + [c] == [c];
      LengthsMore([], c);
    }
  }

  // ---- stitching ----

  /** The blocks of each request's chunks, joined. */
  function Stitched(flat: seq<seq<byte>>, counts: seq<nat>): (r: Option<seq<seq<byte>>>) {
    if counts == [] then Some([])
    else if counts[0] > |flat| then None
    else match Stitched(flat[counts[0]..], counts[1..])
      case None => None
      case Some(rest) => Some([Concat(flat[..counts[0]])] + rest)
  }

  method Stitch(flat: seq<seq<byte>>, counts: seq<nat>) returns (r: Option<seq<seq<byte>>>)
    ensures r == Stitched(flat, counts)
  {
    var out: seq<seq<byte>>, at: nat := [], 0;
    assert flat[0..] == flat && counts[0..] == counts;
    assert forall rest: seq<seq<byte>> :: [] + rest == rest;
    for i := 0 to |counts|
      invariant at <= |flat|
      invariant Stitched(flat, counts)
             == match Stitched(flat[at..], counts[i..]) case None => None case Some(rest) => Some(out + rest)
    {
      hide Concat;
      assert counts[i..][0] == counts[i] && counts[i..][1..] == counts[i + 1..];
      var joined := Join(flat, at, counts[i]);
      if joined.None? { return None; }
      SliceOfSlice(flat, at, |flat|, counts[i]);
      assert flat[at..|flat|] == flat[at..] && flat[at + counts[i]..|flat|] == flat[at + counts[i]..];
      ghost var was := out;
      out := out + [joined.value];
      assert forall rest: seq<seq<byte>> :: was + ([joined.value] + rest) == out + rest;
      at := at + counts[i];
    }
    assert counts[|counts|..] == [] && out + [] == out;
    r := Some(out);
  }

  /** The `n` blocks from `at`, joined, if there are so many. */
  method Join(flat: seq<seq<byte>>, at: nat, n: nat) returns (r: Option<seq<byte>>)
    requires at <= |flat|
    ensures r == if at + n <= |flat| then Some(Concat(flat[at..at + n])) else None
  {
    var joined := [];
    for k := 0 to n
      invariant at + k <= |flat| && joined == Concat(flat[at..at + k])
    {
      if at + k >= |flat| { return None; }
      assert flat[at..at + k + 1] == flat[at..at + k] + [flat[at + k]];
      ConcatOne(flat[at..at + k], flat[at + k]);
      joined := joined + flat[at + k];
    }
    r := Some(joined);
  }

  function Counts(parts: seq<seq<seq<byte>>>): (counts: seq<nat>)
    ensures |counts| == |parts| && forall i :: 0 <= i < |parts| ==> counts[i] == |parts[i]|
  {
    seq(|parts|, i requires 0 <= i < |parts| => |parts[i]|)
  }

  function Joined(parts: seq<seq<seq<byte>>>): (bs: seq<seq<byte>>)
    ensures |bs| == |parts| && forall i :: 0 <= i < |parts| ==> bs[i] == Concat(parts[i])
  {
    seq(|parts|, i requires 0 <= i < |parts| => Concat(parts[i]))
  }

  /** Blocks come back in the pieces they were cut in. */
  lemma {:induction false} StitchBack(parts: seq<seq<seq<byte>>>)
    ensures Stitched(Concat(parts), Counts(parts)) == Some(Joined(parts))
  {
    if parts != [] {
      StitchBack(parts[1..]);
      var flat, n := Concat(parts), |parts[0]|;
      assert flat[..n] == parts[0] && flat[n..] == Concat(parts[1..]);
      assert Counts(parts)[1..] == Counts(parts[1..]);
      assert Joined(parts) == [Concat(parts[0])] + Joined(parts[1..]);
    } else {
      assert Joined(parts) == [];
    }
  }

  // ---- together ----

  lemma SlicesAppend(mem: seq<byte>, a: seq<Region>, b: seq<Region>)
    requires |mem| <= 0xFFFF_FFFF && (forall r <- a :: RegionIn(r, |mem|)) && (forall r <- b :: RegionIn(r, |mem|))
    ensures forall r <- a + b :: RegionIn(r, |mem|)
    ensures Slices(mem, a + b) == Slices(mem, a) + Slices(mem, b)
  {
    assert forall r <- a + b :: r in a || r in b;
  }

  lemma {:induction false} CutIn(s: Span, done: nat, size: uint32)
    requires InRange(s, size) && done <= s.len
    ensures forall r <- Cut(s, done, size) :: RegionIn(r, size) && r.len as int <= MAX_REGION_BYTES
    decreases s.len - done
  {
    if done < s.len { CutIn(s, done + Min(s.len - done, MAX_REGION_BYTES), size); }
  }

  /** A span's regions, read and joined, are the span. */
  lemma {:induction false} CutReads(mem: seq<byte>, s: Span, done: nat)
    requires |mem| <= 0xFFFF_FFFF && InRange(s, |mem|) && done <= s.len
    ensures forall r <- Cut(s, done, |mem|) :: RegionIn(r, |mem|)
    ensures Concat(Slices(mem, Cut(s, done, |mem|))) == mem[s.addr as int + done..s.addr as int + s.len]
    decreases s.len - done
  {
    CutIn(s, done, |mem|);
    if done < s.len {
      var take := Min(s.len - done, MAX_REGION_BYTES);
      CutReads(mem, s, done + take);
      var rs := Cut(s, done, |mem|);
      assert Slices(mem, rs)[1..] == Slices(mem, Cut(s, done + take, |mem|));
    }
  }
}
