/**
 * Laying a patched image back over the seed it was decompressed from: what the patch did not
 * change stays where the seed stores it, the rest is stored plain.
 */
module Repack {
  import opened Bytes
  import opened FileTable

  /** A repacked ROM: the files left as the seed has them, and those stored plain past its data. */
  datatype Repacked = Repacked(rom: seq<byte>, kept: nat, moved: seq<(uint32, uint32, uint32)>)

  /** One repacking: the seed, its image, the patched image, and the entries of the first and the last. */
  datatype Job = Job(seed: seq<byte>, original: seq<byte>, patched: seq<byte>, was: seq<DmaEntry>, now: seq<DmaEntry>)

  /** How far it has come: the ROM, the rows its table is to hold, and the counts. */
  datatype Layout = Layout(rom: seq<byte>, rows: seq<DmaEntry>, kept: nat, moved: seq<(uint32, uint32, uint32)>)

  /** What becomes of a file. */
  datatype Fate = Skip | Kept | InPlace | Moved

  // ---- what is kept of the seed ----

  /** Where an entry's stored bytes end, saturating. */
  function StoredEnd(e: DmaEntry): (end: nat) {
    if e.romEnd != 0 then e.romEnd
    else Min(0xFFFF_FFFF, e.romStart + if e.vromEnd < e.vromStart then 0 else e.vromEnd - e.vromStart)
  }

  function DataEnd(es: seq<DmaEntry>): (end: nat)
    ensures forall e <- es :: Used(e) ==> StoredEnd(e) <= end
  {
    if es == [] then 0
    else
      var last := es[|es| - 1];
      assert es == es[..|es| - 1] + [last];
      Max(DataEnd(es[..|es| - 1]), if Used(last) then StoredEnd(last) else 0)
  }

  /** How much of the seed stays: up to its padding, or all of it if what follows is not padding. */
  function Keep(seed: seq<byte>, es: seq<DmaEntry>): (n: nat)
    ensures n <= |seed| && Min(DataEnd(es), |seed|) <= n
  {
    var end := Min(Max(DataEnd(es), CRC_END), |seed|);
    if forall i :: end <= i < |seed| ==> seed[i] == 0 || seed[i] == 0xFF then end else |seed|
  }

  // ---- where each file goes ----

  /** The seed's entry in the same slot, if it is of the same file. */
  function Before(job: Job, i: nat): (o: Option<DmaEntry>)
    requires i < |job.now|
  {
    if i < |job.was| && job.was[i].vromStart == job.now[i].vromStart && job.was[i].vromEnd == job.now[i].vromEnd
    then Some(job.was[i]) else None
  }

  predicate Within(e: DmaEntry, image: seq<byte>) {
    e.vromStart <= e.vromEnd && e.vromEnd as int <= |image|
  }

  /** What becomes of the `i`th file. */
  function FateOf(job: Job, i: nat): (f: Fate)
    requires i < |job.now|
  {
    var e := job.now[i];
    if !Used(e) || !Within(e, job.patched) then Skip
    else match Before(job, i)
      case None => Moved
      case Some(o) =>
        if !Used(o) then Moved
        else if Within(e, job.original) && job.original[e.vromStart..e.vromEnd] == job.patched[e.vromStart..e.vromEnd]
        then Kept
        else if o.romEnd == 0 then InPlace else Moved
  }

  function Aligned16(n: nat): (r: nat)
    ensures n <= r < n + 16 && r % 16 == 0
  {
    (n + 15) / 16 * 16
  }

  /** Lay the `i`th file. A plain file rewritten in place must be inside the ROM. */
  function LayOne(job: Job, i: nat, l: Layout): (r: Result<Layout>)
    requires i < |job.now|
  {
    var e := job.now[i];
    if !Used(e) then
      var (rs, re) := match Before(job, i) case Some(o) => (o.romStart, o.romEnd) case None => (ABSENT, ABSENT);
      Ok(l.(rows := l.rows + [e.(romStart := rs, romEnd := re)]))
    else if !Within(e, job.patched) then Err
    else
      var data := job.patched[e.vromStart..e.vromEnd];
      var fate := FateOf(job, i);
      if fate == Kept then Ok(l.(rows := l.rows + [job.was[i].(at := e.at)], kept := l.kept + 1))
      else if fate == InPlace then
        var at := job.was[i].romStart;
        if at as int + |data| > |l.rom| then Err
        else Ok(l.(rom := Overwrite(l.rom, at, data), rows := l.rows + [e.(romStart := at, romEnd := 0)]))
      else
        var start := Aligned16(|l.rom|);
        var at := start % 0x1_0000_0000;
        Ok(l.(rom := l.rom + Zeros(start - |l.rom|) + data, rows := l.rows + [e.(romStart := at, romEnd := 0)],
              moved := l.moved + [(e.vromStart, e.vromEnd, at)]))
  }

  function Lay(job: Job, i: nat, l: Layout): (r: Result<Layout>)
    decreases |job.now| - i
  {
    if i >= |job.now| then Ok(l)
    else match LayOne(job, i, l)
      case Ok(m) => Lay(job, i + 1, m)
      case bad => bad
  }

  /** The rows from the `i`th on, written where the table has them. */
  function WriteRows(rows: seq<DmaEntry>, i: nat, rom: seq<byte>): (r: Result<seq<byte>>)
    decreases |rows| - i
  {
    if i >= |rows| then Ok(rom)
    else if rows[i].at + 16 > |rom| then Panic
    else WriteRows(rows, i + 1, Overwrite(rom, rows[i].at, RowWords(rows[i])))
  }

  function RowWords(e: DmaEntry): (w: seq<byte>)
    ensures |w| == 16
  {
    Words(e.vromStart, e.vromEnd, e.romStart, e.romEnd)
  }

  predicate PlainInPlace(es: seq<DmaEntry>, table: uint32) {
    exists e <- es :: e.vromStart == table && e.romStart == table && e.romEnd == 0
  }

  function Start(job: Job): (l: Layout)
    requires HEADER <= Keep(job.seed, job.was) && HEADER <= |job.patched|
  {
    Layout(Overwrite(job.seed[..Keep(job.seed, job.was)], 0, job.patched[..HEADER]), [], 0, [])
  }

  /** `repack`, for the entries read from both tables. */
  function Relaid(job: Job): (r: Result<Repacked>)
  {
    if Keep(job.seed, job.was) < HEADER then Panic
    else if |job.patched| < HEADER then Err
    else match Lay(job, 0, Start(job))
      case Ok(l) => (match WriteRows(l.rows, 0, l.rom)
        case Ok(rom) => Ok(Repacked(rom, l.kept, l.moved))
        case Err => Err
        case Panic => Panic)
      case Err => Err
      case Panic => Panic
  }

  function RepackOf(seed: seq<byte>, original: seq<byte>, patched: seq<byte>, table: uint32): (r: Result<Repacked>)
  {
    match EntriesFrom(seed, table, 0)
    case Err => Err
    case Panic => Panic
    case Ok(was) => match EntriesFrom(patched, table, 0)
      case Err => Err
      case Panic => Panic
      case Ok(now) =>
        if !PlainInPlace(was, table) then Err else Relaid(Job(seed, original, patched, was, now))
  }

  method Repack(seed: seq<byte>, original: seq<byte>, patched: seq<byte>, table: uint32) returns (r: Result<Repacked>)
    ensures r == RepackOf(seed, original, patched, table)
  {
    hide EntriesFrom; hide Keep; hide Lay; hide WriteRows; hide Relaid; hide PlainInPlace;
    var was := DmaEntries(seed, table);
    if !was.Ok? { return Err; }
    var now := DmaEntries(patched, table);
    if !now.Ok? { return Err; }
    if !PlainInPlace(was.value, table) { return Err; }
    r := LayAndWrite(Job(seed, original, patched, was.value, now.value));
  }

  /** The end of the furthest stored file, if all after it is padding; else the seed's length. */
  method FindKeep(seed: seq<byte>, es: seq<DmaEntry>) returns (keep: nat)
    ensures keep == Keep(seed, es)
  {
    var end := 0;
    for i := 0 to |es|
      invariant end == DataEnd(es[..i])
    {
      assert es[..i + 1][..i] == es[..i];
      if Used(es[i]) && end < StoredEnd(es[i]) { end := StoredEnd(es[i]); }
    }
    assert es[..|es|] == es;
    end := Min(Max(end, CRC_END), |seed|);
    for i := end to |seed|
      invariant forall j :: end <= j < i ==> seed[j] == 0 || seed[j] == 0xFF
    {
      if seed[i] != 0 && seed[i] != 0xFF { return |seed|; }
    }
    keep := end;
  }

  method LayAndWrite(job: Job) returns (r: Result<Repacked>)
    ensures r == Relaid(job)
  {
    hide Keep; hide Before; hide FateOf; hide Overwrite; hide LayOne;
    var keep := FindKeep(job.seed, job.was);
    if keep < HEADER { return Panic; }
    if |job.patched| < HEADER { return Err; }
    var l := Start(job);
    for i := 0 to |job.now|
      invariant Lay(job, i, l) == Lay(job, 0, Start(job))
    {
      var next := LayFile(job, i, l);
      if !next.Ok? { return if next.Err? then Err else Panic; }
      l := next.value;
    }
    var rom := l.rom;
    for i := 0 to |l.rows|
      invariant WriteRows(l.rows, i, rom) == WriteRows(l.rows, 0, l.rom)
    {
      if l.rows[i].at + 16 > |rom| { return Panic; }
      rom := Overwrite(rom, l.rows[i].at, RowWords(l.rows[i]));
    }
    r := Ok(Repacked(rom, l.kept, l.moved));
  }

  /** Lay one file: leave it, rewrite it where it was, or add it past what is there. */
  method LayFile(job: Job, i: nat, l: Layout) returns (r: Result<Layout>)
    requires i < |job.now|
    ensures r == LayOne(job, i, l)
  {
    hide Overwrite; hide Aligned16;
    var e := job.now[i];
    var before := Before(job, i);
    if !Used(e) {
      var row := if before.Some? then e.(romStart := before.value.romStart, romEnd := before.value.romEnd)
                 else e.(romStart := ABSENT, romEnd := ABSENT);
      return Ok(l.(rows := l.rows + [row]));
    }
    if !Within(e, job.patched) { return Err; }
    var data := job.patched[e.vromStart..e.vromEnd];
    var rom := l.rom;
    if before.Some? && Used(before.value) {
      var o := before.value;
      if Within(e, job.original) && job.original[e.vromStart..e.vromEnd] == data {
        return Ok(l.(rows := l.rows + [o.(at := e.at)], kept := l.kept + 1));
      }
      if o.romEnd == 0 {
        if o.romStart as int + |data| > |rom| { return Err; }
        rom := Overwrite(rom, o.romStart, data);
        return Ok(l.(rom := rom, rows := l.rows + [e.(romStart := o.romStart, romEnd := 0)]));
      }
    }
    rom := rom + Zeros(Aligned16(|rom|) - |rom|);
    var at := |rom| % 0x1_0000_0000;
    rom := rom + data;
    r := Ok(l.(rom := rom, rows := l.rows + [e.(romStart := at, romEnd := 0)],
               moved := l.moved + [(e.vromStart, e.vromEnd, at)]));
  }
}
