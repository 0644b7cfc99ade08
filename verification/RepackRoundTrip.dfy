/** What a repacked ROM decompresses to. */
module RepackRoundTrip {
  import opened Bytes
  import opened FileTable
  import opened Repack
  import Yaz0

  // ---- a seed and a patch that agree on the table ----

  predicate TableEntry(e: DmaEntry, table: uint32, n: nat) {
    && e.vromStart == table && e.romStart == table && e.romEnd == 0
    && HEADER <= table && table as int + 16 * (n + 1) <= e.vromEnd
  }

  /** A file as a seed stores it: the header is only under a file in place, compressed bytes are all within. */
  predicate StoredWell(seed: seq<byte>, e: DmaEntry) {
    && StoredEnd(e) <= |seed|
    && (e.romEnd == 0 && e.romStart < HEADER && e.vromStart < e.vromEnd ==> e.romStart == e.vromStart)
    && (e.romEnd != 0 ==>
         && HEADER <= e.romStart && e.vromStart <= e.vromEnd
         && var f := Yaz0.File(seed, e.romStart, e.vromEnd - e.vromStart); f.Ok? && f.value.end <= e.romEnd)
  }

  ghost predicate StoredApart(es: seq<DmaEntry>) {
    forall i, j :: 0 <= i < |es| && 0 <= j < |es| && i != j && Used(es[i]) && Used(es[j]) ==>
      Apart(es[i].romStart, StoredEnd(es[i]), es[j].romStart, StoredEnd(es[j]))
  }

  /** An entry of the patched image: plain and in place, or absent as the seed has it. */
  predicate Listed(job: Job, i: nat)
    requires i < |job.now|
  {
    var e := job.now[i];
    if Used(e) then e.romStart == e.vromStart && e.romEnd == 0 && Within(e, job.patched)
    else match Before(job, i)
      case Some(o) => !Used(o) && o.romEnd == e.romEnd
      case None => e.romEnd == ABSENT
  }

  /** The table is file `k` of both, and holds all of either's entries. */
  ghost predicate Placed(job: Job, table: uint32, k: nat) {
    && |job.seed| <= 0xFFFF_FFFF && Sound(job.seed, table, job.was) && Image(job.seed, table) == Ok(job.original)
    && AreEntries(job.patched, table, 0, job.now)
    && k < |job.was| && k < |job.now| && job.was[k] == job.now[k]
    && TableEntry(job.was[k], table, |job.was|) && TableEntry(job.was[k], table, |job.now|)
    && (forall i :: 0 <= i < |job.was| && Used(job.was[i]) ==> StoredWell(job.seed, job.was[i]))
    && StoredApart(job.was) && SpansApart(job.now)
    && (forall i :: 0 <= i < |job.now| ==> Listed(job, i))
  }

  /** The patched image's own bytes: its header, and its files. */
  ghost predicate Covered(es: seq<DmaEntry>, p: nat) {
    p < HEADER || exists i :: 0 <= i < |es| && Used(es[i]) && es[i].vromStart <= p < es[i].vromEnd
  }

  /** As long as its files reach, at most 64 MiB of them, and nothing outside them. */
  ghost predicate Enclosed(job: Job) {
    && ImageEnd(job.now) <= MAX_IMAGE && |job.patched| == ImageLength(job.now)
    && forall p :: 0 <= p < |job.patched| && !Covered(job.now, p) ==> job.patched[p] == 0
  }

  // ---- what has been laid ----

  ghost predicate PlainAt(job: Job, j: nat, rom: seq<byte>, at: nat)
    requires j < |job.now|
  {
    var e := job.now[j];
    Within(e, job.patched) && at + (e.vromEnd - e.vromStart) <= |rom|
    && rom[at..at + (e.vromEnd - e.vromStart)] == job.patched[e.vromStart..e.vromEnd]
  }

  ghost predicate RowRight(job: Job, j: nat, rom: seq<byte>, row: DmaEntry)
    requires j < |job.now|
  {
    match FateOf(job, j)
    case Skip => row == job.now[j]
    case Kept => row == job.was[j]
    case InPlace => row == job.now[j].(romStart := job.was[j].romStart, romEnd := 0) && PlainAt(job, j, rom, row.romStart)
    case Moved =>
      && row == job.now[j].(romStart := row.romStart, romEnd := 0) && Used(row)
      && Keep(job.seed, job.was) <= row.romStart && PlainAt(job, j, rom, row.romStart)
  }

  /** `p` is in a file, of the first `i`, that is rewritten where the seed has it. */
  ghost predicate Rewritten(job: Job, i: nat, p: nat)
    requires i <= |job.now|
  {
    exists j :: 0 <= j < i && FateOf(job, j) == InPlace && job.was[j].romStart <= p < StoredEnd(job.was[j])
  }

  ghost predicate Laid(job: Job, i: nat, l: Layout)
    requires i <= |job.now|
  {
    && var keep := Keep(job.seed, job.was);
    && |l.rows| == i && HEADER <= keep <= |l.rom| && HEADER <= |job.patched|
    && (forall p :: 0 <= p < HEADER ==> l.rom[p] == job.patched[p])
    && (forall j :: 0 <= j < i ==> RowRight(job, j, l.rom, l.rows[j]))
    && (forall p :: HEADER <= p < keep && !Rewritten(job, i, p) ==> l.rom[p] == job.seed[p])
  }

  lemma KeepCovers(job: Job, table: uint32, k: nat, j: nat)
    requires Placed(job, table, k) && j < |job.was| && Used(job.was[j])
    ensures var e := job.was[j];
      && StoredEnd(e) <= Keep(job.seed, job.was)
      && (e.romEnd == 0 ==> StoredEnd(e) == e.romStart + (e.vromEnd - e.vromStart))
  {
    hide AreEntries; hide StoredApart; hide SpansApart; hide Image; hide Keep; hide Listed; hide DataEnd;
    var e := job.was[j];
    assert StoredWell(job.seed, e) && Readable(job.seed, e, ImageLength(job.was));
    assert e in job.was;
  }

  lemma TableKept(job: Job, table: uint32, k: nat)
    requires Placed(job, table, k)
    ensures HEADER <= Keep(job.seed, job.was) && HEADER <= |job.patched|
    ensures Used(job.was[k]) && StoredEnd(job.was[k]) == job.was[k].vromEnd
  {
    hide AreEntries; hide StoredApart; hide SpansApart; hide Image; hide Keep; hide Sound; 
    assert StoredEnd(job.was[k]) > table;
    assert Used(job.was[k]) by { assert Listed(job, k); hide Listed; assert Used(job.now[k]) || table == ABSENT; }
    KeepCovers(job, table, k, k);
    assert Listed(job, k);
  }

  lemma PlainStays(job: Job, j: nat, rom: seq<byte>, more: seq<byte>, at: nat)
    requires j < |job.now| && PlainAt(job, j, rom, at)
    requires |rom| <= |more|
    requires forall p :: at <= p < at + (job.now[j].vromEnd - job.now[j].vromStart) ==> more[p] == rom[p]
    ensures PlainAt(job, j, more, at)
  {
    var n := job.now[j].vromEnd - job.now[j].vromStart;
    assert more[at..at + n] == rom[at..at + n];
  }

  /** Adding past the end leaves what is laid as it was. */
  lemma LaidGrows(job: Job, i: nat, l: Layout, add: seq<byte>)
    requires i <= |job.now| && Laid(job, i, l)
    ensures Laid(job, i, l.(rom := l.rom + add))
  {
    hide PlainAt; hide Keep; hide FateOf; hide Rewritten;
    forall j | 0 <= j < i ensures RowRight(job, j, l.rom + add, l.rows[j]) {
      assert RowRight(job, j, l.rom, l.rows[j]);
      if FateOf(job, j) == InPlace || FateOf(job, j) == Moved {
        assert Within(job.now[j], job.patched) && l.rows[j].romStart + (job.now[j].vromEnd - job.now[j].vromStart) <= |l.rom| by {
          assert PlainAt(job, j, l.rom, l.rows[j].romStart);
          InBounds(job, j, l.rom, l.rows[j].romStart);
        }
        PlainStays(job, j, l.rom, l.rom + add, l.rows[j].romStart);
      }
    }
  }

  lemma InBounds(job: Job, j: nat, rom: seq<byte>, at: nat)
    requires j < |job.now| && PlainAt(job, j, rom, at)
    ensures Within(job.now[j], job.patched) && at + (job.now[j].vromEnd - job.now[j].vromStart) <= |rom|
  {}

  /** One more row, the ROM as it is. */
  lemma LaidRow(job: Job, i: nat, l: Layout, row: DmaEntry)
    requires i < |job.now| && Laid(job, i, l) && RowRight(job, i, l.rom, row) && FateOf(job, i) != InPlace
    ensures Laid(job, i + 1, l.(rows := l.rows + [row]))
  {
    hide RowRight; hide Keep; hide FateOf;
    var m := l.(rows := l.rows + [row]);
    forall j | 0 <= j < i + 1 ensures RowRight(job, j, m.rom, m.rows[j]) {
      if j < i { assert m.rows[j] == l.rows[j]; }
    }
    assert forall p :: Rewritten(job, i, p) ==> Rewritten(job, i + 1, p);
  }

  /** A file kept or rewritten in place is one the seed has, and a kept one is as it was. */
  lemma FateIs(job: Job, i: nat)
    requires i < |job.now| && (FateOf(job, i) == Kept || FateOf(job, i) == InPlace)
    ensures i < |job.was| && Used(job.was[i]) && Used(job.now[i])
    ensures job.was[i].vromStart == job.now[i].vromStart && job.was[i].vromEnd == job.now[i].vromEnd
    ensures Within(job.now[i], job.patched)
    ensures FateOf(job, i) == InPlace ==> job.was[i].romEnd == 0
    ensures FateOf(job, i) == Kept ==>
      && var e := job.now[i];
      Within(e, job.original) && job.original[e.vromStart..e.vromEnd] == job.patched[e.vromStart..e.vromEnd]
  {}

  /** Where a file rewritten in place lies, and that no other stored file is there. */
  lemma InPlaceSpan(job: Job, table: uint32, k: nat, i: nat)
    requires Placed(job, table, k) && i < |job.now| && FateOf(job, i) == InPlace
    ensures var o := job.was[i];
      && i < |job.was| && Used(o) && o.vromStart <= o.vromEnd && o.vromEnd as int <= |job.patched|
      && StoredEnd(o) == o.romStart + (o.vromEnd - o.vromStart) <= Keep(job.seed, job.was)
      && (o.romStart < HEADER && o.vromStart < o.vromEnd ==> o.romStart == o.vromStart)
    ensures forall j :: 0 <= j < |job.was| && j != i && Used(job.was[j]) ==>
      Apart(job.was[i].romStart, StoredEnd(job.was[i]), job.was[j].romStart, StoredEnd(job.was[j]))
  {
    hide AreEntries; hide SpansApart; hide Image; hide Keep; hide Sound; hide Listed; hide TableEntry; hide FateOf;
    FateIs(job, i);
    KeepCovers(job, table, k, i);
    assert StoredWell(job.seed, job.was[i]);
  }

  /** A file rewritten in place touches nothing laid before it. */
  lemma RowStays(job: Job, table: uint32, k: nat, i: nat, j: nat, rom: seq<byte>, more: seq<byte>, row: DmaEntry)
    requires Placed(job, table, k) && j < i < |job.now| && FateOf(job, i) == InPlace && RowRight(job, j, rom, row)
    requires i < |job.was| && |more| == |rom|
    requires forall p :: 0 <= p < |rom| && !(job.was[i].romStart <= p < StoredEnd(job.was[i])) ==> more[p] == rom[p]
    ensures RowRight(job, j, more, row)
  {
    hide Placed; hide Keep; hide FateOf; hide StoredEnd; hide PlainAt;
    InPlaceSpan(job, table, k, i);
    if FateOf(job, j) == InPlace {
      InPlaceSpan(job, table, k, j);
      FateIs(job, j);
    }
    if FateOf(job, j) == InPlace || FateOf(job, j) == Moved {
      InBounds(job, j, rom, row.romStart);
      PlainStays(job, j, rom, more, row.romStart);
    }
  }

  lemma LaidRewrite(job: Job, table: uint32, k: nat, i: nat, l: Layout)
    requires Placed(job, table, k) && i < |job.now| && Laid(job, i, l) && FateOf(job, i) == InPlace
    ensures i < |job.was| && Within(job.now[i], job.patched)
    ensures var e := job.now[i]; var data := job.patched[e.vromStart..e.vromEnd]; var at := job.was[i].romStart;
      && at as int + |data| <= |l.rom|
      && Laid(job, i + 1, l.(rom := Overwrite(l.rom, at, data), rows := l.rows + [e.(romStart := at, romEnd := 0)]))
  {
    hide Placed; hide Keep; hide FateOf; hide StoredEnd; hide Overwrite; hide RowRight; hide Rewritten;
    InPlaceSpan(job, table, k, i);
    FateIs(job, i);
    var e := job.now[i];
    var data := job.patched[e.vromStart..e.vromEnd];
    var at := job.was[i].romStart;
    var rom := Overwrite(l.rom, at, data);
    var row := e.(romStart := at, romEnd := 0);
    forall j | 0 <= j < i ensures RowRight(job, j, rom, (l.rows + [row])[j]) {
      assert RowRight(job, j, l.rom, l.rows[j]);
      RowStays(job, table, k, i, j, l.rom, rom, l.rows[j]);
    }
    RowRewritten(job, i, rom, row);
    RewrittenMore(job, i, i + 1);
  }

  lemma RowRewritten(job: Job, i: nat, rom: seq<byte>, row: DmaEntry)
    requires i < |job.now| && FateOf(job, i) == InPlace && i < |job.was| && Within(job.now[i], job.patched)
    requires row == job.now[i].(romStart := job.was[i].romStart, romEnd := 0)
    requires var n := job.now[i].vromEnd - job.now[i].vromStart;
      && row.romStart as int + n <= |rom|
      && forall p :: row.romStart <= p < row.romStart + n ==>
          rom[p] == job.patched[job.now[i].vromStart..job.now[i].vromEnd][p - row.romStart]
    ensures RowRight(job, i, rom, row)
  {
    hide FateOf;
    var n := job.now[i].vromEnd - job.now[i].vromStart;
    assert rom[row.romStart..row.romStart + n] == job.patched[job.now[i].vromStart..job.now[i].vromEnd];
  }

  lemma RewrittenMore(job: Job, i: nat, n: nat)
    requires i < |job.now| && n == i + 1
    ensures forall p :: Rewritten(job, i, p) ==> Rewritten(job, n, p)
    ensures FateOf(job, i) == InPlace && i < |job.was| ==>
      forall p: nat :: !Rewritten(job, n, p) ==> !(job.was[i].romStart <= p < StoredEnd(job.was[i]))
  {}

  /** A file added past the end. */
  lemma LaidMoved(job: Job, i: nat, l: Layout)
    requires i < |job.now| && Laid(job, i, l) && FateOf(job, i) == Moved && Within(job.now[i], job.patched)
    requires Aligned16(|l.rom|) + (job.now[i].vromEnd - job.now[i].vromStart) <= 0xFFFF_FFFF
    ensures var e := job.now[i]; var start := Aligned16(|l.rom|);
      Laid(job, i + 1, l.(rom := l.rom + Zeros(start - |l.rom|) + job.patched[e.vromStart..e.vromEnd],
                          rows := l.rows + [e.(romStart := start, romEnd := 0)]))
  {
    hide Keep; hide FateOf; hide Aligned16; hide Rewritten;
    var e := job.now[i];
    var start := Aligned16(|l.rom|);
    var data := job.patched[e.vromStart..e.vromEnd];
    LaidGrows(job, i, l, Zeros(start - |l.rom|) + data);
    var rom := l.rom + Zeros(start - |l.rom|) + data;
    assert rom == l.rom + (Zeros(start - |l.rom|) + data);
    assert rom[start..start + |data|] == data;
    LaidRow(job, i, l.(rom := rom), e.(romStart := start, romEnd := 0));
  }

  /** The counts are no part of what has been laid. */
  lemma LaidCounts(job: Job, i: nat, l: Layout, m: Layout)
    requires i <= |job.now| && Laid(job, i, l) && m.rom == l.rom && m.rows == l.rows
    ensures Laid(job, i, m)
  {
    hide RowRight; hide Rewritten; hide Keep;
  }

  lemma LaidStep(job: Job, table: uint32, k: nat, i: nat, l: Layout)
    requires Placed(job, table, k) && i < |job.now| && Laid(job, i, l)
    ensures var m := LayOne(job, i, l);
      m.Ok? && |l.rom| <= |m.value.rom| && (|m.value.rom| <= 0xFFFF_FFFF ==> Laid(job, i + 1, m.value))
  {
    assert Listed(job, i);
    RowLeft(job, table, k, i);
    hide Laid; hide Placed; hide LayOne; hide FateOf; hide Listed;
    if FateOf(job, i) == Skip {
      SkipStep(job, i, l);
    } else if FateOf(job, i) == Kept {
      FateIs(job, i);
      KeptStep(job, i, l);
    } else if FateOf(job, i) == InPlace {
      RewriteStep(job, table, k, i, l);
    } else {
      MovedStep(job, i, l);
    }
  }

  lemma RewriteStep(job: Job, table: uint32, k: nat, i: nat, l: Layout)
    requires Placed(job, table, k) && i < |job.now| && Laid(job, i, l) && FateOf(job, i) == InPlace
    ensures var m := LayOne(job, i, l); m.Ok? && |l.rom| == |m.value.rom| && Laid(job, i + 1, m.value)
  {
    hide Laid; hide Placed; hide Overwrite; hide StoredEnd;
    LaidRewrite(job, table, k, i, l);
  }

  lemma SkipStep(job: Job, i: nat, l: Layout)
    requires i < |job.now| && Laid(job, i, l) && Listed(job, i) && FateOf(job, i) == Skip
    ensures var m := LayOne(job, i, l); m.Ok? && l.rom == m.value.rom && Laid(job, i + 1, m.value)
  {
    LaidRow(job, i, l, job.now[i]);
  }

  lemma KeptStep(job: Job, i: nat, l: Layout)
    requires i < |job.now| && Laid(job, i, l) && FateOf(job, i) == Kept && i < |job.was| && job.was[i].at == job.now[i].at
    ensures var m := LayOne(job, i, l); m.Ok? && l.rom == m.value.rom && Laid(job, i + 1, m.value)
  {
    hide Laid;
    LaidRow(job, i, l, job.was[i]);
    LaidCounts(job, i + 1, l.(rows := l.rows + [job.was[i]]), LayOne(job, i, l).value);
  }

  lemma MovedStep(job: Job, i: nat, l: Layout)
    requires i < |job.now| && Laid(job, i, l) && Listed(job, i) && FateOf(job, i) == Moved
    ensures var m := LayOne(job, i, l);
      m.Ok? && |l.rom| <= |m.value.rom| && (|m.value.rom| <= 0xFFFF_FFFF ==> Laid(job, i + 1, m.value))
  {
    hide Laid; hide Aligned16;
    var m := LayOne(job, i, l).value;
    if |m.rom| <= 0xFFFF_FFFF {
      LaidMoved(job, i, l);
      var start := Aligned16(|l.rom|);
      LaidCounts(job, i + 1, l.(rom := m.rom, rows := l.rows + [job.now[i].(romStart := start, romEnd := 0)]), m);
    }
  }

  /** Both tables' entries stand at the same places. */
  lemma RowLeft(job: Job, table: uint32, k: nat, i: nat)
    requires Placed(job, table, k) && i < |job.now|
    ensures job.now[i].at == table + 16 * i && (i < |job.was| ==> job.was[i].at == table + 16 * i)
  {}

  /** Laying a file never fails, and never shortens the ROM. */
  lemma LayOneOk(job: Job, table: uint32, k: nat, i: nat, l: Layout)
    requires Placed(job, table, k) && i < |job.now| && Keep(job.seed, job.was) <= |l.rom|
    ensures LayOne(job, i, l).Ok? && |l.rom| <= |LayOne(job, i, l).value.rom|
  {
    assert Listed(job, i);
    hide Placed; hide Keep; hide StoredEnd; hide LayOne; hide FateOf; hide Listed;
    if FateOf(job, i) == InPlace {
      InPlaceSpan(job, table, k, i);
      FateIs(job, i);
    }
    LayOneGrows(job, i, l);
  }

  lemma LayOneGrows(job: Job, i: nat, l: Layout)
    requires i < |job.now| && Listed(job, i)
    requires FateOf(job, i) == InPlace ==>
      && i < |job.was|
      && job.was[i].romStart as int + (job.now[i].vromEnd - job.now[i].vromStart) <= |l.rom|
    ensures LayOne(job, i, l).Ok? && |l.rom| <= |LayOne(job, i, l).value.rom|
  {
    hide Aligned16; hide Overwrite;
  }

  lemma {:induction false} LayOk(job: Job, table: uint32, k: nat, i: nat, l: Layout)
    requires Placed(job, table, k) && i <= |job.now| && Keep(job.seed, job.was) <= |l.rom|
    ensures Lay(job, i, l).Ok? && |l.rom| <= |Lay(job, i, l).value.rom|
    decreases |job.now| - i
  {
    hide LayOne; hide Placed; hide Keep;
    if i < |job.now| {
      LayOneOk(job, table, k, i, l);
      LayOk(job, table, k, i + 1, LayOne(job, i, l).value);
    }
  }

  lemma LaidKeep(job: Job, i: nat, l: Layout)
    requires i <= |job.now| && Laid(job, i, l)
    ensures Keep(job.seed, job.was) <= |l.rom|
  {}

  lemma {:induction false} LaidAll(job: Job, table: uint32, k: nat, i: nat, l: Layout)
    requires Placed(job, table, k) && i <= |job.now| && Laid(job, i, l)
    requires Lay(job, i, l).Ok? && |Lay(job, i, l).value.rom| <= 0xFFFF_FFFF
    ensures Laid(job, |job.now|, Lay(job, i, l).value)
    decreases |job.now| - i
  {
    hide Placed; hide Laid; hide LayOne;
    if i < |job.now| {
      LaidStep(job, table, k, i, l);
      var m := LayOne(job, i, l).value;
      LaidKeep(job, i, l);
      LayOk(job, table, k, i + 1, m);
      LaidAll(job, table, k, i + 1, m);
    }
  }

  // ---- the table written back ----

  lemma {:induction false} WriteRowsAt(table: nat, rows: seq<DmaEntry>, i: nat, rom: seq<byte>, j: nat, p: nat)
    requires AtTheirPlace(table, rows) && table + 16 * |rows| <= |rom| && p < |rom|
    requires j < |rows| ==> rows[j].at <= p < rows[j].at + 16
    requires j >= |rows| ==> p < table || table + 16 * |rows| <= p
    ensures WriteRows(rows, i, rom).Ok? && |WriteRows(rows, i, rom).value| == |rom|
    ensures WriteRows(rows, i, rom).value[p] == if i <= j < |rows| then RowWords(rows[j])[p - rows[j].at] else rom[p]
    decreases |rows| - i
  {
    hide RowWords;
    if i < |rows| { WriteRowsAt(table, rows, i + 1, Overwrite(rom, rows[i].at, RowWords(rows[i])), j, p); }
  }

  /** Four words, written and read. */
  lemma WordsRead(rom: seq<byte>, at: nat, e: DmaEntry)
    requires at + 16 <= |rom| && rom[at..at + 16] == RowWords(e)
    ensures EntryAt(rom, at) == e.(at := at)
  {
    var a, b, c, d := Put32(e.vromStart), Put32(e.vromEnd), Put32(e.romStart), Put32(e.romEnd);
    assert forall i :: 0 <= i < 16 ==> rom[at + i] == rom[at..at + 16][i] == (a + b + c + d)[i];
    hide Put32;
    WordRead(rom, at, a);
    WordRead(rom, at + 4, b);
    WordRead(rom, at + 8, c);
    WordRead(rom, at + 12, d);
  }

  lemma WordsAre(rom: seq<byte>, at: nat)
    requires at + 16 <= |rom|
    ensures RowWords(EntryAt(rom, at)) == rom[at..at + 16]
  {
    hide Put32; hide Be32;
    WordIs(rom, at);
    WordIs(rom, at + 4);
    WordIs(rom, at + 8);
    WordIs(rom, at + 12);
  }

  lemma WordIs(rom: seq<byte>, at: nat)
    requires at + 4 <= |rom|
    ensures Put32(Be32(rom, at)) == rom[at..at + 4]
  {
    hide Put16; hide Be16;
    var hi, lo := Be16(rom, at), Be16(rom, at + 2);
    assert Be32(rom, at) / 0x1_0000 == hi && Be32(rom, at) % 0x1_0000 == lo;
    HalfIs(rom, at);
    HalfIs(rom, at + 2);
  }

  lemma HalfIs(rom: seq<byte>, at: nat)
    requires at + 2 <= |rom|
    ensures Put16(Be16(rom, at)) == [rom[at], rom[at + 1]]
  {}

  // ---- the repacked ROM ----

  ghost predicate Done(job: Job, table: uint32, k: nat, l: Layout, rom: seq<byte>) {
    Placed(job, table, k) && Laid(job, |job.now|, l) && WriteRows(l.rows, 0, l.rom) == Ok(rom) && |rom| <= 0xFFFF_FFFF
  }

  /** A row of the file the patched image's entry is of. */
  predicate RowOf(row: DmaEntry, e: DmaEntry, at: nat) {
    && row.at == at && row.vromStart == e.vromStart && row.vromEnd == e.vromEnd
    && (Used(row) <==> Used(e)) && (!Used(row) ==> row == e)
  }

  ghost predicate RowsOf(job: Job, table: uint32, rows: seq<DmaEntry>) {
    |rows| == |job.now| && forall j :: 0 <= j < |rows| ==> RowOf(rows[j], job.now[j], table + 16 * j)
  }

  lemma RowShape(job: Job, table: uint32, k: nat, l: Layout, j: nat)
    requires Placed(job, table, k) && Laid(job, |job.now|, l) && j < |job.now|
    ensures |l.rows| == |job.now| && RowOf(l.rows[j], job.now[j], table + 16 * j)
  {
    hide Placed; hide Laid; hide PlainAt; hide Keep; hide FateOf; hide Listed;
    LaidIs(job, l, j);
    EntryIs(job, table, k, j);
    RowLeft(job, table, k, j);
    SkipIs(job, j);
    if FateOf(job, j) == Kept || FateOf(job, j) == InPlace { FateIs(job, j); }
  }

  lemma LaidIs(job: Job, l: Layout, j: nat)
    requires Laid(job, |job.now|, l) && j < |job.now|
    ensures |l.rows| == |job.now| && RowRight(job, j, l.rom, l.rows[j])
  {
    hide RowRight;
  }

  lemma EntryIs(job: Job, table: uint32, k: nat, j: nat)
    requires Placed(job, table, k) && j < |job.now|
    ensures Listed(job, j)
  {
    hide Listed;
  }

  lemma SkipIs(job: Job, j: nat)
    requires j < |job.now| && Listed(job, j)
    ensures FateOf(job, j) == Skip <==> !Used(job.now[j])
  {}

  lemma LaidCount(job: Job, l: Layout)
    requires Laid(job, |job.now|, l)
    ensures |l.rows| == |job.now|
  {}

  lemma Rows(job: Job, table: uint32, k: nat, l: Layout)
    requires Placed(job, table, k) && Laid(job, |job.now|, l)
    ensures RowsOf(job, table, l.rows)
  {
    hide Laid; hide Placed; hide RowOf;
    LaidCount(job, l);
    forall j | 0 <= j < |job.now| ensures RowOf(l.rows[j], job.now[j], table + 16 * j) {
      RowShape(job, table, k, l, j);
    }
  }

  /** The table is inside what is kept of the seed, its end among it. */
  lemma TableFits(job: Job, table: uint32, k: nat)
    requires Placed(job, table, k)
    ensures HEADER <= table as int && table as int + 16 * (|job.now| + 1) <= Keep(job.seed, job.was)
    ensures table as int + 16 * (|job.was| + 1) <= Keep(job.seed, job.was)
  {
    TableKept(job, table, k);
    KeepCovers(job, table, k, k);
    hide Keep; hide AreEntries; hide Sound; hide StoredApart; hide SpansApart; hide Listed; hide StoredEnd; hide Image;
  }

  lemma {:induction false} WriteRowsLength(rows: seq<DmaEntry>, i: nat, rom: seq<byte>)
    requires WriteRows(rows, i, rom).Ok?
    ensures |WriteRows(rows, i, rom).value| == |rom|
    decreases |rows| - i
  {
    hide RowWords;
    if i < |rows| { WriteRowsLength(rows, i + 1, Overwrite(rom, rows[i].at, RowWords(rows[i]))); }
  }

  /** Outside the entries, the table writes nothing; in one, its row. */
  lemma DoneAt(job: Job, table: uint32, k: nat, l: Layout, rom: seq<byte>, j: nat, p: nat)
    requires Done(job, table, k, l, rom) && p < |rom|
    requires j < |job.now| ==> table + 16 * j <= p < table + 16 * j + 16
    requires j >= |job.now| ==> p < table || table + 16 * |job.now| <= p
    ensures |rom| == |l.rom| && RowsOf(job, table, l.rows) && HEADER <= table
    ensures table as int + 16 * (|job.now| + 1) <= Keep(job.seed, job.was) <= |rom|
    ensures rom[p] == if j < |job.now| then RowWords(l.rows[j])[p - (table + 16 * j)] else l.rom[p]
  {
    hide Placed; hide Laid; hide Keep; hide RowWords; hide WriteRows;
    Rows(job, table, k, l);
    TableFits(job, table, k);
    LaidKeep(job, |job.now|, l);
    WriteRowsLength(l.rows, 0, l.rom);
    WriteRowsAt(table, l.rows, 0, l.rom, j, p);
  }

  // ---- what the seed's image holds ----

  lemma OnlyHolder(rom: seq<byte>, es: seq<DmaEntry>, len: nat, j: nat, p: nat)
    requires AllReadable(rom, es, len) && SpansApart(es) && j < |es|
    requires Used(es[j]) && es[j].vromStart <= p < es[j].vromEnd
    ensures forall i :: 0 <= i < |es| && i != j ==> !HasByte(rom, es[i], p)
  {
    hide Data; hide FileData;
    forall i | 0 <= i < |es| && i != j && Used(es[i]) ensures !HasByte(rom, es[i], p) {
      assert Readable(rom, es[i], len);
      assert i < j || j < i;
    }
  }

  lemma SeedByte(job: Job, table: uint32, k: nat, j: nat, p: nat)
    requires Placed(job, table, k) && j < |job.was| && OffRecords(job.was, p)
    requires Used(job.was[j]) && job.was[j].vromStart <= p < job.was[j].vromEnd
    ensures var e := job.was[j]; var d := Data(job.seed, e);
      p < |job.original| && HEADER <= |job.seed| && HEADER <= |job.original|
      && job.original[p] == if p - e.vromStart < |d| then d[p - e.vromStart] else Blank(job.seed, |job.original|)[p]
  {
    hide Data; hide FileData; hide Blank; hide AreEntries; hide StoredApart; hide Listed; hide StoredWell; hide Image; hide PaintedRow;
    hide SpansApart; hide TableEntry;
    var e := job.was[j];
    assert e in job.was;
    OnlyHolder(job.seed, job.was, ImageLength(job.was), j, p);
    ImageIs(job.seed, table, job.was, if p - e.vromStart < |Data(job.seed, e)| then j else |job.was|, |job.was|, p);
  }

  /** No entry of the seed's table is over another file. */
  lemma OffTable(job: Job, table: uint32, k: nat, j: nat, p: nat)
    requires Placed(job, table, k) && j < |job.was| && j != k
    requires Used(job.was[j]) && job.was[j].vromStart <= p < job.was[j].vromEnd
    ensures OffRecords(job.was, p)
  {
    TableKept(job, table, k);
    forall i | 0 <= i < |job.was| && Used(job.was[i]) ensures !(job.was[i].at <= p < job.was[i].at + 16) {
      RowLeftWas(job, table, k, i);
      hide Placed; hide StoredEnd;
      TableSpan(job, table, k, j);
    }
  }

  lemma RowLeftWas(job: Job, table: uint32, k: nat, i: nat)
    requires Placed(job, table, k) && i < |job.was|
    ensures job.was[i] == EntryAt(job.seed, table + 16 * i) && job.was[i].at == table + 16 * i
    ensures i > 0 ==> !Ends(job.was[i])
  {
    hide EntryAt; hide TableEntry; hide StoredWell; hide Listed; hide StoredApart; hide Image; hide AllReadable; hide SpansApart;
    hide HasTable; hide ImageEnd; hide Ends;
    EntryPlace(job.seed, table + 16 * i);
  }

  lemma EntryPlace(rom: seq<byte>, at: nat)
    ensures at + 16 <= |rom| ==> EntryAt(rom, at).at == at
  {}

  lemma TableSpan(job: Job, table: uint32, k: nat, j: nat)
    requires Placed(job, table, k) && j < |job.was| && j != k && Used(job.was[j])
    ensures Apart(job.was[j].vromStart, job.was[j].vromEnd, table, job.was[k].vromEnd)
    ensures Apart(job.was[j].romStart, StoredEnd(job.was[j]), table, job.was[k].vromEnd)
    ensures table as int + 16 * (|job.was| + 1) <= job.was[k].vromEnd && table as int + 16 * (|job.now| + 1) <= job.was[k].vromEnd
  {
    TableKept(job, table, k);
    hide StoredEnd; hide Keep; hide AreEntries; hide Listed; hide StoredWell; hide Image; hide AllReadable;
    assert k < j || j < k;
  }

  /** A plain file's bytes are those stored. */
  lemma PlainData(rom: seq<byte>, e: DmaEntry, p: nat)
    requires e.romEnd == 0 && e.vromStart <= e.vromEnd && e.romStart + (e.vromEnd - e.vromStart) <= |rom|
    ensures FileData(rom, e).Ok? && |Data(rom, e)| == e.vromEnd - e.vromStart
    ensures e.vromStart <= p < e.vromEnd ==> Data(rom, e)[p - e.vromStart] == rom[e.romStart + (p - e.vromStart)]
  {}

  /** The table's own file, in the seed. */
  lemma TableData(job: Job, table: uint32, k: nat, p: nat)
    requires Placed(job, table, k)
    ensures k < |job.was| && Used(job.was[k]) && job.was[k].vromEnd as int <= |job.seed|
    ensures |Data(job.seed, job.was[k])| == job.was[k].vromEnd - table
    ensures table <= p < job.was[k].vromEnd ==> Data(job.seed, job.was[k])[p - table] == job.seed[p]
  {
    hide *;
    TableFate(job, table, k);
    TableEnds(job, table, k);
    KeepCovers(job, table, k, k);
    PlainData(job.seed, job.was[k], p);
  }

  /** What the seed's image holds of its own table. */
  lemma OriginalUsed(job: Job, table: uint32, k: nat, j: nat, p: nat)
    requires Placed(job, table, k) && j < |job.was| && Used(job.was[j]) && table + 16 * j <= p < table + 16 * j + 16
    ensures p < |job.original| && job.original[p] == PaintedRow(job.was[j])[p - (table + 16 * j)]
  {
    hide *;
    TableSpanHolds(job, table, k, p);
    RowLeftWas(job, table, k, j);
    SeedSound(job, table, k);
    ImageIs(job.seed, table, job.was, k, j, p);
  }

  lemma SeedSound(job: Job, table: uint32, k: nat)
    requires Placed(job, table, k)
    ensures Sound(job.seed, table, job.was) && Image(job.seed, table) == Ok(job.original)
  {
    hide Sound; hide Image;
  }

  lemma OriginalAbsent(job: Job, table: uint32, k: nat, j: nat, p: nat)
    requires Placed(job, table, k) && j < |job.was| && !Used(job.was[j]) && table + 16 * j <= p < table + 16 * j + 16
    ensures p < |job.original| && p < |job.seed| && job.original[p] == job.seed[p]
  {
    hide Placed; hide OffRecords; hide Used; hide Blank; hide HasByte; hide Data;
    TableData(job, table, k, p);
    TableSpanHolds(job, table, k, p);
    OffAbsent(job, table, k, j, p);
    SeedByte(job, table, k, k, p);
  }

  lemma TableSpanHolds(job: Job, table: uint32, k: nat, p: nat)
    requires Placed(job, table, k) && table <= p < table + 16 * |job.was|
    ensures k < |job.was| && job.was[k].vromStart == table && p < job.was[k].vromEnd as int && p < ImageLength(job.was)
    ensures HasByte(job.seed, job.was[k], p)
  {
    TableData(job, table, k, p);
    hide Data; hide StoredWell; hide Listed; hide StoredApart; hide AreEntries; hide Image;
    assert job.was[k] in job.was;
  }

  lemma OffAbsent(job: Job, table: uint32, k: nat, j: nat, p: nat)
    requires Placed(job, table, k) && j < |job.was| && !Used(job.was[j]) && table + 16 * j <= p < table + 16 * j + 16
    ensures OffRecords(job.was, p)
  {
    hide Placed;
    forall i | 0 <= i < |job.was| && Used(job.was[i]) ensures !(job.was[i].at <= p < job.was[i].at + 16) {
      RowLeftWas(job, table, k, i);
    }
  }

  lemma OffPast(job: Job, table: uint32, k: nat, p: nat)
    requires Placed(job, table, k) && table + 16 * |job.was| <= p
    ensures OffRecords(job.was, p)
  {
    hide Placed;
    forall i | 0 <= i < |job.was| && Used(job.was[i]) ensures !(job.was[i].at <= p < job.was[i].at + 16) {
      RowLeftWas(job, table, k, i);
    }
  }

  /** Rewriting leaves each entry's file the same. */
  lemma OriginalEntry(job: Job, table: uint32, k: nat, j: nat)
    requires Placed(job, table, k) && j < |job.was|
    ensures table + 16 * j + 16 <= |job.original|
    ensures var e := EntryAt(job.original, table + 16 * j);
      e.vromStart == job.was[j].vromStart && e.vromEnd == job.was[j].vromEnd
  {
    hide Placed; hide PaintedRow; hide EntryAt;
    var at := table + 16 * j;
    RowLeftWas(job, table, k, j);
    if Used(job.was[j]) {
      OriginalUsed(job, table, k, j, at + 15);
      forall p: nat | at <= p < at + 16 ensures p < |job.original| && job.original[p] == PaintedRow(job.was[j])[p - at] {
        OriginalUsed(job, table, k, j, p);
      }
      PaintedReads(job.original, at, job.was[j]);
    } else {
      OriginalAbsent(job, table, k, j, at + 15);
      forall p: nat | at <= p < at + 16 ensures p < |job.original| && p < |job.seed| && job.original[p] == job.seed[p] {
        OriginalAbsent(job, table, k, j, p);
      }
      SameEntry(job.original, job.seed, at);
    }
  }

  lemma PaintedReads(rom: seq<byte>, at: nat, e: DmaEntry)
    requires at + 16 <= |rom| && forall p: nat :: at <= p < at + 16 ==> rom[p] == PaintedRow(e)[p - at]
    ensures EntryAt(rom, at) == DmaEntry(at, e.vromStart, e.vromEnd, e.vromStart, 0)
  {
    var painted := e.(romStart := e.vromStart, romEnd := 0);
    assert PaintedRow(e) == RowWords(painted);
    hide PaintedRow; hide EntryAt; hide RowWords;
    assert rom[at..at + 16] == RowWords(painted);
    WordsRead(rom, at, painted);
  }

  lemma SameEntry(a: seq<byte>, b: seq<byte>, at: nat)
    requires at + 16 <= |a| && at + 16 <= |b| && forall p: nat :: at <= p < at + 16 ==> a[p] == b[p]
    ensures EntryAt(a, at) == EntryAt(b, at)
  {}

  // ---- what the repacked ROM holds ----

  /** The table's own file is kept or rewritten in place. */
  lemma TableFate(job: Job, table: uint32, k: nat)
    requires Placed(job, table, k)
    ensures k < |job.now| && (FateOf(job, k) == Kept || FateOf(job, k) == InPlace)
    ensures k < |job.was| && job.was[k].vromStart == table == job.was[k].romStart && job.was[k].romEnd == 0
    ensures job.was[k] == job.now[k] && Used(job.was[k]) && StoredEnd(job.was[k]) == job.was[k].vromEnd
  {
    TableKept(job, table, k);
    EntryIs(job, table, k, k);
    hide StoredEnd; hide Keep; hide Sound; hide AreEntries; hide Image; hide StoredApart; hide SpansApart; hide StoredWell;
  }

  lemma KeptByte(job: Job, j: nat, p: nat)
    requires j < |job.now| && FateOf(job, j) == Kept && job.now[j].vromStart <= p < job.now[j].vromEnd
    ensures p < |job.original| && p < |job.patched| && job.original[p] == job.patched[p]
  {
    FateIs(job, j);
    hide FateOf;
    var e := job.now[j];
    assert job.original[p] == job.original[e.vromStart..e.vromEnd][p - e.vromStart];
    assert job.patched[p] == job.patched[e.vromStart..e.vromEnd][p - e.vromStart];
  }

  /** A table the patch left alone is no longer in the seed. */
  lemma SameCount(job: Job, table: uint32, k: nat)
    requires Placed(job, table, k) && k < |job.now| && FateOf(job, k) == Kept
    ensures |job.was| <= |job.now|
  {
    hide *;
    if |job.now| < |job.was| {
      TableFate(job, table, k);
      TableEnds(job, table, k);
      RowLeftWas(job, table, k, |job.now|);
      SameEnds(job, table, k, |job.now|);
      assert false;
    }
  }

  lemma SameEnds(job: Job, table: uint32, k: nat, j: nat)
    requires Placed(job, table, k) && k < |job.now| && FateOf(job, k) == Kept && j < |job.was|
    requires table as int + 16 * (j + 1) <= job.was[k].vromEnd && table + 16 * j + 16 <= |job.patched|
    ensures Ends(EntryAt(job.patched, table + 16 * j)) <==> Ends(job.was[j])
  {
    hide Placed; hide EntryAt; hide FateOf;
    var at := table + 16 * j;
    TableFate(job, table, k);
    OriginalEntry(job, table, k, j);
    forall p: nat | at <= p < at + 16 ensures p < |job.original| && p < |job.patched| && job.original[p] == job.patched[p] {
      KeptByte(job, k, p);
    }
    SameEntry(job.original, job.patched, at);
  }

  /** Where both tables end. */
  lemma TableEnds(job: Job, table: uint32, k: nat)
    requires Placed(job, table, k)
    ensures |job.now| > 0 && table + 16 * |job.now| + 16 <= |job.patched| && Ends(EntryAt(job.patched, table + 16 * |job.now|))
    ensures table as int + 16 * (|job.was| + 1) <= job.was[k].vromEnd && table as int + 16 * (|job.now| + 1) <= job.was[k].vromEnd
  {
    hide StoredEnd; hide Keep; hide Sound; hide Image; hide StoredApart; hide SpansApart; hide StoredWell; hide Listed; hide EntryAt;
    hide Ends;
  }

  /** A kept file is not where another is rewritten. */
  lemma Unwritten(job: Job, table: uint32, k: nat, j: nat, p: nat)
    requires Placed(job, table, k) && j < |job.now| && FateOf(job, j) == Kept && j < |job.was|
    requires job.was[j].romStart <= p < StoredEnd(job.was[j])
    ensures !Rewritten(job, |job.now|, p)
  {
    hide Placed; hide FateOf; hide StoredEnd;
    InPlaceListed(job, table, k);
    forall i | 0 <= i < |job.now| && FateOf(job, i) == InPlace
      ensures !(job.was[i].romStart <= p < StoredEnd(job.was[i])) {
      NotThere(job, table, k, i, j, p);
    }
  }

  lemma InPlaceListed(job: Job, table: uint32, k: nat)
    requires Placed(job, table, k)
    ensures forall i :: 0 <= i < |job.now| && FateOf(job, i) == InPlace ==> i < |job.was|
  {
    hide Placed; hide FateOf;
    forall i | 0 <= i < |job.now| && FateOf(job, i) == InPlace ensures i < |job.was| { FateIs(job, i); }
  }

  lemma NotThere(job: Job, table: uint32, k: nat, i: nat, j: nat, p: nat)
    requires Placed(job, table, k) && i < |job.now| && j < |job.now| && FateOf(job, i) == InPlace && FateOf(job, j) == Kept
    requires j < |job.was| && job.was[j].romStart <= p < StoredEnd(job.was[j])
    ensures i < |job.was| && !(job.was[i].romStart <= p < StoredEnd(job.was[i]))
  {
    hide Placed; hide FateOf; hide StoredEnd; hide Keep; hide Used;
    FateIs(job, j);
    InPlaceSpan(job, table, k, i);
  }

  lemma LaidByte(job: Job, l: Layout, p: nat)
    requires Laid(job, |job.now|, l)
    ensures p < HEADER ==> p < |l.rom| && p < |job.patched| && l.rom[p] == job.patched[p]
    ensures HEADER <= p < Keep(job.seed, job.was) && !Rewritten(job, |job.now|, p) ==>
      p < |l.rom| && p < |job.seed| && l.rom[p] == job.seed[p]
  {
    hide RowRight; hide Rewritten;
  }

  /** What is laid of the table's own file, past its entries. */
  lemma TableTail(job: Job, table: uint32, k: nat, l: Layout, p: nat)
    requires Placed(job, table, k) && Laid(job, |job.now|, l) && table + 16 * |job.now| <= p < job.was[k].vromEnd
    ensures p < |l.rom| && p < |job.patched| && l.rom[p] == job.patched[p]
  {
    hide Placed; hide Laid; hide FateOf; hide Rewritten; hide StoredEnd; hide OffRecords; hide Keep; hide Data; hide Blank;
    TableFate(job, table, k);
    TableFits(job, table, k);
    KeepCovers(job, table, k, k);
    if FateOf(job, k) == Kept {
      SameCount(job, table, k);
      OffPast(job, table, k, p);
      SeedByte(job, table, k, k, p);
      TableData(job, table, k, p);
      KeptByte(job, k, p);
      Unwritten(job, table, k, k, p);
      LaidByte(job, l, p);
    } else {
      LaidIs(job, l, k);
      PlainByte(job, k, l.rom, table, p);
    }
  }

  lemma PlainByte(job: Job, j: nat, rom: seq<byte>, at: nat, p: nat)
    requires j < |job.now| && PlainAt(job, j, rom, at) && job.now[j].vromStart <= p < job.now[j].vromEnd
    ensures var q := at + (p - job.now[j].vromStart); q < |rom| && p < |job.patched| && rom[q] == job.patched[p]
  {
    var e := job.now[j];
    var n := e.vromEnd - e.vromStart;
    assert rom[at + (p - e.vromStart)] == rom[at..at + n][p - e.vromStart];
  }

  /** Outside the table's entries, the repacked ROM is what was laid. */
  lemma RomByte(job: Job, table: uint32, k: nat, l: Layout, rom: seq<byte>, p: nat)
    requires Done(job, table, k, l, rom) && (p < table || table + 16 * |job.now| <= p)
    ensures |rom| == |l.rom| && (p < |rom| ==> rom[p] == l.rom[p])
  {
    hide *;
    DoneLength(job, table, k, l, rom);
    if p < |rom| { DoneAt(job, table, k, l, rom, |job.now|, p); }
  }

  lemma DoneLength(job: Job, table: uint32, k: nat, l: Layout, rom: seq<byte>)
    requires Done(job, table, k, l, rom)
    ensures |rom| == |l.rom| <= 0xFFFF_FFFF && Placed(job, table, k) && Laid(job, |job.now|, l)
  {
    hide Placed; hide Laid; hide WriteRows;
    WriteRowsLength(l.rows, 0, l.rom);
  }

  /** An entry of the patched image is what its words say. */
  lemma NowIs(job: Job, table: uint32, k: nat, j: nat)
    requires Placed(job, table, k) && j < |job.now|
    ensures var at := table + 16 * j;
      && at + 16 <= |job.patched| && job.now[j] == EntryAt(job.patched, at) && job.now[j].at == at
      && job.patched[at..at + 16] == RowWords(job.now[j]) && Listed(job, j)
  {
    var at := table + 16 * j;
    hide StoredEnd; hide Keep; hide Sound; hide Image; hide StoredApart; hide SpansApart; hide StoredWell; hide Listed; hide EntryAt;
    hide Ends; hide RowWords; hide TableEntry;
    EntryPlace(job.patched, at);
    WordsAre(job.patched, at);
  }

  /** An absent file's entry is the patched image's. */
  lemma AbsentRow(job: Job, table: uint32, k: nat, l: Layout, rom: seq<byte>, j: nat, p: nat)
    requires Done(job, table, k, l, rom) && j < |job.now| && !Used(job.now[j])
    requires table + 16 * j <= p < table + 16 * j + 16
    ensures p < |rom| && p < |job.patched| && rom[p] == job.patched[p]
  {
    hide *;
    var at := table + 16 * j;
    DoneLength(job, table, k, l, rom);
    TableFits(job, table, k);
    LaidKeep(job, |job.now|, l);
    NowIs(job, table, k, j);
    RowShape(job, table, k, l, j);
    RowOfAbsent(l.rows[j], job.now[j], at);
    DoneAt(job, table, k, l, rom, j, p);
    assert job.patched[p] == job.patched[at..at + 16][p - at];
  }

  lemma RowOfAbsent(row: DmaEntry, e: DmaEntry, at: nat)
    requires RowOf(row, e, at) && !Used(e)
    ensures row == e
  {}

  /** A byte of the table's own file, off the entries in use. */
  lemma TableByte(job: Job, table: uint32, k: nat, l: Layout, rom: seq<byte>, p: nat)
    requires Done(job, table, k, l, rom) && k < |job.was| && table <= p < job.was[k].vromEnd && OffRecords(job.now, p)
    ensures p < |rom| && p < |job.patched| && rom[p] == job.patched[p]
  {
    hide *;
    DoneLength(job, table, k, l, rom);
    if p < table + 16 * |job.now| {
      var j := (p - table) / 16;
      NowIs(job, table, k, j);
      OnRecord(job, table, j, p);
      AbsentRow(job, table, k, l, rom, j, p);
    } else {
      TableTail(job, table, k, l, p);
      RomByte(job, table, k, l, rom, p);
    }
  }

  lemma OnRecord(job: Job, table: uint32, j: nat, p: nat)
    requires j < |job.now| && job.now[j].at == table + 16 * j <= p < table + 16 * j + 16 && OffRecords(job.now, p)
    ensures !Used(job.now[j])
  {}

  /** What a kept file is stored as stays. */
  lemma KeptStays(job: Job, table: uint32, k: nat, l: Layout, rom: seq<byte>, j: nat, q: nat)
    requires Done(job, table, k, l, rom) && j < |job.now| && FateOf(job, j) == Kept && j != k
    requires j < |job.was| && job.was[j].romStart <= q < StoredEnd(job.was[j])
    ensures q < |rom| && q < |l.rom| && rom[q] == l.rom[q]
    ensures q >= HEADER ==> q < |job.seed| && rom[q] == job.seed[q]
    ensures q < HEADER ==> q < |job.patched| && rom[q] == job.patched[q]
  {
    hide *;
    DoneLength(job, table, k, l, rom);
    FateIs(job, j);
    TableFate(job, table, k);
    TableEnds(job, table, k);
    KeepCovers(job, table, k, j);
    LaidKeep(job, |job.now|, l);
    TableSpan(job, table, k, j);
    ApartIs(job.was[j].romStart, StoredEnd(job.was[j]), table, job.was[k].vromEnd, q);
    RomByte(job, table, k, l, rom, q);
    Unwritten(job, table, k, j, q);
    LaidByte(job, l, q);
  }

  lemma ApartIs(a: nat, b: nat, c: nat, d: nat, q: nat)
    requires Apart(a, b, c, d) && a <= q < b && c < d
    ensures q < c || d <= q
  {}

  /** A file's bytes in the repacked ROM: the patched image's, and beyond them nothing. */
  ghost predicate Stored(job: Job, rom: seq<byte>, row: DmaEntry, j: nat)
    requires j < |job.now|
  {
    var e := job.now[j];
    && Within(e, job.patched) && Readable(rom, row, |job.patched|)
    && forall p :: e.vromStart <= p < e.vromEnd && OffRecords(job.now, p) ==> ByteStored(job.patched, Data(rom, row), e.vromStart, p)
  }

  predicate ByteStored(patched: seq<byte>, d: seq<byte>, start: nat, p: nat)
    requires start <= p < |patched|
  {
    if p - start < |d| then d[p - start] == patched[p] else p >= HEADER ==> patched[p] == 0
  }

  /** Bytes stored plain from `rs` on. */
  lemma PlainStored(job: Job, rom: seq<byte>, row: DmaEntry, j: nat)
    requires j < |job.now| && RowOf(row, job.now[j], row.at) && row.romEnd == 0 && Within(job.now[j], job.patched)
    requires row.romStart + (row.vromEnd - row.vromStart) <= |rom|
    requires forall p :: row.vromStart <= p < row.vromEnd && OffRecords(job.now, p) ==>
      rom[row.romStart + (p - row.vromStart)] == job.patched[p]
    ensures Stored(job, rom, row, j)
  {
    hide OffRecords; hide Data; hide FileData;
    PlainData(rom, row, 0);
    forall p | row.vromStart <= p < row.vromEnd && OffRecords(job.now, p)
      ensures ByteStored(job.patched, Data(rom, row), row.vromStart, p)
    {
      PlainData(rom, row, p);
    }
  }

  /** The table's own file. */
  lemma TableStored(job: Job, table: uint32, k: nat, l: Layout, rom: seq<byte>)
    requires Done(job, table, k, l, rom)
    ensures k < |job.now| && |l.rows| == |job.now| && Stored(job, rom, l.rows[k], k)
  {
    hide *;
    DoneLength(job, table, k, l, rom);
    TableFate(job, table, k);
    TableEnds(job, table, k);
    RowShape(job, table, k, l, k);
    FateIs(job, k);
    LaidIs(job, l, k);
    TableRow(job, l, k);
    KeepCovers(job, table, k, k);
    LaidKeep(job, |job.now|, l);
    RowOfSelf(l.rows[k], job.now[k], table + 16 * k);
    forall p | table <= p < job.was[k].vromEnd && OffRecords(job.now, p)
      ensures p < |rom| && p < |job.patched| && rom[p] == job.patched[p]
    {
      TableByte(job, table, k, l, rom, p);
    }
    PlainStored(job, rom, l.rows[k], k);
  }

  lemma RowOfSelf(row: DmaEntry, e: DmaEntry, at: nat)
    requires RowOf(row, e, at)
    ensures RowOf(row, e, row.at) && row.at == at && row.vromStart == e.vromStart && row.vromEnd == e.vromEnd
    ensures Used(row) == Used(e)
  {}

  lemma TableRow(job: Job, l: Layout, k: nat)
    requires k < |job.now| && k < |job.was| && k < |l.rows| && RowRight(job, k, l.rom, l.rows[k])
    requires (FateOf(job, k) == Kept || FateOf(job, k) == InPlace) && job.was[k].romEnd == 0
    ensures l.rows[k].romStart == job.was[k].romStart && l.rows[k].romEnd == 0
  {}

  /** A file that is stored plain, past the data or where it was. */
  lemma LaidStored(job: Job, table: uint32, k: nat, l: Layout, rom: seq<byte>, j: nat)
    requires Done(job, table, k, l, rom) && j < |job.now| && j != k
    requires FateOf(job, j) == InPlace || FateOf(job, j) == Moved
    ensures |l.rows| == |job.now| && Stored(job, rom, l.rows[j], j)
  {
    hide *;
    DoneLength(job, table, k, l, rom);
    RowShape(job, table, k, l, j);
    LaidIs(job, l, j);
    var row, e := l.rows[j], job.now[j];
    RowOfSelf(row, e, table + 16 * j);
    LaidPlain(job, l, j);
    InBounds(job, j, l.rom, row.romStart);
    WithinIs(e, job.patched);
    forall p | e.vromStart <= p < e.vromEnd
      ensures p < |job.patched| && row.romStart + (p - e.vromStart) < |rom|
      ensures rom[row.romStart + (p - e.vromStart)] == job.patched[p]
    {
      PlainByte(job, j, l.rom, row.romStart, p);
      OutsideTable(job, table, k, l, j, row.romStart + (p - e.vromStart));
      RomByte(job, table, k, l, rom, row.romStart + (p - e.vromStart));
    }
    PlainStored(job, rom, row, j);
  }

  lemma WithinIs(e: DmaEntry, image: seq<byte>)
    requires Within(e, image)
    ensures e.vromStart <= e.vromEnd && e.vromEnd as int <= |image|
  {}

  lemma LaidPlain(job: Job, l: Layout, j: nat)
    requires j < |job.now| && j < |l.rows| && RowRight(job, j, l.rom, l.rows[j])
    requires FateOf(job, j) == InPlace || FateOf(job, j) == Moved
    ensures l.rows[j].romEnd == 0 && PlainAt(job, j, l.rom, l.rows[j].romStart)
    ensures FateOf(job, j) == Moved ==> Keep(job.seed, job.was) <= l.rows[j].romStart
    ensures FateOf(job, j) == InPlace ==> j < |job.was| && l.rows[j].romStart == job.was[j].romStart
  {}

  /** Nothing that is stored plain is stored over the table. */
  lemma OutsideTable(job: Job, table: uint32, k: nat, l: Layout, j: nat, q: nat)
    requires Placed(job, table, k) && Laid(job, |job.now|, l) && j < |job.now| && j != k && |l.rows| == |job.now|
    requires FateOf(job, j) == InPlace || FateOf(job, j) == Moved
    requires l.rows[j].romStart <= q < l.rows[j].romStart + (job.now[j].vromEnd - job.now[j].vromStart)
    ensures q < table || table + 16 * |job.now| <= q
  {
    hide *;
    LaidIs(job, l, j);
    LaidPlain(job, l, j);
    TableFits(job, table, k);
    if FateOf(job, j) == InPlace {
      TableFate(job, table, k);
      TableEnds(job, table, k);
      InPlaceSpan(job, table, k, j);
      FateIs(job, j);
      TableSpan(job, table, k, j);
      ApartIs(job.was[j].romStart, StoredEnd(job.was[j]), table, job.was[k].vromEnd, q);
    }
  }

  /** A kept file's byte of the seed is the patched image's. */
  lemma KeptSeedByte(job: Job, table: uint32, k: nat, j: nat, p: nat)
    requires Placed(job, table, k) && j < |job.now| && j != k && FateOf(job, j) == Kept
    requires job.now[j].vromStart <= p < job.now[j].vromEnd
    ensures j < |job.was| && p < |job.patched| && ByteStored(job.patched, Data(job.seed, job.was[j]), job.now[j].vromStart, p)
  {
    hide *;
    FateIs(job, j);
    TableFate(job, table, k);
    KeptByte(job, j, p);
    OffTable(job, table, k, j, p);
    SeedByte(job, table, k, j, p);
    BlankPast(job.seed, |job.original|, p);
    SeedStored(job.patched, Data(job.seed, job.was[j]), job.now[j].vromStart, p);
  }

  lemma BlankPast(rom: seq<byte>, len: nat, p: nat)
    requires HEADER <= |rom| && HEADER <= len && p < len
    ensures Blank(rom, len)[p] == if p < HEADER then rom[p] else 0
  {}

  lemma SeedStored(patched: seq<byte>, d: seq<byte>, start: nat, p: nat)
    requires start <= p < |patched| && (p - start < |d| ==> d[p - start] == patched[p])
    requires p - start >= |d| && p >= HEADER ==> patched[p] == 0
    ensures ByteStored(patched, d, start, p)
  {}

  lemma KeptStored(job: Job, table: uint32, k: nat, l: Layout, rom: seq<byte>, j: nat)
    requires Done(job, table, k, l, rom) && j < |job.now| && j != k && FateOf(job, j) == Kept
    ensures |l.rows| == |job.now| && j < |job.was| && l.rows[j] == job.was[j]
    ensures Stored(job, rom, l.rows[j], j)
  {
    hide *;
    DoneLength(job, table, k, l, rom);
    RowShape(job, table, k, l, j);
    FateIs(job, j);
    LaidIs(job, l, j);
    KeptRow(job, l, j);
    RowOfSelf(l.rows[j], job.now[j], table + 16 * j);
    WithinIs(job.now[j], job.patched);
    if job.was[j].romEnd == 0 {
      KeptPlain(job, table, k, l, rom, j);
    } else {
      KeptPacked(job, table, k, l, rom, j);
    }
  }

  lemma KeptRow(job: Job, l: Layout, j: nat)
    requires j < |job.now| && j < |l.rows| && RowRight(job, j, l.rom, l.rows[j]) && FateOf(job, j) == Kept
    ensures j < |job.was| && l.rows[j] == job.was[j]
  {}

  lemma KeptPlain(job: Job, table: uint32, k: nat, l: Layout, rom: seq<byte>, j: nat)
    requires Done(job, table, k, l, rom) && j < |job.now| && j != k && FateOf(job, j) == Kept
    requires j < |job.was| && job.was[j].romEnd == 0 && RowOf(job.was[j], job.now[j], job.was[j].at)
    ensures Stored(job, rom, job.was[j], j)
  {
    hide *;
    DoneLength(job, table, k, l, rom);
    FateIs(job, j);
    var e := job.was[j];
    WithinIs(job.now[j], job.patched);
    KeepCovers(job, table, k, j);
    LaidKeep(job, |job.now|, l);
    SeedFileIs(job, table, k, j);
    forall p | e.vromStart <= p < e.vromEnd
      ensures p < |job.patched| && e.romStart + (p - e.vromStart) < |rom|
      ensures rom[e.romStart + (p - e.vromStart)] == job.patched[p]
    {
      var q := e.romStart + (p - e.vromStart);
      KeptStays(job, table, k, l, rom, j, q);
      KeptSeedByte(job, table, k, j, p);
      PlainData(job.seed, e, p);
      StoredIs(job.patched, Data(job.seed, e), e.vromStart, p);
    }
    PlainStored(job, rom, e, j);
  }

  lemma StoredIs(patched: seq<byte>, d: seq<byte>, start: nat, p: nat)
    requires start <= p < |patched| && ByteStored(patched, d, start, p) && p - start < |d|
    ensures d[p - start] == patched[p]
  {}

  /** How the seed stores a file. */
  lemma SeedFileIs(job: Job, table: uint32, k: nat, j: nat)
    requires Placed(job, table, k) && j < |job.was| && Used(job.was[j])
    ensures var e := job.was[j];
      && e.vromStart <= e.vromEnd && StoredEnd(e) <= |job.seed| && Readable(job.seed, e, ImageLength(job.was))
      && (e.romEnd == 0 && e.romStart < HEADER && e.vromStart < e.vromEnd ==> e.romStart == e.vromStart)
      && (e.romEnd == 0 ==> StoredEnd(e) == e.romStart + (e.vromEnd - e.vromStart))
      && (e.romEnd != 0 ==>
           && HEADER <= e.romStart && StoredEnd(e) == e.romEnd
           && var f := Yaz0.File(job.seed, e.romStart, e.vromEnd - e.vromStart); f.Ok? && f.value.end <= e.romEnd)
  {
    KeepCovers(job, table, k, j);
    hide Keep; hide Image; hide StoredApart; hide SpansApart; hide Listed; hide AreEntries; hide TableEntry;
    hide Data; hide FileData;
    assert StoredWell(job.seed, job.was[j]);
    assert Readable(job.seed, job.was[j], ImageLength(job.was));
    hide Readable; hide Yaz0.File;
  }

  /** A file kept compressed decompresses the same. */
  lemma KeptPacked(job: Job, table: uint32, k: nat, l: Layout, rom: seq<byte>, j: nat)
    requires Done(job, table, k, l, rom) && j < |job.now| && j != k && FateOf(job, j) == Kept
    requires j < |job.was| && job.was[j].romEnd != 0 && RowOf(job.was[j], job.now[j], job.was[j].at)
    ensures Stored(job, rom, job.was[j], j)
  {
    hide *;
    DoneLength(job, table, k, l, rom);
    FateIs(job, j);
    var e := job.was[j];
    WithinIs(job.now[j], job.patched);
    KeepCovers(job, table, k, j);
    LaidKeep(job, |job.now|, l);
    SeedFileIs(job, table, k, j);
    forall q: nat | e.romStart <= q < e.romEnd ensures q < |rom| && q < |job.seed| && rom[q] == job.seed[q] {
      KeptStays(job, table, k, l, rom, j, q);
    }
    PackedSame(job.seed, rom, e, ImageLength(job.was));
    forall p | e.vromStart <= p < e.vromEnd
      ensures p < |job.patched| && ByteStored(job.patched, Data(rom, e), e.vromStart, p)
    {
      KeptSeedByte(job, table, k, j, p);
    }
    IsStored(job, rom, e, j, ImageLength(job.was));
  }

  lemma IsStored(job: Job, rom: seq<byte>, row: DmaEntry, j: nat, len: nat)
    requires j < |job.now| && RowOf(row, job.now[j], row.at) && Within(job.now[j], job.patched) && Readable(rom, row, len)
    requires forall p :: row.vromStart <= p < row.vromEnd ==> ByteStored(job.patched, Data(rom, row), row.vromStart, p)
    ensures Stored(job, rom, row, j)
  {
    hide Data; hide FileData; hide ByteStored; hide OffRecords;
  }

  /** Compressed bytes that are the same decompress the same. */
  lemma PackedSame(seed: seq<byte>, rom: seq<byte>, e: DmaEntry, len: nat)
    requires e.romEnd != 0 && Readable(seed, e, len) && e.romEnd as int <= |seed| && e.romEnd as int <= |rom|
    requires Yaz0.File(seed, e.romStart, e.vromEnd - e.vromStart).value.end <= e.romEnd
    requires forall q: nat :: e.romStart <= q < e.romEnd ==> rom[q] == seed[q]
    ensures Readable(rom, e, len) && Data(rom, e) == Data(seed, e)
  {
    Yaz0.FileLength(seed, e.romStart, e.vromEnd - e.vromStart);
    Yaz0.FileReadsOnly(seed, rom, e.romStart, e.vromEnd - e.vromStart);
    hide Yaz0.File;
  }

  // ---- the image of the repacked ROM ----

  lemma FileStored(job: Job, table: uint32, k: nat, l: Layout, rom: seq<byte>, j: nat)
    requires Done(job, table, k, l, rom) && j < |job.now| && Used(job.now[j])
    ensures |l.rows| == |job.now| && Stored(job, rom, l.rows[j], j)
  {
    hide *;
    DoneLength(job, table, k, l, rom);
    NowIs(job, table, k, j);
    UsedFate(job, j);
    if j == k {
      TableStored(job, table, k, l, rom);
    } else if FateOf(job, j) == Kept {
      KeptStored(job, table, k, l, rom, j);
    } else {
      LaidStored(job, table, k, l, rom, j);
    }
  }

  lemma UsedFate(job: Job, j: nat)
    requires j < |job.now| && Used(job.now[j]) && Listed(job, j)
    ensures FateOf(job, j) == Kept || FateOf(job, j) == InPlace || FateOf(job, j) == Moved
  {}

  /** Each row is read back as it was written. */
  lemma RowStands(job: Job, table: uint32, k: nat, l: Layout, rom: seq<byte>, j: nat)
    requires Done(job, table, k, l, rom) && j < |job.now|
    ensures |l.rows| == |job.now| && table + 16 * j + 16 <= |rom| && l.rows[j] == EntryAt(rom, table + 16 * j)
    ensures RowOf(l.rows[j], job.now[j], table + 16 * j)
  {
    hide *;
    var at := table + 16 * j;
    DoneLength(job, table, k, l, rom);
    TableFits(job, table, k);
    LaidKeep(job, |job.now|, l);
    RowShape(job, table, k, l, j);
    RowOfSelf(l.rows[j], job.now[j], at);
    forall p: nat | at <= p < at + 16 ensures rom[p] == RowWords(l.rows[j])[p - at] {
      DoneAt(job, table, k, l, rom, j, p);
    }
    assert rom[at..at + 16] == RowWords(l.rows[j]);
    WordsRead(rom, at, l.rows[j]);
  }

  lemma RowsStand(job: Job, table: uint32, k: nat, l: Layout, rom: seq<byte>)
    requires Done(job, table, k, l, rom)
    ensures AreEntries(rom, table, 0, l.rows)
  {
    hide *;
    var n := |job.now|;
    var at := table + 16 * n;
    DoneLength(job, table, k, l, rom);
    TableFits(job, table, k);
    TableFate(job, table, k);
    TableEnds(job, table, k);
    LaidKeep(job, n, l);
    LaidCount(job, l);
    forall p: nat | at <= p < at + 16 ensures p < |rom| && p < |job.patched| && rom[p] == job.patched[p] {
      TableTail(job, table, k, l, p);
      RomByte(job, table, k, l, rom, p);
    }
    SameEntry(rom, job.patched, at);
    forall i | 0 <= i < n ensures l.rows[i] == EntryAt(rom, table + 16 * i) && (i > 0 ==> !Ends(l.rows[i])) {
      RowStands(job, table, k, l, rom, i);
      NowGoesOn(job, table, k, i);
      EndsAlike(l.rows[i], job.now[i], table + 16 * i);
    }
    NowGoesOn(job, table, k, 0);
    AreEntriesIf(rom, table, l.rows);
  }

  lemma NowGoesOn(job: Job, table: uint32, k: nat, i: nat)
    requires Placed(job, table, k) && i < |job.now|
    ensures |job.now| <= MAX_ENTRIES && (i > 0 ==> !Ends(job.now[i]))
  {
    hide StoredEnd; hide Keep; hide Sound; hide Image; hide StoredApart; hide SpansApart; hide StoredWell; hide Listed; hide EntryAt;
    hide Ends; hide TableEntry;
  }

  lemma EndsAlike(row: DmaEntry, e: DmaEntry, at: nat)
    requires RowOf(row, e, at)
    ensures Ends(row) <==> Ends(e)
  {}

  lemma AreEntriesIf(rom: seq<byte>, table: nat, es: seq<DmaEntry>)
    requires 0 < |es| <= MAX_ENTRIES && table + 16 * |es| + 16 <= |rom| && Ends(EntryAt(rom, table + 16 * |es|))
    requires forall i :: 0 <= i < |es| ==> es[i] == EntryAt(rom, table + 16 * i) && (i > 0 ==> !Ends(es[i]))
    ensures AreEntries(rom, table, 0, es)
  {
    hide EntryAt; hide Ends;
    forall i | 0 <= i < |es| ensures es[i] == EntryAt(rom, table + 16 * (0 + i)) && (0 + i > 0 ==> !Ends(es[i])) {}
  }

  ghost predicate SameFiles(a: seq<DmaEntry>, b: seq<DmaEntry>) {
    |a| == |b| && forall i :: 0 <= i < |a| ==>
      && a[i].vromStart == b[i].vromStart && a[i].vromEnd == b[i].vromEnd && a[i].at == b[i].at
      && (Used(a[i]) <==> Used(b[i]))
  }

  lemma {:induction false} SameImageEnd(a: seq<DmaEntry>, b: seq<DmaEntry>)
    requires SameFiles(a, b)
    ensures |a| == |b| && ImageEnd(a) == ImageEnd(b) && ImageLength(a) == ImageLength(b)
  {
    if a != [] { SameImageEnd(a[..|a| - 1], b[..|b| - 1]); }
  }

  lemma SameRest(a: seq<DmaEntry>, b: seq<DmaEntry>, p: nat)
    requires SameFiles(a, b)
    ensures SpansApart(a) <==> SpansApart(b)
    ensures OffRecords(a, p) <==> OffRecords(b, p)
  {}

  lemma RowsSame(job: Job, table: uint32, k: nat, l: Layout)
    requires Placed(job, table, k) && Laid(job, |job.now|, l)
    ensures SameFiles(l.rows, job.now)
  {
    hide Placed; hide Laid; hide Used;
    LaidCount(job, l);
    forall i | 0 <= i < |l.rows| ensures RowOf(l.rows[i], job.now[i], job.now[i].at) {
      RowShape(job, table, k, l, i);
      RowLeft(job, table, k, i);
    }
  }

  /** The repacked ROM has all an image is made from. */
  lemma RomSound(job: Job, table: uint32, k: nat, l: Layout, rom: seq<byte>)
    requires Done(job, table, k, l, rom) && ImageEnd(job.now) <= MAX_IMAGE
    ensures Sound(rom, table, l.rows) && ImageLength(l.rows) == ImageLength(job.now) && SameFiles(l.rows, job.now)
  {
    hide *;
    DoneLength(job, table, k, l, rom);
    RowsStand(job, table, k, l, rom);
    RowsSame(job, table, k, l);
    SameImageEnd(l.rows, job.now);
    SameRest(l.rows, job.now, 0);
    TableFate(job, table, k);
    TableEnds(job, table, k);
    TableFits(job, table, k);
    LaidKeep(job, |job.now|, l);
    LaidCount(job, l);
    LaidIs(job, l, k);
    TableRow(job, l, k);
    NowApart(job, table, k);
    forall i | 0 <= i < |l.rows| && Used(l.rows[i]) ensures Readable(rom, l.rows[i], ImageLength(l.rows)) {
      SameUsed(l.rows, job.now, i);
      FileStored(job, table, k, l, rom, i);
      ReachesIn(job, rom, l.rows, i);
    }
    SameUsed(l.rows, job.now, k);
    SoundIf(rom, table, l.rows, k);
  }

  lemma NowApart(job: Job, table: uint32, k: nat)
    requires Placed(job, table, k)
    ensures SpansApart(job.now)
  {}

  lemma SameUsed(a: seq<DmaEntry>, b: seq<DmaEntry>, i: nat)
    requires SameFiles(a, b) && i < |a|
    ensures a[i].vromStart == b[i].vromStart && a[i].vromEnd == b[i].vromEnd && a[i].at == b[i].at
    ensures Used(a[i]) <==> Used(b[i])
  {}

  lemma ReachesIn(job: Job, rom: seq<byte>, es: seq<DmaEntry>, i: nat)
    requires i < |es| && i < |job.now| && Used(es[i]) && Stored(job, rom, es[i], i)
    ensures Readable(rom, es[i], ImageLength(es))
  {
    hide Data; hide FileData;
    assert es[i] in es;
  }

  lemma SoundIf(rom: seq<byte>, table: uint32, es: seq<DmaEntry>, k: nat)
    requires AreEntries(rom, table, 0, es) && ImageEnd(es) <= MAX_IMAGE && HEADER <= |rom| && SpansApart(es)
    requires forall i :: 0 <= i < |es| && Used(es[i]) ==> Readable(rom, es[i], ImageLength(es))
    requires k < |es| && es[k].vromStart == table == es[k].romStart && Used(es[k])
    requires table + 16 * |es| <= es[k].vromEnd as int
    ensures Sound(rom, table, es)
  {
    hide AreEntries; hide Readable; hide SpansApart;
    assert es[k] in es;
  }

  /** A byte of the image of the repacked ROM: the patched image's in its header and files, and zero outside. */
  lemma PointIs(job: Job, table: uint32, k: nat, l: Layout, rom: seq<byte>, p: nat)
    requires Done(job, table, k, l, rom) && ImageEnd(job.now) <= MAX_IMAGE && p < ImageLength(job.now)
    ensures Image(rom, table).Ok? && |Image(rom, table).value| == ImageLength(job.now)
    ensures Covered(job.now, p) ==> p < |job.patched|
    ensures Image(rom, table).value[p] == if Covered(job.now, p) then job.patched[p] else 0
  {
    hide *;
    RomSound(job, table, k, l, rom);
    RomHeader(job, table, k, l, rom, p);
    if OffRecords(job.now, p) {
      SameRest(l.rows, job.now, p);
      if j :| 0 <= j < |job.now| && Used(job.now[j]) && job.now[j].vromStart <= p < job.now[j].vromEnd {
        CoveredIf(job.now, j, p);
        PointInFile(job, table, k, l, rom, j, p);
      } else {
        PointOutside(job, table, k, l, rom, p);
      }
    } else {
      RecordAt(job.now, p);
      var r :| 0 <= r < |job.now| && Used(job.now[r]) && job.now[r].at <= p < job.now[r].at + 16;
      PointInTable(job, table, k, l, rom, r, p);
    }
  }

  lemma RomHeader(job: Job, table: uint32, k: nat, l: Layout, rom: seq<byte>, p: nat)
    requires Done(job, table, k, l, rom)
    ensures HEADER <= |rom| && HEADER <= |job.patched| && (p < HEADER ==> rom[p] == job.patched[p])
  {
    hide *;
    DoneLength(job, table, k, l, rom);
    TableFits(job, table, k);
    TableKept(job, table, k);
    LaidKeep(job, |job.now|, l);
    if p < HEADER {
      RomByte(job, table, k, l, rom, p);
      LaidByte(job, l, p);
    }
  }

  lemma CoveredIf(es: seq<DmaEntry>, j: nat, p: nat)
    requires j < |es| && Used(es[j]) && es[j].vromStart <= p < es[j].vromEnd
    ensures Covered(es, p)
  {}

  lemma RecordAt(es: seq<DmaEntry>, p: nat)
    requires !OffRecords(es, p)
    ensures exists r :: 0 <= r < |es| && Used(es[r]) && es[r].at <= p < es[r].at + 16
  {}

  lemma PointInFile(job: Job, table: uint32, k: nat, l: Layout, rom: seq<byte>, j: nat, p: nat)
    requires Done(job, table, k, l, rom) && p < ImageLength(job.now) && OffRecords(l.rows, p) && OffRecords(job.now, p)
    requires Sound(rom, table, l.rows) && ImageLength(l.rows) == ImageLength(job.now) && SameFiles(l.rows, job.now)
    requires j < |job.now| && Used(job.now[j]) && job.now[j].vromStart <= p < job.now[j].vromEnd
    ensures Image(rom, table).Ok? && |Image(rom, table).value| == ImageLength(job.now)
    ensures p < |job.patched| && Image(rom, table).value[p] == job.patched[p]
  {
    hide *;
    FileStored(job, table, k, l, rom, j);
    SameUsed(l.rows, job.now, j);
    var row := l.rows[j];
    StoredByte(job, rom, row, j, p);
    HoldsIf(rom, row, p);
    SoundHolds(rom, table, l.rows, j, p);
    if p - row.vromStart < |Data(rom, row)| {
      ImageIs(rom, table, l.rows, j, |l.rows|, p);
    } else {
      ImageIs(rom, table, l.rows, |l.rows|, |l.rows|, p);
      RomHeader(job, table, k, l, rom, p);
      BlankPast(rom, ImageLength(l.rows), p);
    }
  }

  lemma StoredByte(job: Job, rom: seq<byte>, row: DmaEntry, j: nat, p: nat)
    requires j < |job.now| && Stored(job, rom, row, j) && job.now[j].vromStart <= p < job.now[j].vromEnd && OffRecords(job.now, p)
    ensures var d, q := Data(rom, row), p - job.now[j].vromStart;
      p < |job.patched| && if q < |d| then d[q] == job.patched[p] else p >= HEADER ==> job.patched[p] == 0
  {
    hide Data; hide Readable; hide OffRecords;
  }

  lemma HoldsIf(rom: seq<byte>, row: DmaEntry, p: nat)
    ensures HasByte(rom, row, p) <==> Used(row) && row.vromStart <= p < row.vromStart + |Data(rom, row)|
  {
    hide Data;
  }

  lemma SoundHolds(rom: seq<byte>, table: uint32, es: seq<DmaEntry>, j: nat, p: nat)
    requires Sound(rom, table, es) && j < |es| && Used(es[j]) && es[j].vromStart <= p < es[j].vromEnd
    ensures forall i :: 0 <= i < |es| && i != j ==> !HasByte(rom, es[i], p)
    ensures HEADER <= ImageLength(es)
  {
    hide AreEntries; hide HasTable; hide ImageEnd; hide AllReadable; hide SpansApart; hide HasByte;
    OnlyHolder(rom, es, ImageLength(es), j, p);
  }

  lemma PointOutside(job: Job, table: uint32, k: nat, l: Layout, rom: seq<byte>, p: nat)
    requires Done(job, table, k, l, rom) && p < ImageLength(job.now) && OffRecords(l.rows, p)
    requires Sound(rom, table, l.rows) && ImageLength(l.rows) == ImageLength(job.now) && SameFiles(l.rows, job.now)
    requires forall j :: 0 <= j < |job.now| && Used(job.now[j]) ==> !(job.now[j].vromStart <= p < job.now[j].vromEnd)
    ensures Image(rom, table).Ok? && |Image(rom, table).value| == ImageLength(job.now)
    ensures Covered(job.now, p) <==> p < HEADER
    ensures p < HEADER ==> p < |job.patched|
    ensures Image(rom, table).value[p] == if p < HEADER then job.patched[p] else 0
  {
    hide *;
    SameImageEnd(l.rows, job.now);
    forall i | 0 <= i < |l.rows| ensures !HasByte(rom, l.rows[i], p) {
      SameUsed(l.rows, job.now, i);
      HoldsIf(rom, l.rows[i], p);
      SoundReads(rom, table, l.rows, i);
    }
    ImageIs(rom, table, l.rows, |l.rows|, |l.rows|, p);
    RomHeader(job, table, k, l, rom, p);
    ImageHeader(l.rows);
    BlankPast(rom, ImageLength(l.rows), p);
    OnlyHeader(job.now, p);
  }

  lemma SoundReads(rom: seq<byte>, table: uint32, es: seq<DmaEntry>, i: nat)
    requires Sound(rom, table, es) && i < |es|
    ensures Used(es[i]) ==> es[i].vromStart + |Data(rom, es[i])| <= es[i].vromEnd
  {
    hide AreEntries; hide HasTable; hide ImageEnd; hide SpansApart; hide FileData; hide Data;
    assert Used(es[i]) ==> Readable(rom, es[i], ImageLength(es));
  }

  lemma ImageHeader(es: seq<DmaEntry>)
    ensures 0 < HEADER <= ImageLength(es)
  {}

  lemma OnlyHeader(es: seq<DmaEntry>, p: nat)
    requires forall j :: 0 <= j < |es| && Used(es[j]) ==> !(es[j].vromStart <= p < es[j].vromEnd)
    ensures Covered(es, p) <==> p < HEADER
  {}

  lemma PointInTable(job: Job, table: uint32, k: nat, l: Layout, rom: seq<byte>, r: nat, p: nat)
    requires Done(job, table, k, l, rom) && p < ImageLength(job.now)
    requires Sound(rom, table, l.rows) && ImageLength(l.rows) == ImageLength(job.now) && SameFiles(l.rows, job.now)
    requires r < |job.now| && Used(job.now[r]) && job.now[r].at <= p < job.now[r].at + 16
    ensures Image(rom, table).Ok? && |Image(rom, table).value| == ImageLength(job.now)
    ensures Covered(job.now, p) && p < |job.patched| && Image(rom, table).value[p] == job.patched[p]
  {
    hide *;
    DoneLength(job, table, k, l, rom);
    NowIs(job, table, k, r);
    TableFate(job, table, k);
    TableEnds(job, table, k);
    CoveredIf(job.now, k, p);
    SameImageEnd(l.rows, job.now);
    SameUsed(l.rows, job.now, k);
    SameUsed(l.rows, job.now, r);
    LaidCount(job, l);
    LaidIs(job, l, k);
    TableRow(job, l, k);
    KeepCovers(job, table, k, k);
    LaidKeep(job, |job.now|, l);
    PlainData(rom, l.rows[k], p);
    HoldsIf(rom, l.rows[k], p);
    ImageIs(rom, table, l.rows, k, r, p);
    PaintedIs(l.rows[r]);
    UsedNow(job, r);
    var at := table + 16 * r;
    SameWords(l.rows[r].(romStart := l.rows[r].vromStart, romEnd := 0), job.now[r]);
    assert job.patched[p] == job.patched[at..at + 16][p - at];
  }

  lemma PaintedIs(e: DmaEntry)
    ensures PaintedRow(e) == RowWords(e.(romStart := e.vromStart, romEnd := 0))
  {}

  lemma UsedNow(job: Job, r: nat)
    requires r < |job.now| && Used(job.now[r]) && Listed(job, r)
    ensures job.now[r].romStart == job.now[r].vromStart && job.now[r].romEnd == 0
  {}

  lemma SameWords(a: DmaEntry, b: DmaEntry)
    requires a.vromStart == b.vromStart && a.vromEnd == b.vromEnd && a.romStart == b.romStart && a.romEnd == b.romEnd
    ensures RowWords(a) == RowWords(b)
  {}

  // ---- the round trip ----

  lemma Begun(job: Job, table: uint32, k: nat)
    requires Placed(job, table, k)
    ensures HEADER <= Keep(job.seed, job.was) && HEADER <= |job.patched| && Laid(job, 0, Start(job))
  {
    TableKept(job, table, k);
    hide Placed; hide Keep;
    StartLaid(job);
  }

  lemma StartLaid(job: Job)
    requires HEADER <= Keep(job.seed, job.was) && HEADER <= |job.patched|
    ensures Laid(job, 0, Start(job))
  {
    hide Keep; hide RowRight; hide Rewritten;
  }

  lemma RowAt(job: Job, i: nat, l: Layout)
    requires i < |job.now| && LayOne(job, i, l).Ok?
    ensures var rows := LayOne(job, i, l).value.rows;
      |rows| == |l.rows| + 1 && rows[..|l.rows|] == l.rows && rows[|l.rows|].at == job.now[i].at
  {
    hide FateOf; hide Aligned16; hide Overwrite; hide Before;
  }

  lemma {:induction false} RowsWritten(job: Job, table: uint32, k: nat, i: nat, l: Layout)
    requires Placed(job, table, k) && i <= |job.now| && Keep(job.seed, job.was) <= |l.rom|
    requires |l.rows| == i && AtTheirPlace(table, l.rows)
    ensures Lay(job, i, l).Ok? && WriteRows(Lay(job, i, l).value.rows, 0, Lay(job, i, l).value.rom).Ok?
    decreases |job.now| - i
  {
    hide LayOne; hide Placed; hide Keep; hide WriteRows;
    TableFits(job, table, k);
    if i < |job.now| {
      LayOneOk(job, table, k, i, l);
      RowAt(job, i, l);
      RowLeft(job, table, k, i);
      var m := LayOne(job, i, l).value;
      assert forall j :: 0 <= j < i ==> m.rows[j] == m.rows[..i][j];
      RowsWritten(job, table, k, i + 1, m);
    } else {
      WriteRowsAt(table, l.rows, 0, l.rom, i, 0);
    }
  }

  /** Repacking comes to what was laid, with the table written back. */
  lemma Completes(job: Job, table: uint32, k: nat) returns (l: Layout, rom: seq<byte>)
    requires Placed(job, table, k)
    ensures Relaid(job) == Ok(Repacked(rom, l.kept, l.moved))
    ensures |rom| <= 0xFFFF_FFFF ==> Done(job, table, k, l, rom)
  {
    hide Placed; hide Keep; hide Lay; hide WriteRows; hide Laid;
    Begun(job, table, k);
    LaidKeep(job, 0, Start(job));
    LayOk(job, table, k, 0, Start(job));
    RowsWritten(job, table, k, 0, Start(job));
    l := Lay(job, 0, Start(job)).value;
    rom := WriteRows(l.rows, 0, l.rom).value;
    WriteRowsLength(l.rows, 0, l.rom);
    if |rom| <= 0xFFFF_FFFF { LaidAll(job, table, k, 0, Start(job)); }
  }

  lemma RepackIs(job: Job, table: uint32, k: nat)
    requires Placed(job, table, k)
    ensures RepackOf(job.seed, job.original, job.patched, table) == Relaid(job)
  {
    hide EntriesFrom; hide Relaid; hide Keep; hide StoredWell; hide StoredApart; hide SpansApart; hide Listed; hide AllReadable; hide Image;
    hide StoredEnd; hide AreEntries;
    EntriesAre(job.seed, table, 0, job.was);
    EntriesAre(job.patched, table, 0, job.now);
    assert job.was[k] in job.was;
  }

  /**
   * The image of the repacked seed is the patched image if and only if that one holds nothing outside
   * its header and its files and is as long as they reach.
   */
  lemma RoundTrip(job: Job, table: uint32, k: nat)
    requires Placed(job, table, k)
    ensures var r := RepackOf(job.seed, job.original, job.patched, table);
      r.Ok? && (|r.value.rom| <= 0xFFFF_FFFF ==> (Image(r.value.rom, table) == Ok(job.patched) <==> Enclosed(job)))
  {
    hide *;
    RepackIs(job, table, k);
    var l, rom := Completes(job, table, k);
    if |rom| <= 0xFFFF_FFFF {
      if ImageEnd(job.now) <= MAX_IMAGE {
        forall p: nat | p < ImageLength(job.now)
          ensures Image(rom, table).Ok? && |Image(rom, table).value| == ImageLength(job.now)
          ensures Covered(job.now, p) ==> p < |job.patched|
          ensures Image(rom, table).value[p] == if Covered(job.now, p) then job.patched[p] else 0
        {
          PointIs(job, table, k, l, rom, p);
        }
        ImageHeader(job.now);
        PointIs(job, table, k, l, rom, 0);
        SameImage(job, Image(rom, table).value);
      } else {
        TooLong(job, table, k, l, rom);
      }
    }
  }

  lemma SameImage(job: Job, image: seq<byte>)
    requires ImageEnd(job.now) <= MAX_IMAGE && |image| == ImageLength(job.now)
    requires forall p: nat :: p < |image| ==>
      (Covered(job.now, p) ==> p < |job.patched|) && image[p] == if Covered(job.now, p) then job.patched[p] else 0
    ensures image == job.patched <==> Enclosed(job)
  {
    hide Covered;
  }

  lemma TooLong(job: Job, table: uint32, k: nat, l: Layout, rom: seq<byte>)
    requires Done(job, table, k, l, rom) && ImageEnd(job.now) > MAX_IMAGE
    ensures !Image(rom, table).Ok? && !Enclosed(job)
  {
    hide Placed; hide Laid; hide WriteRows; hide AreEntries; hide EntriesFrom; hide HasTable; hide PaintFiles; hide PaintTable; hide Covered;
    RowsStand(job, table, k, l, rom);
    EntriesAre(rom, table, 0, l.rows);
    RowsSame(job, table, k, l);
    SameImageEnd(l.rows, job.now);
  }

  /** A file the patch left alone keeps its entry and, outside the header, every byte the seed stores it as. */
  lemma KeptFiles(job: Job, table: uint32, k: nat, r: Repacked, j: nat, q: nat)
    requires Placed(job, table, k) && RepackOf(job.seed, job.original, job.patched, table) == Ok(r) && |r.rom| <= 0xFFFF_FFFF
    requires j < |job.now| && j != k && FateOf(job, j) == Kept
    ensures j < |job.was| && table + 16 * j + 16 <= |r.rom| && EntryAt(r.rom, table + 16 * j) == job.was[j]
    ensures HEADER <= q && job.was[j].romStart <= q < StoredEnd(job.was[j]) ==>
      q < |r.rom| && q < |job.seed| && r.rom[q] == job.seed[q]
  {
    hide *;
    RepackIs(job, table, k);
    var l, rom := Completes(job, table, k);
    KeptStored(job, table, k, l, rom, j);
    RowStands(job, table, k, l, rom, j);
    if HEADER <= q && job.was[j].romStart <= q < StoredEnd(job.was[j]) {
      KeptStays(job, table, k, l, rom, j, q);
    }
  }
}
