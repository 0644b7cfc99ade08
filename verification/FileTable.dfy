/**
 * Nintendo's file table ("dmadata"), and the image a seed decompresses to, in which each entry describes a
 * file stored plain at the offset equal to its vrom.
 */
module FileTable {
  import opened Bytes
  import opened Yaz0

  const ABSENT: uint32 := 0xFFFF_FFFF
  const MAX_ENTRIES: nat := 0x2000
  const MAX_IMAGE: nat := 0x0400_0000
  const HEADER: nat := 0x1000
  const CRC_END: nat := 0x0010_1000

  datatype DmaEntry = DmaEntry(at: nat, vromStart: uint32, vromEnd: uint32, romStart: uint32, romEnd: uint32)

  predicate Used(e: DmaEntry) {
    e.romStart != ABSENT
  }

  function Words(a: uint32, b: uint32, c: uint32, d: uint32): (w: seq<byte>)
    ensures |w| == 16
  {
    Put32(a) + Put32(b) + Put32(c) + Put32(d)
  }

  function EntryAt(rom: seq<byte>, at: nat): (e: DmaEntry)
    requires at + 16 <= |rom|
  {
    DmaEntry(at, Be32(rom, at), Be32(rom, at + 4), Be32(rom, at + 8), Be32(rom, at + 12))
  }

  predicate Ends(e: DmaEntry) {
    e.vromStart == 0 && e.vromEnd == 0
  }

  /** The entries from the `n`th on, up to the all-zero one that ends the table. */
  function EntriesFrom(rom: seq<byte>, table: nat, n: nat): (r: Result<seq<DmaEntry>>)
    ensures !r.Panic?
    decreases |rom| - (table + 16 * n)
  {
    var at := table + 16 * n;
    if at + 16 > |rom| then Err
    else
      var e := EntryAt(rom, at);
      if n > 0 && Ends(e) then Ok([])
      else if n + 1 > MAX_ENTRIES then Err
      else match EntriesFrom(rom, table, n + 1)
        case Ok(rest) => Ok([e] + rest)
        case _ => Err
  }

  /** The table read from offset `table` on. */
  method DmaEntries(rom: seq<byte>, table: nat) returns (r: Result<seq<DmaEntry>>)
    ensures r == EntriesFrom(rom, table, 0)
  {
    var out: seq<DmaEntry> := [];
    var at := table;
    assert forall rest: seq<DmaEntry> :: [] + rest == rest;
    while at + 16 <= |rom|
      invariant at == table + 16 * |out| && |out| <= MAX_ENTRIES
      invariant EntriesFrom(rom, table, 0)
             == match EntriesFrom(rom, table, |out|) case Ok(rest) => Ok(out + rest) case _ => Err
    {
      var e := EntryAt(rom, at);
      if Ends(e) && at > table {
        assert out + [] == out;
        return Ok(out);
      }
      ghost var was := out;
      out := out + [e];
      at := at + 16;
      assert forall rest: seq<DmaEntry> :: was + ([e] + rest) == out + rest;
      if |out| > MAX_ENTRIES { return Err; }
    }
    r := Err;
  }

  /** Exactly the entries there are: each read where it stands, and the first that ends the table not one. */
  ghost predicate AreEntries(rom: seq<byte>, table: nat, n: nat, es: seq<DmaEntry>) {
    && n + |es| <= MAX_ENTRIES && table + 16 * (n + |es|) + 16 <= |rom|
    && (forall i :: 0 <= i < |es| ==> es[i] == EntryAt(rom, table + 16 * (n + i)) && (n + i > 0 ==> !Ends(es[i])))
    && n + |es| > 0 && Ends(EntryAt(rom, table + 16 * (n + |es|)))
  }

  lemma {:induction false} EntriesAre(rom: seq<byte>, table: nat, n: nat, es: seq<DmaEntry>)
    requires n <= MAX_ENTRIES
    ensures EntriesFrom(rom, table, n) == Ok(es) <==> AreEntries(rom, table, n, es)
    decreases |rom| - (table + 16 * n)
  {
    hide EntryAt; hide AreEntries;
    var at := table + 16 * n;
    EntriesSplit(rom, table, n, es);
    if at + 16 <= |rom| && !(n > 0 && Ends(EntryAt(rom, at))) && n + 1 <= MAX_ENTRIES && es != [] {
      EntriesAre(rom, table, n + 1, es[1..]);
      assert es == [es[0]] + es[1..];
    }
  }

  /** Which are the entries from the `n`th on, by the first of them. */
  lemma EntriesSplit(rom: seq<byte>, table: nat, n: nat, es: seq<DmaEntry>)
    requires n <= MAX_ENTRIES
    ensures var at := table + 16 * n; AreEntries(rom, table, n, es) <==>
      && at + 16 <= |rom|
      && if n > 0 && Ends(EntryAt(rom, at)) then es == []
         else n + 1 <= MAX_ENTRIES && es != [] && es[0] == EntryAt(rom, at) && AreEntries(rom, table, n + 1, es[1..])
  {
    hide EntryAt;
    if es != [] {
      var rest := es[1..];
      if AreEntries(rom, table, n, es) {
        assert es[0] == EntryAt(rom, table + 16 * (n + 0));
        forall i | 0 <= i < |rest| ensures rest[i] == EntryAt(rom, table + 16 * (n + 1 + i)) && !Ends(rest[i]) {
          assert rest[i] == es[i + 1];
        }
      }
      if table + 16 * n + 16 <= |rom| && es[0] == EntryAt(rom, table + 16 * n) && !(n > 0 && Ends(es[0])) && AreEntries(rom, table, n + 1, rest) {
        forall i | 0 <= i < |es|
          ensures es[i] == EntryAt(rom, table + 16 * (n + i)) && (n + i > 0 ==> !Ends(es[i]))
        {
          if i > 0 { assert es[i] == rest[i - 1]; }
        }
      }
    }
  }

  // ---- the decompressed image ----

  /** A file's bytes, decompressed if its entry says it is stored so. */
  function FileData(rom: seq<byte>, e: DmaEntry): (r: Result<seq<byte>>)
  {
    if e.vromEnd < e.vromStart then Err
    else
      var len := e.vromEnd - e.vromStart;
      if e.romEnd == 0 then
        if e.romStart + len <= |rom| then Ok(rom[e.romStart..e.romStart + len]) else Err
      else match File(rom, e.romStart, len)
        case Ok(u) => Ok(u.out)
        case _ => Err
  }

  /** The files from the `i`th on, each put at its vrom. A file that runs past the image is a panic. */
  function PaintFiles(rom: seq<byte>, es: seq<DmaEntry>, i: nat, out: seq<byte>): (r: Result<seq<byte>>)
    decreases |es| - i
  {
    if i >= |es| then Ok(out)
    else if !Used(es[i]) then PaintFiles(rom, es, i + 1, out)
    else match FileData(rom, es[i])
      case Ok(data) =>
        if es[i].vromStart + |data| > |out| then Panic
        else PaintFiles(rom, es, i + 1, Overwrite(out, es[i].vromStart, data))
      case _ => Err
  }

  /** An entry's words once its file is uncompressed and in place. */
  function PaintedRow(e: DmaEntry): (w: seq<byte>)
    ensures |w| == 16
  {
    Words(e.vromStart, e.vromEnd, e.vromStart, 0)
  }

  /** The entries from the `i`th on, each rewritten as uncompressed and in place. */
  function PaintTable(es: seq<DmaEntry>, i: nat, out: seq<byte>): (r: Result<seq<byte>>)
    decreases |es| - i
  {
    if i >= |es| then Ok(out)
    else if !Used(es[i]) then PaintTable(es, i + 1, out)
    else if es[i].at + 16 > |out| then Panic
    else PaintTable(es, i + 1, Overwrite(out, es[i].at, PaintedRow(es[i])))
  }

  /** Where the last of the files in use ends. */
  function ImageEnd(es: seq<DmaEntry>): (end: nat)
    ensures forall e <- es :: Used(e) ==> e.vromEnd <= end
  {
    if es == [] then 0
    else
      var last := es[|es| - 1];
      assert es == es[..|es| - 1] + [last];
      Max(ImageEnd(es[..|es| - 1]), if Used(last) then last.vromEnd else 0)
  }

  function Max(a: nat, b: nat): (m: nat) {
    if a < b then b else a
  }

  predicate HasTable(es: seq<DmaEntry>, table: nat) {
    exists e <- es :: e.vromStart == table && e.romStart == table
  }

  /** The image before any file: the header, and nothing. */
  function Blank(rom: seq<byte>, len: nat): (out: seq<byte>)
    requires HEADER <= |rom| && HEADER <= len
    ensures |out| == len
  {
    rom[..HEADER] + Zeros(len - HEADER)
  }

  /** `yaz0_dmadata`: the whole image decompressed. */
  function Image(rom: seq<byte>, table: uint32): (r: Result<seq<byte>>)
  {
    match EntriesFrom(rom, table, 0)
    case Err => Err
    case Ok(es) =>
      var end := ImageEnd(es);
      if !HasTable(es, table) || end > MAX_IMAGE then Err
      else if |rom| < HEADER then Panic
      else (match PaintFiles(rom, es, 0, Blank(rom, ImageLength(es)))
        case Ok(out) => PaintTable(es, 0, out)
        case bad => bad)
    case Panic => Panic
  }

  /** The bytes of one file: copied as they are, or decompressed. */
  method ReadFile(rom: seq<byte>, e: DmaEntry) returns (r: Result<seq<byte>>)
    ensures r == FileData(rom, e)
  {
    hide File;
    if e.vromEnd < e.vromStart { return Err; }
    var len := e.vromEnd - e.vromStart;
    if e.romEnd == 0 {
      if e.romStart + len > |rom| { return Err; }
      return Ok(rom[e.romStart..e.romStart + len]);
    }
    r := Decompress(rom, e.romStart, len);
    if !r.Ok? { r := Err; }
  }

  method EndOf(entries: seq<DmaEntry>) returns (end: nat)
    ensures end == ImageEnd(entries)
  {
    end := 0;
    for i := 0 to |entries|
      invariant end == ImageEnd(entries[..i])
    {
      assert entries[..i + 1][..i] == entries[..i];
      if Used(entries[i]) && end < entries[i].vromEnd { end := entries[i].vromEnd; }
    }
    assert entries[..|entries|] == entries;
  }

  method Yaz0Dmadata(rom: seq<byte>, table: uint32) returns (r: Result<seq<byte>>)
    ensures r == Image(rom, table)
  {
    hide EntriesFrom; hide Overwrite; hide FileData; hide Blank; hide HasTable; hide ImageEnd; hide PaintedRow;
    var es := DmaEntries(rom, table);
    if !es.Ok? { return Err; }
    var entries := es.value;
    if !HasTable(entries, table) { return Err; }
    var end := EndOf(entries);
    if end > MAX_IMAGE { return Err; }
    if |rom| < HEADER { return Panic; }
    var blank := Blank(rom, Max(end, CRC_END));
    var out := blank;
    for i := 0 to |entries|
      invariant PaintFiles(rom, entries, 0, blank) == PaintFiles(rom, entries, i, out)
    {
      var e := entries[i];
      if !Used(e) { continue; }
      var data := ReadFile(rom, e);
      if !data.Ok? { return Err; }
      if e.vromStart + |data.value| > |out| { return Panic; }
      out := Overwrite(out, e.vromStart, data.value);
    }
    ghost var painted := out;
    for i := 0 to |entries|
      invariant PaintTable(entries, 0, painted) == PaintTable(entries, i, out)
    {
      var e := entries[i];
      if !Used(e) { continue; }
      if e.at + 16 > |out| { return Panic; }
      out := Overwrite(out, e.at, PaintedRow(e));
    }
    r := Ok(out);
  }

  // ---- what the image holds ----

  /** What reading the file gives, empty where that fails. */
  function Data(rom: seq<byte>, e: DmaEntry): (d: seq<byte>) {
    match FileData(rom, e) case Ok(d) => d case _ => []
  }

  predicate HasByte(rom: seq<byte>, e: DmaEntry, p: nat) {
    Used(e) && e.vromStart <= p < e.vromStart + |Data(rom, e)|
  }

  /** A file that can be read, no longer than its span, its span inside an image of `len` bytes. */
  predicate Readable(rom: seq<byte>, e: DmaEntry, len: nat) {
    && FileData(rom, e).Ok? && e.vromStart <= e.vromEnd && e.vromEnd as int <= len
    && |Data(rom, e)| <= e.vromEnd - e.vromStart
  }

  predicate Apart(a: nat, b: nat, c: nat, d: nat) {
    b <= c || d <= a || b <= a || d <= c
  }

  ghost predicate SpansApart(es: seq<DmaEntry>) {
    forall i, j :: 0 <= i < j < |es| && Used(es[i]) && Used(es[j]) ==>
      Apart(es[i].vromStart, es[i].vromEnd, es[j].vromStart, es[j].vromEnd)
  }

  ghost predicate AllReadable(rom: seq<byte>, es: seq<DmaEntry>, len: nat) {
    forall i :: 0 <= i < |es| && Used(es[i]) ==> Readable(rom, es[i], len)
  }

  ghost predicate AtTheirPlace(table: nat, es: seq<DmaEntry>) {
    forall i :: 0 <= i < |es| ==> es[i].at == table + 16 * i
  }

  /** No file in use has its entry over `p`. */
  ghost predicate OffRecords(es: seq<DmaEntry>, p: nat) {
    forall i :: 0 <= i < |es| && Used(es[i]) ==> !(es[i].at <= p < es[i].at + 16)
  }

  lemma {:induction false} PaintFilesAt(rom: seq<byte>, es: seq<DmaEntry>, i: nat, out: seq<byte>, j: nat, p: nat)
    requires AllReadable(rom, es, |out|) && SpansApart(es) && p < |out|
    requires j < |es| ==> HasByte(rom, es[j], p)
    requires j >= |es| ==> forall k :: 0 <= k < |es| ==> !HasByte(rom, es[k], p)
    ensures PaintFiles(rom, es, i, out).Ok? && |PaintFiles(rom, es, i, out).value| == |out|
    ensures PaintFiles(rom, es, i, out).value[p]
         == if i <= j < |es| then Data(rom, es[j])[p - es[j].vromStart] else out[p]
    decreases |es| - i
  {
    hide FileData; hide SpansApart;
    if i < |es| {
      var e := es[i];
      if !Used(e) {
        PaintFilesAt(rom, es, i + 1, out, j, p);
      } else {
        assert Readable(rom, e, |out|);
        PaintFilesAt(rom, es, i + 1, Overwrite(out, e.vromStart, Data(rom, e)), j, p);
        if j < |es| && j != i { NotBoth(rom, es, i, j, p, |out|); }
      }
    }
  }

  lemma NotBoth(rom: seq<byte>, es: seq<DmaEntry>, i: nat, j: nat, p: nat, len: nat)
    requires i < |es| && j < |es| && i != j && Used(es[i]) && Readable(rom, es[i], len) && Readable(rom, es[j], len)
    requires SpansApart(es) && HasByte(rom, es[j], p)
    ensures !HasByte(rom, es[i], p)
  {
    hide FileData;
  }

  lemma {:induction false} PaintTableAt(table: nat, es: seq<DmaEntry>, i: nat, out: seq<byte>, j: nat, p: nat)
    requires AtTheirPlace(table, es) && table + 16 * |es| <= |out| && p < |out|
    requires j < |es| ==> Used(es[j]) && es[j].at <= p < es[j].at + 16
    requires j >= |es| ==> OffRecords(es, p)
    ensures PaintTable(es, i, out).Ok? && |PaintTable(es, i, out).value| == |out|
    ensures PaintTable(es, i, out).value[p]
         == if i <= j < |es| then PaintedRow(es[j])[p - es[j].at] else out[p]
    decreases |es| - i
  {
    hide Words;
    if i < |es| {
      var e := es[i];
      PaintTableAt(table, es, i + 1, if Used(e) then Overwrite(out, e.at, PaintedRow(e)) else out, j, p);
    }
  }

  /** Everything an image is made from is there, and no two files want the same byte of it. */
  ghost predicate Sound(rom: seq<byte>, table: uint32, es: seq<DmaEntry>) {
    && AreEntries(rom, table, 0, es) && HasTable(es, table) && ImageEnd(es) <= MAX_IMAGE && HEADER <= |rom|
    && AllReadable(rom, es, ImageLength(es)) && SpansApart(es) && table as int + 16 * |es| <= ImageLength(es)
  }

  function ImageLength(es: seq<DmaEntry>): (len: nat) {
    Max(ImageEnd(es), CRC_END)
  }

  /** A sound seed has an image of `ImageLength` bytes, and this is what its byte `p` is. */
  lemma ImageIs(rom: seq<byte>, table: uint32, es: seq<DmaEntry>, j: nat, r: nat, p: nat)
    requires Sound(rom, table, es) && p < ImageLength(es)
    requires j < |es| ==> HasByte(rom, es[j], p)
    requires j >= |es| ==> forall k :: 0 <= k < |es| ==> !HasByte(rom, es[k], p)
    requires r < |es| ==> Used(es[r]) && es[r].at <= p < es[r].at + 16
    requires r >= |es| ==> OffRecords(es, p)
    ensures Image(rom, table).Ok? && |Image(rom, table).value| == ImageLength(es)
    ensures Image(rom, table).value[p]
         == if r < |es| then PaintedRow(es[r])[p - es[r].at]
            else if j < |es| then Data(rom, es[j])[p - es[j].vromStart]
            else Blank(rom, ImageLength(es))[p]
  {
    hide EntriesFrom; hide HasByte; hide Data; hide Blank; hide PaintedRow; hide HasTable; hide PaintFiles; hide PaintTable;
    EntriesAre(rom, table, 0, es);
    var blank := Blank(rom, ImageLength(es));
    PaintFilesAt(rom, es, 0, blank, j, p);
    var painted := PaintFiles(rom, es, 0, blank).value;
    PaintTableAt(table, es, 0, painted, r, p);
  }
}
