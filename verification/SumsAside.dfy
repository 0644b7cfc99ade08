/** The checksum a repacked ROM stores is its own, not the image's: all it changes of what the ROM decompresses to. */
module SumsAside {
  import opened Bytes
  import opened FileTable
  import opened Repack
  import opened RepackRoundTrip
  import Checksum
  import Yaz0

  predicate SumByte(p: nat) {
    Checksum.CRC_OFFSET <= p < Checksum.CRC_OFFSET + 8
  }

  /** The same but for the checksum stored. */
  ghost predicate ButSums(a: seq<byte>, b: seq<byte>) {
    |a| == |b| && forall p :: 0 <= p < |a| && !SumByte(p) ==> a[p] == b[p]
  }

  /** A file stored over the header is in place there; a compressed one is past it, with room for a header of its own. */
  predicate OffSums(rom: seq<byte>, e: DmaEntry) {
    if e.romEnd == 0 then e.romStart < HEADER && e.vromStart < e.vromEnd ==> e.romStart == e.vromStart
    else HEADER <= e.romStart && e.romStart as int + 16 <= |rom|
  }

  lemma PlainAlike(rom: seq<byte>, out: seq<byte>, e: DmaEntry, len: nat, p: nat)
    requires ButSums(rom, out) && Readable(rom, e, len) && OffSums(rom, e) && e.romEnd == 0
    ensures Readable(out, e, len) && |Data(out, e)| == |Data(rom, e)|
    ensures e.vromStart <= p < e.vromStart + |Data(rom, e)| && !SumByte(p) ==> Data(out, e)[p - e.vromStart] == Data(rom, e)[p - e.vromStart]
  {
    PlainData(rom, e, p);
    PlainData(out, e, p);
  }

  lemma PackedAlike(rom: seq<byte>, out: seq<byte>, e: DmaEntry, len: nat)
    requires ButSums(rom, out) && Readable(rom, e, len) && OffSums(rom, e) && e.romEnd != 0
    ensures Readable(out, e, len) && Data(out, e) == Data(rom, e)
  {
    Yaz0.FileReadsOnly(rom, out, e.romStart, e.vromEnd - e.vromStart);
    hide Yaz0.File;
  }

  lemma DataAlike(rom: seq<byte>, out: seq<byte>, e: DmaEntry, len: nat, p: nat)
    requires ButSums(rom, out) && Readable(rom, e, len) && OffSums(rom, e)
    ensures Readable(out, e, len) && |Data(out, e)| == |Data(rom, e)|
    ensures e.vromStart <= p < e.vromStart + |Data(rom, e)| && !SumByte(p) ==> Data(out, e)[p - e.vromStart] == Data(rom, e)[p - e.vromStart]
  {
    hide *;
    if e.romEnd == 0 { PlainAlike(rom, out, e, len, p); } else { PackedAlike(rom, out, e, len); }
  }

  lemma EntriesAlike(rom: seq<byte>, out: seq<byte>, table: nat, es: seq<DmaEntry>)
    requires AreEntries(rom, table, 0, es) && ButSums(rom, out) && HEADER <= table
    ensures AreEntries(out, table, 0, es)
  {
    hide EntryAt; hide Ends;
    forall i | 0 <= i <= |es| ensures EntryAt(out, table + 16 * i) == EntryAt(rom, table + 16 * i) {
      SameEntry(out, rom, table + 16 * i);
    }
    assert forall i :: 0 <= i < |es| ==> es[i] == EntryAt(rom, table + 16 * (0 + i));
    AreEntriesIf(out, table, es);
  }

  /** Every file in use is off the checksum, or over it in place. */
  ghost predicate AllOffSums(rom: seq<byte>, es: seq<DmaEntry>) {
    forall i :: 0 <= i < |es| && Used(es[i]) ==> OffSums(rom, es[i])
  }

  lemma SoundAlike(rom: seq<byte>, out: seq<byte>, table: uint32, es: seq<DmaEntry>)
    requires Sound(rom, table, es) && ButSums(rom, out) && HEADER <= table as int && AllOffSums(rom, es)
    ensures Sound(out, table, es)
  {
    hide AreEntries; hide HasTable; hide SpansApart; hide Readable; hide OffSums; hide ImageEnd;
    EntriesAlike(rom, out, table, es);
    forall i | 0 <= i < |es| && Used(es[i]) ensures Readable(out, es[i], ImageLength(es)) {
      assert Readable(rom, es[i], ImageLength(es));
      DataAlike(rom, out, es[i], ImageLength(es), 0);
    }
  }

  /** Byte for byte the images are the same, but for the checksum stored. */
  lemma ImageAlike(rom: seq<byte>, out: seq<byte>, table: uint32, es: seq<DmaEntry>, p: nat)
    requires Sound(rom, table, es) && ButSums(rom, out) && HEADER <= table as int && AllOffSums(rom, es) && p < ImageLength(es)
    ensures Image(rom, table).Ok? && |Image(rom, table).value| == ImageLength(es)
    ensures Image(out, table).Ok? && |Image(out, table).value| == ImageLength(es)
    ensures !SumByte(p) ==> Image(out, table).value[p] == Image(rom, table).value[p]
  {
    SoundAlike(rom, out, table, es);
    hide Sound; hide Image; hide PaintedRow; hide OffSums; hide Blank; hide HasByte; hide Data;
    var j := Holder(rom, out, table, es, p);
    var r := if k :| 0 <= k < |es| && Used(es[k]) && es[k].at <= p < es[k].at + 16 then k else |es|;
    ImageIs(rom, table, es, j, r, p);
    ImageIs(out, table, es, j, r, p);
    BlankAlike(rom, out, table, es, p);
  }

  /** The file that holds `p`, the same one in both, and the same byte. */
  lemma Holder(rom: seq<byte>, out: seq<byte>, table: uint32, es: seq<DmaEntry>, p: nat) returns (j: nat)
    requires Sound(rom, table, es) && ButSums(rom, out) && AllOffSums(rom, es)
    ensures j < |es| ==> HasByte(rom, es[j], p) && HasByte(out, es[j], p)
    ensures j < |es| && !SumByte(p) ==> Data(out, es[j])[p - es[j].vromStart] == Data(rom, es[j])[p - es[j].vromStart]
    ensures j >= |es| ==> forall k :: 0 <= k < |es| ==> !HasByte(rom, es[k], p) && !HasByte(out, es[k], p)
  {
    hide AreEntries; hide HasTable; hide SpansApart; hide Readable; hide OffSums; hide ImageEnd; hide Data; hide ButSums;
    forall k | 0 <= k < |es| ensures HasByte(rom, es[k], p) <==> HasByte(out, es[k], p) {
      if Used(es[k]) {
        assert Readable(rom, es[k], ImageLength(es));
        DataAlike(rom, out, es[k], ImageLength(es), p);
      }
    }
    j := |es|;
    if k :| 0 <= k < |es| && HasByte(rom, es[k], p) {
      assert Readable(rom, es[k], ImageLength(es));
      DataAlike(rom, out, es[k], ImageLength(es), p);
      j := k;
    }
  }

  lemma BlankAlike(rom: seq<byte>, out: seq<byte>, table: uint32, es: seq<DmaEntry>, p: nat)
    requires Sound(rom, table, es) && Sound(out, table, es) && ButSums(rom, out) && p < ImageLength(es)
    ensures HEADER <= |rom| && HEADER <= |out| && HEADER <= ImageLength(es)
    ensures !SumByte(p) ==> Blank(out, ImageLength(es))[p] == Blank(rom, ImageLength(es))[p]
  {
    hide AreEntries; hide HasTable; hide SpansApart; hide AllReadable; hide ImageEnd;
  }

  // ---- of a repacked ROM ----

  /** A row of the repacked table is of a file off the checksum, or over it in place. */
  lemma RowOff(job: Job, table: uint32, k: nat, l: Layout, rom: seq<byte>, j: nat)
    requires Done(job, table, k, l, rom) && j < |job.now| && Used(job.now[j])
    ensures |l.rows| == |job.now| && OffSums(rom, l.rows[j])
  {
    hide *;
    DoneLength(job, table, k, l, rom);
    LaidIs(job, l, j);
    LaidKeep(job, |job.now|, l);
    TableKept(job, table, k);
    NowIs(job, table, k, j);
    UsedFate(job, j);
    if FateOf(job, j) == Moved {
      MovedOff(job, l, rom, j);
    } else {
      FateIs(job, j);
      WasOff(job, table, k, l, rom, j);
    }
  }

  lemma MovedOff(job: Job, l: Layout, rom: seq<byte>, j: nat)
    requires j < |job.now| && FateOf(job, j) == Moved && j < |l.rows| && RowRight(job, j, l.rom, l.rows[j])
    requires HEADER <= Keep(job.seed, job.was)
    ensures OffSums(rom, l.rows[j])
  {
    hide Keep; hide FateOf;
  }

  lemma WasOff(job: Job, table: uint32, k: nat, l: Layout, rom: seq<byte>, j: nat)
    requires Placed(job, table, k) && j < |job.now| && j < |l.rows| && RowRight(job, j, l.rom, l.rows[j])
    requires (FateOf(job, j) == Kept || FateOf(job, j) == InPlace) && j < |job.was| && Used(job.was[j])
    requires job.was[j].vromStart == job.now[j].vromStart && job.was[j].vromEnd == job.now[j].vromEnd
    requires FateOf(job, j) == InPlace ==> job.was[j].romEnd == 0
    requires Keep(job.seed, job.was) <= |rom|
    ensures OffSums(rom, l.rows[j])
  {
    var e := job.was[j];
    KeepCovers(job, table, k, j);
    StoredOff(job, table, k, j);
    hide Placed; hide Keep; hide FateOf; hide PlainAt;
  }

  lemma StoredOff(job: Job, table: uint32, k: nat, j: nat)
    requires Placed(job, table, k) && j < |job.was| && Used(job.was[j])
    ensures var e := job.was[j];
      && (e.romEnd == 0 && e.romStart < HEADER && e.vromStart < e.vromEnd ==> e.romStart == e.vromStart)
      && (e.romEnd != 0 ==> HEADER <= e.romStart && e.romStart as int + 16 <= StoredEnd(e))
  {
    hide *;
    var e := job.was[j];
    SeedFileIs(job, table, k, j);
    if e.romEnd != 0 { Yaz0.FileLength(job.seed, e.romStart, e.vromEnd - e.vromStart); }
  }
}
