/** A profile applied to a seed as it is stored: one with a transform is applied to its image, and that laid back over it. */
module LayBack {
  import opened Bytes
  import opened PatchProfile
  import opened Checksum
  import opened Patcher
  import opened PatchWrites
  import opened Patching
  import opened SumsAside
  import FileTable
  import Repack
  import RepackRoundTrip

  /** Where laying an image back can stop. */
  datatype Stage = Repacking | Decompressing | Comparing | Booting

  datatype Ending = Output(rom: seq<byte>) | Declined | Stopped(why: Why) | NotLaidBack(at: Stage) | Panicked

  /** What the checks and the writes are of. */
  function Prepared(b: Bundle, rom: seq<byte>): (r: Result<seq<byte>>) {
    match b.profile.transform
    case None => Ok(rom)
    case Some(table) => FileTable.Image(rom, table)
  }

  /** What the output decompresses to, with the checksum `image` stores in place of its own. */
  function Read(seen: seq<byte>, image: seq<byte>): (r: seq<byte>)
    requires CRC_END <= |image|
  {
    if |seen| < CRC_OFFSET + 8 then seen
    else seen[..CRC_OFFSET] + image[CRC_OFFSET..CRC_OFFSET + 8] + seen[CRC_OFFSET + 8..]
  }

  /** A ROM read back: kept if its image is the patched one and it boots. */
  function Kept(b: Bundle, out: seq<byte>, image: seq<byte>, table: uint32): (e: Ending)
    requires CRC_END <= |image| && CRC_END <= |out|
    ensures !e.Declined? && !e.Stopped?
  {
    match FileTable.Image(out, table)
    case Err => NotLaidBack(Decompressing)
    case Panic => Panicked
    case Ok(seen) =>
      if Read(seen, image) != image then NotLaidBack(Comparing)
      else if Identify(b, out) != Some(b.cic) || Stored(out) != Compute(out, b.cic) then NotLaidBack(Booting)
      else Output(out)
  }

  /** The ROM a patched image comes to: laid over the seed, summed, and read back. */
  function LaidBack(b: Bundle, seed: seq<byte>, original: seq<byte>, image: seq<byte>, table: uint32): (e: Ending)
    requires CRC_END <= |image|
    ensures !e.Declined? && !e.Stopped?
  {
    match Repack.RepackOf(seed, original, image, table)
    case Err => NotLaidBack(Repacking)
    case Panic => Panicked
    case Ok(r) => if |r.rom| < CRC_END then Panicked else Kept(b, WithSums(r.rom, Compute(r.rom, b.cic)), image, table)
  }

  method LayOver(b: Bundle, seed: seq<byte>, original: seq<byte>, image: seq<byte>, table: uint32) returns (e: Ending)
    requires CRC_END <= |image|
    ensures e == LaidBack(b, seed, original, image, table)
  {
    hide Repack.RepackOf; hide FileTable.Image; hide WithSums; hide Compute; hide Stored; hide Identify;
    var r := Repack.Repack(seed, original, image, table);
    if r.Err? { return NotLaidBack(Repacking); }
    if r.Panic? || |r.value.rom| < CRC_END { return Panicked; }
    var out := Fix(r.value.rom, b.cic);
    var seen := FileTable.Yaz0Dmadata(out, table);
    if seen.Err? { return NotLaidBack(Decompressing); }
    if seen.Panic? { return Panicked; }
    if Read(seen.value, image) != image { return NotLaidBack(Comparing); }
    if Identify(b, out) != Some(b.cic) || Stored(out) != Compute(out, b.cic) { return NotLaidBack(Booting); }
    e := Output(out);
  }

  /** What `image` must be for it to be laid back: what the profile's writes make of `input`, sound, and booting. */
  ghost predicate Finished(b: Bundle, input: seq<byte>, found: Found, image: seq<byte>)
    requires Carries(b)
  {
    Verified(b, input, found) && Written(b, input, found, image) && Sound(b, input, found, image) && Identify(b, image) == Some(b.cic)
  }

  /** A seed is declined exactly when it cannot be decompressed or fails a check; no output is of an unfinished image. */
  method ApplyTo(b: Bundle, rom: seq<byte>) returns (e: Ending, ghost found: Found, ghost image: seq<byte>)
    requires Accepted(b.profile) && Carries(b)
    ensures var input := Prepared(b, rom);
      && (e.Declined? <==> input.Err? || (input.Ok? && forall f :: !Verified(b, input.value, f)))
      && (input.Panic? ==> e.Panicked?)
      && (e.Output? || e.NotLaidBack? ==> input.Ok? && Finished(b, input.value, found, image) && CRC_END <= |image|)
      && (e.Stopped? ==> input.Ok? && Verified(b, input.value, found) && e.why != Unexpected)
    ensures b.profile.transform == None ==> !e.NotLaidBack? && (e.Output? ==> e.rom == image)
    ensures b.profile.transform.Some? && (e.Output? || e.NotLaidBack?) ==>
      e == LaidBack(b, rom, Prepared(b, rom).value, image, b.profile.transform.value)
  {
    hide Accepted; hide Carries; hide Verified; hide Written; hide Sound; hide Identify; hide FileTable.Image; hide LaidBack;
    found, image := map[], [];
    var input := rom;
    if b.profile.transform.Some? {
      var whole := FileTable.Yaz0Dmadata(rom, b.profile.transform.value);
      if whole.Err? { return Declined, found, image; }
      if whole.Panic? { return Panicked, found, image; }
      input := whole.value;
    }
    var r;
    r, found := Apply(b, input);
    match r
    case Refused => e := Declined;
    case Internal(why) => e := Stopped(why);
    case Panics => e := Panicked;
    case Patched(done) =>
      LongEnough(b, input, found, done);
      e, image := Output(done), done;
    case ToLayBack(done) =>
      LongEnough(b, input, found, done);
      image := done;
      e := LayOver(b, rom, input, done, b.profile.transform.value);
  }

  lemma LongEnough(b: Bundle, input: seq<byte>, found: Found, image: seq<byte>)
    requires Carries(b) && Written(b, input, found, image)
    ensures CRC_END <= |image|
  {
    hide Stored; hide Compute; hide ImageOf; hide Carries;
  }

  // ---- when it goes through ----

  /** Storing the checksum leaves the boot code, and the rest of the header the image has. */
  lemma SummedBoots(b: Bundle, image: seq<byte>, rom: seq<byte>)
    requires CRC_END <= |rom| && CRC_END <= |image| && Identify(b, image) == Some(b.cic)
    requires forall p :: 0 <= p < FileTable.HEADER ==> rom[p] == image[p]
    ensures var out := WithSums(rom, Compute(rom, b.cic));
      ButSums(rom, out) && Identify(b, out) == Some(b.cic) && Stored(out) == Compute(out, b.cic)
  {
    hide Compute; hide Stored; hide WithSums; hide Identify;
    SumsStored(rom, b.cic);
    BootsAlike(b, image, WithSums(rom, Compute(rom, b.cic)));
  }

  lemma BootsAlike(b: Bundle, image: seq<byte>, out: seq<byte>)
    requires CRC_START <= |out| && CRC_START <= |image| && forall p :: 0x40 <= p < CRC_START ==> out[p] == image[p]
    ensures Identify(b, out) == Identify(b, image)
  {
    assert out[0x40..CRC_START] == image[0x40..CRC_START];
  }

  /**
   * A patched image of a well stored seed goes out exactly when its header and its files are all of it: what it holds
   * elsewhere is found missing when the ROM is read back. Nothing else stops it but files past what an image may hold.
   */
  lemma LaysBackIff(b: Bundle, job: Repack.Job, table: uint32, k: nat)
    requires RepackRoundTrip.Placed(job, table, k) && CRC_END <= |job.patched| && Identify(b, job.patched) == Some(b.cic)
    ensures var r := Repack.RepackOf(job.seed, job.original, job.patched, table);
      var e := LaidBack(b, job.seed, job.original, job.patched, table);
      && r.Ok? && (CRC_END <= |job.seed| ==> CRC_END <= |r.value.rom|) && (|r.value.rom| < CRC_END ==> e.Panicked?)
      && (CRC_END <= |r.value.rom| <= 0xFFFF_FFFF ==>
           && (e.Output? <==> RepackRoundTrip.Enclosed(job))
           && (e == NotLaidBack(Decompressing) <==> FileTable.ImageEnd(job.now) > FileTable.MAX_IMAGE)
           && (e == NotLaidBack(Comparing) <==> FileTable.ImageEnd(job.now) <= FileTable.MAX_IMAGE && !RepackRoundTrip.Enclosed(job)))
  {
    hide *;
    RepackRoundTrip.RepackIs(job, table, k);
    var l, rom := RepackRoundTrip.Completes(job, table, k);
    KeepReaches(job);
    if |rom| <= 0xFFFF_FFFF {
      RepackRoundTrip.DoneLength(job, table, k, l, rom);
      RepackRoundTrip.LaidKeep(job, |job.now|, l);
    }
    LaidBackIs(b, job, table, rom, l.kept, l.moved);
    if CRC_END <= |rom| <= 0xFFFF_FFFF {
      forall p | 0 <= p < FileTable.HEADER ensures p < |rom| && p < |job.patched| && rom[p] == job.patched[p] {
        RepackRoundTrip.RomHeader(job, table, k, l, rom, p);
      }
      SummedBoots(b, job.patched, rom);
      var out := WithSums(rom, Compute(rom, b.cic));
      if FileTable.ImageEnd(job.now) <= FileTable.MAX_IMAGE {
        ReadsBack(job, table, k, l, rom, out);
      } else {
        TooLong(job, table, k, l, rom, out);
      }
    }
  }

  lemma KeepReaches(job: Repack.Job)
    ensures CRC_END <= |job.seed| ==> CRC_END <= Repack.Keep(job.seed, job.was)
    ensures CRC_END <= 0xFFFF_FFFF
  {}

  lemma LaidBackIs(b: Bundle, job: Repack.Job, table: uint32, rom: seq<byte>, kept: nat, moved: seq<(uint32, uint32, uint32)>)
    requires Repack.RepackOf(job.seed, job.original, job.patched, table) == Ok(Repack.Repacked(rom, kept, moved))
    requires CRC_END <= |job.patched|
    ensures var e := LaidBack(b, job.seed, job.original, job.patched, table);
      if |rom| < CRC_END then e == Panicked
      else
        var out := WithSums(rom, Compute(rom, b.cic));
        match FileTable.Image(out, table)
        case Err => e == NotLaidBack(Decompressing)
        case Panic => e == Panicked
        case Ok(seen) =>
          && (e == NotLaidBack(Comparing) <==> Read(seen, job.patched) != job.patched)
          && (Identify(b, out) == Some(b.cic) && Stored(out) == Compute(out, b.cic) && Read(seen, job.patched) == job.patched ==> e == Output(out))
          && e != NotLaidBack(Decompressing)
  {
    hide Repack.RepackOf; hide FileTable.Image; hide WithSums; hide Compute; hide Stored; hide Identify; hide Read;
  }

  /** Read back, the ROM's image is the patched one exactly when that is enclosed. */
  lemma ReadsBack(job: Repack.Job, table: uint32, k: nat, l: Repack.Layout, rom: seq<byte>, out: seq<byte>)
    requires RepackRoundTrip.Done(job, table, k, l, rom) && ButSums(rom, out)
    requires FileTable.ImageEnd(job.now) <= FileTable.MAX_IMAGE && CRC_END <= |job.patched|
    ensures FileTable.Image(out, table).Ok?
    ensures Read(FileTable.Image(out, table).value, job.patched) == job.patched <==> RepackRoundTrip.Enclosed(job)
  {
    hide *;
    forall p: nat | p < FileTable.ImageLength(job.now)
      ensures FileTable.Image(out, table).Ok? && |FileTable.Image(out, table).value| == FileTable.ImageLength(job.now)
      ensures RepackRoundTrip.Covered(job.now, p) ==> p < |job.patched|
      ensures !SumByte(p) ==>
        FileTable.Image(out, table).value[p] == if RepackRoundTrip.Covered(job.now, p) then job.patched[p] else 0
    {
      OutByte(job, table, k, l, rom, out, p);
    }
    Reach(job.now);
    OutByte(job, table, k, l, rom, out, 0);
    var seen := FileTable.Image(out, table).value;
    ReadIs(job.now, seen, job.patched);
    RepackRoundTrip.SameImage(job, Read(seen, job.patched));
  }

  lemma Reach(es: seq<FileTable.DmaEntry>)
    ensures 0 < CRC_END <= FileTable.ImageLength(es)
  {}

  lemma OutByte(job: Repack.Job, table: uint32, k: nat, l: Repack.Layout, rom: seq<byte>, out: seq<byte>, p: nat)
    requires RepackRoundTrip.Done(job, table, k, l, rom) && ButSums(rom, out)
    requires FileTable.ImageEnd(job.now) <= FileTable.MAX_IMAGE && p < FileTable.ImageLength(job.now)
    ensures FileTable.Image(out, table).Ok? && |FileTable.Image(out, table).value| == FileTable.ImageLength(job.now)
    ensures RepackRoundTrip.Covered(job.now, p) ==> p < |job.patched|
    ensures !SumByte(p) ==>
      FileTable.Image(out, table).value[p] == if RepackRoundTrip.Covered(job.now, p) then job.patched[p] else 0
  {
    hide *;
    RepackRoundTrip.RomSound(job, table, k, l, rom);
    RepackRoundTrip.PointIs(job, table, k, l, rom, p);
    RepackRoundTrip.DoneLength(job, table, k, l, rom);
    RepackRoundTrip.TableFits(job, table, k);
    RowsOff(job, table, k, l, rom);
    ImageAlike(rom, out, table, l.rows, p);
  }

  lemma RowsOff(job: Repack.Job, table: uint32, k: nat, l: Repack.Layout, rom: seq<byte>)
    requires RepackRoundTrip.Done(job, table, k, l, rom) && RepackRoundTrip.SameFiles(l.rows, job.now)
    ensures AllOffSums(rom, l.rows)
  {
    hide *;
    forall i | 0 <= i < |l.rows| && FileTable.Used(l.rows[i]) ensures OffSums(rom, l.rows[i]) {
      Counted(l.rows, job.now);
      RepackRoundTrip.SameUsed(l.rows, job.now, i);
      RowOff(job, table, k, l, rom, i);
    }
    AllOffIf(rom, l.rows);
  }

  lemma Counted(a: seq<FileTable.DmaEntry>, b: seq<FileTable.DmaEntry>)
    requires RepackRoundTrip.SameFiles(a, b)
    ensures |a| == |b|
  {}

  lemma AllOffIf(rom: seq<byte>, es: seq<FileTable.DmaEntry>)
    requires forall i :: 0 <= i < |es| && FileTable.Used(es[i]) ==> OffSums(rom, es[i])
    ensures AllOffSums(rom, es)
  {}

  /** The checksum aside, reading back changes nothing, and the checksum is in the header. */
  lemma ReadIs(es: seq<FileTable.DmaEntry>, seen: seq<byte>, image: seq<byte>)
    requires CRC_END <= |seen| && CRC_END <= |image|
    requires forall p: nat :: p < |seen| && RepackRoundTrip.Covered(es, p) ==> p < |image|
    requires forall p: nat :: p < |seen| && !SumByte(p) ==> seen[p] == if RepackRoundTrip.Covered(es, p) then image[p] else 0
    ensures |Read(seen, image)| == |seen|
    ensures forall p: nat :: p < |seen| ==> Read(seen, image)[p] == if RepackRoundTrip.Covered(es, p) then image[p] else 0
  {
    forall p: nat | p < |seen| && SumByte(p) ensures RepackRoundTrip.Covered(es, p) {}
    hide RepackRoundTrip.Covered;
  }

  lemma TooLong(job: Repack.Job, table: uint32, k: nat, l: Repack.Layout, rom: seq<byte>, out: seq<byte>)
    requires RepackRoundTrip.Done(job, table, k, l, rom) && ButSums(rom, out) && FileTable.ImageEnd(job.now) > FileTable.MAX_IMAGE
    ensures FileTable.Image(out, table) == Err && !RepackRoundTrip.Enclosed(job)
  {
    hide *;
    RepackRoundTrip.DoneLength(job, table, k, l, rom);
    RepackRoundTrip.TableFits(job, table, k);
    RepackRoundTrip.TooLong(job, table, k, l, rom);
    RepackRoundTrip.RowsStand(job, table, k, l, rom);
    EntriesAlike(rom, out, table, l.rows);
    RepackRoundTrip.RowsSame(job, table, k, l);
    RepackRoundTrip.SameImageEnd(l.rows, job.now);
    Unread(out, table, l.rows);
  }

  lemma Unread(rom: seq<byte>, table: uint32, es: seq<FileTable.DmaEntry>)
    requires FileTable.AreEntries(rom, table, 0, es) && FileTable.ImageEnd(es) > FileTable.MAX_IMAGE
    ensures FileTable.Image(rom, table) == Err
  {
    hide FileTable.AreEntries; hide FileTable.EntriesFrom; hide FileTable.HasTable; hide FileTable.PaintFiles; hide FileTable.PaintTable;
    FileTable.EntriesAre(rom, table, 0, es);
  }
}
