/**
 * A profile that is accepted and a seed that passes it, patched into an image that cannot be laid back: the agent is
 * appended to it and no file table entry made for it.
 */
module LayBackExample {
  import opened Bytes
  import opened PatchProfile
  import opened Checksum
  import opened Patcher
  import opened Immediates
  import opened PatchWrites
  import opened Patching
  import opened LayBack
  import FileTable
  import Repack
  import RepackRoundTrip
  import RepackExample

  function Unlisted(): (b: Bundle)
    ensures b.cic == Cic6102 && b.profile.transform == Some(RepackExample.TABLE)
  {
    Bundle(Profile([], [], [], Agent("agent", CRC_END, None, 0, None), Some(RepackExample.TABLE)),
           map["agent" := [1, 2, 3, 4]], 0, Cic6102, bytes => 0, bytes => Some(Cic6102), bytes => true)
  }

  lemma IsAccepted()
    ensures Accepted(Unlisted().profile) && Carries(Unlisted()) && !Moves(Unlisted().profile)
  {}

  lemma IsVerified(seed: seq<byte>)
    requires |seed| == CRC_END
    ensures Verified(Unlisted(), seed, map[]) && AgentPlace(Unlisted().profile, seed) == CRC_END
  {
    IsAccepted();
    assert Restored(Unlisted().profile, seed, 0) == seed;
  }

  /** The seed, and the agent behind it. */
  lemma IsAppended(seed: seq<byte>) returns (image: seq<byte>)
    requires |seed| == CRC_END
    ensures Carries(Unlisted()) && ImageOf(Unlisted(), seed, map[]) == Done(image)
    ensures |image| > CRC_END && forall i :: 0 <= i < CRC_END ==> image[i] == seed[i]
  {
    var b := Unlisted();
    IsAccepted();
    IsVerified(seed);
    hide Accepted; hide Verified; hide AgentPlace; hide RoundUp; hide Moves;
    assert Plain(b, seed, map[], 0) == [] && PutAll(Base(seed, CRC_END), []) == Base(seed, CRC_END) == seed;
    var put := AgentPut(b, CRC_END);
    assert |put.bytes| >= 4 && put.at == CRC_END;
    image := Over(seed, put);
    assert forall i :: 0 <= i < CRC_END ==> !Covers(put, i);
    SetNone(image);
  }

  /** With its checksum stored it is a finished image. */
  lemma IsFinished(seed: seq<byte>) returns (image: seq<byte>)
    requires |seed| == CRC_END
    ensures Carries(Unlisted()) && Finished(Unlisted(), seed, map[], image)
    ensures |image| > CRC_END && forall i :: 0x18 <= i < CRC_END ==> image[i] == seed[i]
  {
    hide *;
    var b := Unlisted();
    IsAccepted();
    IsVerified(seed);
    var whole := IsAppended(seed);
    SumsStored(whole, b.cic);
    image := WithSums(whole, Compute(whole, b.cic));
    SumsAre();
    IsWritten(seed, whole, image);
    IsSound(seed, image);
    FinishedIf(seed, image);
  }

  lemma SumsAre()
    ensures CRC_OFFSET == 0x10 && CRC_END > 0x1000 && Unlisted().cic == Cic6102
  {}

  lemma IsWritten(seed: seq<byte>, whole: seq<byte>, image: seq<byte>)
    requires Carries(Unlisted()) && ImageOf(Unlisted(), seed, map[]) == Done(whole) && |image| == |whole| && CRC_END <= |image|
    requires forall i :: 0 <= i < |image| && !(CRC_OFFSET <= i < CRC_OFFSET + 8) ==> image[i] == whole[i]
    requires Stored(image) == Compute(image, Unlisted().cic)
    ensures Written(Unlisted(), seed, map[], image)
  {
    hide ImageOf; hide Stored; hide Compute; hide Carries; hide Unlisted;
  }

  lemma IsSound(seed: seq<byte>, image: seq<byte>)
    requires |seed| == CRC_END < |image| && AgentPlace(Unlisted().profile, seed) == CRC_END
    requires forall i :: 0 <= i < CRC_END && !(CRC_OFFSET <= i < CRC_OFFSET + 8) ==> image[i] == seed[i]
    ensures Sound(Unlisted(), seed, map[], image)
  {
    hide PinnedByte; hide ListedByte; hide AgentPlace; hide Unlisted;
  }

  lemma FinishedIf(seed: seq<byte>, image: seq<byte>)
    requires Carries(Unlisted()) && Verified(Unlisted(), seed, map[]) && Written(Unlisted(), seed, map[], image)
    requires Sound(Unlisted(), seed, map[], image) && |image| > CRC_END
    ensures Finished(Unlisted(), seed, map[], image)
  {
    hide Carries; hide Verified; hide Written; hide Sound;
  }

  /** Where every file is kept the ROM grows by nothing. */
  lemma {:induction false} AllKept(job: Repack.Job, i: nat, l: Repack.Layout)
    requires forall j :: 0 <= j < |job.now| ==> Repack.FateOf(job, j) == Repack.Kept
    requires Repack.Lay(job, i, l).Ok?
    ensures |Repack.Lay(job, i, l).value.rom| == |l.rom|
    decreases |job.now| - i
  {
    hide Repack.Before;
    if i < |job.now| { AllKept(job, i + 1, Repack.LayOne(job, i, l).value); }
  }

  lemma ShortRom(job: Repack.Job, table: uint32, k: nat)
    requires RepackRoundTrip.Placed(job, table, k) && forall j :: 0 <= j < |job.now| ==> Repack.FateOf(job, j) == Repack.Kept
    ensures var r := Repack.RepackOf(job.seed, job.original, job.patched, table); r.Ok? && |r.value.rom| <= |job.seed|
  {
    RepackRoundTrip.RepackIs(job, table, k);
    var l, rom := RepackRoundTrip.Completes(job, table, k);
    hide RepackRoundTrip.Placed; hide Repack.FateOf; hide Repack.RepackOf; hide Repack.Lay; hide Repack.WriteRows; hide Repack.Keep;
    var start := Repack.Start(job);
    AllKept(job, 0, start);
    var laid := Repack.Lay(job, 0, start).value;
    RepackRoundTrip.WriteRowsLength(laid.rows, 0, laid.rom);
  }

  lemma BothKept(image: seq<byte>)
    requires |image| > CRC_END && forall i :: 0x18 <= i < CRC_END ==> image[i] == RepackExample.Seed()[i]
    ensures var job := RepackExample.JobOf(image);
      RepackExample.LeavesTable(image) && forall j :: 0 <= j < |job.now| ==> Repack.FateOf(job, j) == Repack.Kept
  {
    hide RepackExample.Seed;
    var seed := RepackExample.Seed();
    assert seed[0x1000..0x1040] == image[0x1000..0x1040] && seed[0x1040..0x1050] == image[0x1040..0x1050];
    var job := RepackExample.JobOf(image);
    assert Repack.FateOf(job, 0) == Repack.Kept && Repack.FateOf(job, 1) == Repack.Kept;
  }

  lemma NotEnclosed(image: seq<byte>)
    requires |image| > CRC_END
    ensures FileTable.ImageEnd(RepackExample.ENTRIES) <= FileTable.MAX_IMAGE && !RepackRoundTrip.Enclosed(RepackExample.JobOf(image))
  {
    hide RepackExample.Seed; hide RepackRoundTrip.Covered; hide FileTable.AreEntries; hide FileTable.AllReadable;
    RepackExample.SeedIsSound();
  }

  /** Every check passes and every write lands, and the repacked ROM is found not to decompress to the patched image. */
  lemma AgentIsLost() returns (image: seq<byte>)
    ensures var b, seed := Unlisted(), RepackExample.Seed();
      && Accepted(b.profile) && Carries(b) && Prepared(b, seed) == Ok(seed) && Finished(b, seed, map[], image) && CRC_END <= |image|
      && LaidBack(b, seed, seed, image, RepackExample.TABLE) == NotLaidBack(Comparing)
  {
    hide *;
    var b, seed := Unlisted(), RepackExample.Seed();
    IsAccepted();
    RepackExample.OwnImage();
    PreparedIs(b, seed, RepackExample.TABLE);
    SeedLength();
    image := IsFinished(seed);
    FinishedBoots(b, seed, image);
    BothKept(image);
    RepackExample.PatchPlaced(image);
    var job := RepackExample.JobOf(image);
    JobIs(image);
    ShortRom(job, RepackExample.TABLE, 0);
    NotEnclosed(image);
    LaysBackIff(b, job, RepackExample.TABLE, 0);
  }

  lemma SeedLength()
    ensures |RepackExample.Seed()| == CRC_END <= 0xFFFF_FFFF
  {}

  lemma PreparedIs(b: Bundle, rom: seq<byte>, table: uint32)
    requires b.profile.transform == Some(table)
    ensures Prepared(b, rom) == FileTable.Image(rom, table)
  {}

  lemma FinishedBoots(b: Bundle, seed: seq<byte>, image: seq<byte>)
    requires Carries(b) && Finished(b, seed, map[], image)
    ensures Identify(b, image) == Some(b.cic)
  {}

  lemma JobIs(image: seq<byte>)
    ensures var job := RepackExample.JobOf(image);
      job.seed == RepackExample.Seed() == job.original && job.patched == image && job.now == RepackExample.ENTRIES
  {}
}
