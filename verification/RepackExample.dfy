/** A seed and a patched image that repacking's round trip is about: what it asks of them can be met. */
module RepackExample {
  import opened Bytes
  import opened FileTable
  import opened Repack
  import opened RepackRoundTrip

  const TABLE: uint32 := 0x1000
  /** The table's own entry, and that of a plain file straight after it. */
  const OWN := DmaEntry(0x1000, 0x1000, 0x1040, 0x1000, 0)
  const PLAIN := DmaEntry(0x1010, 0x1040, 0x1050, 0x1040, 0)
  const ENTRIES := [OWN, PLAIN]

  function Seed(): (rom: seq<byte>)
    ensures |rom| == CRC_END
  {
    Zeros(HEADER) + RowWords(OWN) + RowWords(PLAIN) + Zeros(CRC_END - 0x1020)
  }

  lemma SeedEntries()
    ensures AreEntries(Seed(), TABLE, 0, ENTRIES)
  {
    hide RowWords; hide EntryAt;
    var rom := Seed();
    assert rom[0x1000..0x1010] == RowWords(OWN) && rom[0x1010..0x1020] == RowWords(PLAIN);
    WordsRead(rom, 0x1000, OWN);
    WordsRead(rom, 0x1010, PLAIN);
    assert Ends(EntryAt(rom, 0x1020)) by { ZeroEntry(rom, 0x1020); }
  }

  lemma ZeroEntry(rom: seq<byte>, at: nat)
    requires at + 16 <= |rom| && forall p :: at <= p < at + 16 ==> rom[p] == 0
    ensures EntryAt(rom, at) == DmaEntry(at, 0, 0, 0, 0)
  {}

  lemma SeedIsSound()
    ensures Sound(Seed(), TABLE, ENTRIES) && ImageLength(ENTRIES) == CRC_END
  {
    hide RowWords; hide AreEntries; hide Seed;
    SeedEntries();
    assert ENTRIES[..1] == [OWN] && ENTRIES[..1][..0] == [];
    assert ImageEnd([OWN]) == 0x1040 && ImageEnd(ENTRIES) == 0x1050;
    assert OWN in ENTRIES;
  }

  lemma ImageAt(p: nat)
    requires p < CRC_END
    ensures var i := Image(Seed(), TABLE); i.Ok? && |i.value| == CRC_END && i.value[p] == Seed()[p]
  {
    hide Sound; hide Image; hide RowWords; hide Seed; hide Blank;
    if p >= 0x1050 { PastFiles(p); }
    BlankIs(p);
    SeedIsSound();
    var j := if 0x1000 <= p < 0x1040 then 0 else if 0x1040 <= p < 0x1050 then 1 else 2;
    var r := if 0x1000 <= p < 0x1010 then 0 else if 0x1010 <= p < 0x1020 then 1 else 2;
    ImageIs(Seed(), TABLE, ENTRIES, j, r, p);
    if r < 2 { RecordAtPlace(r, p); }
  }

  lemma BlankIs(p: nat)
    requires p < CRC_END
    ensures Blank(Seed(), CRC_END)[p] == if p < HEADER then Seed()[p] else 0
  {
    hide Seed;
  }

  lemma PastFiles(p: nat)
    requires 0x1020 <= p < CRC_END
    ensures Seed()[p] == 0
  {}

  /** The seed is its own image: it stores every file plain and in place. */
  lemma OwnImage()
    ensures Image(Seed(), TABLE) == Ok(Seed())
  {
    hide Image; hide Seed;
    ImageAt(0);
    forall p: nat | p < CRC_END ensures Image(Seed(), TABLE).value[p] == Seed()[p] { ImageAt(p); }
    assert Image(Seed(), TABLE).value == Seed();
  }

  lemma RecordAtPlace(r: nat, p: nat)
    requires r < 2 && ENTRIES[r].at <= p < ENTRIES[r].at + 16
    ensures PaintedRow(ENTRIES[r])[p - ENTRIES[r].at] == Seed()[p]
  {
    hide Words;
    assert PaintedRow(OWN) == RowWords(OWN) && PaintedRow(PLAIN) == RowWords(PLAIN);
  }

  /** The seed's image changed outside the table. */
  function JobOf(patched: seq<byte>): (job: Job) {
    Job(Seed(), Seed(), patched, ENTRIES, ENTRIES)
  }

  ghost predicate LeavesTable(patched: seq<byte>) {
    CRC_END <= |patched| && forall p :: 0x1000 <= p < 0x1030 ==> patched[p] == Seed()[p]
  }

  lemma PatchPlaced(patched: seq<byte>)
    requires LeavesTable(patched)
    ensures Placed(JobOf(patched), TABLE, 0)
  {
    hide RowWords; hide Image; hide Sound; hide Seed; hide AreEntries;
    OwnImage();
    SeedIsSound();
    SeedApart();
    PatchedEntries(patched);
    var job := JobOf(patched);
    assert forall i :: 0 <= i < 2 ==> Listed(job, i);
  }

  lemma SeedApart()
    ensures SpansApart(ENTRIES) && StoredApart(ENTRIES) && TableEntry(OWN, TABLE, 2)
  {}

  /** The plain file is changed: it is rewritten where it was, and the table kept. */
  lemma ExamplePlaced()
    ensures var job := JobOf(Seed()[0x1048 := 7]); Placed(job, TABLE, 0) && Enclosed(job) && job.patched != job.original
  {
    hide RowWords; hide Image; hide Sound; hide Seed; hide AreEntries; hide Enclosed; hide Placed;
    PastFiles(0x1048);
    var job := JobOf(Seed()[0x1048 := 7]);
    assert job.patched[0x1048] != job.original[0x1048];
    PatchPlaced(job.patched);
    ExampleEnclosed(job);
  }

  lemma ExampleEnclosed(job: Job)
    requires job == JobOf(Seed()[0x1048 := 7])
    ensures Enclosed(job)
  {
    hide RowWords; hide Image; hide Sound; hide Seed; hide AreEntries; hide Covered;
    SeedIsSound();
    forall p | 0 <= p < |job.patched| && !Covered(job.now, p) ensures job.patched[p] == 0 {
      if p < 0x1050 { CoveredBelow(p); } else { PastFiles(p); }
    }
  }

  lemma CoveredBelow(p: nat)
    requires p < 0x1050
    ensures Covered(ENTRIES, p)
  {
    if p >= HEADER {
      var i := if p < 0x1040 then 0 else 1;
      CoveredIf(ENTRIES, i, p);
    }
  }

  lemma PatchedEntries(image: seq<byte>)
    requires LeavesTable(image)
    ensures AreEntries(image, TABLE, 0, ENTRIES)
  {
    hide RowWords; hide Seed;
    SeedEntries();
    SameEntry(image, Seed(), 0x1000);
    SameEntry(image, Seed(), 0x1010);
    SameEntry(image, Seed(), 0x1020);
  }
}
