/** What a finished image holds for each block, whichever writer made it. */
module ImageBlocks {
  import opened Wrappers
  import opened Bytes
  import opened FileIo
  import opened Headers
  import opened Regions
  import opened BlockTable
  import opened Disks
  import opened ChainView
  import opened Images

  datatype BlockSource = ZeroBlock | Buf(bytes: Buffer)

  /** What was last asked of a block. */
  datatype Recorded = Unset | Zeroed | Stored(bytes: Buffer)

  /** What reading the block must give. */
  function Expected(r: Recorded, bs: nat): BlockRead {
    match r
    case Unset => Absent
    case Zeroed => Full(Zeros(bs))
    case Stored(b) => Full(b)
  }

  function EntryOf(entries: seq<BatEntry>, chunkRatio: nat, block: nat): BatEntry
    requires chunkRatio > 0 && PayloadIndex(block, chunkRatio) < |entries|
  {
    entries[PayloadIndex(block, chunkRatio)]
  }

  /** A block's entry, and for stored data its slot, say what was recorded. */
  ghost predicate Holds(data: Buffer, e: BatEntry, r: Recorded, bs: nat, start: nat) {
    match r
    case Unset => e == EMPTY
    case Zeroed => e == NewEntry(ZERO, 0)
    case Stored(b) =>
      && e.State() == FULLY_PRESENT
      && |b| == bs
      && e.FileOffset() % MIB == 0
      && start <= e.FileOffset()
      && e.FileOffset() + bs <= |data|
      && Slice(data, e.FileOffset(), bs) == b
  }

  ghost predicate SlotsApart(e: BatEntry, f: BatEntry, bs: nat) {
    e.FileOffset() + bs <= f.FileOffset() || f.FileOffset() + bs <= e.FileOffset()
  }

  /** Every block holds what was recorded for it, and no two slots overlap. */
  ghost predicate BlocksHold(data: Buffer, t: Table, recorded: seq<Recorded>, bs: nat, start: nat) {
    && t.Complete() && t.blockCount == |recorded|
    && (forall b :: 0 <= b < |recorded| ==> Holds(data, EntryOf(t.entries, t.chunkRatio, b), recorded[b], bs, start))
    && (forall b, c :: 0 <= b < c < |recorded| && recorded[b].Stored? && recorded[c].Stored? ==>
          SlotsApart(EntryOf(t.entries, t.chunkRatio, b), EntryOf(t.entries, t.chunkRatio, c), bs))
  }

  /** An entry whose block holds its record reads back as expected. */
  lemma HeldBlockReads(d: VhdxDisk, data: Buffer, recorded: seq<Recorded>, start: nat, b: nat)
    requires d.Valid() && BlocksHold(data, d.bat, recorded, d.BlockSize(), start) && b < |recorded|
    ensures ReadBlock(d, data, b) == Ok(Expected(recorded[b], d.BlockSize()))
  {
    var e := EntryOf(d.bat.entries, d.bat.chunkRatio, b);
    assert Holds(data, e, recorded[b], d.BlockSize(), start);
    assert d.bat.PayloadEntry(b) == Some(e);
    EntryUnpacks(ZERO, 0);
    hide ReadBitmap, Table.BitmapEntry;
  }

  lemma OtherBlockKept(t: Table, block: nat, e: BatEntry, other: nat)
    requires t.Complete() && block < t.blockCount && other < t.blockCount
    ensures t.WithPayload(block, e).Complete() && t.WithPayload(block, e).blockCount == t.blockCount
    ensures EntryOf(t.WithPayload(block, e).entries, t.chunkRatio, block) == e
    ensures other != block ==>
              EntryOf(t.WithPayload(block, e).entries, t.chunkRatio, other) == EntryOf(t.entries, t.chunkRatio, other)
  {
    if other < block {
      PayloadIndexIncreases(other, block, t.chunkRatio);
    } else if block < other {
      PayloadIndexIncreases(block, other, t.chunkRatio);
    }
  }

  /** Marking a block zero or absent keeps every other block. */
  lemma MarkedHolds(data: Buffer, t: Table, recorded: seq<Recorded>, bs: nat, start: nat, block: nat, r: Recorded, e: BatEntry)
    requires BlocksHold(data, t, recorded, bs, start) && block < |recorded|
    requires !r.Stored? && Holds(data, e, r, bs, start)
    ensures BlocksHold(data, t.WithPayload(block, e), recorded[block := r], bs, start)
  {
    forall b | 0 <= b < |recorded|
      ensures EntryOf(t.WithPayload(block, e).entries, t.chunkRatio, b) ==
              if b == block then e else EntryOf(t.entries, t.chunkRatio, b)
    {
      OtherBlockKept(t, block, e, b);
    }
    OtherBlockKept(t, block, e, block);
  }

  /** Storing a block in a slot that no other block uses keeps every other block. */
  lemma StoredHolds(data: Buffer, t: Table, recorded: seq<Recorded>, bs: nat, start: nat, block: nat, e: BatEntry, buf: Buffer)
    requires BlocksHold(data, t, recorded, bs, start) && block < |recorded|
    requires |buf| == bs > 0 && e.State() == FULLY_PRESENT && e.FileOffset() % MIB == 0 && start <= e.FileOffset()
    requires forall b :: 0 <= b < |recorded| && b != block && recorded[b].Stored? ==>
               SlotsApart(EntryOf(t.entries, t.chunkRatio, b), e, bs)
    ensures BlocksHold(Written(data, e.FileOffset(), buf), t.WithPayload(block, e), recorded[block := Stored(buf)], bs, start)
  {
    var after := Written(data, e.FileOffset(), buf);
    var u := t.WithPayload(block, e);
    OtherBlockKept(t, block, e, block);
    forall b | 0 <= b < |recorded|
      ensures EntryOf(u.entries, t.chunkRatio, b) == if b == block then e else EntryOf(t.entries, t.chunkRatio, b)
      ensures Holds(after, EntryOf(u.entries, t.chunkRatio, b), recorded[block := Stored(buf)][b], bs, start)
    {
      OtherBlockKept(t, block, e, b);
      if b == block {
        WrittenReadsBack(data, e.FileOffset(), buf);
      } else {
        var f := EntryOf(t.entries, t.chunkRatio, b);
        assert Holds(data, f, recorded[b], bs, start);
        if recorded[b].Stored? {
          assert SlotsApart(f, e, bs);
          WrittenKeeps(data, e.FileOffset(), buf, f.FileOffset(), bs);
        }
      }
    }
  }

  /** Setting one entry, seen from every block. */
  lemma EntriesBesides(t: Table, block: nat, e: BatEntry)
    requires t.Complete() && block < t.blockCount
    ensures t.WithPayload(block, e).Complete() && |t.WithPayload(block, e).entries| == |t.entries|
    ensures t.WithPayload(block, e).blockCount == t.blockCount && t.WithPayload(block, e).chunkRatio == t.chunkRatio
    ensures forall b :: 0 <= b < t.blockCount ==>
              EntryOf(t.WithPayload(block, e).entries, t.chunkRatio, b) ==
              if b == block then e else EntryOf(t.entries, t.chunkRatio, b)
  {
    OtherBlockKept(t, block, e, block);
    forall b | 0 <= b < t.blockCount
      ensures EntryOf(t.WithPayload(block, e).entries, t.chunkRatio, b) ==
              if b == block then e else EntryOf(t.entries, t.chunkRatio, b)
    {
      OtherBlockKept(t, block, e, b);
    }
  }

  lemma EmptyHolds(data: Buffer, t: Table, recorded: seq<Recorded>, bs: nat, start: nat)
    requires t.Complete() && t.blockCount == |recorded|
    requires forall i :: 0 <= i < |t.entries| ==> t.entries[i] == EMPTY
    requires forall b :: 0 <= b < |recorded| ==> recorded[b] == Unset
    ensures BlocksHold(data, t, recorded, bs, start)
  {
  }

  /** Every block of the disk reads as recorded. */
  ghost predicate ReadsAs(d: VhdxDisk, data: Buffer, recorded: seq<Recorded>) {
    && d.Valid()
    && |recorded| == d.BlockCount()
    && forall b :: 0 <= b < |recorded| ==> ReadBlock(d, data, b) == Ok(Expected(recorded[b], d.BlockSize()))
  }

  /** No block lies below `start`. */
  ghost predicate BlocksFrom(t: Table, start: nat)
    requires t.chunkRatio > 0
  {
    forall b: nat :: b < t.blockCount && t.PayloadEntry(b).Some? && t.PayloadEntry(b).value.State() == FULLY_PRESENT ==>
      start <= t.PayloadEntry(b).value.FileOffset()
  }

  lemma HeldBlocksFrom(data: Buffer, t: Table, recorded: seq<Recorded>, bs: nat, start: nat)
    requires BlocksHold(data, t, recorded, bs, start)
    ensures BlocksFrom(t, start)
  {
    forall b: nat | b < t.blockCount && t.PayloadEntry(b).Some? && t.PayloadEntry(b).value.State() == FULLY_PRESENT
      ensures start <= t.PayloadEntry(b).value.FileOffset()
    {
      assert t.PayloadEntry(b) == Some(EntryOf(t.entries, t.chunkRatio, b));
      assert Holds(data, EntryOf(t.entries, t.chunkRatio, b), recorded[b], bs, start);
      EntryUnpacks(ZERO, 0);
    }
  }

  lemma FromHigher(t: Table, start: nat, lower: nat)
    requires t.chunkRatio > 0 && BlocksFrom(t, start) && lower <= start
    ensures BlocksFrom(t, lower)
  {
  }

  /** The image opens as what it was made, no block lies in the areas below its payload, and every block reads as recorded. */
  ghost predicate Reads(data: Buffer, p: WriterParams, recorded: seq<Recorded>) {
    && OpenDisk(data, true).Ok?
    && OpenDisk(data, false) == OpenDisk(data, true)
    && OpenDisk(data, true).value.metadata == p.Meta()
    && MadeFrom(OpenDisk(data, true).value, p)
    && BlocksFrom(OpenDisk(data, true).value.bat, OpenDisk(data, true).value.metadataRegion.End())
    && ReadsAs(OpenDisk(data, true).value, data, recorded)
  }

  lemma SameDiskEitherWay(data: Buffer)
    requires OpenDisk(data, false).Ok?
    ensures OpenDisk(data, true) == OpenDisk(data, false)
  {
    hide ReadPair, ReadRegions, LayoutValid, ReadTables;
  }

  /** Writing below the payload leaves every block as it was. */
  lemma StillHolds(data: Buffer, after: Buffer, t: Table, recorded: seq<Recorded>, bs: nat, start: nat, off: nat, buf: Buffer)
    requires BlocksHold(data, t, recorded, bs, start)
    requires after == Written(data, off, buf) && off + |buf| <= start
    ensures BlocksHold(after, t, recorded, bs, start)
  {
    forall b | 0 <= b < |recorded|
      ensures Holds(after, EntryOf(t.entries, t.chunkRatio, b), recorded[b], bs, start)
    {
      var e := EntryOf(t.entries, t.chunkRatio, b);
      assert Holds(data, e, recorded[b], bs, start);
      if recorded[b].Stored? {
        WrittenKeeps(data, off, buf, e.FileOffset(), bs);
      }
    }
  }

  /** A framed image whose table is stored and whose blocks hold their records reads as recorded. */
  lemma FramedImageReads(data: Buffer, p: WriterParams, batOffset: Word64, batLength: Word32, t: Table,
                         recorded: seq<Recorded>, start: nat)
    requires Framed(data, p, batOffset, batLength) && PlacedApart(p.MetadataOffset(), batOffset, batLength)
    requires t.chunkRatio == p.ChunkRatio() && t.blockCount == p.BlockCount() == |recorded| && |t.entries| == p.TotalEntries()
    requires TableStored(data, batOffset, batLength, t.entries)
    requires BlocksHold(data, t, recorded, p.blockSize, start) && p.MetadataOffset() + MIB <= start
    ensures Reads(data, p, recorded)
  {
    hide Framed, WriterParams.Usable, BlocksHold, TableStored, OpenDisk, ReadBlock, PlacedApart, MadeFrom, BlocksFrom;
    FramedOpens(data, p, batOffset, batLength, t.entries, true);
    FramedOpens(data, p, batOffset, batLength, t.entries, false);
    SameDiskEitherWay(data);
    var d := OpenDisk(data, true).value;
    HeldBlocksFrom(data, t, recorded, p.blockSize, start);
    FromHigher(t, start, d.metadataRegion.End());
    forall b | 0 <= b < |recorded|
      ensures ReadBlock(d, data, b) == Ok(Expected(recorded[b], d.BlockSize()))
    {
      HeldBlockReads(d, data, recorded, start, b);
    }
  }

  // ---- The guest's view of a finished image ----

  /** A sector of a finished image comes from the block that was recorded for it. */
  lemma ImageSector(d: VhdxDisk, data: Buffer, recorded: seq<Recorded>, s: nat)
    requires Link(d, data).Valid() && ReadsAs(d, data, recorded) && d.SectorsPerBlock() > 0
    ensures s / d.SectorsPerBlock() < |recorded| ==>
              LinkSector(Link(d, data), s) ==
              SectorOfBlock(Ok(Expected(recorded[s / d.SectorsPerBlock()], d.BlockSize())), s % d.SectorsPerBlock(), d.SectorSize())
    ensures s / d.SectorsPerBlock() >= |recorded| ==> LinkSector(Link(d, data), s) == Missing
  {
    hide ReadBlock, SectorOfBlock;
  }
}
