/** Images for which the code does not keep its promises, run through it (writer.rs, compact.rs, merge.rs, header.rs). */
module FailingImages {
  import opened Wrappers
  import opened Bytes
  import opened FileIo
  import opened Format
  import opened Headers
  import opened Regions
  import opened BlockTable
  import opened Packing
  import opened ParentLocators
  import opened MetadataRegion
  import opened Disks
  import opened ChainView
  import opened Composite
  import opened Images
  import opened ImageBlocks
  import opened Placement
  import opened Writer
  import opened ZstWriter
  import opened Flatten
  import opened Compact
  import opened MergeBlocks
  import opened Merge
  import opened MergeCrash
  import opened MergeView

  // ---- Parameters ----

  const LOCATOR := ParentLocator(NIL, [("relative_path", "parent.vhdx")])

  /** Blocks of 1 MiB and sectors of 512 bytes: 4096 blocks to a chunk. */
  function Params(blocks: nat, hasParent: bool, fixed: bool): WriterParams
    requires blocks <= 4097
  {
    WriterParams(blocks * MIB, MIB, 512, 4096, fixed, if hasParent then Some(LOCATOR) else None, MIB, NIL, NIL, NIL)
  }

  lemma {:induction false} StringSize(s: string)
    ensures |StringBytes(s)| <= 4 * |s|
  {
    UnitCount(s);
  }

  lemma {:induction false} UnitCount(s: string)
    ensures |EncodeUtf16(s)| <= 2 * |s|
  {
    if s != [] {
      UnitCount(s[1..]);
    }
  }

  lemma {:induction false} JoinedAtMost(ps: seq<Buffer>, k: nat)
    requires forall i :: 0 <= i < |ps| ==> |ps[i]| <= k
    ensures |Joined(ps)| <= |ps| * (k + 7)
  {
    if ps != [] {
      JoinedAtMost(ps[..|ps| - 1], k);
      assert |ps| * (k + 7) == (|ps| - 1) * (k + 7) + (k + 7);
    }
  }

  lemma LocatorIsSmall()
    ensures ParentLocators.Encodable(LOCATOR) && |EncodeLocator(LOCATOR)| <= 300
  {
    var es := LOCATOR.entries;
    var ps := Pieces(es);
    StringSize("relative_path");
    StringSize("parent.vhdx");
    assert ps[2 * 0] == StringBytes(es[0].0) && ps[2 * 0 + 1] == StringBytes(es[0].1);
    forall i | 0 <= i < |ps|
      ensures |ps[i]| <= 100
    {
      assert i == 0 || i == 1;
    }
    JoinedAtMost(ps, 100);
  }

  lemma KnownItemsAreSmall(m: Metadata)
    ensures |KnownItems(m)| == 5 && forall i :: 0 <= i < 5 ==> |KnownItems(m)[i].data| <= 16
  {
  }

  lemma ItemsAreSmall(m: Metadata)
    requires m.extras == [] && (m.parentLocator.Some? ==> |EncodeLocator(m.parentLocator.value)| <= 300)
    ensures |Items(m)| <= 6 && forall i :: 0 <= i < |Items(m)| ==> |Items(m)[i].data| <= 300
  {
    KnownItemsAreSmall(m);
    hide EncodeLocator, KnownItems;
    var items := Items(m);
    assert items == KnownItems(m) + LocatorItems(m);
    forall i | 0 <= i < |items|
      ensures |items[i].data| <= 300
    {
      if i < 5 {
        assert items[i] == KnownItems(m)[i];
      }
    }
  }

  lemma SmallFits(m: Metadata)
    requires m.extras == [] && m.parentLocator in {None, Some(LOCATOR)}
    ensures MetadataRegion.Encodable(m, MIB)
  {
    LocatorIsSmall();
    hide EncodeLocator, Items, ParentLocators.Encodable, Joined, Datas;
    ItemsAreSmall(m);
    JoinedAtMost(Datas(Items(m)), 300);
  }

  /** The geometry of such an image. */
  lemma ParamsGeometry(blocks: nat, hasParent: bool, fixed: bool)
    requires 0 < blocks <= 4097
    ensures
      var p := Params(blocks, hasParent, fixed);
      && p.Meta().HasGeometry() && p.BlockCount() == blocks && p.ChunkRatio() == 4096
      && p.TotalEntries() == TotalEntries(blocks, 4096, hasParent) <= 2 * 4097
  {
    hide TotalEntries;
    DivModUnique(blocks * MIB + MIB - 1, MIB, blocks, MIB - 1);
    EntriesAtMost(blocks, hasParent);
  }

  lemma EntriesAtMost(blocks: nat, hasParent: bool)
    requires 0 < blocks <= 4097
    ensures TotalEntries(blocks, 4096, hasParent) <= 2 * 4097
  {
    assert (blocks - 1) / 4096 <= 1;
  }

  lemma OneMiB()
    ensures AlignUp(MIB, MIB) == MIB
  {
  }

  /** Where its regions lie. */
  lemma ParamsUsable(blocks: nat, hasParent: bool, fixed: bool)
    requires 0 < blocks <= 4097
    ensures
      var p := Params(blocks, hasParent, fixed);
      && p.Usable() && p.MetadataOffset() == 2 * MIB && p.BatLength() == MIB && PayloadStart(p) == 4 * MIB
  {
    ParamsGeometry(blocks, hasParent, fixed);
    SmallFits(Params(blocks, hasParent, fixed).Meta());
    OneMiB();
    hide MetadataRegion.Encodable, WriterParams.TotalEntries, AlignUp, WriterParams.BlockCount, WriterParams.ChunkRatio;
  }

  // ---- A fixed image ----

  /** Identifier, headers and region tables are the same. */
  ghost predicate SameSection(a: Buffer, b: Buffer) {
    FileTypeOk(a) == FileTypeOk(b) && ReadPair(a) == ReadPair(b) && ReadRegions(a) == ReadRegions(b)
  }

  /** Data that covers the header section replaces it: identifier, headers and region tables are those the data holds. */
  lemma DataIsTheSection(before: Buffer, bytes: Buffer)
    requires MIB <= |bytes|
    ensures SameSection(Written(before, 0, bytes), bytes)
  {
    hide ParseRegions, ParseHeader, ReadPair;
    var after := Written(before, 0, bytes);
    assert Slice(after, 0, MIB) == Slice(bytes, 0, MIB);
    FixedRanges(bytes, after);
    SameRange(bytes, after, 0, 8, 0, 8);
    SameRange(bytes, after, RegionTableOffset(0), REGION_TABLE_SIZE, RegionTableOffset(0), REGION_TABLE_SIZE);
    SameRange(bytes, after, RegionTableOffset(1), REGION_TABLE_SIZE, RegionTableOffset(1), REGION_TABLE_SIZE);
  }

  /** Marks a block of a fixed image zero, then writes data to it. */
  method DataAfterZero(p: WriterParams, block: nat, bytes: Buffer) returns (w: VhdxWriter)
    requires p.Usable() && p.fixed && PayloadStart(p) + p.BlockCount() * p.blockSize < U64
    requires block < p.BlockCount() && |bytes| == p.blockSize
    ensures fresh(w) && w.p == p && |w.recorded| == p.BlockCount() && w.recorded[block] == Stored(bytes) && !w.Valid()
    ensures SameSection(w.file.data, bytes)
  {
    hide WriterParams.Usable, PayloadStart, Framed, BlocksHold, SameSection, VhdxWriter.Valid;
    LayoutOrder(p);
    FirstBlockFits(p, block);
    WholeMiB(p.blockSize);
    w := new VhdxWriter(p);
    w.WriteBlock(block, ZeroBlock);
    ghost var before := w.file.data;
    w.WriteBlock(block, Buf(bytes));
    DataIsTheSection(before, bytes);
  }

  lemma WholeMiB(n: nat)
    requires n > 0 && n % MIB == 0
    ensures MIB <= n
  {
  }

  lemma FirstBlockFits(p: WriterParams, block: nat)
    requires p.Meta().HasGeometry() && block < p.BlockCount() && PayloadStart(p) + p.BlockCount() * p.blockSize < U64
    ensures PayloadStart(p) + p.blockSize < U64
  {
    MulMonotone(p.blockSize, 1, p.BlockCount());
    assert p.blockSize * p.BlockCount() == p.BlockCount() * p.blockSize;
    hide PayloadStart, WriterParams.BlockCount;
  }

  /** One block of zeros, written where zeros already were, and the image is no image any more. */
  method FixedImageDestroyed() returns (w: VhdxWriter)
    ensures fresh(w) && |w.recorded| == 1 && w.recorded[0] == Stored(Zeros(MIB))
    ensures forall readOnly :: OpenDisk(w.file.data, readOnly) == Err(BadSignature)
  {
    hide WriterParams.Usable, PayloadStart, SameSection, VhdxWriter.Valid, WriterParams.BlockCount;
    ParamsGeometry(1, false, true);
    ParamsUsable(1, false, true);
    w := DataAfterZero(Params(1, false, true), 0, Zeros(MIB));
    ZerosAreNoImage(w.file.data);
  }

  lemma ZerosAreNoImage(data: Buffer)
    requires SameSection(data, Zeros(MIB))
    ensures forall readOnly :: OpenDisk(data, readOnly) == Err(BadSignature)
  {
    hide ReadPair, ReadRegions, ReadTables, LayoutValid;
    assert Slice(Zeros(MIB), 0, 8)[0] == 0;
    assert FileTypeOk(Zeros(MIB)) == Err(BadSignature);
  }

  // ---- An image with a masked block ----

  const START: nat := 3 * MIB

  /** Block 0 is partially present, its chunk's bitmap is in the second slot, and no other block is there. */
  function MaskedTable(blocks: nat, hasParent: bool): (t: Table)
    ensures t.chunkRatio == 4096 && t.blockCount == blocks && |t.entries| == TotalEntries(blocks, 4096, hasParent)
  {
    Table(seq(TotalEntries(blocks, 4096, hasParent), i =>
            if i == 0 then NewEntry(PARTIALLY_PRESENT, START)
            else if i == 4096 then NewEntry(BITMAP_PRESENT, START + MIB)
            else EMPTY),
          4096, blocks)
  }

  function Plan(blocks: nat, hasParent: bool): Layout
    requires 0 < blocks <= 4097
  {
    ParamsUsable(blocks, hasParent, false);
    Compute(Params(blocks, hasParent, false), 2, TotalEntries(blocks, 4096, hasParent))
  }

  lemma PlanFits(blocks: nat, hasParent: bool)
    requires 0 < blocks <= 4097
    ensures Fits(Plan(blocks, hasParent), Params(blocks, hasParent, false), 2)
    ensures Plan(blocks, hasParent).payloadStart == START && Plan(blocks, hasParent).nonZeroBlocks == 2
    ensures |MaskedTable(blocks, hasParent).entries| == Params(blocks, hasParent, false).TotalEntries()
  {
    ParamsGeometry(blocks, hasParent, false);
    ParamsUsable(blocks, hasParent, false);
    hide WriterParams.Usable, TotalEntries, WriterParams.TotalEntries;
  }

  /** The payload of block 0, and a bitmap with no bit set. */
  function MaskedImage(blocks: nat, hasParent: bool, payload: Buffer): Buffer
    requires 0 < blocks <= 4097
  {
    PlanFits(blocks, hasParent);
    FinishedImage(Params(blocks, hasParent, false), Plan(blocks, hasParent), MaskedTable(blocks, hasParent), [payload, Zeros(MIB)])
  }

  lemma MaskedOpens(blocks: nat, hasParent: bool, payload: Buffer)
    requires 0 < blocks <= 4097 && |payload| == MIB
    ensures
      var data := MaskedImage(blocks, hasParent, payload);
      && OpenDisk(data, true).Ok?
      && OpenDisk(data, true).value.metadata == Params(blocks, hasParent, false).Meta()
      && OpenDisk(data, true).value.bat == MaskedTable(blocks, hasParent)
  {
    var p := Params(blocks, hasParent, false);
    var l := Plan(blocks, hasParent);
    var t := MaskedTable(blocks, hasParent);
    ParamsGeometry(blocks, hasParent, false);
    PlanFits(blocks, hasParent);
    LayoutFits(l, p, 2);
    hide Fits, Plan, Framed, TableStored, FinishedImage, OpenDisk, WriterParams.Usable, PlacedApart, MaskedTable, TotalEntries,
      Params, WriterParams.TotalEntries, WriterParams.BatLength, WriterParams.MetadataOffset;
    FinishedFrame(p, l, t, [payload, Zeros(MIB)]);
    FramedOpens(MaskedImage(blocks, hasParent, payload), p, l.batOffset, l.batLength, t.entries, true);
  }

  /** The two slots of the image. */
  lemma MaskedSlots(blocks: nat, hasParent: bool, payload: Buffer)
    requires 0 < blocks <= 4097 && |payload| == MIB
    ensures
      var data := MaskedImage(blocks, hasParent, payload);
      && START + 2 * MIB <= |data| && Slice(data, START, MIB) == payload && Slice(data, START + MIB, MIB) == Zeros(MIB)
  {
    MaskedSlot(blocks, hasParent, payload, 0);
    MaskedSlot(blocks, hasParent, payload, 1);
  }

  lemma MaskedSlot(blocks: nat, hasParent: bool, payload: Buffer, k: nat)
    requires 0 < blocks <= 4097 && |payload| == MIB && k < 2
    ensures
      var data := MaskedImage(blocks, hasParent, payload);
      START + k * MIB + MIB <= |data| && Slice(data, START + k * MIB, MIB) == [payload, Zeros(MIB)][k]
  {
    PlanFits(blocks, hasParent);
    hide Fits, Plan, FinishedImage, MaskedTable, TotalEntries, SlotEntry, WriterParams.TotalEntries, Holds, WriterParams.Usable;
    PayloadInSlot(Params(blocks, hasParent, false), Plan(blocks, hasParent), MaskedTable(blocks, hasParent), [payload, Zeros(MIB)], k);
    HeldSlot(MaskedImage(blocks, hasParent, payload), [payload, Zeros(MIB)][k], k);
  }

  lemma HeldSlot(data: Buffer, buf: Buffer, k: nat)
    requires k < 2 && Holds(data, SlotEntry(START, MIB, k), Stored(buf), MIB, START)
    ensures START + k * MIB + MIB <= |data| && Slice(data, START + k * MIB, MIB) == buf
  {
    hide SlotEntry, BatEntry.FileOffset, BatEntry.State;
    SlotFits(START, MIB, k, 2);
  }

  /** What is needed of the opened image to read its blocks. */
  ghost predicate IsMasked(d: VhdxDisk, data: Buffer, blocks: nat, payload: Buffer) {
    && d.Valid() && d.BlockSize() == MIB && d.SectorSize() == 512 && d.SectorsPerBlock() == 2048 && d.BlockCount() == blocks > 0
    && |payload| == MIB
    && (forall b :: 0 <= b < blocks ==>
          d.bat.PayloadEntry(b) == Some(if b == 0 then NewEntry(PARTIALLY_PRESENT, START) else EMPTY))
    && d.bat.BitmapEntry(0) == Some(NewEntry(BITMAP_PRESENT, START + MIB))
    && START + 2 * MIB <= |data| && Slice(data, START, MIB) == payload && Slice(data, START + MIB, MIB) == Zeros(MIB)
  }

  lemma MaskedDisk(blocks: nat, hasParent: bool, payload: Buffer)
    requires 0 < blocks <= 4097 && (hasParent || blocks == 4097) && |payload| == MIB
    ensures
      var data := MaskedImage(blocks, hasParent, payload);
      && OpenDisk(data, true).Ok? && IsMasked(OpenDisk(data, true).value, data, blocks, payload)
      && OpenDisk(data, true).value.metadata == Params(blocks, hasParent, false).Meta()
  {
    MaskedOpens(blocks, hasParent, payload);
    MaskedSlots(blocks, hasParent, payload);
    hide MaskedImage, OpenDisk, MaskedTable, TotalEntries, Table.PayloadEntry, Table.BitmapEntry, Params, NewEntry;
    MaskedGeometry(OpenDisk(MaskedImage(blocks, hasParent, payload), true).value, blocks, hasParent);
    forall b | 0 <= b < blocks
      ensures MaskedTable(blocks, hasParent).PayloadEntry(b) == Some(if b == 0 then NewEntry(PARTIALLY_PRESENT, START) else EMPTY)
    {
      MaskedEntries(blocks, hasParent, b);
    }
    MaskedEntries(blocks, hasParent, 0);
  }

  lemma MaskedGeometry(d: VhdxDisk, blocks: nat, hasParent: bool)
    requires 0 < blocks <= 4097 && d.Valid() && d.metadata == Params(blocks, hasParent, false).Meta()
    ensures d.BlockSize() == MIB && d.SectorSize() == 512 && d.SectorsPerBlock() == 2048 && d.BlockCount() == blocks
  {
    ParamsGeometry(blocks, hasParent, false);
  }

  /** Block 0 reads as partially present without any sector; every other block is absent. */
  lemma MaskedBlocks(d: VhdxDisk, data: Buffer, blocks: nat, payload: Buffer, b: nat)
    requires IsMasked(d, data, blocks, payload) && b < blocks
    ensures ReadBlock(d, data, b) == Ok(if b == 0 then Partial(payload, Zeros(256)) else Absent)
  {
    hide Table.PayloadEntry, Table.BitmapEntry, NewEntry;
    if b == 0 {
      EntryUnpacks(PARTIALLY_PRESENT, START);
      EntryUnpacks(BITMAP_PRESENT, START + MIB);
      PartialReads(d, data, NewEntry(PARTIALLY_PRESENT, START), NewEntry(BITMAP_PRESENT, START + MIB));
      ZeroPart(data, START + MIB, MIB, 256);
    } else {
      AbsentReads(d, data, b);
    }
  }

  lemma ZeroPart(data: Buffer, off: nat, len: nat, n: nat)
    requires off + len <= |data| && n <= len && Slice(data, off, len) == Zeros(len)
    ensures ReadShort(data, off, n) == Zeros(n)
  {
    ShortInside(data, off, n);
    forall i | 0 <= i < n
      ensures Slice(data, off, n)[i] == 0
    {
      assert Slice(data, off, len)[i] == data[off + i];
    }
  }

  lemma AbsentReads(d: VhdxDisk, data: Buffer, b: nat)
    requires d.Valid() && b < d.BlockCount() && d.bat.PayloadEntry(b) == Some(EMPTY)
    ensures ReadBlock(d, data, b) == Ok(Absent)
  {
    hide Table.PayloadEntry;
  }

  lemma MaskedEntries(blocks: nat, hasParent: bool, b: nat)
    requires 0 < blocks <= 4097 && (hasParent || blocks == 4097) && b < blocks
    ensures
      var t := MaskedTable(blocks, hasParent);
      && t.PayloadEntry(b) == Some(if b == 0 then NewEntry(PARTIALLY_PRESENT, START) else EMPTY)
      && t.BitmapEntry(0) == Some(NewEntry(BITMAP_PRESENT, START + MIB))
  {
    hide PayloadIndex, BitmapIndex, TotalEntries, NewEntry, MaskedTable;
    EveryBlockHasEntry(b, blocks, 4096, hasParent);
    PayloadIsNeverBitmap(b, 0, 4096);
    FirstIndices(blocks, hasParent);
    if b > 0 {
      PayloadIndexIncreases(0, b, 4096);
    }
    MaskedEntryAt(blocks, hasParent, PayloadIndex(b, 4096));
    MaskedEntryAt(blocks, hasParent, 4096);
  }

  lemma MaskedEntryAt(blocks: nat, hasParent: bool, i: nat)
    requires i < TotalEntries(blocks, 4096, hasParent)
    ensures MaskedTable(blocks, hasParent).entries[i] ==
            if i == 0 then NewEntry(PARTIALLY_PRESENT, START) else if i == 4096 then NewEntry(BITMAP_PRESENT, START + MIB) else EMPTY
  {
    hide TotalEntries, NewEntry;
  }

  lemma FirstIndices(blocks: nat, hasParent: bool)
    requires 0 < blocks <= 4097 && (hasParent || blocks == 4097)
    ensures BitmapIndex(0, 4096) == 4096 && PayloadIndex(0, 4096) == 0
    ensures 4096 < TotalEntries(blocks, 4096, hasParent)
  {
    ZeroIndices();
    hide TotalEntries, PayloadIndex, BitmapIndex;
    EveryBlockHasEntry(blocks - 1, blocks, 4096, hasParent);
    EveryBlockHasEntry(0, blocks, 4096, hasParent);
    PayloadIndexIs(blocks - 1, 4096);
  }

  lemma ZeroIndices()
    ensures BitmapIndex(0, 4096) == 4096 && PayloadIndex(0, 4096) == 0
  {
    DivModUnique(0, 4096, 0, 0);
  }

  lemma PartialReads(d: VhdxDisk, data: Buffer, e: BatEntry, sb: BatEntry)
    requires d.Valid() && d.BlockCount() > 0 && d.BlockSize() > 0 && d.bat.PayloadEntry(0) == Some(e) && d.bat.BitmapEntry(0) == Some(sb)
    requires e.State() == PARTIALLY_PRESENT && sb.State() == BITMAP_PRESENT && e.FileOffset() + d.BlockSize() <= |data|
    ensures ReadBlock(d, data, 0) ==
            Ok(Partial(Slice(data, e.FileOffset(), d.BlockSize()), ReadShort(data, sb.FileOffset(), (d.SectorsPerBlock() + 7) / 8)))
  {
    hide BatEntry.State, BatEntry.FileOffset, Table.PayloadEntry, Table.BitmapEntry, ReadShort;
    DivModUnique(0, d.bat.chunkRatio, 0, 0);
    assert FirstBit(0, d.bat.chunkRatio, d.SectorsPerBlock()) == 0;
  }

  // ---- Compacting it ----

  const ONES: Buffer := seq(MIB, _ => 1)

  /** The masked bytes are 1, the guest reads 0, and every block can be read. */
  lemma OnesAreMasked(d: VhdxDisk, data: Buffer)
    requires IsMasked(d, data, 4097, ONES)
    ensures Link(d, data).Valid() && AllBlocksRead(Link(d, data), 4097) && !Unmasked(Link(d, data))
  {
    hide ReadBlock, IsMasked, BitIsSet;
    MaskedShape(d, data, 4097, ONES);
    forall b | 0 <= b < 4097
      ensures ReadBlock(d, data, b).Ok?
    {
      MaskedBlocks(d, data, 4097, ONES, b);
    }
    MaskedBlocks(d, data, 4097, ONES, 0);
    NoBitSet(256, 0);
    OnesSector(ONES, 0, 512);
    assert !NothingMasked(ReadBlock(d, data, 0).value, 2048, 512);
  }

  lemma MaskedShape(d: VhdxDisk, data: Buffer, blocks: nat, payload: Buffer)
    requires IsMasked(d, data, blocks, payload)
    ensures Link(d, data).Valid() && d.SectorsPerBlock() == 2048 && d.SectorSize() == 512 && d.BlockCount() == blocks
    ensures d.BlockSize() == MIB
  {
  }

  lemma NoBitSet(n: nat, i: nat)
    ensures !BitIsSet(Zeros(n), i)
  {
    if i / 8 < n {
      assert 0 / Pow2(i % 8) == 0;
    }
  }

  lemma ParamsFlatten(blocks: nat, d: VhdxDisk)
    requires 0 < blocks <= 4097 && d.metadata == Params(blocks, false, false).Meta()
    ensures Flattenable(d.metadata) && !d.HasParent()
  {
    ParamsGeometry(blocks, false, false);
    ParamsUsable(blocks, false, false);
    assert OutputParams(d.metadata, false, NIL, NIL) == Params(blocks, false, false);
    hide WriterParams.Usable, WriterParams.TotalEntries, WriterParams.BatLength, PayloadStart;
  }

  /** Compacts an image in which one block masks data: it succeeds, and the output shows another disk. */
  method CompactShowsMaskedData() returns (file: File, d: VhdxDisk, r: Result<CompactReport>, out: File)
    ensures OpenDisk(file.data, true) == Ok(d) && Link(d, file.data).Valid() && r.Ok?
    ensures !Unmasked(Link(d, file.data))
    ensures !IsFlat(out.data, OutputParams(d.metadata, false, NIL, NIL), [Link(d, file.data)])
  {
    hide OpenDisk, MaskedImage, IsMasked, Flattenable, IsFlat, Unmasked, AllBlocksRead, Params;
    file := new File();
    MaskedDisk(4097, false, ONES);
    file.WriteAllAt(0, MaskedImage(4097, false, ONES));
    WholeFile(MaskedImage(4097, false, ONES));
    var parsed := OpenFile(file, true);
    d := parsed.value;
    OnesAreMasked(d, file.data);
    MaskedShape(d, file.data, 4097, ONES);
    ParamsFlatten(4097, d);
    r, out := CompactImage(file, d, 4096, NIL, NIL);
  }

  lemma WholeFile(data: Buffer)
    ensures Written([], 0, data) == data
  {
  }

  // ---- Merging it ----

  /** A parent without the block: the merge would hide whatever lies below it. */
  lemma MaskedOverNothing(l: Link, p: Link)
    requires IsMasked(l.disk, l.data, 1, Zeros(MIB)) && p.Valid() && SameGeometry(l.disk, p.disk) && l.Valid()
    requires ReadBlock(p.disk, p.data, 0) == Ok(Absent)
    ensures AllBlocksRead(l, l.disk.BlockCount()) && Exposed(l, p, 0) && !ExposedAreZero(l, p)
  {
    MaskedShape(l.disk, l.data, 1, Zeros(MIB));
    MaskedBlocks(l.disk, l.data, 1, Zeros(MIB), 0);
    NoBitSet(256, 0);
    AbsentIsNotFull(p, 0);
    hide ReadBlock, IsMasked, BitIsSet, StateUnder;
    assert p.disk.SectorsPerBlock() == 2048;
    assert LinkSector(p, 0) == Missing;
  }

  lemma AbsentIsNotFull(p: Link, b: nat)
    requires p.Valid() && ReadBlock(p.disk, p.data, b) == Ok(Absent)
    ensures StateUnder(p, b) != FullyPresent
  {
  }

  /** Merges a child with one partially present block into a parent that lacks it, and so decides what the guest reads there. */
  method MergeHidesWhatLiesBelow() returns (child: File, childDisk: VhdxDisk, before: Buffer, parent: File)
    ensures OpenDisk(child.data, true) == Ok(childDisk) && OpenDisk(before, true).Ok? && OpenDisk(parent.data, true).Ok?
    ensures
      var l, p := Link(childDisk, child.data), Link(OpenDisk(before, true).value, before);
      var m := Link(OpenDisk(parent.data, true).value, parent.data);
      IsMerged(l, p, m) && !ExposedAreZero(l, p) && !KeepsEveryView(l, p, m)
    ensures
      var d := OpenDisk(before, true).value;
      CommitHides(before, d, Link(childDisk, child.data), NewIdentity(d.headers.Active(), NIL, NIL))
  {
    hide OpenDisk, MaskedImage, IsMasked, IsMerged, ExposedAreZero, KeepsEveryView, AllBlocksRead, Mergeable, ReadBlock, Finished,
      WriterParams.Usable, Exposed, MergeDone, NewIdentity, Framed, BlocksHold, Reads, AlignUp, IsCommitted, CommitHides, Merged, Refusal;
    child := new File();
    MaskedDisk(1, true, Zeros(MIB));
    child.WriteAllAt(0, MaskedImage(1, true, Zeros(MIB)));
    WholeFile(MaskedImage(1, true, Zeros(MIB)));
    var childOpened := OpenFile(child, true);
    childDisk := childOpened.value;
    MaskedShape(childDisk, child.data, 1, Zeros(MIB));
    ParamsGeometry(1, true, false);
    ParamsUsable(1, true, false);
    var w := new VhdxWriter(Params(1, true, false));
    w.Finish();
    parent := w.file;
    before := parent.data;
    FourMiBs();
    FinishedIsMergeable(before, w.p, w.bat.Value(), w.recorded);
    FreshReads(before, w.p, w.recorded);
    ghost var l, p := Link(childDisk, child.data), Link(OpenDisk(before, true).value, before);
    MaskedOverNothing(l, p);
    var r := MergeInto(child, childDisk, parent, None, NIL, NIL);
    MergedParts(l, p, parent.data, NIL, NIL);
    MergeKeepsEveryViewIff(l, p, Link(OpenDisk(parent.data, true).value, parent.data));
    ExposedIsHidden(before, p.disk, l, parent.data, NIL, NIL);
  }

  lemma MergedParts(l: Link, p: Link, after: Buffer, dataGuid: Guid, fileGuid: Guid)
    requires Merged(l, p, after, dataGuid, fileGuid)
    ensures OpenDisk(after, true).Ok? && IsMerged(l, p, Link(OpenDisk(after, true).value, after))
    ensures IsCommitted(p.data, p.disk, l, after, NewIdentity(p.disk.headers.Active(), dataGuid, fileGuid))
  {
    hide OpenDisk, IsMerged, IsCommitted, NewIdentity, IdentityWritten;
  }

  /** A fresh image of one block: the block is not there. */
  lemma FreshReads(data: Buffer, p: WriterParams, recorded: seq<Recorded>)
    requires Reads(data, p, recorded) && recorded == [Unset] && p.logicalSectorSize == 512 && p.blockSize == MIB
    ensures OpenDisk(data, true).Ok? && OpenDisk(data, true).value.metadata == p.Meta()
    ensures Link(OpenDisk(data, true).value, data).Valid() && ReadBlock(OpenDisk(data, true).value, data, 0) == Ok(Absent)
  {
    hide OpenDisk, ReadsAs;
    FirstRead(OpenDisk(data, true).value, data, recorded);
  }

  lemma FirstRead(d: VhdxDisk, data: Buffer, recorded: seq<Recorded>)
    requires ReadsAs(d, data, recorded) && recorded == [Unset]
    ensures ReadBlock(d, data, 0) == Ok(Absent)
  {
    hide ReadBlock;
    assert ReadBlock(d, data, 0) == Ok(Expected(recorded[0], d.BlockSize()));
  }

  lemma FourMiBs()
    ensures AlignUp(4 * MIB, MIB) == 4 * MIB
  {
  }
}
