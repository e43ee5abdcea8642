/** Images on which checking and repairing promise too much (repair.rs, header.rs, log.rs). */
module FailingRepair {
  import opened Wrappers
  import opened Bytes
  import opened FileIo
  import opened Format
  import opened Headers
  import opened Regions
  import opened BlockTable
  import opened MetadataRegion
  import opened Disks
  import opened Images
  import opened ImageBlocks
  import opened Placement
  import opened Writer
  import Log
  import Fsck
  import FsckRuns
  import FailingImages
  import TableCheck
  import ZstWriter

  const LOG_GUID: Guid := [1, 1, 1, 1, 1, 1, 1, 1, 1, 1, 1, 1, 1, 1, 1, 1]

  /** A header that names a log. */
  function DirtyHeader(p: WriterParams): (h: Header)
    requires p.logSize < U32
    ensures h.version == 1 && h.logVersion == 0 && h.sequenceNumber == 5 && h.logGuid == LOG_GUID
    ensures h.logLength == p.logSize && h.logOffset == MIB
  {
    p.HeaderWith(5).(logGuid := LOG_GUID)
  }

  lemma NoHeaderInZeros(data: Buffer)
    requires SLOTS_END <= |data| && Slice(data, HeaderOffset(1), HEADER_SIZE) == Zeros(HEADER_SIZE)
    ensures SlotOf(data, 1) == None
  {
    assert Slice(Zeros(HEADER_SIZE), 0, 4)[0] == 0;
  }

  /** The first header names a log, the second is gone, and the log is empty. */
  function Damaged(data: Buffer, p: WriterParams): Buffer
    requires p.logSize < U32
  {
    Written(HeadersDamaged(data, p), MIB, Zeros(p.logSize))
  }

  function HeadersDamaged(data: Buffer, p: WriterParams): Buffer
    requires p.logSize < U32
  {
    Written(Written(data, HeaderOffset(0), EncodeHeader(DirtyHeader(p))), HeaderOffset(1), Zeros(HEADER_SIZE))
  }

  lemma DamagedSlots(data: Buffer, p: WriterParams)
    requires p.logSize < U32 && MIB + p.logSize <= |data|
    ensures |Damaged(data, p)| == |data|
    ensures SlotsOf(Damaged(data, p)) == Slots(Some(Content(DirtyHeader(p))), None)
    ensures ReadExact(Damaged(data, p), MIB, p.logSize) == Ok(Zeros(p.logSize))
  {
    hide EncodeHeader, ParseHeader;
    var d1 := Written(data, HeaderOffset(0), EncodeHeader(DirtyHeader(p)));
    var d2 := Written(d1, HeaderOffset(1), Zeros(HEADER_SIZE));
    var d3 := Written(d2, MIB, Zeros(p.logSize));
    SlotWritten(data, 0, DirtyHeader(p));
    WrittenReadsBack(d1, HeaderOffset(1), Zeros(HEADER_SIZE));
    OtherSlotKept(d1, d2, 1);
    NoHeaderInZeros(d2);
    LogKeeps(d2, p.logSize, 0, MIB);
    SlotsByPrefix(d2, d3);
    if p.logSize > 0 {
      WrittenReadsBack(d2, MIB, Zeros(p.logSize));
    }
  }

  lemma LogKeeps(data: Buffer, size: nat, at: nat, n: nat)
    requires at + n <= |data| && (at + n <= MIB || MIB + size <= at)
    ensures Same(data, Written(data, MIB, Zeros(size)), at, n)
  {
    if size > 0 {
      WrittenKeepsRange(data, MIB, Zeros(size), at, n);
    }
  }

  /** What lies clear of the headers and the log is as before. */
  lemma DamagedKeeps(data: Buffer, p: WriterParams, at: nat, n: nat)
    requires p.logSize < U32 && at + n <= |data| && ClearOfHeaders(at, n) && (at + n <= MIB || MIB + p.logSize <= at)
    ensures Same(data, Damaged(data, p), at, n)
  {
    hide EncodeHeader;
    var d1 := Written(data, HeaderOffset(0), EncodeHeader(DirtyHeader(p)));
    var d2 := Written(d1, HeaderOffset(1), Zeros(HEADER_SIZE));
    WrittenKeepsRange(data, HeaderOffset(0), EncodeHeader(DirtyHeader(p)), at, n);
    WrittenKeepsRange(d1, HeaderOffset(1), Zeros(HEADER_SIZE), at, n);
    LogKeeps(d2, p.logSize, at, n);
    SameAgain(data, d1, d2, at, n);
    SameAgain(data, d2, Damaged(data, p), at, n);
  }

  // ---- The regions of a finished image ----

  /** Identifier, region tables, metadata and table as in the finished image. */
  ghost predicate SameRegions(data: Buffer, after: Buffer, p: WriterParams)
    requires p.Meta().HasGeometry()
  {
    && FsckRuns.SameFixed(data, after)
    && Same(data, after, p.MetadataOffset(), MIB)
    && Same(data, after, BatOffset(p), p.BatLength())
  }

  ghost predicate RegionsOk(data: Buffer, es: seq<RegionEntry>) {
    && FileTypeOk(data).Ok? && ReadRegions(data) == Ok(RegionPair(true, true, RegionTable(true, es))) && LayoutValid(es)
    && ReadTables(data, es).Ok?
  }

  lemma FinishedRegions(data: Buffer, p: WriterParams, t: Table, recorded: seq<Recorded>)
    requires Finished(data, p, t, recorded) && p.Meta().HasGeometry() && p.MetadataOffset() < U64 && BatOffset(p) < U64 && p.BatLength() < U32
    ensures RegionsOk(data, RegionList(p.MetadataOffset(), BatOffset(p), p.BatLength()))
    ensures PayloadStart(p) <= |data|
  {
    LayoutOrder(p);
    LayoutAligned(p);
    var es := RegionList(p.MetadataOffset(), BatOffset(p), p.BatLength());
    hide WriterParams.Usable, BlocksHold, EncodeHeader, EncodeRegions, EncodeMetadata, ReadTables, ReadRegions, LayoutValid,
      PlacedApart, EncodeEntries, RegionList, WriterParams.MetadataOffset, WriterParams.BatLength;
    RegionListValid(p.MetadataOffset(), BatOffset(p), p.BatLength());
    TwoRegions(p.MetadataOffset(), BatOffset(p), p.BatLength());
    RegionTablesRead(data, es);
    TablesRead(data, p, BatOffset(p), p.BatLength(), t.entries);
  }

  lemma TwoRegions(metadataOffset: Word64, batOffset: Word64, batLength: Word32)
    ensures |RegionList(metadataOffset, batOffset, batLength)| == 2
    ensures RegionList(metadataOffset, batOffset, batLength)[0].fileOffset == metadataOffset
    ensures RegionList(metadataOffset, batOffset, batLength)[0].length == MIB
    ensures RegionList(metadataOffset, batOffset, batLength)[1].fileOffset == batOffset
    ensures RegionList(metadataOffset, batOffset, batLength)[1].length == batLength
  {
  }

  /** Files that agree on the regions read the same tables. */
  lemma RegionsStayOk(data: Buffer, after: Buffer, p: WriterParams)
    requires p.Meta().HasGeometry() && p.MetadataOffset() < U64 && BatOffset(p) < U64 && p.BatLength() < U32
    requires SameRegions(data, after, p) && RegionsOk(data, RegionList(p.MetadataOffset(), BatOffset(p), p.BatLength()))
    ensures RegionsOk(after, RegionList(p.MetadataOffset(), BatOffset(p), p.BatLength()))
  {
    hide LayoutValid, ReadRegions, FileTypeOk, ParseMetadata, ParseTable, WriterParams.MetadataOffset, WriterParams.BatLength, BatOffset;
    FsckRuns.FixedReads(data, after);
    SameRange(data, after, p.MetadataOffset(), MIB, p.MetadataOffset(), MIB);
    SameRange(data, after, BatOffset(p), p.BatLength(), BatOffset(p), p.BatLength());
    RegionsFound(p.MetadataOffset(), BatOffset(p), p.BatLength());
  }

  lemma UpdateKeepsRegions(data: Buffer, next: Header, p: WriterParams)
    requires p.Meta().HasGeometry() && FsckRuns.SECTION_END <= |data| && MIB <= p.MetadataOffset() && MIB <= BatOffset(p)
    requires p.MetadataOffset() + MIB <= |data| && BatOffset(p) + p.BatLength() <= |data|
    ensures |Updated(data, next)| == |data| && SameRegions(data, Updated(data, next), p)
  {
    hide Updated, WriterParams.MetadataOffset, WriterParams.BatLength, BatOffset;
    FsckRuns.UpdateKeepsFixed(data, next);
    UpdateKeepsRange(data, next, p.MetadataOffset(), MIB);
    UpdateKeepsRange(data, next, BatOffset(p), p.BatLength());
  }

  // ---- The log ----

  lemma {:induction false} NothingInZeros(n: nat, guid: Guid, cursor: nat)
    ensures Log.Walk(Zeros(n), guid, cursor) == Ok([])
    decreases n - cursor
  {
    if cursor + LOG_SECTOR_SIZE <= n {
      assert Slice(Zeros(n), cursor, 4)[0] == 0;
      assert Log.EntryLength(Zeros(n), cursor).None?;
      NothingInZeros(n, guid, cursor + LOG_SECTOR_SIZE);
    }
  }

  /** An empty log scans as empty, whatever the scan is asked. */
  lemma EmptyLogScans(data: Buffer, h: Header, r: Result<Log.LogScan>)
    requires ReadExact(data, h.logOffset, h.logLength) == Ok(Zeros(h.logLength)) && Log.IsScan(data, h, r)
    ensures r.Ok? && r.value.active == []
  {
    NothingInZeros(h.logLength, h.logGuid, 0);
    hide Log.Walk;
  }

  // ---- The run ----

  /** Where the regions of the image lie, and that its log is not empty. */
  predicate Shape(p: WriterParams)
    requires p.Meta().HasGeometry()
  {
    && p.MetadataOffset() == 2 * MIB && BatOffset(p) == 3 * MIB && p.BatLength() == MIB && PayloadStart(p) == 4 * MIB
    && p.logSize == MIB
  }

  function ListOf(p: WriterParams): seq<RegionEntry>
    requires p.Meta().HasGeometry() && Shape(p)
  {
    RegionList(2 * MIB, 3 * MIB, MIB)
  }

  /** The damaged image still opens for repair: one header is left, and it names the log. */
  ghost predicate OpensDamaged(before: Buffer, p: WriterParams, pair: HeaderPair)
    requires p.Meta().HasGeometry() && Shape(p)
  {
    && 4 * MIB <= |before| && RegionsOk(before, ListOf(p))
    && Fsck.Opened(before) == Ok((pair, RegionPair(true, true, RegionTable(true, ListOf(p)))))
    && SlotsOf(before) == Slots(Some(Content(DirtyHeader(p))), None)
    && Content(pair.Active()) == Content(DirtyHeader(p)) && !Fsck.HeadersBoth(pair)
    && ReadExact(before, MIB, MIB) == Ok(Zeros(MIB))
  }

  lemma DamagedOpens(data: Buffer, p: WriterParams, t: Table, recorded: seq<Recorded>) returns (pair: HeaderPair)
    requires Finished(data, p, t, recorded) && p.Meta().HasGeometry() && Shape(p)
    ensures OpensDamaged(Damaged(data, p), p, pair)
  {
    FinishedRegions(data, p, t, recorded);
    hide Finished, Damaged, RegionsOk, RegionList, WriterParams.MetadataOffset, WriterParams.BatLength, BatOffset, PayloadStart,
      ReadPair, SlotsOf;
    var before := Damaged(data, p);
    DamagedSlots(data, p);
    DamagedKeeps(data, p, 0, 8);
    DamagedKeeps(data, p, RegionTableOffset(0), REGION_TABLE_SIZE);
    DamagedKeeps(data, p, RegionTableOffset(1), REGION_TABLE_SIZE);
    DamagedKeeps(data, p, 2 * MIB, MIB);
    DamagedKeeps(data, p, 3 * MIB, MIB);
    RegionsStayOk(data, before, p);
    RegionsAre(before, ListOf(p));
    FsckRuns.PairOfSlots(before);
    FsckRuns.SlotsOfPair(before);
    pair := ReadPair(before).value;
    FsckRuns.OpensFromParts(before, pair, RegionPair(true, true, RegionTable(true, ListOf(p))));
  }

  lemma RegionsAre(data: Buffer, es: seq<RegionEntry>)
    requires RegionsOk(data, es)
    ensures FileTypeOk(data).Ok? && ReadRegions(data) == Ok(RegionPair(true, true, RegionTable(true, es))) && LayoutValid(es)
    ensures ReadTables(data, es).Ok?
  {
    hide ReadRegions, ReadTables, LayoutValid;
  }

  lemma SameRegionsAgain(a: Buffer, b: Buffer, c: Buffer, p: WriterParams)
    requires p.Meta().HasGeometry() && SameRegions(a, b, p) && SameRegions(b, c, p)
    ensures SameRegions(a, c, p)
  {
    hide WriterParams.MetadataOffset, WriterParams.BatLength, BatOffset;
  }

  /** Repairing the headers leaves regions and log as they are. */
  lemma RepairKeeps(before: Buffer, p: WriterParams, pair: HeaderPair)
    requires p.Meta().HasGeometry() && Shape(p) && OpensDamaged(before, p, pair)
    ensures |ListOf(p)| <= MAX_ENTRIES
    ensures
      var after := Fsck.Repaired(before, true, pair, RegionPair(true, true, RegionTable(true, ListOf(p))));
      && |after| == |before| && SameRegions(before, after, p) && ReadExact(after, MIB, MIB) == Ok(Zeros(MIB))
  {
    TwoRegions(2 * MIB, 3 * MIB, MIB);
    hide RegionsOk, RegionList, WriterParams.MetadataOffset, WriterParams.BatLength, BatOffset, PayloadStart, ReadPair, SlotsOf,
      Updated, Fsck.Opened, SameRegions, Successor;
    var next := Successor(pair.Active(), (h: Header) => h);
    var d1 := Updated(before, next);
    UpdateKeepsRegions(before, next, p);
    UpdateKeepsRegions(d1, next, p);
    SameRegionsAgain(before, d1, Updated(d1, next), p);
    UpdateKeepsRange(before, next, MIB, MIB);
    UpdateKeepsRange(d1, next, MIB, MIB);
    SameRange(before, d1, MIB, MIB, MIB, MIB);
    SameRange(d1, Updated(d1, next), MIB, MIB, MIB, MIB);
  }

  const OPTIONS: Fsck.FsckOptions := Fsck.FsckOptions(true, false, true)

  /** With an empty log to discard, the log is cleared. */
  lemma LogIsDiscarded(data: Buffer, active: Header, scan: Log.LogScan, status: Fsck.LogStatus, after: Buffer)
    requires active.logGuid == LOG_GUID && active.logOffset == MIB && active.logLength == MIB
    requires ReadExact(data, MIB, MIB) == Ok(Zeros(MIB))
    requires Fsck.LogHandled(data, OPTIONS, active, scan, status, after)
    ensures scan.active == [] && status == Fsck.Discarded && after == Updated(data, Fsck.Cleared(active))
  {
    assert LOG_GUID[0] == 1 && NIL[0] == 0;
    EmptyLogScans(data, active, Ok(scan));
    hide Log.IsScan, Updated, Fsck.Cleared, Log.Replayed, Log.AllIndexed, ReadExact;
  }

  lemma SameActive(p: WriterParams, active: Header)
    requires p.logSize == MIB && Content(active) == Content(DirtyHeader(p))
    ensures active.logGuid == LOG_GUID && active.logOffset == MIB && active.logLength == MIB && active.sequenceNumber == 5
  {
  }

  /** However the log was handled, the tables can then be read. */
  lemma TablesStillRead(before: Buffer, p: WriterParams, pair: HeaderPair, scan: Log.LogScan, status: Fsck.LogStatus, after: Buffer)
    requires p.Meta().HasGeometry() && Shape(p) && OpensDamaged(before, p, pair) && |ListOf(p)| <= MAX_ENTRIES
    requires
      var regions := RegionPair(true, true, RegionTable(true, ListOf(p)));
      Fsck.LogHandled(Fsck.Repaired(before, true, pair, regions), OPTIONS, pair.Active(), scan, status, after)
    ensures scan.active == [] && status == Fsck.Discarded && Fsck.Issues(after, ListOf(p)).Ok?
  {
    hide RegionsOk, WriterParams.MetadataOffset, WriterParams.BatLength, BatOffset, PayloadStart, ReadPair, SlotsOf, RegionList,
      Updated, Fsck.Opened, SameRegions, Fsck.Repaired, Fsck.LogHandled, ReadTables, Fsck.Cleared, ReadExact;
    var repaired := Fsck.Repaired(before, true, pair, RegionPair(true, true, RegionTable(true, ListOf(p))));
    RepairKeeps(before, p, pair);
    SameActive(p, pair.Active());
    LogIsDiscarded(repaired, pair.Active(), scan, status, after);
    UpdateKeepsRegions(repaired, Fsck.Cleared(pair.Active()), p);
    SameRegionsAgain(before, repaired, after, p);
    RegionsStayOk(before, after, p);
    RegionsAre(after, ListOf(p));
  }

  /** The run succeeds, discards the log, and leaves headers that are not safe. */
  lemma RunIsUnsafe(before: Buffer, p: WriterParams, pair: HeaderPair, scan: Log.LogScan, r: Result<Fsck.FsckReport>, after: Buffer)
    requires p.Meta().HasGeometry() && Shape(p) && OpensDamaged(before, p, pair)
    requires Fsck.Outcome(before, OPTIONS, scan, r, after)
    ensures r.Ok? && r.value.log == Fsck.Discarded
    ensures FsckRuns.SECTION_END <= |after| && !SlotsOf(after).Coherent()
  {
    var regions := RegionPair(true, true, RegionTable(true, ListOf(p)));
    hide RegionsOk, WriterParams.MetadataOffset, WriterParams.BatLength, BatOffset, PayloadStart, ReadPair, SlotsOf, RegionList,
      Updated, Fsck.Opened, Fsck.Repaired, Fsck.LogHandled, Fsck.Issues, ReadExact, Log.IsScan;
    RepairKeeps(before, p, pair);
    SameActive(p, pair.Active());
    forall status | Fsck.LogHandled(Fsck.Repaired(before, true, pair, regions), OPTIONS, pair.Active(), scan, status, after)
      ensures scan.active == [] && status == Fsck.Discarded && Fsck.Issues(after, ListOf(p)).Ok?
    {
      TablesStillRead(before, p, pair, scan, status, after);
    }
    forall e | Log.IsScan(Fsck.Repaired(before, true, pair, regions), pair.Active(), Err(e))
      ensures false
    {
      EmptyLogScans(Fsck.Repaired(before, true, pair, regions), pair.Active(), Err(e));
    }
    FsckRuns.SafeAfterRunIff(before, OPTIONS, scan, r.value, after);
    assert LOG_GUID[0] == 1 && NIL[0] == 0;
  }

  /** Repairs an image with one valid header and an empty log: the run succeeds, and a torn header update now revives the log. */
  method RepairLeavesUnsafeHeaders() returns (file: File, r: Result<Fsck.FsckReport>)
    ensures r.Ok? && r.value.log == Fsck.Discarded
    ensures FsckRuns.SECTION_END <= |file.data| && !SlotsOf(file.data).Coherent()
    ensures forall update :: Follows(SlotsOf(file.data), update) ==>
              Update(SlotsOf(file.data), update, Torn).Active() != SlotsOf(file.data).Active()
  {
    hide Finished, Damaged, WriterParams.Usable, SlotsOf, OpensDamaged, Fsck.Outcome, WriterParams.MetadataOffset,
      WriterParams.BatLength, BatOffset, PayloadStart, Framed, BlocksHold, Reads, FailingImages.Params;
    var p := FailingImages.Params(1, false, false);
    FailingImages.ParamsGeometry(1, false, false);
    FailingImages.ParamsUsable(1, false, false);
    ShapeOf();
    var w := new VhdxWriter(p);
    w.Finish();
    file := w.file;
    ghost var pair := DamagedOpens(file.data, p, w.bat.Value(), w.recorded);
    ghost var data := file.data;
    DamagedIs(data, p);
    file.WriteAllAt(HeaderOffset(0), EncodeHeader(DirtyHeader(p)));
    file.WriteAllAt(HeaderOffset(1), Zeros(HEADER_SIZE));
    file.WriteAllAt(MIB, Zeros(MIB));
    ghost var before := file.data;
    ghost var scan;
    r, scan := Fsck.CheckFile(file, OPTIONS);
    RunIsUnsafe(before, p, pair, scan, r, file.data);
    forall update | Follows(SlotsOf(file.data), update)
      ensures Update(SlotsOf(file.data), update, Torn).Active() != SlotsOf(file.data).Active()
    {
      TornUpdateIsSafeIff(SlotsOf(file.data), update);
    }
  }

  lemma ShapeOf()
    ensures
      var p := FailingImages.Params(1, false, false);
      p.Meta().HasGeometry() && Shape(p)
  {
    FailingImages.ParamsGeometry(1, false, false);
    FailingImages.ParamsUsable(1, false, false);
    hide WriterParams.Usable, WriterParams.BatLength;
  }

  lemma DamagedIs(data: Buffer, p: WriterParams)
    requires p.logSize == MIB
    ensures Damaged(data, p) ==
            Written(Written(Written(data, HeaderOffset(0), EncodeHeader(DirtyHeader(p))), HeaderOffset(1), Zeros(HEADER_SIZE)),
                    MIB, Zeros(MIB))
  {
  }

  // ---- A block that ends at 2^64 ----

  const TOP_TABLE: Table := Table([TableCheck.TOP_ENTRY], 4096, 1)

  lemma TopPlanFits()
    ensures
      var p := FailingImages.Params(1, false, false);
      && p.Meta().HasGeometry() && |TOP_TABLE.entries| == p.TotalEntries()
      && p.ChunkRatio() == 4096 && p.BlockCount() == 1
      && ZstWriter.Fits(ZstWriter.Compute(p, 0, p.TotalEntries()), p, 0)
      && ZstWriter.Compute(p, 0, p.TotalEntries()).nonZeroBlocks == 0
  {
    FailingImages.ParamsGeometry(1, false, false);
    FailingImages.ParamsUsable(1, false, false);
    hide WriterParams.Usable;
  }

  /** An image of one block whose entry points one MiB below 2^64. */
  function TopImage(): Buffer {
    TopPlanFits();
    var p := FailingImages.Params(1, false, false);
    ZstWriter.FinishedImage(p, ZstWriter.Compute(p, 0, p.TotalEntries()), TOP_TABLE, [])
  }

  lemma TopImageOpens()
    ensures |TopImage()| < U64 && OpenDisk(TopImage(), true).Ok?
    ensures
      var d := OpenDisk(TopImage(), true).value;
      d.bat == TOP_TABLE && d.BlockSize() == MIB && d.BlockCount() == 1 && d.headers.Active().logGuid == NIL
  {
    var p := FailingImages.Params(1, false, false);
    var l := ZstWriter.Compute(p, 0, p.TotalEntries());
    TopPlanFits();
    ZstWriter.LayoutFits(l, p, 0);
    hide ZstWriter.Fits, Framed, TableStored, ZstWriter.FinishedImage, OpenDisk, WriterParams.Usable, PlacedApart, TotalEntries,
      WriterParams.TotalEntries, WriterParams.BatLength, WriterParams.MetadataOffset, ZstWriter.Compute;
    ZstWriter.FinishedFrame(p, l, TOP_TABLE, []);
    FramedOpens(TopImage(), p, l.batOffset, l.batLength, TOP_TABLE.entries, true);
  }

  /** What opening a disk establishes of checking it. */
  lemma OpenDiskOpens(data: Buffer, d: VhdxDisk)
    requires OpenDisk(data, true) == Ok(d)
    ensures Fsck.Opened(data) == Ok((d.headers, d.regions))
    ensures ReadTables(data, d.regions.active.entries) == Ok((d.batRegion, d.metadataRegion, d.metadata, d.bat))
  {
    hide ReadPair, ReadRegions, LayoutValid, ReadTables;
  }

  /** A run that may not write, on an image without a log: it succeeds and reports what the table check finds. */
  lemma ReadOnlyRun(data: Buffer, d: VhdxDisk, scan: Log.LogScan, r: Result<Fsck.FsckReport>, after: Buffer)
    requires OpenDisk(data, true) == Ok(d) && d.headers.Active().logGuid == NIL
    requires Fsck.Outcome(data, Fsck.FsckOptions(false, false, false), scan, r, after)
    ensures after == data && r.Ok?
    ensures r.value.issues == TableCheck.BlockIssues(d.bat, TableCheck.PayloadsAmong(|d.bat.entries|, d.bat.chunkRatio), d.BlockSize(), |data|)
  {
    hide OpenDisk, Fsck.Opened, ReadTables, TableCheck.BlockIssues, Log.IsScan, Fsck.LogHandled;
    OpenDiskOpens(data, d);
    CleanLog(data, d.headers.Active(), scan, after);
  }

  lemma CleanLog(data: Buffer, active: Header, scan: Log.LogScan, after: Buffer)
    requires active.logGuid == NIL
    ensures forall opts, status :: Fsck.LogHandled(data, opts, active, scan, status, after) ==> after == data
    ensures forall e :: !Log.IsScan(data, active, Err(e))
  {
    hide Log.Walk, Updated, Log.Replayed;
  }

  lemma TopBlockIsLost(d: VhdxDisk, data: Buffer)
    requires d.Valid() && d.bat == TOP_TABLE && d.BlockSize() == MIB && d.BlockCount() == 1 && |data| < U64
    ensures TableCheck.CleanReport(d.bat, MIB, |data|) && ReadBlock(d, data, 0).Err?
  {
    TableCheck.TopEntryPasses(0, |data|);
    assert PayloadIndex(0, 4096) == 0 && TableCheck.PayloadsAmong(1, 4096) == 1;
    assert d.bat.PayloadEntry(0) == Some(TableCheck.TOP_ENTRY);
    hide BatEntry.FileOffset, BatEntry.State, Table.PayloadEntry, TableCheck.PresentIssue;
    assert TableCheck.BlockIssues(d.bat, 1, MIB, |data|) == TableCheck.BlockIssues(d.bat, 0, MIB, |data|);
  }

  /** Checks an image whose one block cannot be read: nothing is reported. */
  method CleanReportUnreadable() returns (file: File, d: VhdxDisk, r: Result<Fsck.FsckReport>)
    ensures r.Ok? && r.value.issues == []
    ensures OpenDisk(file.data, true) == Ok(d) && d.BlockCount() == 1 && ReadBlock(d, file.data, 0).Err?
  {
    hide OpenDisk, TopImage, Fsck.Outcome, ReadBlock, TableCheck.BlockIssues;
    TopImageOpens();
    file := new File();
    file.WriteAllAt(0, TopImage());
    FailingImages.WholeFile(TopImage());
    var parsed := OpenFile(file, true);
    d := parsed.value;
    TopBlockIsLost(d, file.data);
    ghost var scan;
    ghost var before := file.data;
    r, scan := Fsck.CheckFile(file, Fsck.FsckOptions(false, false, false));
    ReadOnlyRun(before, d, scan, r, file.data);
  }
}
