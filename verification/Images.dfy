/** The frame of an image both writers produce, and how it opens (writer.rs, zst_writer.rs). */
module Images {
  import opened Wrappers
  import opened Bytes
  import opened FileIo
  import opened Format
  import opened Headers
  import opened Regions
  import opened BlockTable
  import opened MetadataRegion
  import opened ParentLocators
  import opened Disks
  import opened ChainView

  datatype WriterParams = WriterParams(
    virtualDiskSize: Word64,
    blockSize: Word32,
    logicalSectorSize: Word32,
    physicalSectorSize: Word32,
    fixed: bool,
    parentLocator: Option<ParentLocator>,
    logSize: nat,
    dataWriteGuid: Guid,
    fileWriteGuid: Guid,
    page83Data: Guid)
  {
    function Meta(): Metadata {
      Metadata(
        FileParameters(blockSize, fixed, parentLocator.Some?),
        virtualDiskSize, logicalSectorSize, physicalSectorSize, page83Data, parentLocator, [])
    }

    /** The sizes the writers divide by and narrow to 32 bits are in range, and blocks are whole MiBs. */
    predicate Usable() {
      && Meta().HasGeometry()
      && blockSize % MIB == 0
      && logSize < U32
      && MetadataRegion.Encodable(Meta(), MIB)
      && BatLength() < U32
      && MetadataOffset() + MIB + BatLength() < U64
    }

    function BlockCount(): nat
      requires Meta().HasGeometry()
    {
      Meta().BlockCount()
    }

    function ChunkRatio(): (r: nat)
      requires Meta().HasGeometry()
      ensures r > 0
    {
      GeometryHasRatio(Meta());
      Meta().ChunkRatio()
    }

    function TotalEntries(): nat
      requires Meta().HasGeometry()
    {
      BlockTable.TotalEntries(BlockCount(), ChunkRatio(), parentLocator.Some?)
    }

    function MetadataOffset(): nat {
      MIB + AlignUp(logSize, MIB)
    }

    function BatLength(): nat
      requires Meta().HasGeometry()
    {
      AlignUp(Max(8 * TotalEntries(), MIB), MIB)
    }

    function HeaderWith(sequence: Word64): Header
      requires logSize < U32
    {
      Header(true, true, 0, sequence, fileWriteGuid, dataWriteGuid, NIL, 0, 1, logSize, MIB)
    }
  }

  /** The two regions, metadata first as both writers list them. */
  function RegionList(metadataOffset: Word64, batOffset: Word64, batLength: Word32): seq<RegionEntry> {
    [ RegionEntry(REGION_GUID_METADATA, metadataOffset, MIB, true),
      RegionEntry(REGION_GUID_BAT, batOffset, batLength, true) ]
  }

  function FileTypeBlock(): (b: Buffer)
    ensures |b| == 64 * KIB
    ensures Slice(b, 0, 8) == FILE_TYPE_SIGNATURE
  {
    Written(Zeros(64 * KIB), 0, FILE_TYPE_SIGNATURE)
  }

  /** Everything but the table and the payload: identifier, headers, region tables and metadata. */
  ghost predicate Framed(data: Buffer, p: WriterParams, batOffset: Word64, batLength: Word32) {
    && p.Usable()
    && p.MetadataOffset() + MIB <= |data|
    && Slice(data, 0, 8) == FILE_TYPE_SIGNATURE
    && Slice(data, HeaderOffset(0), HEADER_SIZE) == EncodeHeader(p.HeaderWith(1))
    && Slice(data, HeaderOffset(1), HEADER_SIZE) == EncodeHeader(p.HeaderWith(2))
    && Slice(data, RegionTableOffset(0), REGION_TABLE_SIZE) == EncodeRegions(RegionList(p.MetadataOffset(), batOffset, batLength))
    && Slice(data, RegionTableOffset(1), REGION_TABLE_SIZE) == EncodeRegions(RegionList(p.MetadataOffset(), batOffset, batLength))
    && Slice(data, p.MetadataOffset(), MIB) == EncodeMetadata(p.Meta(), MIB)
  }

  /** The table's region holds these entries, followed by zeros. */
  ghost predicate TableStored(data: Buffer, batOffset: nat, batLength: nat, entries: seq<BatEntry>) {
    && batOffset + batLength <= |data|
    && 8 * |entries| <= batLength
    && Slice(data, batOffset, batLength) == EncodeEntries(entries) + Zeros(batLength - 8 * |entries|)
  }

  /** The frame lies below the payload: files that agree there have it or lack it alike. */
  lemma FrameByPrefix(a: Buffer, b: Buffer, n: nat, p: WriterParams, batOffset: Word64, batLength: Word32)
    requires Framed(a, p, batOffset, batLength)
    requires p.MetadataOffset() + MIB <= n <= |a| && n <= |b| && a[..n] == b[..n]
    ensures Framed(b, p, batOffset, batLength)
  {
    hide EncodeHeader, EncodeRegions, EncodeMetadata, WriterParams.Usable;
    SliceByPrefix(a, b, n, 0, 8);
    SliceByPrefix(a, b, n, HeaderOffset(0), HEADER_SIZE);
    SliceByPrefix(a, b, n, HeaderOffset(1), HEADER_SIZE);
    SliceByPrefix(a, b, n, RegionTableOffset(0), REGION_TABLE_SIZE);
    SliceByPrefix(a, b, n, RegionTableOffset(1), REGION_TABLE_SIZE);
    SliceByPrefix(a, b, n, p.MetadataOffset(), MIB);
  }

  lemma SliceByPrefix(a: Buffer, b: Buffer, n: nat, off: nat, len: nat)
    requires off + len <= n <= |a| && n <= |b| && a[..n] == b[..n]
    ensures Slice(a, off, len) == Slice(b, off, len)
  {
    assert forall j :: off <= j < off + len ==> a[..n][j] == a[j] && b[..n][j] == b[j];
  }

  // ---- Opening ----

  predicate PlacedApart(metadataOffset: nat, batOffset: nat, batLength: nat) {
    && metadataOffset % MIB == 0 && batOffset % MIB == 0 && batLength % MIB == 0
    && metadataOffset + MIB <= batOffset
  }

  /** The layout check accepts the region table of every image either writer lays out. */
  lemma RegionListValid(metadataOffset: Word64, batOffset: Word64, batLength: Word32)
    requires PlacedApart(metadataOffset, batOffset, batLength)
    ensures LayoutValid(RegionList(metadataOffset, batOffset, batLength))
    ensures PairwiseApart(RegionList(metadataOffset, batOffset, batLength))
  {
    DisjointIff(RegionList(metadataOffset, batOffset, batLength));
    hide LayoutValid;
  }

  /**
   * The image says of itself what its writer was given. Its log is empty and has an area of its own, between the header
   * section and the regions.
   */
  predicate MadeFrom(d: VhdxDisk, p: WriterParams) {
    var m, h := d.metadata, d.headers.Active();
    && m.virtualDiskSize == p.virtualDiskSize && m.fileParameters.blockSize == p.blockSize
    && (m.fileParameters.leaveBlocksAllocated <==> p.fixed)
    && (m.fileParameters.hasParent <==> p.parentLocator.Some?)
    && m.logicalSectorSize == p.logicalSectorSize && m.physicalSectorSize == p.physicalSectorSize
    && m.page83Data == p.page83Data && m.parentLocator == p.parentLocator && m.extras == []
    && h.fileWriteGuid == p.fileWriteGuid && h.dataWriteGuid == p.dataWriteGuid
    && h.logGuid == NIL && h.logOffset == 0x10_0000 && h.logLength == p.logSize
    && h.logOffset + h.logLength <= d.metadataRegion.fileOffset
    && d.metadataRegion.End() <= d.batRegion.fileOffset
    && d.metadataRegion.required && d.batRegion.required
  }

  lemma MadeFromParts(d: VhdxDisk, p: WriterParams, batOffset: Word64, batLength: Word32)
    requires p.logSize < U32 && p.MetadataOffset() < U64 && p.MetadataOffset() + MIB <= batOffset
    requires d.metadata == p.Meta() && Content(d.headers.Active()) == p.HeaderWith(2)
    requires d.batRegion == RegionList(p.MetadataOffset(), batOffset, batLength)[1]
    requires d.metadataRegion == RegionList(p.MetadataOffset(), batOffset, batLength)[0]
    ensures MadeFrom(d, p)
  {
  }

  lemma HeadersRead(data: Buffer, p: WriterParams)
    requires p.logSize < U32 && HeaderOffset(1) + HEADER_SIZE <= |data|
    requires Slice(data, HeaderOffset(0), HEADER_SIZE) == EncodeHeader(p.HeaderWith(1))
    requires Slice(data, HeaderOffset(1), HEADER_SIZE) == EncodeHeader(p.HeaderWith(2))
    ensures ReadPair(data).Ok?
    ensures Content(ReadPair(data).value.Active()) == p.HeaderWith(2)
    ensures ReadPair(data).value.Active().logGuid == NIL
  {
    hide EncodeHeader, ParseHeader, Stamp;
    HeaderRoundTrip(p.HeaderWith(1));
    HeaderRoundTrip(p.HeaderWith(2));
  }

  lemma RegionTablesRead(data: Buffer, es: seq<RegionEntry>)
    requires |es| <= MAX_ENTRIES && RegionTableOffset(1) + REGION_TABLE_SIZE <= |data|
    requires Slice(data, RegionTableOffset(0), REGION_TABLE_SIZE) == EncodeRegions(es)
    requires Slice(data, RegionTableOffset(1), REGION_TABLE_SIZE) == EncodeRegions(es)
    ensures ReadRegions(data) == Ok(RegionPair(true, true, RegionTable(true, es)))
  {
    hide EncodeRegions, ParseRegions;
    RegionsRoundTrip(es);
  }

  lemma RegionsFound(metadataOffset: Word64, batOffset: Word64, batLength: Word32)
    ensures
      var es := RegionList(metadataOffset, batOffset, batLength);
      Find(es, REGION_GUID_BAT) == Some(es[1]) && Find(es, REGION_GUID_METADATA) == Some(es[0])
  {
    var es := RegionList(metadataOffset, batOffset, batLength);
    assert REGION_GUID_BAT[0] == 0x66 && REGION_GUID_METADATA[0] == 0x06;
    assert es[1..] == [es[1]];
    assert Find(es, REGION_GUID_BAT) == Find(es[1..], REGION_GUID_BAT);
  }

  lemma TablesRead(data: Buffer, p: WriterParams, batOffset: Word64, batLength: Word32, entries: seq<BatEntry>)
    requires p.Usable() && |entries| == p.TotalEntries()
    requires p.MetadataOffset() + MIB <= |data| && p.MetadataOffset() < U64
    requires Slice(data, p.MetadataOffset(), MIB) == EncodeMetadata(p.Meta(), MIB)
    requires TableStored(data, batOffset, batLength, entries)
    ensures
      var es := RegionList(p.MetadataOffset(), batOffset, batLength);
      ReadTables(data, es) == Ok((es[1], es[0], p.Meta(), Table(entries, p.ChunkRatio(), p.BlockCount())))
  {
    hide EncodeMetadata, ParseMetadata, ParseTable, EncodeEntries;
    RegionsFound(p.MetadataOffset(), batOffset, batLength);
    MetadataRoundTrip(p.Meta(), MIB);
    assert ReadExact(data, p.MetadataOffset(), MIB) == Ok(EncodeMetadata(p.Meta(), MIB));
    TableRoundTrip(Table(entries, p.ChunkRatio(), p.BlockCount()), p.parentLocator.Some?, Zeros(batLength - 8 * |entries|));
    if batLength == 0 {
      assert Slice(data, batOffset, batLength) == [];
    }
    assert ReadExact(data, batOffset, batLength) == Ok(EncodeEntries(entries) + Zeros(batLength - 8 * |entries|));
  }

  /** A framed image with its table in place opens, clean, with the metadata and the entries it was given. */
  lemma FramedOpens(data: Buffer, p: WriterParams, batOffset: Word64, batLength: Word32, entries: seq<BatEntry>, readOnly: bool)
    requires Framed(data, p, batOffset, batLength) && |entries| == p.TotalEntries()
    requires PlacedApart(p.MetadataOffset(), batOffset, batLength)
    requires TableStored(data, batOffset, batLength, entries)
    ensures OpenDisk(data, readOnly).Ok?
    ensures
      var d := OpenDisk(data, readOnly).value;
      && d.metadata == p.Meta()
      && d.bat == Table(entries, p.ChunkRatio(), p.BlockCount())
      && d.regions == RegionPair(true, true, RegionTable(true, RegionList(p.MetadataOffset(), batOffset, batLength)))
      && Content(d.headers.Active()) == p.HeaderWith(2)
      && d.batRegion == RegionList(p.MetadataOffset(), batOffset, batLength)[1]
      && d.metadataRegion == RegionList(p.MetadataOffset(), batOffset, batLength)[0]
    ensures MadeFrom(OpenDisk(data, readOnly).value, p)
  {
    hide EncodeHeader, EncodeRegions, EncodeMetadata, ReadPair, ReadRegions, ReadTables, TableStored, LayoutValid, Content,
      WriterParams.Usable, MadeFrom;
    var es := RegionList(p.MetadataOffset(), batOffset, batLength);
    RegionListValid(p.MetadataOffset(), batOffset, batLength);
    HeadersRead(data, p);
    RegionTablesRead(data, es);
    TablesRead(data, p, batOffset, batLength, entries);
    assert FileTypeOk(data) == Ok(());
    MadeFromParts(OpenDisk(data, readOnly).value, p, batOffset, batLength);
  }
}
