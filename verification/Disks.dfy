/** Opening an image and reading its blocks (disk.rs). */
module Disks {
  import opened Wrappers
  import opened Bytes
  import opened FileIo
  import opened Format
  import opened Headers
  import opened Regions
  import opened BlockTable
  import opened MetadataRegion

  datatype VhdxDisk = VhdxDisk(
    headers: HeaderPair,
    regions: RegionPair,
    batRegion: RegionEntry,
    metadataRegion: RegionEntry,
    metadata: Metadata,
    bat: Table,
    fileLen: nat)
  {
    predicate Valid() {
      && metadata.HasGeometry()
      && bat.chunkRatio == metadata.ChunkRatio() > 0
      && bat.blockCount == metadata.BlockCount()
    }

    function BlockSize(): nat {
      metadata.BlockSize()
    }

    function BlockCount(): nat
      requires Valid()
    {
      metadata.BlockCount()
    }

    function SectorSize(): nat {
      metadata.logicalSectorSize
    }

    function SectorsPerBlock(): nat
      requires Valid()
    {
      BlockSize() / SectorSize()
    }

    predicate HasParent() {
      metadata.fileParameters.hasParent
    }
  }

  function RegionOf(es: seq<RegionEntry>, guid: Guid, name: string): Result<RegionEntry> {
    match Find(es, guid)
    case None => Err(MissingRegion(name))
    case Some(e) => Ok(e)
  }

  function FileTypeOk(data: Buffer): Result<()> {
    var sig :- ReadExact(data, 0, 8);
    if sig == FILE_TYPE_SIGNATURE then Ok(()) else Err(BadSignature)
  }

  /** The metadata and the table, read from the places the region table names. */
  function ReadTables(data: Buffer, es: seq<RegionEntry>): (r: Result<(RegionEntry, RegionEntry, Metadata, Table)>)
    ensures r.Ok? ==> r.value.2.HasGeometry() && r.value.2.ChunkRatio() > 0
    ensures r.Ok? ==> r.value.3.chunkRatio == r.value.2.ChunkRatio() && r.value.3.blockCount == r.value.2.BlockCount()
  {
    var bat :- RegionOf(es, REGION_GUID_BAT, "BAT");
    var meta :- RegionOf(es, REGION_GUID_METADATA, "Metadata");
    var metaBuf :- ReadExact(data, meta.fileOffset, meta.length);
    var m :- ParseMetadata(metaBuf);
    var batBuf :- ReadExact(data, bat.fileOffset, bat.length);
    if !m.HasGeometry() then Err(Panic)
    else
      GeometryHasRatio(m);
      Ok((bat, meta, m, ParseTable(batBuf, m.BlockCount(), m.ChunkRatio(), m.fileParameters.hasParent)))
  }

  function OpenDisk(data: Buffer, readOnly: bool): (r: Result<VhdxDisk>)
    ensures r.Ok? ==> r.value.Valid()
  {
    var _ :- FileTypeOk(data);
    var headers :- ReadPair(data);
    var regions :- ReadRegions(data);
    if !LayoutValid(regions.active.entries) then Err(InvalidStructure)
    else
      var t :- ReadTables(data, regions.active.entries);
      if !readOnly && headers.Active().logGuid != NIL then Err(DirtyLog)
      else Ok(VhdxDisk(headers, regions, t.0, t.1, t.2, t.3, |data|))
  }

  // ---- Blocks ----

  datatype BlockRead = Full(data: Buffer) | Partial(payload: Buffer, bitmap: Buffer) | Absent

  /** Bit `i` of a bitmap packed low bit first; bits past its end are clear. */
  predicate BitIsSet(bm: Buffer, i: nat) {
    i / 8 < |bm| && bm[i / 8] / Pow2(i % 8) % 2 == 1
  }

  function Pow2(k: nat): (p: nat)
    ensures p > 0
  {
    if k == 0 then 1 else 2 * Pow2(k - 1)
  }

  /** The part of a chunk's sector bitmap that belongs to one block. */
  function ReadBitmap(d: VhdxDisk, data: Buffer, block: nat): (r: Result<Buffer>)
    requires d.Valid()
    ensures r.Ok? ==> |r.value| == (d.SectorsPerBlock() + 7) / 8
  {
    match d.bat.BitmapEntry(block)
    case None => Err(InvalidStructure)
    case Some(sb) =>
      var bit := FirstBit(block, d.bat.chunkRatio, d.SectorsPerBlock());
      if bit % 8 != 0 then Err(Unsupported)
      else Ok(ReadShort(data, sb.FileOffset() + bit / 8, (d.SectorsPerBlock() + 7) / 8))
  }

  /** The first bit of a block in the bitmap of its chunk. */
  function FirstBit(block: nat, chunkRatio: nat, spb: nat): nat
    requires chunkRatio > 0
  {
    block % chunkRatio * spb
  }

  function ReadBlock(d: VhdxDisk, data: Buffer, block: nat): (r: Result<BlockRead>)
    requires d.Valid()
    ensures r.Ok? && r.value.Full? ==> |r.value.data| == d.BlockSize()
    ensures r.Ok? && r.value.Partial? ==> |r.value.payload| == d.BlockSize()
  {
    if block >= d.BlockCount() then Err(VirtOffsetOutOfRange)
    else
      match d.bat.PayloadEntry(block)
      case None => Err(InvalidStructure)
      case Some(e) =>
        match e.Payload()
        case FullyPresent =>
          var buf :- ReadExact(data, e.FileOffset(), d.BlockSize());
          Ok(Full(buf))
        case Zero => Ok(Full(Zeros(d.BlockSize())))
        case PartiallyPresent =>
          (match d.bat.BitmapEntry(block)
           case None => Err(InvalidStructure)
           case Some(sb) =>
             if sb.State() != BITMAP_PRESENT then Err(InvalidStructure)
             else
               var payload :- ReadExact(data, e.FileOffset(), d.BlockSize());
               var bm :- ReadBitmap(d, data, block);
               Ok(Partial(payload, bm)))
        case NotPresent => Ok(Absent)
        case Unmapped => Ok(Absent)
        case Undefined => Ok(Absent)
        case Other(_) => Err(InvalidStructure)
  }

  // ---- The code that reads ----

  method ReadBlockFrom(d: VhdxDisk, file: File, block: nat) returns (r: Result<BlockRead>)
    requires d.Valid()
    ensures r == ReadBlock(d, file.data, block)
  {
    hide ReadBitmap;
    if block >= d.BlockCount() {
      return Err(VirtOffsetOutOfRange);
    }
    var entry := d.bat.PayloadEntry(block);
    if entry.None? {
      return Err(InvalidStructure);
    }
    match entry.value.Payload() {
      case FullyPresent =>
        var buf := file.ReadExactAt(entry.value.FileOffset(), d.BlockSize());
        return if buf.Ok? then Ok(Full(buf.value)) else Err(buf.error);
      case Zero =>
        return Ok(Full(Zeros(d.BlockSize())));
      case PartiallyPresent =>
        var sb := d.bat.BitmapEntry(block);
        if sb.None? || sb.value.State() != BITMAP_PRESENT {
          return Err(InvalidStructure);
        }
        var payload := file.ReadExactAt(entry.value.FileOffset(), d.BlockSize());
        if payload.Err? {
          return Err(payload.error);
        }
        var bm := ReadBitmapFrom(d, file, block);
        return if bm.Ok? then Ok(Partial(payload.value, bm.value)) else Err(bm.error);
      case NotPresent =>
        return Ok(Absent);
      case Unmapped =>
        return Ok(Absent);
      case Undefined =>
        return Ok(Absent);
      case Other(_) =>
        return Err(InvalidStructure);
    }
  }

  method ReadBitmapFrom(d: VhdxDisk, file: File, block: nat) returns (r: Result<Buffer>)
    requires d.Valid()
    ensures r == ReadBitmap(d, file.data, block)
  {
    var sb := d.bat.BitmapEntry(block);
    if sb.None? {
      return Err(InvalidStructure);
    }
    var bit := FirstBit(block, d.bat.chunkRatio, d.SectorsPerBlock());
    if bit % 8 != 0 {
      return Err(Unsupported);
    }
    var buf := file.ReadAt(sb.value.FileOffset() + bit / 8, (d.SectorsPerBlock() + 7) / 8);
    return Ok(buf);
  }

  method OpenFile(file: File, readOnly: bool) returns (r: Result<VhdxDisk>)
    ensures r == OpenDisk(file.data, readOnly)
  {
    hide LayoutValid, ParseRegions, ParseMetadata, ReadPair;
    var sig := file.ReadExactAt(0, 8);
    if sig.Err? {
      return Err(sig.error);
    }
    if sig.value != FILE_TYPE_SIGNATURE {
      return Err(BadSignature);
    }
    var headers := ReadPair(file.data);
    if headers.Err? {
      return Err(headers.error);
    }
    var regions := ReadRegions(file.data);
    if regions.Err? {
      return Err(regions.error);
    }
    var layout := ValidateLayout(regions.value.active);
    if layout.Err? {
      return Err(layout.error);
    }
    var t := ReadTablesFrom(file, regions.value.active.entries);
    if t.Err? {
      return Err(t.error);
    }
    if !readOnly && headers.value.Active().logGuid != NIL {
      return Err(DirtyLog);
    }
    var (bat, meta, m, table) := t.value;
    return Ok(VhdxDisk(headers.value, regions.value, bat, meta, m, table, |file.data|));
  }

  method ReadTablesFrom(file: File, es: seq<RegionEntry>)
    returns (r: Result<(RegionEntry, RegionEntry, Metadata, Table)>)
    ensures r == ReadTables(file.data, es)
  {
    hide ParseMetadata, ParseTable;
    var bat := RegionOf(es, REGION_GUID_BAT, "BAT");
    if bat.Err? {
      return Err(bat.error);
    }
    var meta := RegionOf(es, REGION_GUID_METADATA, "Metadata");
    if meta.Err? {
      return Err(meta.error);
    }
    var metaBuf := file.ReadExactAt(meta.value.fileOffset, meta.value.length);
    if metaBuf.Err? {
      return Err(metaBuf.error);
    }
    var m := MetadataRegion.Parse(metaBuf.value);
    if m.Err? {
      return Err(m.error);
    }
    var batBuf := file.ReadExactAt(bat.value.fileOffset, bat.value.length);
    if batBuf.Err? {
      return Err(batBuf.error);
    }
    if !m.value.HasGeometry() {
      return Err(Panic);
    }
    GeometryHasRatio(m.value);
    var table := new Bat.Parse(batBuf.value, m.value.BlockCount(), m.value.ChunkRatio(), m.value.fileParameters.hasParent);
    return Ok((bat.value, meta.value, m.value, table.Value()));
  }

  // ---- Sector-bitmap geometry ----

  const BITMAP_BITS: nat := 0x80_0000

  /** Whole bytes of bitmap per block, and chunks that fill their bitmap exactly. */
  predicate ExactBitmaps(spb: nat, chunkRatio: nat) {
    spb > 0 && spb % 8 == 0 && chunkRatio * spb == BITMAP_BITS
  }

  /** A block's slice is byte-aligned and inside the 1 MiB bitmap of its chunk. */
  lemma SliceInsideBitmap(block: nat, spb: nat, chunkRatio: nat)
    requires ExactBitmaps(spb, chunkRatio)
    ensures block % chunkRatio * spb % 8 == 0
    ensures block % chunkRatio * spb / 8 == block % chunkRatio * (spb / 8)
    ensures block % chunkRatio * (spb / 8) + spb / 8 <= MIB
    ensures chunkRatio * (spb / 8) == MIB
  {
    var o := block % chunkRatio;
    var w := spb / 8;
    assert spb == 8 * w;
    assert o * spb == 8 * (o * w);
    assert chunkRatio * spb == 8 * (chunkRatio * w);
    MulMonotone(w, o + 1, chunkRatio);
    assert (o + 1) * w == o * w + w;
  }

  /** The slices of the blocks of a chunk tile its bitmap: byte `j` lies in the slice of one block and no other. */
  lemma SlicesTile(j: nat, spb: nat, chunkRatio: nat, o: nat)
    requires ExactBitmaps(spb, chunkRatio) && j < MIB && o < chunkRatio
    ensures o * (spb / 8) <= j < o * (spb / 8) + spb / 8 <==> o == j / (spb / 8)
    ensures j / (spb / 8) < chunkRatio
  {
    var w := spb / 8;
    SliceInsideBitmap(0, spb, chunkRatio);
    assert spb == 8 * w;
    if o * w <= j < o * w + w {
      assert o * w == w * o;
      DivModUnique(j, w, o, j - o * w);
    }
    assert w * (j / w) == j / w * w;
    MulMonotone(w, chunkRatio, j / w);
    assert w * chunkRatio == chunkRatio * w;
  }

  /** Reading bit `i` of a block's slice is reading the chunk's bit for that virtual sector. */
  lemma SliceBitIsChunkBit(bm: Buffer, block: nat, i: nat, spb: nat, chunkRatio: nat)
    requires ExactBitmaps(spb, chunkRatio) && |bm| == MIB && i < spb
    ensures block % chunkRatio * (spb / 8) + spb / 8 <= MIB
    ensures BitIsSet(Slice(bm, block % chunkRatio * (spb / 8), spb / 8), i) == BitIsSet(bm, (block * spb + i) % BITMAP_BITS)
  {
    SliceInsideBitmap(block, spb, chunkRatio);
    BitInChunk(block, i, spb, chunkRatio);
    var o := block % chunkRatio;
    assert o * spb == 8 * (o * (spb / 8));
    SliceBit(bm, o * (spb / 8), spb / 8, i);
  }

  lemma BitInChunk(block: nat, i: nat, spb: nat, chunkRatio: nat)
    requires ExactBitmaps(spb, chunkRatio) && i < spb
    ensures (block * spb + i) % BITMAP_BITS == block % chunkRatio * spb + i
  {
    var o := block % chunkRatio;
    var c := block / chunkRatio;
    assert block == chunkRatio * c + o;
    assert block * spb == (chunkRatio * spb) * c + o * spb;
    MulMonotone(spb, o + 1, chunkRatio);
    assert spb * (o + 1) == o * spb + spb && spb * chunkRatio == chunkRatio * spb;
    DivModUnique(block * spb + i, BITMAP_BITS, c, o * spb + i);
  }

  lemma SliceBit(bm: Buffer, at: nat, n: nat, i: nat)
    requires at + n <= |bm| && i < 8 * n
    ensures BitIsSet(Slice(bm, at, n), i) == BitIsSet(bm, 8 * at + i)
  {
    assert (8 * at + i) / 8 == at + i / 8 && (8 * at + i) % 8 == i % 8;
  }
}
