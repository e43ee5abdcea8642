/** What opening an image and reading its blocks take from which bytes of the file (disk.rs, bat.rs). */
module DiskBytes {
  import opened Wrappers
  import opened Bytes
  import opened FileIo
  import opened Format
  import opened Headers
  import opened Regions
  import opened BlockTable
  import opened MetadataRegion
  import opened Disks
  import opened ChainView

  // ---- Bits ----

  /** Bit `i` of a byte, the lowest being bit 0. */
  predicate Bit(b: Byte, i: nat)
    requires i < 8
  {
    ((b as bv8) >> i) & 1 == 1
  }

  lemma BitIsDigit(b: Byte, i: nat)
    requires i < 8
    ensures Bit(b, i) <==> b / Pow2(i) % 2 == 1
  {
    assert Pow2(0) == 1 && Pow2(1) == 2 && Pow2(2) == 4 && Pow2(3) == 8;
    assert Pow2(4) == 16 && Pow2(5) == 32 && Pow2(6) == 64 && Pow2(7) == 128;
    if
    case i == 0 =>
    case i == 1 =>
    case i == 2 =>
    case i == 3 =>
    case i == 4 =>
    case i == 5 =>
    case i == 6 =>
    case i == 7 =>
  }

  lemma BitSetIff(bm: Buffer, i: nat)
    ensures BitIsSet(bm, i) <==> i / 8 < |bm| && Bit(bm[i / 8], i % 8)
  {
    if i / 8 < |bm| {
      BitIsDigit(bm[i / 8], i % 8);
    }
  }

  /** A table entry is eight little-endian bytes: the lowest three bits are the state, those from bit 20 up the offset. */
  lemma EntryBits(buf: Buffer, i: nat)
    requires 8 * i + 8 <= |buf|
    ensures EntryFrom(buf, i).raw == U64At(buf, 8 * i)
    ensures EntryFrom(buf, i).State() ==
            (if Bit(buf[8 * i], 0) then 1 else 0) + (if Bit(buf[8 * i], 1) then 2 else 0) + (if Bit(buf[8 * i], 2) then 4 else 0)
    ensures EntryFrom(buf, i).FileOffset() % MIB == 0
    ensures EntryFrom(buf, i).FileOffset() <= U64At(buf, 8 * i) < EntryFrom(buf, i).FileOffset() + MIB
  {
    RawIs(buf, i);
    LowByte(buf, 8 * i);
    LowThreeBits(buf[8 * i]);
    OffsetPart(EntryFrom(buf, i));
    hide U64At, EntryFrom, BatEntry.FileOffset, Bit;
  }

  lemma RawIs(buf: Buffer, i: nat)
    requires 8 * i + 8 <= |buf|
    ensures EntryFrom(buf, i).raw == U64At(buf, 8 * i)
  {
    hide Decode;
  }

  lemma LowByte(buf: Buffer, off: nat)
    requires off + 8 <= |buf|
    ensures U64At(buf, off) % 8 == buf[off] % 8
  {
    LittleEndian(buf, off);
    hide U16At, U32At, U64At;
  }

  lemma LowThreeBits(b: Byte)
    ensures b % 8 == (if Bit(b, 0) then 1 else 0) + (if Bit(b, 1) then 2 else 0) + (if Bit(b, 2) then 4 else 0)
  {
    BitIsDigit(b, 0);
    BitIsDigit(b, 1);
    BitIsDigit(b, 2);
    assert Pow2(0) == 1 && Pow2(1) == 2 && Pow2(2) == 4;
    hide Bit, Pow2;
    ThreeDigits(b);
  }

  lemma ThreeDigits(n: nat)
    ensures n % 8 == n / 1 % 2 + 2 * (n / 2 % 2) + 4 * (n / 4 % 2)
  {
    var a, b, c := n % 2, n / 2 % 2, n / 2 / 2 % 2;
    assert n / 4 == n / 2 / 2 && n == 2 * (n / 2) + a && n / 2 == 2 * (n / 2 / 2) + b;
    DivModUnique(n, 8, n / 2 / 2 / 2, a + 2 * b + 4 * c);
  }

  lemma OffsetPart(e: BatEntry)
    ensures e.FileOffset() % MIB == 0 && e.FileOffset() <= e.raw < e.FileOffset() + MIB
  {
  }

  // ---- Blocks ----

  /** Bit `k` of the bytes from `at` on, low bit first; bytes past the end of the file are zero. */
  predicate FileBit(data: Buffer, at: nat, k: nat) {
    Bit(At(data, at + k / 8), k % 8)
  }

  /** Where the entry of a block stands in the table, and where that of its chunk's bitmap: behind the chunk's last block. */
  function EntryIndex(b: nat, cr: nat): nat
    requires cr > 0
  {
    b + b / cr
  }

  function ChunkIndex(b: nat, cr: nat): nat
    requires cr > 0
  {
    EntryIndex(b - b % cr + (cr - 1), cr) + 1
  }

  lemma IndicesAre(b: nat, cr: nat)
    requires cr > 0
    ensures PayloadIndex(b, cr) == EntryIndex(b, cr) && BitmapIndex(b, cr) == ChunkIndex(b, cr)
  {
    PayloadIndexIs(b, cr);
    var c := b / cr;
    assert b == cr * c + b % cr;
    assert c * (cr + 1) == cr * c + c;
    DivModUnique(cr * c + (cr - 1), cr, c, cr - 1);
  }

  /** The payload of a block, if it lies in the file. */
  function PayloadIn(data: Buffer, off: nat, bs: nat): Result<Buffer> {
    if off + bs <= |data| then Ok(data[off..off + bs]) else Err(UnexpectedEof)
  }

  /** What a block without a sector bitmap reads as, by the state in its entry. */
  lemma BlockBytes(d: VhdxDisk, data: Buffer, b: nat)
    requires d.Valid() && b < d.BlockCount()
    ensures
      var i := EntryIndex(b, d.bat.chunkRatio);
      var r := ReadBlock(d, data, b);
      if i >= |d.bat.entries| then r == Err(InvalidStructure)
      else
        var e := d.bat.entries[i];
        && (e.State() in {0, 1, 3} ==> r == Ok(Absent))
        && (e.State() in {4, 5} ==> r == Err(InvalidStructure))
        && (e.State() == 2 ==> r.Ok? && r.value.Full? && |r.value.data| == d.BlockSize() && AllZero(r.value.data))
        && (e.State() == 6 ==>
              match PayloadIn(data, e.FileOffset(), d.BlockSize())
              case Ok(p) => r == Ok(Full(p))
              case Err(x) => r == Err(x))
  {
    IndicesAre(b, d.bat.chunkRatio);
    hide BatEntry.FileOffset, ReadBitmap, PayloadIndex, BitmapIndex, EntryIndex;
  }

  /** The first `n` bits of a buffer are the file's from bit `first` on. */
  predicate BitsAre(bm: Buffer, n: nat, data: Buffer, at: nat, first: nat) {
    forall i :: 0 <= i < n ==> (BitIsSet(bm, i) <==> FileBit(data, at, first + i))
  }

  /** The part of the bitmap that is read is the chunk's, from the block's first sector on. */
  lemma BitmapBytes(d: VhdxDisk, data: Buffer, b: nat)
    requires d.Valid() && b < d.BlockCount()
    ensures
      var j := ChunkIndex(b, d.bat.chunkRatio);
      var first := b % d.bat.chunkRatio * d.SectorsPerBlock();
      var r := ReadBitmap(d, data, b);
      && (r.Ok? <==> j < |d.bat.entries| && first % 8 == 0)
      && (r.Ok? ==> BitsAre(r.value, d.SectorsPerBlock(), data, d.bat.entries[j].FileOffset(), first))
  {
    IndicesAre(b, d.bat.chunkRatio);
    hide BatEntry.FileOffset, PayloadIndex, BitmapIndex, EntryIndex, ChunkIndex, BitsAre;
    var j := ChunkIndex(b, d.bat.chunkRatio);
    var first := b % d.bat.chunkRatio * d.SectorsPerBlock();
    if j < |d.bat.entries| && first % 8 == 0 {
      ShortBits(data, d.bat.entries[j].FileOffset(), first, d.SectorsPerBlock());
    }
  }

  lemma ShortBits(data: Buffer, at: nat, first: nat, n: nat)
    requires first % 8 == 0
    ensures BitsAre(ReadShort(data, at + first / 8, (n + 7) / 8), n, data, at, first)
  {
    hide BitIsSet, FileBit, ReadShort;
    var bm := ReadShort(data, at + first / 8, (n + 7) / 8);
    forall i | 0 <= i < n
      ensures BitIsSet(bm, i) <==> FileBit(data, at, first + i)
    {
      ShortBit(data, at, first, n, i);
    }
  }

  lemma ShortBit(data: Buffer, at: nat, first: nat, n: nat, i: nat)
    requires first % 8 == 0 && i < n
    ensures BitIsSet(ReadShort(data, at + first / 8, (n + 7) / 8), i) <==> FileBit(data, at, first + i)
  {
    BitSetIff(ReadShort(data, at + first / 8, (n + 7) / 8), i);
    AlignedBit(first, i);
    hide Bit, BitIsSet;
  }

  lemma AlignedBit(first: nat, i: nat)
    requires first % 8 == 0
    ensures (first + i) / 8 == first / 8 + i / 8 && (first + i) % 8 == i % 8
  {
  }

  /**
   * A partially present block: it reads exactly when its chunk's bitmap entry is there and present, the payload lies in the
   * file and the block's part of the bitmap starts at a whole byte. The payload is the file's bytes, and bit `i` is the
   * file's bit of that sector.
   */
  lemma PartialBytes(d: VhdxDisk, data: Buffer, b: nat)
    requires d.Valid() && b < d.BlockCount() && EntryIndex(b, d.bat.chunkRatio) < |d.bat.entries|
    requires d.bat.entries[EntryIndex(b, d.bat.chunkRatio)].State() == 7
    ensures
      var off := d.bat.entries[EntryIndex(b, d.bat.chunkRatio)].FileOffset();
      var j := ChunkIndex(b, d.bat.chunkRatio);
      var first := b % d.bat.chunkRatio * d.SectorsPerBlock();
      var r := ReadBlock(d, data, b);
      && (r.Ok? <==> j < |d.bat.entries| && d.bat.entries[j].State() == 6 && off + d.BlockSize() <= |data| && first % 8 == 0)
      && (r.Ok? ==>
            && r.value.Partial? && r.value.payload == data[off..off + d.BlockSize()]
            && BitsAre(r.value.bitmap, d.SectorsPerBlock(), data, d.bat.entries[j].FileOffset(), first))
  {
    IndicesAre(b, d.bat.chunkRatio);
    BitmapBytes(d, data, b);
    hide BatEntry.FileOffset, ReadBitmap, PayloadIndex, BitmapIndex, EntryIndex, ChunkIndex, FileBit, BitIsSet;
  }

  /** Where bitmaps are filled exactly the bit is that of the virtual sector, modulo the 2^23 of a bitmap. */
  lemma PartialBits(d: VhdxDisk, data: Buffer, b: nat, p: Buffer, bm: Buffer, i: nat)
    requires d.Valid() && ReadBlock(d, data, b) == Ok(Partial(p, bm)) && i < d.SectorsPerBlock()
    requires ExactBitmaps(d.SectorsPerBlock(), d.bat.chunkRatio)
    ensures b < d.BlockCount() && ChunkIndex(b, d.bat.chunkRatio) < |d.bat.entries|
    ensures
      var at := d.bat.entries[ChunkIndex(b, d.bat.chunkRatio)].FileOffset();
      BitIsSet(bm, i) <==> FileBit(data, at, (b * d.SectorsPerBlock() + i) % 0x80_0000)
  {
    hide FileBit, BitIsSet, ChunkIndex;
    BlockIsPartial(d, data, b);
    PartialBytes(d, data, b);
    BitInChunk(b, i, d.SectorsPerBlock(), d.bat.chunkRatio);
    hide ReadBlock;
  }

  lemma BlockIsPartial(d: VhdxDisk, data: Buffer, b: nat)
    requires d.Valid() && ReadBlock(d, data, b).Ok? && ReadBlock(d, data, b).value.Partial?
    ensures b < d.BlockCount() && EntryIndex(b, d.bat.chunkRatio) < |d.bat.entries|
    ensures d.bat.entries[EntryIndex(b, d.bat.chunkRatio)].State() == 7
  {
    IndicesAre(b, d.bat.chunkRatio);
    hide BatEntry.FileOffset, ReadBitmap, PayloadIndex, BitmapIndex, EntryIndex;
  }

  // ---- Sectors ----

  /** The first bit of a block of `n` sectors in the bitmap of its chunk. */
  function FirstBitOf(b: nat, cr: nat, n: nat): nat
    requires cr > 0
  {
    b % cr * n
  }

  /** How many sectors `n` bytes are. */
  function Whole(n: nat, ss: nat): nat
    requires ss > 0
  {
    n / ss
  }

  /** The sector at byte `o` of a block whose payload starts at `off`. */
  function Piece(data: Buffer, off: nat, o: nat, ss: nat, bs: nat): Buffer
    requires o + ss <= bs && off + bs <= |data|
  {
    Slice(data, off + o, ss)
  }

  /** The sector at byte `o` of block `b`, by the entry of the block and for a partially present one its bit of the bitmap. */
  function SectorOfEntry(data: Buffer, t: Table, b: nat, o: nat, ss: nat, bs: nat): SectorRead
    requires t.chunkRatio > 0 && 0 < ss && o + ss <= bs && EntryIndex(b, t.chunkRatio) < |t.entries|
  {
    var e := t.entries[EntryIndex(b, t.chunkRatio)];
    var j := ChunkIndex(b, t.chunkRatio);
    var first := FirstBitOf(b, t.chunkRatio, Whole(bs, ss));
    if e.State() in {0, 1, 3} then Missing
    else if e.State() == 2 then Present(Zeros(ss))
    else if e.State() in {4, 5} || e.FileOffset() + bs > |data| then Broken
    else if e.State() == 6 then Present(Piece(data, e.FileOffset(), o, ss, bs))
    else if j >= |t.entries| || t.entries[j].State() != 6 || first % 8 != 0 then Broken
    else if FileBit(data, t.entries[j].FileOffset(), first + Whole(o, ss)) then Present(Piece(data, e.FileOffset(), o, ss, bs))
    else Missing
  }

  /** Virtual sector `s` of a link by the bytes of its file, from the entry of the block that holds its first virtual byte. */
  function SectorIn(l: Link, s: nat): SectorRead
    requires l.Valid()
  {
    SectorPlace(l, s);
    var ss, bs, t := l.disk.SectorSize(), l.disk.BlockSize(), l.disk.bat;
    var b := s * ss / bs;
    if b >= l.disk.BlockCount() then Missing
    else if EntryIndex(b, t.chunkRatio) >= |t.entries| then Broken
    else SectorOfEntry(l.data, t, b, s * ss % bs, ss, bs)
  }

  lemma SectorPlace(l: Link, s: nat)
    requires l.Valid()
    ensures
      var n, ss, bs := l.disk.SectorsPerBlock(), l.disk.SectorSize(), l.disk.BlockSize();
      && n > 0 && s * ss / bs == s / n && s * ss % bs == s % n * ss && s * ss % bs / ss == s % n
      && s * ss % bs + ss <= bs
  {
    SectorInBlock(l, s);
    var n, ss, bs := l.disk.SectorsPerBlock(), l.disk.SectorSize(), l.disk.BlockSize();
    SectorDivides(s, n, ss, bs);
  }

  lemma SectorDivides(s: nat, n: nat, ss: nat, bs: nat)
    requires n > 0 && ss > 0 && bs == n * ss && s % n * ss + ss <= bs
    ensures bs > 0 && s * ss / bs == s / n && s * ss % bs == s % n * ss && s * ss % bs / ss == s % n
  {
    assert s == n * (s / n) + s % n;
    assert s * ss == n * ss * (s / n) + s % n * ss;
    DivModUnique(s * ss, bs, s / n, s % n * ss);
    assert s % n * ss == ss * (s % n);
    DivModUnique(s % n * ss, ss, s % n, 0);
  }

  lemma WholeSector(p: Buffer, data: Buffer, off: nat, bs: nat, i: nat, ss: nat)
    requires off + bs <= |data| && p == data[off..off + bs] && i * ss + ss <= bs
    ensures Sector(p, i, ss) == Slice(data, off + i * ss, ss)
  {
    SectorIsSlice(p, i, ss);
  }

  lemma BlockSector(l: Link, b: nat, i: nat)
    requires l.Valid() && b < l.disk.BlockCount() && i < l.disk.SectorsPerBlock()
    requires EntryIndex(b, l.disk.bat.chunkRatio) < |l.disk.bat.entries|
    requires i * l.disk.SectorSize() + l.disk.SectorSize() <= l.disk.BlockSize()
    requires i * l.disk.SectorSize() / l.disk.SectorSize() == i
    ensures SectorOfBlock(ReadBlock(l.disk, l.data, b), i, l.disk.SectorSize()) ==
            SectorOfEntry(l.data, l.disk.bat, b, i * l.disk.SectorSize(), l.disk.SectorSize(), l.disk.BlockSize())
  {
    hide ReadBlock, Sector, BitIsSet, FileBit, BatEntry.FileOffset, BatEntry.State, EntryIndex, ChunkIndex;
    var ss, bs := l.disk.SectorSize(), l.disk.BlockSize();
    BlockBytes(l.disk, l.data, b);
    var e := l.disk.bat.entries[EntryIndex(b, l.disk.bat.chunkRatio)];
    StateBelow8(e);
    if e.State() == 7 {
      PartialBytes(l.disk, l.data, b);
    }
    if e.FileOffset() + bs <= |l.data| {
      WholeSector(l.data[e.FileOffset()..e.FileOffset() + bs], l.data, e.FileOffset(), bs, i, ss);
    }
    if e.State() == 2 {
      ZeroSectorOf(ReadBlock(l.disk, l.data, b).value.data, i, ss);
    }
  }

  lemma NoEntry(l: Link, b: nat, i: nat)
    requires l.Valid() && b < l.disk.BlockCount() && EntryIndex(b, l.disk.bat.chunkRatio) >= |l.disk.bat.entries|
    ensures SectorOfBlock(ReadBlock(l.disk, l.data, b), i, l.disk.SectorSize()) == Broken
  {
    BlockBytes(l.disk, l.data, b);
    hide ReadBlock;
  }

  /** The guest's view of a link is the one read off its bytes. */
  lemma SectorBytes(l: Link, s: nat)
    requires l.Valid()
    ensures LinkSector(l, s) == SectorIn(l, s)
  {
    hide ReadBlock, SectorOfBlock, SectorOfEntry, EntryIndex, ChunkIndex;
    SectorPlace(l, s);
    var b, i := s / l.disk.SectorsPerBlock(), s % l.disk.SectorsPerBlock();
    if b < l.disk.BlockCount() {
      if EntryIndex(b, l.disk.bat.chunkRatio) < |l.disk.bat.entries| {
        BlockSector(l, b, i);
      } else {
        NoEntry(l, b, i);
      }
    }
  }

  lemma StateBelow8(e: BatEntry)
    ensures e.State() < 8
  {
  }

  lemma ZeroSectorOf(p: Buffer, i: nat, ss: nat)
    requires AllZero(p)
    ensures Sector(p, i, ss) == Zeros(ss)
  {
  }

  // ---- Opening ----

  predicate Inside(e: RegionEntry, data: Buffer) {
    e.length == 0 || e.End() <= |data|
  }

  function RegionBytes(e: RegionEntry, data: Buffer): Buffer
    requires Inside(e, data)
  {
    if e.length == 0 then [] else data[e.fileOffset..e.End()]
  }

  /** The header section is in order: identifier, a header, a region table whose layout is accepted. */
  predicate SectionOk(data: Buffer) {
    && |data| >= 8 && data[..8] == [0x76, 0x68, 0x64, 0x78, 0x66, 0x69, 0x6C, 0x65]
    && ReadPair(data).Ok? && ReadRegions(data).Ok? && LayoutValid(ReadRegions(data).value.active.entries)
  }

  /** Both regions are listed and in the file, and the metadata can be read and gives a geometry. */
  predicate RegionsOk(data: Buffer, es: seq<RegionEntry>) {
    && Find(es, REGION_GUID_BAT).Some? && Inside(Find(es, REGION_GUID_BAT).value, data)
    && Find(es, REGION_GUID_METADATA).Some? && Inside(Find(es, REGION_GUID_METADATA).value, data)
    && var m := ParseMetadata(RegionBytes(Find(es, REGION_GUID_METADATA).value, data));
    m.Ok? && m.value.HasGeometry()
  }

  /** Every whole entry that the geometry asks for and the region holds. */
  predicate TableRead(t: Table, buf: Buffer, m: Metadata)
    requires m.HasGeometry()
  {
    && t.blockCount == m.BlockCount() && t.chunkRatio == m.ChunkRatio() && t.chunkRatio > 0
    && |t.entries| == Min(TotalEntries(t.blockCount, t.chunkRatio, m.fileParameters.hasParent), |buf| / 8)
    && forall i :: 0 <= i < |t.entries| ==> t.entries[i].raw == U64At(buf, 8 * i)
  }

  lemma TableBytesRead(buf: Buffer, m: Metadata)
    requires m.HasGeometry() && m.ChunkRatio() > 0
    ensures TableRead(ParseTable(buf, m.BlockCount(), m.ChunkRatio(), m.fileParameters.hasParent), buf, m)
  {
    hide EntryFrom, TotalEntries, U64At;
    var t := ParseTable(buf, m.BlockCount(), m.ChunkRatio(), m.fileParameters.hasParent);
    forall i | 0 <= i < |t.entries|
      ensures t.entries[i].raw == U64At(buf, 8 * i)
    {
      RawIs(buf, i);
    }
  }

  lemma RegionIsRead(e: RegionEntry, data: Buffer)
    ensures ReadExact(data, e.fileOffset, e.length) == if Inside(e, data) then Ok(RegionBytes(e, data)) else Err(UnexpectedEof)
  {
  }

  /** When the tables can be read, and what is read. */
  lemma TablesIff(data: Buffer, es: seq<RegionEntry>)
    ensures ReadTables(data, es).Ok? <==> RegionsOk(data, es)
    ensures ReadTables(data, es).Ok? ==>
              var (bat, meta, m, t) := ReadTables(data, es).value;
              && Find(es, REGION_GUID_BAT) == Some(bat) && Find(es, REGION_GUID_METADATA) == Some(meta)
              && Inside(meta, data) && ParseMetadata(RegionBytes(meta, data)) == Ok(m) && m.HasGeometry()
              && Inside(bat, data) && TableRead(t, RegionBytes(bat, data), m)
  {
    hide ParseMetadata, Find, ParseTable, Inside, RegionBytes, TableRead, ReadExact, Metadata.HasGeometry, Metadata.BlockCount,
      Metadata.ChunkRatio;
    if Find(es, REGION_GUID_BAT).Some? && Find(es, REGION_GUID_METADATA).Some? {
      var bat, meta := Find(es, REGION_GUID_BAT).value, Find(es, REGION_GUID_METADATA).value;
      RegionIsRead(bat, data);
      RegionIsRead(meta, data);
      if RegionsOk(data, es) {
        var m := ParseMetadata(RegionBytes(meta, data)).value;
        GeometryHasRatio(m);
        TableBytesRead(RegionBytes(bat, data), m);
      }
    }
  }

  /**
   * An image opens exactly when its header section is in order and its regions can be read; for writing its active header
   * must also have a nil log GUID, and if that is all that is wrong the error says so.
   */
  lemma OpensIff(data: Buffer, readOnly: bool)
    ensures OpenDisk(data, readOnly).Ok? <==>
            SectionOk(data) && RegionsOk(data, ReadRegions(data).value.active.entries) &&
            (readOnly || ReadPair(data).value.Active().logGuid == NIL)
    ensures (SectionOk(data) && RegionsOk(data, ReadRegions(data).value.active.entries) && !readOnly &&
             ReadPair(data).value.Active().logGuid != NIL) ==> OpenDisk(data, readOnly) == Err(DirtyLog)
    ensures OpenDisk(data, readOnly).Ok? ==>
              var d := OpenDisk(data, readOnly).value;
              && ReadPair(data) == Ok(d.headers) && ReadRegions(data) == Ok(d.regions) && d.fileLen == |data|
              && ReadTables(data, d.regions.active.entries) == Ok((d.batRegion, d.metadataRegion, d.metadata, d.bat))
  {
    hide ReadPair, ReadRegions, LayoutValid, RegionsOk, ReadTables;
    if |data| >= 8 {
      assert Slice(data, 0, 8) == data[..8];
    }
    if ReadRegions(data).Ok? {
      TablesIff(data, ReadRegions(data).value.active.entries);
    }
  }

  /** The first reason why an image does not open, if there is one. */
  function Refused(data: Buffer, readOnly: bool): Option<Error> {
    if |data| < 8 then Some(UnexpectedEof)
    else if data[..8] != [0x76, 0x68, 0x64, 0x78, 0x66, 0x69, 0x6C, 0x65] then Some(BadSignature)
    else if ReadPair(data).Err? then Some(ReadPair(data).error)
    else if ReadRegions(data).Err? then Some(ReadRegions(data).error)
    else
      var es := ReadRegions(data).value.active.entries;
      if !LayoutValid(es) then Some(InvalidStructure)
      else if Find(es, REGION_GUID_BAT).None? then Some(MissingRegion("BAT"))
      else if Find(es, REGION_GUID_METADATA).None? then Some(MissingRegion("Metadata"))
      else
        var bat, meta := Find(es, REGION_GUID_BAT).value, Find(es, REGION_GUID_METADATA).value;
        if !Inside(meta, data) then Some(UnexpectedEof)
        else if ParseMetadata(RegionBytes(meta, data)).Err? then Some(ParseMetadata(RegionBytes(meta, data)).error)
        else if !Inside(bat, data) then Some(UnexpectedEof)
        else if !ParseMetadata(RegionBytes(meta, data)).value.HasGeometry() then Some(Panic)
        else if !readOnly && ReadPair(data).value.Active().logGuid != NIL then Some(DirtyLog)
        else None
  }

  lemma RefusedIff(data: Buffer, readOnly: bool)
    ensures match Refused(data, readOnly)
            case None => OpenDisk(data, readOnly).Ok?
            case Some(e) => OpenDisk(data, readOnly) == Err(e)
  {
    hide ReadPair, ReadRegions, LayoutValid, ParseMetadata, Find, ParseTable, Inside, RegionBytes, Metadata.HasGeometry, ReadExact;
    SignatureIs(data);
    if ReadRegions(data).Ok? {
      var es := ReadRegions(data).value.active.entries;
      if Find(es, REGION_GUID_BAT).Some? && Find(es, REGION_GUID_METADATA).Some? {
        RegionIsRead(Find(es, REGION_GUID_BAT).value, data);
        RegionIsRead(Find(es, REGION_GUID_METADATA).value, data);
      }
    }
  }

  lemma SignatureIs(data: Buffer)
    ensures FileTypeOk(data) == if |data| < 8 then Err(UnexpectedEof)
                                else if data[..8] == [0x76, 0x68, 0x64, 0x78, 0x66, 0x69, 0x6C, 0x65] then Ok(())
                                else Err(BadSignature)
  {
    if |data| >= 8 {
      assert Slice(data, 0, 8) == data[..8];
    }
  }

  /** The blocks of a disk are as many as its size needs and no more. */
  lemma BlocksAreLeast(m: Metadata, n: nat)
    requires m.BlockSize() > 0
    ensures n >= m.BlockCount() <==> n * m.BlockSize() >= m.virtualDiskSize
  {
    var bs, count := m.BlockSize(), m.BlockCount();
    var sum := m.virtualDiskSize + bs - 1;
    assert sum == bs * count + sum % bs;
    assert n * bs == bs * n;
    if n >= count {
      MulMonotone(bs, count, n);
    } else {
      MulMonotone(bs, n, count - 1);
      assert bs * (count - 1) == bs * count - bs;
    }
  }

  /** A chunk is as many whole blocks as 2^23 sectors hold, so that one bitmap has a bit for each of their sectors. */
  lemma ChunkIsMost(m: Metadata, n: nat)
    requires m.BlockSize() > 0
    ensures n <= m.ChunkRatio() <==> n * m.BlockSize() <= 0x80_0000 * m.logicalSectorSize
  {
    var bs, cr := m.BlockSize(), m.ChunkRatio();
    var q := 0x80_0000 * m.logicalSectorSize;
    assert q == bs * cr + q % bs;
    assert n * bs == bs * n;
    if n <= cr {
      MulMonotone(bs, n, cr);
    } else {
      MulMonotone(bs, cr + 1, n);
      assert bs * (cr + 1) == bs * cr + bs;
    }
  }

  /** The entries of the smallest table that has every block, and for a differencing file every chunk's bitmap. */
  lemma TotalIsLeast(count: nat, cr: nat, hasParent: bool, n: nat)
    requires cr > 0
    ensures n >= TotalEntries(count, cr, hasParent) <==>
            forall b: nat :: b < count ==> EntryIndex(b, cr) < n && (hasParent ==> ChunkIndex(b, cr) < n)
  {
    hide EntryIndex, ChunkIndex;
    forall b: nat | b < count
      ensures EntryIndex(b, cr) < TotalEntries(count, cr, hasParent)
      ensures hasParent ==> ChunkIndex(b, cr) < TotalEntries(count, cr, hasParent)
    {
      IndicesAre(b, cr);
      EveryBlockHasEntry(b, count, cr, hasParent);
    }
    if count > 0 {
      LastEntryIs(count, cr, hasParent);
      assert EntryIndex(count - 1, cr) < n && (hasParent ==> ChunkIndex(count - 1, cr) < n) ==>
               n >= TotalEntries(count, cr, hasParent);
    }
  }

  lemma LastEntryIs(count: nat, cr: nat, hasParent: bool)
    requires cr > 0 && count > 0
    ensures TotalEntries(count, cr, hasParent) == 1 + if hasParent then ChunkIndex(count - 1, cr) else EntryIndex(count - 1, cr)
  {
    IndicesAre(count - 1, cr);
    hide EntryIndex, ChunkIndex;
    var c := (count - 1) / cr;
    assert (c + 1) * (cr + 1) == c * (cr + 1) + cr + 1;
  }
}
