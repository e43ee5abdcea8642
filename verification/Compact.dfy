/** Repacking a standalone image into a fresh dynamic one (compact.rs). */
module Compact {
  import opened Wrappers
  import opened Bytes
  import opened FileIo
  import opened Format
  import opened Headers
  import opened Regions
  import opened BlockTable
  import opened MetadataRegion
  import opened Disks
  import opened ChainView
  import opened Composite
  import opened Images
  import opened ImageBlocks
  import opened Writer
  import opened Flatten

  /** Scans in chunks of the given size. A granularity of 0 calls nothing sparse. */
  method IsAllZeroAligned(buf: Buffer, granularity: nat) returns (sparse: bool)
    ensures sparse <==> granularity > 0 && AllZero(buf)
  {
    if granularity == 0 {
      return false;
    }
    if |buf| == 0 {
      return true;
    }
    var i := 0;
    while i < |buf|
      invariant forall j :: 0 <= j < Min(i, |buf|) ==> buf[j] == 0
    {
      var end := Min(i + granularity, |buf|);
      var chunkIsZero := ChunkIsZero(buf, i, end);
      if !chunkIsZero {
        return false;
      }
      i := i + granularity;
    }
    return true;
  }

  method ChunkIsZero(buf: Buffer, from: nat, to: nat) returns (zero: bool)
    requires from <= to <= |buf|
    ensures zero <==> forall j :: from <= j < to ==> buf[j] == 0
  {
    for j := from to to
      invariant forall k :: from <= k < j ==> buf[k] == 0
    {
      if buf[j] != 0 {
        return false;
      }
    }
    return true;
  }

  // ---- What a compacted block holds ----

  function Kept(buf: Buffer, sparseSize: nat): Recorded {
    if sparseSize > 0 && AllZero(buf) then Zeroed else Stored(buf)
  }

  /** The payload of a partially present block is kept whole: its bitmap is not consulted. */
  function CompactedBlock(r: BlockRead, sparseSize: nat): Recorded {
    match r
    case Absent => Zeroed
    case Full(b) => Kept(b, sparseSize)
    case Partial(p, _) => Kept(p, sparseSize)
  }

  /** No payload byte lies in a sector the bitmap says the block does not have. */
  predicate NothingMasked(r: BlockRead, n: nat, ss: nat) {
    r.Partial? ==> forall i :: 0 <= i < n ==> BitIsSet(r.bitmap, i) || Sector(r.payload, i, ss) == Zeros(ss)
  }

  /** The whole disk can be repacked without the guest noticing. */
  predicate Unmasked(l: Link)
    requires l.Valid()
  {
    forall b :: 0 <= b < l.disk.BlockCount() ==>
      var r := ReadBlock(l.disk, l.data, b);
      r.Ok? ==> NothingMasked(r.value, l.disk.SectorsPerBlock(), l.disk.SectorSize())
  }

  lemma KeptIs(buf: Buffer, sparseSize: nat, w: seq<SectorRead>, ss: nat)
    requires |buf| == |w| * ss
    ensures BlockIs(Kept(buf, sparseSize), w, ss) <==> forall i :: 0 <= i < |w| ==> Sector(buf, i, ss) == GuestSectors(w, ss)[i]
  {
    hide AllZero;
    if sparseSize > 0 && AllZero(buf) {
      forall i | 0 <= i < |w|
        ensures Sector(buf, i, ss) == Zeros(ss)
      {
        ZeroBufferSector(buf, i, |w|, ss);
      }
    } else {
      assert Sectors(buf, |w|, ss) == GuestSectors(w, ss) <==>
             forall i :: 0 <= i < |w| ==> Sectors(buf, |w|, ss)[i] == GuestSectors(w, ss)[i];
    }
  }

  lemma ZeroBufferSector(buf: Buffer, i: nat, n: nat, ss: nat)
    requires AllZero(buf) && |buf| == n * ss && i < n
    ensures Sector(buf, i, ss) == Zeros(ss)
  {
    SectorInside(i, n, ss);
    SectorIsSlice(buf, i, ss);
  }

  /** What one block of the image shows the guest, sector by sector. */
  lemma OneLinkWindow(l: Link, b: nat, i: nat)
    requires l.Valid() && b < l.disk.BlockCount() && l.disk.SectorsPerBlock() > 0 && i < l.disk.SectorsPerBlock()
    ensures ChainWindow([l], b * l.disk.SectorsPerBlock(), l.disk.SectorsPerBlock())[i] ==
            SectorOfBlock(ReadBlock(l.disk, l.data, b), i, l.disk.SectorSize())
  {
    hide ReadBlock, SectorOfBlock;
    var n := l.disk.SectorsPerBlock();
    ChainWindowAt([l], b * n, n, i);
    assert [l][..0] == [];
    assert b * n == n * b;
    DivModUnique(b * n + i, n, b, i);
  }

  /** A repacked block shows what the block showed exactly when nothing in it was masked. */
  lemma CompactedIs(l: Link, b: nat, sparseSize: nat)
    requires l.Valid() && b < l.disk.BlockCount() && ReadBlock(l.disk, l.data, b).Ok?
    ensures
      var n, ss := l.disk.SectorsPerBlock(), l.disk.SectorSize();
      var r := ReadBlock(l.disk, l.data, b).value;
      BlockIs(CompactedBlock(r, sparseSize), ChainWindow([l], b * n, n), ss) <==> NothingMasked(r, n, ss)
  {
    hide ReadBlock, ChainWindow;
    SectorInBlock(l, 0);
    var n, ss := l.disk.SectorsPerBlock(), l.disk.SectorSize();
    var w := ChainWindow([l], b * n, n);
    forall i | 0 <= i < n
      ensures w[i] == SectorOfBlock(ReadBlock(l.disk, l.data, b), i, ss)
    {
      OneLinkWindow(l, b, i);
    }
    CompactedShows(ReadBlock(l.disk, l.data, b).value, sparseSize, w, ss);
  }

  lemma CompactedShows(r: BlockRead, sparseSize: nat, w: seq<SectorRead>, ss: nat)
    requires r.Full? ==> |r.data| == |w| * ss
    requires r.Partial? ==> |r.payload| == |w| * ss
    requires forall i :: 0 <= i < |w| ==> w[i] == SectorOfBlock(Ok(r), i, ss)
    ensures BlockIs(CompactedBlock(r, sparseSize), w, ss) <==> NothingMasked(r, |w|, ss)
  {
    hide BitIsSet, Sector;
    match r {
      case Absent =>
      case Full(b) =>
        KeptIs(b, sparseSize, w, ss);
      case Partial(p, _) =>
        KeptIs(p, sparseSize, w, ss);
    }
  }

  /** A standalone image has no bitmap entry for the blocks of its last chunk. */
  lemma LastChunkHasNoBitmap(t: Table, b: nat)
    requires t.chunkRatio > 0 && b < t.blockCount && |t.entries| <= TotalEntries(t.blockCount, t.chunkRatio, false)
    requires b / t.chunkRatio == (t.blockCount - 1) / t.chunkRatio
    ensures t.BitmapEntry(b).None?
  {
  }

  lemma LastChunkIsUnmasked(l: Link, b: nat)
    requires l.Valid() && b < l.disk.BlockCount()
    requires |l.disk.bat.entries| <= TotalEntries(l.disk.BlockCount(), l.disk.bat.chunkRatio, false)
    requires b / l.disk.bat.chunkRatio == (l.disk.BlockCount() - 1) / l.disk.bat.chunkRatio
    ensures ReadBlock(l.disk, l.data, b).Ok? ==> !ReadBlock(l.disk, l.data, b).value.Partial?
  {
    hide Table.BitmapEntry, TotalEntries;
    LastChunkHasNoBitmap(l.disk.bat, b);
  }

  /** What opening a standalone image establishes of its table. */
  lemma StandaloneTable(data: Buffer, readOnly: bool, d: VhdxDisk)
    requires OpenDisk(data, readOnly) == Ok(d) && !d.HasParent()
    ensures |d.bat.entries| <= TotalEntries(d.BlockCount(), d.bat.chunkRatio, false)
  {
    hide ReadPair, ReadRegions, LayoutValid, ParseMetadata;
  }

  /** A standalone image of one chunk masks nothing: compacting it always keeps the view. */
  lemma OneChunkIsUnmasked(data: Buffer, readOnly: bool, d: VhdxDisk)
    requires OpenDisk(data, readOnly) == Ok(d) && Link(d, data).Valid()
    requires !d.HasParent() && d.BlockCount() <= d.bat.chunkRatio
    ensures Unmasked(Link(d, data))
  {
    hide OpenDisk, ReadBlock;
    StandaloneTable(data, readOnly, d);
    forall b | 0 <= b < d.BlockCount()
      ensures ReadBlock(d, data, b).Ok? ==> !ReadBlock(d, data, b).value.Partial?
    {
      DivModUnique(b, d.bat.chunkRatio, 0, b);
      DivModUnique(d.BlockCount() - 1, d.bat.chunkRatio, 0, d.BlockCount() - 1);
      LastChunkIsUnmasked(Link(d, data), b);
    }
  }

  // ---- The converse of showing a chain ----

  /** An image that shows the chain records it: nothing else reads the same. */
  lemma ShownBlocksAre(d: VhdxDisk, data: Buffer, recorded: seq<Recorded>, ls: seq<Link>)
    requires forall i :: 0 <= i < |ls| ==> ls[i].Valid()
    requires Link(d, data).Valid() && ReadsAs(d, data, recorded)
    requires forall b :: 0 <= b < |recorded| && recorded[b].Stored? ==> |recorded[b].bytes| == d.BlockSize()
    requires ShowsChain(d, data, ls)
    ensures BlocksAre(recorded, |recorded|, ls, d.SectorsPerBlock(), d.SectorSize())
  {
    hide LinkSector, ChainSector, ReadsAs, ReadBlock, SectorOfBlock, ChainWindow, BlockIs, ShowsChain;
    RecordedCount(d, data, recorded);
    SectorInBlock(Link(d, data), 0);
    var n, ss := d.SectorsPerBlock(), d.SectorSize();
    forall b | 0 <= b < |recorded|
      ensures BlockIs(recorded[b], ChainWindow(ls, b * n, n), ss)
    {
      forall i | 0 <= i < n
        ensures SectorOfBlock(Ok(Expected(recorded[b], d.BlockSize())), i, ss) ==
                Present(GuestBytes(ChainWindow(ls, b * n, n)[i], ss))
      {
        ShownSector(d, data, recorded, ls, b, i);
        ChainWindowAt(ls, b * n, n, i);
      }
      ShownBlockIs(recorded[b], ChainWindow(ls, b * n, n), ss, d.BlockSize());
    }
  }

  lemma ShownSector(d: VhdxDisk, data: Buffer, recorded: seq<Recorded>, ls: seq<Link>, b: nat, i: nat)
    requires forall i :: 0 <= i < |ls| ==> ls[i].Valid()
    requires Link(d, data).Valid() && ReadsAs(d, data, recorded) && ShowsChain(d, data, ls)
    requires b < |recorded| == d.BlockCount() && d.SectorsPerBlock() > 0 && i < d.SectorsPerBlock()
    ensures SectorOfBlock(Ok(Expected(recorded[b], d.BlockSize())), i, d.SectorSize()) ==
            Present(GuestBytes(ChainSector(ls, b * d.SectorsPerBlock() + i), d.SectorSize()))
  {
    hide LinkSector, ChainSector, ReadsAs, ReadBlock, SectorOfBlock;
    var n := d.SectorsPerBlock();
    assert b * n == n * b;
    DivModUnique(b * n + i, n, b, i);
    ImageSector(d, data, recorded, b * n + i);
  }

  lemma ShownBlockIs(r: Recorded, w: seq<SectorRead>, ss: nat, bs: nat)
    requires bs == |w| * ss && |w| > 0 && (r.Stored? ==> |r.bytes| == bs)
    requires forall i :: 0 <= i < |w| ==> SectorOfBlock(Ok(Expected(r, bs)), i, ss) == Present(GuestBytes(w[i], ss))
    ensures BlockIs(r, w, ss)
  {
    hide Sector, BitIsSet;
    assert SectorOfBlock(Ok(Expected(r, bs)), 0, ss) == Present(GuestBytes(w[0], ss));
    match r {
      case Unset =>
      case Zeroed =>
        forall i | 0 <= i < |w|
          ensures GuestSectors(w, ss)[i] == Zeros(ss)
        {
          assert SectorOfBlock(Ok(Expected(r, bs)), i, ss) == Present(Sector(Zeros(bs), i, ss));
          ZeroBufferSector(Zeros(bs), i, |w|, ss);
        }
      case Stored(b) =>
        assert forall i :: 0 <= i < |w| ==> SectorOfBlock(Ok(Expected(r, bs)), i, ss) == Present(Sectors(b, |w|, ss)[i]);
    }
  }

  // ---- Compacting ----

  datatype CompactReport = CompactReport(blocksTotal: nat, blocksWritten: nat, blocksZero: nat, bytesIn: nat, bytesOut: nat)

  /** The block is absent, or zero elision is on and its payload is all zero. */
  predicate Elided(r: BlockRead, sparseSize: nat) {
    match r
    case Absent => true
    case Full(b) => sparseSize > 0 && AllZero(b)
    case Partial(p, _) => sparseSize > 0 && AllZero(p)
  }

  ghost function ElidedBlocks(l: Link, count: nat, sparseSize: nat): set<nat>
    requires l.Valid()
  {
    set b: nat | b < count && ReadBlock(l.disk, l.data, b).Ok? && Elided(ReadBlock(l.disk, l.data, b).value, sparseSize)
  }

  lemma ElidedNext(l: Link, b: nat, sparseSize: nat)
    requires l.Valid()
    ensures
      var r := ReadBlock(l.disk, l.data, b);
      |ElidedBlocks(l, b + 1, sparseSize)| ==
      |ElidedBlocks(l, b, sparseSize)| + if r.Ok? && Elided(r.value, sparseSize) then 1 else 0
  {
    hide ReadBlock, Elided;
    var r := ReadBlock(l.disk, l.data, b);
    assert ElidedBlocks(l, b + 1, sparseSize) ==
           ElidedBlocks(l, b, sparseSize) + if r.Ok? && Elided(r.value, sparseSize) then {b} else {};
  }

  lemma NoneElided(l: Link, sparseSize: nat)
    requires l.Valid()
    ensures |ElidedBlocks(l, 0, sparseSize)| == 0
  {
    assert ElidedBlocks(l, 0, sparseSize) == {};
  }

  /** The records of the first `count` blocks. */
  ghost predicate Repacked(recorded: seq<Recorded>, count: nat, l: Link, sparseSize: nat)
    requires l.Valid()
  {
    && count <= |recorded| && count <= l.disk.BlockCount()
    && forall b :: 0 <= b < count ==>
         && ReadBlock(l.disk, l.data, b).Ok?
         && recorded[b] == CompactedBlock(ReadBlock(l.disk, l.data, b).value, sparseSize)
  }

  /** A repacked image shows the disk it came from exactly when no block of that disk masks data. */
  lemma RepackedShows(image: Buffer, p: WriterParams, recorded: seq<Recorded>, l: Link, sparseSize: nat)
    requires l.Valid() && Reads(image, p, recorded)
    requires p.logicalSectorSize == l.disk.SectorSize() && p.blockSize == l.disk.BlockSize() && |recorded| == l.disk.BlockCount()
    requires Repacked(recorded, |recorded|, l, sparseSize)
    ensures IsFlat(image, p, [l]) <==> Unmasked(l)
  {
    hide ReadBlock, ShowsChain, BlockIs, ReadsAs, OpenDisk, ChainWindow, NothingMasked, CompactedBlock;
    var e := OpenDisk(image, true).value;
    var n, ss := l.disk.SectorsPerBlock(), l.disk.SectorSize();
    assert Link(e, image).Valid() && e.SectorsPerBlock() == n && e.SectorSize() == ss && e.BlockSize() == l.disk.BlockSize();
    forall b | 0 <= b < |recorded|
      ensures BlockIs(recorded[b], ChainWindow([l], b * n, n), ss) <==> NothingMasked(ReadBlock(l.disk, l.data, b).value, n, ss)
      ensures recorded[b].Stored? ==> |recorded[b].bytes| == l.disk.BlockSize()
    {
      CompactedIs(l, b, sparseSize);
      CompactedLength(l, b, sparseSize);
    }
    assert BlocksAre(recorded, |recorded|, [l], n, ss) <==> Unmasked(l);
    if Unmasked(l) {
      BlocksShowChain(e, image, recorded, [l]);
    } else if ShowsChain(e, image, [l]) {
      ShownBlocksAre(e, image, recorded, [l]);
    }
  }

  /** What either writer finished holds no partial block, so compacting it always keeps the view. */
  lemma FinishedIsUnmasked(data: Buffer, p: WriterParams, recorded: seq<Recorded>)
    requires Reads(data, p, recorded) && Link(OpenDisk(data, true).value, data).Valid()
    ensures Unmasked(Link(OpenDisk(data, true).value, data))
  {
    hide OpenDisk, ReadBlock;
    var d := OpenDisk(data, true).value;
    forall b | 0 <= b < d.BlockCount()
      ensures !ReadBlock(d, data, b).value.Partial?
    {
      assert ReadBlock(d, data, b) == Ok(Expected(recorded[b], d.BlockSize()));
    }
  }

  lemma CompactedLength(l: Link, b: nat, sparseSize: nat)
    requires l.Valid() && ReadBlock(l.disk, l.data, b).Ok?
    ensures
      var r := CompactedBlock(ReadBlock(l.disk, l.data, b).value, sparseSize);
      r.Stored? ==> |r.bytes| == l.disk.BlockSize()
  {
    hide ReadBlock;
  }

  lemma OneMoreRepacked(recorded: seq<Recorded>, blk: nat, l: Link, sparseSize: nat)
    requires l.Valid() && Repacked(recorded, blk, l, sparseSize) && blk < |recorded| && blk < l.disk.BlockCount()
    requires ReadBlock(l.disk, l.data, blk).Ok?
    ensures Repacked(recorded[blk := CompactedBlock(ReadBlock(l.disk, l.data, blk).value, sparseSize)], blk + 1, l, sparseSize)
  {
    hide ReadBlock, CompactedBlock;
  }

  /**
   * Compacts a standalone image. It succeeds exactly when every block reads; the output then shows the same disk
   * if and only if no block of it masks data, and holds the blocks written and no more.
   */
  method CompactImage(file: File, disk: VhdxDisk, sparseSize: nat, dataGuid: Guid, fileGuid: Guid)
    returns (r: Result<CompactReport>, out: File)
    requires Link(disk, file.data).Valid() && Flattenable(disk.metadata)
    ensures fresh(out)
    ensures disk.HasParent() ==> r == Err(Unsupported)
    ensures !disk.HasParent() ==> (r.Ok? <==> AllBlocksRead(Link(disk, file.data), disk.BlockCount()))
    ensures r.Ok? ==>
              var p := OutputParams(disk.metadata, false, dataGuid, fileGuid);
              && (IsFlat(out.data, p, [Link(disk, file.data)]) <==> Unmasked(Link(disk, file.data)))
              && r.value.blocksTotal == r.value.blocksWritten + r.value.blocksZero == disk.BlockCount()
              && r.value.blocksZero == |ElidedBlocks(Link(disk, file.data), disk.BlockCount(), sparseSize)|
              && r.value.bytesIn == |file.data|
              && r.value.bytesOut == |out.data| == PayloadStart(p) + r.value.blocksWritten * disk.BlockSize()
  {
    hide Flattenable, PayloadStart, WriterParams.Usable, IsFlat, Unmasked, AllBlocksRead, Reads, BlocksHold, Framed, Repacked,
      ReadBlock, CompactedBlock, ElidedBlocks;
    if disk.HasParent() {
      out := new File();
      return Err(Unsupported), out;
    }
    var p := OutputParams(disk.metadata, false, dataGuid, fileGuid);
    OutputUsable(disk.metadata, false, dataGuid, fileGuid);
    LayoutOrder(p);
    ghost var l := Link(disk, file.data);
    var w := new VhdxWriter(p);
    out := w.file;
    NothingRepacked(w.recorded, l, sparseSize);
    r := CopyBlocks(file, disk, w, sparseSize);
    if r.Err? {
      return;
    }
    w.Finish();
    r := Ok(r.value.(bytesOut := |out.data|));
    RepackedShows(out.data, p, w.recorded, l, sparseSize);
  }

  lemma NothingRepacked(recorded: seq<Recorded>, l: Link, sparseSize: nat)
    requires l.Valid()
    ensures Repacked(recorded, 0, l, sparseSize)
  {
  }

  /** The block loop. */
  method CopyBlocks(file: File, disk: VhdxDisk, w: VhdxWriter, sparseSize: nat) returns (r: Result<CompactReport>)
    requires Link(disk, file.data).Valid() && file != w.file
    requires w.Valid() && !w.p.fixed && w.p.blockSize == disk.BlockSize() && w.p.BlockCount() == disk.BlockCount()
    requires w.payloadCursor == PayloadStart(w.p) && PayloadStart(w.p) + disk.BlockCount() * disk.BlockSize() < U64
    requires Repacked(w.recorded, 0, Link(disk, file.data), sparseSize)
    modifies w, w.file, w.bat
    ensures r.Ok? <==> AllBlocksRead(Link(disk, file.data), disk.BlockCount())
    ensures r.Ok? ==> w.Valid() && Repacked(w.recorded, disk.BlockCount(), Link(disk, file.data), sparseSize)
    ensures r.Ok? ==> r.value.blocksTotal == r.value.blocksWritten + r.value.blocksZero == disk.BlockCount()
    ensures r.Ok? ==> r.value.blocksZero == |ElidedBlocks(Link(disk, file.data), disk.BlockCount(), sparseSize)|
    ensures r.Ok? ==> r.value.bytesIn == |file.data| && file.data == old(file.data)
    ensures r.Ok? ==> w.payloadCursor == PayloadStart(w.p) + r.value.blocksWritten * disk.BlockSize()
  {
    hide PayloadStart, WriterParams.Usable, BlocksHold, Framed, Repacked, ReadBlock, AllZero, ElidedBlocks;
    LayoutOrder(w.p);
    ghost var l := Link(disk, file.data);
    var bs, count := disk.BlockSize(), disk.BlockCount();
    var written, zero := 0, 0;
    NoneElided(l, sparseSize);
    for blk := 0 to count
      invariant w.Valid() && blk == written + zero && zero == |ElidedBlocks(l, blk, sparseSize)|
      invariant file.data == l.data
      invariant w.payloadCursor == PayloadStart(w.p) + written * bs
      invariant Repacked(w.recorded, blk, l, sparseSize)
      invariant forall b :: 0 <= b < blk ==> ReadBlock(disk, l.data, b).Ok?
    {
      CursorFits(PayloadStart(w.p), written, blk, count, bs);
      var read := ReadBlockFrom(disk, file, blk);
      if read.Err? {
        return Err(read.error);
      }
      OneMoreRepacked(w.recorded, blk, l, sparseSize);
      ElidedNext(l, blk, sparseSize);
      if read.value.Absent? {
        w.WriteBlock(blk, ZeroBlock);
        zero := zero + 1;
        continue;
      }
      var buf := if read.value.Full? then read.value.data else read.value.payload;
      var sparse := IsAllZeroAligned(buf, sparseSize);
      if sparse {
        w.WriteBlock(blk, ZeroBlock);
        zero := zero + 1;
      } else {
        w.WriteBlock(blk, Buf(buf));
        written := written + 1;
      }
    }
    return Ok(CompactReport(count, written, zero, |file.data|, 0));
  }
}
