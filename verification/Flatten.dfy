/** Flattening a chain into one standalone image (flatten.rs). */
module Flatten {
  import opened Wrappers
  import opened Bytes
  import opened FileIo
  import opened Format
  import opened BlockTable
  import opened MetadataRegion
  import opened Packing
  import opened Disks
  import opened ChainView
  import opened Composite
  import opened Images
  import opened ImageBlocks
  import opened Writer

  // ---- What a flattened image shows ----

  /** The record of a block is the chain's answer for its sectors. */
  ghost predicate BlockIs(r: Recorded, w: seq<SectorRead>, ss: nat) {
    match r
    case Unset => false
    case Zeroed => forall i :: 0 <= i < |w| ==> GuestSectors(w, ss)[i] == Zeros(ss)
    case Stored(b) => |b| == |w| * ss && Sectors(b, |w|, ss) == GuestSectors(w, ss)
  }

  /** Every block of the chain, `n` sectors each, is recorded. */
  ghost predicate BlocksAre(recorded: seq<Recorded>, count: nat, ls: seq<Link>, n: nat, ss: nat)
    requires forall i :: 0 <= i < |ls| ==> ls[i].Valid()
  {
    count <= |recorded| && forall b :: 0 <= b < count ==> BlockIs(recorded[b], ChainWindow(ls, b * n, n), ss)
  }

  /** The image has every sector of the chain, with the bytes the guest read from the chain. */
  ghost predicate ShowsChain(d: VhdxDisk, data: Buffer, ls: seq<Link>)
    requires forall i :: 0 <= i < |ls| ==> ls[i].Valid()
  {
    && Link(d, data).Valid() && d.SectorsPerBlock() > 0
    && forall s: nat :: s / d.SectorsPerBlock() < d.BlockCount() ==>
         LinkSector(Link(d, data), s) == Present(GuestBytes(ChainSector(ls, s), d.SectorSize()))
  }

  lemma BlockShows(r: Recorded, w: seq<SectorRead>, ss: nat, bs: nat, i: nat)
    requires BlockIs(r, w, ss) && i < |w| && bs == |w| * ss
    ensures SectorOfBlock(Ok(Expected(r, bs)), i, ss) == Present(GuestBytes(w[i], ss))
  {
    SectorInside(i, |w|, ss);
    match r {
      case Zeroed =>
        SectorIsSlice(Zeros(bs), i, ss);
        assert GuestSectors(w, ss)[i] == Zeros(ss);
        assert Sector(Zeros(bs), i, ss) == Zeros(ss);
      case Stored(b) =>
        assert Sectors(b, |w|, ss)[i] == GuestSectors(w, ss)[i];
    }
  }

  lemma BlocksShowChain(d: VhdxDisk, data: Buffer, recorded: seq<Recorded>, ls: seq<Link>)
    requires forall i :: 0 <= i < |ls| ==> ls[i].Valid()
    requires Link(d, data).Valid() && ReadsAs(d, data, recorded)
    requires BlocksAre(recorded, |recorded|, ls, d.SectorsPerBlock(), d.SectorSize())
    ensures ShowsChain(d, data, ls)
  {
    hide LinkSector, ChainSector, ReadsAs, ReadBlock, SectorOfBlock, ChainWindow, BlockIs;
    var n := d.SectorsPerBlock();
    var ss := d.SectorSize();
    SectorInBlock(Link(d, data), 0);
    assert |recorded| == d.BlockCount() by {
      RecordedCount(d, data, recorded);
    }
    forall s: nat | s / n < d.BlockCount()
      ensures LinkSector(Link(d, data), s) == Present(GuestBytes(ChainSector(ls, s), ss))
    {
      var b, i := s / n, s % n;
      assert s == n * b + i && n * b == b * n;
      ImageSector(d, data, recorded, s);
      assert BlockIs(recorded[b], ChainWindow(ls, b * n, n), ss);
      BlockShows(recorded[b], ChainWindow(ls, b * n, n), ss, d.BlockSize(), i);
      ChainWindowAt(ls, b * n, n, i);
    }
  }

  lemma RecordedCount(d: VhdxDisk, data: Buffer, recorded: seq<Recorded>)
    requires ReadsAs(d, data, recorded)
    ensures |recorded| == d.BlockCount()
  {
    hide ReadBlock;
  }

  /** An all-zero composite may be recorded as a zero block: eliding it changes nothing the guest sees. */
  lemma ZeroBlockIs(c: Buffer, w: seq<SectorRead>, ss: nat)
    requires |c| == |w| * ss && Sectors(c, |w|, ss) == GuestSectors(w, ss) && AllZero(c)
    ensures BlockIs(Zeroed, w, ss)
  {
    forall i | 0 <= i < |w|
      ensures GuestSectors(w, ss)[i] == Zeros(ss)
    {
      SectorInside(i, |w|, ss);
      SectorIsSlice(c, i, ss);
      assert Sectors(c, |w|, ss)[i] == Zeros(ss);
    }
  }

  // ---- Zero blocks ----

  ghost predicate ZeroWindow(w: seq<SectorRead>, ss: nat) {
    forall i :: 0 <= i < |w| ==> GuestSectors(w, ss)[i] == Zeros(ss)
  }

  /** A composite is all zero exactly when its sectors are. */
  lemma AllZeroIffZeroSectors(c: Buffer, w: seq<SectorRead>, ss: nat)
    requires ss > 0 && |c| == |w| * ss && Sectors(c, |w|, ss) == GuestSectors(w, ss)
    ensures AllZero(c) <==> ZeroWindow(w, ss)
  {
    if AllZero(c) {
      ZeroBlockIs(c, w, ss);
    }
    if ZeroWindow(w, ss) {
      forall i | 0 <= i < |w|
        ensures Sectors(c, |w|, ss)[i] == Sectors(Zeros(|c|), |w|, ss)[i]
      {
        SectorInside(i, |w|, ss);
        SectorIsSlice(Zeros(|c|), i, ss);
        assert GuestSectors(w, ss)[i] == Zeros(ss);
      }
      SameSectors(c, Zeros(|c|), |w|, ss);
    }
  }

  /** The blocks, `n` sectors each, of which the guest reads only zeros. */
  ghost function ZeroBlocks(ls: seq<Link>, count: nat, n: nat, ss: nat): set<nat>
    requires forall i :: 0 <= i < |ls| ==> ls[i].Valid()
  {
    set b: nat | b < count && ZeroWindow(ChainWindow(ls, b * n, n), ss)
  }

  lemma ZeroBlocksNext(ls: seq<Link>, b: nat, n: nat, ss: nat)
    requires forall i :: 0 <= i < |ls| ==> ls[i].Valid()
    ensures |ZeroBlocks(ls, b + 1, n, ss)| ==
            |ZeroBlocks(ls, b, n, ss)| + if ZeroWindow(ChainWindow(ls, b * n, n), ss) then 1 else 0
  {
    hide ZeroWindow, ChainWindow;
    assert ZeroBlocks(ls, b + 1, n, ss) ==
           ZeroBlocks(ls, b, n, ss) + if ZeroWindow(ChainWindow(ls, b * n, n), ss) then {b} else {};
  }

  lemma OneMoreBlock(recorded: seq<Recorded>, blk: nat, r: Recorded, ls: seq<Link>, n: nat, ss: nat)
    requires forall i :: 0 <= i < |ls| ==> ls[i].Valid()
    requires BlocksAre(recorded, blk, ls, n, ss) && blk < |recorded|
    requires BlockIs(r, ChainWindow(ls, blk * n, n), ss)
    ensures BlocksAre(recorded[blk := r], blk + 1, ls, n, ss)
  {
    hide BlockIs, ChainWindow;
  }

  // ---- The parameters of the output ----

  /** A standalone image with the leaf's geometry. */
  function OutputParams(leaf: Metadata, fixed: bool, dataGuid: Guid, fileGuid: Guid): WriterParams {
    WriterParams(leaf.virtualDiskSize, leaf.fileParameters.blockSize, leaf.logicalSectorSize, leaf.physicalSectorSize,
                 fixed, None, MIB, dataGuid, fileGuid, leaf.page83Data)
  }

  /** Metadata without locator or extras always fits its region. */
  lemma PlainMetadataFits(m: Metadata)
    requires m.parentLocator.None? && m.extras == []
    ensures MetadataRegion.Encodable(m, MIB)
  {
    var items := Items(m);
    assert items == KnownItems(m);
    var ds := Datas(items);
    StartNext(ds, 0);
    StartNext(ds, 1);
    StartNext(ds, 2);
    StartNext(ds, 3);
    StartNext(ds, 4);
    assert ds[..0] == [] && ds[..5] == ds;
    hide Encode, Datas;
  }

  /** What flattening needs of the leaf: MiB-sized blocks and sizes that fit the fields they are stored in. */
  predicate Flattenable(leaf: Metadata) {
    && leaf.HasGeometry()
    && leaf.BlockSize() % MIB == 0
    && OutputParams(leaf, false, NIL, NIL).BatLength() < U32
    && PayloadStart(OutputParams(leaf, false, NIL, NIL)) + leaf.BlockCount() * leaf.BlockSize() < U64
  }

  lemma OutputUsable(leaf: Metadata, fixed: bool, dataGuid: Guid, fileGuid: Guid)
    requires Flattenable(leaf)
    ensures
      var p := OutputParams(leaf, fixed, dataGuid, fileGuid);
      && p.Usable()
      && p.BlockCount() == leaf.BlockCount()
      && PayloadStart(p) + leaf.BlockCount() * leaf.BlockSize() < U64
  {
    var p := OutputParams(leaf, fixed, dataGuid, fileGuid);
    var q := OutputParams(leaf, false, NIL, NIL);
    PlainMetadataFits(p.Meta());
    assert p.TotalEntries() == q.TotalEntries();
    assert p.MetadataOffset() == 2 * MIB;
    hide MetadataRegion.Encodable, WriterParams.TotalEntries, AlignUp;
  }

  // ---- Flattening to a seekable file ----

  datatype FlattenReport = FlattenReport(blocksTotal: nat, blocksWritten: nat, blocksZero: nat)

  /** Links below the leaf must share its virtual size and sector size. */
  predicate Matches(ls: seq<Link>) {
    |ls| > 0 && forall i :: 0 <= i < |ls| ==>
      && ls[i].disk.metadata.virtualDiskSize == ls[0].disk.metadata.virtualDiskSize
      && ls[i].disk.metadata.logicalSectorSize == ls[0].disk.metadata.logicalSectorSize
  }

  /** Every sector of every leaf block has an answer. */
  ghost predicate ChainReadable(ls: seq<Link>, count: nat, n: nat)
    requires forall i :: 0 <= i < |ls| ==> ls[i].Valid()
  {
    forall b :: 0 <= b < count ==> Readable(ChainWindow(ls, b * n, n))
  }

  method CheckLinks(links: seq<OpenLink>, ghost ls: seq<Link>) returns (ok: bool)
    requires |links| > 0 && Opened(links, ls)
    ensures ok <==> Matches(ls)
  {
    var leaf := links[0].disk.metadata;
    for i := 1 to |links|
      invariant forall k :: 0 <= k < i ==>
                  && ls[k].disk.metadata.virtualDiskSize == leaf.virtualDiskSize
                  && ls[k].disk.metadata.logicalSectorSize == leaf.logicalSectorSize
    {
      if links[i].disk.metadata.virtualDiskSize != leaf.virtualDiskSize ||
         links[i].disk.metadata.logicalSectorSize != leaf.logicalSectorSize {
        return false;
      }
    }
    return true;
  }

  /** When flattening succeeds: the links match, and every sector of every leaf block can be read. */
  ghost predicate CanFlatten(ls: seq<Link>)
    requires |ls| > 0 && forall i :: 0 <= i < |ls| ==> ls[i].Valid()
  {
    && (forall i :: 0 <= i < |ls| ==> ls[i].disk.metadata.virtualDiskSize == ls[0].disk.metadata.virtualDiskSize)
    && (forall i :: 0 <= i < |ls| ==> ls[i].disk.metadata.logicalSectorSize == ls[0].disk.metadata.logicalSectorSize)
    && ls[0].Valid() && ChainReadable(ls, ls[0].disk.BlockCount(), ls[0].disk.SectorsPerBlock())
  }

  /** A clean standalone image with these parameters that shows the chain. */
  ghost predicate IsFlat(data: Buffer, p: WriterParams, ls: seq<Link>)
    requires forall i :: 0 <= i < |ls| ==> ls[i].Valid()
  {
    && OpenDisk(data, true).Ok?
    && OpenDisk(data, false) == OpenDisk(data, true)
    && OpenDisk(data, true).value.metadata == p.Meta()
    && MadeFrom(OpenDisk(data, true).value, p)
    && ShowsChain(OpenDisk(data, true).value, data, ls)
  }

  /** A flat image is the leaf without its parents: same sizes and identifier, no locator, its own GUIDs, no log. */
  lemma FlatSays(data: Buffer, leaf: Metadata, fixed: bool, dataGuid: Guid, fileGuid: Guid, ls: seq<Link>)
    requires forall i :: 0 <= i < |ls| ==> ls[i].Valid()
    requires IsFlat(data, OutputParams(leaf, fixed, dataGuid, fileGuid), ls)
    ensures
      var m, h := OpenDisk(data, true).value.metadata, OpenDisk(data, true).value.headers.Active();
      && m.virtualDiskSize == leaf.virtualDiskSize && m.fileParameters.blockSize == leaf.fileParameters.blockSize
      && m.logicalSectorSize == leaf.logicalSectorSize && m.physicalSectorSize == leaf.physicalSectorSize
      && m.page83Data == leaf.page83Data && m.extras == []
      && !m.fileParameters.hasParent && m.parentLocator == None && (m.fileParameters.leaveBlocksAllocated <==> fixed)
      && h.dataWriteGuid == dataGuid && h.fileWriteGuid == fileGuid && h.logGuid == NIL && h.logLength == 0x10_0000
  {
    hide OpenDisk, ShowsChain;
  }

  /** Every block of the virtual disk is accounted for, and the file has room for those written and no more. */
  predicate Counted(report: FlattenReport, p: WriterParams, len: nat)
    requires p.Meta().HasGeometry()
  {
    && report.blocksTotal == report.blocksWritten + report.blocksZero == p.BlockCount()
    && len == PayloadStart(p) + report.blocksWritten * p.blockSize
  }

  /**
   * Writes the composite of every leaf block to a fresh image. It succeeds exactly when the links match and
   * every sector can be read, and the image then shows the chain.
   */
  method FlattenChain(links: seq<OpenLink>, ghost ls: seq<Link>, fixed: bool, elideZero: bool, compressNtfs: bool,
                      dataGuid: Guid, fileGuid: Guid)
    returns (r: Result<FlattenReport>, out: File)
    requires |links| > 0 && Opened(links, ls) && (forall i :: 0 <= i < |ls| ==> ls[i].Valid())
    requires Flattenable(links[0].disk.metadata)
    ensures fresh(out) && Opened(links, ls)
    ensures r.Ok? <==> CanFlatten(ls)
    ensures !Matches(ls) ==> r == Err(InvalidStructure)
    ensures r.Ok? ==> IsFlat(out.data, OutputParams(links[0].disk.metadata, fixed, dataGuid, fileGuid), ls)
    ensures r.Ok? ==>
              Counted(r.value, OutputParams(links[0].disk.metadata, fixed, dataGuid, fileGuid), |out.data|)
    ensures r.Ok? ==>
              var d := links[0].disk;
              r.value.blocksZero ==
              if elideZero && !fixed then |ZeroBlocks(ls, d.BlockCount(), d.SectorsPerBlock(), d.SectorSize())| else 0
  {
    hide Flattenable, PayloadStart, WriterParams.Usable, IsFlat, ChainReadable, Counted, ZeroBlocks;
    var leaf := links[0].disk;
    var p := OutputParams(leaf.metadata, fixed, dataGuid, fileGuid);
    OutputUsable(leaf.metadata, fixed, dataGuid, fileGuid);
    var ok := CheckLinks(links, ls);
    if !ok {
      out := new File();
      return Err(InvalidStructure), out;
    }
    MatchingIsUniform(ls);
    SectorInBlock(ls[0], 0);
    r, out := FlattenMatching(links, ls, p, elideZero, compressNtfs, leaf.BlockSize(), leaf.SectorSize(), leaf.SectorsPerBlock());
  }

  /** Flattening once the links are known to match. */
  method FlattenMatching(links: seq<OpenLink>, ghost ls: seq<Link>, p: WriterParams, elideZero: bool, compressNtfs: bool,
                         bs: nat, ss: nat, n: nat)
    returns (r: Result<FlattenReport>, out: File)
    requires Opened(links, ls) && Uniform(ls, ss) && n > 0 && bs == n * ss
    requires p.Usable() && p.blockSize == bs && p.logicalSectorSize == ss && bs % ss == 0 && n == bs / ss
    requires PayloadStart(p) + p.BlockCount() * bs < U64
    ensures fresh(out) && Opened(links, ls)
    ensures r.Ok? <==> ChainReadable(ls, p.BlockCount(), n)
    ensures r.Ok? ==> IsFlat(out.data, p, ls) && Counted(r.value, p, |out.data|)
    ensures r.Ok? ==> r.value.blocksZero == if elideZero && !p.fixed then |ZeroBlocks(ls, p.BlockCount(), n, ss)| else 0
  {
    hide PayloadStart, WriterParams.Usable, Reads, BlocksHold, BlocksAre, IsFlat, ChainReadable, Framed, ZeroBlocks;
    LayoutOrder(p);
    var w := new VhdxWriter(p);
    out := w.file;
    if compressNtfs {
      w.SetChunkedWriteSize(MIB);
    }
    NoBlocksYet(w.recorded, ls, n, ss);
    r := WriteBlocks(links, ls, w, elideZero, bs, ss, n);
    if r.Err? {
      return;
    }
    w.Finish();
    FlattenedShows(out.data, p, w.recorded, ls, n, ss);
  }

  lemma NoBlocksYet(recorded: seq<Recorded>, ls: seq<Link>, n: nat, ss: nat)
    requires forall i :: 0 <= i < |ls| ==> ls[i].Valid()
    ensures BlocksAre(recorded, 0, ls, n, ss) && ChainReadable(ls, 0, n)
  {
  }

  lemma OneMoreReadable(ls: seq<Link>, blk: nat, n: nat)
    requires forall i :: 0 <= i < |ls| ==> ls[i].Valid()
    requires ChainReadable(ls, blk, n) && Readable(ChainWindow(ls, blk * n, n))
    ensures ChainReadable(ls, blk + 1, n)
  {
    hide Readable, ChainWindow;
  }

  lemma UnreadableBlock(ls: seq<Link>, blk: nat, count: nat, n: nat)
    requires forall i :: 0 <= i < |ls| ==> ls[i].Valid()
    requires blk < count && !Readable(ChainWindow(ls, blk * n, n))
    ensures !ChainReadable(ls, count, n)
  {
    hide Readable, ChainWindow;
  }

  lemma NoZeroBlocks(ls: seq<Link>, n: nat, ss: nat)
    requires forall i :: 0 <= i < |ls| ==> ls[i].Valid()
    ensures |ZeroBlocks(ls, 0, n, ss)| == 0
  {
    assert ZeroBlocks(ls, 0, n, ss) == {};
  }

  /** The block loop. */
  method WriteBlocks(links: seq<OpenLink>, ghost ls: seq<Link>, w: VhdxWriter, elideZero: bool, bs: nat, ss: nat, n: nat)
    returns (r: Result<FlattenReport>)
    requires Opened(links, ls) && Uniform(ls, ss) && n > 0 && bs == n * ss
    requires w.Valid() && w.p.blockSize == bs && w.payloadCursor == PayloadStart(w.p)
    requires PayloadStart(w.p) + w.p.BlockCount() * bs < U64
    requires w.p.fixed ==> forall b :: 0 <= b < |w.recorded| ==> w.recorded[b].Stored?
    requires forall i :: 0 <= i < |links| ==> links[i].file != w.file
    requires BlocksAre(w.recorded, 0, ls, n, ss) && ChainReadable(ls, 0, n)
    modifies w, w.file, w.bat
    ensures r.Ok? <==> ChainReadable(ls, w.p.BlockCount(), n)
    ensures r.Ok? ==> w.Valid() && |w.recorded| == w.p.BlockCount() && BlocksAre(w.recorded, |w.recorded|, ls, n, ss)
    ensures r.Ok? ==> r.value.blocksTotal == r.value.blocksWritten + r.value.blocksZero == w.p.BlockCount()
    ensures r.Ok? && !w.p.fixed ==> w.payloadCursor == PayloadStart(w.p) + r.value.blocksWritten * bs
    ensures r.Ok? ==> r.value.blocksZero == if elideZero && !w.p.fixed then |ZeroBlocks(ls, w.p.BlockCount(), n, ss)| else 0
    ensures Opened(links, ls)
  {
    hide ChainWindow, BlocksAre, ChainReadable, Readable, Sectors, GuestSectors, PayloadStart, WriterParams.Usable, BlocksHold,
      BlockIs, Framed, ZeroBlocks, ZeroWindow;
    LayoutOrder(w.p);
    var written, zero := 0, 0;
    var count := w.p.BlockCount();
    NoZeroBlocks(ls, n, ss);
    for blk := 0 to count
      invariant w.Valid() && Opened(links, ls)
      invariant |w.recorded| == count && blk == written + zero
      invariant zero == if elideZero && !w.p.fixed then |ZeroBlocks(ls, blk, n, ss)| else 0
      invariant w.payloadCursor == PayloadStart(w.p) + if w.p.fixed then 0 else written * bs
      invariant w.p.fixed ==> forall b :: 0 <= b < |w.recorded| ==> w.recorded[b].Stored?
      invariant BlocksAre(w.recorded, blk, ls, n, ss)
      invariant ChainReadable(ls, blk, n)
    {
      var c := MergeBlock(links, ls, blk, bs, ss, n);
      if c.Err? {
        UnreadableBlock(ls, blk, count, n);
        return Err(c.error);
      }
      OneMoreReadable(ls, blk, n);
      CursorFits(PayloadStart(w.p), written, blk, count, bs);
      AllZeroIffZeroSectors(c.value, ChainWindow(ls, blk * n, n), ss);
      ZeroBlocksNext(ls, blk, n, ss);
      if elideZero && !w.p.fixed && AllZero(c.value) {
        ZeroBlockIs(c.value, ChainWindow(ls, blk * n, n), ss);
        OneMoreBlock(w.recorded, blk, Zeroed, ls, n, ss);
        w.WriteBlock(blk, ZeroBlock);
        zero := zero + 1;
      } else {
        StoredBlockIs(c.value, ChainWindow(ls, blk * n, n), ss);
        OneMoreBlock(w.recorded, blk, Stored(c.value), ls, n, ss);
        w.WriteBlock(blk, Buf(c.value));
        written := written + 1;
      }
    }
    r := Ok(FlattenReport(count, written, zero));
  }

  lemma StoredBlockIs(c: Buffer, w: seq<SectorRead>, ss: nat)
    requires |c| == |w| * ss && Sectors(c, |w|, ss) == GuestSectors(w, ss)
    ensures BlockIs(Stored(c), w, ss)
  {
  }

  lemma MatchingIsUniform(ls: seq<Link>)
    requires Matches(ls) && forall i :: 0 <= i < |ls| ==> ls[i].Valid()
    ensures Uniform(ls, ls[0].disk.SectorSize())
  {
  }

  lemma CursorFits(start: nat, written: nat, blk: nat, count: nat, bs: nat)
    requires written <= blk < count && start + count * bs < U64
    ensures start + written * bs + bs < U64
    ensures (written + 1) * bs == written * bs + bs
  {
    MulMonotone(bs, written + 1, count);
    assert bs * (written + 1) == written * bs + bs && bs * count == count * bs;
  }

  lemma FlattenedShows(data: Buffer, p: WriterParams, recorded: seq<Recorded>, ls: seq<Link>, n: nat, ss: nat)
    requires forall i :: 0 <= i < |ls| ==> ls[i].Valid()
    requires Reads(data, p, recorded) && p.logicalSectorSize == ss > 0 && p.blockSize % ss == 0 && n == p.blockSize / ss
    requires BlocksAre(recorded, |recorded|, ls, n, ss)
    ensures IsFlat(data, p, ls)
  {
    hide LinkSector, ChainSector, ChainWindow, OpenDisk, BlocksAre, ShowsChain, ReadsAs, MadeFrom, BlocksFrom;
    BlocksShowChain(OpenDisk(data, true).value, data, recorded, ls);
  }
}
