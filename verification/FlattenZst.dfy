/** Flattening a chain into a forward-only stream, in two passes (flatten.rs, flatten_to_zst). */
module FlattenZst {
  import opened Wrappers
  import opened Bytes
  import opened FileIo
  import opened Format
  import opened BlockTable
  import opened MetadataRegion
  import opened Disks
  import opened ChainView
  import opened Composite
  import opened Images
  import opened ImageBlocks
  import opened Writer
  import opened ZstWriter
  import opened Flatten

  /** The first pass was right: a block is marked zero exactly when everything the guest reads of it is zero. */
  ghost predicate ScannedRight(isZero: seq<bool>, ls: seq<Link>, n: nat, ss: nat)
    requires forall i :: 0 <= i < |ls| ==> ls[i].Valid()
  {
    forall b :: 0 <= b < |isZero| ==> (isZero[b] <==> ZeroWindow(ChainWindow(ls, b * n, n), ss))
  }

  /** First pass: composes every block and remembers which are zero. */
  method AnalyzeZeroBlocks(links: seq<OpenLink>, ghost ls: seq<Link>, blockCount: nat, bs: nat, ss: nat, n: nat)
    returns (r: Result<seq<bool>>)
    requires Opened(links, ls) && Uniform(ls, ss) && n > 0 && bs == n * ss
    ensures r.Ok? <==> ChainReadable(ls, blockCount, n)
    ensures r.Ok? ==> |r.value| == blockCount && ScannedRight(r.value, ls, n, ss)
  {
    hide ChainWindow, Readable, Sectors, GuestSectors, ZeroWindow, ChainReadable;
    NoBlocksYet([], ls, n, ss);
    var isZero: seq<bool> := [];
    for blk := 0 to blockCount
      invariant |isZero| == blk && ScannedRight(isZero, ls, n, ss) && ChainReadable(ls, blk, n)
    {
      var c := MergeBlock(links, ls, blk, bs, ss, n);
      if c.Err? {
        UnreadableBlock(ls, blk, blockCount, n);
        return Err(c.error);
      }
      OneMoreReadable(ls, blk, n);
      AllZeroIffZeroSectors(c.value, ChainWindow(ls, blk * n, n), ss);
      isZero := isZero + [AllZero(c.value)];
    }
    return Ok(isZero);
  }

  /** The blocks not emitted are those of which the guest reads only zeros. */
  lemma {:induction false} RankCounts(isZero: seq<bool>, i: nat, ls: seq<Link>, n: nat, ss: nat)
    requires forall k :: 0 <= k < |ls| ==> ls[k].Valid()
    requires i <= |isZero| && ScannedRight(isZero, ls, n, ss)
    ensures i == Rank(isZero, i) + |ZeroBlocks(ls, i, n, ss)|
  {
    hide ZeroWindow, ChainWindow;
    if i > 0 {
      RankCounts(isZero, i - 1, ls, n, ss);
      ZeroBlocksNext(ls, i - 1, n, ss);
    }
  }

  /** The non-zero blocks emitted so far are what the chain shows for them. */
  ghost predicate EmittedRight(payloads: seq<Buffer>, count: nat, isZero: seq<bool>, ls: seq<Link>, n: nat, ss: nat)
    requires forall i :: 0 <= i < |ls| ==> ls[i].Valid()
  {
    && count <= |isZero| && |payloads| == Rank(isZero, count)
    && forall b :: 0 <= b < count && !isZero[b] ==>
         Rank(isZero, b) < |payloads| && BlockIs(Stored(payloads[Rank(isZero, b)]), ChainWindow(ls, b * n, n), ss)
  }

  lemma EmittedOneMore(payloads: seq<Buffer>, blk: nat, buf: Buffer, isZero: seq<bool>, ls: seq<Link>, n: nat, ss: nat)
    requires forall i :: 0 <= i < |ls| ==> ls[i].Valid()
    requires blk < |isZero| && EmittedRight(payloads, blk, isZero, ls, n, ss)
    requires !isZero[blk] ==> BlockIs(Stored(buf), ChainWindow(ls, blk * n, n), ss)
    ensures EmittedRight(if isZero[blk] then payloads else payloads + [buf], blk + 1, isZero, ls, n, ss)
  {
    hide BlockIs, ChainWindow, Rank;
    RankNext(isZero, blk);
    var ps := if isZero[blk] then payloads else payloads + [buf];
    forall b | 0 <= b < blk && !isZero[b]
      ensures Rank(isZero, b) < |ps| && ps[Rank(isZero, b)] == payloads[Rank(isZero, b)]
    {
      assert Rank(isZero, b) < |payloads|;
    }
  }

  lemma RankNext(isZero: seq<bool>, blk: nat)
    requires blk < |isZero|
    ensures Rank(isZero, blk + 1) == Rank(isZero, blk) + if isZero[blk] then 0 else 1
  {
  }

  lemma ZeroWindowIs(w: seq<SectorRead>, ss: nat)
    requires ZeroWindow(w, ss)
    ensures BlockIs(Zeroed, w, ss)
  {
  }

  lemma StreamShows(isZero: seq<bool>, payloads: seq<Buffer>, ls: seq<Link>, n: nat, ss: nat)
    requires forall i :: 0 <= i < |ls| ==> ls[i].Valid()
    requires ScannedRight(isZero, ls, n, ss) && EmittedRight(payloads, |isZero|, isZero, ls, n, ss)
    ensures BlocksAre(StreamRecords(isZero, payloads), |isZero|, ls, n, ss)
  {
    hide ChainWindow, BlockIs, ZeroWindow, Rank, GuestSectors;
    var r := StreamRecords(isZero, payloads);
    forall b | 0 <= b < |isZero|
      ensures BlockIs(r[b], ChainWindow(ls, b * n, n), ss)
    {
      if isZero[b] {
        ZeroWindowIs(ChainWindow(ls, b * n, n), ss);
      }
    }
  }

  /** Every byte of a sink: what it held, then one image. */
  ghost predicate StreamsImage(out: Buffer, before: Buffer, len: nat, p: WriterParams, ls: seq<Link>)
    requires forall i :: 0 <= i < |ls| ==> ls[i].Valid()
  {
    && |out| == |before| + len
    && out[..|before|] == before
    && IsFlat(out[|before|..], p, ls)
  }

  /** Second pass: emits the non-zero blocks in order, each when the cursor stands at its slot. */
  method StreamBlocks(links: seq<OpenLink>, ghost ls: seq<Link>, w: ZstStreamWriter, isZero: seq<bool>, bs: nat, ss: nat, n: nat)
    returns (r: Result<nat>)
    requires Opened(links, ls) && Uniform(ls, ss) && n > 0 && bs == n * ss
    requires w.Valid() && w.layout.blockSize == bs && w.payloads == []
    requires w.expectedPayloadBlocks == Rank(isZero, |isZero|)
    requires ScannedRight(isZero, ls, n, ss) && ChainReadable(ls, |isZero|, n)
    modifies w
    ensures Opened(links, ls) && w.Valid() && r.Ok?
    ensures r.value == Rank(isZero, |isZero|) == |w.payloads|
    ensures EmittedRight(w.payloads, |isZero|, isZero, ls, n, ss)
  {
    hide ChainWindow, Readable, Sectors, GuestSectors, ZeroWindow, ChainReadable, EmittedRight, Fits, Prologue, BlockIs;
    var written := 0;
    NothingEmitted(isZero, ls, n, ss);
    for blk := 0 to |isZero|
      invariant Opened(links, ls) && w.Valid() && written == |w.payloads| == Rank(isZero, blk)
      invariant EmittedRight(w.payloads, blk, isZero, ls, n, ss)
    {
      ghost var buf: Buffer := [];
      if !isZero[blk] {
        ReadableBlock(ls, blk, |isZero|, n);
        var c := MergeBlock(links, ls, blk, bs, ss, n);
        StoredBlockIs(c.value, ChainWindow(ls, blk * n, n), ss);
        RankIncreases(isZero, blk, |isZero|);
        assert w.cursor == w.layout.payloadStart + Rank(isZero, blk) * bs;
        buf := c.value;
        EmittedOneMore(w.payloads, blk, buf, isZero, ls, n, ss);
        var step := w.WritePayloadBlock(c.value);
        written := written + 1;
      } else {
        EmittedOneMore(w.payloads, blk, buf, isZero, ls, n, ss);
      }
    }
    return Ok(written);
  }

  lemma NothingEmitted(isZero: seq<bool>, ls: seq<Link>, n: nat, ss: nat)
    requires forall i :: 0 <= i < |ls| ==> ls[i].Valid()
    ensures EmittedRight([], 0, isZero, ls, n, ss)
  {
  }

  lemma ReadableBlock(ls: seq<Link>, blk: nat, count: nat, n: nat)
    requires forall i :: 0 <= i < |ls| ==> ls[i].Valid()
    requires ChainReadable(ls, count, n) && blk < count
    ensures Readable(ChainWindow(ls, blk * n, n))
  {
  }

  /** The planned size stays in range: payload for at most every block. */
  lemma StreamFits(p: WriterParams, nonZero: nat)
    requires p.Usable() && nonZero <= p.BlockCount()
    requires PayloadStart(p) + p.BlockCount() * p.blockSize < U64
    ensures Fits(Compute(p, nonZero, p.TotalEntries()), p, nonZero)
    ensures Compute(p, nonZero, p.TotalEntries()).payloadStart + nonZero * p.blockSize < U64
  {
    hide WriterParams.TotalEntries, MetadataRegion.Encodable;
    LayoutOrder(p);
    LayoutAligned(p);
    MulMonotone(p.blockSize, nonZero, p.BlockCount());
    assert p.blockSize * nonZero == nonZero * p.blockSize && p.blockSize * p.BlockCount() == p.BlockCount() * p.blockSize;
    MultipleOfMultiple(p.blockSize, nonZero);
    Bytes.AlignedSum(p.MetadataOffset(), MIB);
    Bytes.AlignedSum(p.MetadataOffset() + MIB, nonZero * p.blockSize);
  }

  /** The size the layout plans for a number of blocks with data. */
  function PlannedSize(leaf: Metadata, nonZero: nat): nat
    requires leaf.HasGeometry()
  {
    var p := OutputParams(leaf, false, NIL, NIL);
    Compute(p, nonZero, p.TotalEntries()).totalSize
  }

  lemma PlannedSizeIs(leaf: Metadata, dataGuid: Guid, fileGuid: Guid, nonZero: nat)
    requires leaf.HasGeometry()
    ensures
      var p := OutputParams(leaf, false, dataGuid, fileGuid);
      Compute(p, nonZero, p.TotalEntries()).totalSize == PlannedSize(leaf, nonZero)
  {
    hide AlignUp, TotalEntries;
  }

  /**
   * Streams the flattened image behind what the sink already holds. It succeeds on the same chains as the
   * seekable flatten to a dynamic image, the image shows the same chain, and it is as long as the layout said.
   */
  method FlattenToZst(links: seq<OpenLink>, ghost ls: seq<Link>, fixed: bool, compressNtfs: bool,
                      dataGuid: Guid, fileGuid: Guid, sink: Buffer)
    returns (r: Result<FlattenReport>, out: Buffer, total: nat)
    requires |links| > 0 && Opened(links, ls) && (forall i :: 0 <= i < |ls| ==> ls[i].Valid())
    requires Flattenable(links[0].disk.metadata)
    ensures Opened(links, ls)
    ensures r.Ok? <==> !fixed && !compressNtfs && CanFlatten(ls)
    ensures r.Err? ==> out == sink
    ensures !Matches(ls) || fixed || compressNtfs ==> r == Err(if fixed || compressNtfs then Unsupported else InvalidStructure)
    ensures r.Ok? ==> StreamsImage(out, sink, total, OutputParams(links[0].disk.metadata, false, dataGuid, fileGuid), ls)
    ensures r.Ok? ==> r.value.blocksTotal == r.value.blocksWritten + r.value.blocksZero == links[0].disk.BlockCount()
    ensures r.Ok? ==>
              var d := links[0].disk;
              r.value.blocksZero == |ZeroBlocks(ls, d.BlockCount(), d.SectorsPerBlock(), d.SectorSize())|
    ensures r.Ok? ==> total == PlannedSize(links[0].disk.metadata, r.value.blocksWritten)
  {
    hide Flattenable, PayloadStart, WriterParams.Usable, StreamsImage, ChainReadable, ZeroBlocks;
    out, total := sink, 0;
    if compressNtfs || fixed {
      return Err(Unsupported), out, total;
    }
    var leaf := links[0].disk;
    var p := OutputParams(leaf.metadata, false, dataGuid, fileGuid);
    OutputUsable(leaf.metadata, false, dataGuid, fileGuid);
    var ok := CheckLinks(links, ls);
    if !ok {
      return Err(InvalidStructure), out, total;
    }
    MatchingIsUniform(ls);
    SectorInBlock(ls[0], 0);
    r, out, total := StreamMatching(links, ls, p, leaf.BlockSize(), leaf.SectorSize(), leaf.SectorsPerBlock(), sink);
    if r.Ok? {
      PlannedSizeIs(leaf.metadata, dataGuid, fileGuid, r.value.blocksWritten);
    }
  }

  method StreamMatching(links: seq<OpenLink>, ghost ls: seq<Link>, p: WriterParams, bs: nat, ss: nat, n: nat, sink: Buffer)
    returns (r: Result<FlattenReport>, out: Buffer, total: nat)
    requires Opened(links, ls) && Uniform(ls, ss) && n > 0 && bs == n * ss
    requires p.Usable() && p.blockSize == bs && p.logicalSectorSize == ss && bs % ss == 0 && n == bs / ss
    requires PayloadStart(p) + p.BlockCount() * bs < U64
    ensures Opened(links, ls)
    ensures r.Ok? <==> ChainReadable(ls, p.BlockCount(), n)
    ensures r.Err? ==> out == sink
    ensures r.Ok? ==> StreamsImage(out, sink, total, p, ls)
    ensures r.Ok? ==> r.value.blocksTotal == r.value.blocksWritten + r.value.blocksZero == p.BlockCount()
    ensures r.Ok? ==> r.value.blocksZero == |ZeroBlocks(ls, p.BlockCount(), n, ss)|
    ensures r.Ok? ==> total == Compute(p, r.value.blocksWritten, p.TotalEntries()).totalSize
  {
    hide PayloadStart, WriterParams.Usable, WriterParams.TotalEntries, ChainReadable, ScannedRight, StreamsImage, EmittedRight,
      Fits, Prologue, PlannedEntry, IsFlat, Compute, ZeroBlocks;
    LayoutOrder(p);
    out, total := sink, 0;
    var scan := AnalyzeZeroBlocks(links, ls, p.BlockCount(), bs, ss, n);
    if scan.Err? {
      return Err(scan.error), out, total;
    }
    var isZero := scan.value;
    ghost var nonZero := Rank(isZero, |isZero|);
    RankAtMost(isZero, |isZero|);
    StreamFits(p, nonZero);
    var planned := CountNonZero(isZero);
    var layout := Compute(p, planned, p.TotalEntries());
    LayoutFits(layout, p, planned);
    assert layout.payloadStart + nonZero * bs < U64;
    var bat, built := BuildBat(p.BlockCount(), p.ChunkRatio(), p.parentLocator.Some?, layout.payloadStart, bs, isZero);
    TotalIs(p);
    var table := bat.Value();
    var w := new ZstStreamWriter.Begin(sink, p, table, layout);
    var blocks := StreamBlocks(links, ls, w, isZero, bs, ss, n);
    ghost var payloads := w.payloads;
    var done := w.Finish();
    out, total := done.value, layout.totalSize;
    StreamReads(p, layout, table, isZero, payloads);
    StreamShows(isZero, payloads, ls, n, ss);
    RankCounts(isZero, |isZero|, ls, n, ss);
    ImageBehind(sink, FinishedImage(p, layout, table, payloads), p, StreamRecords(isZero, payloads), ls, n, ss);
    r := Ok(FlattenReport(|isZero|, blocks.value, |isZero| - blocks.value));
  }

  lemma TotalIs(p: WriterParams)
    requires p.Meta().HasGeometry()
    ensures p.TotalEntries() == TotalEntries(p.BlockCount(), p.ChunkRatio(), p.parentLocator.Some?)
  {
  }

  method CountNonZero(isZero: seq<bool>) returns (k: nat)
    ensures k == Rank(isZero, |isZero|)
  {
    k := 0;
    for i := 0 to |isZero|
      invariant k == Rank(isZero, i)
    {
      if !isZero[i] {
        k := k + 1;
      }
    }
  }

  lemma ImageBehind(sink: Buffer, image: Buffer, p: WriterParams, recorded: seq<Recorded>, ls: seq<Link>, n: nat, ss: nat)
    requires forall i :: 0 <= i < |ls| ==> ls[i].Valid()
    requires Reads(image, p, recorded) && p.logicalSectorSize == ss > 0 && p.blockSize % ss == 0 && n == p.blockSize / ss
    requires BlocksAre(recorded, |recorded|, ls, n, ss)
    ensures StreamsImage(sink + image, sink, |image|, p, ls)
  {
    hide Reads, BlocksAre, IsFlat;
    FlattenedShows(image, p, recorded, ls, n, ss);
    assert (sink + image)[|sink|..] == image;
  }

  // ---- Two writers, one meaning ----

  /** The image of the seekable writer and the streamed one read alike, sector by sector, to the end of the disk. */
  lemma TwoWritersAgree(a: Buffer, p: WriterParams, b: Buffer, q: WriterParams, ls: seq<Link>, s: nat)
    requires forall i :: 0 <= i < |ls| ==> ls[i].Valid()
    requires IsFlat(a, p, ls) && IsFlat(b, q, ls)
    requires p.virtualDiskSize == q.virtualDiskSize && p.blockSize == q.blockSize && p.logicalSectorSize == q.logicalSectorSize
    ensures LinkSector(Link(OpenDisk(a, true).value, a), s) == LinkSector(Link(OpenDisk(b, true).value, b), s)
  {
    hide OpenDisk, ReadBlock, ChainSector, SectorOfBlock;
    var d, e := OpenDisk(a, true).value, OpenDisk(b, true).value;
    assert d.BlockCount() == e.BlockCount() && d.SectorsPerBlock() == e.SectorsPerBlock();
    if s / d.SectorsPerBlock() >= d.BlockCount() {
      assert LinkSector(Link(d, a), s) == Missing == LinkSector(Link(e, b), s);
    }
  }
}
