/** The forward-only writer: a precomputed layout, and the table after the payload (zst_writer.rs). */
module ZstWriter {
  import opened Wrappers
  import opened Bytes
  import opened FileIo
  import opened Format
  import opened Headers
  import opened Regions
  import opened BlockTable
  import opened MetadataRegion
  import opened Disks
  import opened Images
  import opened ImageBlocks
  import opened Writer

  datatype Layout = Layout(
    blockSize: nat,
    logOffset: nat,
    logSize: nat,
    metadataOffset: nat,
    metadataLength: nat,
    payloadStart: nat,
    batOffset: nat,
    batLength: nat,
    nonZeroBlocks: nat,
    totalSize: nat)

  function Compute(p: WriterParams, nonZeroBlocks: nat, batEntries: nat): Layout {
    var logSize := AlignUp(p.logSize, MIB);
    var metadataOffset := MIB + logSize;
    var payloadStart := metadataOffset + MIB;
    var batOffset := AlignUp(payloadStart + nonZeroBlocks * p.blockSize, MIB);
    var batLength := AlignUp(Max(8 * batEntries, MIB), MIB);
    Layout(p.blockSize, MIB, logSize, metadataOffset, MIB, payloadStart, batOffset, batLength, nonZeroBlocks,
           batOffset + batLength)
  }

  /** The layout this writer needs of its caller. */
  ghost predicate Fits(l: Layout, p: WriterParams, nonZeroBlocks: nat) {
    && p.Usable() && l == Compute(p, nonZeroBlocks, p.TotalEntries()) && l.totalSize < U64
  }

  /** Regions and payload follow one another without overlap, each MiB-aligned; blocks fill the gap before the table exactly. */
  lemma LayoutFits(l: Layout, p: WriterParams, nonZeroBlocks: nat)
    requires Fits(l, p, nonZeroBlocks)
    ensures l.logSize == AlignUp(p.logSize, MIB) && l.logOffset == MIB && l.metadataLength == MIB
    ensures l.metadataOffset == p.MetadataOffset() == MIB + l.logSize && l.payloadStart == l.metadataOffset + MIB
    ensures l.batOffset == l.payloadStart + nonZeroBlocks * p.blockSize
    ensures l.batLength == p.BatLength() < U32 && 8 * p.TotalEntries() <= l.batLength
    ensures l.totalSize == l.batOffset + l.batLength < U64
    ensures l.blockSize == p.blockSize > 0 && l.nonZeroBlocks == nonZeroBlocks
    ensures PlacedApart(l.metadataOffset, l.batOffset, l.batLength) && l.payloadStart % MIB == 0
  {
    hide MetadataRegion.Encodable, WriterParams.TotalEntries;
    LayoutAligned(p);
    var payload := nonZeroBlocks * p.blockSize;
    MultipleOfMultiple(p.blockSize, nonZeroBlocks);
    Bytes.AlignedSum(p.MetadataOffset(), MIB);
    Bytes.AlignedSum(l.payloadStart, payload);
  }

  // ---- The image, piece by piece ----

  /** Everything before the payload. */
  function Prologue(p: WriterParams, l: Layout): (b: Buffer)
    requires Fits(l, p, l.nonZeroBlocks)
    ensures |b| == l.payloadStart
  {
    LayoutFits(l, p, l.nonZeroBlocks);
    var regions := EncodeRegions(RegionList(l.metadataOffset, l.batOffset, l.batLength));
    FileTypeBlock() + EncodeHeader(p.HeaderWith(1)) + EncodeHeader(p.HeaderWith(2)) + regions + regions
    + Zeros(MIB - 320 * KIB) + Zeros(l.logSize) + EncodeMetadata(p.Meta(), MIB)
  }

  lemma EightParts(a: Buffer, b: Buffer, c: Buffer, d: Buffer, e: Buffer, f: Buffer, g: Buffer, h: Buffer, rest: Buffer)
    ensures
      var all := a + b + c + d + e + f + g + h + rest;
      && Slice(all, 0, |a|) == a
      && Slice(all, |a|, |b|) == b
      && Slice(all, |a| + |b|, |c|) == c
      && Slice(all, |a| + |b| + |c|, |d|) == d
      && Slice(all, |a| + |b| + |c| + |d|, |e|) == e
      && Slice(all, |a| + |b| + |c| + |d| + |e| + |f| + |g|, |h|) == h
  {
  }

  lemma EightEmitted(s: Buffer, a: Buffer, b: Buffer, c: Buffer, d: Buffer, e: Buffer, f: Buffer, g: Buffer, h: Buffer)
    ensures s + a + b + c + d + e + f + g + h == s + (a + b + c + d + e + f + g + h + [])
  {
  }

  lemma LastPart(a: Buffer, b: Buffer, c: Buffer)
    ensures a + b + c == a + (b + c)
    ensures Slice(a + b + c, |a| + |b|, |c|) == c
  {
  }

  lemma SliceOfSlice(data: Buffer, n: nat, k: nat)
    requires k <= n <= |data|
    ensures Slice(Slice(data, 0, n), 0, k) == Slice(data, 0, k)
  {
  }

  /** Whatever follows the prologue, the image has its frame. */
  lemma PrologueFrames(p: WriterParams, l: Layout, rest: Buffer)
    requires Fits(l, p, l.nonZeroBlocks)
    ensures l.batOffset < U64 && l.batLength < U32
    ensures Framed(Prologue(p, l) + rest, p, l.batOffset, l.batLength)
  {
    LayoutFits(l, p, l.nonZeroBlocks);
    hide EncodeHeader, EncodeRegions, EncodeMetadata, FileTypeBlock, Fits, WriterParams.MetadataOffset, WriterParams.BatLength,
      RegionList;
    var regions := EncodeRegions(RegionList(l.metadataOffset, l.batOffset, l.batLength));
    var h1, h2 := EncodeHeader(p.HeaderWith(1)), EncodeHeader(p.HeaderWith(2));
    var meta := EncodeMetadata(p.Meta(), MIB);
    EightParts(FileTypeBlock(), h1, h2, regions, regions, Zeros(MIB - 320 * KIB), Zeros(l.logSize), meta, rest);
    SliceOfSlice(Prologue(p, l) + rest, 64 * KIB, 8);
  }

  /** Blocks of one size laid end to end. */
  function Payload(blocks: seq<Buffer>): Buffer {
    if blocks == [] then [] else Payload(blocks[..|blocks| - 1]) + blocks[|blocks| - 1]
  }

  lemma {:induction false} LaidLength(blocks: seq<Buffer>, bs: nat)
    requires forall k :: 0 <= k < |blocks| ==> |blocks[k]| == bs
    ensures |Payload(blocks)| == |blocks| * bs
  {
    if blocks != [] {
      LaidLength(blocks[..|blocks| - 1], bs);
      assert |blocks| * bs == (|blocks| - 1) * bs + bs;
    }
  }

  /** Block `k` stands at `k` block sizes from the start. */
  lemma {:induction false} LaidBlock(blocks: seq<Buffer>, bs: nat, k: nat)
    requires k < |blocks| && forall j :: 0 <= j < |blocks| ==> |blocks[j]| == bs
    ensures k * bs + bs <= |Payload(blocks)|
    ensures Slice(Payload(blocks), k * bs, bs) == blocks[k]
  {
    var n := |blocks| - 1;
    LaidLength(blocks[..n], bs);
    if k < n {
      LaidBlock(blocks[..n], bs, k);
      assert Slice(Payload(blocks), k * bs, bs) == Slice(Payload(blocks[..n]), k * bs, bs);
    }
  }

  // ---- The table ----

  /** Blocks with payload among the first `i`. */
  function Rank(isZero: seq<bool>, i: nat): nat
    requires i <= |isZero|
  {
    if i == 0 then 0 else Rank(isZero, i - 1) + if isZero[i - 1] then 0 else 1
  }

  lemma {:induction false} RankIncreases(isZero: seq<bool>, i: nat, j: nat)
    requires i < j <= |isZero|
    ensures Rank(isZero, i) + (if isZero[i] then 0 else 1) <= Rank(isZero, j)
    ensures Rank(isZero, j) <= j
  {
    if i + 1 < j {
      RankIncreases(isZero, i, j - 1);
    } else {
      RankAtMost(isZero, i);
    }
  }

  lemma {:induction false} RankAtMost(isZero: seq<bool>, i: nat)
    requires i <= |isZero|
    ensures Rank(isZero, i) <= i
  {
    if i > 0 {
      RankAtMost(isZero, i - 1);
    }
  }

  /** The entry the table gets for a block. */
  function PlannedEntry(isZero: seq<bool>, i: nat, start: nat, bs: nat): BatEntry
    requires i < |isZero|
  {
    if isZero[i] then NewEntry(ZERO, 0) else SlotEntry(start, bs, Rank(isZero, i))
  }

  /** Fills the table: zero blocks get no slot, the others one after the other. */
  method BuildBat(blockCount: nat, chunkRatio: nat, hasParent: bool, payloadStart: nat, bs: nat, isZero: seq<bool>)
    returns (bat: Bat, nonZero: nat)
    requires chunkRatio > 0 && |isZero| == blockCount
    requires payloadStart + Rank(isZero, blockCount) * bs < U64
    ensures fresh(bat) && bat.chunkRatio == chunkRatio && bat.blockCount == blockCount
    ensures |bat.entries| == TotalEntries(blockCount, chunkRatio, hasParent) && bat.Value().Complete()
    ensures nonZero == Rank(isZero, blockCount)
    ensures forall b :: 0 <= b < blockCount ==>
              EntryOf(bat.entries, chunkRatio, b) == PlannedEntry(isZero, b, payloadStart, bs)
  {
    hide TotalEntries, SlotEntry, NewEntry;
    bat := new Bat(EmptyEntries(TotalEntries(blockCount, chunkRatio, hasParent)), chunkRatio, blockCount);
    forall b: nat | b < blockCount
      ensures PayloadIndex(b, chunkRatio) < |bat.entries|
    {
      EveryBlockHasEntry(b, blockCount, chunkRatio, hasParent);
    }
    nonZero := 0;
    for i := 0 to blockCount
      invariant |bat.entries| == TotalEntries(blockCount, chunkRatio, hasParent) && bat.Value().Complete()
      invariant nonZero == Rank(isZero, i)
      invariant forall b :: 0 <= b < i ==> EntryOf(bat.entries, chunkRatio, b) == PlannedEntry(isZero, b, payloadStart, bs)
    {
      if isZero[i] {
        EntriesBesides(bat.Value(), i, NewEntry(ZERO, 0));
        bat.SetPayloadEntry(i, NewEntry(ZERO, 0));
      } else {
        SlotInRange(isZero, i, payloadStart, bs);
        EntriesBesides(bat.Value(), i, NewEntry(FULLY_PRESENT, payloadStart + nonZero * bs));
        bat.SetPayloadEntry(i, NewEntry(FULLY_PRESENT, payloadStart + nonZero * bs));
        nonZero := nonZero + 1;
      }
    }
  }

  lemma SlotInRange(isZero: seq<bool>, i: nat, start: nat, bs: nat)
    requires i < |isZero| && !isZero[i] && start + Rank(isZero, |isZero|) * bs < U64
    ensures start + Rank(isZero, i) * bs < U64
    ensures PlannedEntry(isZero, i, start, bs) == NewEntry(FULLY_PRESENT, start + Rank(isZero, i) * bs)
  {
    hide Rank;
    RankIncreases(isZero, i, |isZero|);
    RankStep(start, bs, Rank(isZero, i), Rank(isZero, |isZero|));
  }

  /** What the finished stream holds for each block. */
  function StreamRecords(isZero: seq<bool>, payloads: seq<Buffer>): (r: seq<Recorded>)
    requires |payloads| == Rank(isZero, |isZero|)
    ensures |r| == |isZero|
    ensures forall b :: 0 <= b < |r| ==>
              if isZero[b] then r[b] == Zeroed else Rank(isZero, b) < |payloads| && r[b] == Stored(payloads[Rank(isZero, b)])
  {
    RankBelow(isZero);
    seq(|isZero|, b requires 0 <= b < |isZero| && (!isZero[b] ==> Rank(isZero, b) < |payloads|) =>
      if isZero[b] then Zeroed else Stored(payloads[Rank(isZero, b)]))
  }

  lemma RankBelow(isZero: seq<bool>)
    ensures forall b :: 0 <= b < |isZero| && !isZero[b] ==> Rank(isZero, b) < Rank(isZero, |isZero|)
  {
    forall b | 0 <= b < |isZero| && !isZero[b]
      ensures Rank(isZero, b) < Rank(isZero, |isZero|)
    {
      RankIncreases(isZero, b, |isZero|);
    }
  }

  // ---- The writer ----

  /** The encoded region table and metadata region. */
  method EncodeParts(p: WriterParams, layout: Layout) returns (regions: Buffer, metadata: Buffer)
    requires Fits(layout, p, layout.nonZeroBlocks)
    ensures p.logSize < U32 && layout.metadataOffset < U64 && layout.batOffset < U64 && layout.batLength < U32
    ensures MetadataRegion.Encodable(p.Meta(), MIB) && layout.metadataLength == MIB
    ensures regions == EncodeRegions(RegionList(layout.metadataOffset, layout.batOffset, layout.batLength))
    ensures metadata == EncodeMetadata(p.Meta(), MIB)
  {
    hide EncodeRegions, EncodeMetadata, Compute;
    LayoutFits(layout, p, layout.nonZeroBlocks);
    regions := EncodeRegionTable(RegionList(layout.metadataOffset, layout.batOffset, layout.batLength));
    metadata := EncodeRegion(p.Meta(), layout.metadataLength);
  }

  class ZstStreamWriter {
    var out: Buffer
    var cursor: nat
    const layout: Layout
    const table: Table
    const expectedPayloadBlocks: nat
    var writtenPayloadBlocks: nat
    ghost const p: WriterParams
    ghost const before: Buffer            // what the sink held already
    ghost var payloads: seq<Buffer>

    /** The sink holds what it held, the prologue and the payload so far; the cursor counts the image's bytes. */
    ghost predicate Valid()
      reads this
    {
      && Fits(layout, p, layout.nonZeroBlocks)
      && expectedPayloadBlocks == layout.nonZeroBlocks
      && writtenPayloadBlocks == |payloads| <= expectedPayloadBlocks
      && (forall k :: 0 <= k < |payloads| ==> |payloads[k]| == layout.blockSize)
      && out == before + (Prologue(p, layout) + Payload(payloads))
      && cursor == layout.payloadStart + |payloads| * layout.blockSize
      && |table.entries| == p.TotalEntries()
    }

    /** Emits identifier, headers, region tables, padding, empty log and metadata, in that order. */
    constructor Begin(sink: Buffer, p: WriterParams, table: Table, layout: Layout)
      requires Fits(layout, p, layout.nonZeroBlocks) && |table.entries| == p.TotalEntries()
      ensures Valid() && this.p == p && this.layout == layout && this.table == table && before == sink
      ensures payloads == [] && cursor == layout.payloadStart
    {
      this.out := sink;
      this.cursor := 0;
      this.layout := layout;
      this.table := table;
      this.expectedPayloadBlocks := layout.nonZeroBlocks;
      this.writtenPayloadBlocks := 0;
      this.p := p;
      this.before := sink;
      this.payloads := [];
      new;
      LayoutFits(layout, p, layout.nonZeroBlocks);
      hide EncodeHeader, EncodeRegions, EncodeMetadata, FileTypeBlock, Fits, RegionList, WriterParams.MetadataOffset,
        WriterParams.BatLength, PlacedApart, Compute, AlignUp, WriterParams.TotalEntries, WriterParams.Usable;
      var regions, metadata := EncodeParts(p, layout);
      var h1, h2 := EncodeHeader(p.HeaderWith(1)), EncodeHeader(p.HeaderWith(2));
      EmitPrologue(h1, h2, regions, metadata);
    }

    method EmitPrologue(h1: Buffer, h2: Buffer, regions: Buffer, metadata: Buffer)
      requires cursor == 0 && layout.logOffset == MIB
      requires |h1| == |h2| == |regions| == 64 * KIB
      modifies `out, `cursor
      ensures out == old(out) + (FileTypeBlock() + h1 + h2 + regions + regions + Zeros(MIB - 320 * KIB) + Zeros(layout.logSize)
                                 + metadata)
      ensures cursor == MIB + layout.logSize + |metadata|
    {
      hide FileTypeBlock;
      EmitBlock(FileTypeBlock());
      EmitBlock(h1);
      EmitBlock(h2);
      EmitBlock(regions);
      EmitBlock(regions);
      PadTo(layout.logOffset);
      EmitZeros(layout.logSize);
      EmitBlock(metadata);
      EightEmitted(old(out), FileTypeBlock(), h1, h2, regions, regions, Zeros(MIB - 320 * KIB), Zeros(layout.logSize), metadata);
    }

    method EmitBlock(buf: Buffer)
      modifies `out, `cursor
      ensures out == old(out) + buf && cursor == old(cursor) + |buf|
    {
      out := out + buf;
      cursor := cursor + |buf|;
    }

    /** Emits zeros in chunks of 64 KiB. */
    method EmitZeros(len: nat)
      modifies `out, `cursor
      ensures out == old(out) + Zeros(len) && cursor == old(cursor) + len
    {
      var remaining := len;
      while remaining > 0
        invariant 0 <= remaining <= len
        invariant out == old(out) + Zeros(len - remaining) && cursor == old(cursor)
      {
        var n := Min(remaining, 64 * KIB);
        assert Zeros(len - remaining) + Zeros(n) == Zeros(len - remaining + n);
        out := out + Zeros(n);
        remaining := remaining - n;
      }
      cursor := cursor + len;
    }

    method PadTo(target: nat)
      requires cursor <= target
      modifies `out, `cursor
      ensures out == old(out) + Zeros(target - old(cursor)) && cursor == target
    {
      EmitZeros(target - cursor);
    }

    /** Appends one block; the `k`-th one starts where the table's `k`-th slot does. */
    method WritePayloadBlock(buf: Buffer) returns (r: Result<()>)
      requires Valid() && |buf| == layout.blockSize
      modifies `out, `cursor, `writtenPayloadBlocks, `payloads
      ensures Valid()
      ensures r.Ok? <==> |old(payloads)| < expectedPayloadBlocks
      ensures payloads == if r.Ok? then old(payloads) + [buf] else old(payloads)
      ensures old(cursor) == layout.payloadStart + |old(payloads)| * layout.blockSize
      ensures r.Err? ==> out == old(out)
    {
      hide Fits, Prologue;
      if writtenPayloadBlocks >= expectedPayloadBlocks {
        return Err(InvalidStructure);
      }
      EmitBlock(buf);
      writtenPayloadBlocks := writtenPayloadBlocks + 1;
      assert (payloads + [buf])[..|payloads|] == payloads;
      assert (|payloads| + 1) * layout.blockSize == |payloads| * layout.blockSize + layout.blockSize;
      payloads := payloads + [buf];
      return Ok(());
    }

    /** Pads to the table and emits it; the image is then exactly as long as the layout said. */
    method Finish() returns (r: Result<Buffer>)
      requires Valid()
      modifies `out, `cursor
      ensures r.Ok? <==> |payloads| == expectedPayloadBlocks
      ensures r.Ok? ==> r.value == before + FinishedImage(p, layout, table, payloads)
      ensures r.Ok? ==> cursor == layout.totalSize
    {
      hide Fits, Prologue, WriterParams.MetadataOffset, WriterParams.BatLength, PlacedApart;
      if writtenPayloadBlocks != expectedPayloadBlocks {
        return Err(InvalidStructure);
      }
      LayoutFits(layout, p, layout.nonZeroBlocks);
      PadTo(layout.batOffset);
      var raw := EncodeEntries(table.entries);
      EmitBlock(raw + Zeros(layout.batLength - |raw|));
      return Ok(out);
    }
  }

  function FinishedImage(p: WriterParams, l: Layout, t: Table, payloads: seq<Buffer>): Buffer
    requires Fits(l, p, l.nonZeroBlocks) && |t.entries| == p.TotalEntries()
  {
    LayoutFits(l, p, l.nonZeroBlocks);
    Prologue(p, l) + Payload(payloads) + TableBytes(t.entries, l.batLength)
  }

  // ---- Reading the stream back ----

  /** The payload of rank `k` stands `k` blocks behind the first. */
  lemma PayloadStands(p: WriterParams, l: Layout, t: Table, payloads: seq<Buffer>, k: nat, at: nat)
    requires Fits(l, p, l.nonZeroBlocks) && |t.entries| == p.TotalEntries() && k < |payloads| && at == k * p.blockSize
    requires forall j :: 0 <= j < |payloads| ==> |payloads[j]| == p.blockSize
    ensures l.payloadStart + at + p.blockSize <= |FinishedImage(p, l, t, payloads)|
    ensures Slice(FinishedImage(p, l, t, payloads), l.payloadStart + at, p.blockSize) == payloads[k]
  {
    LayoutFits(l, p, l.nonZeroBlocks);
    hide Fits, Prologue, TableBytes, WriterParams.MetadataOffset, WriterParams.BatLength, PlacedApart, Compute,
      WriterParams.TotalEntries, Payload;
    LaidBlock(payloads, p.blockSize, k);
    InMiddle(Prologue(p, l), Payload(payloads), TableBytes(t.entries, l.batLength), at, p.blockSize);
  }

  lemma HoldsAt(data: Buffer, e: BatEntry, buf: Buffer, bs: nat, start: nat, off: nat)
    requires e.State() == FULLY_PRESENT && e.FileOffset() == off && off % MIB == 0 && start <= off
    requires off + bs <= |data| && Slice(data, off, bs) == buf
    ensures Holds(data, e, Stored(buf), bs, start)
  {
    hide BatEntry.State, BatEntry.FileOffset;
  }

  /** An entry that points there holds it. */
  lemma PayloadHeld(p: WriterParams, l: Layout, t: Table, payloads: seq<Buffer>, k: nat, at: nat, e: BatEntry)
    requires Fits(l, p, l.nonZeroBlocks) && |t.entries| == p.TotalEntries() && k < |payloads| && at == k * p.blockSize
    requires forall j :: 0 <= j < |payloads| ==> |payloads[j]| == p.blockSize
    requires e.State() == FULLY_PRESENT && e.FileOffset() == l.payloadStart + at && e.FileOffset() % MIB == 0
    ensures Holds(FinishedImage(p, l, t, payloads), e, Stored(payloads[k]), p.blockSize, l.payloadStart)
  {
    PayloadStands(p, l, t, payloads, k, at);
    hide *;
    HoldsAt(FinishedImage(p, l, t, payloads), e, payloads[k], p.blockSize, l.payloadStart, l.payloadStart + at);
  }

  /** The entry planned for rank `k` points `at` bytes behind the first slot. */
  lemma PlannedAt(start: nat, bs: nat, k: nat, count: nat, at: nat)
    requires k < count && at == k * bs && start + count * bs < U64 && start % MIB == 0 && bs % MIB == 0
    ensures
      var e := SlotEntry(start, bs, k);
      e.State() == FULLY_PRESENT && e.FileOffset() == start + at && e.FileOffset() % MIB == 0
  {
    SlotFits(start, bs, k, count);
    hide *;
  }

  /** The payload of rank `k` stands in the slot planned for it. */
  lemma PayloadInSlot(p: WriterParams, l: Layout, t: Table, payloads: seq<Buffer>, k: nat)
    requires Fits(l, p, l.nonZeroBlocks) && |t.entries| == p.TotalEntries()
    requires |payloads| == l.nonZeroBlocks && k < |payloads|
    requires forall j :: 0 <= j < |payloads| ==> |payloads[j]| == p.blockSize
    ensures Holds(FinishedImage(p, l, t, payloads), SlotEntry(l.payloadStart, p.blockSize, k), Stored(payloads[k]), p.blockSize,
                  l.payloadStart)
  {
    hide *;
    SlotsHaveRoom(p, l);
    PlannedAt(l.payloadStart, p.blockSize, k, l.nonZeroBlocks, k * p.blockSize);
    PayloadHeld(p, l, t, payloads, k, k * p.blockSize, SlotEntry(l.payloadStart, p.blockSize, k));
  }

  /** Slots of different ranks do not overlap. */
  lemma RankedSlotsApart(isZero: seq<bool>, b: nat, c: nat, start: nat, bs: nat)
    requires b < c < |isZero| && !isZero[b] && !isZero[c]
    requires start + Rank(isZero, |isZero|) * bs < U64 && start % MIB == 0 && bs % MIB == 0
    ensures SlotsApart(PlannedEntry(isZero, b, start, bs), PlannedEntry(isZero, c, start, bs), bs)
  {
    hide SlotEntry, BatEntry.State, BatEntry.FileOffset, Rank;
    RankIncreases(isZero, b, c);
    RankIncreases(isZero, c, |isZero|);
    RankIncreases(isZero, b, |isZero|);
    SlotFits(start, bs, Rank(isZero, b), Rank(isZero, |isZero|));
    SlotFits(start, bs, Rank(isZero, c), Rank(isZero, |isZero|));
    RankStep(start, bs, Rank(isZero, b), Rank(isZero, c));
  }

  lemma RankStep(start: nat, bs: nat, j: nat, k: nat)
    requires j < k
    ensures start + j * bs + bs <= start + k * bs
  {
    MulMonotone(bs, j + 1, k);
    assert bs * (j + 1) == j * bs + bs && bs * k == k * bs;
  }

  lemma StreamBlocksHold(data: Buffer, t: Table, isZero: seq<bool>, payloads: seq<Buffer>, bs: nat, start: nat)
    requires t.Complete() && t.blockCount == |isZero| && |payloads| == Rank(isZero, |isZero|)
    requires forall b :: 0 <= b < |isZero| ==> EntryOf(t.entries, t.chunkRatio, b) == PlannedEntry(isZero, b, start, bs)
    requires forall b :: 0 <= b < |isZero| ==>
               Holds(data, PlannedEntry(isZero, b, start, bs), StreamRecords(isZero, payloads)[b], bs, start)
    requires start + Rank(isZero, |isZero|) * bs < U64 && start % MIB == 0 && bs % MIB == 0
    ensures BlocksHold(data, t, StreamRecords(isZero, payloads), bs, start)
  {
    hide BlocksHold, StreamRecords, PlannedEntry, EntryOf, Holds, SlotsApart, Rank;
    StreamedSlotsApart(t, isZero, StreamRecords(isZero, payloads), start, bs);
    PlannedBlocksHold(data, t, isZero, StreamRecords(isZero, payloads), bs, start);
  }

  lemma AllBlocksStreamed(p: WriterParams, l: Layout, t: Table, isZero: seq<bool>, payloads: seq<Buffer>)
    requires Fits(l, p, l.nonZeroBlocks) && |t.entries| == p.TotalEntries()
    requires |payloads| == Rank(isZero, |isZero|) == l.nonZeroBlocks
    requires forall k :: 0 <= k < |payloads| ==> |payloads[k]| == p.blockSize
    ensures forall b :: 0 <= b < |isZero| ==>
              Holds(FinishedImage(p, l, t, payloads), PlannedEntry(isZero, b, l.payloadStart, p.blockSize),
                    StreamRecords(isZero, payloads)[b], p.blockSize, l.payloadStart)
  {
    hide Fits, FinishedImage, StreamRecords, PlannedEntry, Holds, Rank, WriterParams.TotalEntries;
    forall b | 0 <= b < |isZero|
      ensures Holds(FinishedImage(p, l, t, payloads), PlannedEntry(isZero, b, l.payloadStart, p.blockSize),
                    StreamRecords(isZero, payloads)[b], p.blockSize, l.payloadStart)
    {
      StreamedBlockHolds(p, l, t, isZero, payloads, b);
    }
  }

  lemma PlannedBlocksHold(data: Buffer, t: Table, isZero: seq<bool>, recorded: seq<Recorded>, bs: nat, start: nat)
    requires t.Complete() && t.blockCount == |isZero| == |recorded|
    requires forall b :: 0 <= b < |isZero| ==> EntryOf(t.entries, t.chunkRatio, b) == PlannedEntry(isZero, b, start, bs)
    requires forall b :: 0 <= b < |isZero| ==> Holds(data, PlannedEntry(isZero, b, start, bs), recorded[b], bs, start)
    requires forall b, c :: 0 <= b < c < |recorded| && recorded[b].Stored? && recorded[c].Stored? ==>
               SlotsApart(EntryOf(t.entries, t.chunkRatio, b), EntryOf(t.entries, t.chunkRatio, c), bs)
    ensures BlocksHold(data, t, recorded, bs, start)
  {
    hide Holds, PlannedEntry, EntryOf, SlotsApart;
  }

  lemma StreamedSlotsApart(t: Table, isZero: seq<bool>, recorded: seq<Recorded>, start: nat, bs: nat)
    requires t.Complete() && t.blockCount == |isZero| == |recorded|
    requires forall b :: 0 <= b < |isZero| ==> EntryOf(t.entries, t.chunkRatio, b) == PlannedEntry(isZero, b, start, bs)
    requires forall b :: 0 <= b < |isZero| ==> (recorded[b].Stored? <==> !isZero[b])
    requires start + Rank(isZero, |isZero|) * bs < U64 && start % MIB == 0 && bs % MIB == 0
    ensures forall b, c :: 0 <= b < c < |recorded| && recorded[b].Stored? && recorded[c].Stored? ==>
              SlotsApart(EntryOf(t.entries, t.chunkRatio, b), EntryOf(t.entries, t.chunkRatio, c), bs)
  {
    hide SlotsApart, EntryOf, PlannedEntry, Rank;
    forall b, c | 0 <= b < c < |recorded| && recorded[b].Stored? && recorded[c].Stored?
      ensures SlotsApart(EntryOf(t.entries, t.chunkRatio, b), EntryOf(t.entries, t.chunkRatio, c), bs)
    {
      RankedSlotsApart(isZero, b, c, start, bs);
    }
  }

  lemma SlotsHaveRoom(p: WriterParams, l: Layout)
    requires Fits(l, p, l.nonZeroBlocks)
    ensures l.payloadStart + l.nonZeroBlocks * p.blockSize < U64 && l.payloadStart % MIB == 0 && p.blockSize % MIB == 0
  {
    LayoutFits(l, p, l.nonZeroBlocks);
    LayoutOrder(p);
    hide Fits, WriterParams.Usable, Compute;
  }

  lemma StreamedBlockHolds(p: WriterParams, l: Layout, t: Table, isZero: seq<bool>, payloads: seq<Buffer>, b: nat)
    requires Fits(l, p, l.nonZeroBlocks) && |t.entries| == p.TotalEntries() && b < |isZero|
    requires |payloads| == Rank(isZero, |isZero|) == l.nonZeroBlocks
    requires forall k :: 0 <= k < |payloads| ==> |payloads[k]| == p.blockSize
    ensures Holds(FinishedImage(p, l, t, payloads), PlannedEntry(isZero, b, l.payloadStart, p.blockSize),
                  StreamRecords(isZero, payloads)[b], p.blockSize, l.payloadStart)
  {
    hide Fits, FinishedImage, Holds, Compute, WriterParams.Usable, Rank, SlotEntry, WriterParams.TotalEntries;
    if isZero[b] {
      ZeroHolds(FinishedImage(p, l, t, payloads), p.blockSize, l.payloadStart);
    } else {
      RankIncreases(isZero, b, |isZero|);
      PayloadInSlot(p, l, t, payloads, Rank(isZero, b));
    }
  }

  lemma ZeroHolds(data: Buffer, bs: nat, start: nat)
    ensures Holds(data, NewEntry(ZERO, 0), Zeroed, bs, start)
  {
  }

  /** The finished stream is as long as planned, framed, and its table stands where the region table says. */
  lemma FinishedFrame(p: WriterParams, l: Layout, t: Table, payloads: seq<Buffer>)
    requires Fits(l, p, l.nonZeroBlocks) && |t.entries| == p.TotalEntries() && |payloads| == l.nonZeroBlocks
    requires forall k :: 0 <= k < |payloads| ==> |payloads[k]| == p.blockSize
    ensures l.batOffset < U64 && l.batLength < U32
    ensures |FinishedImage(p, l, t, payloads)| == l.totalSize
    ensures Framed(FinishedImage(p, l, t, payloads), p, l.batOffset, l.batLength)
    ensures TableStored(FinishedImage(p, l, t, payloads), l.batOffset, l.batLength, t.entries)
  {
    LayoutFits(l, p, l.nonZeroBlocks);
    LayoutOrder(p);
    PrologueFrames(p, l, Payload(payloads) + TableBytes(t.entries, l.batLength));
    hide Fits, Prologue, WriterParams.MetadataOffset, WriterParams.BatLength, PlacedApart, Framed, EncodeEntries, Compute,
      WriterParams.Usable, AlignUp, WriterParams.TotalEntries;
    LaidLength(payloads, p.blockSize);
    LastPart(Prologue(p, l), Payload(payloads), TableBytes(t.entries, l.batLength));
    assert |Prologue(p, l)| + |Payload(payloads)| == l.batOffset;
  }

  /** The finished stream is an image of exactly the planned size that reads as recorded. */
  lemma StreamReads(p: WriterParams, l: Layout, t: Table, isZero: seq<bool>, payloads: seq<Buffer>)
    requires Fits(l, p, l.nonZeroBlocks) && |t.entries| == p.TotalEntries() && t.Complete()
    requires t.chunkRatio == p.ChunkRatio() && t.blockCount == |isZero| == p.BlockCount()
    requires |payloads| == Rank(isZero, |isZero|) == l.nonZeroBlocks
    requires forall k :: 0 <= k < |payloads| ==> |payloads[k]| == p.blockSize
    requires forall b :: 0 <= b < |isZero| ==>
               EntryOf(t.entries, t.chunkRatio, b) == PlannedEntry(isZero, b, l.payloadStart, p.blockSize)
    ensures |FinishedImage(p, l, t, payloads)| == l.totalSize
    ensures Reads(FinishedImage(p, l, t, payloads), p, StreamRecords(isZero, payloads))
  {
    AllBlocksStreamed(p, l, t, isZero, payloads);
    SlotsHaveRoom(p, l);
    FinishedFrame(p, l, t, payloads);
    LayoutFits(l, p, l.nonZeroBlocks);
    LayoutOrder(p);
    hide Fits, WriterParams.MetadataOffset, WriterParams.BatLength, PlacedApart, BlocksHold, Framed, Reads, TableStored,
      FinishedImage, Holds, StreamRecords, Compute, WriterParams.Usable, Rank, EntryOf, PlannedEntry, AlignUp, WriterParams.TotalEntries;
    StreamBlocksHold(FinishedImage(p, l, t, payloads), t, isZero, payloads, p.blockSize, l.payloadStart);
    FramedImageReads(FinishedImage(p, l, t, payloads), p, l.batOffset, l.batLength, t, StreamRecords(isZero, payloads), l.payloadStart);
  }
}
