/** The seekable writer: table before payload, slots handed out from the end of the file (writer.rs). */
module Writer {
  import opened Wrappers
  import opened Bytes
  import opened FileIo
  import opened Format
  import opened Headers
  import opened Regions
  import opened BlockTable
  import opened MetadataRegion
  import opened Disks
  import opened ChainView
  import opened Images
  import opened ImageBlocks

  function BatOffset(p: WriterParams): nat {
    p.MetadataOffset() + MIB
  }

  function PayloadStart(p: WriterParams): nat
    requires p.Meta().HasGeometry()
  {
    BatOffset(p) + p.BatLength()
  }

  lemma LayoutAligned(p: WriterParams)
    requires p.Meta().HasGeometry()
    ensures PlacedApart(p.MetadataOffset(), BatOffset(p), p.BatLength())
    ensures PayloadStart(p) % MIB == 0
  {
    hide WriterParams.TotalEntries;
    AlignedSum(MIB, AlignUp(p.logSize, MIB));
    AlignedSum(p.MetadataOffset(), MIB);
    AlignedSum(BatOffset(p), p.BatLength());
  }

  /** Header section, log, metadata, table, payload: each begins where the one before may end. */
  lemma LayoutOrder(p: WriterParams)
    requires p.Usable()
    ensures p.Meta().HasGeometry() && p.blockSize > 0 && p.blockSize % MIB == 0 && p.logSize < U32
    ensures MIB + p.logSize <= p.MetadataOffset()
    ensures BatOffset(p) == p.MetadataOffset() + MIB
    ensures PayloadStart(p) == BatOffset(p) + p.BatLength() < U64
    ensures 8 * p.TotalEntries() <= p.BatLength() < U32 && MIB <= p.BatLength()
  {
    hide WriterParams.TotalEntries, MetadataRegion.Encodable;
  }

  // ---- A fresh image ----

  function TableBytes(entries: seq<BatEntry>, batLength: nat): (b: Buffer)
    requires 8 * |entries| <= batLength
    ensures |b| == batLength
  {
    EncodeEntries(entries) + Zeros(batLength - 8 * |entries|)
  }

  /** The writes that lay out the frame and an empty table, in the order they are made. */
  function FrameWrites(p: WriterParams, entries: seq<BatEntry>): (ws: seq<Write>)
    requires p.Usable() && |entries| == p.TotalEntries()
    ensures |ws| == 9
  {
    LayoutOrder(p);
    var es := RegionList(p.MetadataOffset(), BatOffset(p), p.BatLength());
    [ Write(0, FileTypeBlock()),
      Write(64 * KIB, Zeros(MIB - 64 * KIB)),
      Write(MIB, Zeros(p.logSize)),
      Write(p.MetadataOffset(), EncodeMetadata(p.Meta(), MIB)),
      Write(BatOffset(p), TableBytes(entries, p.BatLength())),
      Write(RegionTableOffset(0), EncodeRegions(es)),
      Write(RegionTableOffset(1), EncodeRegions(es)),
      Write(HeaderOffset(0), EncodeHeader(p.HeaderWith(1))),
      Write(HeaderOffset(1), EncodeHeader(p.HeaderWith(2))) ]
  }

  /** Each part of the frame reads back: no later write touches it. */
  lemma FramePartReads(p: WriterParams, entries: seq<BatEntry>, k: nat)
    requires p.Usable() && |entries| == p.TotalEntries() && 3 <= k < 9
    ensures
      var ws := FrameWrites(p, entries);
      && ws[k].End() <= |Apply([], ws)|
      && Slice(Apply([], ws), ws[k].off, |ws[k].bytes|) == ws[k].bytes
  {
    hide EncodeMetadata, EncodeRegions, EncodeHeader, TableBytes, WriterParams.Usable, Apply, RegionList,
      PayloadStart, BatOffset, WriterParams.MetadataOffset, WriterParams.BatLength;
    LayoutOrder(p);
    ApplyReads([], FrameWrites(p, entries), k);
  }

  /** The identifier survives the zero fill and everything written after it. */
  lemma SignatureReads(p: WriterParams, entries: seq<BatEntry>)
    requires p.Usable() && |entries| == p.TotalEntries()
    ensures 8 <= |Apply([], FrameWrites(p, entries))|
    ensures Slice(Apply([], FrameWrites(p, entries)), 0, 8) == FILE_TYPE_SIGNATURE
  {
    hide EncodeMetadata, EncodeRegions, EncodeHeader, TableBytes, WriterParams.Usable, Apply, FileTypeBlock, RegionList,
      PayloadStart, BatOffset, WriterParams.MetadataOffset, WriterParams.BatLength;
    LayoutOrder(p);
    var ws := FrameWrites(p, entries);
    ApplyReads([], ws, 0);
    var block := FileTypeBlock();
    assert Slice(Apply([], ws), 0, 8) == Slice(Slice(Apply([], ws), 0, 64 * KIB), 0, 8);
    assert Slice(block, 0, 8) == FILE_TYPE_SIGNATURE;
  }

  lemma FrameLength(p: WriterParams, entries: seq<BatEntry>)
    requires p.Usable() && |entries| == p.TotalEntries()
    ensures |Apply([], FrameWrites(p, entries))| == PayloadStart(p)
  {
    hide EncodeMetadata, EncodeRegions, EncodeHeader, TableBytes, WriterParams.Usable, Apply, RegionList,
      PayloadStart, BatOffset, WriterParams.MetadataOffset, WriterParams.BatLength;
    LayoutOrder(p);
    var ws := FrameWrites(p, entries);
    ApplyLength([], ws);
    ExtentCovers(0, ws, 4);
    ExtentBound(0, ws, PayloadStart(p));
  }

  lemma {:induction false} ExtentBound(n: nat, ws: seq<Write>, limit: nat)
    requires n <= limit && forall k :: 0 <= k < |ws| ==> ws[k].End() <= limit
    ensures Extent(n, ws) <= limit
  {
    if ws != [] {
      ExtentBound(n, ws[..|ws| - 1], limit);
    }
  }

  /** The frame is complete once the nine writes are made. */
  lemma FrameDone(p: WriterParams, entries: seq<BatEntry>)
    requires p.Usable() && |entries| == p.TotalEntries()
    ensures |Apply([], FrameWrites(p, entries))| == PayloadStart(p)
    ensures p.MetadataOffset() < U64 && BatOffset(p) < U64
    ensures Framed(Apply([], FrameWrites(p, entries)), p, BatOffset(p), p.BatLength())
  {
    var data := Apply([], FrameWrites(p, entries));
    FrameLength(p, entries);
    SignatureReads(p, entries);
    FramePartReads(p, entries, 3);
    FramePartReads(p, entries, 5);
    FramePartReads(p, entries, 6);
    FramePartReads(p, entries, 7);
    FramePartReads(p, entries, 8);
    hide EncodeMetadata, EncodeRegions, EncodeHeader, TableBytes, Apply;
  }

  /** The file holds the first `k` of the writes. */
  ghost predicate Reached(data: Buffer, ws: seq<Write>, k: nat) {
    k <= |ws| && data == Apply([], ws[..k])
  }

  lemma ReachedNext(data: Buffer, ws: seq<Write>, k: nat, off: nat, bytes: Buffer)
    requires k < |ws| && Reached(data, ws, k) && ws[k] == Write(off, bytes)
    ensures Reached(Written(data, off, bytes), ws, k + 1)
  {
    hide Apply;
    ApplyStep([], ws, k);
  }

  /** Lays out the frame and the table in an empty file. */
  method WriteFrame(file: File, p: WriterParams, bat: Bat)
    requires p.Usable() && |bat.entries| == p.TotalEntries() && file.data == []
    modifies file
    ensures file.data == Apply([], FrameWrites(p, bat.entries))
  {
    hide Apply, WriterParams.Usable, FrameWrites;
    ghost var ws := FrameWrites(p, bat.entries);
    NoWrites(ws);
    WriteBody(file, p, bat, ws);
    WriteTablesAndHeaders(file, p, bat.entries, ws);
    assert ws[..9] == ws;
  }

  /** Identifier, zeroed header section and log, metadata, table. */
  method WriteBody(file: File, p: WriterParams, bat: Bat, ghost ws: seq<Write>)
    requires p.Usable() && |bat.entries| == p.TotalEntries() && ws == FrameWrites(p, bat.entries)
    requires Reached(file.data, ws, 0)
    modifies file
    ensures Reached(file.data, ws, 5)
  {
    hide EncodeMetadata, EncodeRegions, EncodeHeader, TableBytes, FileTypeBlock, WriterParams.Usable,
      PayloadStart, BatOffset, WriterParams.MetadataOffset, WriterParams.BatLength, Reached, Written, RegionTableOffset, HeaderOffset;
    LayoutOrder(p);
    ReachedNext(file.data, ws, 0, 0, FileTypeBlock());
    file.WriteAllAt(0, FileTypeBlock());
    ReachedNext(file.data, ws, 1, 64 * KIB, Zeros(MIB - 64 * KIB));
    file.ZeroRange(64 * KIB, MIB - 64 * KIB);
    ReachedNext(file.data, ws, 2, MIB, Zeros(p.logSize));
    file.ZeroRange(MIB, p.logSize);
    var metadata := EncodeMeta(p);
    ReachedNext(file.data, ws, 3, p.MetadataOffset(), metadata);
    file.WriteAllAt(p.MetadataOffset(), metadata);
    var table := PaddedTable(bat, p.BatLength());
    ReachedNext(file.data, ws, 4, BatOffset(p), table);
    file.WriteAllAt(BatOffset(p), table);
  }

  /** Both region tables and both headers. */
  method WriteTablesAndHeaders(file: File, p: WriterParams, ghost entries: seq<BatEntry>, ghost ws: seq<Write>)
    requires p.Usable() && |entries| == p.TotalEntries() && ws == FrameWrites(p, entries)
    requires Reached(file.data, ws, 5)
    modifies file
    ensures Reached(file.data, ws, 9)
  {
    hide EncodeMetadata, EncodeRegions, EncodeHeader, TableBytes, FileTypeBlock, WriterParams.Usable,
      PayloadStart, BatOffset, WriterParams.MetadataOffset, WriterParams.BatLength, Reached, Written;
    LayoutOrder(p);
    var regions := EncodeRegionTable(RegionList(p.MetadataOffset(), BatOffset(p), p.BatLength()));
    ReachedNext(file.data, ws, 5, RegionTableOffset(0), regions);
    file.WriteAllAt(RegionTableOffset(0), regions);
    ReachedNext(file.data, ws, 6, RegionTableOffset(1), regions);
    file.WriteAllAt(RegionTableOffset(1), regions);
    ReachedNext(file.data, ws, 7, HeaderOffset(0), EncodeHeader(p.HeaderWith(1)));
    file.WriteAllAt(HeaderOffset(0), EncodeHeader(p.HeaderWith(1)));
    ReachedNext(file.data, ws, 8, HeaderOffset(1), EncodeHeader(p.HeaderWith(2)));
    file.WriteAllAt(HeaderOffset(1), EncodeHeader(p.HeaderWith(2)));
  }

  lemma NoWrites(ws: seq<Write>)
    ensures Reached([], ws, 0)
  {
  }

  method EncodeMeta(p: WriterParams) returns (b: Buffer)
    requires p.Usable()
    ensures b == EncodeMetadata(p.Meta(), MIB)
  {
    b := EncodeRegion(p.Meta(), MIB);
  }

  /** The encoded table, zero-filled to the length of its region. */
  method PaddedTable(bat: Bat, batLength: nat) returns (b: Buffer)
    requires 8 * |bat.entries| <= batLength
    ensures b == TableBytes(bat.entries, batLength)
  {
    b := bat.EncodeTable();
    b := b + Zeros(batLength - |b|);
  }

  /** A table without payload: every block absent. */
  function EmptyEntries(n: nat): (es: seq<BatEntry>)
    ensures |es| == n && forall i :: 0 <= i < n ==> es[i] == EMPTY
  {
    seq(n, _ => EMPTY)
  }

  lemma AllBlocksHaveEntries(p: WriterParams, t: Table)
    requires p.Usable() && t.chunkRatio == p.ChunkRatio() && t.blockCount == p.BlockCount() && |t.entries| == p.TotalEntries()
    ensures t.Complete()
  {
    forall b: nat | b < t.blockCount
      ensures PayloadIndex(b, t.chunkRatio) < |t.entries|
    {
      EveryBlockHasEntry(b, t.blockCount, t.chunkRatio, p.parentLocator.Some?);
    }
  }

  // ---- The writer ----

  lemma NextChunk(data: Buffer, off: nat, buf: Buffer, i: nat, end: nat)
    requires i <= end <= |buf|
    ensures Written(Written(data, off, buf[..i]), off + i, buf[i..end]) == Written(data, off, buf[..end])
  {
    WrittenJoins(data, off, buf[..i], buf[i..end]);
    assert buf[..i] + buf[i..end] == buf[..end];
  }

  class VhdxWriter {
    const p: WriterParams
    const file: File
    const bat: Bat
    var payloadCursor: nat
    var chunkedWriteSize: nat
    ghost var recorded: seq<Recorded>

    /** Lays out an empty image; in a fixed one every block gets its slot at once. */
    constructor (p: WriterParams)
      requires p.Usable()
      requires p.fixed ==> PayloadStart(p) + p.BlockCount() * p.blockSize < U64
      ensures Valid() && fresh(file) && fresh(bat) && this.p == p && chunkedWriteSize == 0
      ensures payloadCursor == PayloadStart(p)
      ensures |recorded| == p.BlockCount()
      ensures forall b :: 0 <= b < |recorded| ==> recorded[b] == if p.fixed then Stored(Zeros(p.blockSize)) else Unset
    {
      this.p := p;
      this.file := new File();
      this.bat := new Bat(EmptyEntries(p.TotalEntries()), p.ChunkRatio(), p.BlockCount());
      this.payloadCursor := PayloadStart(p);
      this.chunkedWriteSize := 0;
      this.recorded := [];
      new;
      hide Framed, WriterParams.Usable, BlocksHold, FrameWrites, PayloadStart, BatOffset, WriterParams.MetadataOffset, WriterParams.BatLength;
      LayoutOrder(p);
      LayoutAligned(p);
      AllBlocksHaveEntries(p, bat.Value());
      WriteFrame(file, p, bat);
      FrameDone(p, bat.entries);
      if p.fixed {
        Preallocate();
      } else {
        StartEmpty();
      }
    }

    /** Sets the length to where the payload will start. */
    method StartEmpty()
      requires p.Usable() && !p.fixed
      requires bat.chunkRatio == p.ChunkRatio() && bat.blockCount == p.BlockCount() && |bat.entries| == p.TotalEntries()
      requires forall i :: 0 <= i < |bat.entries| ==> bat.entries[i] == EMPTY
      requires |file.data| == PayloadStart(p) == payloadCursor && BatOffset(p) < U64
      requires Framed(file.data, p, BatOffset(p), p.BatLength())
      modifies `recorded, file
      ensures Valid()
      ensures |recorded| == p.BlockCount() && forall b :: 0 <= b < |recorded| ==> recorded[b] == Unset
    {
      hide Framed, WriterParams.Usable, BlocksHold, PayloadStart, BatOffset, WriterParams.MetadataOffset, WriterParams.BatLength;
      LayoutOrder(p);
      LayoutAligned(p);
      AllBlocksHaveEntries(p, bat.Value());
      file.SetLen(PayloadStart(p));
      assert file.data == old(file.data);
      ghost var rs: seq<Recorded> := seq(p.BlockCount(), _ => Unset);
      recorded := rs;
      EmptyHolds(file.data, bat.Value(), rs, p.blockSize, PayloadStart(p));
    }

    /** Gives every block a slot, one after the other, and extends the file over them. */
    method Preallocate()
      requires p.Usable() && p.fixed
      requires PayloadStart(p) + p.BlockCount() * p.blockSize < U64
      requires bat.chunkRatio == p.ChunkRatio() && bat.blockCount == p.BlockCount() && |bat.entries| == p.TotalEntries()
      requires |file.data| == PayloadStart(p) == payloadCursor && BatOffset(p) < U64
      requires Framed(file.data, p, BatOffset(p), p.BatLength())
      modifies `recorded, file, bat
      ensures Valid()
      ensures |recorded| == p.BlockCount()
      ensures forall b :: 0 <= b < |recorded| ==> recorded[b] == Stored(Zeros(p.blockSize))
    {
      hide Framed, WriterParams.Usable, BlocksHold, SlotEntry, TableBytes, PayloadStart, BatOffset, WriterParams.MetadataOffset, WriterParams.BatLength;
      LayoutOrder(p);
      LayoutAligned(p);
      AllBlocksHaveEntries(p, bat.Value());
      var end := AssignSlots();
      var table := PaddedTable(bat, p.BatLength());
      PreallocatedFile(p, file.data, table, end);
      file.WriteAllAt(BatOffset(p), table);
      file.SetLen(end);
      ghost var rs: seq<Recorded> := seq(p.BlockCount(), _ => Stored(Zeros(p.blockSize)));
      recorded := rs;
      PreallocatedHolds(file.data, bat.Value(), rs, p.blockSize, PayloadStart(p));
    }

    method AssignSlots() returns (cur: nat)
      requires p.Usable() && PayloadStart(p) + p.BlockCount() * p.blockSize < U64
      requires bat.chunkRatio == p.ChunkRatio() && bat.blockCount == p.BlockCount() && |bat.entries| == p.TotalEntries()
      requires bat.Value().Complete()
      modifies bat
      ensures cur == PayloadStart(p) + p.BlockCount() * p.blockSize
      ensures bat.Value().Complete() && |bat.entries| == p.TotalEntries()
      ensures forall b :: 0 <= b < p.BlockCount() ==>
                EntryOf(bat.entries, bat.chunkRatio, b) == SlotEntry(PayloadStart(p), p.blockSize, b)
    {
      hide WriterParams.Usable, PayloadStart, BatOffset, WriterParams.MetadataOffset, WriterParams.BatLength, WriterParams.TotalEntries;
      LayoutOrder(p);
      LayoutAligned(p);
      var count := p.BlockCount();
      cur := PayloadStart(p);
      for i := 0 to count
        invariant cur == PayloadStart(p) + i * p.blockSize
        invariant bat.Value().Complete()
        invariant |bat.entries| == p.TotalEntries()
        invariant forall b :: 0 <= b < i ==>
                    EntryOf(bat.entries, bat.chunkRatio, b) == SlotEntry(PayloadStart(p), p.blockSize, b)
      {
        SlotFits(PayloadStart(p), p.blockSize, i, count);
        EntriesBesides(bat.Value(), i, NewEntry(FULLY_PRESENT, cur));
        bat.SetPayloadEntry(i, NewEntry(FULLY_PRESENT, cur));
        assert (i + 1) * p.blockSize == i * p.blockSize + p.blockSize;
        cur := cur + p.blockSize;
      }
    }

    ghost predicate Valid()
      reads this, file, bat
    {
      && p.Usable()
      && bat.chunkRatio == p.ChunkRatio() && bat.blockCount == p.BlockCount() == |recorded|
      && |bat.entries| == p.TotalEntries()
      && PayloadStart(p) <= payloadCursor && payloadCursor % MIB == 0
      && PayloadStart(p) <= |file.data|
      && |file.data| == (if p.fixed then PayloadStart(p) + p.BlockCount() * p.blockSize else payloadCursor)
      && BatOffset(p) < U64
      && Framed(file.data, p, BatOffset(p), p.BatLength())
      && BlocksHold(file.data, bat.Value(), recorded, p.blockSize, PayloadStart(p))
    }

    method SetChunkedWriteSize(chunkSize: nat)
      requires Valid()
      modifies `chunkedWriteSize
      ensures Valid() && chunkedWriteSize == chunkSize
    {
      chunkedWriteSize := chunkSize;
    }

    /** Writes a buffer in chunks of the configured size; the file ends up the same whatever the size. */
    method WritePayloadBuf(off: nat, buf: Buffer)
      modifies file
      ensures file.data == Written(old(file.data), off, buf)
    {
      var chunk := chunkedWriteSize;
      if chunk == 0 || |buf| <= chunk {
        file.WriteAllAt(off, buf);
        return;
      }
      var cursor := off;
      var i := 0;
      while i < |buf|
        invariant 0 <= i <= |buf| && cursor == off + i
        invariant file.data == Written(old(file.data), off, buf[..i])
      {
        var end := Min(i + chunk, |buf|);
        file.WriteAllAt(cursor, buf[i..end]);
        NextChunk(old(file.data), off, buf, i, end);
        cursor := cursor + (end - i);
        i := end;
      }
      assert buf[..i] == buf;
    }

    /**
     * Records a block. In a fixed image the data goes to the slot the table has for the block; a block that was
     * marked zero or absent no longer has one, and its data lands at offset 0.
     */
    method WriteBlock(block: nat, source: BlockSource)
      requires Valid() && block < p.BlockCount()
      requires source.Buf? ==> |source.bytes| == p.blockSize && payloadCursor + p.blockSize < U64
      modifies `payloadCursor, `recorded, file, bat
      ensures recorded == old(recorded)[block := if source.Buf? then Stored(source.bytes) else Zeroed]
      ensures Valid() <==> source.ZeroBlock? || !p.fixed || old(recorded)[block].Stored?
      ensures source.Buf? && p.fixed && !old(recorded)[block].Stored? ==>
                file.data == Written(old(file.data), 0, source.bytes)
      ensures payloadCursor == old(payloadCursor) + if source.Buf? && !p.fixed then p.blockSize else 0
    {
      match source {
        case ZeroBlock => MarkZero(block);
        case Buf(buf) =>
          if p.fixed {
            Overwrite(block, buf);
          } else {
            Append(block, buf);
          }
      }
    }

    method MarkZero(block: nat)
      requires Valid() && block < p.BlockCount()
      modifies `recorded, bat
      ensures Valid() && recorded == old(recorded)[block := Zeroed]
    {
      hide Framed, WriterParams.Usable, BlocksHold, PayloadStart, BatOffset, WriterParams.MetadataOffset, WriterParams.BatLength;
      LayoutOrder(p);
      MarkedHolds(file.data, bat.Value(), recorded, p.blockSize, PayloadStart(p), block, Zeroed, NewEntry(ZERO, 0));
      bat.SetPayloadEntry(block, NewEntry(ZERO, 0));
      recorded := recorded[block := Zeroed];
    }

    /** Stores the block in a new slot at the end of the file. */
    method Append(block: nat, buf: Buffer)
      requires Valid() && !p.fixed && block < p.BlockCount()
      requires |buf| == p.blockSize && payloadCursor + p.blockSize < U64
      modifies `payloadCursor, `recorded, file, bat
      ensures Valid() && recorded == old(recorded)[block := Stored(buf)]
      ensures payloadCursor == old(payloadCursor) + p.blockSize
    {
      hide Framed, WriterParams.Usable, BlocksHold, PayloadStart, BatOffset, WriterParams.MetadataOffset, WriterParams.BatLength;
      LayoutOrder(p);
      var e := NewEntry(FULLY_PRESENT, payloadCursor);
      EntryUnpacks(FULLY_PRESENT, payloadCursor);
      NewSlotApart(file.data, bat.Value(), recorded, p.blockSize, PayloadStart(p), e);
      StoredHolds(file.data, bat.Value(), recorded, p.blockSize, PayloadStart(p), block, e, buf);
      FrameAbove(p, file.data, payloadCursor, buf);
      AlignedSum(payloadCursor, p.blockSize);
      WritePayloadBuf(payloadCursor, buf);
      bat.SetPayloadEntry(block, e);
      payloadCursor := payloadCursor + p.blockSize;
      recorded := recorded[block := Stored(buf)];
    }

    /** Stores the block where the table already points. */
    method Overwrite(block: nat, buf: Buffer)
      requires Valid() && p.fixed && block < p.BlockCount() && |buf| == p.blockSize
      modifies `recorded, file
      ensures recorded == old(recorded)[block := Stored(buf)]
      ensures Valid() <==> old(recorded)[block].Stored?
      ensures !old(recorded)[block].Stored? ==> file.data == Written(old(file.data), 0, buf)
    {
      hide Framed, WriterParams.Usable, BlocksHold, PayloadStart, BatOffset, WriterParams.MetadataOffset, WriterParams.BatLength;
      LayoutOrder(p);
      var e := bat.entries[TableIndex(block)];
      if recorded[block].Stored? {
        OwnSlotApart(file.data, bat.Value(), recorded, p.blockSize, PayloadStart(p), block);
        StoredHolds(file.data, bat.Value(), recorded, p.blockSize, PayloadStart(p), block, e, buf);
        FrameAbove(p, file.data, e.FileOffset(), buf);
        assert bat.Value().WithPayload(block, e) == bat.Value();
      } else {
        NoSlot(file.data, bat.Value(), recorded, p.blockSize, PayloadStart(p), block);
        DataWithoutSlot(Written(file.data, 0, buf), bat.Value(), recorded, buf, p.blockSize, PayloadStart(p), block);
      }
      WritePayloadBuf(e.FileOffset(), buf);
      recorded := recorded[block := Stored(buf)];
    }

    /** Makes a block fall through to the parent. */
    method MarkNotPresent(block: nat)
      requires Valid() && block < p.BlockCount()
      modifies `recorded, bat
      ensures Valid() && recorded == old(recorded)[block := Unset]
    {
      hide Framed, WriterParams.Usable, BlocksHold, PayloadStart, BatOffset, WriterParams.MetadataOffset, WriterParams.BatLength;
      LayoutOrder(p);
      MarkedHolds(file.data, bat.Value(), recorded, p.blockSize, PayloadStart(p), block, Unset, NewEntry(NOT_PRESENT, 0));
      bat.SetPayloadEntry(block, NewEntry(NOT_PRESENT, 0));
      recorded := recorded[block := Unset];
    }

    /** Flushes the table: the file is now an image that reads as recorded. */
    method Finish()
      requires Valid()
      modifies file
      ensures Reads(file.data, p, recorded)
      ensures |file.data| == if p.fixed then PayloadStart(p) + p.BlockCount() * p.blockSize else payloadCursor
      ensures Finished(file.data, p, bat.Value(), recorded)
    {
      hide Framed, WriterParams.Usable, BlocksHold, Finished, TableBytes, Reads, PayloadStart, BatOffset, WriterParams.MetadataOffset, WriterParams.BatLength;
      LayoutOrder(p);
      var table := PaddedTable(bat, p.BatLength());
      FinishedFile(p, file.data, bat.Value(), recorded, table);
      file.WriteAllAt(BatOffset(p), table);
      if !p.fixed {
        file.SetLen(payloadCursor);
        assert file.data == Written(old(file.data), BatOffset(p), table);
      }
    }

    function TableIndex(block: nat): (i: nat)
      requires Valid() && block < p.BlockCount()
      reads this, file, bat
      ensures i == PayloadIndex(block, bat.chunkRatio) < |bat.entries|
    {
      PayloadIndex(block, bat.chunkRatio)
    }
  }

  /** A complete image: frame, stored table, and every block as recorded in a slot of its own. */
  ghost predicate Finished(data: Buffer, p: WriterParams, t: Table, recorded: seq<Recorded>) {
    && p.Usable() && BatOffset(p) < U64
    && t.chunkRatio == p.ChunkRatio() && t.blockCount == p.BlockCount() == |recorded| && |t.entries| == p.TotalEntries()
    && Framed(data, p, BatOffset(p), p.BatLength())
    && TableStored(data, BatOffset(p), p.BatLength(), t.entries)
    && BlocksHold(data, t, recorded, p.blockSize, PayloadStart(p))
  }

  lemma FinishedFile(p: WriterParams, data: Buffer, t: Table, recorded: seq<Recorded>, table: Buffer)
    requires p.Usable() && BatOffset(p) < U64 && p.BatLength() < U32 && PayloadStart(p) <= |data|
    requires Framed(data, p, BatOffset(p), p.BatLength())
    requires t.chunkRatio == p.ChunkRatio() && t.blockCount == p.BlockCount() == |recorded| && |t.entries| == p.TotalEntries()
    requires 8 * |t.entries| <= p.BatLength() && table == TableBytes(t.entries, p.BatLength())
    requires BlocksHold(data, t, recorded, p.blockSize, PayloadStart(p))
    ensures |Written(data, BatOffset(p), table)| == |data|
    ensures Finished(Written(data, BatOffset(p), table), p, t, recorded)
    ensures Reads(Written(data, BatOffset(p), table), p, recorded)
  {
    var after := Written(data, BatOffset(p), table);
    assert TableStored(after, BatOffset(p), p.BatLength(), t.entries) by {
      hide Framed, WriterParams.Usable, BlocksHold, PayloadStart, BatOffset, WriterParams.MetadataOffset, WriterParams.BatLength, EncodeEntries;
      LayoutOrder(p);
      WrittenReadsBack(data, BatOffset(p), table);
    }
    hide Framed, WriterParams.Usable, BlocksHold, TableBytes, TableStored, Reads, PayloadStart, BatOffset, WriterParams.MetadataOffset, WriterParams.BatLength;
    LayoutOrder(p);
    LayoutAligned(p);
    WrittenPrefix(data, BatOffset(p), table, BatOffset(p));
    FrameByPrefix(data, after, BatOffset(p), p, BatOffset(p), p.BatLength());
    StillHolds(data, after, t, recorded, p.blockSize, PayloadStart(p), BatOffset(p), table);
    FramedImageReads(after, p, BatOffset(p), p.BatLength(), t, recorded, PayloadStart(p));
  }

  /** Writing payload leaves the frame alone. */
  lemma FrameAbove(p: WriterParams, before: Buffer, off: nat, buf: Buffer)
    requires p.Usable() && BatOffset(p) < U64 && p.BatLength() < U32
    requires Framed(before, p, BatOffset(p), p.BatLength())
    requires PayloadStart(p) <= off && PayloadStart(p) <= |before|
    ensures Framed(Written(before, off, buf), p, BatOffset(p), p.BatLength())
  {
    hide Framed, WriterParams.Usable, PayloadStart, BatOffset, WriterParams.MetadataOffset, WriterParams.BatLength;
    LayoutOrder(p);
    WrittenPrefix(before, off, buf, PayloadStart(p));
    FrameByPrefix(before, Written(before, off, buf), PayloadStart(p), p, BatOffset(p), p.BatLength());
  }

  /** The file once the table is rewritten and the space for the slots is added. */
  lemma PreallocatedFile(p: WriterParams, data: Buffer, table: Buffer, end: nat)
    requires p.Usable() && BatOffset(p) < U64 && p.BatLength() < U32
    requires Framed(data, p, BatOffset(p), p.BatLength())
    requires |data| == PayloadStart(p) <= end && |table| == p.BatLength()
    ensures
      var after := Resized(Written(data, BatOffset(p), table), end);
      && Framed(after, p, BatOffset(p), p.BatLength())
      && forall j :: PayloadStart(p) <= j < end ==> after[j] == 0
  {
    hide Framed, WriterParams.Usable, PayloadStart, BatOffset, WriterParams.MetadataOffset, WriterParams.BatLength;
    LayoutOrder(p);
    var w := Written(data, BatOffset(p), table);
    WrittenPrefix(data, BatOffset(p), table, BatOffset(p));
    ResizedPrefix(w, end, BatOffset(p));
    FrameByPrefix(data, Resized(w, end), BatOffset(p), p, BatOffset(p), p.BatLength());
  }

  /** The entry of block `b` when slots are handed out in block order. */
  function SlotEntry(start: nat, bs: nat, b: nat): BatEntry
  {
    if start + b * bs < U64 then NewEntry(FULLY_PRESENT, start + b * bs) else EMPTY
  }

  lemma SlotFits(start: nat, bs: nat, b: nat, count: nat)
    requires b < count && start + count * bs < U64 && start % MIB == 0 && bs % MIB == 0
    ensures start + b * bs + bs <= start + count * bs
    ensures SlotEntry(start, bs, b).State() == FULLY_PRESENT && SlotEntry(start, bs, b).FileOffset() == start + b * bs
    ensures (start + b * bs) % MIB == 0
  {
    MulMonotone(bs, b + 1, count);
    assert bs * (b + 1) == b * bs + bs && bs * count == count * bs;
    MultipleOfMultiple(bs, b);
    AlignedSum(start, b * bs);
    EntryUnpacks(FULLY_PRESENT, start + b * bs);
    hide NewEntry, BatEntry.State, BatEntry.FileOffset;
  }

  /** Slots handed out one after the other are where their entries say, all of them, exactly when blocks are whole MiBs. */
  lemma SlotsNeedWholeMiBs(start: nat, bs: nat, count: nat)
    requires start % MIB == 0 && start + count * bs < U64
    ensures (forall b: nat :: b < count ==> SlotEntry(start, bs, b).FileOffset() == start + b * bs) <==>
            count <= 1 || bs % MIB == 0
  {
    hide SlotEntry;
    if bs % MIB == 0 {
      forall b: nat | b < count
        ensures SlotEntry(start, bs, b).FileOffset() == start + b * bs
      {
        SlotFits(start, bs, b, count);
      }
    } else if count <= 1 {
      FirstSlot(start, bs);
    } else {
      MulMonotone(bs, 2, count);
      SecondSlot(start, bs);
    }
  }

  lemma FirstSlot(start: nat, bs: nat)
    requires start % MIB == 0
    ensures start < U64 ==> SlotEntry(start, bs, 0).FileOffset() == start + 0 * bs
  {
    if start < U64 {
      EntryKeepsOffsetIff(FULLY_PRESENT, start);
    }
  }

  lemma SecondSlot(start: nat, bs: nat)
    requires start % MIB == 0 && bs % MIB != 0 && start + bs < U64
    ensures SlotEntry(start, bs, 1).FileOffset() != start + 1 * bs
  {
    EntryKeepsOffsetIff(FULLY_PRESENT, start + bs);
    if (start + bs) % MIB == 0 {
      DifferenceAligned(start, bs);
    }
  }

  lemma DifferenceAligned(a: nat, b: nat)
    requires a % MIB == 0 && (a + b) % MIB == 0
    ensures b % MIB == 0
  {
  }

  lemma MultipleOfMultiple(bs: nat, b: nat)
    requires bs % MIB == 0
    ensures b * bs % MIB == 0
  {
    var q := bs / MIB;
    assert b * bs == MIB * (b * q);
    DivModUnique(b * bs, MIB, b * q, 0);
  }

  lemma PreallocatedHolds(data: Buffer, t: Table, recorded: seq<Recorded>, bs: nat, start: nat)
    requires t.Complete() && t.blockCount == |recorded| && bs > 0
    requires start % MIB == 0 && bs % MIB == 0 && |data| == start + |recorded| * bs < U64
    requires forall j :: start <= j < |data| ==> data[j] == 0
    requires forall b :: 0 <= b < |recorded| ==> EntryOf(t.entries, t.chunkRatio, b) == SlotEntry(start, bs, b)
    requires forall b :: 0 <= b < |recorded| ==> recorded[b] == Stored(Zeros(bs))
    ensures BlocksHold(data, t, recorded, bs, start)
  {
    forall b | 0 <= b < |recorded|
      ensures Holds(data, EntryOf(t.entries, t.chunkRatio, b), recorded[b], bs, start)
    {
      SlotFits(start, bs, b, |recorded|);
      assert Slice(data, start + b * bs, bs) == Zeros(bs);
    }
    forall b, c | 0 <= b < c < |recorded|
      ensures SlotsApart(EntryOf(t.entries, t.chunkRatio, b), EntryOf(t.entries, t.chunkRatio, c), bs)
    {
      SlotFits(start, bs, b, |recorded|);
      SlotFits(start, bs, c, |recorded|);
      SlotFits(start, bs, b, c);
    }
  }

  /** A slot at the end of the file is nobody's. */
  lemma NewSlotApart(data: Buffer, t: Table, recorded: seq<Recorded>, bs: nat, start: nat, e: BatEntry)
    requires BlocksHold(data, t, recorded, bs, start) && e.FileOffset() == |data|
    ensures forall b :: 0 <= b < |recorded| && recorded[b].Stored? ==> SlotsApart(EntryOf(t.entries, t.chunkRatio, b), e, bs)
  {
    forall b | 0 <= b < |recorded| && recorded[b].Stored?
      ensures SlotsApart(EntryOf(t.entries, t.chunkRatio, b), e, bs)
    {
      assert Holds(data, EntryOf(t.entries, t.chunkRatio, b), recorded[b], bs, start);
    }
  }

  /** A stored block's own slot is no other block's. */
  lemma OwnSlotApart(data: Buffer, t: Table, recorded: seq<Recorded>, bs: nat, start: nat, block: nat)
    requires BlocksHold(data, t, recorded, bs, start) && block < |recorded| && recorded[block].Stored?
    ensures
      var e := EntryOf(t.entries, t.chunkRatio, block);
      && e.State() == FULLY_PRESENT && e.FileOffset() % MIB == 0 && start <= e.FileOffset() && e.FileOffset() + bs <= |data|
      && forall b :: 0 <= b < |recorded| && b != block && recorded[b].Stored? ==>
           SlotsApart(EntryOf(t.entries, t.chunkRatio, b), e, bs)
  {
    assert Holds(data, EntryOf(t.entries, t.chunkRatio, block), recorded[block], bs, start);
  }

  /** A block that is not stored has no slot: its entry is not fully present and points at offset 0. */
  lemma NoSlot(data: Buffer, t: Table, recorded: seq<Recorded>, bs: nat, start: nat, block: nat)
    requires BlocksHold(data, t, recorded, bs, start) && block < |recorded| && !recorded[block].Stored?
    ensures t.Complete() && t.blockCount == |recorded|
    ensures EntryOf(t.entries, t.chunkRatio, block).FileOffset() == 0
    ensures EntryOf(t.entries, t.chunkRatio, block).State() != FULLY_PRESENT
  {
    assert Holds(data, EntryOf(t.entries, t.chunkRatio, block), recorded[block], bs, start);
    EntryUnpacks(ZERO, 0);
  }

  /** Data recorded for a block whose entry gives it no slot is held by no file. */
  lemma DataWithoutSlot(data: Buffer, t: Table, recorded: seq<Recorded>, buf: Buffer, bs: nat, start: nat, block: nat)
    requires t.Complete() && t.blockCount == |recorded| && block < |recorded|
    requires EntryOf(t.entries, t.chunkRatio, block).State() != FULLY_PRESENT
    ensures !BlocksHold(data, t, recorded[block := Stored(buf)], bs, start)
  {
    hide BatEntry.State, BatEntry.FileOffset;
    assert !Holds(data, EntryOf(t.entries, t.chunkRatio, block), recorded[block := Stored(buf)][block], bs, start);
  }
}
