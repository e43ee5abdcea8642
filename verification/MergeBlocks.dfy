/** What a parent holds while a child is merged into it, block by block (merge.rs). */
module MergeBlocks {
  import opened Wrappers
  import opened Bytes
  import opened FileIo
  import opened Format
  import opened Headers
  import opened Regions
  import opened BlockTable
  import opened MetadataRegion
  import opened Disks
  import opened ChainView
  import opened Composite
  import opened ImageBlocks
  import opened Placement

  // ---- What must hold of the parent ----

  /** The bitmap a partially present block is read through. */
  function BitmapArea(d: VhdxDisk, b: nat): Area
    requires d.Valid() && b < d.BlockCount()
  {
    match (d.bat.PayloadEntry(b), d.bat.BitmapEntry(b))
    case (Some(e), Some(sb)) =>
      if e.State() == PARTIALLY_PRESENT && sb.State() == BITMAP_PRESENT then Area(sb.FileOffset(), MIB) else Area(0, 0)
    case _ => Area(0, 0)
  }

  /** Headers, table, metadata and the sector bitmaps in use. */
  function Kept(d: VhdxDisk): (a: seq<Area>)
    requires d.Valid()
    ensures |a| == 3 + d.BlockCount()
  {
    [ Area(0, MIB),
      Area(d.batRegion.fileOffset, d.batRegion.length),
      Area(d.metadataRegion.fileOffset, d.metadataRegion.length) ]
    + seq(d.BlockCount(), b requires 0 <= b < d.BlockCount() => BitmapArea(d, b))
  }

  /** Everything kept lies above the header section, and clear of the table's region unless it is that region. */
  ghost predicate TableAlone(d: VhdxDisk)
    requires d.Valid()
  {
    && (forall k :: 1 <= k < |Kept(d)| ==> Kept(d)[k].ClearOf(0, MIB))
    && (forall k :: 2 <= k < |Kept(d)| ==> Kept(d)[k].ClearOf(d.batRegion.fileOffset, d.batRegion.length))
  }

  /**
   * An image that can take a child: its blocks lie inside the file, apart from one another and from what is
   * kept; its table region holds every entry; and appended blocks and the next sequence number stay in range.
   */
  ghost predicate Mergeable(data: Buffer, d: VhdxDisk) {
    && Link(d, data).Valid() && d.BlockSize() % MIB == 0
    && |d.bat.entries| == TotalEntries(d.BlockCount(), d.bat.chunkRatio, d.HasParent())
    && 8 * |d.bat.entries| <= d.batRegion.length
    && Placed(data, d.bat, Kept(d), d.BlockSize())
    && TableAlone(d)
    && AlignUp(|data|, MIB) + d.BlockCount() * d.BlockSize() < U64
    && d.headers.Active().sequenceNumber + 1 < U64
  }

  // ---- What a merged block holds ----

  /** What lies under a partially present child block: the parent's block when it is fully present, else zeros. */
  ghost function Base(data: Buffer, e: BatEntry, bs: nat): Buffer {
    if e.State() == FULLY_PRESENT && e.FileOffset() + bs <= |data| then Slice(data, e.FileOffset(), bs) else Zeros(bs)
  }

  /** The sectors of `bitmap` come from `payload`, the others from `base`. */
  ghost predicate IsOverlay(block: Buffer, payload: Buffer, bitmap: Buffer, base: Buffer, n: nat, ss: nat) {
    && |block| == n * ss
    && forall i :: 0 <= i < n ==> Sector(block, i, ss) == Sector(if BitIsSet(bitmap, i) then payload else base, i, ss)
  }

  /** The slot of a fully present entry holds this child block over the parent's old one. */
  ghost predicate HoldsMerged(data0: Buffer, e0: BatEntry, data: Buffer, e: BatEntry, r: BlockRead, n: nat, ss: nat) {
    && e.State() == FULLY_PRESENT && e.FileOffset() + n * ss <= |data|
    && match r
       case Absent => false
       case Full(b) => Slice(data, e.FileOffset(), n * ss) == b
       case Partial(p, bm) => IsOverlay(Slice(data, e.FileOffset(), n * ss), p, bm, Base(data0, e0, n * ss), n, ss)
  }

  /** A block the child has is merged; one it lacks keeps its entry and its bytes. */
  ghost predicate BlockMerged(data0: Buffer, e0: BatEntry, data: Buffer, e: BatEntry, r: BlockRead, n: nat, ss: nat) {
    if r.Absent? then e == e0 && (HasSlot(e0) ==> Same(data0, data, e0.FileOffset(), n * ss))
    else HoldsMerged(data0, e0, data, e, r, n, ss)
  }

  /** What the child adds to block `b` once the first `count` blocks are merged. */
  function Added(l: Link, b: nat, count: nat): BlockRead
    requires l.Valid()
  {
    if b >= count then Absent
    else
      match ReadBlock(l.disk, l.data, b)
      case Ok(r) => r
      case Err(_) => Absent
  }

  /** The first `count` blocks of the child are in the parent; the rest of the parent is as it was. */
  ghost predicate MergedSoFar(data0: Buffer, t0: Table, data: Buffer, t: Table, l: Link, count: nat)
    requires l.Valid()
  {
    && t0.Complete() && t.Complete() && t.blockCount == t0.blockCount && t.chunkRatio == t0.chunkRatio
    && |t.entries| == |t0.entries|
    && (forall b :: 0 <= b < t0.blockCount ==>
          BlockMerged(data0, EntryOf(t0.entries, t0.chunkRatio, b), data, EntryOf(t.entries, t.chunkRatio, b),
                      Added(l, b, count), l.disk.SectorsPerBlock(), l.disk.SectorSize()))
    && (forall b :: 0 <= b < t0.blockCount ==> t.BitmapEntry(b) == t0.BitmapEntry(b))
  }

  ghost predicate AreasKept(data0: Buffer, data: Buffer, keep: seq<Area>) {
    forall k :: 0 <= k < |keep| ==> Same(data0, data, keep[k].off, keep[k].len)
  }

  ghost predicate BitmapsKept(data0: Buffer, data: Buffer, d: VhdxDisk)
    requires d.Valid()
  {
    forall b :: 0 <= b < d.BlockCount() ==> Same(data0, data, BitmapArea(d, b).off, BitmapArea(d, b).len)
  }

  lemma KeptBitmaps(data0: Buffer, data: Buffer, d: VhdxDisk)
    requires d.Valid() && AreasKept(data0, data, Kept(d))
    ensures BitmapsKept(data0, data, d)
  {
    hide BitmapArea;
    forall b | 0 <= b < d.BlockCount()
      ensures Same(data0, data, BitmapArea(d, b).off, BitmapArea(d, b).len)
    {
      assert Kept(d)[3 + b] == BitmapArea(d, b);
    }
  }

  // ---- One step ----

  /** A block whose slot did not change is still merged. */
  lemma StillMerged(data0: Buffer, e0: BatEntry, data: Buffer, after: Buffer, e: BatEntry, r: BlockRead, n: nat, ss: nat)
    requires BlockMerged(data0, e0, data, e, r, n, ss)
    requires HasSlot(e) ==> Same(data, after, e.FileOffset(), n * ss)
    ensures BlockMerged(data0, e0, after, e, r, n, ss)
  {
    hide IsOverlay, Base, BatEntry.State, BatEntry.FileOffset;
  }

  lemma SameBitmaps(t: Table, block: nat, e: BatEntry)
    requires t.Complete()
    ensures forall b :: 0 <= b < t.blockCount ==> t.WithPayload(block, e).BitmapEntry(b) == t.BitmapEntry(b)
  {
    forall b | 0 <= b < t.blockCount
      ensures t.WithPayload(block, e).BitmapEntry(b) == t.BitmapEntry(b)
    {
      SetOneEntry(t, block, e, b);
    }
  }

  /** Skipping a block the child lacks. */
  lemma SkippedBlock(data0: Buffer, t0: Table, data: Buffer, t: Table, l: Link, count: nat)
    requires l.Valid() && MergedSoFar(data0, t0, data, t, l, count)
    requires count < l.disk.BlockCount() && ReadBlock(l.disk, l.data, count) == Ok(Absent)
    ensures MergedSoFar(data0, t0, data, t, l, count + 1)
  {
    hide ReadBlock, BlockMerged, EntryOf, Table.BitmapEntry;
    assert forall b: nat :: Added(l, b, count + 1) == Added(l, b, count);
  }

  /** Storing the merged block `count`. */
  lemma MergedBlock(data0: Buffer, t0: Table, data: Buffer, t: Table, keep: seq<Area>, l: Link, count: nat, e: BatEntry, after: Buffer)
    requires l.Valid() && MergedSoFar(data0, t0, data, t, l, count)
    requires count < t0.blockCount && ReadBlock(l.disk, l.data, count).Ok?
    requires OthersKept(data, after, t, keep, l.disk.SectorsPerBlock() * l.disk.SectorSize(), count)
    requires HoldsMerged(data0, EntryOf(t0.entries, t0.chunkRatio, count), after, e,
                         ReadBlock(l.disk, l.data, count).value, l.disk.SectorsPerBlock(), l.disk.SectorSize())
    ensures MergedSoFar(data0, t0, after, t.WithPayload(count, e), l, count + 1)
  {
    hide ReadBlock, BlockMerged, EntryOf, Table.BitmapEntry, HoldsMerged, Table.WithPayload, HasSlot;
    var u := t.WithPayload(count, e);
    var n, ss := l.disk.SectorsPerBlock(), l.disk.SectorSize();
    EntriesBesides(t, count, e);
    SameBitmaps(t, count, e);
    forall b | 0 <= b < t0.blockCount
      ensures BlockMerged(data0, EntryOf(t0.entries, t0.chunkRatio, b), after, EntryOf(u.entries, u.chunkRatio, b),
                          Added(l, b, count + 1), n, ss)
    {
      var e0 := EntryOf(t0.entries, t0.chunkRatio, b);
      if b == count {
        HoldsIsMerged(data0, e0, after, e, ReadBlock(l.disk, l.data, count).value, n, ss);
      } else {
        var f := EntryOf(t.entries, t.chunkRatio, b);
        SlotIs(t, b);
        StillMerged(data0, e0, data, after, f, Added(l, b, count), n, ss);
        assert Added(l, b, count + 1) == Added(l, b, count);
      }
    }
  }

  lemma SlotIs(t: Table, b: nat)
    requires t.Complete() && b < t.blockCount
    ensures
      var e := EntryOf(t.entries, t.chunkRatio, b);
      Slot(t, b) == if HasSlot(e) then Some(e.FileOffset()) else None
  {
  }

  lemma HoldsIsMerged(data0: Buffer, e0: BatEntry, data: Buffer, e: BatEntry, r: BlockRead, n: nat, ss: nat)
    requires HoldsMerged(data0, e0, data, e, r, n, ss)
    ensures BlockMerged(data0, e0, data, e, r, n, ss) && !r.Absent?
  {
  }

  // ---- The old table, while the new one is not yet stored ----

  /** Through the old entry a block still has its old bytes, or already the merged ones. */
  ghost predicate OldOrMerged(data0: Buffer, e0: BatEntry, data: Buffer, r: BlockRead, n: nat, ss: nat) {
    HasSlot(e0) ==> Same(data0, data, e0.FileOffset(), n * ss) || HoldsMerged(data0, e0, data, e0, r, n, ss)
  }

  ghost predicate Underway(data0: Buffer, t0: Table, data: Buffer, l: Link, count: nat)
    requires l.Valid()
  {
    && t0.Complete()
    && forall b :: 0 <= b < t0.blockCount ==>
         OldOrMerged(data0, EntryOf(t0.entries, t0.chunkRatio, b), data, Added(l, b, count),
                     l.disk.SectorsPerBlock(), l.disk.SectorSize())
  }

  lemma StillOldOrMerged(data0: Buffer, e0: BatEntry, data: Buffer, after: Buffer, r: BlockRead, n: nat, ss: nat)
    requires OldOrMerged(data0, e0, data, r, n, ss)
    requires HasSlot(e0) ==> Same(data, after, e0.FileOffset(), n * ss)
    ensures OldOrMerged(data0, e0, after, r, n, ss)
  {
    hide IsOverlay, Base, BatEntry.State, BatEntry.FileOffset;
  }

  /** Nothing the child lacks can be merged: such a block has its old bytes. */
  lemma AbsentIsOld(data0: Buffer, e0: BatEntry, data: Buffer, r: BlockRead, n: nat, ss: nat)
    requires OldOrMerged(data0, e0, data, Absent, n, ss)
    ensures OldOrMerged(data0, e0, data, r, n, ss)
  {
    hide IsOverlay, Base;
  }

  /** A write that keeps every other old slot, and keeps this one or merges into it. */
  lemma UnderwayStep(data0: Buffer, t0: Table, data: Buffer, after: Buffer, keep: seq<Area>, l: Link, count: nat)
    requires l.Valid() && Underway(data0, t0, data, l, count) && count < t0.blockCount
    requires ReadBlock(l.disk, l.data, count).Ok?
    requires OthersKept(data, after, t0, keep, l.disk.SectorsPerBlock() * l.disk.SectorSize(), count)
    requires OldOrMerged(data0, EntryOf(t0.entries, t0.chunkRatio, count), after, ReadBlock(l.disk, l.data, count).value,
                         l.disk.SectorsPerBlock(), l.disk.SectorSize())
    ensures Underway(data0, t0, after, l, count + 1)
  {
    hide ReadBlock, OldOrMerged, EntryOf, HasSlot;
    var n, ss := l.disk.SectorsPerBlock(), l.disk.SectorSize();
    forall b | 0 <= b < t0.blockCount
      ensures OldOrMerged(data0, EntryOf(t0.entries, t0.chunkRatio, b), after, Added(l, b, count + 1), n, ss)
    {
      if b != count {
        SlotIs(t0, b);
        StillOldOrMerged(data0, EntryOf(t0.entries, t0.chunkRatio, b), data, after, Added(l, b, count), n, ss);
        assert Added(l, b, count + 1) == Added(l, b, count);
      }
    }
  }

  /** A parent left behind by a merge that stopped: tables as before, and each old slot unharmed or merged into. */
  ghost predicate HalfMerged(data0: Buffer, t0: Table, data: Buffer, keep: seq<Area>, l: Link) {
    && l.Valid()
    && Underway(data0, t0, data, l, l.disk.BlockCount())
    && AreasKept(data0, data, keep)
  }

  // ---- One stage of the merge ----

  /** The parent while it is being merged: the new table in memory, the old one in the file. */
  ghost predicate Stage(data0: Buffer, t0: Table, data: Buffer, t: Table, keep: seq<Area>, l: Link, count: nat) {
    && l.Valid()
    && MergedSoFar(data0, t0, data, t, l, count)
    && Underway(data0, t0, data, l, count)
    && Placed(data0, t0, keep, l.disk.BlockSize())
    && Placed(data, t, keep, l.disk.BlockSize())
    && Placed(data, t0, keep, l.disk.BlockSize())
    && AreasKept(data0, data, keep)
  }

  lemma FirstStage(data: Buffer, t: Table, keep: seq<Area>, l: Link)
    requires l.Valid() && Placed(data, t, keep, l.disk.BlockSize())
    ensures Stage(data, t, data, t, keep, l, 0)
  {
    SectorInBlock(l, 0);
    hide BatEntry.State, BatEntry.FileOffset, ReadBlock;
    forall b | 0 <= b < t.blockCount && HasSlot(EntryOf(t.entries, t.chunkRatio, b))
      ensures Same(data, data, EntryOf(t.entries, t.chunkRatio, b).FileOffset(), l.disk.BlockSize())
    {
      assert Slot(t, b).Some?;
    }
  }

  lemma AreasStillKept(data0: Buffer, data: Buffer, after: Buffer, keep: seq<Area>)
    requires AreasKept(data0, data, keep) && AreasKept(data, after, keep)
    ensures AreasKept(data0, after, keep)
  {
  }

  /** A block the child lacks needs nothing done. */
  lemma SkipStage(data0: Buffer, t0: Table, data: Buffer, t: Table, keep: seq<Area>, l: Link, count: nat)
    requires Stage(data0, t0, data, t, keep, l, count)
    requires count < l.disk.BlockCount() && ReadBlock(l.disk, l.data, count) == Ok(Absent)
    ensures Stage(data0, t0, data, t, keep, l, count + 1)
  {
    hide ReadBlock, MergedSoFar, Placed, OldOrMerged, EntryOf;
    SkippedBlock(data0, t0, data, t, l, count);
    assert forall b: nat :: Added(l, b, count + 1) == Added(l, b, count);
  }

  /** Extending the file changes nothing. */
  lemma GrowStage(data0: Buffer, t0: Table, data: Buffer, t: Table, keep: seq<Area>, l: Link, count: nat, len: nat)
    requires Stage(data0, t0, data, t, keep, l, count) && |data| <= len
    ensures Stage(data0, t0, Resized(data, len), t, keep, l, count)
  {
    hide ReadBlock, MergedSoFar, Placed, Underway, OthersKept;
    SectorInBlock(l, 0);
    StagesAgree(data0, t0, data, t, keep, l, count);
    var bs := l.disk.BlockSize();
    GrownKeeps(data, t, keep, bs, len, t.blockCount);
    GrownKeeps(data, t0, keep, bs, len, t0.blockCount);
    KeptMerged(data0, t0, data, Resized(data, len), t, keep, l, count);
    KeptUnderway(data0, t0, data, Resized(data, len), keep, l, count);
    AreasOf(data, Resized(data, len), t, keep, bs, t.blockCount);
    AreasStillKept(data0, data, Resized(data, len), keep);
  }

  lemma AreasOf(data: Buffer, after: Buffer, t: Table, keep: seq<Area>, bs: nat, block: nat)
    requires t.Complete() && OthersKept(data, after, t, keep, bs, block)
    ensures AreasKept(data, after, keep)
  {
  }

  lemma KeptMerged(data0: Buffer, t0: Table, data: Buffer, after: Buffer, t: Table, keep: seq<Area>, l: Link, count: nat)
    requires l.Valid() && MergedSoFar(data0, t0, data, t, l, count)
    requires OthersKept(data, after, t, keep, l.disk.SectorsPerBlock() * l.disk.SectorSize(), t.blockCount)
    ensures MergedSoFar(data0, t0, after, t, l, count)
  {
    hide ReadBlock, BlockMerged, EntryOf, Table.BitmapEntry, HasSlot;
    var n, ss := l.disk.SectorsPerBlock(), l.disk.SectorSize();
    forall b | 0 <= b < t0.blockCount
      ensures BlockMerged(data0, EntryOf(t0.entries, t0.chunkRatio, b), after, EntryOf(t.entries, t.chunkRatio, b),
                          Added(l, b, count), n, ss)
    {
      SlotIs(t, b);
      StillMerged(data0, EntryOf(t0.entries, t0.chunkRatio, b), data, after, EntryOf(t.entries, t.chunkRatio, b),
                  Added(l, b, count), n, ss);
    }
  }

  lemma KeptUnderway(data0: Buffer, t0: Table, data: Buffer, after: Buffer, keep: seq<Area>, l: Link, count: nat)
    requires l.Valid() && Underway(data0, t0, data, l, count)
    requires OthersKept(data, after, t0, keep, l.disk.SectorsPerBlock() * l.disk.SectorSize(), t0.blockCount)
    ensures Underway(data0, t0, after, l, count)
  {
    hide ReadBlock, OldOrMerged, EntryOf, HasSlot;
    var n, ss := l.disk.SectorsPerBlock(), l.disk.SectorSize();
    forall b | 0 <= b < t0.blockCount
      ensures OldOrMerged(data0, EntryOf(t0.entries, t0.chunkRatio, b), after, Added(l, b, count), n, ss)
    {
      SlotIs(t0, b);
      StillOldOrMerged(data0, EntryOf(t0.entries, t0.chunkRatio, b), data, after, Added(l, b, count), n, ss);
    }
  }

  /** The merged block fits what the child and the parent have for it. */
  ghost predicate MergedBytes(buf: Buffer, r: BlockRead, base: Buffer, n: nat, ss: nat) {
    match r
    case Absent => false
    case Full(b) => buf == b
    case Partial(p, bm) => IsOverlay(buf, p, bm, base, n, ss)
  }

  /** An entry that is fully present keeps its slot; any other block gets one nobody has. */
  ghost predicate SlotChosen(e0: BatEntry, off: nat, t0: Table, keep: seq<Area>, bs: nat, block: nat)
    requires t0.Complete()
  {
    && (e0.State() == FULLY_PRESENT ==> off == e0.FileOffset())
    && (e0.State() != FULLY_PRESENT && HasSlot(e0) ==> RangesApart(e0.FileOffset(), off, bs))
    && Free(t0, keep, bs, block, off)
  }

  /** Storing the merged block in the slot chosen for it. */
  lemma StoreStage(data0: Buffer, t0: Table, data: Buffer, t: Table, keep: seq<Area>, l: Link, count: nat, e: BatEntry, buf: Buffer)
    requires Stage(data0, t0, data, t, keep, l, count) && count < t0.blockCount && ReadBlock(l.disk, l.data, count).Ok?
    requires |buf| == l.disk.BlockSize() && e.State() == FULLY_PRESENT
    requires Free(t, keep, |buf|, count, e.FileOffset())
    requires SlotChosen(EntryOf(t0.entries, t0.chunkRatio, count), e.FileOffset(), t0, keep, |buf|, count)
    requires MergedBytes(buf, ReadBlock(l.disk, l.data, count).value, Base(data0, EntryOf(t0.entries, t0.chunkRatio, count), |buf|),
                         l.disk.SectorsPerBlock(), l.disk.SectorSize())
    ensures Stage(data0, t0, Written(data, e.FileOffset(), buf), t.WithPayload(count, e), keep, l, count + 1)
  {
    hide ReadBlock, MergedSoFar, Placed, OthersKept, IsOverlay, Table.WithPayload, Underway, Free, EntryOf, Base;
    SectorInBlock(l, 0);
    var bs := l.disk.BlockSize();
    var r := ReadBlock(l.disk, l.data, count).value;
    var after := Written(data, e.FileOffset(), buf);
    StagesAgree(data0, t0, data, t, keep, l, count);
    var e0 := EntryOf(t0.entries, t0.chunkRatio, count);
    StoredInFreeSlot(data, t, keep, bs, count, e, buf);
    StoredInFreeSlot(data, t0, keep, bs, count, e, buf);
    assert HoldsMerged(data0, e0, after, e, r, l.disk.SectorsPerBlock(), l.disk.SectorSize());
    MergedBlock(data0, t0, data, t, keep, l, count, e, after);
    OldBytesUnder(data0, t0, data, l, count, e0);
    OldSlotAfter(data0, e0, data, e, buf, r, l.disk.SectorsPerBlock(), l.disk.SectorSize());
    UnderwayStep(data0, t0, data, after, keep, l, count);
    PlacedLonger(data, after, t0, keep, bs);
    AreasOf(data, after, t, keep, bs, count);
    AreasStillKept(data0, data, after, keep);
  }

  lemma OldBytesUnder(data0: Buffer, t0: Table, data: Buffer, l: Link, count: nat, e0: BatEntry)
    requires l.Valid() && Underway(data0, t0, data, l, count) && count < t0.blockCount
    requires e0 == EntryOf(t0.entries, t0.chunkRatio, count)
    ensures OldOrMerged(data0, e0, data, Absent, l.disk.SectorsPerBlock(), l.disk.SectorSize())
  {
    hide OldOrMerged, ReadBlock;
    assert Added(l, count, count) == Absent;
  }

  lemma OldSlotAfter(data0: Buffer, e0: BatEntry, data: Buffer, e: BatEntry, buf: Buffer, r: BlockRead, n: nat, ss: nat)
    requires OldOrMerged(data0, e0, data, Absent, n, ss) && |buf| == n * ss
    requires HoldsMerged(data0, e0, Written(data, e.FileOffset(), buf), e, r, n, ss)
    requires e0.State() == FULLY_PRESENT ==> e.FileOffset() == e0.FileOffset()
    requires e0.State() != FULLY_PRESENT && HasSlot(e0) ==> RangesApart(e0.FileOffset(), e.FileOffset(), n * ss)
    ensures OldOrMerged(data0, e0, Written(data, e.FileOffset(), buf), r, n, ss)
  {
    hide BatEntry.State, BatEntry.FileOffset, IsOverlay, Base;
    if e0.State() != FULLY_PRESENT && HasSlot(e0) {
      WrittenKeepsRange(data, e.FileOffset(), buf, e0.FileOffset(), n * ss);
    }
  }

  lemma PlacedLonger(data: Buffer, after: Buffer, t: Table, keep: seq<Area>, bs: nat)
    requires Placed(data, t, keep, bs) && |data| <= |after|
    ensures Placed(after, t, keep, bs)
  {
    hide Slot;
  }

  lemma StagesAgree(data0: Buffer, t0: Table, data: Buffer, t: Table, keep: seq<Area>, l: Link, count: nat)
    requires Stage(data0, t0, data, t, keep, l, count)
    ensures l.Valid() && t0.Complete() && t.Complete() && t.blockCount == t0.blockCount && t.chunkRatio == t0.chunkRatio
    ensures |t.entries| == |t0.entries|
    ensures Placed(data, t, keep, l.disk.BlockSize()) && Placed(data, t0, keep, l.disk.BlockSize())
  {
  }

  // ---- Stopped anywhere ----

  /** Through the old entry, every sector the child lacks has its old bytes. */
  ghost predicate OldWhereLacking(data0: Buffer, e0: BatEntry, data: Buffer, r: BlockRead, n: nat, ss: nat) {
    HasSlot(e0) ==>
      && e0.FileOffset() + n * ss <= |data0| && e0.FileOffset() + n * ss <= |data|
      && (e0.State() == PARTIALLY_PRESENT || r.Absent? ==> Same(data0, data, e0.FileOffset(), n * ss))
      && (r.Partial? ==> KeptSectors(Slice(data0, e0.FileOffset(), n * ss), Slice(data, e0.FileOffset(), n * ss), r.bitmap, n, ss))
  }

  /** The sectors whose bit is clear are the same. */
  ghost predicate KeptSectors(was: Buffer, now: Buffer, bitmap: Buffer, n: nat, ss: nat) {
    forall i :: 0 <= i < n && !BitIsSet(bitmap, i) ==> Sector(now, i, ss) == Sector(was, i, ss)
  }

  /** A parent whose merge stopped, between blocks or inside the write of one: the regions and bitmaps are as before. */
  ghost predicate Halted(data0: Buffer, t0: Table, data: Buffer, keep: seq<Area>, l: Link) {
    && l.Valid() && t0.Complete()
    && (forall b :: 0 <= b < t0.blockCount ==>
          OldWhereLacking(data0, EntryOf(t0.entries, t0.chunkRatio, b), data, Added(l, b, l.disk.BlockCount()),
                          l.disk.SectorsPerBlock(), l.disk.SectorSize()))
    && AreasKept(data0, data, keep)
  }

  lemma MergedKeepsOld(data0: Buffer, e0: BatEntry, data: Buffer, r: BlockRead, n: nat, ss: nat)
    requires OldOrMerged(data0, e0, data, r, n, ss)
    requires HasSlot(e0) ==> e0.FileOffset() + n * ss <= |data0|
    ensures OldWhereLacking(data0, e0, data, r, n, ss)
  {
    hide BatEntry.FileOffset, BatEntry.State, Sector, BitIsSet;
  }

  /** A merge stopped between blocks. */
  lemma HalfMergedIsHalted(data0: Buffer, t0: Table, data: Buffer, keep: seq<Area>, l: Link)
    requires HalfMerged(data0, t0, data, keep, l) && Placed(data0, t0, keep, l.disk.BlockSize())
    ensures Halted(data0, t0, data, keep, l)
  {
    hide ReadBlock, OldOrMerged, EntryOf, HasSlot, OldWhereLacking;
    SectorInBlock(l, 0);
    var n, ss := l.disk.SectorsPerBlock(), l.disk.SectorSize();
    forall b | 0 <= b < t0.blockCount
      ensures OldWhereLacking(data0, EntryOf(t0.entries, t0.chunkRatio, b), data, Added(l, b, l.disk.BlockCount()), n, ss)
    {
      SlotIs(t0, b);
      MergedKeepsOld(data0, EntryOf(t0.entries, t0.chunkRatio, b), data, Added(l, b, l.disk.BlockCount()), n, ss);
    }
  }

  /** A write of `buf` at `off`, cut short: each byte in its range is the old or the new one, and all others are old. */
  ghost predicate TornInto(data: Buffer, after: Buffer, off: nat, buf: Buffer) {
    && |data| <= |after| <= Max(|data|, off + |buf|)
    && forall j: nat :: j < |after| ==> after[j] == At(data, j) || (off <= j < off + |buf| && after[j] == buf[j - off])
  }

  lemma TornKeepsRange(data: Buffer, after: Buffer, off: nat, buf: Buffer, at: nat, n: nat)
    requires TornInto(data, after, off, buf) && at + n <= |data|
    requires n == 0 || at + n <= off || off + |buf| <= at
    ensures Same(data, after, at, n)
  {
    forall k | 0 <= k < n
      ensures Slice(after, at, n)[k] == Slice(data, at, n)[k]
    {
      assert after[at + k] == At(data, at + k);
    }
  }

  /** A sector that is the same before and in the block being written is the same however the write is torn. */
  lemma TornSector(data0: Buffer, data: Buffer, after: Buffer, off: nat, buf: Buffer, n: nat, ss: nat, i: nat)
    requires TornInto(data, after, off, buf) && |buf| == n * ss && i < n
    requires Same(data0, data, off, n * ss) && Sector(buf, i, ss) == Sector(Slice(data0, off, n * ss), i, ss)
    ensures off + n * ss <= |after| && Sector(Slice(after, off, n * ss), i, ss) == Sector(Slice(data0, off, n * ss), i, ss)
  {
    SectorInside(i, n, ss);
    var was, now := Slice(data0, off, n * ss), Slice(after, off, n * ss);
    forall k | 0 <= k < ss
      ensures Sector(now, i, ss)[k] == Sector(was, i, ss)[k]
    {
      SectorByte(now, i, k, n, ss);
      SectorByte(was, i, k, n, ss);
      SectorByte(buf, i, k, n, ss);
      SectorByte(Slice(data, off, n * ss), i, k, n, ss);
      TornByte(data, after, off, buf, i * ss + k);
    }
  }

  lemma TornByte(data: Buffer, after: Buffer, off: nat, buf: Buffer, j: nat)
    requires TornInto(data, after, off, buf) && j < |buf| && off + j < |data|
    ensures after[off + j] == data[off + j] || after[off + j] == buf[j]
  {
  }

  /** The block being written when the merge stops. */
  lemma TornSlot(data0: Buffer, e0: BatEntry, data: Buffer, after: Buffer, off: nat, buf: Buffer, r: BlockRead, n: nat, ss: nat)
    requires TornInto(data, after, off, buf) && |buf| == n * ss
    requires OldOrMerged(data0, e0, data, Absent, n, ss)
    requires e0.State() == FULLY_PRESENT ==> off == e0.FileOffset()
    requires e0.State() != FULLY_PRESENT && HasSlot(e0) ==> RangesApart(e0.FileOffset(), off, n * ss)
    requires MergedBytes(buf, r, Base(data0, e0, n * ss), n, ss)
    ensures OldWhereLacking(data0, e0, after, r, n, ss)
  {
    hide BatEntry.FileOffset, BatEntry.State, Sector, BitIsSet;
    if e0.State() == FULLY_PRESENT {
      if r.Partial? {
        forall i | 0 <= i < n && !BitIsSet(r.bitmap, i)
          ensures Sector(Slice(after, off, n * ss), i, ss) == Sector(Slice(data0, off, n * ss), i, ss)
        {
          TornSector(data0, data, after, off, buf, n, ss, i);
        }
      }
    } else if HasSlot(e0) {
      TornKeepsRange(data, after, off, buf, e0.FileOffset(), n * ss);
      SameAgain(data0, data, after, e0.FileOffset(), n * ss);
    }
  }

  /** A merge that stops inside the write of a block, however that write is torn. */
  lemma TornStoreIsHalted(data0: Buffer, t0: Table, data: Buffer, t: Table, keep: seq<Area>, l: Link, count: nat, off: nat,
                          buf: Buffer, after: Buffer)
    requires Stage(data0, t0, data, t, keep, l, count) && count < t0.blockCount == l.disk.BlockCount()
    requires ReadBlock(l.disk, l.data, count).Ok? && |buf| == l.disk.BlockSize()
    requires SlotChosen(EntryOf(t0.entries, t0.chunkRatio, count), off, t0, keep, |buf|, count)
    requires MergedBytes(buf, ReadBlock(l.disk, l.data, count).value, Base(data0, EntryOf(t0.entries, t0.chunkRatio, count), |buf|),
                         l.disk.SectorsPerBlock(), l.disk.SectorSize())
    requires TornInto(data, after, off, buf)
    ensures Halted(data0, t0, after, keep, l)
  {
    hide ReadBlock, MergedSoFar, OldOrMerged, EntryOf, HasSlot, OldWhereLacking, TornInto, MergedBytes, Base, BatEntry.State,
      BatEntry.FileOffset;
    SectorInBlock(l, 0);
    var n, ss := l.disk.SectorsPerBlock(), l.disk.SectorSize();
    forall b | 0 <= b < t0.blockCount
      ensures OldWhereLacking(data0, EntryOf(t0.entries, t0.chunkRatio, b), after, Added(l, b, l.disk.BlockCount()), n, ss)
    {
      var e0 := EntryOf(t0.entries, t0.chunkRatio, b);
      SlotIs(t0, b);
      if b == count {
        OldBytesUnder(data0, t0, data, l, count, e0);
        TornSlot(data0, e0, data, after, off, buf, ReadBlock(l.disk, l.data, count).value, n, ss);
      } else {
        if HasSlot(e0) {
          TornKeepsRange(data, after, off, buf, e0.FileOffset(), n * ss);
        }
        StillOldOrMerged(data0, e0, data, after, Added(l, b, count), n, ss);
        LaterAdded(data0, e0, after, l, b, count, n, ss);
        MergedKeepsOld(data0, e0, after, Added(l, b, l.disk.BlockCount()), n, ss);
      }
    }
    forall k | 0 <= k < |keep|
      ensures Same(data0, after, keep[k].off, keep[k].len)
    {
      TornKeepsRange(data, after, off, buf, keep[k].off, keep[k].len);
      SameAgain(data0, data, after, keep[k].off, keep[k].len);
    }
  }

  /** What holds of a block before it is merged holds of it in the end. */
  lemma LaterAdded(data0: Buffer, e0: BatEntry, data: Buffer, l: Link, b: nat, count: nat, n: nat, ss: nat)
    requires l.Valid() && b < l.disk.BlockCount() && OldOrMerged(data0, e0, data, Added(l, b, count), n, ss)
    ensures OldOrMerged(data0, e0, data, Added(l, b, l.disk.BlockCount()), n, ss)
  {
    hide ReadBlock, OldOrMerged;
    if b >= count {
      AbsentIsOld(data0, e0, data, Added(l, b, l.disk.BlockCount()), n, ss);
    }
  }
}
