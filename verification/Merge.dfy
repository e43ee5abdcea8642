/** Merging a child into its parent, in place (merge.rs). */
module Merge {
  import opened Wrappers
  import opened Bytes
  import opened FileIo
  import opened Format
  import opened Headers
  import opened Regions
  import opened BlockTable
  import opened MetadataRegion
  import opened Disks
  import opened ChainView
  import opened Composite
  import opened Images
  import opened ImageBlocks
  import opened Writer
  import opened Placement
  import opened MergeBlocks
  import opened MergeView
  import opened HeaderBytes

  datatype MergeReport = MergeReport(blocksCopied: nat, partialSectorsCopied: nat)

  // ---- Reports ----

  function SetBits(bm: Buffer, n: nat): nat {
    if n == 0 then 0 else SetBits(bm, n - 1) + if BitIsSet(bm, n - 1) then 1 else 0
  }

  /** Blocks copied, and sectors copied one by one, for the first `count` blocks of the child. */
  function Copied(l: Link, count: nat): MergeReport
    requires l.Valid()
  {
    if count == 0 then MergeReport(0, 0)
    else
      var rest := Copied(l, count - 1);
      match ReadBlock(l.disk, l.data, count - 1)
      case Ok(Full(_)) => rest.(blocksCopied := rest.blocksCopied + 1)
      case Ok(Partial(_, bm)) =>
        MergeReport(rest.blocksCopied + 1, rest.partialSectorsCopied + SetBits(bm, l.disk.SectorsPerBlock()))
      case _ => rest
  }

  /** Blocks the child has, and of a partially present block the sectors whose bit is set. */
  ghost function BlocksHad(l: Link, count: nat): set<nat>
    requires l.Valid()
  {
    set b: nat | b < count && ReadBlock(l.disk, l.data, b).Ok? && !ReadBlock(l.disk, l.data, b).value.Absent?
  }

  ghost function SectorsHad(l: Link, count: nat): set<(nat, nat)>
    requires l.Valid()
  {
    set b: nat, i: nat | b < count && i < l.disk.SectorsPerBlock() && PartialHas(ReadBlock(l.disk, l.data, b), i) :: (b, i)
  }

  predicate PartialHas(r: Result<BlockRead>, i: nat) {
    r.Ok? && r.value.Partial? && BitIsSet(r.value.bitmap, i)
  }

  ghost function BitsOf(bm: Buffer, n: nat, b: nat): set<(nat, nat)> {
    set i: nat | i < n && BitIsSet(bm, i) :: (b, i)
  }

  lemma {:induction false} SetBitsIs(bm: Buffer, n: nat, b: nat)
    ensures SetBits(bm, n) == |BitsOf(bm, n, b)|
  {
    hide BitIsSet;
    if n > 0 {
      SetBitsIs(bm, n - 1, b);
      if BitIsSet(bm, n - 1) {
        assert BitsOf(bm, n, b) == BitsOf(bm, n - 1, b) + {(b, n - 1)};
      } else {
        assert BitsOf(bm, n, b) == BitsOf(bm, n - 1, b);
      }
    }
  }

  lemma BlocksHadNext(l: Link, b: nat)
    requires l.Valid()
    ensures
      var r := ReadBlock(l.disk, l.data, b);
      |BlocksHad(l, b + 1)| == |BlocksHad(l, b)| + if r.Ok? && !r.value.Absent? then 1 else 0
  {
    hide ReadBlock;
    var r := ReadBlock(l.disk, l.data, b);
    assert BlocksHad(l, b + 1) == BlocksHad(l, b) + if r.Ok? && !r.value.Absent? then {b} else {};
  }

  lemma SectorsHadNext(l: Link, b: nat)
    requires l.Valid()
    ensures
      var r := ReadBlock(l.disk, l.data, b);
      |SectorsHad(l, b + 1)| ==
      |SectorsHad(l, b)| + if r.Ok? && r.value.Partial? then SetBits(r.value.bitmap, l.disk.SectorsPerBlock()) else 0
  {
    hide ReadBlock, BitIsSet, SetBits, VhdxDisk.SectorsPerBlock;
    var r, n := ReadBlock(l.disk, l.data, b), l.disk.SectorsPerBlock();
    var bits := if r.Ok? && r.value.Partial? then BitsOf(r.value.bitmap, n, b) else {};
    assert SectorsHad(l, b + 1) == SectorsHad(l, b) + bits;
    assert SectorsHad(l, b) !! bits;
    if r.Ok? && r.value.Partial? {
      SetBitsIs(r.value.bitmap, n, b);
    }
  }

  /** The report counts exactly those. */
  lemma {:induction false} CopiedCounts(l: Link, count: nat)
    requires l.Valid()
    ensures Copied(l, count) == MergeReport(|BlocksHad(l, count)|, |SectorsHad(l, count)|)
  {
    hide ReadBlock, SetBits, VhdxDisk.SectorsPerBlock, PartialHas;
    if count > 0 {
      CopiedCounts(l, count - 1);
      BlocksHadNext(l, count - 1);
      SectorsHadNext(l, count - 1);
      assert count - 1 + 1 == count;
    }
  }

  // ---- The block loop ----

  /** The slot for a block: its own when it is fully present, else a new one at the end of the file. */
  method ChooseSlot(parent: File, bat: Bat, blk: nat, bs: nat) returns (off: nat)
    requires bat.Value().Complete() && blk < bat.blockCount
    modifies parent
    ensures
      var e := EntryOf(bat.entries, bat.chunkRatio, blk);
      var reuse := e.State() == FULLY_PRESENT && e.FileOffset() != 0;
      && off == (if reuse then e.FileOffset() else |old(parent.data)|)
      && parent.data == (if reuse then old(parent.data) else Resized(old(parent.data), |old(parent.data)| + bs))
  {
    var e := bat.entries[PayloadIndex(blk, bat.chunkRatio)];
    if e.Payload() == FullyPresent && e.FileOffset() != 0 {
      return e.FileOffset();
    }
    off := |parent.data|;
    parent.SetLen(|parent.data| + bs);
  }

  /** The child's sectors over the parent's block. */
  method OverlaySectors(base: Buffer, payload: Buffer, bitmap: Buffer, n: nat, ss: nat) returns (block: Buffer, copied: nat)
    requires |base| == |payload| == n * ss
    ensures IsOverlay(block, payload, bitmap, base, n, ss)
    ensures copied == SetBits(bitmap, n)
  {
    hide BitIsSet, Sector;
    var composite := new Byte[n * ss](i requires 0 <= i < |base| => base[i]);
    assert composite[..] == base;
    copied := 0;
    for s := 0 to n
      invariant copied == SetBits(bitmap, s)
      invariant forall i :: 0 <= i < n ==>
                  Sectors(composite[..], n, ss)[i] == Sector(if i < s && BitIsSet(bitmap, i) then payload else base, i, ss)
    {
      if BitIsSet(bitmap, s) {
        SectorInside(s, n, ss);
        SectorIsSlice(payload, s, ss);
        CopySector(composite, s, n, ss, Slice(payload, s * ss, ss));
        copied := copied + 1;
      }
    }
    block := composite[..];
  }

  /** The parent's block, read back when the merged block goes into its slot; else zeros. */
  method ReadBase(parent: File, e: BatEntry, off: nat, bs: nat) returns (r: Result<Buffer>)
    requires e.State() == FULLY_PRESENT && e.FileOffset() == off ==> off + bs <= |parent.data|
    requires bs > 0
    ensures r == Ok(if e.State() == FULLY_PRESENT && e.FileOffset() == off then Slice(parent.data, off, bs) else Zeros(bs))
  {
    if e.Payload() == FullyPresent && e.FileOffset() == off {
      r := parent.ReadExactAt(off, bs);
    } else {
      r := Ok(Zeros(bs));
    }
  }

  /** The merged content of a block the child has. */
  method MergedContent(read: BlockRead, parent: File, e: BatEntry, off: nat, n: nat, ss: nat) returns (buf: Buffer, sectors: nat)
    requires !read.Absent? && n * ss > 0
    requires read.Full? ==> |read.data| == n * ss
    requires read.Partial? ==> |read.payload| == n * ss
    requires off + n * ss <= |parent.data|
    requires if e.State() == FULLY_PRESENT then e.FileOffset() == off else e.FileOffset() != off || !HasSlot(e)
    ensures |buf| == n * ss
    ensures MergedBytes(buf, read, if e.State() == FULLY_PRESENT then Slice(parent.data, off, n * ss) else Zeros(n * ss), n, ss)
    ensures sectors == if read.Partial? then SetBits(read.bitmap, n) else 0
  {
    match read {
      case Full(b) =>
        buf, sectors := b, 0;
      case Partial(p, bm) =>
        var base := ReadBase(parent, e, off, n * ss);
        buf, sectors := OverlaySectors(base.value, p, bm, n, ss);
    }
  }

  /** Chooses the slot of a block, extending the file for a new one. */
  method ReserveSlot(parent: File, bat: Bat, blk: nat, bs: nat,
                     ghost data0: Buffer, ghost t0: Table, ghost keep: seq<Area>, ghost l: Link)
    returns (off: nat)
    requires Stage(data0, t0, parent.data, bat.Value(), keep, l, blk) && blk < t0.blockCount
    requires bs == l.disk.BlockSize() && bs % MIB == 0 && |parent.data| % MIB == 0
    requires |keep| > 0 && keep[0] == Area(0, MIB)
    modifies parent
    ensures Stage(data0, t0, parent.data, bat.Value(), keep, l, blk)
    ensures bat.Value().Complete() && blk < bat.blockCount && t0.Complete()
    ensures Free(bat.Value(), keep, bs, blk, off)
    ensures SlotChosen(EntryOf(t0.entries, t0.chunkRatio, blk), off, t0, keep, bs, blk)
    ensures EntryOf(bat.entries, bat.chunkRatio, blk) == EntryOf(t0.entries, t0.chunkRatio, blk)
    ensures
      var e := EntryOf(bat.entries, bat.chunkRatio, blk);
      if e.State() == FULLY_PRESENT then e.FileOffset() == off else e.FileOffset() != off || !HasSlot(e)
    ensures off % MIB == 0 && off + bs <= |parent.data|
    ensures parent.data == old(parent.data) || parent.data == Resized(old(parent.data), |old(parent.data)| + bs)
    ensures |parent.data| % MIB == 0 && |old(parent.data)| <= |parent.data| <= |old(parent.data)| + bs
  {
    hide ReadBlock, MergedSoFar, Underway, Placed, AreasKept, Free, SlotChosen, BatEntry.State, BatEntry.FileOffset, EntryOf;
    ghost var before := parent.data;
    StagesAgree(data0, t0, before, bat.Value(), keep, l, blk);
    SameEntry(data0, t0, before, bat.Value(), keep, l, blk);
    SlotInside(before, bat.Value(), keep, bs, blk);
    off := ChooseSlot(parent, bat, blk, bs);
    ChosenSlotFree(before, t0, keep, bs, blk, off);
    ChosenSlotFree(before, bat.Value(), keep, bs, blk, off);
    if parent.data != before {
      GrowStage(data0, t0, before, bat.Value(), keep, l, blk, |before| + bs);
      AlignedSum(|before|, bs);
    }
  }

  /**
   * Merges one block the child has. The block is written over `at`, the file as extended; if that write is torn in any way
   * the parent is halted, not harmed.
   */
  method MergeOne(parent: File, bat: Bat, blk: nat, read: BlockRead, bs: nat, ss: nat, n: nat,
                  ghost data0: Buffer, ghost t0: Table, ghost keep: seq<Area>, ghost l: Link)
    returns (sectors: nat, ghost at: Buffer, ghost off: nat, ghost buf: Buffer)
    requires Stage(data0, t0, parent.data, bat.Value(), keep, l, blk) && blk < t0.blockCount == l.disk.BlockCount()
    requires ReadBlock(l.disk, l.data, blk) == Ok(read) && !read.Absent?
    requires bs == l.disk.BlockSize() == n * ss && ss == l.disk.SectorSize() && n == l.disk.SectorsPerBlock()
    requires bs % MIB == 0 && |parent.data| % MIB == 0 && |parent.data| + bs < U64
    requires |keep| > 0 && keep[0] == Area(0, MIB)
    modifies parent, bat
    ensures Stage(data0, t0, parent.data, bat.Value(), keep, l, blk + 1)
    ensures |parent.data| % MIB == 0 && |old(parent.data)| <= |parent.data| <= |old(parent.data)| + bs
    ensures sectors == if read.Partial? then SetBits(read.bitmap, n) else 0
    ensures (at == old(parent.data) || at == Resized(old(parent.data), |old(parent.data)| + bs)) && parent.data == Written(at, off, buf)
    ensures forall after :: TornInto(at, after, off, buf) ==> Halted(data0, t0, after, keep, l)
  {
    hide ReadBlock, MergedSoFar, Underway, Placed, AreasKept, MergedBytes, Free, SlotChosen, BatEntry.State, BatEntry.FileOffset,
      NewEntry, Base, Stage;
    StagesAgree(data0, t0, parent.data, bat.Value(), keep, l, blk);
    ReadLength(l, blk);
    var slot := ReserveSlot(parent, bat, blk, bs, data0, t0, keep, l);
    off, at := slot, parent.data;
    StageBase(data0, t0, parent.data, bat.Value(), keep, l, blk);
    var e := bat.entries[PayloadIndex(blk, bat.chunkRatio)];
    var content: Buffer;
    content, sectors := MergedContent(read, parent, e, slot, n, ss);
    buf := content;
    EntryUnpacks(FULLY_PRESENT, slot);
    var f := NewEntry(FULLY_PRESENT, slot);
    TornAnywhere(data0, t0, parent.data, bat.Value(), keep, l, blk, slot, content);
    StoreStage(data0, t0, parent.data, bat.Value(), keep, l, blk, f, content);
    parent.WriteAllAt(slot, content);
    bat.SetPayloadEntry(blk, f);
  }

  /** However the write of a block is torn, the merge has only stopped. */
  lemma TornAnywhere(data0: Buffer, t0: Table, data: Buffer, t: Table, keep: seq<Area>, l: Link, count: nat, off: nat, buf: Buffer)
    requires Stage(data0, t0, data, t, keep, l, count) && count < t0.blockCount == l.disk.BlockCount()
    requires ReadBlock(l.disk, l.data, count).Ok? && |buf| == l.disk.BlockSize()
    requires SlotChosen(EntryOf(t0.entries, t0.chunkRatio, count), off, t0, keep, |buf|, count)
    requires MergedBytes(buf, ReadBlock(l.disk, l.data, count).value, Base(data0, EntryOf(t0.entries, t0.chunkRatio, count), |buf|),
                         l.disk.SectorsPerBlock(), l.disk.SectorSize())
    ensures forall after :: TornInto(data, after, off, buf) ==> Halted(data0, t0, after, keep, l)
  {
    hide Halted, TornInto;
    forall after | TornInto(data, after, off, buf)
      ensures Halted(data0, t0, after, keep, l)
    {
      TornStoreIsHalted(data0, t0, data, t, keep, l, count, off, buf, after);
    }
  }

  lemma ReadLength(l: Link, blk: nat)
    requires l.Valid() && ReadBlock(l.disk, l.data, blk).Ok?
    ensures l.disk.BlockSize() > 0
    ensures ReadBlock(l.disk, l.data, blk).value.Full? ==> |ReadBlock(l.disk, l.data, blk).value.data| == l.disk.BlockSize()
    ensures ReadBlock(l.disk, l.data, blk).value.Partial? ==> |ReadBlock(l.disk, l.data, blk).value.payload| == l.disk.BlockSize()
  {
    hide ReadBlock;
  }

  /** Until a block is merged the table in memory has its old entry. */
  lemma SameEntry(data0: Buffer, t0: Table, data: Buffer, t: Table, keep: seq<Area>, l: Link, blk: nat)
    requires Stage(data0, t0, data, t, keep, l, blk) && blk < t0.blockCount
    ensures t0.Complete() && t.Complete()
    ensures t.blockCount == t0.blockCount && EntryOf(t.entries, t.chunkRatio, blk) == EntryOf(t0.entries, t0.chunkRatio, blk)
  {
    hide ReadBlock;
    assert Added(l, blk, blk) == Absent;
  }

  lemma SlotInside(data: Buffer, t: Table, keep: seq<Area>, bs: nat, blk: nat)
    requires Placed(data, t, keep, bs) && blk < t.blockCount && |keep| > 0 && keep[0] == Area(0, MIB)
    ensures
      var e := EntryOf(t.entries, t.chunkRatio, blk);
      e.FileOffset() % MIB == 0 && (HasSlot(e) ==> MIB <= e.FileOffset() && e.FileOffset() + bs <= |data|)
  {
    SlotIs(t, blk);
  }

  lemma ChosenSlotFree(data: Buffer, t: Table, keep: seq<Area>, bs: nat, blk: nat, off: nat)
    requires Placed(data, t, keep, bs) && blk < t.blockCount
    requires
      var e := EntryOf(t.entries, t.chunkRatio, blk);
      off == if e.State() == FULLY_PRESENT then e.FileOffset() else |data|
    ensures Free(t, keep, bs, blk, off)
    ensures SlotChosen(EntryOf(t.entries, t.chunkRatio, blk), off, t, keep, bs, blk)
  {
    SlotIs(t, blk);
    if Slot(t, blk).Some? && EntryOf(t.entries, t.chunkRatio, blk).State() == FULLY_PRESENT {
      OwnSlotIsFree(data, t, keep, bs, blk);
    } else {
      EndIsFree(data, t, keep, bs, blk, off);
    }
  }

  /** What is read back under a partial block is the parent's original block. */
  lemma StageBase(data0: Buffer, t0: Table, data: Buffer, t: Table, keep: seq<Area>, l: Link, blk: nat)
    requires Stage(data0, t0, data, t, keep, l, blk) && blk < t0.blockCount
    ensures
      var e0 := EntryOf(t0.entries, t0.chunkRatio, blk);
      && (e0.State() == FULLY_PRESENT ==> e0.FileOffset() + l.disk.BlockSize() <= |data|)
      && Base(data0, e0, l.disk.BlockSize()) ==
         if e0.State() == FULLY_PRESENT then Slice(data, e0.FileOffset(), l.disk.BlockSize()) else Zeros(l.disk.BlockSize())
  {
    SectorInBlock(l, 0);
    var e0 := EntryOf(t0.entries, t0.chunkRatio, blk);
    OldBytesUnder(data0, t0, data, l, blk, e0);
    SlotIs(t0, blk);
    hide ReadBlock, Underway, EntryOf, BatEntry.State, BatEntry.FileOffset, IsOverlay, MergedSoFar;
  }

  /** Merges every block the child has. If a block cannot be read the table in the file is still the old one. */
  method MergeBlocksOf(child: File, childDisk: VhdxDisk, parent: File, bat: Bat,
                       ghost data0: Buffer, ghost t0: Table, ghost keep: seq<Area>)
    returns (r: Result<MergeReport>)
    requires child != parent && Link(childDisk, child.data).Valid()
    requires Stage(data0, t0, parent.data, bat.Value(), keep, Link(childDisk, child.data), 0)
    requires t0.blockCount == childDisk.BlockCount()
    requires childDisk.BlockSize() % MIB == 0 && |parent.data| % MIB == 0
    requires |parent.data| + childDisk.BlockCount() * childDisk.BlockSize() < U64
    requires |keep| > 0 && keep[0] == Area(0, MIB)
    modifies parent, bat
    ensures child.data == old(child.data)
    ensures r.Ok? <==> AllBlocksRead(Link(childDisk, child.data), childDisk.BlockCount())
    ensures r.Ok? ==> Stage(data0, t0, parent.data, bat.Value(), keep, Link(childDisk, child.data), childDisk.BlockCount())
    ensures r.Ok? ==> r.value == Copied(Link(childDisk, child.data), childDisk.BlockCount())
    ensures r.Err? ==> HalfMerged(data0, t0, parent.data, keep, Link(childDisk, child.data))
  {
    hide ReadBlock, Stage, Copied, AllBlocksRead, HalfMerged;
    ghost var l := Link(childDisk, child.data);
    SectorInBlock(l, 0);
    var bs, ss, n, count := childDisk.BlockSize(), childDisk.SectorSize(), childDisk.SectorsPerBlock(), childDisk.BlockCount();
    ghost var len := |parent.data|;
    r := Ok(MergeReport(0, 0));
    CopiedStarts(l);
    for blk := 0 to count
      invariant child.data == l.data && r.Ok?
      invariant Stage(data0, t0, parent.data, bat.Value(), keep, l, blk)
      invariant |parent.data| % MIB == 0 && |parent.data| <= len + blk * bs
      invariant r.value == Copied(l, blk)
      invariant AllBlocksRead(l, blk)
    {
      var read := ReadBlockFrom(childDisk, child, blk);
      CopiedNext(l, blk, count);
      if read.Err? {
        HaltedStage(data0, t0, parent.data, bat.Value(), keep, l, blk);
        return Err(read.error);
      }
      RoomLeft(len, blk, count, bs);
      if read.value.Absent? {
        SkipStage(data0, t0, parent.data, bat.Value(), keep, l, blk);
      } else {
        var sectors, at, off, buf := MergeOne(parent, bat, blk, read.value, bs, ss, n, data0, t0, keep, l);
        r := Ok(MergeReport(r.value.blocksCopied + 1, r.value.partialSectorsCopied + sectors));
      }
    }
  }

  lemma RoomLeft(len: nat, blk: nat, count: nat, bs: nat)
    requires blk < count && len + count * bs < U64
    ensures len + blk * bs + bs < U64 && (blk + 1) * bs == blk * bs + bs
  {
    MulMonotone(bs, blk + 1, count);
    assert bs * (blk + 1) == blk * bs + bs && bs * count == count * bs;
  }

  lemma CopiedStarts(l: Link)
    requires l.Valid()
    ensures Copied(l, 0) == MergeReport(0, 0) && AllBlocksRead(l, 0)
  {
  }

  lemma CopiedNext(l: Link, blk: nat, count: nat)
    requires l.Valid() && blk < count && AllBlocksRead(l, blk)
    ensures ReadBlock(l.disk, l.data, blk).Err? ==> !AllBlocksRead(l, count)
    ensures ReadBlock(l.disk, l.data, blk).Ok? ==> AllBlocksRead(l, blk + 1)
    ensures
      var c := Copied(l, blk);
      Copied(l, blk + 1) ==
      match ReadBlock(l.disk, l.data, blk)
      case Ok(Full(_)) => MergeReport(c.blocksCopied + 1, c.partialSectorsCopied)
      case Ok(Partial(_, bm)) =>
        MergeReport(c.blocksCopied + 1, c.partialSectorsCopied + SetBits(bm, l.disk.SectorsPerBlock()))
      case _ => c
  {
    hide ReadBlock;
  }

  lemma HaltedStage(data0: Buffer, t0: Table, data: Buffer, t: Table, keep: seq<Area>, l: Link, blk: nat)
    requires Stage(data0, t0, data, t, keep, l, blk) && blk <= t0.blockCount
    requires t0.blockCount == l.disk.BlockCount()
    ensures HalfMerged(data0, t0, data, keep, l)
  {
    hide ReadBlock, MergedSoFar, Placed, OldOrMerged, EntryOf;
    var n, ss := l.disk.SectorsPerBlock(), l.disk.SectorSize();
    forall b | 0 <= b < t0.blockCount
      ensures OldOrMerged(data0, EntryOf(t0.entries, t0.chunkRatio, b), data, Added(l, b, l.disk.BlockCount()), n, ss)
    {
      if b >= blk {
        AbsentIsOld(data0, EntryOf(t0.entries, t0.chunkRatio, b), data, Added(l, b, l.disk.BlockCount()), n, ss);
      }
    }
  }

  // ---- Committing ----

  /** What is written over the table's region. */
  function TableBytes(bat: RegionEntry, t: Table): (b: Buffer)
    requires 8 * |t.entries| <= bat.length
    ensures |b| == bat.length
  {
    EncodeEntries(t.entries) + Zeros(bat.length - 8 * |t.entries|)
  }

  /** The file after the table and both headers are written. */
  function Committed(data: Buffer, bat: RegionEntry, t: Table, next: Header): Buffer
    requires 8 * |t.entries| <= bat.length
  {
    Updated(Updated(Written(data, bat.fileOffset, TableBytes(bat, t)), next), next)
  }

  /** Stores the table, then writes the new identity twice from the header read at the start. */
  method Commit(parent: File, bat: Bat, region: RegionEntry, active: Header, dataGuid: Guid, fileGuid: Guid)
    requires 8 * |bat.entries| <= region.length
    modifies parent
    ensures parent.data == Committed(old(parent.data), region, bat.Value(), NewIdentity(active, dataGuid, fileGuid))
  {
    hide EncodeEntries, EncodeHeader, TargetIndex;
    var raw := bat.EncodeTable();
    var buf := Zeros(region.length);
    buf := raw + buf[|raw|..];
    assert Zeros(region.length)[|raw|..] == Zeros(region.length - |raw|);
    parent.WriteAllAt(region.fileOffset, buf);
    var mutate := (h: Header) => h.(dataWriteGuid := dataGuid, fileWriteGuid := fileGuid, logGuid := NIL);
    var first := WriteNew(parent, active, mutate);
    var second := WriteNew(parent, active, mutate);
  }

  function NewIdentity(active: Header, dataGuid: Guid, fileGuid: Guid): Header {
    Successor(active, (h: Header) => h.(dataWriteGuid := dataGuid, fileWriteGuid := fileGuid, logGuid := NIL))
  }

  /** The commit writes the table and the headers and nothing else. */
  lemma CommitKeepsRest(data: Buffer, bat: RegionEntry, t: Table, next: Header)
    requires 8 * |t.entries| <= bat.length && MIB <= |data| && bat.fileOffset + bat.length <= |data|
    ensures RestKept(data, Committed(data, bat, t, next), bat.fileOffset, bat.length)
  {
    hide EncodeEntries, EncodeHeader, TargetIndex;
  }

  lemma TableKeepsRange(data: Buffer, off: nat, table: Buffer, at: nat, n: nat)
    requires at + n <= |data| && (n == 0 || Area(off, |table|).ClearOf(at, n))
    ensures Same(data, Written(data, off, table), at, n)
  {
    if n > 0 && table != [] {
      WrittenKeeps(data, off, table, at, n);
    }
  }

  /** Both headers end up new, and the table reads back. */
  lemma CommitReads(data: Buffer, bat: RegionEntry, t: Table, active: Header, dataGuid: Guid, fileGuid: Guid, hasParent: bool)
    requires 8 * |t.entries| <= bat.length && MIB <= |data| && bat.fileOffset + bat.length <= |data|
    requires Area(bat.fileOffset, bat.length).ClearOf(0, MIB)
    requires t.chunkRatio > 0 && |t.entries| == TotalEntries(t.blockCount, t.chunkRatio, hasParent)
    requires ReadPair(data).Ok? && ReadPair(data).value.Active() == active && active.sequenceNumber + 1 < U64
    ensures
      var next := NewIdentity(active, dataGuid, fileGuid);
      var after := Committed(data, bat, t, next);
      && |after| == |data|
      && SlotsOf(after) == Slots(Some(Content(next)), Some(Content(next)))
      && ReadExact(after, bat.fileOffset, bat.length).Ok?
      && ParseTable(ReadExact(after, bat.fileOffset, bat.length).value, t.blockCount, t.chunkRatio, hasParent) == t
  {
    hide EncodeEntries, EncodeHeader, TargetIndex, ReadPair, ParseHeader, ParseTable, SlotsOf, NewIdentity;
    var next := NewIdentity(active, dataGuid, fileGuid);
    var table := TableBytes(bat, t);
    var d2 := Written(data, bat.fileOffset, table);
    var d3 := Updated(d2, next);
    TableKeepsRange(data, bat.fileOffset, table, 0, MIB);
    SlotsByPrefix(data, d2);
    NewIdentityFollows(data, active, dataGuid, fileGuid);
    UpdatedSlots(d2, next);
    UpdatedSlots(d3, next);
    StaleDoubleWrite(SlotsOf(data), Content(next));
    TableRoundTrip(t, hasParent, Zeros(bat.length - 8 * |t.entries|));
    if bat.length > 0 {
      WrittenReadsBack(data, bat.fileOffset, table);
      UpdateKeepsRange(d2, next, bat.fileOffset, bat.length);
      UpdateKeepsRange(d3, next, bat.fileOffset, bat.length);
    } else {
      assert table == [];
    }
  }

  /** Both slots hold the old active header under the next sequence number, with the new GUIDs and no log. */
  predicate IdentityWritten(after: Buffer, was: Header, dataGuid: Guid, fileGuid: Guid) {
    && was.sequenceNumber + 1 < U64 && |after| >= 196608
    && GoodHeader(FirstHeader(after)) && GoodHeader(SecondHeader(after))
    && var now := was.(dataWriteGuid := dataGuid, fileWriteGuid := fileGuid, logGuid := NIL,
                       sequenceNumber := was.sequenceNumber + 1);
    HeaderIs(now, FirstHeader(after)) && HeaderIs(now, SecondHeader(after))
  }

  lemma SlotHolds(data: Buffer, i: nat, h: Header)
    requires i < 2 && |data| >= 196608 && SlotOf(data, i) == Some(Content(h))
    ensures
      var slot := if i == 0 then FirstHeader(data) else SecondHeader(data);
      GoodHeader(slot) && HeaderIs(h, slot)
  {
    hide ParseHeader, GoodHeader;
    var slot := if i == 0 then FirstHeader(data) else SecondHeader(data);
    assert Slice(data, HeaderOffset(i), HEADER_SIZE) == slot;
    ValidIff(slot);
    FieldsOf(slot);
  }

  lemma NewIdentityWritten(after: Buffer, was: Header, dataGuid: Guid, fileGuid: Guid)
    requires was.sequenceNumber + 1 < U64 && |after| >= 196608
    requires
      var next := Content(NewIdentity(was, dataGuid, fileGuid));
      SlotsOf(after) == Slots(Some(next), Some(next))
    ensures IdentityWritten(after, was, dataGuid, fileGuid)
  {
    hide SlotOf, GoodHeader;
    SlotHolds(after, 0, NewIdentity(was, dataGuid, fileGuid));
    SlotHolds(after, 1, NewIdentity(was, dataGuid, fileGuid));
  }

  /** Who states the old identity of a merged parent is no longer its child: the merge of a sibling is refused. */
  lemma SiblingRefused(after: Buffer, was: Header, dataGuid: Guid, fileGuid: Guid, sibling: Link)
    requires IdentityWritten(after, was, dataGuid, fileGuid) && dataGuid != was.dataWriteGuid && sibling.Valid()
    ensures !CanMerge(sibling, after, Some(was.dataWriteGuid))
  {
    hide GoodHeader, ReadPair, ReadRegions, LayoutValid, ReadTables, AllBlocksRead;
    IdentityReads(after, was, dataGuid, fileGuid);
    if OpenDisk(after, true).Ok? {
      assert ReadPair(after) == Ok(OpenDisk(after, true).value.headers);
    }
  }

  lemma IdentityReads(after: Buffer, was: Header, dataGuid: Guid, fileGuid: Guid)
    requires IdentityWritten(after, was, dataGuid, fileGuid)
    ensures ReadPair(after).Ok? && ReadPair(after).value.Active().dataWriteGuid == dataGuid
    ensures ReadPair(after).value.Active().fileWriteGuid == fileGuid
  {
    hide GoodHeader, ReadPair;
    HeaderPairIff(after);
  }

  lemma NewIdentityFollows(data: Buffer, active: Header, dataGuid: Guid, fileGuid: Guid)
    requires HeaderOffset(1) + HEADER_SIZE <= |data|
    requires ReadPair(data).Ok? && ReadPair(data).value.Active() == active && active.sequenceNumber + 1 < U64
    ensures
      var next := NewIdentity(active, dataGuid, fileGuid);
      && next.version == 1 && next.logVersion == 0
      && Follows(SlotsOf(data), Content(next))
      && next.logGuid == NIL
  {
    hide ParseHeader, TargetIndex;
    SlotsAbstract(data);
  }

  // ---- Reopening ----

  /** An image whose identifier, region tables and metadata are as before opens with the headers and the table it has now. */
  lemma Reopens(data0: Buffer, d: VhdxDisk, data: Buffer, pair: HeaderPair, t: Table)
    requires OpenDisk(data0, true) == Ok(d)
    requires Same(data0, data, 0, 8) && Same(data0, data, RegionTableOffset(0), REGION_TABLE_SIZE)
    requires Same(data0, data, RegionTableOffset(1), REGION_TABLE_SIZE)
    requires Same(data0, data, d.metadataRegion.fileOffset, d.metadataRegion.length)
    requires ReadPair(data) == Ok(pair)
    requires ReadExact(data, d.batRegion.fileOffset, d.batRegion.length).Ok?
    requires ParseTable(ReadExact(data, d.batRegion.fileOffset, d.batRegion.length).value,
                        d.BlockCount(), d.metadata.ChunkRatio(), d.HasParent()) == t
    ensures OpenDisk(data, true) == Ok(VhdxDisk(pair, d.regions, d.batRegion, d.metadataRegion, d.metadata, t, |data|))
    ensures pair.Active().logGuid == NIL ==> OpenDisk(data, false) == OpenDisk(data, true)
  {
    hide ParseTable, ParseMetadata, ParseRegions, ReadPair, LayoutValid, Find;
    SameRange(data0, data, 0, 8, 0, 8);
    SameRange(data0, data, RegionTableOffset(0), REGION_TABLE_SIZE, RegionTableOffset(0), REGION_TABLE_SIZE);
    SameRange(data0, data, RegionTableOffset(1), REGION_TABLE_SIZE, RegionTableOffset(1), REGION_TABLE_SIZE);
    SameRange(data0, data, d.metadataRegion.fileOffset, d.metadataRegion.length,
              d.metadataRegion.fileOffset, d.metadataRegion.length);
    assert ReadRegions(data) == ReadRegions(data0);
  }

  /** A parent left half merged opens as it did, but for its length. */
  lemma HalfMergedOpens(data0: Buffer, d: VhdxDisk, data: Buffer)
    requires OpenDisk(data0, true) == Ok(d) && AreasKept(data0, data, Kept(d)) && MIB <= |data0|
    ensures OpenDisk(data, true) == Ok(d.(fileLen := |data|))
  {
    hide ParseTable, ParseMetadata, ParseRegions, ReadPair, LayoutValid, Find, BitmapArea;
    assert Kept(d)[0] == Area(0, MIB);
    assert Kept(d)[1] == Area(d.batRegion.fileOffset, d.batRegion.length);
    assert Kept(d)[2] == Area(d.metadataRegion.fileOffset, d.metadataRegion.length);
    FixedRanges(data0, data);
    assert Same(data0, data, Kept(d)[1].off, Kept(d)[1].len) && Same(data0, data, Kept(d)[2].off, Kept(d)[2].len);
    SameRange(data0, data, d.batRegion.fileOffset, d.batRegion.length, d.batRegion.fileOffset, d.batRegion.length);
    Reopens(data0, d, data, d.headers, d.bat);
  }

  // ---- The whole merge ----

  /** The merged parent is in the file: it opens, clean, under its new identity, and the child is in it. */
  ghost predicate MergeDone(l: Link, p: Link, after: Buffer, next: Header) {
    && OpenDisk(after, true).Ok? && OpenDisk(after, false) == OpenDisk(after, true)
    && IsMerged(l, p, Link(OpenDisk(after, true).value, after))
    && OpenDisk(after, true).value.regions == p.disk.regions
    && Placed(after, OpenDisk(after, true).value.bat, Kept(p.disk), p.disk.BlockSize())
    && HeaderOffset(1) + HEADER_SIZE <= |after|
    && SlotsOf(after) == Slots(Some(Content(next)), Some(Content(next)))
  }

  /** Everything the child has is in the parent's slots and in the table in memory. */
  ghost predicate ReadyToCommit(data0: Buffer, d: VhdxDisk, data: Buffer, t: Table, l: Link) {
    && l.Valid() && d.Valid()
    && l.disk.BlockSize() == d.BlockSize() && l.disk.SectorSize() == d.SectorSize() && l.disk.BlockCount() == d.BlockCount()
    && AllBlocksRead(l, l.disk.BlockCount())
    && Stage(data0, d.bat, data, t, Kept(d), l, l.disk.BlockCount())
    && Mergeable(data0, d)
    && OpenDisk(data0, true) == Ok(d)
  }

  ghost predicate CommitMerges(data0: Buffer, d: VhdxDisk, data: Buffer, t: Table, l: Link, next: Header) {
    && 8 * |t.entries| <= d.batRegion.length
    && MergeDone(l, Link(d, data0), Committed(data, d.batRegion, t, next), next)
  }

  /** The file is what committing a parent leaves that has every block of the child. */
  ghost predicate IsCommitted(data0: Buffer, d: VhdxDisk, l: Link, after: Buffer, next: Header) {
    exists data, t :: ReadyToCommit(data0, d, data, t, l) && 8 * |t.entries| <= d.batRegion.length &&
                      after == Committed(data, d.batRegion, t, next)
  }

  lemma CommitDone(data0: Buffer, d: VhdxDisk, data: Buffer, t: Table, l: Link, dataGuid: Guid, fileGuid: Guid)
    requires ReadyToCommit(data0, d, data, t, l)
    ensures CommitMerges(data0, d, data, t, l, NewIdentity(d.headers.Active(), dataGuid, fileGuid))
  {
    hide ParseTable, ReadPair, Committed, MergedSoFar, Underway, Placed, OthersKept, ParseMetadata, ParseRegions, Find, NewIdentity,
      ReadBlock, SlotsOf, OpenDisk, BitmapArea, TotalEntries, LayoutValid, Successor;
    var next := NewIdentity(d.headers.Active(), dataGuid, fileGuid);
    StagesAgree(data0, d.bat, data, t, Kept(d), l, l.disk.BlockCount());
    var after := Committed(data, d.batRegion, t, next);
    KeptParts(data0, d, data);
    CommitKeepsRest(data, d.batRegion, t, next);
    FixedAreas(data0, d, data, after);
    OpenedParts(data0, d);
    CommitReads(data, d.batRegion, t, d.headers.Active(), dataGuid, fileGuid, d.HasParent());
    NewIdentityFollows(data, d.headers.Active(), dataGuid, fileGuid);
    SlotsAbstract(after);
    var pair := ReadPair(after).value;
    Reopens(data0, d, after, pair, t);
    var m := OpenDisk(after, true).value;
    SlotsSurvive(d, data, t, after, l.disk.BlockSize());
    SectorInBlock(l, 0);
    KeptMerged(data0, d.bat, data, after, t, [], l, l.disk.BlockCount());
    BitmapsSurvive(data0, d, data, after);
    PlacedLonger(data, after, t, Kept(d), l.disk.BlockSize());
    assert IsMerged(l, Link(d, data0), Link(m, after));
  }

  /** What opening established. */
  lemma OpenedParts(data: Buffer, d: VhdxDisk)
    requires OpenDisk(data, true) == Ok(d)
    ensures ReadPair(data) == Ok(d.headers) && d.fileLen == |data|
    ensures ReadExact(data, d.batRegion.fileOffset, d.batRegion.length).Ok?
    ensures ParseTable(ReadExact(data, d.batRegion.fileOffset, d.batRegion.length).value,
                       d.BlockCount(), d.metadata.ChunkRatio(), d.HasParent()) == d.bat
  {
    hide ParseTable, ParseMetadata, ParseRegions, ReadPair, LayoutValid, Find;
  }

  /** Identifier, region tables and metadata survive the merge and every stage of its commit. */
  lemma FixedAreas(data0: Buffer, d: VhdxDisk, data: Buffer, after: Buffer)
    requires d.Valid() && TableAlone(d) && AreasKept(data0, data, Kept(d))
    requires RestKept(data, after, d.batRegion.fileOffset, d.batRegion.length)
    ensures Same(data0, after, 0, 8) && Same(data0, after, RegionTableOffset(0), REGION_TABLE_SIZE)
    ensures Same(data0, after, RegionTableOffset(1), REGION_TABLE_SIZE)
    ensures Same(data0, after, d.metadataRegion.fileOffset, d.metadataRegion.length)
  {
    hide ReadPair, RestKept, BitmapArea;
    KeptParts(data0, d, data);
    FixedRanges(data0, data);
    var bat, meta := d.batRegion, d.metadataRegion;
    assert Kept(d)[1] == Area(bat.fileOffset, bat.length) && Kept(d)[2] == Area(meta.fileOffset, meta.length);
    KeptRange(data, after, bat.fileOffset, bat.length, 0, 8);
    SameAgain(data0, data, after, 0, 8);
    KeptRange(data, after, bat.fileOffset, bat.length, RegionTableOffset(0), REGION_TABLE_SIZE);
    SameAgain(data0, data, after, RegionTableOffset(0), REGION_TABLE_SIZE);
    KeptRange(data, after, bat.fileOffset, bat.length, RegionTableOffset(1), REGION_TABLE_SIZE);
    SameAgain(data0, data, after, RegionTableOffset(1), REGION_TABLE_SIZE);
    KeptRange(data, after, bat.fileOffset, bat.length, meta.fileOffset, meta.length);
    SameAgain(data0, data, after, meta.fileOffset, meta.length);
  }

  /** What the merge keeps of the parent, by name. */
  lemma KeptParts(data0: Buffer, d: VhdxDisk, data: Buffer)
    requires d.Valid() && TableAlone(d) && AreasKept(data0, data, Kept(d))
    ensures Same(data0, data, 0, MIB) && ReadPair(data) == ReadPair(data0)
    ensures Same(data0, data, d.batRegion.fileOffset, d.batRegion.length)
    ensures Same(data0, data, d.metadataRegion.fileOffset, d.metadataRegion.length)
    ensures Area(d.batRegion.fileOffset, d.batRegion.length).ClearOf(0, MIB)
  {
    hide ReadPair, BitmapArea;
    assert Kept(d)[0] == Area(0, MIB);
    assert Kept(d)[1] == Area(d.batRegion.fileOffset, d.batRegion.length);
    assert Kept(d)[2] == Area(d.metadataRegion.fileOffset, d.metadataRegion.length);
    assert Same(data0, data, Kept(d)[0].off, Kept(d)[0].len);
    assert Same(data0, data, Kept(d)[1].off, Kept(d)[1].len) && Same(data0, data, Kept(d)[2].off, Kept(d)[2].len);
    FixedRanges(data0, data);
  }

  /** The commit touches no slot. */
  lemma SlotsSurvive(d: VhdxDisk, data: Buffer, t: Table, after: Buffer, bs: nat)
    requires d.Valid() && Placed(data, t, Kept(d), bs)
    requires RestKept(data, after, d.batRegion.fileOffset, d.batRegion.length)
    ensures OthersKept(data, after, t, [], bs, t.blockCount)
  {
    hide RestKept, BitmapArea, Slot;
    assert Kept(d)[0] == Area(0, MIB);
    assert Kept(d)[1] == Area(d.batRegion.fileOffset, d.batRegion.length);
    forall c | 0 <= c < t.blockCount && Slot(t, c).Some?
      ensures Same(data, after, Slot(t, c).value, bs)
    {
      assert Kept(d)[0].ClearOf(Slot(t, c).value, bs) && Kept(d)[1].ClearOf(Slot(t, c).value, bs);
      KeptRange(data, after, d.batRegion.fileOffset, d.batRegion.length, Slot(t, c).value, bs);
    }
  }

  /** The commit touches no sector bitmap in use. */
  lemma BitmapsSurvive(data0: Buffer, d: VhdxDisk, data: Buffer, after: Buffer)
    requires d.Valid() && TableAlone(d) && AreasKept(data0, data, Kept(d))
    requires RestKept(data, after, d.batRegion.fileOffset, d.batRegion.length)
    ensures BitmapsKept(data0, after, d)
  {
    hide RestKept, BitmapArea;
    forall b | 0 <= b < d.BlockCount()
      ensures Same(data0, after, BitmapArea(d, b).off, BitmapArea(d, b).len)
    {
      var a := BitmapArea(d, b);
      assert Kept(d)[3 + b] == a;
      assert Kept(d)[3 + b].ClearOf(0, MIB) && Kept(d)[3 + b].ClearOf(d.batRegion.fileOffset, d.batRegion.length);
      KeptRange(data, after, d.batRegion.fileOffset, d.batRegion.length, a.off, a.len);
      SameAgain(data0, data, after, a.off, a.len);
    }
  }

  /** When the merge succeeds. */
  ghost predicate CanMerge(l: Link, parent: Buffer, linkage: Option<Guid>)
    requires l.Valid()
  {
    && l.disk.HasParent() && l.disk.metadata.parentLocator.Some?
    && OpenDisk(parent, true).Ok?
    && var d := OpenDisk(parent, true).value;
    && (linkage.Some? ==> d.headers.Active().dataWriteGuid == linkage.value)
    && d.metadata.virtualDiskSize == l.disk.metadata.virtualDiskSize
    && d.metadata.fileParameters.blockSize == l.disk.metadata.fileParameters.blockSize
    && d.metadata.logicalSectorSize == l.disk.metadata.logicalSectorSize
    && AllBlocksRead(l, l.disk.BlockCount())
  }

  predicate SameGeometry(child: VhdxDisk, parent: VhdxDisk) {
    && parent.metadata.virtualDiskSize == child.metadata.virtualDiskSize
    && parent.BlockSize() == child.BlockSize() && parent.SectorSize() == child.SectorSize()
  }

  /** Why a merge is refused before anything is written, if it is. */
  function Refusal(child: VhdxDisk, parent: Buffer, linkage: Option<Guid>): Option<Error> {
    if !child.HasParent() || child.metadata.parentLocator.None? then Some(InvalidStructure)
    else
      match OpenDisk(parent, true)
      case Err(e) => Some(e)
      case Ok(d) =>
        if linkage.Some? && d.headers.Active().dataWriteGuid != linkage.value then Some(ParentGuidMismatch)
        else if !SameGeometry(child, d) then Some(InvalidStructure)
        else None
  }

  /** A merge that fails leaves the parent untouched, or half merged. */
  ghost predicate Unharmed(l: Link, before: Buffer, after: Buffer) {
    after == before ||
    (OpenDisk(before, true).Ok? &&
     HalfMerged(before, OpenDisk(before, true).value.bat, after, Kept(OpenDisk(before, true).value), l))
  }

  /** The parent's file once the merge is done: the merged image, as the commit leaves it, under its new identity. */
  ghost predicate Merged(l: Link, p: Link, after: Buffer, dataGuid: Guid, fileGuid: Guid) {
    && MergeDone(l, p, after, NewIdentity(p.disk.headers.Active(), dataGuid, fileGuid))
    && IsCommitted(p.data, p.disk, l, after, NewIdentity(p.disk.headers.Active(), dataGuid, fileGuid))
    && IdentityWritten(after, p.disk.headers.Active(), dataGuid, fileGuid)
  }

  /**
   * Merges a child into the parent's file. `linkage` is the parent identity the child's locator states, if it
   * states one. The merge succeeds exactly when the two files fit and every block of the child reads.
   */
  method MergeInto(child: File, childDisk: VhdxDisk, parent: File, linkage: Option<Guid>, dataGuid: Guid, fileGuid: Guid)
    returns (r: Result<MergeReport>)
    requires child != parent && Link(childDisk, child.data).Valid()
    requires OpenDisk(parent.data, true).Ok? ==> Mergeable(parent.data, OpenDisk(parent.data, true).value)
    modifies parent
    ensures child.data == old(child.data)
    ensures r.Ok? <==> CanMerge(Link(childDisk, child.data), old(parent.data), linkage)
    ensures r.Ok? ==>
              Merged(Link(childDisk, child.data), Link(OpenDisk(old(parent.data), true).value, old(parent.data)), parent.data,
                     dataGuid, fileGuid)
    ensures r.Ok? ==> r.value == Copied(Link(childDisk, child.data), childDisk.BlockCount())
    ensures r.Err? ==> Unharmed(Link(childDisk, child.data), old(parent.data), parent.data)
    ensures
      var refusal := Refusal(childDisk, old(parent.data), linkage);
      refusal.Some? ==> r == Err(refusal.value) && parent.data == old(parent.data)
  {
    hide OpenDisk, ReadBlock, Mergeable, Merged, HalfMerged, AllBlocksRead, Copied;
    if !childDisk.HasParent() || childDisk.metadata.parentLocator.None? {
      return Err(InvalidStructure);
    }
    var parsed := OpenFile(parent, true);
    if parsed.Err? {
      return Err(parsed.error);
    }
    var d := parsed.value;
    if linkage.Some? && d.headers.Active().dataWriteGuid != linkage.value {
      return Err(ParentGuidMismatch);
    }
    if !SameGeometry(childDisk, d) {
      return Err(InvalidStructure);
    }
    r := MergeFitting(child, childDisk, parent, d, dataGuid, fileGuid);
  }

  /** Merging two files that fit. */
  method MergeFitting(child: File, childDisk: VhdxDisk, parent: File, d: VhdxDisk, dataGuid: Guid, fileGuid: Guid)
    returns (r: Result<MergeReport>)
    requires child != parent && Link(childDisk, child.data).Valid()
    requires OpenDisk(parent.data, true) == Ok(d) && Mergeable(parent.data, d) && SameGeometry(childDisk, d)
    modifies parent
    ensures child.data == old(child.data)
    ensures r.Ok? <==> AllBlocksRead(Link(childDisk, child.data), childDisk.BlockCount())
    ensures r.Ok? ==> Merged(Link(childDisk, child.data), Link(d, old(parent.data)), parent.data, dataGuid, fileGuid)
    ensures r.Ok? ==> r.value == Copied(Link(childDisk, child.data), childDisk.BlockCount())
    ensures r.Err? ==> HalfMerged(old(parent.data), d.bat, parent.data, Kept(d), Link(childDisk, child.data))
  {
    hide OpenDisk, ReadBlock, Mergeable, Merged, Stage, HalfMerged, AllBlocksRead, NewIdentity, Copied;
    ghost var data0 := parent.data;
    ghost var l := Link(childDisk, child.data);
    var bat := new Bat(d.bat.entries, d.bat.chunkRatio, d.bat.blockCount);
    StartsMerging(data0, d, l);
    parent.SetLen(AlignUp(|parent.data|, MIB));
    GrowStage(data0, d.bat, data0, d.bat, Kept(d), l, 0, |parent.data|);
    r := MergeBlocksOf(child, childDisk, parent, bat, data0, d.bat, Kept(d));
    if r.Err? {
      return;
    }
    ghost var data := parent.data;
    assert ReadyToCommit(data0, d, data, bat.Value(), l);
    CommitDone(data0, d, data, bat.Value(), l, dataGuid, fileGuid);
    Commit(parent, bat, d.batRegion, d.headers.Active(), dataGuid, fileGuid);
    CommittedIsMerged(data0, d, data, bat.Value(), l, parent.data, dataGuid, fileGuid);
  }

  lemma CommittedIsMerged(data0: Buffer, d: VhdxDisk, data: Buffer, t: Table, l: Link, after: Buffer, dataGuid: Guid, fileGuid: Guid)
    requires ReadyToCommit(data0, d, data, t, l)
    requires CommitMerges(data0, d, data, t, l, NewIdentity(d.headers.Active(), dataGuid, fileGuid))
    requires 8 * |t.entries| <= d.batRegion.length
    requires after == Committed(data, d.batRegion, t, NewIdentity(d.headers.Active(), dataGuid, fileGuid))
    ensures Merged(l, Link(d, data0), after, dataGuid, fileGuid)
  {
    hide OpenDisk, Stage, MergeDone, NewIdentity, Committed, IdentityWritten, AllBlocksRead, Placed, TableAlone;
    DoneIsIdentified(l, Link(d, data0), after, dataGuid, fileGuid);
  }

  lemma DoneIsIdentified(l: Link, p: Link, after: Buffer, dataGuid: Guid, fileGuid: Guid)
    requires p.disk.headers.Active().sequenceNumber + 1 < U64
    requires MergeDone(l, p, after, NewIdentity(p.disk.headers.Active(), dataGuid, fileGuid))
    ensures IdentityWritten(after, p.disk.headers.Active(), dataGuid, fileGuid)
  {
    hide OpenDisk, IsMerged, Placed, SlotsOf, IdentityWritten, NewIdentity;
    NewIdentityWritten(after, p.disk.headers.Active(), dataGuid, fileGuid);
  }

  lemma StartsMerging(data0: Buffer, d: VhdxDisk, l: Link)
    requires l.Valid() && OpenDisk(data0, true) == Ok(d) && Mergeable(data0, d) && SameGeometry(l.disk, d)
    ensures Stage(data0, d.bat, data0, d.bat, Kept(d), l, 0)
    ensures d.bat.blockCount == d.BlockCount() == l.disk.BlockCount()
    ensures l.disk.BlockSize() % MIB == 0 && AlignUp(|data0|, MIB) + l.disk.BlockCount() * l.disk.BlockSize() < U64
    ensures Kept(d)[0] == Area(0, MIB)
  {
    hide OpenDisk, Placed, TableAlone, BitmapArea, Stage;
    FirstStage(data0, d.bat, Kept(d), l);
  }

  // ---- Images that can take a child ----

  /** The slots of a finished image are placed as merging needs them. */
  lemma FinishedIsPlaced(data: Buffer, p: WriterParams, t: Table, recorded: seq<Recorded>, keep: seq<Area>)
    requires Finished(data, p, t, recorded)
    requires forall k :: 0 <= k < |keep| ==> keep[k].len == 0 || keep[k].off + keep[k].len <= PayloadStart(p)
    requires forall k :: 0 <= k < |keep| ==> keep[k].off + keep[k].len <= |data|
    ensures Placed(data, t, keep, p.blockSize)
  {
    hide Framed, TableStored, WriterParams.Usable, PayloadStart, BatOffset;
    LayoutOrder(p);
    forall b | 0 <= b < t.blockCount && Slot(t, b).Some?
      ensures recorded[b].Stored? && PayloadStart(p) <= Slot(t, b).value && Slot(t, b).value + p.blockSize <= |data|
    {
      assert Holds(data, EntryOf(t.entries, t.chunkRatio, b), recorded[b], p.blockSize, PayloadStart(p));
      EntryUnpacks(ZERO, 0);
    }
    hide Holds, EntryOf, BatEntry.FileOffset, BatEntry.State;
    forall b, c | 0 <= b < c < t.blockCount && Slot(t, b).Some? && Slot(t, c).Some?
      ensures RangesApart(Slot(t, b).value, Slot(t, c).value, p.blockSize)
    {
      assert SlotsApart(EntryOf(t.entries, t.chunkRatio, b), EntryOf(t.entries, t.chunkRatio, c), p.blockSize);
    }
  }

  lemma HeldIsNotPartial(data: Buffer, e: BatEntry, r: Recorded, bs: nat, start: nat)
    requires Holds(data, e, r, bs, start)
    ensures e.State() != PARTIALLY_PRESENT
  {
    EntryUnpacks(ZERO, 0);
  }

  /** No block of a finished image is partially present, so no sector bitmap is in use. */
  lemma NoBitmapsInUse(data: Buffer, t: Table, recorded: seq<Recorded>, bs: nat, start: nat, d: VhdxDisk, b: nat)
    requires BlocksHold(data, t, recorded, bs, start) && d.Valid() && d.bat == t && b < d.BlockCount()
    ensures BitmapArea(d, b) == Area(0, 0)
  {
    hide Holds, BatEntry.State, Table.BitmapEntry;
    HeldIsNotPartial(data, EntryOf(t.entries, t.chunkRatio, b), recorded[b], bs, start);
    assert d.bat.PayloadEntry(b) == Some(EntryOf(t.entries, t.chunkRatio, b));
  }

  /** The areas to keep of a finished image lie below the payload, apart from one another. */
  lemma FinishedAreas(d: VhdxDisk, metadataOffset: nat, batOffset: nat, batLength: nat)
    requires d.Valid() && MIB <= metadataOffset && metadataOffset + MIB <= batOffset
    requires d.batRegion.fileOffset == batOffset && d.batRegion.length == batLength
    requires d.metadataRegion.fileOffset == metadataOffset && d.metadataRegion.length == MIB
    requires forall b :: 0 <= b < d.BlockCount() ==> BitmapArea(d, b) == Area(0, 0)
    ensures TableAlone(d)
    ensures forall k :: 0 <= k < |Kept(d)| ==> Kept(d)[k].off + Kept(d)[k].len <= batOffset + batLength
  {
    hide BitmapArea;
  }

  /** How a finished image opens. */
  ghost predicate OpensAs(data: Buffer, d: VhdxDisk, p: WriterParams, t: Table)
    requires p.Meta().HasGeometry()
  {
    && OpenDisk(data, true) == Ok(d) && d.metadata == p.Meta() && d.bat == t && d.headers.Active().sequenceNumber == 2
    && d.batRegion.fileOffset == BatOffset(p) && d.batRegion.length == p.BatLength()
    && d.metadataRegion.fileOffset == p.MetadataOffset() && d.metadataRegion.length == MIB
    && |t.entries| == TotalEntries(d.BlockCount(), t.chunkRatio, d.HasParent())
  }

  lemma FinishedOpens(data: Buffer, p: WriterParams, t: Table, recorded: seq<Recorded>)
    requires Finished(data, p, t, recorded) && p.Meta().HasGeometry()
    ensures OpenDisk(data, true).Ok? && OpensAs(data, OpenDisk(data, true).value, p, t)
  {
    LayoutOrder(p);
    FrameInside(data, p, t, recorded);
    hide Framed, TableStored, WriterParams.Usable, OpenDisk, BlocksHold, AlignUp, WriterParams.TotalEntries, PlacedApart,
      WriterParams.MetadataOffset, WriterParams.BatLength, BatOffset, PayloadStart, ReadPair;
    FramedOpens(data, p, BatOffset(p), p.BatLength(), t.entries, true);
    TotalEntriesOf(p);
  }

  /** An image that a writer finished can take a child, as long as the file stays below 2^64 bytes. */
  lemma FinishedIsMergeable(data: Buffer, p: WriterParams, t: Table, recorded: seq<Recorded>)
    requires Finished(data, p, t, recorded) && p.logicalSectorSize > 0 && p.blockSize % p.logicalSectorSize == 0
    requires p.Meta().HasGeometry() && AlignUp(|data|, MIB) + p.BlockCount() * p.blockSize < U64
    ensures OpenDisk(data, true).Ok? && Mergeable(data, OpenDisk(data, true).value)
  {
    FinishedOpens(data, p, t, recorded);
    var d := OpenDisk(data, true).value;
    FinishedLayout(data, p, t, recorded, d);
    hide OpenDisk, Placed, TableAlone, Kept, BatOffset, WriterParams.MetadataOffset, TotalEntries, Finished;
  }

  lemma FinishedLayout(data: Buffer, p: WriterParams, t: Table, recorded: seq<Recorded>, d: VhdxDisk)
    requires Finished(data, p, t, recorded) && p.Meta().HasGeometry() && OpensAs(data, d, p, t)
    ensures Placed(data, t, Kept(d), p.blockSize) && TableAlone(d)
    ensures 8 * |t.entries| <= p.BatLength() && p.blockSize % MIB == 0
  {
    LayoutOrder(p);
    FrameInside(data, p, t, recorded);
    hide Framed, TableStored, WriterParams.Usable, OpenDisk, BlocksHold, Placed, WriterParams.TotalEntries, BitmapArea, PlacedApart,
      WriterParams.MetadataOffset, WriterParams.BatLength, BatOffset, PayloadStart, Kept, TableAlone, TotalEntries;
    forall b | 0 <= b < d.BlockCount()
      ensures BitmapArea(d, b) == Area(0, 0)
    {
      NoBitmapsInUse(data, t, recorded, p.blockSize, PayloadStart(p), d, b);
    }
    FinishedAreas(d, p.MetadataOffset(), BatOffset(p), p.BatLength());
    FinishedIsPlaced(data, p, t, recorded, Kept(d));
  }

  lemma TotalEntriesOf(p: WriterParams)
    requires p.Meta().HasGeometry()
    ensures p.TotalEntries() == TotalEntries(p.BlockCount(), p.ChunkRatio(), p.Meta().fileParameters.hasParent)
  {
    hide TotalEntries;
  }

  lemma FrameInside(data: Buffer, p: WriterParams, t: Table, recorded: seq<Recorded>)
    requires Finished(data, p, t, recorded)
    ensures PayloadStart(p) <= |data| && PlacedApart(p.MetadataOffset(), BatOffset(p), p.BatLength())
    ensures 8 * |t.entries| <= p.BatLength()
  {
    LayoutOrder(p);
    LayoutAligned(p);
    hide Framed, WriterParams.Usable, BlocksHold, WriterParams.MetadataOffset, WriterParams.BatLength;
  }
}
