/** Where a live image keeps its blocks, and what a write to one slot leaves alone. */
module Placement {
  import opened Wrappers
  import opened Bytes
  import opened FileIo
  import opened Format
  import opened Headers
  import opened BlockTable
  import opened ImageBlocks

  /** A range of the file that payload must stay clear of. */
  datatype Area = Area(off: nat, len: nat) {
    predicate ClearOf(at: nat, n: nat) {
      len == 0 || off + len <= at || at + n <= off
    }
  }

  predicate HasSlot(e: BatEntry) {
    e.State() == FULLY_PRESENT || e.State() == PARTIALLY_PRESENT
  }

  /** Where the block's payload starts, if it has any. */
  ghost function Slot(t: Table, b: nat): Option<nat>
    requires t.Complete() && b < t.blockCount
  {
    var e := EntryOf(t.entries, t.chunkRatio, b);
    if HasSlot(e) then Some(e.FileOffset()) else None
  }

  predicate RangesApart(a: nat, b: nat, n: nat) {
    a + n <= b || b + n <= a
  }

  /** Slots lie inside the file, apart from one another and from the areas to keep. */
  ghost predicate Placed(data: Buffer, t: Table, keep: seq<Area>, bs: nat) {
    && t.Complete() && bs > 0
    && (forall b :: 0 <= b < t.blockCount && Slot(t, b).Some? ==> Slot(t, b).value + bs <= |data|)
    && (forall b, c :: 0 <= b < t.blockCount && 0 <= c < t.blockCount && b != c && Slot(t, b).Some? && Slot(t, c).Some? ==>
          RangesApart(Slot(t, b).value, Slot(t, c).value, bs))
    && (forall b, k :: 0 <= b < t.blockCount && 0 <= k < |keep| && Slot(t, b).Some? ==>
          keep[k].ClearOf(Slot(t, b).value, bs))
    && (forall k :: 0 <= k < |keep| ==> keep[k].off + keep[k].len <= |data|)
  }

  /** A slot the block may take: nobody else's, and clear of what is kept. */
  ghost predicate Free(t: Table, keep: seq<Area>, bs: nat, block: nat, off: nat)
    requires t.Complete()
  {
    && (forall c :: 0 <= c < t.blockCount && c != block && Slot(t, c).Some? ==> RangesApart(Slot(t, c).value, off, bs))
    && (forall k :: 0 <= k < |keep| ==> keep[k].ClearOf(off, bs))
  }

  lemma OwnSlotIsFree(data: Buffer, t: Table, keep: seq<Area>, bs: nat, block: nat)
    requires Placed(data, t, keep, bs) && block < t.blockCount && Slot(t, block).Some?
    ensures Free(t, keep, bs, block, Slot(t, block).value)
  {
    hide Slot;
  }

  lemma EndIsFree(data: Buffer, t: Table, keep: seq<Area>, bs: nat, block: nat, off: nat)
    requires Placed(data, t, keep, bs) && |data| <= off
    ensures Free(t, keep, bs, block, off)
  {
    hide Slot;
  }

  /** The range is inside both files and holds the same bytes. */
  ghost predicate Same(a: Buffer, b: Buffer, off: nat, n: nat) {
    off + n <= |a| && off + n <= |b| && Slice(a, off, n) == Slice(b, off, n)
  }

  /** Every slot but one block's, and every area to keep, holds what it held. */
  ghost predicate OthersKept(a: Buffer, b: Buffer, t: Table, keep: seq<Area>, bs: nat, block: nat)
    requires t.Complete()
  {
    && (forall c :: 0 <= c < t.blockCount && c != block && Slot(t, c).Some? ==> Same(a, b, Slot(t, c).value, bs))
    && (forall k :: 0 <= k < |keep| ==> Same(a, b, keep[k].off, keep[k].len))
  }

  lemma WrittenKeepsRange(data: Buffer, off: nat, buf: Buffer, at: nat, n: nat)
    requires at + n <= |data| && (n == 0 || at + n <= off || off + |buf| <= at)
    ensures Same(data, Written(data, off, buf), at, n)
  {
    if n > 0 {
      WrittenKeeps(data, off, buf, at, n);
    }
  }

  /** Storing a block in a free slot: it reads back, the image stays well placed, and nothing else changes. */
  lemma StoredInFreeSlot(data: Buffer, t: Table, keep: seq<Area>, bs: nat, block: nat, e: BatEntry, buf: Buffer)
    requires Placed(data, t, keep, bs) && block < t.blockCount && |buf| == bs
    requires e.State() == FULLY_PRESENT && Free(t, keep, bs, block, e.FileOffset())
    ensures
      var after := Written(data, e.FileOffset(), buf);
      var u := t.WithPayload(block, e);
      && Placed(after, u, keep, bs)
      && OthersKept(data, after, t, keep, bs, block)
      && e.FileOffset() + bs <= |after| && Slice(after, e.FileOffset(), bs) == buf
  {
    var after := Written(data, e.FileOffset(), buf);
    var u := t.WithPayload(block, e);
    EntriesBesides(t, block, e);
    WrittenReadsBack(data, e.FileOffset(), buf);
    SlotsBesides(t, block, e);
    hide Slot, BatEntry.FileOffset, BatEntry.State, EntryOf, Table.WithPayload;
    forall c | 0 <= c < t.blockCount && c != block && Slot(t, c).Some?
      ensures Same(data, after, Slot(t, c).value, bs)
    {
      WrittenKeepsRange(data, e.FileOffset(), buf, Slot(t, c).value, bs);
    }
    forall k | 0 <= k < |keep|
      ensures Same(data, after, keep[k].off, keep[k].len)
    {
      WrittenKeepsRange(data, e.FileOffset(), buf, keep[k].off, keep[k].len);
    }
  }

  lemma SlotsBesides(t: Table, block: nat, e: BatEntry)
    requires t.Complete() && block < t.blockCount && e.State() == FULLY_PRESENT
    ensures t.WithPayload(block, e).Complete()
    ensures forall c :: 0 <= c < t.blockCount ==>
              Slot(t.WithPayload(block, e), c) == if c == block then Some(e.FileOffset()) else Slot(t, c)
  {
    EntriesBesides(t, block, e);
    hide Table.WithPayload, BatEntry.FileOffset, BatEntry.State;
  }

  /** A longer file, or one changed only where no slot and no area lies, keeps everything. */
  lemma GrownKeeps(data: Buffer, t: Table, keep: seq<Area>, bs: nat, n: nat, block: nat)
    requires Placed(data, t, keep, bs) && |data| <= n
    ensures Placed(Resized(data, n), t, keep, bs)
    ensures OthersKept(data, Resized(data, n), t, keep, bs, block)
    ensures block < t.blockCount && Slot(t, block).Some? ==> Same(data, Resized(data, n), Slot(t, block).value, bs)
  {
    hide Slot;
    forall off: nat, k: nat | off + k <= |data|
      ensures Same(data, Resized(data, n), off, k)
    {
      assert Slice(data, off, k) == Slice(Resized(data, n), off, k);
    }
  }

  // ---- Ranges that stay the same ----

  lemma SameRange(a: Buffer, b: Buffer, off: nat, len: nat, at: nat, n: nat)
    requires Same(a, b, off, len) && off <= at && at + n <= off + len
    ensures ReadExact(a, at, n) == ReadExact(b, at, n) && ReadShort(a, at, n) == ReadShort(b, at, n)
  {
    assert a[off..off + len][at - off..at - off + n] == a[at..at + n];
    assert b[off..off + len][at - off..at - off + n] == b[at..at + n];
    ShortInside(a, at, n);
    ShortInside(b, at, n);
  }

  lemma SameAgain(a: Buffer, b: Buffer, c: Buffer, off: nat, n: nat)
    requires Same(a, b, off, n) && Same(b, c, off, n)
    ensures Same(a, c, off, n)
  {
  }

  lemma ShortInside(a: Buffer, at: nat, n: nat)
    requires at + n <= |a|
    ensures ReadShort(a, at, n) == Slice(a, at, n)
  {
  }

  lemma PartSame(a: Buffer, b: Buffer, off: nat, len: nat, at: nat, n: nat)
    requires Same(a, b, off, len) && off <= at && at + n <= off + len
    ensures Same(a, b, at, n)
  {
    assert a[off..off + len][at - off..at - off + n] == a[at..at + n];
    assert b[off..off + len][at - off..at - off + n] == b[at..at + n];
  }

  // ---- The header section ----

  predicate ClearOfHeaders(at: nat, n: nat) {
    && (at + n <= HeaderOffset(0) || HeaderOffset(0) + HEADER_SIZE <= at)
    && (at + n <= HeaderOffset(1) || HeaderOffset(1) + HEADER_SIZE <= at)
  }

  /** A header update touches nothing but the two slots. */
  lemma UpdateKeepsRange(data: Buffer, next: Header, at: nat, n: nat)
    requires at + n <= |data| && (n == 0 || ClearOfHeaders(at, n))
    ensures Same(data, Updated(data, next), at, n)
  {
    hide EncodeHeader, TargetIndex;
    WrittenKeepsRange(data, HeaderOffset(TargetIndex(data)), EncodeHeader(next), at, n);
  }

  /** The file keeps its length, and nothing changes outside the two header slots and the table's region. */
  ghost predicate RestKept(data: Buffer, after: Buffer, off: nat, len: nat) {
    && |after| == |data|
    && forall j :: 0 <= j < |data| && ClearOfHeaders(j, 1) && !(off <= j < off + len) ==> after[j] == data[j]
  }

  lemma KeptRange(data: Buffer, after: Buffer, off: nat, len: nat, at: nat, n: nat)
    requires RestKept(data, after, off, len) && at + n <= |data|
    requires n == 0 || (Area(off, len).ClearOf(at, n) && ClearOfHeaders(at, n))
    ensures Same(data, after, at, n)
  {
    forall k | 0 <= k < n
      ensures Slice(after, at, n)[k] == Slice(data, at, n)[k]
    {
      assert ClearOfHeaders(at + k, 1);
    }
  }

  lemma SlotsByPrefix(data: Buffer, after: Buffer)
    requires Same(data, after, 0, MIB)
    ensures SlotsOf(after) == SlotsOf(data)
  {
    hide ParseHeader;
    forall i: nat | i < 2
      ensures Slice(after, HeaderOffset(i), HEADER_SIZE) == Slice(data, HeaderOffset(i), HEADER_SIZE)
    {
      SameRange(data, after, 0, MIB, HeaderOffset(i), HEADER_SIZE);
    }
  }

  lemma FixedRanges(data0: Buffer, data: Buffer)
    requires Same(data0, data, 0, MIB)
    ensures ReadPair(data) == ReadPair(data0)
    ensures Same(data0, data, 0, 8) && Same(data0, data, RegionTableOffset(0), REGION_TABLE_SIZE)
    ensures Same(data0, data, RegionTableOffset(1), REGION_TABLE_SIZE)
  {
    hide ParseHeader;
    SameRange(data0, data, 0, MIB, HeaderOffset(0), HEADER_SIZE);
    SameRange(data0, data, 0, MIB, HeaderOffset(1), HEADER_SIZE);
    PartSame(data0, data, 0, MIB, 0, 8);
    PartSame(data0, data, 0, MIB, RegionTableOffset(0), REGION_TABLE_SIZE);
    PartSame(data0, data, 0, MIB, RegionTableOffset(1), REGION_TABLE_SIZE);
  }
}
