/** The block allocation table: packed entries and their interleaving (bat.rs). */
module BlockTable {
  import opened Wrappers
  import opened Bytes

  const NOT_PRESENT: nat := 0
  const UNDEFINED: nat := 1
  const ZERO: nat := 2
  const UNMAPPED: nat := 3
  const FULLY_PRESENT: nat := 6
  const PARTIALLY_PRESENT: nat := 7

  const BITMAP_PRESENT: nat := 6

  datatype PayloadState = NotPresent | Undefined | Zero | Unmapped | FullyPresent | PartiallyPresent | Other(raw: nat)

  function FromRaw(s: nat): PayloadState {
    if s == NOT_PRESENT then NotPresent
    else if s == UNDEFINED then Undefined
    else if s == ZERO then Zero
    else if s == UNMAPPED then Unmapped
    else if s == FULLY_PRESENT then FullyPresent
    else if s == PARTIALLY_PRESENT then PartiallyPresent
    else Other(s)
  }

  /** A 64-bit entry: bits 0..3 are the state, bits 20..64 the file offset in MiB. */
  datatype BatEntry = BatEntry(raw: Word64) {
    function State(): nat {
      raw % 8
    }

    function FileOffset(): nat {
      raw / MIB * MIB
    }

    function Payload(): PayloadState {
      FromRaw(State())
    }
  }

  const EMPTY := BatEntry(0)

  function NewEntry(state: nat, off: Word64): BatEntry {
    BatEntry(state % 8 + off / MIB * MIB)
  }

  /** Packing loses nothing of a 3-bit state and a MiB-aligned offset. */
  lemma EntryUnpacks(state: nat, off: Word64)
    requires state < 8 && off % MIB == 0
    ensures NewEntry(state, off).State() == state
    ensures NewEntry(state, off).FileOffset() == off
  {
  }

  /** An entry can hold the offset of a slot exactly when the slot starts at a whole MiB. */
  lemma EntryKeepsOffsetIff(state: nat, off: Word64)
    requires state < 8
    ensures NewEntry(state, off).FileOffset() == off <==> off % MIB == 0
  {
    assert NewEntry(state, off).FileOffset() == off / MIB * MIB;
  }

  // ---- Interleaving ----

  function PayloadIndex(block: nat, chunkRatio: nat): nat
    requires chunkRatio > 0
  {
    block / chunkRatio * (chunkRatio + 1) + block % chunkRatio
  }

  function BitmapIndex(block: nat, chunkRatio: nat): nat
    requires chunkRatio > 0
  {
    block / chunkRatio * (chunkRatio + 1) + chunkRatio
  }

  function TotalEntries(blockCount: nat, chunkRatio: nat, hasParent: bool): nat
    requires chunkRatio > 0
  {
    if blockCount == 0 then 0
    else
      var last := blockCount - 1;
      if hasParent then (last / chunkRatio + 1) * (chunkRatio + 1)
      else last / chunkRatio * (chunkRatio + 1) + last % chunkRatio + 1
  }

  lemma DivMonotone(a: nat, b: nat, d: nat)
    requires d > 0 && a <= b
    ensures a / d <= b / d
  {
    MulMonotone(d, b / d + 1, a / d);
  }

  /** One bitmap entry precedes a block's entry for every full chunk before it. */
  lemma PayloadIndexIs(block: nat, chunkRatio: nat)
    requires chunkRatio > 0
    ensures PayloadIndex(block, chunkRatio) == block + block / chunkRatio
  {
    var c := block / chunkRatio;
    assert c * (chunkRatio + 1) == c * chunkRatio + c;
  }

  lemma PayloadIndexIncreases(a: nat, b: nat, chunkRatio: nat)
    requires chunkRatio > 0 && a < b
    ensures PayloadIndex(a, chunkRatio) < PayloadIndex(b, chunkRatio)
  {
    PayloadIndexIs(a, chunkRatio);
    PayloadIndexIs(b, chunkRatio);
    DivMonotone(a, b, chunkRatio);
  }

  /** The position of an entry inside its chunk tells payload entries and bitmap entries apart. */
  lemma EntryInChunk(block: nat, chunkRatio: nat)
    requires chunkRatio > 0
    ensures PayloadIndex(block, chunkRatio) / (chunkRatio + 1) == block / chunkRatio
    ensures PayloadIndex(block, chunkRatio) % (chunkRatio + 1) == block % chunkRatio
    ensures BitmapIndex(block, chunkRatio) / (chunkRatio + 1) == block / chunkRatio
    ensures BitmapIndex(block, chunkRatio) % (chunkRatio + 1) == chunkRatio
  {
    var c := block / chunkRatio;
    var o := block % chunkRatio;
    assert c * (chunkRatio + 1) == (chunkRatio + 1) * c;
    DivModUnique(PayloadIndex(block, chunkRatio), chunkRatio + 1, c, o);
    DivModUnique(BitmapIndex(block, chunkRatio), chunkRatio + 1, c, chunkRatio);
  }

  lemma PayloadIsNeverBitmap(a: nat, b: nat, chunkRatio: nat)
    requires chunkRatio > 0
    ensures PayloadIndex(a, chunkRatio) != BitmapIndex(b, chunkRatio)
  {
    EntryInChunk(a, chunkRatio);
    EntryInChunk(b, chunkRatio);
  }

  /** The table has an entry for every block, and for a differencing file a bitmap entry for every chunk. */
  lemma EveryBlockHasEntry(block: nat, blockCount: nat, chunkRatio: nat, hasParent: bool)
    requires chunkRatio > 0 && block < blockCount
    ensures PayloadIndex(block, chunkRatio) < TotalEntries(blockCount, chunkRatio, hasParent)
    ensures hasParent ==> BitmapIndex(block, chunkRatio) < TotalEntries(blockCount, chunkRatio, hasParent)
  {
    var last := blockCount - 1;
    if block < last {
      PayloadIndexIncreases(block, last, chunkRatio);
    }
    DivMonotone(block, last, chunkRatio);
    var c := last / chunkRatio;
    assert (c + 1) * (chunkRatio + 1) == c * (chunkRatio + 1) + chunkRatio + 1;
    MulMonotone(chunkRatio + 1, block / chunkRatio, c);
    assert block / chunkRatio * (chunkRatio + 1) <= c * (chunkRatio + 1);
  }

  /** The block whose entry sits at index `e`, when `e` is not a bitmap position. */
  function BlockAt(e: nat, chunkRatio: nat): nat
    requires chunkRatio > 0
  {
    e / (chunkRatio + 1) * chunkRatio + e % (chunkRatio + 1)
  }

  /** Payload and bitmap positions partition the indices: each index is exactly one of the two. */
  lemma IndicesPartition(e: nat, chunkRatio: nat)
    requires chunkRatio > 0
    ensures e % (chunkRatio + 1) == chunkRatio ==>
              e == BitmapIndex(e / (chunkRatio + 1) * chunkRatio, chunkRatio)
    ensures e % (chunkRatio + 1) != chunkRatio ==> e == PayloadIndex(BlockAt(e, chunkRatio), chunkRatio)
    ensures (exists b: nat :: e == PayloadIndex(b, chunkRatio)) <==> !(exists b: nat :: e == BitmapIndex(b, chunkRatio))
  {
    var c := e / (chunkRatio + 1);
    var o := e % (chunkRatio + 1);
    assert e == (chunkRatio + 1) * c + o;
    assert c * (chunkRatio + 1) == (chunkRatio + 1) * c;
    assert c * chunkRatio == chunkRatio * c;
    DivModUnique(c * chunkRatio, chunkRatio, c, 0);
    if o < chunkRatio {
      DivModUnique(c * chunkRatio + o, chunkRatio, c, o);
    }
    forall a: nat, b: nat
      ensures !(e == PayloadIndex(a, chunkRatio) && e == BitmapIndex(b, chunkRatio))
    {
      PayloadIsNeverBitmap(a, b, chunkRatio);
    }
  }

  /** In a differencing file every index of the table is a block of one of its chunks, or that chunk's bitmap. */
  lemma TableIsFull(e: nat, blockCount: nat, chunkRatio: nat)
    requires chunkRatio > 0 && e < TotalEntries(blockCount, chunkRatio, true)
    ensures blockCount > 0 && e / (chunkRatio + 1) <= (blockCount - 1) / chunkRatio
  {
    var c := (blockCount - 1) / chunkRatio;
    assert (c + 1) * (chunkRatio + 1) == (chunkRatio + 1) * (c + 1);
    MulMonotone(chunkRatio + 1, c + 1, e / (chunkRatio + 1));
  }

  // ---- Tables ----

  /** The value of a table: what `Bat` holds at one moment. */
  datatype Table = Table(entries: seq<BatEntry>, chunkRatio: nat, blockCount: nat) {
    function PayloadEntry(block: nat): Option<BatEntry>
      requires chunkRatio > 0
    {
      var i := PayloadIndex(block, chunkRatio);
      if i < |entries| then Some(entries[i]) else None
    }

    function BitmapEntry(block: nat): Option<BatEntry>
      requires chunkRatio > 0
    {
      var i := BitmapIndex(block, chunkRatio);
      if i < |entries| then Some(entries[i]) else None
    }

    function WithPayload(block: nat, e: BatEntry): Table
      requires chunkRatio > 0
    {
      var i := PayloadIndex(block, chunkRatio);
      if i < |entries| then this.(entries := entries[i := e]) else this
    }

    /** Every block of the disk has its entry. */
    predicate Complete() {
      chunkRatio > 0 && forall b: nat :: b < blockCount ==> PayloadIndex(b, chunkRatio) < |entries|
    }
  }

  /** Setting one block's entry changes that block's entry and no other, and no bitmap entry. */
  lemma SetOneEntry(t: Table, block: nat, e: BatEntry, other: nat)
    requires t.chunkRatio > 0
    ensures PayloadIndex(block, t.chunkRatio) < |t.entries| ==> t.WithPayload(block, e).PayloadEntry(block) == Some(e)
    ensures other != block ==> t.WithPayload(block, e).PayloadEntry(other) == t.PayloadEntry(other)
    ensures t.WithPayload(block, e).BitmapEntry(other) == t.BitmapEntry(other)
  {
    PayloadIsNeverBitmap(block, other, t.chunkRatio);
    if other < block {
      PayloadIndexIncreases(other, block, t.chunkRatio);
    } else if block < other {
      PayloadIndexIncreases(block, other, t.chunkRatio);
    }
  }

  // ---- Encoding ----

  function EncodeEntries(entries: seq<BatEntry>): (b: Buffer)
    ensures |b| == 8 * |entries|
  {
    if entries == [] then []
    else EncodeEntries(entries[..|entries| - 1]) + Encode(entries[|entries| - 1].raw, 8)
  }

  function EntryFrom(buf: Buffer, i: nat): BatEntry
    requires 8 * i + 8 <= |buf|
  {
    Pow256Values();
    EncodeDecode(Slice(buf, 8 * i, 8));
    BatEntry(Decode(Slice(buf, 8 * i, 8)))
  }

  function ParseEntries(buf: Buffer, n: nat): (es: seq<BatEntry>)
    requires 8 * n <= |buf|
    ensures |es| == n
    ensures forall i :: 0 <= i < n ==> es[i] == EntryFrom(buf, i)
  {
    if n == 0 then [] else ParseEntries(buf, n - 1) + [EntryFrom(buf, n - 1)]
  }

  function ParseTable(buf: Buffer, blockCount: nat, chunkRatio: nat, hasParent: bool): Table
    requires chunkRatio > 0
  {
    Table(ParseEntries(buf, Min(TotalEntries(blockCount, chunkRatio, hasParent), |buf| / 8)), chunkRatio, blockCount)
  }

  lemma {:induction false} EncodedEntry(entries: seq<BatEntry>, tail: Buffer, i: nat)
    requires i < |entries|
    ensures EntryFrom(EncodeEntries(entries) + tail, i) == entries[i]
  {
    hide Encode, Decode, EntryFrom;
    var n := |entries| - 1;
    var last := Encode(entries[n].raw, 8);
    if i == n {
      LastEntry(EncodeEntries(entries[..n]), entries[n], tail, n);
    } else {
      EncodedEntry(entries[..n], last + tail, i);
      assert EncodeEntries(entries) + tail == EncodeEntries(entries[..n]) + (last + tail);
    }
  }

  lemma LastEntry(before: Buffer, e: BatEntry, tail: Buffer, n: nat)
    requires |before| == 8 * n
    ensures EntryFrom(before + Encode(e.raw, 8) + tail, n) == e
  {
    hide Encode, Decode;
    assert Slice(before + Encode(e.raw, 8) + tail, 8 * n, 8) == Encode(e.raw, 8);
    DecodeEncode(e.raw, 8);
    Pow256Values();
  }

  /** A table with as many entries as the geometry asks for survives encoding, whatever padding follows it. */
  lemma TableRoundTrip(t: Table, hasParent: bool, padding: Buffer)
    requires t.chunkRatio > 0 && |t.entries| == TotalEntries(t.blockCount, t.chunkRatio, hasParent)
    ensures ParseTable(EncodeEntries(t.entries) + padding, t.blockCount, t.chunkRatio, hasParent) == t
  {
    var buf := EncodeEntries(t.entries) + padding;
    var n := |t.entries|;
    assert |buf| / 8 >= n;
    forall i | 0 <= i < n
      ensures EntryFrom(buf, i) == t.entries[i]
    {
      EncodedEntry(t.entries, padding, i);
    }
    assert ParseEntries(buf, n) == t.entries;
  }

  // ---- The mutable table ----

  class Bat {
    var entries: seq<BatEntry>
    const chunkRatio: nat
    const blockCount: nat

    constructor (entries: seq<BatEntry>, chunkRatio: nat, blockCount: nat)
      ensures Value() == Table(entries, chunkRatio, blockCount)
    {
      this.entries := entries;
      this.chunkRatio := chunkRatio;
      this.blockCount := blockCount;
    }

    /** Reads at most as many entries as the geometry asks for and the buffer holds. */
    constructor Parse(buf: Buffer, blockCount: nat, chunkRatio: nat, hasParent: bool)
      requires chunkRatio > 0
      ensures Value() == ParseTable(buf, blockCount, chunkRatio, hasParent)
    {
      var limit := Min(TotalEntries(blockCount, chunkRatio, hasParent), |buf| / 8);
      var es: seq<BatEntry> := [];
      for i := 0 to limit
        invariant es == ParseEntries(buf, i)
      {
        es := es + [EntryFrom(buf, i)];
      }
      this.entries := es;
      this.chunkRatio := chunkRatio;
      this.blockCount := blockCount;
    }

    function Value(): Table
      reads this
    {
      Table(entries, chunkRatio, blockCount)
    }

    method SetPayloadEntry(block: nat, e: BatEntry)
      requires chunkRatio > 0
      modifies this
      ensures Value() == old(Value()).WithPayload(block, e)
    {
      var i := PayloadIndex(block, chunkRatio);
      if i < |entries| {
        entries := entries[i := e];
      }
    }

    method EncodeTable() returns (buf: Buffer)
      ensures buf == EncodeEntries(entries)
    {
      buf := Zeros(8 * |entries|);
      for i := 0 to |entries|
        invariant |buf| == 8 * |entries|
        invariant buf[..8 * i] == EncodeEntries(entries[..i])
      {
        buf := Written(buf, 8 * i, Encode(entries[i].raw, 8));
        assert entries[..i + 1][..i] == entries[..i];
        assert buf[..8 * (i + 1)] == buf[..8 * i] + Encode(entries[i].raw, 8);
      }
      assert entries[..|entries|] == entries;
      assert buf[..8 * |entries|] == buf;
    }
  }
}
