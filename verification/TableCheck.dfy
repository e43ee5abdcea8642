/** The walk over the block allocation table that reports unsound blocks (repair.rs). */
module TableCheck {
  import opened Wrappers
  import opened Bytes
  import opened BlockTable
  import opened Disks
  import opened ChainView

  datatype Issue =
    | PresentAtZero(block: nat)
    | PastTheEnd(block: nat, off: nat)
    | UnknownState(block: nat, state: nat)

  /** What is wrong with the entry of a block, if anything. */
  function IssueOf(e: BatEntry, block: nat, bs: nat, fileLen: nat): Option<Issue> {
    match e.Payload()
    case FullyPresent => PresentIssue(e, block, bs, fileLen)
    case PartiallyPresent => PresentIssue(e, block, bs, fileLen)
    case Other(s) => Some(UnknownState(block, s))
    case _ => None
  }

  /** The end of the block is computed in 64 bits. */
  function PresentIssue(e: BatEntry, block: nat, bs: nat, fileLen: nat): Option<Issue> {
    if e.FileOffset() == 0 then Some(PresentAtZero(block))
    else if (e.FileOffset() + bs) % U64 > fileLen then Some(PastTheEnd(block, e.FileOffset()))
    else None
  }

  function AsSeq(i: Option<Issue>): seq<Issue> {
    match i
    case None => []
    case Some(x) => [x]
  }

  /** The issues of the first `count` blocks, in block order. */
  function BlockIssues(t: Table, count: nat, bs: nat, fileLen: nat): seq<Issue>
    requires t.chunkRatio > 0
  {
    if count == 0 then []
    else
      BlockIssues(t, count - 1, bs, fileLen) +
      match t.PayloadEntry(count - 1)
      case None => []
      case Some(e) => AsSeq(IssueOf(e, count - 1, bs, fileLen))
  }

  /** How many of the first `n` entries belong to blocks. */
  function PayloadsAmong(n: nat, chunkRatio: nat): nat
    requires chunkRatio > 0
  {
    n / (chunkRatio + 1) * chunkRatio + n % (chunkRatio + 1)
  }

  /** The blocks whose entries lie among the first `n` are exactly those. */
  lemma PayloadsBefore(k: nat, n: nat, chunkRatio: nat)
    requires chunkRatio > 0
    ensures PayloadIndex(k, chunkRatio) < n <==> k < PayloadsAmong(n, chunkRatio)
  {
    var cr := chunkRatio;
    var c, o := n / (cr + 1), n % (cr + 1);
    assert n == (cr + 1) * c + o;
    var q, r := k / cr, k % cr;
    assert k == cr * q + r;
    assert PayloadIndex(k, cr) == q * (cr + 1) + r;
    assert q * (cr + 1) == (cr + 1) * q && c * cr == cr * c;
    ChunkOrder(q, r, c, o, cr);
  }

  lemma ChunkOrder(q: nat, r: nat, c: nat, o: nat, cr: nat)
    requires r < cr && o <= cr
    ensures (cr + 1) * q + r < (cr + 1) * c + o <==> cr * q + r < cr * c + o
  {
    if q < c {
      MulMonotone(cr, q + 1, c);
      MulMonotone(cr + 1, q + 1, c);
      assert cr * (q + 1) == cr * q + cr && (cr + 1) * (q + 1) == (cr + 1) * q + cr + 1;
    } else if c < q {
      MulMonotone(cr, c + 1, q);
      MulMonotone(cr + 1, c + 1, q);
      assert cr * (c + 1) == cr * c + cr && (cr + 1) * (c + 1) == (cr + 1) * c + cr + 1;
    }
  }

  /** The walk's counters at entry `n`: blocks seen in the current chunk, and blocks seen in all. */
  ghost predicate At(n: nat, inChunk: nat, block: nat, cr: nat)
    requires cr > 0
  {
    inChunk == n % (cr + 1) && block == PayloadsAmong(n, cr)
  }

  lemma NextEntry(n: nat, inChunk: nat, block: nat, cr: nat)
    requires cr > 0 && At(n, inChunk, block, cr)
    ensures inChunk <= cr
    ensures inChunk == cr ==> At(n + 1, 0, block, cr)
    ensures inChunk < cr ==> At(n + 1, inChunk + 1, block + 1, cr) && PayloadIndex(block, cr) == n
  {
    hide PayloadsAmong, PayloadIndex;
    if inChunk == cr {
      ChunkEnds(n, cr);
    } else {
      ChunkGoesOn(n, inChunk, cr);
    }
  }

  lemma ChunkEnds(n: nat, cr: nat)
    requires cr > 0 && n % (cr + 1) == cr
    ensures (n + 1) % (cr + 1) == 0 && PayloadsAmong(n + 1, cr) == PayloadsAmong(n, cr)
  {
    var c := n / (cr + 1);
    assert n == (cr + 1) * c + cr;
    assert (cr + 1) * (c + 1) == (cr + 1) * c + cr + 1;
    DivModUnique(n + 1, cr + 1, c + 1, 0);
    assert (c + 1) * cr == c * cr + cr;
  }

  lemma ChunkGoesOn(n: nat, o: nat, cr: nat)
    requires cr > 0 && n % (cr + 1) == o < cr
    ensures (n + 1) % (cr + 1) == o + 1 && PayloadsAmong(n + 1, cr) == PayloadsAmong(n, cr) + 1
    ensures PayloadIndex(PayloadsAmong(n, cr), cr) == n
  {
    var c := n / (cr + 1);
    assert n == (cr + 1) * c + o;
    DivModUnique(n + 1, cr + 1, c, o + 1);
    assert c * cr == cr * c && c * (cr + 1) == (cr + 1) * c;
    DivModUnique(c * cr + o, cr, c, o);
  }

  /** Walks the entries, skipping one bitmap entry after each chunk's worth of blocks. */
  method CheckTable(t: Table, bs: nat, fileLen: nat) returns (issues: seq<Issue>)
    requires t.chunkRatio > 0
    ensures issues == BlockIssues(t, PayloadsAmong(|t.entries|, t.chunkRatio), bs, fileLen)
  {
    hide IssueOf, PayloadIndex, PayloadsAmong;
    issues := [];
    var inChunk, block := 0, 0;
    StartOfTable(t.chunkRatio);
    for i := 0 to |t.entries|
      invariant At(i, inChunk, block, t.chunkRatio)
      invariant issues == BlockIssues(t, block, bs, fileLen)
    {
      NextEntry(i, inChunk, block, t.chunkRatio);
      if inChunk == t.chunkRatio {
        inChunk := 0;
        continue;
      }
      inChunk := inChunk + 1;
      issues := issues + AsSeq(IssueOf(t.entries[i], block, bs, fileLen));
      block := block + 1;
    }
  }

  lemma StartOfTable(cr: nat)
    requires cr > 0
    ensures At(0, 0, 0, cr) && PayloadsAmong(0, cr) == 0
  {
    DivModUnique(0, cr + 1, 0, 0);
  }

  predicate IsPresent(e: BatEntry) {
    e.Payload() in {FullyPresent, PartiallyPresent}
  }

  /** What the walk asks of an entry. */
  predicate Passes(e: BatEntry, bs: nat, fileLen: nat) {
    && (IsPresent(e) ==> 0 < e.FileOffset() && (e.FileOffset() + bs) % U64 <= fileLen)
    && !e.Payload().Other?
  }

  /** An entry that a reader can use: data, if any, lies in the file, behind offset 0. */
  predicate Sound(e: BatEntry, bs: nat, fileLen: nat) {
    && (IsPresent(e) ==> 0 < e.FileOffset() && e.FileOffset() + bs <= fileLen)
    && !e.Payload().Other?
  }

  /** A block whose end, computed in 64 bits, wraps. */
  predicate EndWraps(e: BatEntry, bs: nat) {
    IsPresent(e) && e.FileOffset() + bs >= U64
  }

  /** The walk passes an entry that is sound, and one whose end wraps far enough. */
  lemma SoundIffPasses(e: BatEntry, bs: nat, fileLen: Word64)
    ensures Sound(e, bs, fileLen) <==> Passes(e, bs, fileLen) && !EndWraps(e, bs)
  {
    hide BatEntry.FileOffset, BatEntry.Payload;
  }

  lemma {:induction false} NoIssuesIff(t: Table, count: nat, bs: nat, fileLen: nat)
    requires t.chunkRatio > 0
    ensures BlockIssues(t, count, bs, fileLen) == [] <==>
            forall k: nat :: k < count && t.PayloadEntry(k).Some? ==> Passes(t.PayloadEntry(k).value, bs, fileLen)
  {
    hide BatEntry.FileOffset, Table.PayloadEntry;
    if count > 0 {
      NoIssuesIff(t, count - 1, bs, fileLen);
    }
  }

  /** No issues in the whole table. */
  predicate CleanReport(t: Table, bs: nat, fileLen: nat)
    requires t.chunkRatio > 0
  {
    BlockIssues(t, PayloadsAmong(|t.entries|, t.chunkRatio), bs, fileLen) == []
  }

  /** Every block of the table can be used. */
  ghost predicate AllSound(t: Table, bs: nat, fileLen: nat)
    requires t.chunkRatio > 0
  {
    forall k: nat :: t.PayloadEntry(k).Some? ==> Sound(t.PayloadEntry(k).value, bs, fileLen)
  }

  /** No block of the table ends where the sum of offset and block size wraps. */
  ghost predicate NoEndWraps(t: Table, bs: nat)
    requires t.chunkRatio > 0
  {
    forall k: nat :: t.PayloadEntry(k).Some? ==> !EndWraps(t.PayloadEntry(k).value, bs)
  }

  /** The report is empty exactly when the walk passes every block of the table. */
  lemma CleanReportIff(t: Table, bs: nat, fileLen: nat)
    requires t.chunkRatio > 0
    ensures CleanReport(t, bs, fileLen) <==>
            forall k: nat :: t.PayloadEntry(k).Some? ==> Passes(t.PayloadEntry(k).value, bs, fileLen)
  {
    hide Passes, PayloadIndex;
    NoIssuesIff(t, PayloadsAmong(|t.entries|, t.chunkRatio), bs, fileLen);
    forall k: nat | t.PayloadEntry(k).Some?
      ensures k < PayloadsAmong(|t.entries|, t.chunkRatio)
    {
      PayloadsBefore(k, |t.entries|, t.chunkRatio);
    }
  }

  /** Every block of the table is sound exactly when the report is empty and no present block's end wraps. */
  lemma AllSoundIff(t: Table, bs: nat, fileLen: Word64)
    requires t.chunkRatio > 0
    ensures AllSound(t, bs, fileLen) <==> CleanReport(t, bs, fileLen) && NoEndWraps(t, bs)
  {
    hide Passes, Sound, EndWraps, CleanReport, Table.PayloadEntry;
    CleanReportIff(t, bs, fileLen);
    forall k: nat | t.PayloadEntry(k).Some?
      ensures Sound(t.PayloadEntry(k).value, bs, fileLen) <==>
              Passes(t.PayloadEntry(k).value, bs, fileLen) && !EndWraps(t.PayloadEntry(k).value, bs)
    {
      SoundIffPasses(t.PayloadEntry(k).value, bs, fileLen);
    }
  }

  /** A fully present block one MiB below 2^64. */
  const TOP_ENTRY: BatEntry := BatEntry(0xFFFF_FFFF_FFF0_0006)

  /** The walk has nothing to say of it with blocks of one MiB, whatever the file. */
  lemma TopEntryPasses(block: nat, fileLen: Word64)
    ensures TOP_ENTRY.Payload() == FullyPresent && IssueOf(TOP_ENTRY, block, MIB, fileLen) == None
    ensures EndWraps(TOP_ENTRY, MIB) && !Sound(TOP_ENTRY, MIB, fileLen)
  {
    assert TOP_ENTRY.FileOffset() == U64 - MIB && TOP_ENTRY.State() == FULLY_PRESENT;
  }

  /** When the table has an entry for every block, the walk looks at every block of the disk. */
  lemma EveryBlockIsChecked(t: Table, bs: nat, fileLen: Word64, hasParent: bool, k: nat)
    requires t.chunkRatio > 0 && |t.entries| == TotalEntries(t.blockCount, t.chunkRatio, hasParent) && k < t.blockCount
    requires CleanReport(t, bs, fileLen)
    ensures t.PayloadEntry(k).Some? && Passes(t.PayloadEntry(k).value, bs, fileLen)
    ensures Sound(t.PayloadEntry(k).value, bs, fileLen) <==> !EndWraps(t.PayloadEntry(k).value, bs)
  {
    hide Sound, Passes, EndWraps, PayloadIndex, TotalEntries, CleanReport;
    EveryBlockHasEntry(k, t.blockCount, t.chunkRatio, hasParent);
    CleanReportIff(t, bs, fileLen);
    SoundIffPasses(t.PayloadEntry(k).value, bs, fileLen);
  }

  // ---- What a clean report says of reading ----

  /** A partially present block has a present sector bitmap in which its part starts at a whole byte. */
  predicate BitmapUsable(d: VhdxDisk, b: nat)
    requires d.Valid()
  {
    && d.bat.BitmapEntry(b).Some? && d.bat.BitmapEntry(b).value.State() == BITMAP_PRESENT
    && FirstBit(b, d.bat.chunkRatio, d.SectorsPerBlock()) % 8 == 0
  }

  predicate BitmapsUsable(d: VhdxDisk)
    requires d.Valid()
  {
    forall b :: 0 <= b < d.BlockCount() && IsPartial(d, b) ==> BitmapUsable(d, b)
  }

  predicate IsPartial(d: VhdxDisk, b: nat)
    requires d.Valid()
  {
    d.bat.PayloadEntry(b).Some? && d.bat.PayloadEntry(b).value.Payload() == PartiallyPresent
  }

  /** A block the walk passes reads unless its end wraps, or it is partially present and its bitmap is of no use. */
  lemma PassedBlockReadsIff(l: Link, b: nat)
    requires l.Valid() && b < l.disk.BlockCount() && l.disk.bat.PayloadEntry(b).Some? && |l.data| < U64
    requires Passes(l.disk.bat.PayloadEntry(b).value, l.disk.BlockSize(), |l.data|)
    ensures ReadBlock(l.disk, l.data, b).Ok? <==>
            !EndWraps(l.disk.bat.PayloadEntry(b).value, l.disk.BlockSize()) && (IsPartial(l.disk, b) ==> BitmapUsable(l.disk, b))
  {
    hide BatEntry.FileOffset, BatEntry.State, FirstBit, Table.PayloadEntry, Table.BitmapEntry;
    SoundIffPasses(l.disk.bat.PayloadEntry(b).value, l.disk.BlockSize(), |l.data|);
  }

  /** No block of the disk ends where the sum of offset and block size wraps. */
  predicate NoBlockWraps(d: VhdxDisk)
    requires d.Valid()
  {
    forall b :: 0 <= b < d.BlockCount() && d.bat.PayloadEntry(b).Some? ==> !EndWraps(d.bat.PayloadEntry(b).value, d.BlockSize())
  }

  /**
   * After a clean report over a table with an entry for every block, all blocks read exactly when no block's end wraps
   * and the bitmaps in use are usable.
   */
  lemma CleanTableReadsIff(l: Link)
    requires l.Valid() && |l.data| < U64
    requires |l.disk.bat.entries| == TotalEntries(l.disk.BlockCount(), l.disk.bat.chunkRatio, l.disk.HasParent())
    requires CleanReport(l.disk.bat, l.disk.BlockSize(), |l.data|)
    ensures AllBlocksRead(l, l.disk.BlockCount()) <==> NoBlockWraps(l.disk) && BitmapsUsable(l.disk)
  {
    hide ReadBlock, BitmapUsable, CleanReport, Table.PayloadEntry, Passes, EndWraps, IsPartial, Sound;
    forall b | 0 <= b < l.disk.BlockCount()
      ensures l.disk.bat.PayloadEntry(b).Some?
      ensures ReadBlock(l.disk, l.data, b).Ok? <==>
              !EndWraps(l.disk.bat.PayloadEntry(b).value, l.disk.BlockSize()) && (IsPartial(l.disk, b) ==> BitmapUsable(l.disk, b))
    {
      EveryBlockIsChecked(l.disk.bat, l.disk.BlockSize(), |l.data|, l.disk.HasParent(), b);
      PassedBlockReadsIff(l, b);
    }
  }

  /** A full differencing table has a bitmap entry for every block. */
  lemma DifferencingHasBitmaps(d: VhdxDisk, b: nat)
    requires d.Valid() && d.HasParent() && b < d.BlockCount()
    requires |d.bat.entries| == TotalEntries(d.BlockCount(), d.bat.chunkRatio, true)
    ensures d.bat.BitmapEntry(b).Some?
  {
    EveryBlockHasEntry(b, d.BlockCount(), d.bat.chunkRatio, true);
  }
}
