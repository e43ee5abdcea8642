/** What the guest sees of a merged parent (merge.rs). */
module MergeView {
  import opened Wrappers
  import opened Bytes
  import opened FileIo
  import opened BlockTable
  import opened MetadataRegion
  import opened Disks
  import opened ChainView
  import opened Composite
  import opened Images
  import opened ImageBlocks
  import opened Flatten
  import opened Placement
  import opened MergeBlocks

  /** `m` is the parent `p` with the child `l` merged into it. */
  ghost predicate IsMerged(l: Link, p: Link, m: Link) {
    && l.Valid() && p.Valid() && m.Valid()
    && l.disk.BlockSize() == p.disk.BlockSize() && l.disk.SectorSize() == p.disk.SectorSize()
    && l.disk.BlockCount() == p.disk.BlockCount()
    && m.disk.metadata == p.disk.metadata
    && (forall b :: 0 <= b < l.disk.BlockCount() ==> ReadBlock(l.disk, l.data, b).Ok?)
    && Placed(p.data, p.disk.bat, Kept(p.disk), p.disk.BlockSize())
    && MergedSoFar(p.data, p.disk.bat, m.data, m.disk.bat, l, l.disk.BlockCount())
    && BitmapsKept(p.data, m.data, p.disk)
  }

  // ---- Blocks ----

  /** A block's part of the bitmap of its chunk lies inside that bitmap. */
  lemma BitmapPartInside(d: VhdxDisk, b: nat)
    requires d.Valid() && Link(d, []).Valid()
    requires FirstBit(b, d.bat.chunkRatio, d.SectorsPerBlock()) % 8 == 0
    ensures FirstBit(b, d.bat.chunkRatio, d.SectorsPerBlock()) / 8 + (d.SectorsPerBlock() + 7) / 8 <= MIB
  {
    var cr, spb, ss := d.bat.chunkRatio, d.SectorsPerBlock(), d.SectorSize();
    SectorInBlock(Link(d, []), 0);
    ChunkFits(cr, spb, ss, d.BlockSize());
    MulMonotone(spb, b % cr + 1, cr);
    assert spb * (b % cr + 1) == b % cr * spb + spb && spb * cr == cr * spb;
  }

  lemma ChunkFits(cr: nat, spb: nat, ss: nat, bs: nat)
    requires ss > 0 && bs > 0 && bs == spb * ss && cr == BITMAP_BITS * ss / bs
    ensures cr * spb <= BITMAP_BITS
  {
    var q := BITMAP_BITS * ss;
    assert q == bs * (q / bs) + q % bs;
    assert bs * cr == ss * (cr * spb);
    MulMonotone(ss, BITMAP_BITS + 1, cr * spb);
    assert ss * (BITMAP_BITS + 1) == BITMAP_BITS * ss + ss;
  }

  /** A block with the same entries, slot and bitmap reads the same. */
  lemma UntouchedReads(p: Link, m: Link, b: nat)
    requires p.Valid() && m.Valid() && m.disk.metadata == p.disk.metadata && b < p.disk.BlockCount()
    requires m.disk.bat.PayloadEntry(b) == p.disk.bat.PayloadEntry(b)
    requires m.disk.bat.BitmapEntry(b) == p.disk.bat.BitmapEntry(b)
    requires p.disk.bat.PayloadEntry(b).Some?
    requires
      var e := p.disk.bat.PayloadEntry(b).value;
      HasSlot(e) ==> Same(p.data, m.data, e.FileOffset(), p.disk.BlockSize())
    requires Same(p.data, m.data, BitmapArea(p.disk, b).off, BitmapArea(p.disk, b).len)
    ensures ReadBlock(m.disk, m.data, b) == ReadBlock(p.disk, p.data, b)
  {
    hide Table.PayloadEntry, Table.BitmapEntry, BatEntry.FileOffset, BatEntry.State;
    var e := p.disk.bat.PayloadEntry(b).value;
    var bs := p.disk.BlockSize();
    if HasSlot(e) {
      SameRange(p.data, m.data, e.FileOffset(), bs, e.FileOffset(), bs);
    }
    if e.State() == PARTIALLY_PRESENT && p.disk.bat.BitmapEntry(b).Some? {
      var sb := p.disk.bat.BitmapEntry(b).value;
      if sb.State() == BITMAP_PRESENT {
        UntouchedBitmap(p, m, b, sb);
      }
    }
  }

  lemma UntouchedBitmap(p: Link, m: Link, b: nat, sb: BatEntry)
    requires p.Valid() && m.Valid() && m.disk.metadata == p.disk.metadata
    requires p.disk.bat.BitmapEntry(b) == m.disk.bat.BitmapEntry(b) == Some(sb)
    requires Same(p.data, m.data, sb.FileOffset(), MIB)
    ensures ReadBitmap(m.disk, m.data, b) == ReadBitmap(p.disk, p.data, b)
  {
    hide Table.BitmapEntry, BatEntry.FileOffset, FirstBit;
    var bit := FirstBit(b, p.disk.bat.chunkRatio, p.disk.SectorsPerBlock());
    if bit % 8 == 0 {
      BitmapPartInside(p.disk, b);
      SameRange(p.data, m.data, sb.FileOffset(), MIB, sb.FileOffset() + bit / 8, (p.disk.SectorsPerBlock() + 7) / 8);
    }
  }

  /** The parent's block under a child's: its data when it is fully present, else zeros. */
  ghost function BaseOf(p: Link, b: nat): Buffer
    requires p.Valid()
  {
    match p.disk.bat.PayloadEntry(b)
    case Some(e) => Base(p.data, e, p.disk.BlockSize())
    case None => []
  }

  /** A block of the merged parent in terms of the child's and the old parent's. */
  ghost predicate MergedRead(r: BlockRead, was: Result<BlockRead>, now: Result<BlockRead>, base: Buffer, n: nat, ss: nat) {
    match r
    case Absent => now == was
    case Full(x) => now == Ok(r)
    case Partial(x, bm) => now.Ok? && now.value.Full? && IsOverlay(now.value.data, x, bm, base, n, ss)
  }

  lemma MergedBlockReads(l: Link, p: Link, m: Link, b: nat)
    requires IsMerged(l, p, m) && b < l.disk.BlockCount()
    ensures MergedRead(ReadBlock(l.disk, l.data, b).value, ReadBlock(p.disk, p.data, b), ReadBlock(m.disk, m.data, b),
                       BaseOf(p, b), l.disk.SectorsPerBlock(), l.disk.SectorSize())
  {
    hide ReadBlock, IsOverlay;
    var n, ss := l.disk.SectorsPerBlock(), l.disk.SectorSize();
    SectorInBlock(l, 0);
    var t0, t := p.disk.bat, m.disk.bat;
    var e0 := EntryOf(t0.entries, t0.chunkRatio, b);
    var e := EntryOf(t.entries, t.chunkRatio, b);
    assert t0.PayloadEntry(b) == Some(e0) && t.PayloadEntry(b) == Some(e);
    var r := ReadBlock(l.disk, l.data, b).value;
    assert Added(l, b, l.disk.BlockCount()) == r;
    assert BlockMerged(p.data, e0, m.data, e, r, n, ss);
    if r.Absent? {
      hide BatEntry.State, BatEntry.FileOffset, BitmapArea, MergedSoFar;
      assert Same(p.data, m.data, BitmapArea(p.disk, b).off, BitmapArea(p.disk, b).len);
      UntouchedReads(p, m, b);
    } else {
      FullEntryReads(m, b, e);
    }
  }

  lemma FullEntryReads(m: Link, b: nat, e: BatEntry)
    requires m.Valid() && b < m.disk.BlockCount() && m.disk.bat.PayloadEntry(b) == Some(e)
    requires e.State() == FULLY_PRESENT && e.FileOffset() + m.disk.BlockSize() <= |m.data|
    ensures ReadBlock(m.disk, m.data, b) == Ok(Full(Slice(m.data, e.FileOffset(), m.disk.BlockSize())))
  {
  }

  // ---- Sectors ----

  /** The child's block is partially present and lacks the sector, and the parent's is not fully present: the merge puts zeros there. */
  predicate Exposed(l: Link, p: Link, s: nat)
    requires l.Valid() && p.Valid()
  {
    SectorInBlock(l, s);
    var n := l.disk.SectorsPerBlock();
    LacksSector(ReadBlock(l.disk, l.data, s / n), s % n) && StateUnder(p, s / n) != FullyPresent
  }

  predicate LacksSector(r: Result<BlockRead>, i: nat) {
    r.Ok? && r.value.Partial? && !BitIsSet(r.value.bitmap, i)
  }

  function StateUnder(p: Link, b: nat): PayloadState
    requires p.Valid()
  {
    match p.disk.bat.PayloadEntry(b)
    case Some(e) => e.Payload()
    case None => Undefined
  }

  /** The sector lies in a block of the disk. */
  predicate Inside(p: Link, s: nat)
    requires p.Valid()
  {
    SectorInBlock(p, s);
    s / p.disk.SectorsPerBlock() < p.disk.BlockCount()
  }

  function StateAt(p: Link, s: nat): PayloadState
    requires p.Valid()
  {
    SectorInBlock(p, s);
    StateUnder(p, s / p.disk.SectorsPerBlock())
  }

  /** The sector of a merged block. */
  lemma MergedBlockSector(r: BlockRead, was: Result<BlockRead>, now: Result<BlockRead>, base: Buffer, full: bool, n: nat, ss: nat, i: nat)
    requires i < n && MergedRead(r, was, now, base, n, ss)
    requires if full then was == Ok(Full(base)) else base == Zeros(n * ss)
    ensures
      SectorOfBlock(now, i, ss) ==
      if SectorOfBlock(Ok(r), i, ss).Present? then SectorOfBlock(Ok(r), i, ss)
      else if LacksSector(Ok(r), i) && !full then Present(Zeros(ss))
      else SectorOfBlock(was, i, ss)
  {
    hide BitIsSet, Sector;
    ZeroSector(n, ss, i);
  }

  lemma ZeroSector(n: nat, ss: nat, i: nat)
    requires i < n
    ensures Sector(Zeros(n * ss), i, ss) == Zeros(ss)
  {
    SectorInside(i, n, ss);
  }

  /** Under a fully present parent block the base is what the parent reads; elsewhere it is zeros. */
  lemma FullBaseReads(p: Link, b: nat)
    requires p.Valid() && b < p.disk.BlockCount() && Placed(p.data, p.disk.bat, Kept(p.disk), p.disk.BlockSize())
    ensures if StateUnder(p, b) == FullyPresent then ReadBlock(p.disk, p.data, b) == Ok(Full(BaseOf(p, b)))
            else BaseOf(p, b) == Zeros(p.disk.BlockSize())
  {
    var e := EntryOf(p.disk.bat.entries, p.disk.bat.chunkRatio, b);
    assert p.disk.bat.PayloadEntry(b) == Some(e);
    if e.State() == FULLY_PRESENT {
      assert Slot(p.disk.bat, b) == Some(e.FileOffset());
      FullEntryReads(p, b, e);
    }
  }

  /** The merged parent has the child's sectors; where the child has none, the parent's, unless they were exposed. */
  lemma MergedSector(l: Link, p: Link, m: Link, s: nat)
    requires IsMerged(l, p, m)
    ensures !LinkSector(l, s).Broken? && (Exposed(l, p, s) ==> LinkSector(l, s).Missing?)
    ensures LinkSector(m, s) ==
            if !LinkSector(l, s).Missing? then LinkSector(l, s)
            else if Exposed(l, p, s) then Present(Zeros(l.disk.SectorSize()))
            else LinkSector(p, s)
  {
    hide ReadBlock, StateUnder, MergedSoFar, BitmapsKept, Placed, BitIsSet, Sector;
    SectorInBlock(l, s);
    var n, ss := l.disk.SectorsPerBlock(), l.disk.SectorSize();
    var b := s / n;
    if b < l.disk.BlockCount() {
      MergedBlockReads(l, p, m, b);
      FullBaseReads(p, b);
      MergedBlockSector(ReadBlock(l.disk, l.data, b).value, ReadBlock(p.disk, p.data, b), ReadBlock(m.disk, m.data, b),
                        BaseOf(p, b), StateUnder(p, b) == FullyPresent, n, ss, s % n);
    } else {
      PastTheEnd(l, b);
    }
  }

  lemma PastTheEnd(l: Link, b: nat)
    requires l.Valid() && b >= l.disk.BlockCount()
    ensures ReadBlock(l.disk, l.data, b).Err?
  {
  }

  // ---- Chains ----

  ghost predicate AllValid(ls: seq<Link>) {
    forall i :: 0 <= i < |ls| ==> ls[i].Valid()
  }

  /** The guest reads the same bytes from both chains, in every sector. */
  ghost predicate SameView(a: seq<Link>, b: seq<Link>, ss: nat)
    requires AllValid(a) && AllValid(b)
  {
    forall s: nat :: GuestBytes(ChainSector(a, s), ss) == GuestBytes(ChainSector(b, s), ss)
  }

  lemma TwoAbove(l: Link, p: Link, rest: seq<Link>, s: nat)
    requires l.Valid() && p.Valid() && AllValid(rest)
    ensures ChainSector([l, p] + rest, s) == if LinkSector(l, s).Missing? then ChainSector([p] + rest, s) else LinkSector(l, s)
    ensures ChainSector([p] + rest, s) == if LinkSector(p, s).Missing? then ChainSector(rest, s) else LinkSector(p, s)
  {
    hide LinkSector, ChainSector;
    LeafFirst(p, rest, s);
    LeafFirst(l, [p] + rest, s);
    assert [l] + ([p] + rest) == [l, p] + rest;
  }

  /** Sector `s` of the chain after the merge. */
  lemma MergedChainSector(l: Link, p: Link, m: Link, rest: seq<Link>, s: nat)
    requires IsMerged(l, p, m) && AllValid(rest)
    ensures ChainSector([m] + rest, s) ==
            if Exposed(l, p, s) then Present(Zeros(l.disk.SectorSize())) else ChainSector([l, p] + rest, s)
    ensures Exposed(l, p, s) ==> ChainSector([l, p] + rest, s) == ChainSector([p] + rest, s)
  {
    hide LinkSector, ChainSector, Exposed, MergedSoFar, Placed, BitmapsKept;
    MergedSector(l, p, m, s);
    TwoAbove(l, p, rest, s);
    LeafFirst(m, rest, s);
  }

  /** The guest reads zeros, before the merge, in every sector the merge exposes. */
  ghost predicate ExposedReadZero(l: Link, p: Link, rest: seq<Link>)
    requires l.Valid() && p.Valid() && AllValid(rest)
  {
    forall s: nat :: Exposed(l, p, s) ==>
      GuestBytes(ChainSector([p] + rest, s), l.disk.SectorSize()) == Zeros(l.disk.SectorSize())
  }

  /** Over a given rest of the chain, the merge keeps the view exactly when every exposed sector read zero. */
  lemma MergeKeepsViewIff(l: Link, p: Link, m: Link, rest: seq<Link>)
    requires IsMerged(l, p, m) && AllValid(rest)
    ensures SameView([m] + rest, [l, p] + rest, l.disk.SectorSize()) <==> ExposedReadZero(l, p, rest)
  {
    hide Exposed, ChainSector, LinkSector, MergedSoFar, Placed, BitmapsKept;
    var ss := l.disk.SectorSize();
    forall s: nat
      ensures ChainSector([m] + rest, s) == if Exposed(l, p, s) then Present(Zeros(ss)) else ChainSector([l, p] + rest, s)
      ensures Exposed(l, p, s) ==> ChainSector([l, p] + rest, s) == ChainSector([p] + rest, s)
    {
      MergedChainSector(l, p, m, rest, s);
    }
  }

  // ---- Whatever lies below ----

  /** A link of the parent's geometry in which every sector has data other than zeros. */
  function OnesLink(p: Link): (o: Link)
    requires p.Valid()
    ensures o.Valid() && o.disk.metadata == p.disk.metadata
  {
    var full := Table(seq(PayloadIndex(p.disk.BlockCount(), p.disk.bat.chunkRatio), _ => BatEntry(FULLY_PRESENT)),
                      p.disk.bat.chunkRatio, p.disk.bat.blockCount);
    Link(p.disk.(bat := full), seq(p.disk.BlockSize(), _ => 1))
  }

  lemma OnesRead(p: Link, s: nat)
    requires p.Valid() && Inside(p, s)
    ensures LinkSector(OnesLink(p), s).Present? && LinkSector(OnesLink(p), s).bytes != Zeros(p.disk.SectorSize())
  {
    var o := OnesLink(p);
    SectorInBlock(p, s);
    var n, ss := p.disk.SectorsPerBlock(), p.disk.SectorSize();
    OnesBlockReads(p, s / n);
    OnesSector(o.data, s % n, ss);
    hide ReadBlock, OnesLink, Sector;
  }

  lemma OnesBlockReads(p: Link, b: nat)
    requires p.Valid() && b < p.disk.BlockCount()
    ensures ReadBlock(OnesLink(p).disk, OnesLink(p).data, b) == Ok(Full(OnesLink(p).data))
  {
    var o := OnesLink(p);
    hide ReadBlock, PayloadIndex;
    PayloadIndexIncreases(b, p.disk.BlockCount(), p.disk.bat.chunkRatio);
    FullEntryReads(o, b, BatEntry(FULLY_PRESENT));
    assert Slice(o.data, 0, |o.data|) == o.data;
  }

  lemma OnesSector(buf: Buffer, i: nat, ss: nat)
    requires ss > 0 && i * ss + ss <= |buf| && forall j :: 0 <= j < |buf| ==> buf[j] == 1
    ensures Sector(buf, i, ss) != Zeros(ss)
  {
    assert Sector(buf, i, ss)[0] == 1;
  }

  predicate SameShape(l: Link, p: Link)
    requires l.Valid() && p.Valid()
  {
    l.disk.BlockSize() == p.disk.BlockSize() && l.disk.SectorSize() == p.disk.SectorSize() &&
    l.disk.BlockCount() == p.disk.BlockCount()
  }

  /** The parent itself has every exposed sector, all zeros. */
  ghost predicate ExposedAreZero(l: Link, p: Link)
    requires l.Valid() && p.Valid()
  {
    forall s: nat :: Exposed(l, p, s) ==> LinkSector(p, s) == Present(Zeros(l.disk.SectorSize()))
  }

  /** Every view is kept, whatever links of the same sector size lie below the parent. */
  ghost predicate KeepsEveryView(l: Link, p: Link, m: Link)
    requires l.Valid() && p.Valid() && m.Valid()
  {
    forall rest: seq<Link> :: Uniform(rest, l.disk.SectorSize()) ==> SameView([m] + rest, [l, p] + rest, l.disk.SectorSize())
  }

  /** Exposed sectors read zero over every rest of the chain exactly when the parent has zeros in each of them. */
  lemma ReadZeroOverEveryRestIff(l: Link, p: Link)
    requires l.Valid() && p.Valid() && SameShape(l, p)
    ensures (forall rest: seq<Link> :: Uniform(rest, l.disk.SectorSize()) ==> ExposedReadZero(l, p, rest)) <==> ExposedAreZero(l, p)
  {
    hide Exposed, ChainSector, LinkSector, ExposedReadZero;
    var ss := l.disk.SectorSize();
    if ExposedAreZero(l, p) {
      forall rest: seq<Link> | Uniform(rest, ss)
        ensures ExposedReadZero(l, p, rest)
      {
        ZerosReadZero(l, p, rest);
      }
    } else {
      var s: nat :| Exposed(l, p, s) && LinkSector(p, s) != Present(Zeros(ss));
      var rest := if LinkSector(p, s).Missing? then [OnesLink(p)] else [];
      assert Uniform(rest, ss);
      ExposedDiffers(l, p, rest, s);
    }
  }

  /** The merge keeps the view over every rest of the chain exactly when the parent has zeros in every exposed sector. */
  lemma MergeKeepsEveryViewIff(l: Link, p: Link, m: Link)
    requires IsMerged(l, p, m)
    ensures KeepsEveryView(l, p, m) <==> ExposedAreZero(l, p)
  {
    hide ExposedAreZero, SameView, ExposedReadZero, MergedSoFar, Placed, BitmapsKept;
    var ss := l.disk.SectorSize();
    ReadZeroOverEveryRestIff(l, p);
    forall rest: seq<Link> | Uniform(rest, ss)
      ensures SameView([m] + rest, [l, p] + rest, ss) <==> ExposedReadZero(l, p, rest)
    {
      MergeKeepsViewIff(l, p, m, rest);
    }
  }

  lemma ZerosReadZero(l: Link, p: Link, rest: seq<Link>)
    requires l.Valid() && p.Valid() && AllValid(rest) && ExposedAreZero(l, p)
    ensures ExposedReadZero(l, p, rest)
  {
    hide Exposed, ChainSector, LinkSector;
    forall s: nat | Exposed(l, p, s)
      ensures GuestBytes(ChainSector([p] + rest, s), l.disk.SectorSize()) == Zeros(l.disk.SectorSize())
    {
      LeafFirst(p, rest, s);
    }
  }

  lemma ExposedInside(l: Link, p: Link, s: nat)
    requires l.Valid() && p.Valid() && Exposed(l, p, s)
    ensures Inside(l, s)
  {
    SectorInBlock(l, s);
    if s / l.disk.SectorsPerBlock() >= l.disk.BlockCount() {
      PastTheEnd(l, s / l.disk.SectorsPerBlock());
    }
    hide ReadBlock;
  }

  lemma ExposedDiffers(l: Link, p: Link, rest: seq<Link>, s: nat)
    requires l.Valid() && p.Valid() && AllValid(rest) && Exposed(l, p, s)
    requires SameShape(l, p) && LinkSector(p, s) != Present(Zeros(l.disk.SectorSize()))
    requires rest == if LinkSector(p, s).Missing? then [OnesLink(p)] else []
    ensures !ExposedReadZero(l, p, rest)
  {
    hide Exposed, LinkSector, OnesLink;
    ExposedInside(l, p, s);
    LeafFirst(p, rest, s);
    OnesRead(p, s);
    assert [OnesLink(p)][..0] == [];
    assert GuestBytes(ChainSector([p] + rest, s), l.disk.SectorSize()) != Zeros(l.disk.SectorSize());
  }

  // ---- What a caller can check ----

  /** Every partially present block of the child lies over a parent block in one of these states. */
  ghost predicate PartialOver(l: Link, p: Link, states: set<PayloadState>)
    requires l.Valid() && p.Valid()
  {
    forall b: nat :: ReadBlock(l.disk, l.data, b).Ok? && ReadBlock(l.disk, l.data, b).value.Partial? ==> StateUnder(p, b) in states
  }

  lemma StateReads(p: Link, s: nat)
    requires p.Valid() && Inside(p, s) && p.disk.bat.Complete()
    ensures StateAt(p, s) == Zero ==> LinkSector(p, s) == Present(Zeros(p.disk.SectorSize()))
    ensures StateAt(p, s) in {NotPresent, Unmapped, Undefined} ==> LinkSector(p, s) == Missing
  {
    hide ReadBitmap;
    SectorInBlock(p, s);
    ZeroSector(p.disk.SectorsPerBlock(), p.disk.SectorSize(), s % p.disk.SectorsPerBlock());
    hide Sector, BatEntry.State;
  }

  lemma ExposedOver(l: Link, p: Link, m: Link, states: set<PayloadState>, s: nat)
    requires IsMerged(l, p, m) && PartialOver(l, p, states) && Exposed(l, p, s)
    ensures Inside(p, s) && StateAt(p, s) in states && StateAt(p, s) != FullyPresent
  {
    hide ReadBlock, MergedSoFar, BitmapsKept, Placed;
    ExposedInside(l, p, s);
  }

  /** Over fully present and zero blocks the merge keeps the view, whatever lies below the parent. */
  lemma PartialOverFullIsSafe(l: Link, p: Link, m: Link, rest: seq<Link>)
    requires IsMerged(l, p, m) && AllValid(rest) && PartialOver(l, p, {FullyPresent, Zero})
    ensures SameView([m] + rest, [l, p] + rest, l.disk.SectorSize())
  {
    hide LinkSector, ChainSector, SameView, StateAt, Inside, MergedSoFar, BitmapsKept, Exposed, PartialOver, ReadBlock;
    forall s: nat | Exposed(l, p, s)
      ensures LinkSector(p, s) == Present(Zeros(l.disk.SectorSize()))
    {
      ExposedOver(l, p, m, {FullyPresent, Zero}, s);
      StateReads(p, s);
    }
    ZerosReadZero(l, p, rest);
    MergeKeepsViewIff(l, p, m, rest);
  }

  /** Over a parent that is itself the base of the chain, any state will do that is known and not partial. */
  lemma PartialOverBaseIsSafe(l: Link, p: Link, m: Link)
    requires IsMerged(l, p, m) && PartialOver(l, p, {FullyPresent, Zero, NotPresent, Unmapped, Undefined})
    ensures SameView([m], [l, p], l.disk.SectorSize())
  {
    hide LinkSector, ChainSector, SameView, StateAt, Inside, MergedSoFar, BitmapsKept, Exposed, PartialOver, ReadBlock;
    forall s: nat | Exposed(l, p, s)
      ensures GuestBytes(ChainSector([p] + [], s), l.disk.SectorSize()) == Zeros(l.disk.SectorSize())
    {
      ExposedOver(l, p, m, {FullyPresent, Zero, NotPresent, Unmapped, Undefined}, s);
      StateReads(p, s);
      OnlyLink(p, s);
    }
    MergeKeepsViewIff(l, p, m, []);
    assert [m] + [] == [m] && [l, p] + [] == [l, p];
  }

  lemma OnlyLink(p: Link, s: nat)
    requires p.Valid()
    ensures ChainSector([p] + [], s) == LinkSector(p, s)
  {
    hide LinkSector;
    assert [p] + [] == [p] && [p][..0] == [];
  }

  // ---- A merge that stopped ----

  /** A sector the child's block lacks, read from the parent through its old entry. */
  lemma HaltedBlock(l: Link, p: Link, after: Buffer, keep: seq<Area>, b: nat, i: nat)
    requires l.Valid() && p.Valid() && SameShape(l, p) && b < p.disk.BlockCount() && i < l.disk.SectorsPerBlock()
    requires Halted(p.data, p.disk.bat, after, keep, l) && BitmapsKept(p.data, after, p.disk)
    requires SectorOfBlock(ReadBlock(l.disk, l.data, b), i, l.disk.SectorSize()).Missing?
    ensures SectorOfBlock(ReadBlock(p.disk, after, b), i, l.disk.SectorSize()) ==
            SectorOfBlock(ReadBlock(p.disk, p.data, b), i, l.disk.SectorSize())
  {
    var t0 := p.disk.bat;
    var n, ss := l.disk.SectorsPerBlock(), l.disk.SectorSize();
    var e0 := EntryOf(t0.entries, t0.chunkRatio, b);
    SectorInBlock(l, 0);
    assert t0.PayloadEntry(b) == Some(e0);
    var r := ReadBlock(l.disk, l.data, b).value;
    assert Added(l, b, l.disk.BlockCount()) == r;
    assert OldWhereLacking(p.data, e0, after, r, n, ss);
    hide ReadBlock, BitmapArea, BatEntry.FileOffset, BatEntry.State, Halted, AreasKept, EntryOf, Table.PayloadEntry, Sector, BitIsSet;
    if HasSlot(e0) ==> Same(p.data, after, e0.FileOffset(), n * ss) {
      UntouchedReads(p, Link(p.disk, after), b);
    } else {
      FullEntryReads(Link(p.disk, after), b, e0);
      FullEntryReads(p, b, e0);
    }
  }

  lemma SectorOf(l: Link, s: nat)
    requires l.Valid()
    ensures
      var n := l.disk.SectorsPerBlock();
      && n > 0
      && LinkSector(l, s) == if s / n >= l.disk.BlockCount() then Missing
                             else SectorOfBlock(ReadBlock(l.disk, l.data, s / n), s % n, l.disk.SectorSize())
  {
    SectorInBlock(l, s);
    hide ReadBlock, SectorOfBlock;
  }

  /** Where the child has no data, the parent still reads as before. */
  lemma HaltedSector(l: Link, p: Link, after: Buffer, keep: seq<Area>, s: nat)
    requires l.Valid() && p.Valid() && SameShape(l, p)
    requires Halted(p.data, p.disk.bat, after, keep, l) && BitmapsKept(p.data, after, p.disk)
    requires LinkSector(l, s).Missing?
    ensures LinkSector(Link(p.disk, after), s) == LinkSector(p, s)
  {
    hide ReadBlock, Halted, SectorOfBlock, BitmapsKept, LinkSector;
    assert p.disk.SectorsPerBlock() == l.disk.SectorsPerBlock();
    hide VhdxDisk.SectorsPerBlock, VhdxDisk.BlockSize, VhdxDisk.BlockCount, Metadata.HasGeometry;
    SectorOf(l, s);
    SectorOf(p, s);
    SectorOf(Link(p.disk, after), s);
    var n := l.disk.SectorsPerBlock();
    if s / n < p.disk.BlockCount() {
      HaltedBlock(l, p, after, keep, s / n, s % n);
    }
  }

  /** Wherever a merge stops before its table is written, even inside a block, the guest reads the same through the child. */
  lemma HaltedKeepsView(l: Link, p: Link, after: Buffer, rest: seq<Link>)
    requires l.Valid() && p.Valid() && SameShape(l, p) && AllValid(rest)
    requires Halted(p.data, p.disk.bat, after, Kept(p.disk), l)
    ensures forall s: nat :: ChainSector([l, Link(p.disk, after)] + rest, s) == ChainSector([l, p] + rest, s)
  {
    hide LinkSector, ChainSector, BitmapsKept;
    KeptBitmaps(p.data, after, p.disk);
    hide Halted;
    var q := Link(p.disk, after);
    forall s: nat
      ensures ChainSector([l, q] + rest, s) == ChainSector([l, p] + rest, s)
    {
      TwoAbove(l, p, rest, s);
      TwoAbove(l, q, rest, s);
      if LinkSector(l, s).Missing? {
        HaltedSector(l, p, after, Kept(p.disk), s);
      }
    }
  }

  // ---- Merging and flattening ----

  /** Chains with one view have the same flat images. */
  lemma SameViewSameFlat(image: Buffer, p: WriterParams, a: seq<Link>, b: seq<Link>)
    requires AllValid(a) && AllValid(b) && SameView(a, b, p.logicalSectorSize)
    requires IsFlat(image, p, a)
    ensures IsFlat(image, p, b)
  {
    hide ChainSector, LinkSector, OpenDisk;
  }

  /** Flattening after a merge that keeps the view gives an image of the chain as it was before the merge, and the other way round. */
  lemma FlattenAfterMerge(l: Link, p: Link, m: Link, rest: seq<Link>, image: Buffer, params: WriterParams)
    requires IsMerged(l, p, m) && AllValid(rest) && ExposedReadZero(l, p, rest)
    requires params.logicalSectorSize == l.disk.SectorSize()
    ensures IsFlat(image, params, [m] + rest) <==> IsFlat(image, params, [l, p] + rest)
  {
    hide ChainSector, LinkSector, IsFlat, MergedSoFar, Placed, BitmapsKept, ExposedReadZero;
    MergeKeepsViewIff(l, p, m, rest);
    if IsFlat(image, params, [m] + rest) {
      SameViewSameFlat(image, params, [m] + rest, [l, p] + rest);
    }
    if IsFlat(image, params, [l, p] + rest) {
      SameViewSameFlat(image, params, [l, p] + rest, [m] + rest);
    }
  }
}
