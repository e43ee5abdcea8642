/** Composing one leaf-sized block from a chain of links (flatten.rs, fill_from_link and merge_block). */
module Composite {
  import opened Wrappers
  import opened Bytes
  import opened FileIo
  import opened Disks
  import opened ChainView

  /** The first `n` sectors of a buffer. */
  function Sectors(buf: Buffer, n: nat, ss: nat): (r: seq<Buffer>)
    ensures |r| == n
    ensures forall i :: 0 <= i < n ==> r[i] == Sector(buf, i, ss)
  {
    seq(n, i requires 0 <= i => Sector(buf, i, ss))
  }

  lemma SectorInside(i: nat, n: nat, ss: nat)
    requires i < n
    ensures i * ss + ss <= n * ss
  {
    MulMonotone(ss, i + 1, n);
    assert ss * (i + 1) == i * ss + ss && ss * n == n * ss;
  }

  lemma SectorWritten(buf: Buffer, n: nat, ss: nat, s: nat, src: Buffer)
    requires |buf| == n * ss && s < n && |src| == ss
    ensures |Written(buf, s * ss, src)| == n * ss
    ensures Sectors(Written(buf, s * ss, src), n, ss) == Sectors(buf, n, ss)[s := src]
  {
    hide Sector;
    var w := Written(buf, s * ss, src);
    SectorInside(s, n, ss);
    forall i | 0 <= i < n
      ensures Sector(w, i, ss) == if i == s then src else Sector(buf, i, ss)
    {
      if i == s {
        SectorReadsBack(buf, s, ss, src);
      } else {
        SectorInside(i, n, ss);
        SectorsApart(i, s, ss);
        OtherSectorKept(buf, s * ss, src, i, ss);
      }
    }
  }

  lemma SectorsApart(i: nat, s: nat, ss: nat)
    requires i != s
    ensures i * ss + ss <= s * ss || s * ss + ss <= i * ss
  {
    if i < s {
      SectorInside(i, s, ss);
    } else {
      SectorInside(s, i, ss);
    }
  }

  lemma SectorReadsBack(buf: Buffer, s: nat, ss: nat, src: Buffer)
    requires s * ss + ss <= |buf| && |src| == ss
    ensures Sector(Written(buf, s * ss, src), s, ss) == src
  {
    SectorIsSlice(Written(buf, s * ss, src), s, ss);
  }

  lemma OtherSectorKept(buf: Buffer, off: nat, src: Buffer, i: nat, ss: nat)
    requires i * ss + ss <= |buf| && (i * ss + ss <= off || off + |src| <= i * ss)
    ensures Sector(Written(buf, off, src), i, ss) == Sector(buf, i, ss)
  {
    WrittenKeeps(buf, off, src, i * ss, ss);
    SectorIsSlice(buf, i, ss);
    SectorIsSlice(Written(buf, off, src), i, ss);
  }

  /** Two buffers of whole sectors with the same sectors are the same. */
  lemma SameSectors(a: Buffer, b: Buffer, n: nat, ss: nat)
    requires ss > 0 && |a| == n * ss && |b| == n * ss && Sectors(a, n, ss) == Sectors(b, n, ss)
    ensures a == b
  {
    forall j | 0 <= j < n * ss
      ensures a[j] == b[j]
    {
      var i := j / ss;
      ByteInSector(j, n, ss);
      SectorByte(a, i, j % ss, n, ss);
      SectorByte(b, i, j % ss, n, ss);
      assert Sectors(a, n, ss)[i] == Sectors(b, n, ss)[i];
    }
  }

  lemma ByteInSector(j: nat, n: nat, ss: nat)
    requires ss > 0 && j < n * ss
    ensures j == j / ss * ss + j % ss && j / ss < n
  {
    assert j == ss * (j / ss) + j % ss;
    MulMonotone(ss, n, j / ss);
    assert ss * n == n * ss;
  }

  lemma SectorByte(buf: Buffer, i: nat, k: nat, n: nat, ss: nat)
    requires i < n && k < ss && |buf| == n * ss
    ensures i * ss + k < |buf| && Sector(buf, i, ss)[k] == buf[i * ss + k]
  {
    SectorInside(i, n, ss);
    SectorIsSlice(buf, i, ss);
  }

  method CopySector(composite: array<Byte>, s: nat, n: nat, ss: nat, src: Buffer)
    requires composite.Length == n * ss && s < n && |src| == ss
    modifies composite
    ensures Sectors(composite[..], n, ss) == old(Sectors(composite[..], n, ss))[s := src]
  {
    SectorInside(s, n, ss);
    CopyInto(composite, s * ss, src);
    SectorWritten(old(composite[..]), n, ss, s, src);
  }

  method CopyInto(a: array<Byte>, lo: nat, src: Buffer)
    requires lo + |src| <= a.Length
    modifies a
    ensures a[..] == Written(old(a[..]), lo, src)
  {
    for i := 0 to |src|
      invariant forall j :: 0 <= j < a.Length ==> a[j] == if lo <= j < lo + i then src[j - lo] else old(a[j])
    {
      a[lo + i] := src[i];
    }
  }

  // ---- What one link adds ----

  /** The sectors a link has for the `n` sectors from `first` on. */
  ghost function Window(l: Link, first: nat, n: nat): (w: seq<SectorRead>)
    requires l.Valid()
    ensures |w| == n
  {
    seq(n, i requires 0 <= i => LinkSector(l, first + i))
  }

  lemma WindowAt(l: Link, first: nat, n: nat, i: nat)
    requires l.Valid() && i < n
    ensures Window(l, first, n)[i] == LinkSector(l, first + i)
  {
    hide LinkSector;
  }

  /** Of the sectors [lo, hi) the unfilled ones now hold what `want` has for them; the others are as they were. */
  ghost predicate FilledFrom(want: seq<SectorRead>, lo: int, hi: int,
                             s0: seq<Buffer>, f0: seq<bool>, s1: seq<Buffer>, f1: seq<bool>)
    requires |want| == |s0| == |f0| == |s1| == |f1|
  {
    forall i :: 0 <= i < |want| ==>
      if lo <= i < hi && !f0[i] then
        match want[i]
        case Present(b) => f1[i] && s1[i] == b
        case Missing => !f1[i] && s1[i] == s0[i]
        case Broken => false
      else f1[i] == f0[i] && s1[i] == s0[i]
  }

  /** An unfilled sector that the link cannot read. */
  ghost predicate Stuck(want: seq<SectorRead>, filled: seq<bool>)
    requires |want| == |filled|
  {
    exists i :: 0 <= i < |want| && !filled[i] && want[i].Broken?
  }

  /** Where destination sector `s` lies in link block `blk`. */
  lemma SourceSector(first: nat, s: nat, blk: nat, spb: nat, ss: nat)
    requires ss > 0 && spb > 0 && blk * spb <= first + s < (blk + 1) * spb
    ensures (first + s) / spb == blk && (first + s) % spb == first + s - blk * spb
    ensures first * ss + s * ss - blk * (spb * ss) == (first + s - blk * spb) * ss
    ensures (first + s - blk * spb) * ss / ss == first + s - blk * spb
  {
    var i := first + s - blk * spb;
    assert (blk + 1) * spb == blk * spb + spb;
    assert first + s == spb * blk + i;
    DivModUnique(first + s, spb, blk, i);
    assert blk * (spb * ss) == (blk * spb) * ss;
    assert i * ss == ss * i;
    DivModUnique(i * ss, ss, i, 0);
  }

  /** The destination sectors a link block overlaps, from byte offsets as the code computes them. */
  lemma OverlapInSectors(first: nat, n: nat, blk: nat, spb: nat, ss: nat)
    requires ss > 0 && spb > 0 && n > 0
    requires blk * spb < first + n && first < (blk + 1) * spb
    ensures
      var vStart := first * ss;
      var link := blk * (spb * ss);
      && Max(vStart, link) < Min(vStart + n * ss, link + spb * ss)
      && (Max(vStart, link) - vStart) / ss == Max(first, blk * spb) - first
      && (Min(vStart + n * ss, link + spb * ss) - vStart) / ss == Min(first + n, (blk + 1) * spb) - first
  {
    NextMultiple(blk, spb);
    Reassociated(blk, spb, ss);
    RangesOverlap(first, n, blk * spb, spb, ss);
  }

  lemma NextMultiple(a: nat, d: nat)
    ensures (a + 1) * d == a * d + d
  {
  }

  lemma Reassociated(a: nat, b: nat, c: nat)
    ensures a * (b * c) == (a * b) * c
  {
  }

  lemma ScaledSum(a: nat, b: nat, ss: nat)
    ensures a * ss + b * ss == (a + b) * ss
  {
  }

  lemma ScaledGap(a: nat, b: nat, ss: nat)
    requires ss > 0 && a <= b
    ensures (b * ss - a * ss) / ss == b - a
    ensures a < b ==> a * ss < b * ss
  {
    assert b * ss - a * ss == ss * (b - a);
    DivModUnique(ss * (b - a), ss, b - a, 0);
    MulMonotone(ss, 1, b - a);
  }

  /** Two ranges of sectors that overlap, in bytes. */
  lemma RangesOverlap(a: nat, n: nat, b: nat, m: nat, ss: nat)
    requires ss > 0 && n > 0 && m > 0 && b < a + n && a < b + m
    ensures Max(a * ss, b * ss) < Min(a * ss + n * ss, b * ss + m * ss)
    ensures (Max(a * ss, b * ss) - a * ss) / ss == Max(a, b) - a
    ensures (Min(a * ss + n * ss, b * ss + m * ss) - a * ss) / ss == Min(a + n, b + m) - a
  {
    var lo, hi := Max(a, b), Min(a + n, b + m);
    ScaledSum(a, n, ss);
    ScaledSum(b, m, ss);
    ScaledMax(a, b, ss);
    ScaledMin(a + n, b + m, ss);
    ScaledGap(a, lo, ss);
    ScaledGap(a, hi, ss);
    ScaledGap(lo, hi, ss);
  }

  lemma ScaledMax(a: nat, b: nat, ss: nat)
    ensures Max(a * ss, b * ss) == Max(a, b) * ss
  {
    MulMonotone(ss, a, b);
    MulMonotone(ss, b, a);
    assert ss * a == a * ss && ss * b == b * ss;
  }

  lemma ScaledMin(a: nat, b: nat, ss: nat)
    ensures Min(a * ss, b * ss) == Min(a, b) * ss
  {
    MulMonotone(ss, a, b);
    MulMonotone(ss, b, a);
    assert ss * a == a * ss && ss * b == b * ss;
  }

  /** The link blocks visited: from the one that holds the first sector to the one that holds the last. */
  lemma BlocksVisited(first: nat, n: nat, spb: nat, ss: nat)
    requires ss > 0 && spb > 0 && n > 0
    ensures first * ss / (spb * ss) == first / spb
    ensures (first * ss + n * ss - 1) / (spb * ss) == (first + n - 1) / spb
    ensures first / spb * spb <= first
    ensures first + n <= ((first + n - 1) / spb + 1) * spb
  {
    var last := first + n - 1;
    ScaledDiv(first, 0, spb, ss);
    ScaledDiv(last, ss - 1, spb, ss);
    LastByte(first, n, ss);
    InItsBlock(first, spb);
    InItsBlock(last, spb);
  }

  lemma LastByte(first: nat, n: nat, ss: nat)
    requires ss > 0 && n > 0
    ensures (first + n - 1) * ss + (ss - 1) == first * ss + n * ss - 1
  {
    assert (first + n - 1) * ss + ss == (first + n) * ss == first * ss + n * ss;
  }

  lemma InItsBlock(x: nat, spb: nat)
    requires spb > 0
    ensures x / spb * spb <= x < (x / spb + 1) * spb
  {
    assert x == spb * (x / spb) + x % spb;
    assert (x / spb + 1) * spb == x / spb * spb + spb;
  }

  lemma ScaledDiv(x: nat, y: nat, spb: nat, ss: nat)
    requires ss > 0 && spb > 0 && y < ss
    ensures (x * ss + y) / (spb * ss) == x / spb
  {
    var c := x / spb;
    var r := x % spb;
    assert x == spb * c + r;
    assert x * ss == (spb * ss) * c + r * ss;
    SectorInside(r, spb, ss);
    assert spb * ss > 0;
    DivModUnique(x * ss + y, spb * ss, c, r * ss + y);
  }

  lemma LinkBlockIs(l: Link, s: nat, blk: nat)
    requires l.Valid() && l.disk.SectorsPerBlock() > 0
    requires s / l.disk.SectorsPerBlock() == blk < l.disk.BlockCount()
    ensures LinkSector(l, s) ==
            SectorOfBlock(ReadBlock(l.disk, l.data, blk), s % l.disk.SectorsPerBlock(), l.disk.SectorSize())
  {
    hide ReadBlock, SectorOfBlock;
  }

  /** One sector of a link block, seen from the composite. */
  lemma SeenFromComposite(l: Link, first: nat, s: nat, blk: nat, ss: nat)
    requires l.Valid() && l.disk.SectorSize() == ss && blk < l.disk.BlockCount()
    requires l.disk.SectorsPerBlock() > 0
    requires blk * l.disk.SectorsPerBlock() <= first + s < (blk + 1) * l.disk.SectorsPerBlock()
    ensures
      var idx := first + s - blk * l.disk.SectorsPerBlock();
      && first * ss + s * ss - blk * l.disk.BlockSize() == idx * ss
      && idx * ss / ss == idx
      && idx * ss + ss <= l.disk.BlockSize()
      && LinkSector(l, first + s) == SectorOfBlock(ReadBlock(l.disk, l.data, blk), idx, ss)
  {
    hide ReadBlock, SectorOfBlock, LinkSector;
    var spb := l.disk.SectorsPerBlock();
    SectorInBlock(l, first + s);
    SourceSector(first, s, blk, spb, ss);
    LinkBlockIs(l, first + s, blk);
  }

  /** Whether every sector of a range is already filled. */
  method AllFilled(filled: array<bool>, lo: nat, hi: nat) returns (all: bool)
    requires lo <= hi <= filled.Length
    ensures all <==> forall i :: lo <= i < hi ==> filled[i]
  {
    for k := lo to hi
      invariant forall i :: lo <= i < k ==> filled[i]
    {
      if !filled[k] {
        return false;
      }
    }
    return true;
  }

  /** What destination sector `i` should get comes from sector `i + shift` of the link block, at the byte offset the code computes. */
  ghost predicate Sources(want: SectorRead, i: nat, source: Result<BlockRead>, shift: int, ss: nat, vStart: nat, linkStart: nat) {
    && ss > 0 && i + shift >= 0
    && vStart + i * ss - linkStart == (i + shift) * ss
    && (i + shift) * ss / ss == i + shift
    && (source.Ok? && source.value.Full? ==> (i + shift) * ss + ss <= |source.value.data|)
    && (source.Ok? && source.value.Partial? ==> (i + shift) * ss + ss <= |source.value.payload|)
    && want == SectorOfBlock(source, i + shift, ss)
  }

  lemma FilledOneMore(want: seq<SectorRead>, lo: nat, s: nat,
                      s0: seq<Buffer>, f0: seq<bool>, s1: seq<Buffer>, f1: seq<bool>, s2: seq<Buffer>, f2: seq<bool>)
    requires |want| == |s0| == |f0| == |s1| == |f1| == |s2| == |f2| && lo <= s < |want|
    requires FilledFrom(want, lo, s, s0, f0, s1, f1)
    requires if !f1[s] && want[s].Present? then s2 == s1[s := want[s].bytes] && f2 == f1[s := true]
             else s2 == s1 && f2 == f1 && (f1[s] || want[s].Missing?)
    ensures FilledFrom(want, lo, s + 1, s0, f0, s2, f2)
  {
  }

  /** Copies the sectors [lo, hi) that are unfilled and set in the bitmap, when there is one. */
  method CopySectors(composite: array<Byte>, filled: array<bool>, lo: nat, hi: nat, ss: nat,
                     source: BlockRead, vStart: nat, linkStart: nat,
                     ghost want: seq<SectorRead>, ghost shift: int)
    requires ss > 0 && lo <= hi <= filled.Length == |want| && composite.Length == filled.Length * ss
    requires !source.Absent?
    requires forall i :: lo <= i < hi ==> Sources(want[i], i, Ok(source), shift, ss, vStart, linkStart)
    modifies composite, filled
    ensures FilledFrom(want, lo, hi, old(Sectors(composite[..], filled.Length, ss)), old(filled[..]),
                       Sectors(composite[..], filled.Length, ss), filled[..])
  {
    hide Sectors, BitIsSet;
    var n := filled.Length;
    ghost var s0, f0 := Sectors(composite[..], n, ss), filled[..];
    for s := lo to hi
      invariant FilledFrom(want, lo, s, s0, f0, Sectors(composite[..], n, ss), filled[..])
    {
      ghost var s1, f1 := Sectors(composite[..], n, ss), filled[..];
      assert Sources(want[s], s, Ok(source), shift, ss, vStart, linkStart);
      if !filled[s] {
        var slo := vStart + s * ss - linkStart;
        var present := source.Full? || BitIsSet(source.bitmap, slo / ss);
        if present {
          var from := if source.Full? then source.data else source.payload;
          SectorIsSlice(from, s + shift, ss);
          CopySector(composite, s, n, ss, Slice(from, slo, ss));
          filled[s] := true;
        }
      }
      FilledOneMore(want, lo, s, s0, f0, s1, f1, Sectors(composite[..], n, ss), filled[..]);
    }
  }

  lemma WholeBlockVerdicts(r: Result<BlockRead>, i: nat, ss: nat)
    ensures r.Err? ==> SectorOfBlock(r, i, ss).Broken?
    ensures r.Ok? && r.value.Absent? ==> SectorOfBlock(r, i, ss).Missing?
  {
  }

  /** Fills from one block of a link: the part of the composite that the link block overlaps. */
  method FillFromBlock(ghost l: Link, disk: VhdxDisk, file: File, blk: nat, vStart: nat,
                       composite: array<Byte>, filled: array<bool>, ss: nat, ghost first: nat, ghost want: seq<SectorRead>)
    returns (r: Result<()>)
    requires l.Valid() && l == Link(disk, file.data) && disk.SectorSize() == ss
    requires vStart == first * ss && composite.Length == filled.Length * ss && want == Window(l, first, filled.Length)
    requires filled.Length > 0 && blk < disk.BlockCount() && disk.SectorsPerBlock() > 0
    requires blk * disk.SectorsPerBlock() < first + filled.Length && first < (blk + 1) * disk.SectorsPerBlock()
    modifies composite, filled
    ensures r.Ok? ==>
              FilledFrom(want, blk * disk.SectorsPerBlock() - first, (blk + 1) * disk.SectorsPerBlock() - first,
                         old(Sectors(composite[..], filled.Length, ss)), old(filled[..]),
                         Sectors(composite[..], filled.Length, ss), filled[..])
    ensures r.Err? ==> Stuck(want, old(filled[..]))
  {
    hide LinkSector, ReadBlock, Sectors, Window, SectorOfBlock;
    var n := filled.Length;
    ghost var spb := disk.SectorsPerBlock();
    SectorInBlock(l, first);
    var linkStart := blk * disk.BlockSize();
    var ovStart := Max(vStart, linkStart);
    var ovEnd := Min(vStart + composite.Length, linkStart + disk.BlockSize());
    OverlapInSectors(first, n, blk, spb, ss);
    var lo := (ovStart - vStart) / ss;
    var hi := (ovEnd - vStart) / ss;
    assert lo == Max(0, blk * spb - first) && hi == Min(n, (blk + 1) * spb - first);
    var all := AllFilled(filled, lo, hi);
    if all {
      return Ok(());
    }
    var read := ReadBlockFrom(disk, file, blk);
    forall i | lo <= i < hi
      ensures Sources(want[i], i, read, first - blk * spb, ss, vStart, linkStart)
      ensures read.Err? ==> want[i].Broken?
      ensures read.Ok? && read.value.Absent? ==> want[i].Missing?
    {
      SeenFromComposite(l, first, i, blk, ss);
      WindowAt(l, first, n, i);
      WholeBlockVerdicts(read, i + (first - blk * spb), ss);
    }
    if read.Err? {
      return Err(read.error);
    }
    if read.value.Absent? {
      return Ok(());
    }
    CopySectors(composite, filled, lo, hi, ss, read.value, vStart, linkStart, want, first - blk * spb);
    return Ok(());
  }

  /** Filling [0, mid) and then [mid, hi) fills [0, hi). */
  lemma FillsJoin(want: seq<SectorRead>, mid: int, hi: int,
                  s0: seq<Buffer>, f0: seq<bool>, s1: seq<Buffer>, f1: seq<bool>, s2: seq<Buffer>, f2: seq<bool>)
    requires |want| == |s0| == |f0| == |s1| == |f1| == |s2| == |f2| && mid <= hi
    requires FilledFrom(want, 0, mid, s0, f0, s1, f1)
    requires FilledFrom(want, mid, hi, s1, f1, s2, f2)
    ensures FilledFrom(want, 0, hi, s0, f0, s2, f2)
  {
  }

  /** Sectors past the link's last block are missing from it. */
  lemma PastTheEnd(l: Link, s: nat)
    requires l.Valid() && l.disk.SectorsPerBlock() > 0
    requires l.disk.BlockCount() * l.disk.SectorsPerBlock() <= s
    ensures LinkSector(l, s).Missing?
  {
    var spb := l.disk.SectorsPerBlock();
    assert s == spb * (s / spb) + s % spb;
    MulMonotone(spb, s / spb + 1, l.disk.BlockCount());
    assert spb * (s / spb + 1) == spb * (s / spb) + spb && spb * l.disk.BlockCount() == l.disk.BlockCount() * spb;
  }

  lemma StuckBefore(want: seq<SectorRead>, mid: int, s0: seq<Buffer>, f0: seq<bool>, s1: seq<Buffer>, f1: seq<bool>)
    requires |want| == |s0| == |f0| == |s1| == |f1|
    requires FilledFrom(want, 0, mid, s0, f0, s1, f1) && Stuck(want, f1)
    ensures Stuck(want, f0)
  {
    var i :| 0 <= i < |want| && !f1[i] && want[i].Broken?;
    assert !f0[i];
  }

  /** Fills the unfilled sectors of the composite from every block of the link that overlaps it. */
  method FillFromLink(ghost l: Link, disk: VhdxDisk, file: File, vStart: nat,
                      composite: array<Byte>, filled: array<bool>, ss: nat, ghost first: nat)
    returns (r: Result<()>)
    requires l.Valid() && l == Link(disk, file.data) && disk.SectorSize() == ss
    requires vStart == first * ss && filled.Length > 0 && composite.Length == filled.Length * ss
    modifies composite, filled
    ensures r.Ok? ==>
              FilledFrom(Window(l, first, filled.Length), 0, filled.Length,
                         old(Sectors(composite[..], filled.Length, ss)), old(filled[..]),
                         Sectors(composite[..], filled.Length, ss), filled[..])
    ensures r.Err? ==> Stuck(Window(l, first, filled.Length), old(filled[..]))
  {
    hide LinkSector, ReadBlock, Sectors, Window;
    SectorInBlock(l, first);
    SectorInside(0, filled.Length, ss);
    BlocksVisited(first, filled.Length, disk.SectorsPerBlock(), ss);
    BlockOrder(first, filled.Length, disk.SectorsPerBlock());
    if disk.BlockCount() == 0 {
      RestIsMissing(l, first, filled.Length, 0, Window(l, first, filled.Length));
      return Ok(());
    }
    var firstBlk := vStart / disk.BlockSize();
    var lastBlk := (vStart + composite.Length - 1) / disk.BlockSize();
    r := WalkBlocks(l, disk, file, firstBlk, lastBlk, vStart, composite, filled, ss, first);
  }

  /** Visits the link blocks in order, up to the last one asked for or the last one there is. */
  method WalkBlocks(ghost l: Link, disk: VhdxDisk, file: File, firstBlk: nat, lastBlk: nat, vStart: nat,
                    composite: array<Byte>, filled: array<bool>, ss: nat, ghost first: nat)
    returns (r: Result<()>)
    requires l.Valid() && l == Link(disk, file.data) && disk.SectorSize() == ss && disk.SectorsPerBlock() > 0
    requires vStart == first * ss && filled.Length > 0 && composite.Length == filled.Length * ss
    requires firstBlk == first / disk.SectorsPerBlock() <= lastBlk == (first + filled.Length - 1) / disk.SectorsPerBlock()
    requires firstBlk * disk.SectorsPerBlock() <= first
    requires first + filled.Length <= (lastBlk + 1) * disk.SectorsPerBlock()
    modifies composite, filled
    ensures r.Ok? ==>
              FilledFrom(Window(l, first, filled.Length), 0, filled.Length,
                         old(Sectors(composite[..], filled.Length, ss)), old(filled[..]),
                         Sectors(composite[..], filled.Length, ss), filled[..])
    ensures r.Err? ==> Stuck(Window(l, first, filled.Length), old(filled[..]))
  {
    hide LinkSector, ReadBlock, Sectors, Window;
    var n := filled.Length;
    ghost var want := Window(l, first, n);
    ghost var spb := disk.SectorsPerBlock();
    ghost var s0, f0 := Sectors(composite[..], n, ss), filled[..];
    var count := disk.BlockCount();
    var blk := firstBlk;
    while blk <= lastBlk && blk < count
      invariant firstBlk <= blk <= lastBlk + 1
      invariant FilledFrom(want, 0, blk * spb - first, s0, f0, Sectors(composite[..], n, ss), filled[..])
    {
      ghost var s1, f1 := Sectors(composite[..], n, ss), filled[..];
      BlockOverlaps(first, n, spb, blk);
      r := FillFromBlock(l, disk, file, blk, vStart, composite, filled, ss, first, want);
      if r.Err? {
        StuckBefore(want, blk * spb - first, s0, f0, s1, f1);
        return;
      }
      FillsJoin(want, blk * spb - first, (blk + 1) * spb - first, s0, f0, s1, f1, Sectors(composite[..], n, ss), filled[..]);
      blk := blk + 1;
    }
    RestIsMissing(l, first, n, blk, want);
    return Ok(());
  }

  /** When the walk stops, the sectors not yet visited lie past the composite or past the link. */
  lemma RestIsMissing(l: Link, first: nat, n: nat, blk: nat, want: seq<SectorRead>)
    requires l.Valid() && l.disk.SectorsPerBlock() > 0 && want == Window(l, first, n)
    requires blk >= l.disk.BlockCount() || first + n <= blk * l.disk.SectorsPerBlock()
    ensures forall i :: 0 <= i < n && blk * l.disk.SectorsPerBlock() - first <= i ==> want[i].Missing?
  {
    hide LinkSector, Window;
    var spb := l.disk.SectorsPerBlock();
    forall i | 0 <= i < n && blk * spb - first <= i
      ensures want[i].Missing?
    {
      MulMonotone(spb, l.disk.BlockCount(), blk);
      assert spb * l.disk.BlockCount() == l.disk.BlockCount() * spb && spb * blk == blk * spb;
      PastTheEnd(l, first + i);
      WindowAt(l, first, n, i);
    }
  }

  lemma BlockOrder(first: nat, n: nat, spb: nat)
    requires spb > 0 && n > 0
    ensures first / spb <= (first + n - 1) / spb
  {
    MulMonotone(spb, (first + n - 1) / spb + 1, first / spb);
  }

  /** Every block visited overlaps the composite. */
  lemma BlockOverlaps(first: nat, n: nat, spb: nat, blk: nat)
    requires spb > 0 && n > 0 && first / spb <= blk <= (first + n - 1) / spb
    ensures blk * spb < first + n && first < (blk + 1) * spb && blk * spb <= (blk + 1) * spb
  {
    MulMonotone(spb, blk, blk + 1);
    MulMonotone(spb, blk, (first + n - 1) / spb);
    MulMonotone(spb, first / spb + 1, blk + 1);
    assert spb * blk == blk * spb && spb * (blk + 1) == (blk + 1) * spb;
  }

  // ---- A whole chain ----

  /** An open link: the parsed image and its file. */
  datatype OpenLink = OpenLink(disk: VhdxDisk, file: File)

  ghost predicate Opened(links: seq<OpenLink>, ls: seq<Link>)
    reads set i | 0 <= i < |links| :: links[i].file
  {
    && |links| == |ls|
    && forall i :: 0 <= i < |ls| ==> ls[i].disk == links[i].disk && ls[i].data == links[i].file.data
  }

  /** The chain's answer for the `n` sectors from `first` on. */
  ghost function ChainWindow(ls: seq<Link>, first: nat, n: nat): (w: seq<SectorRead>)
    requires forall i :: 0 <= i < |ls| ==> ls[i].Valid()
    ensures |w| == n
  {
    seq(n, i requires 0 <= i && forall j :: 0 <= j < |ls| ==> ls[j].Valid() => ChainSector(ls, first + i))
  }

  lemma ChainWindowAt(ls: seq<Link>, first: nat, n: nat, i: nat)
    requires (forall j :: 0 <= j < |ls| ==> ls[j].Valid()) && i < n
    ensures ChainWindow(ls, first, n)[i] == ChainSector(ls, first + i)
  {
    hide ChainSector;
  }

  ghost predicate Readable(w: seq<SectorRead>) {
    forall i :: 0 <= i < |w| ==> !w[i].Broken?
  }

  /** What the guest reads for a window of sectors. */
  ghost function GuestSectors(w: seq<SectorRead>, ss: nat): (r: seq<Buffer>)
    ensures |r| == |w|
    ensures forall i :: 0 <= i < |w| ==> r[i] == GuestBytes(w[i], ss)
  {
    seq(|w|, i requires 0 <= i < |w| => GuestBytes(w[i], ss))
  }

  /** The sectors some link has are filled with what the first such link has; the others are zero. */
  ghost predicate Composed(w: seq<SectorRead>, ss: nat, sectors: seq<Buffer>, filled: seq<bool>)
    requires |w| == |sectors| == |filled|
  {
    forall i :: 0 <= i < |w| ==>
      match w[i]
      case Present(b) => filled[i] && sectors[i] == b
      case Missing => !filled[i] && sectors[i] == Zeros(ss)
      case Broken => false
  }

  /** How one more link changes the chain's answer. */
  lemma OneMoreLink(ls: seq<Link>, k: nat, first: nat, n: nat, i: nat)
    requires k < |ls| && (forall j :: 0 <= j < |ls| ==> ls[j].Valid()) && i < n
    ensures
      var upper := ChainWindow(ls[..k], first, n);
      ChainWindow(ls[..k + 1], first, n)[i] == if upper[i].Missing? then Window(ls[k], first, n)[i] else upper[i]
  {
    hide LinkSector;
    assert ls[..k + 1][..k] == ls[..k];
    ChainWindowAt(ls[..k], first, n, i);
    ChainWindowAt(ls[..k + 1], first, n, i);
    WindowAt(ls[k], first, n, i);
  }

  lemma ComposedWithLink(ls: seq<Link>, k: nat, first: nat, ss: nat,
                         s0: seq<Buffer>, f0: seq<bool>, s1: seq<Buffer>, f1: seq<bool>)
    requires k < |ls| && (forall j :: 0 <= j < |ls| ==> ls[j].Valid()) && |s0| == |f0| == |s1| == |f1|
    requires Composed(ChainWindow(ls[..k], first, |f0|), ss, s0, f0)
    requires FilledFrom(Window(ls[k], first, |f0|), 0, |f0|, s0, f0, s1, f1)
    ensures Composed(ChainWindow(ls[..k + 1], first, |f0|), ss, s1, f1)
  {
    hide ChainWindow, Window, ChainSector, LinkSector;
    var w0, w1, want := ChainWindow(ls[..k], first, |f0|), ChainWindow(ls[..k + 1], first, |f0|), Window(ls[k], first, |f0|);
    forall i | 0 <= i < |f0|
      ensures w1[i] == if w0[i].Missing? then want[i] else w0[i]
    {
      OneMoreLink(ls, k, first, |f0|, i);
    }
    ComposedStep(w0, want, w1, ss, s0, f0, s1, f1);
  }

  lemma ComposedStep(w0: seq<SectorRead>, want: seq<SectorRead>, w1: seq<SectorRead>, ss: nat,
                     s0: seq<Buffer>, f0: seq<bool>, s1: seq<Buffer>, f1: seq<bool>)
    requires |w0| == |want| == |w1| == |s0| == |f0| == |s1| == |f1|
    requires forall i :: 0 <= i < |w1| ==> w1[i] == if w0[i].Missing? then want[i] else w0[i]
    requires Composed(w0, ss, s0, f0) && FilledFrom(want, 0, |want|, s0, f0, s1, f1)
    ensures Composed(w1, ss, s1, f1)
  {
    forall i | 0 <= i < |w1|
      ensures match w1[i]
              case Present(b) => f1[i] && s1[i] == b
              case Missing => !f1[i] && s1[i] == Zeros(ss)
              case Broken => false
    {
      assert w1[i] == if w0[i].Missing? then want[i] else w0[i];
    }
  }

  lemma StuckIsBroken(ls: seq<Link>, k: nat, first: nat, ss: nat, s0: seq<Buffer>, f0: seq<bool>)
    requires k < |ls| && (forall j :: 0 <= j < |ls| ==> ls[j].Valid()) && |s0| == |f0|
    requires Composed(ChainWindow(ls[..k], first, |f0|), ss, s0, f0)
    requires Stuck(Window(ls[k], first, |f0|), f0)
    ensures !Readable(ChainWindow(ls, first, |f0|))
  {
    hide ChainWindow, Window, ChainSector, LinkSector;
    var i :| 0 <= i < |f0| && !f0[i] && Window(ls[k], first, |f0|)[i].Broken?;
    OneMoreLink(ls, k, first, |f0|, i);
    ChainWindowAt(ls[..k + 1], first, |f0|, i);
    DeeperLinksDoNotMatter(ls, k + 1, first + i);
    ChainWindowAt(ls, first, |f0|, i);
  }

  /** Once every sector is filled, the links below change nothing. */
  lemma AllFilledIsFinal(ls: seq<Link>, k: nat, first: nat, ss: nat, s0: seq<Buffer>, f0: seq<bool>)
    requires k <= |ls| && (forall j :: 0 <= j < |ls| ==> ls[j].Valid()) && |s0| == |f0|
    requires Composed(ChainWindow(ls[..k], first, |f0|), ss, s0, f0)
    requires k == |ls| || forall i :: 0 <= i < |f0| ==> f0[i]
    ensures Composed(ChainWindow(ls, first, |f0|), ss, s0, f0)
  {
    hide ChainWindow, ChainSector;
    if k == |ls| {
      assert ls[..k] == ls;
    } else {
      forall i | 0 <= i < |f0|
        ensures ChainWindow(ls, first, |f0|)[i] == ChainWindow(ls[..k], first, |f0|)[i]
      {
        ChainWindowAt(ls[..k], first, |f0|, i);
        ChainWindowAt(ls, first, |f0|, i);
        assert ChainWindow(ls[..k], first, |f0|)[i].Present?;
        DeeperLinksDoNotMatter(ls, k, first + i);
      }
    }
  }

  lemma ComposedIsGuest(w: seq<SectorRead>, ss: nat, sectors: seq<Buffer>, filled: seq<bool>)
    requires |w| == |sectors| == |filled| && Composed(w, ss, sectors, filled)
    ensures Readable(w) && sectors == GuestSectors(w, ss)
  {
    assert forall i :: 0 <= i < |w| ==> sectors[i] == GuestSectors(w, ss)[i];
  }

  lemma NothingComposed(first: nat, n: nat, ss: nat, sectors: seq<Buffer>, filled: seq<bool>)
    requires |sectors| == |filled| == n
    requires forall i :: 0 <= i < n ==> sectors[i] == Zeros(ss) && !filled[i]
    ensures Composed(ChainWindow([], first, n), ss, sectors, filled)
  {
    forall i | 0 <= i < n
      ensures ChainWindow([], first, n)[i] == Missing
    {
      ChainWindowAt([], first, n, i);
    }
  }

  /** Composes one leaf block. It fails exactly when some sector's first link to have it cannot be read. */
  method MergeBlock(links: seq<OpenLink>, ghost ls: seq<Link>, block: nat, leafBlockSize: nat, ss: nat, sectorsPerBlock: nat)
    returns (r: Result<Buffer>)
    requires Opened(links, ls) && Uniform(ls, ss)
    requires sectorsPerBlock > 0 && leafBlockSize == sectorsPerBlock * ss
    ensures r.Ok? <==> Readable(ChainWindow(ls, block * sectorsPerBlock, sectorsPerBlock))
    ensures r.Ok? ==> |r.value| == leafBlockSize
    ensures r.Ok? ==>
              Sectors(r.value, sectorsPerBlock, ss) == GuestSectors(ChainWindow(ls, block * sectorsPerBlock, sectorsPerBlock), ss)
  {
    hide ChainWindow, ChainSector, Sectors, GuestSectors;
    var n := sectorsPerBlock;
    ghost var first := block * n;
    var vStart := block * leafBlockSize;
    WindowStart(block, n, ss);
    var composite := new Byte[leafBlockSize](_ => 0);
    var filled := new bool[n](_ => false);
    StartsZeroed(composite[..], n, ss);
    NothingComposed(first, n, ss, Sectors(composite[..], n, ss), filled[..]);
    var done := ComposeLinks(links, ls, vStart, composite, filled, ss, first);
    if done.Err? {
      return Err(done.error);
    }
    ComposedIsGuest(ChainWindow(ls, first, n), ss, Sectors(composite[..], n, ss), filled[..]);
    return Ok(composite[..]);
  }

  lemma WindowStart(block: nat, n: nat, ss: nat)
    ensures block * (n * ss) == block * n * ss
  {
  }

  /** Asks the links in turn, leaf first, and stops as soon as every sector is filled. */
  method ComposeLinks(links: seq<OpenLink>, ghost ls: seq<Link>, vStart: nat,
                      composite: array<Byte>, filled: array<bool>, ss: nat, ghost first: nat)
    returns (r: Result<()>)
    requires Opened(links, ls) && Uniform(ls, ss)
    requires vStart == first * ss && filled.Length > 0 && composite.Length == filled.Length * ss
    requires Composed(ChainWindow([], first, filled.Length), ss, Sectors(composite[..], filled.Length, ss), filled[..])
    modifies composite, filled
    ensures r.Ok? ==> Composed(ChainWindow(ls, first, filled.Length), ss, Sectors(composite[..], filled.Length, ss), filled[..])
    ensures r.Err? ==> !Readable(ChainWindow(ls, first, filled.Length))
  {
    hide ChainWindow, Window, ChainSector, LinkSector, Sectors, ReadBlock;
    var n := filled.Length;
    assert ls[..0] == [];
    for k := 0 to |links|
      invariant Composed(ChainWindow(ls[..k], first, n), ss, Sectors(composite[..], n, ss), filled[..])
    {
      ghost var s0, f0 := Sectors(composite[..], n, ss), filled[..];
      var step := FillFromLink(ls[k], links[k].disk, links[k].file, vStart, composite, filled, ss, first);
      if step.Err? {
        StuckIsBroken(ls, k, first, ss, s0, f0);
        return Err(step.error);
      }
      ComposedWithLink(ls, k, first, ss, s0, f0, Sectors(composite[..], n, ss), filled[..]);
      var all := AllFilled(filled, 0, n);
      if all {
        AllFilledIsFinal(ls, k + 1, first, ss, Sectors(composite[..], n, ss), filled[..]);
        return Ok(());
      }
    }
    AllFilledIsFinal(ls, |ls|, first, ss, Sectors(composite[..], n, ss), filled[..]);
    return Ok(());
  }

  lemma StartsZeroed(buf: Buffer, n: nat, ss: nat)
    requires |buf| == n * ss && forall i :: 0 <= i < |buf| ==> buf[i] == 0
    ensures forall i :: 0 <= i < n ==> Sectors(buf, n, ss)[i] == Zeros(ss)
  {
    forall i | 0 <= i < n
      ensures Sectors(buf, n, ss)[i] == Zeros(ss)
    {
      SectorInside(i, n, ss);
    }
  }
}
