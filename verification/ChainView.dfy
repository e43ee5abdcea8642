/** What a guest sees: the sectors of one link, and of a chain of links, leaf first. */
module ChainView {
  import opened Wrappers
  import opened Bytes
  import opened FileIo
  import opened Disks

  /** Sector `i` of a buffer; sectors past its end are zeros. */
  function Sector(buf: Buffer, i: nat, ss: nat): (s: Buffer)
    ensures |s| == ss
  {
    ReadShort(buf, i * ss, ss)
  }

  lemma SectorIsSlice(buf: Buffer, i: nat, ss: nat)
    requires i * ss + ss <= |buf|
    ensures Sector(buf, i, ss) == Slice(buf, i * ss, ss)
  {
  }

  /** A sector of one link: its data, not there, or not readable. */
  datatype SectorRead = Missing | Present(bytes: Buffer) | Broken

  datatype Link = Link(disk: VhdxDisk, data: Buffer) {
    predicate Valid() {
      disk.Valid() && disk.SectorSize() > 0 && disk.BlockSize() % disk.SectorSize() == 0
    }
  }

  function SectorOfBlock(r: Result<BlockRead>, i: nat, ss: nat): SectorRead
  {
    match r
    case Err(_) => Broken
    case Ok(Absent) => Missing
    case Ok(Full(d)) => Present(Sector(d, i, ss))
    case Ok(Partial(p, bm)) => if BitIsSet(bm, i) then Present(Sector(p, i, ss)) else Missing
  }

  lemma SectorInBlock(l: Link, s: nat)
    requires l.Valid()
    ensures l.disk.SectorsPerBlock() > 0
    ensures l.disk.BlockSize() == l.disk.SectorsPerBlock() * l.disk.SectorSize()
    ensures s % l.disk.SectorsPerBlock() * l.disk.SectorSize() + l.disk.SectorSize() <= l.disk.BlockSize()
  {
    var ss := l.disk.SectorSize();
    var spb := l.disk.SectorsPerBlock();
    assert l.disk.BlockSize() == ss * spb;
    MulMonotone(ss, s % spb + 1, spb);
    assert ss * (s % spb + 1) == s % spb * ss + ss;
  }

  /** Virtual sector `s` of a link. */
  function LinkSector(l: Link, s: nat): SectorRead
    requires l.Valid()
  {
    SectorInBlock(l, s);
    var block := s / l.disk.SectorsPerBlock();
    if block >= l.disk.BlockCount() then Missing
    else SectorOfBlock(ReadBlock(l.disk, l.data, block), s % l.disk.SectorsPerBlock(), l.disk.SectorSize())
  }

  /** The first `count` blocks of a link can be read. */
  predicate AllBlocksRead(l: Link, count: nat)
    requires l.Valid()
  {
    forall b :: 0 <= b < count ==> ReadBlock(l.disk, l.data, b).Ok?
  }

  /** Links that can form a chain: one sector size and one virtual size. Block sizes may differ. */
  predicate Uniform(ls: seq<Link>, ss: nat) {
    ss > 0 && forall i :: 0 <= i < |ls| ==> ls[i].Valid() && ls[i].disk.SectorSize() == ss
  }

  /** The sector from the first link, leaf first, that has it. */
  function ChainSector(ls: seq<Link>, s: nat): SectorRead
    requires forall i :: 0 <= i < |ls| ==> ls[i].Valid()
  {
    if ls == [] then Missing
    else
      var upper := ChainSector(ls[..|ls| - 1], s);
      if upper.Missing? then LinkSector(ls[|ls| - 1], s) else upper
  }

  /** What the guest reads when no link on the way to the data is unreadable: absent sectors are zeros. */
  function GuestBytes(r: SectorRead, ss: nat): Buffer {
    match r
    case Present(b) => b
    case Missing => Zeros(ss)
    case Broken => []
  }

  /** The first link of a chain decides, and the rest answers for what it lacks. */
  lemma {:induction false} LeafFirst(l: Link, rest: seq<Link>, s: nat)
    requires l.Valid() && forall i :: 0 <= i < |rest| ==> rest[i].Valid()
    ensures ChainSector([l] + rest, s) == if LinkSector(l, s).Missing? then ChainSector(rest, s) else LinkSector(l, s)
  {
    hide LinkSector;
    if rest == [] {
      assert [l] + rest == [l] && [l][..0] == [];
    } else {
      var n := |rest| - 1;
      LeafFirst(l, rest[..n], s);
      assert ([l] + rest)[..n + 1] == [l] + rest[..n];
    }
  }

  /** Links below the first that has a sector do not matter: stopping early is sound. */
  lemma {:induction false} DeeperLinksDoNotMatter(ls: seq<Link>, k: nat, s: nat)
    requires k <= |ls| && forall i :: 0 <= i < |ls| ==> ls[i].Valid()
    requires !ChainSector(ls[..k], s).Missing?
    ensures ChainSector(ls, s) == ChainSector(ls[..k], s)
  {
    hide LinkSector;
    if k < |ls| {
      var n := |ls| - 1;
      assert ls[..n][..k] == ls[..k];
      DeeperLinksDoNotMatter(ls[..n], k, s);
    } else {
      assert ls[..k] == ls;
    }
  }

  lemma PresentIsOneSector(l: Link, s: nat)
    requires l.Valid()
    ensures LinkSector(l, s).Present? ==> |LinkSector(l, s).bytes| == l.disk.SectorSize()
  {
  }

  lemma {:induction false} ChainPresentIsOneSector(ls: seq<Link>, s: nat, ss: nat)
    requires Uniform(ls, ss)
    ensures ChainSector(ls, s).Present? ==> |ChainSector(ls, s).bytes| == ss
  {
    hide LinkSector;
    if ls != [] {
      ChainPresentIsOneSector(ls[..|ls| - 1], s, ss);
      PresentIsOneSector(ls[|ls| - 1], s);
    }
  }
}
