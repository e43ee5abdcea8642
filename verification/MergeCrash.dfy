/** A merge that stops while its table or its headers are being written (merge.rs). */
module MergeCrash {
  import opened Wrappers
  import opened Bytes
  import opened FileIo
  import opened Format
  import opened Headers
  import opened Regions
  import opened BlockTable
  import opened MetadataRegion
  import opened Disks
  import opened ChainView
  import opened ImageBlocks
  import opened Placement
  import opened MergeBlocks
  import opened MergeView
  import opened Merge

  // ---- The table write, cut short ----

  /** Piece `i` of the range is the old or the new one. */
  ghost predicate PieceWritten(data: Buffer, after: Buffer, off: nat, table: Buffer, i: nat)
    requires 8 * i + 8 <= |table| && off + |table| <= |data| == |after|
  {
    Slice(after, off + 8 * i, 8) == Slice(data, off + 8 * i, 8) || Slice(after, off + 8 * i, 8) == Slice(table, 8 * i, 8)
  }

  /** A write of `table` at `off`, cut short: each 8 bytes of its range are the old or the new ones, and all others are old. */
  ghost predicate TornTable(data: Buffer, after: Buffer, off: nat, table: Buffer) {
    && off + |table| <= |data| == |after|
    && (forall j :: 0 <= j < |data| && !(off <= j < off + |table|) ==> after[j] == data[j])
    && (forall i: nat :: 8 * i + 8 <= |table| ==> PieceWritten(data, after, off, table, i))
  }

  lemma WholeTableIsTorn(data: Buffer, off: nat, table: Buffer)
    requires off + |table| <= |data|
    ensures TornTable(data, Written(data, off, table), off, table) && TornTable(data, data, off, table)
  {
    var after := Written(data, off, table);
    forall i: nat | 8 * i + 8 <= |table|
      ensures PieceWritten(data, after, off, table, i) && PieceWritten(data, data, off, table, i)
    {
      assert Slice(after, off + 8 * i, 8) == Slice(table, 8 * i, 8);
    }
  }

  /** Each entry is that of `t0` or that of `t`. */
  predicate Mixed(t0: Table, t: Table, u: Table) {
    && u.chunkRatio == t.chunkRatio == t0.chunkRatio > 0 && u.blockCount == t.blockCount == t0.blockCount
    && |u.entries| == |t.entries| == |t0.entries|
    && forall i :: 0 <= i < |u.entries| ==> u.entries[i] == t0.entries[i] || u.entries[i] == t.entries[i]
  }

  lemma TornEntry(data: Buffer, after: Buffer, off: nat, table: Buffer, i: nat)
    requires TornTable(data, after, off, table) && 8 * i + 8 <= |table|
    ensures EntryFrom(Slice(after, off, |table|), i) in {EntryFrom(Slice(data, off, |table|), i), EntryFrom(table, i)}
  {
    hide Decode;
    assert PieceWritten(data, after, off, table, i);
    assert Slice(Slice(after, off, |table|), 8 * i, 8) == Slice(after, off + 8 * i, 8);
    assert Slice(Slice(data, off, |table|), 8 * i, 8) == Slice(data, off + 8 * i, 8);
  }

  /** However the write of the table is cut short, each entry of the table then in the file is the old or the new one. */
  lemma TornTableIsMixed(data: Buffer, after: Buffer, bat: RegionEntry, t0: Table, t: Table, hasParent: bool)
    requires 8 * |t.entries| <= bat.length && TornTable(data, after, bat.fileOffset, TableBytes(bat, t))
    requires t.chunkRatio == t0.chunkRatio > 0 && t.blockCount == t0.blockCount
    requires |t.entries| == |t0.entries| == TotalEntries(t.blockCount, t.chunkRatio, hasParent)
    requires ParseTable(Slice(data, bat.fileOffset, bat.length), t.blockCount, t.chunkRatio, hasParent) == t0
    ensures Mixed(t0, t, ParseTable(Slice(after, bat.fileOffset, bat.length), t.blockCount, t.chunkRatio, hasParent))
  {
    hide EntryFrom, EncodeEntries, TotalEntries;
    var table := TableBytes(bat, t);
    forall i | 0 <= i < |t.entries|
      ensures EntryFrom(Slice(after, bat.fileOffset, bat.length), i) in {t0.entries[i], t.entries[i]}
    {
      TornEntry(data, after, bat.fileOffset, table, i);
      EncodedEntry(t.entries, Zeros(bat.length - 8 * |t.entries|), i);
    }
  }

  // ---- What the guest sees ----

  /**
   * `q` is the parent `p` while the merge of `l` is being committed: its blocks are merged and its old ones unharmed, and
   * each entry of its table is the old one or that of `t`.
   */
  ghost predicate Committing(l: Link, p: Link, q: Link, t: Table) {
    && l.Valid() && p.Valid() && q.Valid()
    && q.disk.metadata == p.disk.metadata && Mixed(p.disk.bat, t, q.disk.bat)
    && IsMerged(l, p, Link(p.disk.(bat := t), q.data))
    && Halted(p.data, p.disk.bat, q.data, [], l)
  }

  /** Blocks with the same entries read the same. */
  lemma SameEntriesRead(a: VhdxDisk, b: VhdxDisk, data: Buffer, blk: nat)
    requires a.Valid() && b.Valid() && a.metadata == b.metadata
    requires a.bat.PayloadEntry(blk) == b.bat.PayloadEntry(blk) && a.bat.BitmapEntry(blk) == b.bat.BitmapEntry(blk)
    ensures ReadBlock(a, data, blk) == ReadBlock(b, data, blk)
  {
    hide Table.PayloadEntry, Table.BitmapEntry, BatEntry.State, BatEntry.FileOffset;
  }

  /** A mix has for each block the old or the new entry, and the one bitmap entry both have. */
  lemma MixedEntries(t0: Table, t: Table, u: Table, b: nat)
    requires Mixed(t0, t, u) && t0.Complete() && b < t0.blockCount && t.BitmapEntry(b) == t0.BitmapEntry(b)
    ensures u.PayloadEntry(b) == t0.PayloadEntry(b) || u.PayloadEntry(b) == t.PayloadEntry(b)
    ensures u.BitmapEntry(b) == t0.BitmapEntry(b)
  {
    hide PayloadIndex, BitmapIndex;
  }

  /** Under an exposed sector the parent's new entry is fully present and its old one is not. */
  lemma NewEntryIsFull(l: Link, p: Link, m: Link, s: nat)
    requires IsMerged(l, p, m) && Exposed(l, p, s)
    ensures StateAt(m, s) == FullyPresent && StateAt(p, s) != FullyPresent
  {
    hide ReadBlock, BitmapsKept, Placed, Table.BitmapEntry, BatEntry.State, BitIsSet, IsOverlay;
    ExposedInside(l, p, s);
    SectorInBlock(l, s);
    var b := s / l.disk.SectorsPerBlock();
    assert Added(l, b, l.disk.BlockCount()) == ReadBlock(l.disk, l.data, b).value;
  }

  /** Zeros where a new entry exposes the sector, else the parent's sector. */
  lemma CommittingSector(l: Link, p: Link, q: Link, t: Table, s: nat)
    requires Committing(l, p, q, t) && LinkSector(l, s).Missing?
    ensures LinkSector(q, s) ==
            if Exposed(l, p, s) && StateAt(q, s) == FullyPresent then Present(Zeros(l.disk.SectorSize())) else LinkSector(p, s)
  {
    hide ReadBlock, Halted, Exposed, MergedSoFar, BitmapsKept, Placed, SectorOfBlock, Mixed, Table.PayloadEntry, Table.BitmapEntry;
    var m, o := Link(p.disk.(bat := t), q.data), Link(p.disk, q.data);
    HaltedSector(l, p, q.data, [], s);
    MergedSector(l, p, m, s);
    SectorInBlock(q, s);
    var b := s / q.disk.SectorsPerBlock();
    if b < q.disk.BlockCount() {
      TablesShare(l, p, m, b);
      MixedEntries(p.disk.bat, t, q.disk.bat, b);
      if q.disk.bat.PayloadEntry(b) == t.PayloadEntry(b) {
        SameEntriesRead(q.disk, m.disk, q.data, b);
      } else {
        SameEntriesRead(q.disk, o.disk, q.data, b);
      }
    }
    if Exposed(l, p, s) {
      ExposedInside(l, p, s);
      NewEntryIsFull(l, p, m, s);
    }
  }

  lemma TablesShare(l: Link, p: Link, m: Link, b: nat)
    requires IsMerged(l, p, m) && b < p.disk.BlockCount()
    ensures p.disk.bat.Complete() && m.disk.bat.BitmapEntry(b) == p.disk.bat.BitmapEntry(b)
  {
    hide ReadBlock, BitmapsKept, Placed, BlockMerged, EntryOf, Table.BitmapEntry;
  }

  /** Through the child, zeros in every exposed sector whose entry is already the new one. */
  ghost predicate ExposedSoFarReadZero(l: Link, p: Link, q: Link, rest: seq<Link>)
    requires l.Valid() && p.Valid() && q.Valid() && AllValid(rest)
  {
    forall s: nat :: Exposed(l, p, s) && StateAt(q, s) == FullyPresent ==>
      GuestBytes(ChainSector([p] + rest, s), l.disk.SectorSize()) == Zeros(l.disk.SectorSize())
  }

  /** While a merge is committed the view through the child stays exactly when the sectors exposed so far read zero before. */
  lemma CommittingViewIff(l: Link, p: Link, q: Link, t: Table, rest: seq<Link>)
    requires Committing(l, p, q, t) && AllValid(rest)
    ensures SameView([l, q] + rest, [l, p] + rest, l.disk.SectorSize()) <==> ExposedSoFarReadZero(l, p, q, rest)
  {
    hide LinkSector, ChainSector, Exposed, StateAt, Halted, IsMerged, Mixed;
    var ss := l.disk.SectorSize();
    forall s: nat
      ensures ChainSector([l, q] + rest, s) ==
              if Exposed(l, p, s) && StateAt(q, s) == FullyPresent then Present(Zeros(ss)) else ChainSector([l, p] + rest, s)
      ensures Exposed(l, p, s) ==> ChainSector([l, p] + rest, s) == ChainSector([p] + rest, s)
    {
      CommittingChainSector(l, p, q, t, rest, s);
    }
  }

  lemma CommittingChainSector(l: Link, p: Link, q: Link, t: Table, rest: seq<Link>, s: nat)
    requires Committing(l, p, q, t) && AllValid(rest)
    ensures ChainSector([l, q] + rest, s) ==
            if Exposed(l, p, s) && StateAt(q, s) == FullyPresent then Present(Zeros(l.disk.SectorSize()))
            else ChainSector([l, p] + rest, s)
    ensures Exposed(l, p, s) ==> ChainSector([l, p] + rest, s) == ChainSector([p] + rest, s)
  {
    hide LinkSector, ChainSector, Exposed, StateAt, Halted, Mixed, MergedSoFar, BitmapsKept, Placed;
    TwoAbove(l, p, rest, s);
    TwoAbove(l, q, rest, s);
    MergedSector(l, p, Link(p.disk.(bat := t), q.data), s);
    if LinkSector(l, s).Missing? {
      CommittingSector(l, p, q, t, s);
    }
  }

  // ---- Every stage of the commit ----

  /** The file while its table is being written, and while either header is. */
  ghost predicate MidCommit(data: Buffer, bat: RegionEntry, t: Table, next: Header, after: Buffer)
    requires 8 * |t.entries| <= bat.length
  {
    TornTable(data, after, bat.fileOffset, TableBytes(bat, t)) || InHeaderWrites(data, bat, t, next, after)
  }

  ghost predicate InHeaderWrites(data: Buffer, bat: RegionEntry, t: Table, next: Header, after: Buffer)
    requires 8 * |t.entries| <= bat.length
  {
    var stored := Written(data, bat.fileOffset, TableBytes(bat, t));
    MayLeave(stored, after, next) || MayLeave(Updated(stored, next), after, next)
  }

  lemma TornTableKeepsRest(data: Buffer, after: Buffer, off: nat, table: Buffer)
    requires TornTable(data, after, off, table)
    ensures RestKept(data, after, off, |table|)
    ensures Area(off, |table|).ClearOf(0, MIB) && MIB <= |data| ==> Same(data, after, 0, MIB)
  {
    if Area(off, |table|).ClearOf(0, MIB) && MIB <= |data| {
      assert forall j :: 0 <= j < MIB ==> after[j] == data[j];
    }
  }

  /** One header update, however it ends, changes nothing besides the two slots. */
  lemma MayLeaveKeepsRest(data: Buffer, after: Buffer, next: Header, off: nat, len: nat)
    requires MayLeave(data, after, next)
    ensures RestKept(data, after, off, len) && |after| == |data|
  {
    hide TargetIndex, SlotOf;
  }

  lemma RestKeptAgain(a: Buffer, b: Buffer, c: Buffer, off: nat, len: nat)
    requires RestKept(a, b, off, len) && RestKept(b, c, off, len)
    ensures RestKept(a, c, off, len)
  {
  }

  /** While the headers are written the slots are those of one completed update, or of the first one however it ended. */
  lemma HeaderWrites(data: Buffer, bat: RegionEntry, t: Table, active: Header, dataGuid: Guid, fileGuid: Guid, after: Buffer)
    requires 8 * |t.entries| <= bat.length && MIB <= |data| && bat.fileOffset + bat.length <= |data|
    requires Area(bat.fileOffset, bat.length).ClearOf(0, MIB)
    requires ReadPair(data).Ok? && ReadPair(data).value.Active() == active && active.sequenceNumber + 1 < U64
    requires InHeaderWrites(data, bat, t, NewIdentity(active, dataGuid, fileGuid), after)
    ensures RestKept(data, after, bat.fileOffset, bat.length)
    ensures Same(Written(data, bat.fileOffset, TableBytes(bat, t)), after, bat.fileOffset, bat.length)
    ensures ReadPair(after).Ok?
    ensures SlotsOf(data).Coherent() ==>
              Content(ReadPair(after).value.Active()) in {Content(active), Content(NewIdentity(active, dataGuid, fileGuid))}
  {
    hide TableBytes, EncodeHeader, TargetIndex, ReadPair, ParseHeader, SlotsOf, NewIdentity, MayLeave, RestKept, Update;
    var next := NewIdentity(active, dataGuid, fileGuid);
    var table := TableBytes(bat, t);
    var stored := Written(data, bat.fileOffset, table);
    var first := Updated(stored, next);
    WholeTableIsTorn(data, bat.fileOffset, table);
    TornTableKeepsRest(data, stored, bat.fileOffset, table);
    SlotsByPrefix(data, stored);
    NewIdentityFollows(data, active, dataGuid, fileGuid);
    SlotsAbstract(data);
    CompletedMayLeave(stored, next);
    MayLeaveKeepsRest(stored, first, next, 0, 0);
    if MayLeave(stored, after, next) {
      MayLeaveKeepsRest(stored, after, next, 0, 0);
      BytesAreAnUpdate(stored, after, next);
      AnyEnding(SlotsOf(data), Content(next), EndingOf(stored, after, next));
    } else {
      MayLeaveKeepsRest(first, after, next, 0, 0);
      RestKeptAgain(stored, first, after, 0, 0);
      UpdatedSlots(stored, next);
      BytesAreAnUpdate(first, after, next);
      SecondEnding(SlotsOf(data), Content(next), EndingOf(first, after, next));
    }
    SlotsAbstract(after);
    WiderRest(stored, after, bat.fileOffset, bat.length);
    RestKeptAgain(data, stored, after, bat.fileOffset, bat.length);
    KeptRange(stored, after, 0, 0, bat.fileOffset, bat.length);
  }

  lemma WiderRest(a: Buffer, b: Buffer, off: nat, len: nat)
    requires RestKept(a, b, 0, 0)
    ensures RestKept(a, b, off, len)
  {
  }

  /** However an update ends a header is active: of coherent slots the old or the new one. */
  lemma AnyEnding(s: Slots, next: Header, ending: Ending)
    requires Follows(s, next)
    ensures Update(s, next, ending).Active().Some?
    ensures s.Coherent() ==> Update(s, next, ending).Active() in {s.Active(), Some(next)}
  {
  }

  /** However the second of two updates from one header ends, the header both write is active. */
  lemma SecondEnding(s: Slots, next: Header, ending: Ending)
    requires Follows(s, next)
    ensures Update(Update(s, next, Completed), next, ending).Active() == Some(next)
  {
  }

  /** How a parent opens whose merge stopped in its commit. */
  ghost predicate OpensCommitting(p: Link, after: Buffer, t: Table, next: Header)
    requires p.Valid()
  {
    && OpenDisk(after, true).Ok?
    && var d := OpenDisk(after, true).value;
    && d.metadata == p.disk.metadata && d.regions == p.disk.regions && Mixed(p.disk.bat, t, d.bat)
    && (d.headers == p.disk.headers || d.bat == t)
    && (HeaderOffset(1) + HEADER_SIZE <= |p.data| && SlotsOf(p.data).Coherent() ==>
          Content(d.headers.Active()) in {Content(p.disk.headers.Active()), Content(next)})
  }

  lemma OpensInTableWrite(data0: Buffer, d: VhdxDisk, data: Buffer, t: Table, l: Link, next: Header, after: Buffer)
    requires ReadyToCommit(data0, d, data, t, l) && 8 * |t.entries| <= d.batRegion.length
    requires TornTable(data, after, d.batRegion.fileOffset, TableBytes(d.batRegion, t))
    ensures RestKept(data, after, d.batRegion.fileOffset, d.batRegion.length)
    ensures OpensCommitting(Link(d, data0), after, t, next)
  {
    hide ParseTable, ReadPair, MergedSoFar, Underway, Placed, TableBytes, TornTable, RestKept, Mixed,
      ReadBlock, SlotsOf, OpenDisk, BitmapArea, TotalEntries, LayoutValid;
    var bat := d.batRegion;
    StagesAgree(data0, d.bat, data, t, Kept(d), l, l.disk.BlockCount());
    KeptParts(data0, d, data);
    OpenedParts(data0, d);
    TornTableKeepsRest(data, after, bat.fileOffset, TableBytes(bat, t));
    FixedAreas(data0, d, data, after);
    FixedRanges(data, after);
    TableInside(data0, data, after, bat);
    TornTableIsMixed(data, after, bat, d.bat, t, d.HasParent());
    Reopens(data0, d, after, d.headers, ParseTable(Slice(after, bat.fileOffset, bat.length), t.blockCount, t.chunkRatio, d.HasParent()));
  }

  /** The table's region is read whole. */
  lemma TableInside(data0: Buffer, data: Buffer, after: Buffer, bat: RegionEntry)
    requires Same(data0, data, bat.fileOffset, bat.length) && |after| == |data|
    ensures ReadExact(after, bat.fileOffset, bat.length) == Ok(Slice(after, bat.fileOffset, bat.length))
    ensures ReadExact(data0, bat.fileOffset, bat.length) == Ok(Slice(data, bat.fileOffset, bat.length))
  {
  }

  lemma OpensInHeaderWrites(data0: Buffer, d: VhdxDisk, data: Buffer, t: Table, l: Link, dataGuid: Guid, fileGuid: Guid, after: Buffer)
    requires ReadyToCommit(data0, d, data, t, l) && 8 * |t.entries| <= d.batRegion.length
    requires InHeaderWrites(data, d.batRegion, t, NewIdentity(d.headers.Active(), dataGuid, fileGuid), after)
    ensures RestKept(data, after, d.batRegion.fileOffset, d.batRegion.length)
    ensures OpensCommitting(Link(d, data0), after, t, NewIdentity(d.headers.Active(), dataGuid, fileGuid))
    ensures OpenDisk(after, true).value.bat == t
  {
    hide ParseTable, ReadPair, MergedSoFar, Underway, Placed, TableBytes, RestKept, InHeaderWrites, NewIdentity,
      ReadBlock, SlotsOf, OpenDisk, BitmapArea, TotalEntries, LayoutValid;
    var bat := d.batRegion;
    StagesAgree(data0, d.bat, data, t, Kept(d), l, l.disk.BlockCount());
    KeptParts(data0, d, data);
    OpenedParts(data0, d);
    HeaderWrites(data, bat, t, d.headers.Active(), dataGuid, fileGuid, after);
    FixedAreas(data0, d, data, after);
    SlotsByPrefix(data0, data);
    StoredTableReads(data, after, bat, t, d.HasParent());
    Reopens(data0, d, after, ReadPair(after).value, t);
  }

  lemma StoredTableReads(data: Buffer, after: Buffer, bat: RegionEntry, t: Table, hasParent: bool)
    requires 8 * |t.entries| <= bat.length && t.chunkRatio > 0
    requires |t.entries| == TotalEntries(t.blockCount, t.chunkRatio, hasParent)
    requires Same(Written(data, bat.fileOffset, TableBytes(bat, t)), after, bat.fileOffset, bat.length)
    ensures ReadExact(after, bat.fileOffset, bat.length).Ok?
    ensures ParseTable(ReadExact(after, bat.fileOffset, bat.length).value, t.blockCount, t.chunkRatio, hasParent) == t
  {
    hide EncodeEntries, ParseTable, TotalEntries;
    TableRoundTrip(t, hasParent, Zeros(bat.length - 8 * |t.entries|));
    if bat.length > 0 {
      WrittenReadsBack(data, bat.fileOffset, TableBytes(bat, t));
    } else {
      assert TableBytes(bat, t) == [];
    }
  }

  /** At every stage of the commit the old blocks are unharmed and the merged ones in place. */
  lemma MergedAlongside(data0: Buffer, d: VhdxDisk, data: Buffer, t: Table, l: Link, q: Link)
    requires ReadyToCommit(data0, d, data, t, l)
    requires RestKept(data, q.data, d.batRegion.fileOffset, d.batRegion.length)
    requires q.Valid() && q.disk.metadata == d.metadata && Mixed(d.bat, t, q.disk.bat)
    ensures Committing(l, Link(d, data0), q, t)
  {
    hide MergedSoFar, Underway, Placed, OthersKept, ReadBlock, OpenDisk, BitmapArea, TotalEntries, RestKept;
    var bs, count := l.disk.BlockSize(), l.disk.BlockCount();
    SectorInBlock(l, 0);
    StagesAgree(data0, d.bat, data, t, Kept(d), l, count);
    SlotsSurvive(d, data, t, q.data, bs);
    SlotsSurvive(d, data, d.bat, q.data, bs);
    KeptMerged(data0, d.bat, data, q.data, t, [], l, count);
    KeptUnderway(data0, d.bat, data, q.data, [], l, count);
    BitmapsSurvive(data0, d, data, q.data);
    PlacedWithoutKeep(data0, d.bat, Kept(d), bs);
    HalfMergedIsHalted(data0, d.bat, q.data, [], l);
  }

  lemma PlacedWithoutKeep(data: Buffer, t: Table, keep: seq<Area>, bs: nat)
    requires Placed(data, t, keep, bs)
    ensures Placed(data, t, [], bs)
  {
    hide Slot;
  }

  /** Wherever a commit stops the parent opens, with a table each of whose entries is the old or the new one. */
  lemma StoppedCommitOpens(data0: Buffer, d: VhdxDisk, data: Buffer, t: Table, l: Link, dataGuid: Guid, fileGuid: Guid, after: Buffer)
    requires ReadyToCommit(data0, d, data, t, l) && 8 * |t.entries| <= d.batRegion.length
    requires MidCommit(data, d.batRegion, t, NewIdentity(d.headers.Active(), dataGuid, fileGuid), after)
    ensures OpensCommitting(Link(d, data0), after, t, NewIdentity(d.headers.Active(), dataGuid, fileGuid))
    ensures Committing(l, Link(d, data0), Link(OpenDisk(after, true).value, after), t)
  {
    hide ReadyToCommit, TornTable, InHeaderWrites, TableBytes, OpenDisk, Mixed, RestKept, NewIdentity, Committing, SlotsOf;
    var next := NewIdentity(d.headers.Active(), dataGuid, fileGuid);
    if InHeaderWrites(data, d.batRegion, t, next, after) {
      OpensInHeaderWrites(data0, d, data, t, l, dataGuid, fileGuid, after);
    } else {
      OpensInTableWrite(data0, d, data, t, l, next, after);
    }
    ReadyLinks(data0, d, data, t, l);
    MergedAlongside(data0, d, data, t, l, Link(OpenDisk(after, true).value, after));
  }

  lemma ReadyLinks(data0: Buffer, d: VhdxDisk, data: Buffer, t: Table, l: Link)
    requires ReadyToCommit(data0, d, data, t, l)
    ensures l.Valid() && Link(d, data0).Valid()
  {
    hide OpenDisk, Stage, AllBlocksRead, Placed;
  }

  /** Once the headers are being written the parent alone has what the child had. */
  lemma MergedInHeaderWrites(data0: Buffer, d: VhdxDisk, data: Buffer, t: Table, l: Link, dataGuid: Guid, fileGuid: Guid, after: Buffer)
    requires ReadyToCommit(data0, d, data, t, l) && 8 * |t.entries| <= d.batRegion.length
    requires InHeaderWrites(data, d.batRegion, t, NewIdentity(d.headers.Active(), dataGuid, fileGuid), after)
    ensures OpenDisk(after, true).Ok? && IsMerged(l, Link(d, data0), Link(OpenDisk(after, true).value, after))
  {
    hide ReadyToCommit, TornTable, InHeaderWrites, TableBytes, OpenDisk, Mixed, NewIdentity, SlotsOf, Placed, MergedSoFar, BitmapsKept,
      Halted;
    OpensInHeaderWrites(data0, d, data, t, l, dataGuid, fileGuid, after);
    StoppedCommitOpens(data0, d, data, t, l, dataGuid, fileGuid, after);
  }

  /** Through the child the guest reads from `q` what it reads from `p`. */
  ghost predicate SameThroughChild(l: Link, p: Link, q: Link, rest: seq<Link>)
    requires l.Valid() && p.Valid() && AllValid(rest)
  {
    q.Valid() && SameView([l, q] + rest, [l, p] + rest, l.disk.SectorSize())
  }

  /** The file opens, and through the child the guest reads from it what it read from `p`. */
  ghost predicate ReadsAsBefore(l: Link, p: Link, after: Buffer, rest: seq<Link>)
    requires l.Valid() && p.Valid() && AllValid(rest)
  {
    match OpenDisk(after, true)
    case Err(_) => false
    case Ok(d) => SameThroughChild(l, p, Link(d, after), rest)
  }

  /** The guest reads the same through the child wherever the commit stops. */
  ghost predicate CommitKeepsView(l: Link, p: Link, data: Buffer, t: Table, next: Header, rest: seq<Link>)
    requires l.Valid() && p.Valid() && AllValid(rest) && 8 * |t.entries| <= p.disk.batRegion.length
  {
    forall after :: MidCommit(data, p.disk.batRegion, t, next, after) ==> ReadsAsBefore(l, p, after, rest)
  }

  lemma ReadZeroSoFar(l: Link, p: Link, q: Link, rest: seq<Link>)
    requires l.Valid() && p.Valid() && q.Valid() && AllValid(rest) && ExposedReadZero(l, p, rest)
    ensures ExposedSoFarReadZero(l, p, q, rest)
  {
    hide Exposed, StateAt, ChainSector;
  }

  /** Once every entry is the new one every exposed sector is zero. */
  lemma AllExposedSoFar(l: Link, p: Link, q: Link, t: Table, rest: seq<Link>)
    requires Committing(l, p, q, t) && q.disk.bat == t && AllValid(rest) && ExposedSoFarReadZero(l, p, q, rest)
    ensures ExposedReadZero(l, p, rest)
  {
    hide Exposed, StateAt, ChainSector, IsMerged, Halted, Mixed;
    forall s: nat | Exposed(l, p, s)
      ensures StateAt(q, s) == FullyPresent
    {
      FullInMerged(l, p, q, t, s);
    }
  }

  lemma FullInMerged(l: Link, p: Link, q: Link, t: Table, s: nat)
    requires Committing(l, p, q, t) && q.disk.bat == t && Exposed(l, p, s)
    ensures StateAt(q, s) == FullyPresent
  {
    hide Exposed, IsMerged, Halted, Mixed, BatEntry.State;
    NewEntryIsFull(l, p, Link(p.disk.(bat := t), q.data), s);
  }

  /** The file once its table is written. */
  lemma TableIsWritten(data0: Buffer, d: VhdxDisk, data: Buffer, t: Table, l: Link, dataGuid: Guid, fileGuid: Guid)
    requires ReadyToCommit(data0, d, data, t, l) && 8 * |t.entries| <= d.batRegion.length
    ensures
      var after := Written(data, d.batRegion.fileOffset, TableBytes(d.batRegion, t));
      InHeaderWrites(data, d.batRegion, t, NewIdentity(d.headers.Active(), dataGuid, fileGuid), after)
  {
    hide ReadPair, MergedSoFar, Underway, Placed, TableBytes, NewIdentity, ReadBlock, OpenDisk, BitmapArea, MayLeave;
    KeptParts(data0, d, data);
    OpenedParts(data0, d);
    NewIdentityFollows(data, d.headers.Active(), dataGuid, fileGuid);
    CompletedMayLeave(Written(data, d.batRegion.fileOffset, TableBytes(d.batRegion, t)),
                      NewIdentity(d.headers.Active(), dataGuid, fileGuid));
  }

  /**
   * The guest reads the same through the child wherever the commit of a merge stops, in its table write or in its header
   * writes, exactly when every sector the merge exposes read zero before: the condition under which the merge itself keeps
   * the view.
   */
  lemma CommitKeepsViewIff(data0: Buffer, d: VhdxDisk, data: Buffer, t: Table, l: Link, dataGuid: Guid, fileGuid: Guid, rest: seq<Link>)
    requires ReadyToCommit(data0, d, data, t, l) && 8 * |t.entries| <= d.batRegion.length && AllValid(rest)
    ensures l.Valid() && Link(d, data0).Valid()
    ensures CommitKeepsView(l, Link(d, data0), data, t, NewIdentity(d.headers.Active(), dataGuid, fileGuid), rest) <==>
            ExposedReadZero(l, Link(d, data0), rest)
  {
    hide ReadyToCommit, OpenDisk, TableBytes, RestKept, NewIdentity, SlotsOf, SameView, TornTable, InHeaderWrites,
      ExposedSoFarReadZero, ExposedReadZero, IsMerged, Halted, Mixed;
    ReadyLinks(data0, d, data, t, l);
    var p := Link(d, data0);
    var next := NewIdentity(d.headers.Active(), dataGuid, fileGuid);
    if ExposedReadZero(l, p, rest) {
      forall after | MidCommit(data, d.batRegion, t, next, after)
        ensures ReadsAsBefore(l, p, after, rest)
      {
        StoppedCommitOpens(data0, d, data, t, l, dataGuid, fileGuid, after);
        var q := Link(OpenDisk(after, true).value, after);
        ReadZeroSoFar(l, p, q, rest);
        CommittingViewIff(l, p, q, t, rest);
      }
    } else {
      var after := Written(data, d.batRegion.fileOffset, TableBytes(d.batRegion, t));
      TableIsWritten(data0, d, data, t, l, dataGuid, fileGuid);
      OpensInHeaderWrites(data0, d, data, t, l, dataGuid, fileGuid, after);
      assert MidCommit(data, d.batRegion, t, next, after);
      StoppedCommitOpens(data0, d, data, t, l, dataGuid, fileGuid, after);
      var q := Link(OpenDisk(after, true).value, after);
      if ExposedSoFarReadZero(l, p, q, rest) {
        AllExposedSoFar(l, p, q, t, rest);
      }
      CommittingViewIff(l, p, q, t, rest);
    }
  }

  /** No stage of the commit changes what the guest reads through the child, whatever lies below the parent. */
  ghost predicate CommitKeepsEveryView(l: Link, p: Link, data: Buffer, t: Table, next: Header)
    requires l.Valid() && p.Valid() && 8 * |t.entries| <= p.disk.batRegion.length
  {
    forall rest: seq<Link> :: Uniform(rest, l.disk.SectorSize()) ==> CommitKeepsView(l, p, data, t, next, rest)
  }

  /** Over every rest of the chain that is so exactly when the parent has zeros in every exposed sector. */
  lemma CommitKeepsEveryViewIff(data0: Buffer, d: VhdxDisk, data: Buffer, t: Table, l: Link, dataGuid: Guid, fileGuid: Guid)
    requires ReadyToCommit(data0, d, data, t, l) && 8 * |t.entries| <= d.batRegion.length
    ensures l.Valid() && Link(d, data0).Valid()
    ensures CommitKeepsEveryView(l, Link(d, data0), data, t, NewIdentity(d.headers.Active(), dataGuid, fileGuid)) <==>
            ExposedAreZero(l, Link(d, data0))
  {
    hide OpenDisk, Stage, NewIdentity, Placed, CommitKeepsView, ExposedReadZero, ExposedAreZero;
    var p := Link(d, data0);
    ReadyLinks(data0, d, data, t, l);
    ReadZeroOverEveryRestIff(l, p);
    forall rest: seq<Link> | Uniform(rest, l.disk.SectorSize())
      ensures CommitKeepsView(l, p, data, t, NewIdentity(d.headers.Active(), dataGuid, fileGuid), rest) <==> ExposedReadZero(l, p, rest)
    {
      CommitKeepsViewIff(data0, d, data, t, l, dataGuid, fileGuid, rest);
    }
  }

  /** A merge that succeeded and would have shown the guest something else, had it stopped in its commit. */
  ghost predicate CommitHides(data0: Buffer, d: VhdxDisk, l: Link, next: Header) {
    exists data, t :: ReadyToCommit(data0, d, data, t, l) && Link(d, data0).Valid() && 8 * |t.entries| <= d.batRegion.length &&
                      !CommitKeepsEveryView(l, Link(d, data0), data, t, next)
  }

  lemma ExposedIsHidden(data0: Buffer, d: VhdxDisk, l: Link, after: Buffer, dataGuid: Guid, fileGuid: Guid)
    requires IsCommitted(data0, d, l, after, NewIdentity(d.headers.Active(), dataGuid, fileGuid))
    requires l.Valid() && Link(d, data0).Valid() && !ExposedAreZero(l, Link(d, data0))
    ensures CommitHides(data0, d, l, NewIdentity(d.headers.Active(), dataGuid, fileGuid))
  {
    hide ReadyToCommit, Committed, NewIdentity, CommitKeepsEveryView, ExposedAreZero;
    var next := NewIdentity(d.headers.Active(), dataGuid, fileGuid);
    var data, t :| ReadyToCommit(data0, d, data, t, l) && 8 * |t.entries| <= d.batRegion.length &&
                   after == Committed(data, d.batRegion, t, next);
    CommitKeepsEveryViewIff(data0, d, data, t, l, dataGuid, fileGuid);
  }
}
