/** The log by the bytes of the file: what an entry is, which entries a scan finds, and what a replay puts where (log.rs). */
module LogBytes {
  import opened Wrappers
  import opened Bytes
  import opened FileIo
  import opened Format
  import opened Headers
  import opened Log

  // ---- One entry ----

  /** A descriptor's 32 bytes. */
  predicate DescriptorIs(buf: Buffer, off: nat, sequence: nat, d: Descriptor)
    requires off + 32 <= |buf|
  {
    && U64At(buf, off + 24) == sequence == d.sequenceNumber && d.fileOffset == U64At(buf, off + 16)
    && match d
       case ZeroDescriptor(length, _, _) =>
         buf[off..off + 4] == [0x7A, 0x65, 0x72, 0x6F] && length == U64At(buf, off + 8)
       case DataDescriptor(trailing, leading, _, _, _) =>
         && buf[off..off + 4] == [0x64, 0x65, 0x73, 0x63]
         && trailing == buf[off + 4..off + 8] && leading == buf[off + 8..off + 16]
  }

  /** A data sector: signature, and the halves of the sequence number at its two ends. */
  predicate SectorIs(buf: Buffer, off: nat, sequence: nat, sector: Buffer) {
    && off + 4096 <= |buf| && sector == buf[off..off + 4096]
    && sector[..4] == [0x64, 0x61, 0x74, 0x61]
    && U32At(sector, 4) * 0x1_0000_0000 + U32At(sector, 4092) == sequence
  }

  ghost function DataBefore(ds: seq<Descriptor>, k: nat): set<nat>
    requires k <= |ds|
  {
    set i: nat | i < k && ds[i].DataDescriptor?
  }

  /** The first whole sector behind the descriptors. */
  function SectorsStart(count: nat): nat {
    (64 + 32 * count + 4095) / 4096 * 4096
  }

  /** The descriptors stand from byte 64 on, and data descriptors are numbered as they come. */
  ghost predicate DescriptorsAre(buf: Buffer, sequence: nat, ds: seq<Descriptor>) {
    && 64 + 32 * |ds| <= |buf|
    && forall k :: 0 <= k < |ds| ==>
         && DescriptorIs(buf, 64 + 32 * k, sequence, ds[k])
         && (ds[k].DataDescriptor? ==> ds[k].dataIndex == |DataBefore(ds, k)|)
  }

  ghost predicate SectorsAre(buf: Buffer, start: nat, sequence: nat, sectors: seq<Buffer>) {
    forall i :: 0 <= i < |sectors| ==> SectorIs(buf, start + 4096 * i, sequence, sectors[i])
  }

  /** The fields of the entry header. */
  predicate EntryHeaderIs(buf: Buffer, guid: Guid, e: LogEntry) {
    && |buf| >= 64 && buf[..4] == [0x6C, 0x6F, 0x67, 0x65]
    && U32At(buf, 8) == |buf| == e.byteLen && |buf| % 4096 == 0
    && U64At(buf, 16) == e.sequenceNumber && U32At(buf, 24) == |e.descriptors|
    && buf[32..48] == guid
    && U64At(buf, 48) == e.flushedFileOffset && U64At(buf, 56) == e.lastFileOffset
  }

  /** The buffer is this entry. */
  ghost predicate EntryIs(buf: Buffer, guid: Guid, e: LogEntry) {
    && EntryHeaderIs(buf, guid, e)
    && DescriptorsAre(buf, e.sequenceNumber, e.descriptors)
    && |e.dataSectors| == |DataBefore(e.descriptors, |e.descriptors|)|
    && SectorsAre(buf, SectorsStart(|e.descriptors|), e.sequenceNumber, e.dataSectors)
  }

  lemma {:induction false} DataCountIs(ds: seq<Descriptor>, k: nat)
    requires k <= |ds|
    ensures DataCount(ds[..k]) == |DataBefore(ds, k)|
  {
    if k > 0 {
      DataCountIs(ds, k - 1);
      assert ds[..k][..k - 1] == ds[..k - 1];
      if ds[k - 1].DataDescriptor? {
        assert DataBefore(ds, k) == DataBefore(ds, k - 1) + {k - 1};
      } else {
        assert DataBefore(ds, k) == DataBefore(ds, k - 1);
      }
    }
  }

  lemma DescriptorAtIff(buf: Buffer, off: nat, sequence: Word64, index: nat, d: Descriptor)
    requires off + 32 <= |buf|
    ensures DescriptorAt(buf, off, sequence, index) == Some(d) <==>
            DescriptorIs(buf, off, sequence, d) && (d.DataDescriptor? ==> d.dataIndex == index)
  {
    hide U64At;
    assert Slice(buf, off, 4) == buf[off..off + 4] && Slice(buf, off + 4, 4) == buf[off + 4..off + 8];
    assert Slice(buf, off + 8, 8) == buf[off + 8..off + 16];
    assert ZERO_DESCRIPTOR_SIGNATURE[0] != DATA_DESCRIPTOR_SIGNATURE[0];
  }

  lemma SectorAtIff(buf: Buffer, off: nat, sequence: Word64, sector: Buffer)
    ensures SectorAt(buf, off, sequence) == Some(sector) <==> SectorIs(buf, off, sequence, sector)
  {
    hide U32At;
    if off + 4096 <= |buf| {
      assert Slice(buf, off, 4096) == buf[off..off + 4096];
      var s := Slice(buf, off, 4096);
      assert Slice(s, 0, 4) == s[..4];
    }
  }

  lemma {:induction false} DescriptorsIff(buf: Buffer, n: nat, sequence: Word64, ds: seq<Descriptor>)
    requires |ds| == n && |buf| >= 64
    ensures Descriptors(buf, n, sequence) == Some(ds) <==> DescriptorsAre(buf, sequence, ds)
  {
    hide DescriptorAt, DescriptorIs, DataCount;
    if n > 0 {
      var before := ds[..n - 1];
      DescriptorsIff(buf, n - 1, sequence, before);
      DataCountIs(ds, n - 1);
      forall k: nat | k < n
        ensures k < n - 1 ==> DataBefore(before, k) == DataBefore(ds, k)
      {
      }
      if 64 + 32 * n <= |buf| {
        DescriptorAtIff(buf, 64 + 32 * (n - 1), sequence, DataCount(before), ds[n - 1]);
      }
      assert before + [ds[n - 1]] == ds;
    }
  }

  lemma {:induction false} SectorsIff(buf: Buffer, first: nat, n: nat, sequence: Word64, sectors: seq<Buffer>)
    requires |sectors| == n
    ensures DataSectors(buf, first, n, sequence) == Some(sectors) <==> SectorsAre(buf, first, sequence, sectors)
  {
    hide SectorAt, SectorIs;
    if n > 0 {
      var before := sectors[..n - 1];
      SectorsIff(buf, first, n - 1, sequence, before);
      SectorAtIff(buf, first + 4096 * (n - 1), sequence, sectors[n - 1]);
      assert before + [sectors[n - 1]] == sectors;
    }
  }

  lemma StartIs(count: nat)
    ensures FirstSector(count) == SectorsStart(count)
  {
  }

  /** An entry is accepted, and with what content, exactly when its bytes say so. */
  lemma EntryIff(buf: Buffer, guid: Guid, e: LogEntry)
    ensures EntryIn(buf, guid) == Some(e) <==> EntryIs(buf, guid, e)
  {
    hide Descriptors, DataSectors, FirstSector, DataCount, U64At, U32At, DescriptorsAre, SectorsAre;
    if |buf| >= 64 {
      var n := |e.descriptors|;
      assert Slice(buf, 0, 4) == buf[..4];
      DescriptorsIff(buf, n, e.sequenceNumber, e.descriptors);
      DataCountIs(e.descriptors, n);
      assert e.descriptors[..n] == e.descriptors;
      StartIs(n);
      SectorsIff(buf, SectorsStart(n), |e.dataSectors|, e.sequenceNumber, e.dataSectors);
    }
  }

  // ---- Which entries a scan finds ----

  /** An entry header with a usable length stands at `p`. */
  predicate HeaderAt(ring: Buffer, p: nat)
    requires p + 4096 <= |ring|
  {
    ring[p..p + 4] == [0x6C, 0x6F, 0x67, 0x65] && U32At(ring, p + 8) > 0 && U32At(ring, p + 8) % 4096 == 0
  }

  /** How far it is from `p` to the next position: the stated length, or one sector. */
  function Stride(ring: Buffer, p: nat): nat
    requires p + 4096 <= |ring|
  {
    if HeaderAt(ring, p) then U32At(ring, p + 8) else 4096
  }

  /** The positions from `from` on, until fewer than 4096 bytes are left. */
  predicate ArePositions(ring: Buffer, from: nat, ps: seq<nat>) {
    && ps != [] && ps[0] == from && ps[|ps| - 1] + 4096 > |ring|
    && forall i :: 0 <= i < |ps| - 1 ==> ps[i] + 4096 <= |ring| && ps[i + 1] == ps[i] + Stride(ring, ps[i])
  }

  /** The ring's bytes at `p`, of the stated length, are the entry `e`. */
  predicate EntryStands(ring: Buffer, guid: Guid, p: nat, e: LogEntry)
    requires p + 4096 <= |ring|
  {
    HeaderAt(ring, p) && EntryIn(Ring(ring, p, U32At(ring, p + 8)), guid) == Some(e)
  }

  lemma LengthIs(ring: Buffer, p: nat)
    requires p + 4096 <= |ring|
    ensures EntryLength(ring, p) == if HeaderAt(ring, p) then Some(U32At(ring, p + 8)) else None
  {
    hide U32At;
    assert Slice(ring, p, 4) == ring[p..p + 4];
  }

  /** There are such positions in every ring. */
  function Positions(ring: Buffer, from: nat): (ps: seq<nat>)
    ensures ArePositions(ring, from, ps)
    decreases |ring| - from
  {
    if from + 4096 > |ring| then [from] else [from] + Positions(ring, from + Stride(ring, from))
  }

  lemma LaterPositions(ring: Buffer, from: nat, ps: seq<nat>)
    requires ArePositions(ring, from, ps) && from + 4096 <= |ring|
    ensures |ps| > 1 && ps[1] == from + Stride(ring, from) && ArePositions(ring, ps[1], ps[1..])
  {
    hide Stride;
    forall i | 0 <= i < |ps| - 2
      ensures ps[1..][i] + 4096 <= |ring| && ps[1..][i + 1] == ps[1..][i] + Stride(ring, ps[1..][i])
    {
      assert ps[i + 1] + 4096 <= |ring| && ps[i + 1 + 1] == ps[i + 1] + Stride(ring, ps[i + 1]);
    }
  }

  /** The entries of a walk are at positions, and every position at which an entry stands is among them. */
  ghost predicate FoundAt(ring: Buffer, guid: Guid, ps: seq<nat>, found: seq<(nat, LogEntry)>)
    requires forall i :: 0 <= i < |ps| - 1 ==> ps[i] + 4096 <= |ring|
  {
    && (forall i: nat, e: LogEntry :: i < |ps| - 1 && EntryStands(ring, guid, ps[i], e) ==> (ps[i], e) in found)
    && (forall k :: 0 <= k < |found| ==> exists i: nat :: i < |ps| - 1 && ps[i] == found[k].0 && EntryStands(ring, guid, ps[i], found[k].1))
  }

  /** A step that reaches past twice the ring is a panic, and nothing else is. */
  lemma {:induction false} WalkPanicsIff(ring: Buffer, guid: Guid, from: nat, ps: seq<nat>)
    requires ArePositions(ring, from, ps) && from <= 2 * |ring|
    ensures Walk(ring, guid, from).Ok? <==> ps[|ps| - 1] <= 2 * |ring|
    ensures Walk(ring, guid, from).Err? ==> Walk(ring, guid, from) == Err(Panic)
    decreases |ps|
  {
    hide EntryIn, Ring, U32At;
    if from + 4096 <= |ring| {
      LaterPositions(ring, from, ps);
      LengthIs(ring, from);
      if ps[1] <= 2 * |ring| {
        WalkPanicsIff(ring, guid, ps[1], ps[1..]);
      } else {
        assert |ps[1..]| == 1 by {
          LaterIsLast(ring, ps[1], ps[1..]);
        }
      }
    }
  }

  lemma LaterIsLast(ring: Buffer, from: nat, ps: seq<nat>)
    requires ArePositions(ring, from, ps) && from + 4096 > |ring|
    ensures |ps| == 1
  {
  }

  /** A scan finds the entries that stand at the positions of the ring, each of them and nothing else. */
  lemma {:induction false} WalkFindsAll(ring: Buffer, guid: Guid, from: nat, ps: seq<nat>)
    requires ArePositions(ring, from, ps) && Walk(ring, guid, from).Ok?
    ensures FoundAt(ring, guid, ps, Walk(ring, guid, from).value)
    decreases |ps|
  {
    hide EntryIn, Ring, U32At, EntryStands, FoundAt;
    if from + 4096 > |ring| {
      LaterIsLast(ring, from, ps);
      assert FoundAt(ring, guid, ps, []) by {
        NothingFound(ring, guid, ps);
      }
    } else {
      LaterPositions(ring, from, ps);
      LengthIs(ring, from);
      StandsIff(ring, guid, from);
      var next := ps[1];
      WalkFindsAll(ring, guid, next, ps[1..]);
      OneMoreFound(ring, guid, ps, Walk(ring, guid, next).value,
                   if HeaderAt(ring, from) then EntryIn(Ring(ring, from, U32At(ring, from + 8)), guid) else None);
    }
  }

  lemma NothingFound(ring: Buffer, guid: Guid, ps: seq<nat>)
    requires |ps| == 1
    ensures FoundAt(ring, guid, ps, [])
  {
  }

  lemma StandsIff(ring: Buffer, guid: Guid, p: nat)
    requires p + 4096 <= |ring|
    ensures
      var found := if HeaderAt(ring, p) then EntryIn(Ring(ring, p, U32At(ring, p + 8)), guid) else None;
      forall e: LogEntry :: EntryStands(ring, guid, p, e) <==> found == Some(e)
  {
    hide EntryIn, Ring;
  }

  lemma OneMoreFound(ring: Buffer, guid: Guid, ps: seq<nat>, rest: seq<(nat, LogEntry)>, here: Option<LogEntry>)
    requires |ps| > 1 && forall i :: 0 <= i < |ps| - 1 ==> ps[i] + 4096 <= |ring|
    requires FoundAt(ring, guid, ps[1..], rest)
    requires forall e: LogEntry :: EntryStands(ring, guid, ps[0], e) <==> here == Some(e)
    ensures FoundAt(ring, guid, ps, if here.Some? then [(ps[0], here.value)] + rest else rest)
  {
    hide EntryStands;
    var later := ps[1..];
    var found := if here.Some? then [(ps[0], here.value)] + rest else rest;
    forall i: nat, e: LogEntry | i < |ps| - 1 && EntryStands(ring, guid, ps[i], e)
      ensures (ps[i], e) in found
    {
      if i == 0 {
        assert found[0] == (ps[0], e);
      } else {
        assert later[i - 1] == ps[i];
        assert (later[i - 1], e) in rest;
      }
    }
    forall k | 0 <= k < |found|
      ensures exists i: nat :: i < |ps| - 1 && ps[i] == found[k].0 && EntryStands(ring, guid, ps[i], found[k].1)
    {
      if here.Some? && k == 0 {
        assert ps[0] == found[k].0 && EntryStands(ring, guid, ps[0], found[k].1);
      } else {
        var m := if here.Some? then k - 1 else k;
        assert found[k] == rest[m];
        var i: nat :| i < |later| - 1 && later[i] == rest[m].0 && EntryStands(ring, guid, later[i], rest[m].1);
        assert ps[i + 1] == found[k].0 && EntryStands(ring, guid, ps[i + 1], found[k].1);
      }
    }
  }

  /** The ring a header names lies in the file. */
  predicate HasRing(data: Buffer, header: Header) {
    header.logGuid != NIL && header.logLength != 0 && header.logOffset + header.logLength <= |data|
  }

  function RingOf(data: Buffer, header: Header): (ring: Buffer)
    requires HasRing(data, header)
    ensures |ring| == header.logLength
  {
    data[header.logOffset..header.logOffset + header.logLength]
  }

  /**
   * A scan panics exactly when a stated length leads past twice the ring. Otherwise it chooses among the entries that
   * stand at the ring's positions, all of them, and finds nothing to replay exactly when no entry stands at any.
   */
  lemma ScanFindsAll(data: Buffer, header: Header, r: Result<LogScan>, ps: seq<nat>)
    requires HasRing(data, header) && IsScan(data, header, r) && ArePositions(RingOf(data, header), 0, ps)
    ensures r == Err(Panic) <==> ps[|ps| - 1] > 2 * header.logLength
    ensures r.Err? ==> r == Err(Panic)
    ensures r.Ok? ==>
              (r.value.active == [] <==>
               forall i: nat, e: LogEntry :: i < |ps| - 1 ==> !EntryStands(RingOf(data, header), header.logGuid, ps[i], e))
    ensures r.Ok? ==>
              exists found :: FoundAt(RingOf(data, header), header.logGuid, ps, found) && IsScanOf(found, header, r.value)
  {
    hide Walk, EntryStands, IsScanOf, FoundAt, Stride;
    var ring := RingOf(data, header);
    assert ReadExact(data, header.logOffset, header.logLength) == Ok(ring);
    WalkPanicsIff(ring, header.logGuid, 0, ps);
    if r.Ok? {
      var found := Walk(ring, header.logGuid, 0).value;
      WalkFindsAll(ring, header.logGuid, 0, ps);
      ChosenFrom(found, header, r.value);
      FoundNothingIff(ring, header.logGuid, ps, found);
    }
  }

  lemma ChosenFrom(found: seq<(nat, LogEntry)>, header: Header, scan: LogScan)
    requires IsScanOf(found, header, scan)
    ensures scan.active == [] <==> found == []
  {
    hide Sorted, IsBestRun;
    if found != [] {
      var start: nat, n: nat :| IsBestRun(Sorted(found), start, n) && scan == ScanFor(header, RunOf(Sorted(found), start, n));
      BestRunInside(Sorted(found), start, n);
    }
  }

  lemma FoundNothingIff(ring: Buffer, guid: Guid, ps: seq<nat>, found: seq<(nat, LogEntry)>)
    requires forall i :: 0 <= i < |ps| - 1 ==> ps[i] + 4096 <= |ring|
    requires FoundAt(ring, guid, ps, found)
    ensures found == [] <==> forall i: nat, e: LogEntry :: i < |ps| - 1 ==> !EntryStands(ring, guid, ps[i], e)
  {
    hide EntryStands;
    if found != [] {
      var i: nat :| i < |ps| - 1 && ps[i] == found[0].0 && EntryStands(ring, guid, ps[i], found[0].1);
    }
  }

  // ---- What a replay puts where ----

  predicate Reaches(d: Descriptor, i: nat) {
    d.fileOffset <= i < d.fileOffset + if d.ZeroDescriptor? then d.zeroLength else 4096
  }

  /** Descriptor `k` of entry `a` is the last that reaches byte `i`. */
  predicate IsLastAt(es: seq<LogEntry>, a: nat, k: nat, i: nat) {
    && a < |es| && k < |es[a].descriptors| && Reaches(es[a].descriptors[k], i)
    && (forall m :: k < m < |es[a].descriptors| ==> !Reaches(es[a].descriptors[m], i))
    && forall b, m :: a < b < |es| && 0 <= m < |es[b].descriptors| ==> !Reaches(es[b].descriptors[m], i)
  }

  predicate NothingReaches(es: seq<LogEntry>, i: nat) {
    forall a, k :: 0 <= a < |es| && 0 <= k < |es[a].descriptors| ==> !Reaches(es[a].descriptors[k], i)
  }

  /** The byte descriptor `k` puts at `i`: zero, or a byte of its sector with the first 8 and the last 4 put back. */
  function ByteAt(e: LogEntry, k: nat, i: nat): Byte
    requires WellIndexed(e) && k < |e.descriptors| && Reaches(e.descriptors[k], i)
  {
    var d := e.descriptors[k];
    var j := i - d.fileOffset;
    if d.ZeroDescriptor? then 0
    else if j < 8 then d.leading[j]
    else if j < 4092 then e.dataSectors[d.dataIndex][j]
    else d.trailing[j - 4092]
  }

  lemma WriteBytes(e: LogEntry, k: nat, i: nat)
    requires WellIndexed(e) && k < |e.descriptors|
    ensures WriteOf(e, k).Covers(i) <==> Reaches(e.descriptors[k], i)
    ensures Reaches(e.descriptors[k], i) ==> WriteOf(e, k).bytes[i - WriteOf(e, k).off] == ByteAt(e, k, i)
  {
  }

  /** One entry: the last of its descriptors that reaches a byte decides it. */
  lemma EntryByte(start: Buffer, e: LogEntry, i: nat, k: nat)
    requires WellIndexed(e) && k < |e.descriptors| && Reaches(e.descriptors[k], i)
    requires forall m :: k < m < |e.descriptors| ==> !Reaches(e.descriptors[m], i)
    ensures At(Apply(start, WritesOf(e)), i) == ByteAt(e, k, i)
  {
    hide WriteOf, Reaches, Apply, ByteAt, WellIndexed, WritesOf;
    var ws := WritesOf(e);
    LastWriteWins(start, ws, i);
    WriteBytes(e, k, i);
    assert ws[k].Covers(i);
    var last := LastCover(ws, i);
    if last > k {
      WriteBytes(e, last, i);
    }
  }

  lemma EntryLeaves(start: Buffer, e: LogEntry, i: nat)
    requires WellIndexed(e) && forall m :: 0 <= m < |e.descriptors| ==> !Reaches(e.descriptors[m], i)
    ensures At(Apply(start, WritesOf(e)), i) == At(start, i)
  {
    hide WriteOf, Reaches, Apply, WellIndexed, WritesOf;
    var ws := WritesOf(e);
    LastWriteWins(start, ws, i);
    forall m | 0 <= m < |ws|
      ensures !ws[m].Covers(i)
    {
      WriteBytes(e, m, i);
    }
  }

  lemma {:induction false} EntriesByte(start: Buffer, es: seq<LogEntry>, i: nat, a: nat, k: nat)
    requires AllIndexed(es) && IsLastAt(es, a, k, i)
    ensures WellIndexed(es[a])
    ensures At(Apply(start, ReplayWrites(es)), i) == ByteAt(es[a], k, i)
  {
    hide Reaches, Apply, ByteAt, WellIndexed, WritesOf;
    var n := |es| - 1;
    ApplyAppend(start, ReplayWrites(es[..n]), WritesOf(es[n]));
    var before := Apply(start, ReplayWrites(es[..n]));
    if a == n {
      EntryByte(before, es[n], i, k);
    } else {
      EntryLeaves(before, es[n], i);
      assert es[..n][a] == es[a] && IsLastAt(es[..n], a, k, i);
      EntriesByte(start, es[..n], i, a, k);
    }
  }

  lemma {:induction false} EntriesLeave(start: Buffer, es: seq<LogEntry>, i: nat)
    requires AllIndexed(es) && NothingReaches(es, i)
    ensures At(Apply(start, ReplayWrites(es)), i) == At(start, i)
  {
    hide Reaches, Apply, WellIndexed, WritesOf;
    if es != [] {
      var n := |es| - 1;
      ApplyAppend(start, ReplayWrites(es[..n]), WritesOf(es[n]));
      EntryLeaves(Apply(start, ReplayWrites(es[..n])), es[n], i);
      EntriesLeave(start, es[..n], i);
    } else {
      NoWritesYet(start, []);
    }
  }

  /** A replayed byte is what the last descriptor that reaches it says, read off its sector, or else as it was. */
  lemma ReplayedByte(data: Buffer, scan: LogScan, i: nat)
    requires AllIndexed(scan.active)
    ensures NothingReaches(scan.active, i) ==> At(Replayed(data, scan), i) == At(data, i)
    ensures forall a: nat, k: nat :: IsLastAt(scan.active, a, k, i) ==>
              At(Replayed(data, scan), i) == ByteAt(scan.active[a], k, i)
  {
    hide Apply, ByteAt, Reaches, WellIndexed;
    var start := Grown(data, scan.maxFileOffset);
    if NothingReaches(scan.active, i) {
      EntriesLeave(start, scan.active, i);
    }
    forall a: nat, k: nat | IsLastAt(scan.active, a, k, i)
      ensures At(Replayed(data, scan), i) == ByteAt(scan.active[a], k, i)
    {
      EntriesByte(start, scan.active, i, a, k);
    }
  }

  /** The file is not cut, and is as long as the entries say it was and as the descriptors reach, and no longer. */
  lemma ReplayedSize(data: Buffer, scan: LogScan, found: seq<(nat, LogEntry)>, header: Header)
    requires AllIndexed(scan.active) && IsScanOf(found, header, scan)
    ensures |data| <= |Replayed(data, scan)|
    ensures forall a :: 0 <= a < |scan.active| ==> scan.active[a].lastFileOffset <= |Replayed(data, scan)|
    ensures forall i: nat :: !NothingReaches(scan.active, i) ==> i < |Replayed(data, scan)|
    ensures
      var n := |Replayed(data, scan)|;
      || n == |data| || (exists a :: 0 <= a < |scan.active| && scan.active[a].lastFileOffset == n)
      || !NothingReaches(scan.active, n - 1)
  {
    hide IsScanOf, ReplayWrites, NothingReaches, AllIndexed, WellIndexed, Replayed, Extent, Covered, MaxOffset;
    MaxOffsetOf(scan, found, header);
    ReplayedLength(data, scan);
    forall i: nat | !NothingReaches(scan.active, i)
      ensures i < |Replayed(data, scan)|
    {
      CoveredIff(scan.active, i);
      CoveredBelow(ReplayWrites(scan.active), i);
    }
    var n := Extent(0, ReplayWrites(scan.active));
    if n > 0 {
      ExtentIsCovered(ReplayWrites(scan.active));
      CoveredIff(scan.active, n - 1);
    }
  }

  lemma MaxOffsetOf(scan: LogScan, found: seq<(nat, LogEntry)>, header: Header)
    requires IsScanOf(found, header, scan)
    ensures scan.maxFileOffset == MaxOffset(scan.active)
  {
    hide Sorted, IsBestRun;
  }

  lemma CoveredBelow(ws: seq<Write>, i: nat)
    requires Covered(ws, i)
    ensures i < Extent(0, ws)
  {
    ExtentCovers(0, ws, LastCover(ws, i));
  }

  /** The last byte before the extent is written. */
  lemma {:induction false} ExtentIsCovered(ws: seq<Write>)
    requires Extent(0, ws) > 0
    ensures Covered(ws, Extent(0, ws) - 1)
  {
    var n := |ws| - 1;
    var i := Extent(0, ws) - 1;
    if ws[n].Covers(i) {
    } else {
      ExtentIsCovered(ws[..n]);
      var k := LastCover(ws[..n], i);
      assert ws[k].Covers(i);
    }
  }

  /** The writes of a replay cover what its descriptors reach. */
  lemma {:induction false} CoveredIff(es: seq<LogEntry>, i: nat)
    requires AllIndexed(es)
    ensures Covered(ReplayWrites(es), i) <==> !NothingReaches(es, i)
  {
    hide Reaches, WellIndexed, WriteOf;
    if es != [] {
      var n := |es| - 1;
      var a, b := ReplayWrites(es[..n]), WritesOf(es[n]);
      CoveredIff(es[..n], i);
      CoveredEither(a, b, i);
      forall m | 0 <= m < |b|
        ensures b[m].Covers(i) <==> Reaches(es[n].descriptors[m], i)
      {
        WriteBytes(es[n], m, i);
      }
    }
  }

  lemma CoveredEither(a: seq<Write>, b: seq<Write>, i: nat)
    ensures Covered(a + b, i) <==> Covered(a, i) || Covered(b, i)
  {
    if Covered(a, i) {
      var k :| 0 <= k < |a| && a[k].Covers(i);
      assert (a + b)[k].Covers(i);
    }
    if Covered(b, i) {
      var k :| 0 <= k < |b| && b[k].Covers(i);
      assert (a + b)[|a| + k].Covers(i);
    }
  }
}
