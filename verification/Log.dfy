/** The log: entries, the scan of the ring, and replay (log.rs). */
module Log {
  import opened Wrappers
  import opened Bytes
  import opened FileIo
  import opened Format
  import opened Headers
  import opened Sorting

  datatype Descriptor =
    | ZeroDescriptor(zeroLength: Word64, fileOffset: Word64, sequenceNumber: Word64)
    | DataDescriptor(trailing: Buffer, leading: Buffer, fileOffset: Word64, sequenceNumber: Word64, dataIndex: nat)

  datatype LogEntry = LogEntry(
    sequenceNumber: Word64,
    flushedFileOffset: Word64,
    lastFileOffset: Word64,
    descriptors: seq<Descriptor>,
    dataSectors: seq<Buffer>,
    byteLen: nat)

  const HEADER: nat := 64
  const DESCRIPTOR: nat := 32

  // ---- One entry ----

  function DescriptorAt(buf: Buffer, off: nat, sequence: Word64, dataIndex: nat): Option<Descriptor>
    requires off + DESCRIPTOR <= |buf|
  {
    var sig := Slice(buf, off, 4);
    if U64At(buf, off + 24) != sequence then None
    else if sig == ZERO_DESCRIPTOR_SIGNATURE then
      Some(ZeroDescriptor(U64At(buf, off + 8), U64At(buf, off + 16), sequence))
    else if sig == DATA_DESCRIPTOR_SIGNATURE then
      Some(DataDescriptor(Slice(buf, off + 4, 4), Slice(buf, off + 8, 8), U64At(buf, off + 16), sequence, dataIndex))
    else None
  }

  function DataCount(ds: seq<Descriptor>): nat {
    if ds == [] then 0 else DataCount(ds[..|ds| - 1]) + if ds[|ds| - 1].DataDescriptor? then 1 else 0
  }

  /** The first `n` descriptors. */
  function Descriptors(buf: Buffer, n: nat, sequence: Word64): (r: Option<seq<Descriptor>>)
    ensures r.Some? ==> |r.value| == n && HEADER + DESCRIPTOR * n <= Max(|buf|, HEADER)
  {
    if n == 0 then Some([])
    else
      match Descriptors(buf, n - 1, sequence)
      case None => None
      case Some(ds) =>
        if HEADER + DESCRIPTOR * n > |buf| then None
        else
          match DescriptorAt(buf, HEADER + DESCRIPTOR * (n - 1), sequence, DataCount(ds))
          case None => None
          case Some(d) => Some(ds + [d])
  }

  /** A data sector; both halves of the sequence number are echoed in it. */
  function SectorAt(buf: Buffer, off: nat, sequence: Word64): Option<Buffer> {
    if off + LOG_SECTOR_SIZE > |buf| then None
    else
      var sector := Slice(buf, off, LOG_SECTOR_SIZE);
      if Slice(sector, 0, 4) == DATA_SECTOR_SIGNATURE && U32At(sector, 4) * U32 + U32At(sector, 4092) == sequence
      then Some(sector) else None
  }

  function DataSectors(buf: Buffer, first: nat, n: nat, sequence: Word64): (r: Option<seq<Buffer>>)
    ensures r.Some? ==> |r.value| == n && (n > 0 ==> first + LOG_SECTOR_SIZE * n <= |buf|)
    ensures r.Some? ==> forall i :: 0 <= i < n ==> SectorAt(buf, first + LOG_SECTOR_SIZE * i, sequence) == Some(r.value[i])
  {
    if n == 0 then Some([])
    else
      match (DataSectors(buf, first, n - 1, sequence), SectorAt(buf, first + LOG_SECTOR_SIZE * (n - 1), sequence))
      case (Some(rest), Some(sector)) => Some(rest + [sector])
      case _ => None
  }

  /** The data sectors start at the first sector boundary behind the descriptors. */
  function FirstSector(count: nat): nat {
    AlignUp(HEADER + DESCRIPTOR * count, LOG_SECTOR_SIZE)
  }

  /** The entry a buffer holds. Its checksum is computed but not enforced. */
  function EntryIn(buf: Buffer, guid: Guid): Option<LogEntry> {
    if |buf| < HEADER || Slice(buf, 0, 4) != LOG_ENTRY_SIGNATURE then None
    else
      var length := U32At(buf, 8);
      if length == 0 || length % LOG_SECTOR_SIZE != 0 || length != |buf| || GuidAt(buf, 32) != guid then None
      else
        var sequence := U64At(buf, 16);
        var count := U32At(buf, 24);
        match Descriptors(buf, count, sequence)
        case None => None
        case Some(ds) =>
          match DataSectors(buf, FirstSector(count), DataCount(ds), sequence)
          case None => None
          case Some(sectors) => Some(LogEntry(sequence, U64At(buf, 48), U64At(buf, 56), ds, sectors, length))
  }

  /** Each data descriptor is numbered by the data descriptors before it, and there is a sector for each. */
  predicate Numbered(e: LogEntry) {
    && |e.dataSectors| == DataCount(e.descriptors)
    && forall k :: 0 <= k < |e.descriptors| && e.descriptors[k].DataDescriptor? ==>
         e.descriptors[k].dataIndex == DataCount(e.descriptors[..k])
  }

  /** Every data descriptor finds its sector. */
  predicate WellIndexed(e: LogEntry) {
    forall k :: 0 <= k < |e.descriptors| && e.descriptors[k].DataDescriptor? ==>
      && e.descriptors[k].dataIndex < |e.dataSectors|
      && |e.dataSectors[e.descriptors[k].dataIndex]| == LOG_SECTOR_SIZE
      && |e.descriptors[k].leading| == 8 && |e.descriptors[k].trailing| == 4
  }

  lemma {:induction false} DataCountIncreases(ds: seq<Descriptor>, k: nat)
    requires k < |ds|
    ensures DataCount(ds[..k]) + (if ds[k].DataDescriptor? then 1 else 0) <= DataCount(ds)
  {
    var n := |ds| - 1;
    if k < n {
      assert ds[..n][..k] == ds[..k];
      DataCountIncreases(ds[..n], k);
    } else {
      assert ds[..k + 1] == ds;
    }
  }

  lemma {:induction false} DescriptorsNumbered(buf: Buffer, n: nat, sequence: Word64)
    requires Descriptors(buf, n, sequence).Some?
    ensures
      var ds := Descriptors(buf, n, sequence).value;
      forall k :: 0 <= k < n ==>
        && ds[k].sequenceNumber == sequence
        && (ds[k].DataDescriptor? ==>
              ds[k].dataIndex == DataCount(ds[..k]) && |ds[k].leading| == 8 && |ds[k].trailing| == 4)
  {
    if n > 0 {
      DescriptorsNumbered(buf, n - 1, sequence);
      var ds := Descriptors(buf, n, sequence).value;
      var before := Descriptors(buf, n - 1, sequence).value;
      assert ds[..n - 1] == before;
      forall k | 0 <= k < n - 1
        ensures ds[k] == before[k] && ds[..k] == before[..k]
      {
      }
    }
  }

  /** What an accepted entry promises: numbering without gaps, and each sector behind the descriptors and inside the entry. */
  lemma AcceptedEntry(buf: Buffer, guid: Guid)
    requires EntryIn(buf, guid).Some?
    ensures
      var e := EntryIn(buf, guid).value;
      && Numbered(e) && WellIndexed(e) && e.byteLen == |buf|
      && HEADER + DESCRIPTOR * |e.descriptors| <= FirstSector(|e.descriptors|)
      && forall i :: 0 <= i < |e.dataSectors| ==>
           SectorAt(buf, FirstSector(|e.descriptors|) + LOG_SECTOR_SIZE * i, e.sequenceNumber) == Some(e.dataSectors[i])
  {
    hide EntryIn, Descriptors, DataSectors, SectorAt, FirstSector, DataCount;
    var e := EntryIn(buf, guid).value;
    EntryParts(buf, guid);
    DescriptorsNumbered(buf, |e.descriptors|, e.sequenceNumber);
    forall k | 0 <= k < |e.descriptors| && e.descriptors[k].DataDescriptor?
      ensures DataCount(e.descriptors[..k]) < |e.dataSectors|
    {
      DataCountIncreases(e.descriptors, k);
    }
    forall i | 0 <= i < |e.dataSectors|
      ensures |e.dataSectors[i]| == LOG_SECTOR_SIZE
    {
      SectorIsWhole(buf, FirstSector(|e.descriptors|) + LOG_SECTOR_SIZE * i, e.sequenceNumber);
    }
  }

  lemma EntryParts(buf: Buffer, guid: Guid)
    requires EntryIn(buf, guid).Some?
    ensures
      var e := EntryIn(buf, guid).value;
      && e.byteLen == |buf|
      && Descriptors(buf, |e.descriptors|, e.sequenceNumber) == Some(e.descriptors)
      && DataSectors(buf, FirstSector(|e.descriptors|), DataCount(e.descriptors), e.sequenceNumber) == Some(e.dataSectors)
      && HEADER + DESCRIPTOR * |e.descriptors| <= FirstSector(|e.descriptors|)
  {
    hide Descriptors, DataSectors, DataCount;
  }

  lemma SectorIsWhole(buf: Buffer, off: nat, sequence: Word64)
    ensures SectorAt(buf, off, sequence).Some? ==> |SectorAt(buf, off, sequence).value| == LOG_SECTOR_SIZE
  {
  }

  lemma {:induction false} NoDescriptors(buf: Buffer, k: nat, n: nat, sequence: Word64)
    requires k <= n && Descriptors(buf, k, sequence).None?
    ensures Descriptors(buf, n, sequence).None?
  {
    if k < n {
      NoDescriptors(buf, k, n - 1, sequence);
    }
  }

  lemma {:induction false} NoSectors(buf: Buffer, first: nat, k: nat, n: nat, sequence: Word64)
    requires k <= n && DataSectors(buf, first, k, sequence).None?
    ensures DataSectors(buf, first, n, sequence).None?
  {
    if k < n {
      NoSectors(buf, first, k, n - 1, sequence);
    }
  }

  // ---- The code that parses an entry ----

  method ParseEntry(buf: Buffer, guid: Guid) returns (r: Option<LogEntry>)
    ensures r == EntryIn(buf, guid)
  {
    hide Descriptors, DataSectors, AlignUp;
    if |buf| < HEADER || Slice(buf, 0, 4) != LOG_ENTRY_SIGNATURE {
      return None;
    }
    var length := U32At(buf, 8);
    if length == 0 || length % LOG_SECTOR_SIZE != 0 || length != |buf| {
      return None;
    }
    var sequence, count := U64At(buf, 16), U32At(buf, 24);
    if GuidAt(buf, 32) != guid {
      return None;
    }
    var ds, dataCount := ParseDescriptors(buf, count, sequence);
    if ds.None? {
      return None;
    }
    var sectors := ParseSectors(buf, count, dataCount, sequence);
    if sectors.None? {
      return None;
    }
    return Some(LogEntry(sequence, U64At(buf, 48), U64At(buf, 56), ds.value, sectors.value, length));
  }

  method ParseDescriptors(buf: Buffer, count: nat, sequence: Word64) returns (r: Option<seq<Descriptor>>, dataCount: nat)
    requires |buf| >= HEADER
    ensures r == Descriptors(buf, count, sequence)
    ensures r.Some? ==> dataCount == DataCount(r.value)
  {
    hide DescriptorAt;
    var ds: seq<Descriptor> := [];
    dataCount := 0;
    var off := HEADER;
    for i := 0 to count
      invariant off == HEADER + DESCRIPTOR * i
      invariant Descriptors(buf, i, sequence) == Some(ds) && dataCount == DataCount(ds)
    {
      var d: Option<Descriptor> := None;
      if off + DESCRIPTOR <= |buf| {
        d := DescriptorAt(buf, off, sequence, dataCount);
      }
      if d.None? {
        NoDescriptors(buf, i + 1, count, sequence);
        return None, dataCount;
      }
      assert (ds + [d.value])[..|ds|] == ds;
      if d.value.DataDescriptor? {
        dataCount := dataCount + 1;
      }
      ds := ds + [d.value];
      off := off + DESCRIPTOR;
    }
    return Some(ds), dataCount;
  }

  /** Takes one sector per data descriptor. */
  method ParseSectors(buf: Buffer, count: nat, dataCount: nat, sequence: Word64) returns (r: Option<seq<Buffer>>)
    ensures r == DataSectors(buf, FirstSector(count), dataCount, sequence)
  {
    hide SectorAt, FirstSector;
    var off := FindFirstSector(count);
    var sectors: seq<Buffer> := [];
    for i := 0 to dataCount
      invariant off == FirstSector(count) + LOG_SECTOR_SIZE * i
      invariant DataSectors(buf, FirstSector(count), i, sequence) == Some(sectors)
    {
      var sector := SectorAt(buf, off, sequence);
      if sector.None? {
        NoSectors(buf, FirstSector(count), i + 1, dataCount, sequence);
        return None;
      }
      sectors := sectors + [sector.value];
      off := off + LOG_SECTOR_SIZE;
    }
    return Some(sectors);
  }

  /** Steps sector by sector until it is past the descriptors. */
  method FindFirstSector(count: nat) returns (off: nat)
    ensures off == FirstSector(count)
  {
    off := LOG_SECTOR_SIZE;
    while off < HEADER + DESCRIPTOR * count
      invariant off % LOG_SECTOR_SIZE == 0 && LOG_SECTOR_SIZE <= off
      invariant off < HEADER + DESCRIPTOR * count + LOG_SECTOR_SIZE
    {
      off := off + LOG_SECTOR_SIZE;
    }
    FirstMultiple(HEADER + DESCRIPTOR * count, off);
  }

  /** There is one multiple of the sector size in a half-open range of that length. */
  lemma FirstMultiple(n: nat, off: nat)
    requires off % LOG_SECTOR_SIZE == 0 && n <= off < n + LOG_SECTOR_SIZE
    ensures off == AlignUp(n, LOG_SECTOR_SIZE)
  {
  }

  // ---- The ring ----

  /** The `len` bytes from `at` on, round the end of the ring. */
  function Ring(ring: Buffer, at: nat, len: nat): (b: Buffer)
    requires |ring| > 0
    ensures |b| == len && forall j :: 0 <= j < len ==> b[j] == ring[(at + j) % |ring|]
  {
    seq(len, j requires 0 <= j < len => ring[(at + j) % |ring|])
  }

  /** The length the entry header at `at` states, if there is an entry header with a usable length. */
  function EntryLength(ring: Buffer, at: nat): (r: Option<nat>)
    requires at + LOG_SECTOR_SIZE <= |ring|
    ensures r.Some? ==> r.value > 0
  {
    var length := U32At(ring, at + 8);
    if Slice(ring, at, 4) != LOG_ENTRY_SIGNATURE || length == 0 || length % LOG_SECTOR_SIZE != 0 then None else Some(length)
  }

  /** The entries met walking the ring from `cursor`. A stated length of more than what is left and a whole ring panics. */
  function Walk(ring: Buffer, guid: Guid, cursor: nat): Result<seq<(nat, LogEntry)>>
    decreases |ring| - cursor
  {
    if cursor + LOG_SECTOR_SIZE > |ring| then Ok([])
    else
      match EntryLength(ring, cursor)
      case None => Walk(ring, guid, cursor + LOG_SECTOR_SIZE)
      case Some(length) =>
        if cursor + length > 2 * |ring| then Err(Panic)
        else
          var rest :- Walk(ring, guid, cursor + length);
          match EntryIn(Ring(ring, cursor, length), guid)
          case Some(e) => Ok([(cursor, e)] + rest)
          case None => Ok(rest)
  }

  /** The entries of a walk stand one behind the other, and each is what the ring holds there. */
  lemma {:induction false} WalkFinds(ring: Buffer, guid: Guid, cursor: nat)
    requires Walk(ring, guid, cursor).Ok?
    ensures
      var found := Walk(ring, guid, cursor).value;
      && (forall k :: 0 <= k < |found| ==>
            && |ring| > 0 && cursor <= found[k].0 < |ring|
            && EntryIn(Ring(ring, found[k].0, found[k].1.byteLen), guid) == Some(found[k].1)
            && WellIndexed(found[k].1))
      && (forall k, m :: 0 <= k < m < |found| ==> found[k].0 + found[k].1.byteLen <= found[m].0)
    decreases |ring| - cursor
  {
    hide EntryIn, EntryLength, Ring, Numbered, WellIndexed;
    if cursor + LOG_SECTOR_SIZE <= |ring| {
      match EntryLength(ring, cursor) {
        case None =>
          WalkFinds(ring, guid, cursor + LOG_SECTOR_SIZE);
        case Some(length) =>
          WalkFinds(ring, guid, cursor + length);
          if EntryIn(Ring(ring, cursor, length), guid).Some? {
            AcceptedEntry(Ring(ring, cursor, length), guid);
          }
      }
    }
  }

  /** Copies an entry out of the ring in one piece or two. */
  method Linearise(ring: Buffer, cursor: nat, length: nat) returns (linear: Buffer)
    requires cursor < |ring| && cursor + length <= 2 * |ring|
    ensures linear == Ring(ring, cursor, length)
  {
    if cursor + length <= |ring| {
      linear := Slice(ring, cursor, length);
    } else {
      var first := |ring| - cursor;
      linear := Slice(ring, cursor, first) + ring[..length - first];
    }
    forall j | 0 <= j < length
      ensures linear[j] == ring[(cursor + j) % |ring|]
    {
      if cursor + j < |ring| {
        DivModUnique(cursor + j, |ring|, 0, cursor + j);
      } else {
        DivModUnique(cursor + j, |ring|, 1, cursor + j - |ring|);
      }
    }
  }

  function Prepended(found: seq<(nat, LogEntry)>, r: Result<seq<(nat, LogEntry)>>): Result<seq<(nat, LogEntry)>> {
    match r
    case Ok(rest) => Ok(found + rest)
    case Err(e) => Err(e)
  }

  method WalkRing(ring: Buffer, guid: Guid) returns (r: Result<seq<(nat, LogEntry)>>)
    ensures r == Walk(ring, guid, 0)
  {
    hide EntryIn, EntryLength, Ring;
    var entries: seq<(nat, LogEntry)> := [];
    var cursor := 0;
    assert Prepended([], Walk(ring, guid, 0)) == Walk(ring, guid, 0) by {
      NothingPrepended(Walk(ring, guid, 0));
    }
    while cursor < |ring|
      invariant Walk(ring, guid, 0) == Prepended(entries, Walk(ring, guid, cursor))
      decreases |ring| - cursor
    {
      if cursor + LOG_SECTOR_SIZE > |ring| {
        break;
      }
      var length := EntryLength(ring, cursor);
      if length.None? {
        cursor := cursor + LOG_SECTOR_SIZE;
        continue;
      }
      if cursor + length.value > 2 * |ring| {
        return Err(Panic);
      }
      var linear := Linearise(ring, cursor, length.value);
      var e := ParseEntry(linear, guid);
      PrependedTwice(entries, if e.Some? then [(cursor, e.value)] else [], Walk(ring, guid, cursor + length.value));
      if e.Some? {
        entries := entries + [(cursor, e.value)];
      }
      cursor := cursor + length.value;
    }
    assert Walk(ring, guid, cursor) == Ok([]);
    assert entries + [] == entries;
    return Ok(entries);
  }

  lemma NothingPrepended(r: Result<seq<(nat, LogEntry)>>)
    ensures Prepended([], r) == r
  {
    if r.Ok? {
      assert [] + r.value == r.value;
    }
  }

  lemma PrependedTwice(a: seq<(nat, LogEntry)>, b: seq<(nat, LogEntry)>, r: Result<seq<(nat, LogEntry)>>)
    ensures Prepended(a, Prepended(b, r)) == Prepended(a + b, r)
    ensures Prepended([], r) == r
  {
    if r.Ok? {
      assert a + b + r.value == a + (b + r.value);
      assert [] + r.value == r.value;
    }
  }

  // ---- The active sequence ----

  /** Entries `at` to `at + n` have consecutive sequence numbers. */
  predicate IsRun(es: seq<LogEntry>, at: nat, n: nat) {
    && 0 < n && at + n <= |es|
    && forall i :: at < i < at + n ==> es[i].sequenceNumber == es[i - 1].sequenceNumber + 1
  }

  /** A longest run, and the first of those. */
  ghost predicate IsBestRun(es: seq<LogEntry>, start: nat, n: nat) {
    && IsRun(es, start, n)
    && forall at: nat, m: nat :: IsRun(es, at, m) ==> m < n || (m == n && start <= at)
  }

  lemma BestRunIsUnique(es: seq<LogEntry>, s1: nat, n1: nat, s2: nat, n2: nat)
    requires IsBestRun(es, s1, n1) && IsBestRun(es, s2, n2)
    ensures s1 == s2 && n1 == n2
  {
    hide IsRun;
    assert IsRun(es, s1, n1) && IsRun(es, s2, n2);
  }

  /** A longest and first run among those that end by `i`. */
  ghost predicate IsBestUpTo(es: seq<LogEntry>, start: nat, n: nat, i: nat) {
    && IsRun(es, start, n) && start + n <= i
    && forall at: nat, m: nat :: IsRun(es, at, m) && at + m <= i ==> m < n || (m == n && start <= at)
  }

  /** The run that ends at `i` cannot be extended to the left. */
  predicate IsCurrentRun(es: seq<LogEntry>, start: nat, i: nat) {
    && start < i <= |es| && IsRun(es, start, i - start)
    && (start > 0 ==> es[start].sequenceNumber != es[start - 1].sequenceNumber + 1)
  }

  method FindLongestRun(es: seq<LogEntry>) returns (bestStart: nat, bestLen: nat)
    requires es != []
    ensures IsBestRun(es, bestStart, bestLen)
  {
    hide IsRun, IsBestUpTo, IsCurrentRun;
    bestStart, bestLen := 0, 1;
    var curStart := 0;
    FirstRun(es);
    for i := 1 to |es|
      invariant IsCurrentRun(es, curStart, i)
      invariant IsBestUpTo(es, bestStart, bestLen, i)
    {
      NextRun(es, curStart, i);
      if es[i].sequenceNumber == es[i - 1].sequenceNumber + 1 {
        var curLen := i - curStart + 1;
        BetterRun(es, bestStart, bestLen, curStart, i);
        if curLen > bestLen {
          bestLen := curLen;
          bestStart := curStart;
        }
      } else {
        BetterRun(es, bestStart, bestLen, i, i);
        curStart := i;
      }
    }
    BestOfAll(es, bestStart, bestLen);
  }

  lemma FirstRun(es: seq<LogEntry>)
    requires es != []
    ensures IsCurrentRun(es, 0, 1) && IsBestUpTo(es, 0, 1, 1)
  {
  }

  lemma NextRun(es: seq<LogEntry>, start: nat, i: nat)
    requires IsCurrentRun(es, start, i) && i < |es|
    ensures IsCurrentRun(es, if es[i].sequenceNumber == es[i - 1].sequenceNumber + 1 then start else i, i + 1)
  {
  }

  /** The best run up to `i + 1` is the best so far or the run that now ends there, if that is longer. */
  lemma BetterRun(es: seq<LogEntry>, start: nat, n: nat, cur: nat, i: nat)
    requires IsBestUpTo(es, start, n, i) && IsCurrentRun(es, cur, i + 1)
    ensures
      var longer := i + 1 - cur > n;
      IsBestUpTo(es, if longer then cur else start, if longer then i + 1 - cur else n, i + 1)
    ensures n > 0
  {
    forall at: nat, m: nat | IsRun(es, at, m) && at + m == i + 1
      ensures cur <= at
    {
    }
    hide IsRun;
  }

  lemma BestOfAll(es: seq<LogEntry>, start: nat, n: nat)
    requires IsBestUpTo(es, start, n, |es|)
    ensures IsBestRun(es, start, n)
  {
    forall at: nat, m: nat | IsRun(es, at, m)
      ensures at + m <= |es|
    {
    }
    hide IsRun;
  }

  datatype LogScan = LogScan(logOffset: nat, logLength: nat, active: seq<LogEntry>, maxSequence: nat, maxFileOffset: nat)

  function MaxOffset(es: seq<LogEntry>): (m: nat)
    ensures forall i :: 0 <= i < |es| ==> es[i].lastFileOffset <= m
    ensures es == [] ==> m == 0
    ensures es != [] ==> exists i :: 0 <= i < |es| && es[i].lastFileOffset == m
  {
    if es == [] then 0
    else
      var rest := MaxOffset(es[..|es| - 1]);
      var last := es[|es| - 1].lastFileOffset;
      assert rest > last ==> exists i :: 0 <= i < |es| - 1 && es[i].lastFileOffset == rest by {
        if rest > last {
          var i :| 0 <= i < |es| - 1 && es[..|es| - 1][i].lastFileOffset == rest;
          assert es[i].lastFileOffset == rest;
        }
      }
      Max(rest, last)
  }

  function NotLater(a: (nat, LogEntry), b: (nat, LogEntry)): bool {
    a.1.sequenceNumber <= b.1.sequenceNumber
  }

  function Entries(found: seq<(nat, LogEntry)>): (es: seq<LogEntry>)
    ensures |es| == |found| && forall i :: 0 <= i < |es| ==> es[i] == found[i].1
  {
    seq(|found|, i requires 0 <= i < |found| => found[i].1)
  }

  /** The entries of the ring in order of sequence number. */
  function Sorted(found: seq<(nat, LogEntry)>): seq<LogEntry> {
    Entries(SortedBy(found, NotLater))
  }

  /** What a scan finds: nothing in a clean log, else the first of the longest runs. */
  ghost predicate IsScan(data: Buffer, header: Header, r: Result<LogScan>) {
    if header.logGuid == NIL || header.logLength == 0 then r == Ok(LogScan(header.logOffset, header.logLength, [], 0, 0))
    else
      match ReadExact(data, header.logOffset, header.logLength)
      case Err(e) => r == Err(e)
      case Ok(ring) =>
        match Walk(ring, header.logGuid, 0)
        case Err(e) => r == Err(e)
        case Ok(found) => r.Ok? && IsScanOf(found, header, r.value)
  }

  ghost predicate IsScanOf(found: seq<(nat, LogEntry)>, header: Header, scan: LogScan) {
    if found == [] then scan == LogScan(header.logOffset, header.logLength, [], 0, 0)
    else
      exists start: nat, n: nat :: IsBestRun(Sorted(found), start, n) && scan == ScanFor(header, RunOf(Sorted(found), start, n))
  }

  function RunOf(es: seq<LogEntry>, start: nat, n: nat): seq<LogEntry> {
    if start + n <= |es| then es[start..start + n] else []
  }

  function ScanFor(header: Header, best: seq<LogEntry>): LogScan {
    LogScan(header.logOffset, header.logLength, best, if best == [] then 0 else best[|best| - 1].sequenceNumber, MaxOffset(best))
  }

  /** The scan depends on nothing but the log's bytes and the header. */
  lemma ScanIsDetermined(data: Buffer, other: Buffer, header: Header, a: Result<LogScan>, b: Result<LogScan>)
    requires ReadExact(data, header.logOffset, header.logLength) == ReadExact(other, header.logOffset, header.logLength)
    requires IsScan(data, header, a) && IsScan(other, header, b)
    ensures a == b
  {
    hide Walk, IsBestRun, ReadExact, Sorted;
    if header.logGuid != NIL && header.logLength != 0 && ReadExact(data, header.logOffset, header.logLength).Ok? {
      var walked := Walk(ReadExact(data, header.logOffset, header.logLength).value, header.logGuid, 0);
      if walked.Ok? && walked.value != [] {
        var es := Sorted(walked.value);
        var s1: nat, n1: nat :| IsBestRun(es, s1, n1) && a.value == ScanFor(header, RunOf(es, s1, n1));
        var s2: nat, n2: nat :| IsBestRun(es, s2, n2) && b.value == ScanFor(header, RunOf(es, s2, n2));
        BestRunIsUnique(es, s1, n1, s2, n2);
      }
    }
  }

  method ScanLog(file: File, header: Header) returns (r: Result<LogScan>)
    ensures IsScan(file.data, header, r)
    ensures r.Ok? ==> forall i :: 0 <= i < |r.value.active| ==> WellIndexed(r.value.active[i])
  {
    hide Walk, IsBestRun, Sorted, WellIndexed;
    var empty := LogScan(header.logOffset, header.logLength, [], 0, 0);
    if header.logGuid == NIL || header.logLength == 0 {
      return Ok(empty);
    }
    var ring := file.ReadExactAt(header.logOffset, header.logLength);
    if ring.Err? {
      return Err(ring.error);
    }
    var found := WalkRing(ring.value, header.logGuid);
    if found.Err? {
      return Err(found.error);
    }
    if found.value == [] {
      return Ok(empty);
    }
    var scan := ChooseActive(found.value, header);
    AllWellIndexed(ring.value, header.logGuid, found.value);
    return Ok(scan);
  }

  /** Sorts the entries found and takes the first of the longest runs. */
  method ChooseActive(found: seq<(nat, LogEntry)>, header: Header) returns (scan: LogScan)
    requires found != []
    ensures IsScanOf(found, header, scan)
    ensures forall i :: 0 <= i < |scan.active| ==> scan.active[i] in Sorted(found)
  {
    hide IsBestRun, Sorted;
    var sorted := StableSort(found, NotLater);
    var es := Entries(sorted);
    SortedIs(found);
    var start, n := FindLongestRun(es);
    BestRunInside(es, start, n);
    return ScanFor(header, es[start..start + n]);
  }

  lemma SortedIs(found: seq<(nat, LogEntry)>)
    ensures Sorted(found) == Entries(SortedBy(found, NotLater))
  {
  }

  lemma BestRunInside(es: seq<LogEntry>, start: nat, n: nat)
    requires IsBestRun(es, start, n)
    ensures 0 < n && start + n <= |es|
  {
  }

  lemma AllWellIndexed(ring: Buffer, guid: Guid, found: seq<(nat, LogEntry)>)
    requires Walk(ring, guid, 0) == Ok(found)
    ensures forall i :: 0 <= i < |Sorted(found)| ==> WellIndexed(Sorted(found)[i])
  {
    hide WellIndexed, Walk, EntryIn, Ring;
    WalkFinds(ring, guid, 0);
    var from := SortIsStable(found, NotLater);
  }

  /** The entries a scan chooses among are in order, and are the entries of the ring. */
  lemma SortedEntries(found: seq<(nat, LogEntry)>)
    ensures |Sorted(found)| == |found|
    ensures forall i, j :: 0 <= i < j < |found| ==> Sorted(found)[i].sequenceNumber <= Sorted(found)[j].sequenceNumber
    ensures forall e :: e in Sorted(found) <==> e in Entries(found)
  {
    var from := SortIsStable(found, NotLater);
    var sorted := SortedBy(found, NotLater);
    forall e | e in Sorted(found)
      ensures e in Entries(found)
    {
      var i :| 0 <= i < |found| && Sorted(found)[i] == e;
      assert Entries(found)[from[i]] == e;
    }
    forall e | e in Entries(found)
      ensures e in Sorted(found)
    {
      var x :| 0 <= x < |found| && Entries(found)[x] == e;
      assert x in from;
      var i :| 0 <= i < |found| && from[i] == x;
      assert Sorted(found)[i] == e;
    }
  }

  // ---- The newest entries ----

  /** `f` is the first entry with the highest sequence number. */
  predicate IsFirstNewest(es: seq<LogEntry>, f: nat) {
    && f < |es| && es[f].sequenceNumber == es[|es| - 1].sequenceNumber
    && forall i :: 0 <= i < f ==> es[i].sequenceNumber < es[f].sequenceNumber
  }

  /**
   * The run chosen reaches the highest sequence number exactly when the run that leads up to it is longer than
   * every run before it.
   */
  lemma NewestRunIsBestIff(es: seq<LogEntry>, start: nat, n: nat, f: nat, cur: nat)
    requires forall i, j :: 0 <= i < j < |es| ==> es[i].sequenceNumber <= es[j].sequenceNumber
    requires IsFirstNewest(es, f) && IsCurrentRun(es, cur, f + 1) && IsBestRun(es, start, n)
    ensures es[start + n - 1].sequenceNumber == es[f].sequenceNumber <==>
            forall at: nat, m: nat :: IsRun(es, at, m) && at + m <= f ==> m < f + 1 - cur
  {
    assert IsRun(es, cur, f + 1 - cur) && IsRun(es, start, n);
    if start + n - 1 >= f {
      RunEndsAtNewest(es, start, n, f);
    } else {
      assert es[start + n - 1].sequenceNumber < es[f].sequenceNumber;
    }
    hide IsRun;
  }

  /** A best run that goes past the first of the newest entries can only be the log's one entry. */
  lemma RunEndsAtNewest(es: seq<LogEntry>, start: nat, n: nat, f: nat)
    requires forall i, j :: 0 <= i < j < |es| ==> es[i].sequenceNumber <= es[j].sequenceNumber
    requires IsFirstNewest(es, f) && IsBestRun(es, start, n) && f <= start + n - 1
    ensures start + n - 1 == f
  {
    if f < start + n - 1 {
      SingleRun(es, 0);
      if n > 1 {
        NewestAgain(es, f, start + n - 2);
        NewestAgain(es, f, start + n - 1);
      }
    }
  }

  lemma SingleRun(es: seq<LogEntry>, i: nat)
    requires i < |es|
    ensures IsRun(es, i, 1)
  {
  }

  lemma NewestAgain(es: seq<LogEntry>, f: nat, i: nat)
    requires forall i, j :: 0 <= i < j < |es| ==> es[i].sequenceNumber <= es[j].sequenceNumber
    requires IsFirstNewest(es, f) && f <= i < |es|
    ensures es[i].sequenceNumber == es[f].sequenceNumber
  {
  }

  /** The run a scan took, and the number it reports. */
  lemma ScanIsLast(found: seq<(nat, LogEntry)>, header: Header, scan: LogScan) returns (start: nat, n: nat)
    requires found != [] && IsScanOf(found, header, scan)
    ensures IsBestRun(Sorted(found), start, n) && 0 < n && start + n <= |Sorted(found)|
    ensures scan.maxSequence == Sorted(found)[start + n - 1].sequenceNumber
  {
    hide Sorted, IsBestRun, MaxOffset;
    start, n :| IsBestRun(Sorted(found), start, n) && scan == ScanFor(header, RunOf(Sorted(found), start, n));
    BestRunInside(Sorted(found), start, n);
  }

  /** A scan takes the newest entries exactly when no run before theirs is as long. */
  lemma ScanTakesNewestIff(found: seq<(nat, LogEntry)>, header: Header, scan: LogScan, f: nat, cur: nat)
    requires found != [] && IsScanOf(found, header, scan)
    requires IsFirstNewest(Sorted(found), f) && IsCurrentRun(Sorted(found), cur, f + 1)
    ensures scan.maxSequence == Sorted(found)[f].sequenceNumber <==>
            forall at: nat, m: nat :: IsRun(Sorted(found), at, m) && at + m <= f ==> m < f + 1 - cur
  {
    hide Sorted, IsFirstNewest, IsCurrentRun, IsRun, IsBestRun, IsScanOf;
    SortedEntries(found);
    var start, n := ScanIsLast(found, header, scan);
    NewestInside(Sorted(found), f);
    NewestRunIsBestIff(Sorted(found), start, n, f, cur);
  }

  lemma NewestInside(es: seq<LogEntry>, f: nat)
    requires IsFirstNewest(es, f)
    ensures f < |es|
  {
  }

  function PlainEntry(sequence: Word64): LogEntry {
    LogEntry(sequence, 0, 0, [], [], LOG_SECTOR_SIZE)
  }

  /** Two older entries in a row win over a single newer one. */
  lemma OlderRunWins()
    ensures
      var es := [PlainEntry(1), PlainEntry(2), PlainEntry(9)];
      IsBestRun(es, 0, 2) && IsFirstNewest(es, 2) && RunOf(es, 0, 2)[1].sequenceNumber == 2
  {
    var es := [PlainEntry(1), PlainEntry(2), PlainEntry(9)];
    assert es[0].sequenceNumber == 1 && es[1].sequenceNumber == 2 && es[2].sequenceNumber == 9;
    assert IsRun(es, 0, 2);
    forall at: nat, m: nat | IsRun(es, at, m)
      ensures m <= 2
    {
      assert es[2].sequenceNumber != es[1].sequenceNumber + 1;
    }
  }

  // ---- Replay ----

  /** The sector a data descriptor restores: the bytes the log borrowed at both ends are put back. */
  function Restored(d: Descriptor, sector: Buffer): (b: Buffer)
    requires d.DataDescriptor? && |d.leading| == 8 && |d.trailing| == 4 && |sector| == LOG_SECTOR_SIZE
    ensures |b| == LOG_SECTOR_SIZE
  {
    d.leading + sector[8..4092] + d.trailing
  }

  function WriteOf(e: LogEntry, k: nat): Write
    requires k < |e.descriptors| && WellIndexed(e)
  {
    match e.descriptors[k]
    case ZeroDescriptor(length, off, _) => Write(off, Zeros(length))
    case DataDescriptor(_, _, off, _, index) => Write(off, Restored(e.descriptors[k], e.dataSectors[index]))
  }

  function WritesOf(e: LogEntry): (ws: seq<Write>)
    requires WellIndexed(e)
    ensures |ws| == |e.descriptors| && forall k :: 0 <= k < |ws| ==> ws[k] == WriteOf(e, k)
  {
    seq(|e.descriptors|, k requires 0 <= k < |e.descriptors| => WriteOf(e, k))
  }

  predicate AllIndexed(es: seq<LogEntry>) {
    forall i :: 0 <= i < |es| ==> WellIndexed(es[i])
  }

  /** All writes of a replay, entry by entry, descriptor by descriptor. */
  function ReplayWrites(es: seq<LogEntry>): seq<Write>
    requires AllIndexed(es)
  {
    if es == [] then [] else ReplayWrites(es[..|es| - 1]) + WritesOf(es[|es| - 1])
  }

  /** The file is first made long enough, never shorter. */
  function Grown(data: Buffer, len: nat): (r: Buffer)
    ensures |r| == Max(|data|, len) && forall i: nat :: At(r, i) == At(data, i)
  {
    if |data| < len then Resized(data, len) else data
  }

  function Replayed(data: Buffer, scan: LogScan): Buffer
    requires AllIndexed(scan.active)
  {
    Apply(Grown(data, scan.maxFileOffset), ReplayWrites(scan.active))
  }

  lemma NothingReplayed(data: Buffer, scan: LogScan)
    requires scan.active == [] && scan.maxFileOffset == 0
    ensures AllIndexed(scan.active) && Replayed(data, scan) == data
  {
  }

  /** Replays the active sequence; the data-sector index is never out of range for entries a scan returns. */
  method ApplyReplay(file: File, scan: LogScan) returns (r: Result<()>)
    requires AllIndexed(scan.active) && (scan.active == [] ==> scan.maxFileOffset == 0)
    modifies file
    ensures r.Ok? && file.data == Replayed(old(file.data), scan)
  {
    hide WellIndexed, Apply, AllIndexed;
    if scan.active == [] {
      NothingReplayed(file.data, scan);
      return Ok(());
    }
    if |file.data| < scan.maxFileOffset {
      file.SetLen(scan.maxFileOffset);
    }
    ghost var start := file.data;
    NoReplay(start, scan.active);
    for i := 0 to |scan.active|
      invariant AllIndexed(scan.active[..i]) && file.data == Apply(start, ReplayWrites(scan.active[..i]))
    {
      OneMoreEntry(start, scan.active, i);
      var e := scan.active[i];
      r := ReplayEntry(file, e);
    }
    assert scan.active[..|scan.active|] == scan.active;
    return Ok(());
  }

  lemma NoReplay(start: Buffer, es: seq<LogEntry>)
    ensures AllIndexed(es[..0]) && start == Apply(start, ReplayWrites(es[..0]))
  {
  }

  lemma OneMoreEntry(start: Buffer, es: seq<LogEntry>, i: nat)
    requires i < |es| && AllIndexed(es)
    ensures AllIndexed(es[..i]) && WellIndexed(es[i]) && AllIndexed(es[..i + 1])
    ensures Apply(Apply(start, ReplayWrites(es[..i])), WritesOf(es[i])) == Apply(start, ReplayWrites(es[..i + 1]))
  {
    hide WellIndexed, Apply;
    assert es[..i + 1][..i] == es[..i];
    ApplyAppend(start, ReplayWrites(es[..i]), WritesOf(es[i]));
  }

  method ReplayEntry(file: File, e: LogEntry) returns (r: Result<()>)
    requires WellIndexed(e)
    modifies file
    ensures r.Ok? && file.data == Apply(old(file.data), WritesOf(e))
  {
    hide Apply, WritesOf;
    ghost var start := file.data;
    ghost var ws := WritesOf(e);
    NoWritesYet(start, ws);
    for k := 0 to |e.descriptors|
      invariant file.data == Apply(start, ws[..k])
    {
      ApplyStep(start, ws, k);
      match e.descriptors[k] {
        case ZeroDescriptor(length, off, _) =>
          file.ZeroRange(off, length);
        case DataDescriptor(_, _, off, _, index) =>
          assert index < |e.dataSectors|;   // so the error for a missing sector is never taken
          file.WriteAllAt(off, Restored(e.descriptors[k], e.dataSectors[index]));
      }
    }
    assert ws[..|ws|] == ws;
    return Ok(());
  }

  lemma NoWritesYet(start: Buffer, ws: seq<Write>)
    ensures Apply(start, ws[..0]) == start
  {
  }

  // ---- Crashes ----

  /**
   * `after` may be what a crash leaves when a replay onto `data` is cut short: nothing changed outside the
   * ranges the replay writes, and the length is somewhere between what it was and what it would become.
   */
  ghost predicate CutShort(data: Buffer, after: Buffer, scan: LogScan)
    requires AllIndexed(scan.active)
  {
    && |data| <= |after| <= |Replayed(data, scan)|
    && forall i: nat :: !Covered(ReplayWrites(scan.active), i) ==> At(after, i) == At(data, i)
  }

  lemma {:induction false} ExtentIsMax(n: nat, ws: seq<Write>)
    ensures Extent(n, ws) == Max(n, Extent(0, ws))
  {
    if ws != [] {
      ExtentIsMax(n, ws[..|ws| - 1]);
    }
  }

  lemma ReplayedLength(data: Buffer, scan: LogScan)
    requires AllIndexed(scan.active)
    ensures |Replayed(data, scan)| == Max(Max(|data|, scan.maxFileOffset), Extent(0, ReplayWrites(scan.active)))
  {
    ApplyLength(Grown(data, scan.maxFileOffset), ReplayWrites(scan.active));
    ExtentIsMax(|Grown(data, scan.maxFileOffset)|, ReplayWrites(scan.active));
  }

  /** Each byte of a replayed file is from the last descriptor that covers it, or as it was. */
  lemma LastDescriptorWins(data: Buffer, scan: LogScan, i: nat)
    requires AllIndexed(scan.active)
    ensures
      var ws := ReplayWrites(scan.active);
      At(Replayed(data, scan), i) == if Covered(ws, i) then ws[LastCover(ws, i)].bytes[i - ws[LastCover(ws, i)].off] else At(data, i)
  {
    LastWriteWins(Grown(data, scan.maxFileOffset), ReplayWrites(scan.active), i);
  }

  /** Whatever an interrupted replay left, replaying again gives the file the first replay would have given. */
  lemma ReplayConverges(data: Buffer, after: Buffer, scan: LogScan)
    requires AllIndexed(scan.active) && CutShort(data, after, scan)
    ensures Replayed(after, scan) == Replayed(data, scan)
  {
    hide ReplayWrites, Replayed, AllIndexed;
    ReplayedLength(data, scan);
    ReplayedLength(after, scan);
    forall i: nat | i < |Replayed(data, scan)|
      ensures Replayed(after, scan)[i] == Replayed(data, scan)[i]
    {
      LastDescriptorWins(data, scan, i);
      LastDescriptorWins(after, scan, i);
      assert At(Replayed(after, scan), i) == At(Replayed(data, scan), i);
    }
  }

  lemma ReplayIsCutShort(data: Buffer, scan: LogScan)
    requires AllIndexed(scan.active)
    ensures CutShort(data, Replayed(data, scan), scan)
  {
    hide ReplayWrites, Replayed, AllIndexed;
    ReplayedLength(data, scan);
    forall i: nat | !Covered(ReplayWrites(scan.active), i)
      ensures At(Replayed(data, scan), i) == At(data, i)
    {
      LastDescriptorWins(data, scan, i);
    }
  }

  lemma ReplayIsIdempotent(data: Buffer, scan: LogScan)
    requires AllIndexed(scan.active)
    ensures Replayed(Replayed(data, scan), scan) == Replayed(data, scan)
  {
    ReplayIsCutShort(data, scan);
    ReplayConverges(data, Replayed(data, scan), scan);
  }

  /** The first `k` writes, then one that was torn: some of its bytes are new, the others anything. */
  function Torn(data: Buffer, scan: LogScan, k: nat, torn: Buffer): Buffer
    requires AllIndexed(scan.active) && k < |ReplayWrites(scan.active)|
  {
    var ws := ReplayWrites(scan.active);
    Written(Apply(Grown(data, scan.maxFileOffset), ws[..k]), ws[k].off, torn)
  }

  /** A replay torn at any write is one of the outcomes that converge. */
  lemma TornIsCutShort(data: Buffer, scan: LogScan, k: nat, torn: Buffer)
    requires AllIndexed(scan.active) && k < |ReplayWrites(scan.active)|
    requires |torn| <= |ReplayWrites(scan.active)[k].bytes|
    ensures CutShort(data, Torn(data, scan, k, torn), scan)
  {
    hide AllIndexed, ReplayWrites;
    var ws := ReplayWrites(scan.active);
    var start := Grown(data, scan.maxFileOffset);
    var w := Write(ws[k].off, torn);
    var part := ws[..k] + [w];
    ApplyAppend(start, ws[..k], [w]);
    ApplyOne(Apply(start, ws[..k]), w);
    ApplyLength(start, part);
    ReplayedLength(data, scan);
    ExtentIsMax(|start|, part);
    TornExtent(ws, k, w);
    forall i: nat | !Covered(ws, i)
      ensures At(Apply(start, part), i) == At(data, i)
    {
      TornCovers(ws, k, w, i);
      LastWriteWins(start, part, i);
    }
  }

  lemma TornCovers(ws: seq<Write>, k: nat, w: Write, i: nat)
    requires k < |ws| && w.off == ws[k].off && |w.bytes| <= |ws[k].bytes|
    ensures Covered(ws[..k] + [w], i) ==> Covered(ws, i)
  {
    var part := ws[..k] + [w];
    if Covered(part, i) {
      var j :| 0 <= j < |part| && part[j].Covers(i);
      assert ws[j].Covers(i);
    }
  }

  lemma TornExtent(ws: seq<Write>, k: nat, w: Write)
    requires k < |ws| && w.off == ws[k].off && |w.bytes| <= |ws[k].bytes|
    ensures Extent(0, ws[..k] + [w]) <= Extent(0, ws)
  {
    var part := ws[..k] + [w];
    assert part[..k] == ws[..k];
    PrefixExtent(ws, k);
    PrefixExtent(ws, k + 1);
    assert ws[..k + 1][..k] == ws[..k];
  }

  lemma {:induction false} PrefixExtent(ws: seq<Write>, k: nat)
    requires k <= |ws|
    ensures Extent(0, ws[..k]) <= Extent(0, ws)
  {
    if k < |ws| {
      assert ws[..|ws| - 1][..k] == ws[..k];
      PrefixExtent(ws[..|ws| - 1], k);
    } else {
      assert ws[..k] == ws;
    }
  }

  /** Any number of interrupted replays, one after the other, and a last one that completes. */
  lemma {:induction false} EveryCrashRunConverges(states: seq<Buffer>, scan: LogScan)
    requires AllIndexed(scan.active) && states != []
    requires forall i :: 0 <= i < |states| - 1 ==> CutShort(states[i], states[i + 1], scan)
    ensures Replayed(states[|states| - 1], scan) == Replayed(states[0], scan)
  {
    hide Replayed, AllIndexed, CutShort;
    var n := |states| - 1;
    if n > 0 {
      EveryCrashRunConverges(states[..n], scan);
      assert CutShort(states[n - 1], states[n - 1 + 1], scan);
      ReplayConverges(states[n - 1], states[n], scan);
    }
  }

  /** No byte of the range is written by the replay. */
  ghost predicate ReplayClearOf(scan: LogScan, at: nat, n: nat)
    requires AllIndexed(scan.active)
  {
    forall i: nat :: at <= i < at + n ==> !Covered(ReplayWrites(scan.active), i)
  }

  lemma CutShortKeeps(data: Buffer, after: Buffer, scan: LogScan, at: nat, n: nat)
    requires AllIndexed(scan.active) && CutShort(data, after, scan) && ReplayClearOf(scan, at, n) && at + n <= |data|
    ensures ReadExact(after, at, n) == ReadExact(data, at, n)
  {
    hide ReplayWrites, Replayed, AllIndexed;
    if n > 0 {
      forall i: nat | at <= i < at + n
        ensures after[i] == data[i]
      {
        assert At(after, i) == At(data, i);
      }
      assert Slice(after, at, n) == Slice(data, at, n);
    }
  }

  /** A log that its own replay does not touch scans the same after a crash, so the same entries are replayed again. */
  lemma RescanFindsTheSame(data: Buffer, after: Buffer, header: Header, scan: LogScan, again: Result<LogScan>)
    requires AllIndexed(scan.active) && IsScan(data, header, Ok(scan)) && CutShort(data, after, scan)
    requires ReplayClearOf(scan, header.logOffset, header.logLength) && header.logOffset + header.logLength <= |data|
    requires IsScan(after, header, again)
    ensures again == Ok(scan) && Replayed(after, scan) == Replayed(data, scan)
  {
    hide IsScan, CutShort, Replayed, ReplayClearOf, AllIndexed;
    CutShortKeeps(data, after, scan, header.logOffset, header.logLength);
    ScanIsDetermined(data, after, header, Ok(scan), again);
    ReplayConverges(data, after, scan);
  }
}
