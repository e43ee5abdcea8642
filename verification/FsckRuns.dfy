/** What checking and repairing an image guarantees over one run and the next (repair.rs, log.rs, header.rs). */
module FsckRuns {
  import opened Wrappers
  import opened Bytes
  import opened FileIo
  import opened Format
  import opened Headers
  import opened Regions
  import opened Disks
  import opened Placement
  import Log
  import opened Fsck

  // ---- The header section ----

  const SECTION_END: nat := RegionTableOffset(1) + REGION_TABLE_SIZE

  /** Identifier and region tables are the same. */
  ghost predicate SameFixed(a: Buffer, b: Buffer) {
    && SECTION_END <= |a| && SECTION_END <= |b|
    && Same(a, b, 0, 8)
    && Same(a, b, RegionTableOffset(0), REGION_TABLE_SIZE)
    && Same(a, b, RegionTableOffset(1), REGION_TABLE_SIZE)
  }

  lemma FixedReads(a: Buffer, b: Buffer)
    requires SameFixed(a, b)
    ensures FileTypeOk(b) == FileTypeOk(a) && ReadRegions(b) == ReadRegions(a)
  {
    hide ParseRegions;
    SameRange(a, b, 0, 8, 0, 8);
    SameRange(a, b, RegionTableOffset(0), REGION_TABLE_SIZE, RegionTableOffset(0), REGION_TABLE_SIZE);
    SameRange(a, b, RegionTableOffset(1), REGION_TABLE_SIZE, RegionTableOffset(1), REGION_TABLE_SIZE);
  }

  lemma UpdateKeepsFixed(data: Buffer, next: Header)
    requires SECTION_END <= |data|
    ensures |Updated(data, next)| == |data| && SameFixed(data, Updated(data, next))
  {
    hide TargetIndex, EncodeHeader;
    UpdateKeepsRange(data, next, 0, 8);
    UpdateKeepsRange(data, next, RegionTableOffset(0), REGION_TABLE_SIZE);
    UpdateKeepsRange(data, next, RegionTableOffset(1), REGION_TABLE_SIZE);
  }

  /** What opening established. */
  lemma OpenedParts(data: Buffer)
    requires Opened(data).Ok?
    ensures
      var (pair, regions) := Opened(data).value;
      && FileTypeOk(data).Ok? && ReadPair(data) == Ok(pair) && ReadRegions(data) == Ok(regions)
      && LayoutValid(regions.active.entries) && SECTION_END <= |data| && regions.active.checksumOk
  {
    hide ParseHeader, ParseRegions, LayoutValid;
  }

  lemma OpensFromParts(data: Buffer, pair: HeaderPair, regions: RegionPair)
    requires FileTypeOk(data).Ok? && ReadPair(data) == Ok(pair) && ReadRegions(data) == Ok(regions)
    requires LayoutValid(regions.active.entries)
    ensures Opened(data) == Ok((pair, regions))
  {
    hide ReadPair, ReadRegions, LayoutValid;
  }

  /** Both slots hold valid headers exactly when the pair read from them is whole. */
  lemma SlotsOfPair(data: Buffer)
    requires SECTION_END <= |data| && ReadPair(data).Ok?
    ensures HeadersBoth(ReadPair(data).value) <==> SlotsOf(data).s0.Some? && SlotsOf(data).s1.Some?
    ensures SlotsOf(data).Active() == Some(Content(ReadPair(data).value.Active()))
    ensures ReadPair(data).value.Active().IsValid()
  {
    hide ParseHeader;
    SlotsAbstract(data);
  }

  lemma PairOfSlots(data: Buffer)
    requires SECTION_END <= |data| && SlotsOf(data).Active().Some?
    ensures ReadPair(data).Ok?
  {
    hide SlotsOf;
    SlotsAbstract(data);
  }

  // ---- The slots over a run ----

  /** The slots once the headers are repaired. */
  function RepairedSlots(s: Slots, next: Header): Slots {
    if s.s0.Some? && s.s1.Some? then s else Update(Update(s, next, Completed), next, Completed)
  }

  lemma RepairHeaders(data: Buffer, pair: HeaderPair)
    requires SECTION_END <= |data| && ReadPair(data) == Ok(pair) && pair.Active().sequenceNumber + 1 < U64
    ensures
      var after := HeadersRepaired(data, pair);
      && |after| == |data| && SameFixed(data, after)
      && SlotsOf(after) == RepairedSlots(SlotsOf(data), Content(Successor(pair.Active(), (h: Header) => h)))
  {
    hide ReadPair, SlotsOf, Updated, TargetIndex;
    SlotsOfPair(data);
    var next := Successor(pair.Active(), (h: Header) => h);
    if !HeadersBoth(pair) {
      UpdateKeepsFixed(data, next);
      UpdateKeepsFixed(Updated(data, next), next);
      UpdatedSlots(data, next);
      UpdatedSlots(Updated(data, next), next);
      FixedTwice(data, Updated(data, next), Updated(Updated(data, next), next));
    }
  }

  lemma FixedTwice(a: Buffer, b: Buffer, c: Buffer)
    requires SameFixed(a, b) && SameFixed(b, c)
    ensures SameFixed(a, c)
  {
  }

  /** Rewriting the region tables leaves identifier and headers alone. */
  lemma RepairRegions(data: Buffer, regions: RegionPair)
    requires SECTION_END <= |data| && ReadRegions(data) == Ok(regions) && regions.active.checksumOk
    requires |regions.active.entries| <= MAX_ENTRIES
    ensures
      var after := RegionsRepaired(data, regions);
      && |after| == |data| && SlotsOf(after) == SlotsOf(data) && FileTypeOk(after) == FileTypeOk(data)
      && ReadRegions(after) == Ok(RegionPair(true, true, regions.active))
  {
    hide EncodeRegions, ReadRegions, ParseHeader, Apply;
    if RegionsBoth(regions) {
      assert regions == RegionPair(true, true, regions.active);
    } else {
      var ws := BothTables(regions.active.entries);
      var after := Apply(data, ws);
      BothTablesRead(data, regions.active.entries);
      ApplyLength(data, ws);
      TwoWritesExtent(|data|, ws);
      ApplyKeeps(data, ws, 0, 8);
      ApplyKeeps(data, ws, HeaderOffset(0), HEADER_SIZE);
      ApplyKeeps(data, ws, HeaderOffset(1), HEADER_SIZE);
    }
  }

  lemma TwoWritesExtent(n: nat, ws: seq<Write>)
    requires |ws| == 2 && ws[0].End() <= n && ws[1].End() <= n
    ensures Extent(n, ws) == n
  {
    FittingExtent(n, ws);
  }

  /** A replay that stays out of the header section leaves all of it alone. */
  lemma ReplayKeepsSection(data: Buffer, scan: Log.LogScan)
    requires SECTION_END <= |data| && Log.AllIndexed(scan.active) && Log.ReplayClearOf(scan, 0, HEADER_SECTION_END)
    ensures
      var after := Log.Replayed(data, scan);
      && |data| <= |after| && SameFixed(data, after) && SlotsOf(after) == SlotsOf(data)
  {
    hide Log.Replayed, Log.AllIndexed, ParseHeader, Log.ReplayWrites;
    var after := Log.Replayed(data, scan);
    Log.ReplayIsCutShort(data, scan);
    KeptSlice(data, after, scan, 0, 8);
    KeptSlice(data, after, scan, RegionTableOffset(0), REGION_TABLE_SIZE);
    KeptSlice(data, after, scan, RegionTableOffset(1), REGION_TABLE_SIZE);
    KeptSlice(data, after, scan, HeaderOffset(0), HEADER_SIZE);
    KeptSlice(data, after, scan, HeaderOffset(1), HEADER_SIZE);
  }

  lemma KeptSlice(data: Buffer, after: Buffer, scan: Log.LogScan, at: nat, n: nat)
    requires Log.AllIndexed(scan.active) && Log.CutShort(data, after, scan)
    requires Log.ReplayClearOf(scan, 0, HEADER_SECTION_END) && at + n <= HEADER_SECTION_END && at + n <= |data|
    ensures Same(data, after, at, n)
  {
    hide Log.AllIndexed, Log.CutShort, Covered, Log.ReplayWrites;
    assert Log.ReplayClearOf(scan, at, n);
    Log.CutShortKeeps(data, after, scan, at, n);
    LengthKept(data, after, scan);
  }

  lemma LengthKept(data: Buffer, after: Buffer, scan: Log.LogScan)
    requires Log.AllIndexed(scan.active) && Log.CutShort(data, after, scan)
    ensures |data| <= |after|
  {
  }

  /** Clearing the log from the header that was active at the start of the run, after a repair or not. */
  lemma ClearedSlots(s: Slots, active: Header, next: Header, cleared: Header)
    requires s.Active() == Some(active) && Follows(s, next) && Follows(s, cleared)
    ensures
      var after := Update(RepairedSlots(s, next), cleared, Completed);
      after.s0.Some? && after.s1.Some? && after.Active() == Some(cleared)
    ensures RepairedSlots(s, next).s0.Some? && RepairedSlots(s, next).s1.Some?
    ensures RepairedSlots(s, next).Active() == Some(if s.s0.Some? && s.s1.Some? then active else next)
  {
  }

  /** Whether the slots are coherent after a run: a log cleared after a header repair spoils them, one cleared without mends them. */
  lemma CoherentAfterRunIff(s: Slots, active: Header, next: Header, cleared: Header)
    requires s.Active() == Some(active) && Follows(s, next) && Follows(s, cleared) && next != cleared
    ensures RepairedSlots(s, next).Coherent() <==> s.Coherent()
    ensures Update(RepairedSlots(s, next), cleared, Completed).Coherent() <==> s.s0.Some? && s.s1.Some?
  {
  }

  // ---- One run that writes ----

  /** The file after headers, region tables and log are dealt with. */
  ghost predicate Mended(data: Buffer, pair: HeaderPair, regions: RegionPair, logCleared: bool, after: Buffer) {
    && Opened(after).Ok?
    && var (pair2, regions2) := Opened(after).value;
    && HeadersBoth(pair2) && regions2 == RegionPair(true, true, regions.active)
    && var a, b := pair.Active(), pair2.Active();
    && b.fileWriteGuid == a.fileWriteGuid && b.dataWriteGuid == a.dataWriteGuid
    && b.logOffset == a.logOffset && b.logLength == a.logLength
    && b.logGuid == (if logCleared then NIL else a.logGuid)
    && b.sequenceNumber == a.sequenceNumber + if logCleared || !HeadersBoth(pair) then 1 else 0
  }

  lemma RepairedFile(data: Buffer, pair: HeaderPair, regions: RegionPair)
    requires SECTION_END <= |data| && Opened(data) == Ok((pair, regions)) && |regions.active.entries| <= MAX_ENTRIES
    requires pair.Active().sequenceNumber + 1 < U64
    ensures
      var after := Repaired(data, true, pair, regions);
      && SECTION_END <= |after| && FileTypeOk(after).Ok?
      && SlotsOf(after) == RepairedSlots(SlotsOf(data), Content(Successor(pair.Active(), (h: Header) => h)))
      && ReadRegions(after) == Ok(RegionPair(true, true, regions.active))
  {
    hide Opened, ReadPair, ReadRegions, SlotsOf, HeadersRepaired, RegionsRepaired, RepairedSlots, LayoutValid, FileTypeOk;
    OpenedParts(data);
    RepairHeaders(data, pair);
    FixedReads(data, HeadersRepaired(data, pair));
    RepairRegions(HeadersRepaired(data, pair), regions);
  }

  /** The header section as a whole: what the slots and tables say decides how the file opens. */
  lemma MendedFromParts(data: Buffer, pair: HeaderPair, regions: RegionPair, logCleared: bool, after: Buffer, h: Header)
    requires SECTION_END <= |after| && FileTypeOk(after).Ok? && LayoutValid(regions.active.entries)
    requires ReadRegions(after) == Ok(RegionPair(true, true, regions.active))
    requires SlotsOf(after).s0.Some? && SlotsOf(after).s1.Some? && SlotsOf(after).Active() == Some(h)
    requires h.fileWriteGuid == pair.Active().fileWriteGuid && h.dataWriteGuid == pair.Active().dataWriteGuid
    requires h.logOffset == pair.Active().logOffset && h.logLength == pair.Active().logLength
    requires h.logGuid == if logCleared then NIL else pair.Active().logGuid
    requires h.sequenceNumber == pair.Active().sequenceNumber + if logCleared || !HeadersBoth(pair) then 1 else 0
    ensures Mended(data, pair, regions, logCleared, after)
  {
    hide ReadPair, ReadRegions, SlotsOf, LayoutValid, FileTypeOk, Opened;
    PairOfSlots(after);
    SlotsOfPair(after);
    OpensFromParts(after, ReadPair(after).value, RegionPair(true, true, regions.active));
  }

  lemma Successors(data: Buffer, pair: HeaderPair)
    requires SECTION_END <= |data| && ReadPair(data) == Ok(pair) && pair.Active().sequenceNumber + 1 < U64
    ensures SlotsOf(data).Active() == Some(Content(pair.Active()))
    ensures Follows(SlotsOf(data), Content(Successor(pair.Active(), (h: Header) => h)))
    ensures Follows(SlotsOf(data), Content(Cleared(pair.Active())))
    ensures Cleared(pair.Active()).version == 1 && Cleared(pair.Active()).logVersion == 0
    ensures Cleared(pair.Active()).logGuid == NIL && Cleared(pair.Active()).logOffset == pair.Active().logOffset
    ensures Cleared(pair.Active()).logLength == pair.Active().logLength
    ensures Cleared(pair.Active()).fileWriteGuid == pair.Active().fileWriteGuid
    ensures Cleared(pair.Active()).dataWriteGuid == pair.Active().dataWriteGuid
  {
    hide ReadPair, SlotsOf;
    SlotsOfPair(data);
  }

  /** The slots after a writing run. */
  function RunSlots(s: Slots, active: Header, cleared: bool): Slots {
    var repaired := RepairedSlots(s, Content(Successor(active, (h: Header) => h)));
    if cleared then Update(repaired, Content(Cleared(active)), Completed) else repaired
  }

  /** The header section after a writing run: slots, identifier and region tables. */
  lemma RunSection(data: Buffer, opts: FsckOptions, pair: HeaderPair, regions: RegionPair, scan: Log.LogScan, status: LogStatus, after: Buffer)
    requires opts.Writes() && Opened(data) == Ok((pair, regions)) && |regions.active.entries| <= MAX_ENTRIES
    requires pair.Active().sequenceNumber + 1 < U64
    requires LogHandled(Repaired(data, true, pair, regions), opts, pair.Active(), scan, status, after)
    requires status.Replayed? ==> Log.AllIndexed(scan.active) && Log.ReplayClearOf(scan, 0, HEADER_SECTION_END)
    ensures SECTION_END <= |data| && SECTION_END <= |after| && FileTypeOk(after).Ok?
    ensures ReadRegions(after) == Ok(RegionPair(true, true, regions.active))
    ensures SlotsOf(after) == RunSlots(SlotsOf(data), pair.Active(), LogWritten(opts, status))
    ensures LogWritten(opts, status) ==> pair.Active().logGuid != NIL
  {
    hide ReadPair, ReadRegions, SlotsOf, LayoutValid, FileTypeOk, Opened, Repaired, Updated, Log.IsScan, Cleared, Successor,
      Log.Replayed, RepairedSlots, Log.AllIndexed, Log.ReplayClearOf;
    OpenedParts(data);
    RepairedFile(data, pair, regions);
    Successors(data, pair);
    var repaired := Repaired(data, true, pair, regions);
    if LogWritten(opts, status) {
      var base := if status.Replayed? then Log.Replayed(repaired, scan) else repaired;
      if status.Replayed? {
        ReplayKeepsSection(repaired, scan);
        FixedReads(repaired, base);
      }
      UpdatedSlots(base, Cleared(pair.Active()));
      UpdateKeepsFixed(base, Cleared(pair.Active()));
      FixedReads(base, after);
    }
  }

  /** A writing run leaves both headers and both region tables valid; if it dealt with a log, the log GUID is nil. */
  lemma RunMends(data: Buffer, opts: FsckOptions, pair: HeaderPair, regions: RegionPair, scan: Log.LogScan, status: LogStatus, after: Buffer)
    requires opts.Writes() && Opened(data) == Ok((pair, regions)) && |regions.active.entries| <= MAX_ENTRIES
    requires pair.Active().sequenceNumber + 1 < U64
    requires LogHandled(Repaired(data, true, pair, regions), opts, pair.Active(), scan, status, after)
    requires status.Replayed? ==> Log.AllIndexed(scan.active) && Log.ReplayClearOf(scan, 0, HEADER_SECTION_END)
    ensures Mended(data, pair, regions, LogWritten(opts, status), after)
  {
    hide ReadPair, ReadRegions, SlotsOf, LayoutValid, FileTypeOk, Opened, Repaired, Mended, Cleared, Successor, RepairedSlots,
      LogHandled, Log.AllIndexed, Log.ReplayClearOf;
    OpenedParts(data);
    RunSection(data, opts, pair, regions, scan, status, after);
    SlotsOfPair(data);
    Successors(data, pair);
    var next := Content(Successor(pair.Active(), (h: Header) => h));
    ClearedSlots(SlotsOf(data), Content(pair.Active()), next, Content(Cleared(pair.Active())));
    NextLogFields(pair.Active());
    MendedFromParts(data, pair, regions, LogWritten(opts, status), after, SlotsOf(after).Active().value);
  }

  /** The run will write to the log's header field: there is a log, and it is replayed or may be discarded. */
  predicate WillClearLog(active: Header, scan: Log.LogScan, allowLogDiscard: bool) {
    active.logGuid != NIL && active.logLength != 0 && (scan.active != [] || allowLogDiscard)
  }

  lemma WillClearLogIff(data: Buffer, opts: FsckOptions, active: Header, scan: Log.LogScan, status: LogStatus, after: Buffer)
    requires opts.Writes() && LogHandled(data, opts, active, scan, status, after)
    ensures LogWritten(opts, status) <==> WillClearLog(active, scan, opts.allowLogDiscard)
  {
    hide Log.IsScan, Log.AllIndexed, Updated, Cleared, Log.Replayed;
  }

  /**
   * Whether the headers are safe after a writing run, from every state of the file before it: if the run clears a log,
   * exactly when both headers were valid before; if not, exactly when the headers were already safe.
   */
  lemma SafeAfterRunIff(before: Buffer, opts: FsckOptions, scan: Log.LogScan, report: FsckReport, after: Buffer)
    requires opts.Writes() && Outcome(before, opts, scan, Ok(report), after)
    requires Opened(before).Ok? && Opened(before).value.0.Active().sequenceNumber + 1 < U64
    requires report.log.Replayed? ==> Log.AllIndexed(scan.active) && Log.ReplayClearOf(scan, 0, HEADER_SECTION_END)
    ensures SECTION_END <= |before| && SECTION_END <= |after|
    ensures
      var pair := Opened(before).value.0;
      SlotsOf(after).Coherent() <==>
      if WillClearLog(pair.Active(), scan, opts.allowLogDiscard) then HeadersBoth(pair) else SlotsOf(before).Coherent()
  {
    hide Opened, LogHandled, Issues, Log.AllIndexed, Log.ReplayClearOf, Repaired, ReadPair, SlotsOf, RepairedSlots, Successor, Cleared;
    var (pair, regions) := Opened(before).value;
    var active := pair.Active();
    var next := Content(Successor(active, (h: Header) => h));
    WillClearLogIff(Repaired(before, true, pair, regions), opts, active, scan, report.log, after);
    RunSection(before, opts, pair, regions, scan, report.log, after);
    OpenedParts(before);
    SlotsOfPair(before);
    Successors(before, pair);
    NextLogFields(active);
    if LogWritten(opts, report.log) {
      CoherentAfterRunIff(SlotsOf(before), Content(active), next, Content(Cleared(active)));
    } else {
      RepairedCoherentIff(SlotsOf(before), next);
    }
  }

  /** The next header update survives being torn under that condition and no other. */
  lemma TornUpdateAfterRunIff(before: Buffer, opts: FsckOptions, scan: Log.LogScan, report: FsckReport, after: Buffer, update: Header)
    requires opts.Writes() && Outcome(before, opts, scan, Ok(report), after)
    requires Opened(before).Ok? && Opened(before).value.0.Active().sequenceNumber + 1 < U64
    requires report.log.Replayed? ==> Log.AllIndexed(scan.active) && Log.ReplayClearOf(scan, 0, HEADER_SECTION_END)
    requires SECTION_END <= |before| && SECTION_END <= |after| && Follows(SlotsOf(after), update)
    ensures
      var pair := Opened(before).value.0;
      Update(SlotsOf(after), update, Torn).Active() == SlotsOf(after).Active() <==>
      if WillClearLog(pair.Active(), scan, opts.allowLogDiscard) then HeadersBoth(pair) else SlotsOf(before).Coherent()
  {
    hide Opened, Outcome, Log.AllIndexed, Log.ReplayClearOf, SlotsOf;
    SafeAfterRunIff(before, opts, scan, report, after);
    TornUpdateIsSafeIff(SlotsOf(after), update);
  }

  lemma RepairedCoherentIff(s: Slots, next: Header)
    requires Follows(s, next)
    ensures RepairedSlots(s, next).Coherent() <==> s.Coherent()
  {
  }

  lemma NextLogFields(active: Header)
    ensures
      var next := Content(Successor(active, (h: Header) => h));
      && next.logGuid == active.logGuid && next.logOffset == active.logOffset && next.logLength == active.logLength
      && next.fileWriteGuid == active.fileWriteGuid && next.dataWriteGuid == active.dataWriteGuid
  {
  }

  // ---- The next run ----

  lemma ScanByLogFields(data: Buffer, a: Header, b: Header, r: Result<Log.LogScan>)
    requires a.logGuid == b.logGuid && a.logOffset == b.logOffset && a.logLength == b.logLength
    ensures Log.IsScan(data, a, r) <==> Log.IsScan(data, b, r)
  {
    hide Log.Walk, Log.IsBestRun, Log.Sorted;
  }

  lemma CleanLogScansEmpty(data: Buffer, h: Header, r: Result<Log.LogScan>)
    requires (h.logGuid == NIL || h.logLength == 0) && Log.IsScan(data, h, r)
    ensures r.Ok? && r.value.active == []
  {
  }

  /** The log of a mended file holds nothing to do. */
  lemma SecondLog(data: Buffer, opts: FsckOptions, active: Header, scan: Log.LogScan, status: LogStatus, after: Buffer,
                  now: Header, again: Log.LogScan, status2: LogStatus, after2: Buffer)
    requires opts.Writes() && LogHandled(data, opts, active, scan, status, after)
    requires now.logOffset == active.logOffset && now.logLength == active.logLength
    requires now.logGuid == if LogWritten(opts, status) then NIL else active.logGuid
    ensures LogHandled(after, opts, now, again, status2, after2) ==> status2 == Empty && after2 == after
    ensures forall e :: !Log.IsScan(after, now, Err(e))
  {
    hide Log.IsScan, Updated, Log.Replayed, Cleared, Log.AllIndexed;
    forall r: Result<Log.LogScan> | Log.IsScan(after, now, r)
      ensures r.Ok? && r.value.active == []
    {
      if now.logGuid == NIL || now.logLength == 0 {
        CleanLogScansEmpty(after, now, r);
      } else {
        ScanByLogFields(after, now, active, r);
        Log.ScanIsDetermined(after, after, active, Ok(scan), r);
      }
    }
  }

  /**
   * A second run of a repair that succeeded changes no byte and fixes nothing: it finds both headers and both
   * region tables valid, no log, and the same issues. The replay, if there was one, must stay out of the header section.
   */
  lemma SecondRunIsClean(before: Buffer, opts: FsckOptions, scan: Log.LogScan, report: FsckReport, after: Buffer,
                         again: Log.LogScan, r: Result<FsckReport>, after2: Buffer)
    requires opts.Writes() && Outcome(before, opts, scan, Ok(report), after)
    requires Opened(before).Ok? && Opened(before).value.0.Active().sequenceNumber + 1 < U64
    requires report.log.Replayed? ==> Log.AllIndexed(scan.active) && Log.ReplayClearOf(scan, 0, HEADER_SECTION_END)
    requires Outcome(after, opts, again, r, after2)
    ensures after2 == after
    ensures r == Ok(FsckReport(Both, Both, Empty, report.issues, false))
  {
    hide Opened, LogHandled, Log.IsScan, Issues, Log.AllIndexed, Log.ReplayClearOf, RegionsRepaired, HeadersRepaired;
    var (pair, regions) := Opened(before).value;
    RunMends(before, opts, pair, regions, scan, report.log, after);
    var (pair2, regions2) := Opened(after).value;
    assert Repaired(after, true, pair2, regions2) == after by {
      NothingToRepair(after, pair2, regions2);
    }
    SecondLog(Repaired(before, true, pair, regions), opts, pair.Active(), scan, report.log, after,
              pair2.Active(), again, Empty, after2);
    forall status | LogHandled(after, opts, pair2.Active(), again, status, after2)
      ensures status == Empty && after2 == after
    {
      SecondLog(Repaired(before, true, pair, regions), opts, pair.Active(), scan, report.log, after,
                pair2.Active(), again, status, after2);
    }
  }

  /** Repairing again does not make unsafe headers safe: the second run leaves the slots as the first left them. */
  lemma RepairAgainDoesNotMend(before: Buffer, opts: FsckOptions, scan: Log.LogScan, report: FsckReport, after: Buffer,
                               again: Log.LogScan, r: Result<FsckReport>, after2: Buffer)
    requires opts.Writes() && Outcome(before, opts, scan, Ok(report), after)
    requires Opened(before).Ok? && Opened(before).value.0.Active().sequenceNumber + 1 < U64
    requires report.log.Replayed? ==> Log.AllIndexed(scan.active) && Log.ReplayClearOf(scan, 0, HEADER_SECTION_END)
    requires Outcome(after, opts, again, r, after2)
    requires WillClearLog(Opened(before).value.0.Active(), scan, opts.allowLogDiscard) && !HeadersBoth(Opened(before).value.0)
    ensures SECTION_END <= |after2| && !SlotsOf(after2).Coherent() && r.Ok? && r.value.headers == Both
  {
    hide Opened, Outcome, Log.AllIndexed, Log.ReplayClearOf, SlotsOf;
    SafeAfterRunIff(before, opts, scan, report, after);
    SecondRunIsClean(before, opts, scan, report, after, again, r, after2);
  }

  lemma NothingToRepair(data: Buffer, pair: HeaderPair, regions: RegionPair)
    requires HeadersBoth(pair) && RegionsBoth(regions) && |regions.active.entries| <= MAX_ENTRIES
    ensures Repaired(data, true, pair, regions) == data
  {
    hide Updated, Apply;
  }

  /** After a replay or a discard the active header has a nil log GUID, whether or not headers were repaired first. */
  lemma LogIsClean(before: Buffer, opts: FsckOptions, scan: Log.LogScan, report: FsckReport, after: Buffer)
    requires Outcome(before, opts, scan, Ok(report), after) && LogWritten(opts, report.log) && opts.Writes()
    requires Opened(before).Ok? && Opened(before).value.0.Active().sequenceNumber + 1 < U64
    requires report.log.Replayed? ==> Log.AllIndexed(scan.active) && Log.ReplayClearOf(scan, 0, HEADER_SECTION_END)
    ensures Opened(after).Ok? && Opened(after).value.0.Active().logGuid == NIL
    ensures OpenDisk(after, true).Ok? ==> OpenDisk(after, false) == OpenDisk(after, true)
  {
    hide LogHandled, Issues, Log.AllIndexed, Log.ReplayClearOf, ReadTables, ReadPair, ReadRegions, LayoutValid, Repaired;
    var (pair, regions) := Opened(before).value;
    RunMends(before, opts, pair, regions, scan, report.log, after);
  }
}
