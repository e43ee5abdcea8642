/** Checking an image and repairing it (repair.rs). */
module Fsck {
  import opened Wrappers
  import opened Bytes
  import opened FileIo
  import opened Format
  import opened Headers
  import opened Regions
  import opened BlockTable
  import opened MetadataRegion
  import opened Disks
  import opened Placement
  import Log
  import opened TableCheck

  datatype Intact = Both | FirstOnly | SecondOnly | Neither

  function IntactOf(first: bool, second: bool): Intact {
    if first && second then Both else if first then FirstOnly else if second then SecondOnly else Neither
  }

  datatype LogStatus = Empty | Replayed(entries: nat, maxSequence: nat) | Discarded

  datatype FsckReport = FsckReport(headers: Intact, regions: Intact, log: LogStatus, issues: seq<Issue>, fixed: bool)

  datatype FsckOptions = FsckOptions(fix: bool, dryRun: bool, allowLogDiscard: bool) {
    predicate Writes() {
      fix && !dryRun
    }
  }

  // ---- What the run does to the file ----

  /** The headers and region tables, if the image can be opened at all. */
  function Opened(data: Buffer): Result<(HeaderPair, RegionPair)> {
    var _ :- FileTypeOk(data);
    var pair :- ReadPair(data);
    var regions :- ReadRegions(data);
    if LayoutValid(regions.active.entries) then Ok((pair, regions)) else Err(InvalidStructure)
  }

  /** Headers rewritten unless both are valid, both times from the header that was active at the start. */
  function HeadersRepaired(data: Buffer, pair: HeaderPair): Buffer {
    if pair.h0.IsValid() && pair.h1.IsValid() then data
    else
      var next := Successor(pair.Active(), (h: Header) => h);
      Updated(Updated(data, next), next)
  }

  function RegionsRepaired(data: Buffer, regions: RegionPair): Buffer
    requires |regions.active.entries| <= MAX_ENTRIES
  {
    if regions.intact0 && regions.intact1 then data else Apply(data, BothTables(regions.active.entries))
  }

  function Repaired(data: Buffer, writes: bool, pair: HeaderPair, regions: RegionPair): Buffer
    requires |regions.active.entries| <= MAX_ENTRIES
  {
    if writes then RegionsRepaired(HeadersRepaired(data, pair), regions) else data
  }

  function Cleared(active: Header): Header {
    Successor(active, (h: Header) => h.(logGuid := NIL))
  }

  /** How the log was dealt with, and what that made of the file. */
  ghost predicate LogHandled(data: Buffer, opts: FsckOptions, active: Header, scan: Log.LogScan, status: LogStatus, after: Buffer) {
    if active.logGuid == NIL || active.logLength == 0 then status == Empty && after == data
    else
      && Log.IsScan(data, active, Ok(scan)) && Log.AllIndexed(scan.active)
      && if scan.active != [] then
           && status == Replayed(|scan.active|, scan.maxSequence)
           && after == if opts.Writes() then Updated(Log.Replayed(data, scan), Cleared(active)) else data
         else if opts.Writes() && opts.allowLogDiscard then status == Discarded && after == Updated(data, Cleared(active))
         else status == Empty && after == data
  }

  predicate LogWritten(opts: FsckOptions, status: LogStatus) {
    status.Discarded? || (status.Replayed? && opts.Writes())
  }

  predicate HeadersBoth(pair: HeaderPair) {
    pair.h0.IsValid() && pair.h1.IsValid()
  }

  predicate RegionsBoth(regions: RegionPair) {
    regions.intact0 && regions.intact1
  }

  /** What a run reports of the file it leaves. */
  ghost predicate Reported(pair: HeaderPair, regions: RegionPair, opts: FsckOptions, report: FsckReport, after: Buffer) {
    && report.headers == IntactOf(pair.h0.IsValid(), pair.h1.IsValid())
    && report.regions == IntactOf(regions.intact0, regions.intact1)
    && (report.fixed <==> (opts.Writes() && !(HeadersBoth(pair) && RegionsBoth(regions))) || LogWritten(opts, report.log))
    && Issues(after, regions.active.entries) == Ok(report.issues)
  }

  /** The table check, as a function of the file. */
  function Issues(data: Buffer, es: seq<RegionEntry>): Result<seq<Issue>> {
    var t :- ReadTables(data, es);
    Ok(BlockIssues(t.3, PayloadsAmong(|t.3.entries|, t.3.chunkRatio), t.2.BlockSize(), |data|))
  }

  /** How a run ends. A run that fails leaves the file as the steps before the failure left it. */
  ghost predicate Outcome(before: Buffer, opts: FsckOptions, scan: Log.LogScan, r: Result<FsckReport>, after: Buffer) {
    match Opened(before)
    case Err(e) => r == Err(e) && after == before
    case Ok((pair, regions)) =>
      && |regions.active.entries| <= MAX_ENTRIES
      && var repaired := Repaired(before, opts.Writes(), pair, regions);
      match r
      case Ok(report) =>
        && LogHandled(repaired, opts, pair.Active(), scan, report.log, after)
        && Reported(pair, regions, opts, report, after)
      case Err(e) =>
        || (Log.IsScan(repaired, pair.Active(), Err(e)) && after == repaired)
        || (Issues(after, regions.active.entries) == Err(e) &&
            exists status :: LogHandled(repaired, opts, pair.Active(), scan, status, after))
  }

  // ---- The code ----

  method CheckFile(file: File, opts: FsckOptions) returns (r: Result<FsckReport>, ghost scan: Log.LogScan)
    modifies file
    ensures Outcome(old(file.data), opts, scan, r, file.data)
    ensures !opts.Writes() ==> file.data == old(file.data)
  {
    hide ReadTables, ParseRegions, ParseHeader, LayoutValid, LogHandled, Issues, Log.IsScan, BlockIssues, Updated, Apply;
    scan := Log.LogScan(0, 0, [], 0, 0);
    var parts := OpenParts(file);
    if parts.Err? {
      return Err(parts.error), scan;
    }
    var (pair, regions) := parts.value;
    ActiveTableFits(file.data);
    RepairFile(file, opts, pair, regions);
    var status: Result<LogStatus>;
    status, scan := HandleLog(file, opts, pair);
    if status.Err? {
      return Err(status.error), scan;
    }
    var issues := CheckTables(file, regions.active.entries);
    if issues.Err? {
      return Err(issues.error), scan;
    }
    var repairs := opts.Writes() && !(HeadersBoth(pair) && RegionsBoth(regions));
    r := Ok(FsckReport(IntactOf(pair.h0.IsValid(), pair.h1.IsValid()), IntactOf(regions.intact0, regions.intact1),
                       status.value, issues.value, repairs || LogWritten(opts, status.value)));
  }

  method OpenParts(file: File) returns (r: Result<(HeaderPair, RegionPair)>)
    ensures r == Opened(file.data)
    ensures r.Ok? ==> ReadRegions(file.data) == Ok(r.value.1)
  {
    hide LayoutValid, ReadPair, ReadRegions;
    var sig := file.ReadExactAt(0, 8);
    if sig.Err? {
      return Err(sig.error);
    }
    if sig.value != FILE_TYPE_SIGNATURE {
      return Err(BadSignature);
    }
    var pair := ReadPair(file.data);
    if pair.Err? {
      return Err(pair.error);
    }
    var regions := ReadRegions(file.data);
    if regions.Err? {
      return Err(regions.error);
    }
    var layout := ValidateLayout(regions.value.active);
    if layout.Err? {
      return Err(layout.error);
    }
    return Ok((pair.value, regions.value));
  }

  method RepairFile(file: File, opts: FsckOptions, pair: HeaderPair, regions: RegionPair)
    requires |regions.active.entries| <= MAX_ENTRIES
    modifies file
    ensures file.data == Repaired(old(file.data), opts.Writes(), pair, regions)
  {
    hide Updated, Apply;
    if opts.fix && !opts.dryRun {
      if !HeadersBoth(pair) {
        var first := WriteNew(file, pair.Active(), (h: Header) => h);
        var second := WriteNew(file, pair.Active(), (h: Header) => h);
      }
      if !RegionsBoth(regions) {
        WriteBoth(file, regions.active);
      }
    }
  }

  /** Marks the log empty, from the header pair read at the start of the run. */
  method MarkLogClean(file: File, pair: HeaderPair) returns (sequence: Word64)
    modifies file
    ensures file.data == Updated(old(file.data), Cleared(pair.Active()))
  {
    sequence := WriteNew(file, pair.Active(), (h: Header) => h.(logGuid := NIL));
  }

  method HandleLog(file: File, opts: FsckOptions, pair: HeaderPair) returns (r: Result<LogStatus>, ghost found: Log.LogScan)
    modifies file
    ensures r.Ok? ==> LogHandled(old(file.data), opts, pair.Active(), found, r.value, file.data)
    ensures r.Err? ==> Log.IsScan(file.data, pair.Active(), Err(r.error)) && file.data == old(file.data)
    ensures !opts.Writes() ==> file.data == old(file.data)
  {
    hide Log.IsScan, Updated, Log.Replayed, Cleared, Log.WellIndexed;
    var active := pair.Active();
    found := Log.LogScan(0, 0, [], 0, 0);
    if active.logGuid == NIL || active.logLength == 0 {
      return Ok(Empty), found;
    }
    var scanned := Log.ScanLog(file, active);
    if scanned.Err? {
      return Err(scanned.error), found;
    }
    var scan := scanned.value;
    found := scan;
    if |scan.active| > 0 {
      if opts.fix && !opts.dryRun {
        var replay := Log.ApplyReplay(file, scan);
        var sequence := MarkLogClean(file, pair);
      }
      return Ok(Replayed(|scan.active|, scan.maxSequence)), found;
    }
    if opts.fix && !opts.dryRun && opts.allowLogDiscard {
      var sequence := MarkLogClean(file, pair);
      return Ok(Discarded), found;
    }
    return Ok(Empty), found;
  }

  method CheckTables(file: File, es: seq<RegionEntry>) returns (r: Result<seq<Issue>>)
    ensures r == Issues(file.data, es)
  {
    hide ReadTables, BlockIssues;
    var t := ReadTablesFrom(file, es);
    if t.Err? {
      return Err(t.error);
    }
    var (_, _, m, table) := t.value;
    var issues := CheckTable(table, m.BlockSize(), |file.data|);
    return Ok(issues);
  }
}
