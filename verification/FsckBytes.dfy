/** What the report of a check says of the bytes it was made from (repair.rs). */
module FsckBytes {
  import opened Wrappers
  import opened Bytes
  import opened FileIo
  import opened Format
  import opened Headers
  import opened Regions
  import opened HeaderBytes
  import opened DiskBytes
  import opened BlockTable
  import opened MetadataRegion
  import opened Disks
  import opened TableCheck
  import opened Fsck
  import Log
  import FsckRuns
  import LogBytes

  // ---- Issues ----

  function BlockOf(x: Issue): nat {
    match x
    case PresentAtZero(b) => b
    case PastTheEnd(b, _) => b
    case UnknownState(b, _) => b
  }

  /** What an issue claims of the entry of its block. States 6 and 7 are the present ones, 4 and 5 have no meaning. */
  predicate IsIssue(x: Issue, e: BatEntry, bs: nat, fileLen: nat) {
    match x
    case PresentAtZero(_) => e.State() in {6, 7} && e.FileOffset() == 0
    case PastTheEnd(_, off) => e.State() in {6, 7} && off == e.FileOffset() && off > 0 && (off + bs) % U64 > fileLen
    case UnknownState(_, s) => e.State() in {4, 5} && s == e.State()
  }

  /** The list has, in block order, exactly the issues there are, each once. */
  ghost predicate IssuesAre(xs: seq<Issue>, t: Table, count: nat, bs: nat, fileLen: nat)
    requires t.chunkRatio > 0
  {
    && (forall i, j :: 0 <= i < j < |xs| ==> BlockOf(xs[i]) < BlockOf(xs[j]))
    && forall x: Issue :: x in xs <==>
         BlockOf(x) < count && EntryIndex(BlockOf(x), t.chunkRatio) < |t.entries| &&
         IsIssue(x, t.entries[EntryIndex(BlockOf(x), t.chunkRatio)], bs, fileLen)
  }

  lemma OneIssue(e: BatEntry, b: nat, bs: nat, fileLen: nat)
    ensures forall x: Issue :: IssueOf(e, b, bs, fileLen) == Some(x) <==> BlockOf(x) == b && IsIssue(x, e, bs, fileLen)
  {
    StateBelow8(e);
    hide BatEntry.FileOffset, BatEntry.State;
  }

  lemma {:induction false} IssuesListed(t: Table, count: nat, bs: nat, fileLen: nat)
    requires t.chunkRatio > 0
    ensures IssuesAre(BlockIssues(t, count, bs, fileLen), t, count, bs, fileLen)
  {
    hide IssueOf, IsIssue, EntryIndex, PayloadIndex;
    if count > 0 {
      var b := count - 1;
      IssuesListed(t, b, bs, fileLen);
      IndicesAre(b, t.chunkRatio);
      if t.PayloadEntry(b).Some? {
        OneIssue(t.PayloadEntry(b).value, b, bs, fileLen);
      }
      OneMoreListed(t, b, bs, fileLen, BlockIssues(t, b, bs, fileLen),
                    if t.PayloadEntry(b).Some? then IssueOf(t.PayloadEntry(b).value, b, bs, fileLen) else None);
    }
  }

  lemma OneMoreListed(t: Table, b: nat, bs: nat, fileLen: nat, xs: seq<Issue>, last: Option<Issue>)
    requires t.chunkRatio > 0 && IssuesAre(xs, t, b, bs, fileLen)
    requires forall x: Issue :: last == Some(x) <==>
               BlockOf(x) == b && EntryIndex(b, t.chunkRatio) < |t.entries| &&
               IsIssue(x, t.entries[EntryIndex(b, t.chunkRatio)], bs, fileLen)
    ensures IssuesAre(xs + AsSeq(last), t, b + 1, bs, fileLen)
  {
    hide IsIssue, EntryIndex;
    var all := xs + AsSeq(last);
    forall x: Issue
      ensures x in all <==> x in xs || last == Some(x)
    {
    }
    forall i, j | 0 <= i < j < |all|
      ensures BlockOf(all[i]) < BlockOf(all[j])
    {
      assert all[i] in xs;
    }
  }

  /** The table has the entries of the first `count` blocks and of no other. */
  ghost predicate Lists(t: Table, count: nat)
    requires t.chunkRatio > 0
  {
    (forall b: nat :: b < count ==> EntryIndex(b, t.chunkRatio) < |t.entries|) && EntryIndex(count, t.chunkRatio) >= |t.entries|
  }

  lemma ListedBlocks(t: Table, count: nat)
    requires t.chunkRatio > 0 && Lists(t, count)
    ensures count == PayloadsAmong(|t.entries|, t.chunkRatio)
  {
    var all := PayloadsAmong(|t.entries|, t.chunkRatio);
    PayloadsBefore(count, |t.entries|, t.chunkRatio);
    IndicesAre(count, t.chunkRatio);
    PayloadsBefore(all, |t.entries|, t.chunkRatio);
    IndicesAre(all, t.chunkRatio);
  }

  /** The issues cover the blocks whose entries the table has. */
  lemma ReportedIssues(data: Buffer, es: seq<RegionEntry>)
    requires Issues(data, es).Ok?
    ensures ReadTables(data, es).Ok? && ReadTables(data, es).value.3.chunkRatio > 0
    ensures
      var t := ReadTables(data, es).value;
      forall count: nat :: Lists(t.3, count) ==> IssuesAre(Issues(data, es).value, t.3, count, t.2.BlockSize(), |data|)
  {
    hide ReadTables, IssuesAre, BlockIssues, PayloadsAmong, Lists;
    var t := ReadTables(data, es).value;
    forall count: nat | Lists(t.3, count)
      ensures IssuesAre(Issues(data, es).value, t.3, count, t.2.BlockSize(), |data|)
    {
      ListedBlocks(t.3, count);
      IssuesListed(t.3, count, t.2.BlockSize(), |data|);
    }
  }

  // ---- Headers, region tables, log ----

  /** Which of the two copies are reported intact. */
  predicate Tells(status: Intact, first: bool, second: bool) {
    match status
    case Both => first && second
    case FirstOnly => first && !second
    case SecondOnly => !first && second
    case Neither => !first && !second
  }

  /**
   * A report tells which slots of the file held good headers and which good region tables before the run, and whether
   * anything was fixed: if not, no byte changed.
   */
  lemma ReportSays(before: Buffer, opts: FsckOptions, scan: Log.LogScan, report: FsckReport, after: Buffer)
    requires Outcome(before, opts, scan, Ok(report), after)
    ensures |before| >= 327680
    ensures Tells(report.headers, GoodHeader(FirstHeader(before)), GoodHeader(SecondHeader(before)))
    ensures Tells(report.regions, GoodTable(before[196608..262144]), GoodTable(before[262144..327680]))
    ensures report.headers != Neither && report.regions != Neither
    ensures report.fixed ==> opts.fix && !opts.dryRun
    ensures !report.fixed ==> after == before
  {
    hide GoodHeader, GoodTable, ReadPair, ReadRegions, LayoutValid, Issues, Updated, Log.IsScan, Log.Replayed, Log.AllIndexed,
      Cleared;
    HeaderPairIff(before);
    RegionPairIff(before);
    hide HeadersRepaired, RegionsRepaired;
    if !report.fixed && opts.Writes() {
      var (pair, regions) := Opened(before).value;
      FsckRuns.NothingToRepair(before, pair, regions);
    }
  }

  /** What is reported of the log: nothing of a clean one; how many entries would be or were replayed, and up to which number. */
  lemma LogSays(before: Buffer, opts: FsckOptions, scan: Log.LogScan, report: FsckReport, after: Buffer)
    requires Outcome(before, opts, scan, Ok(report), after)
    ensures Opened(before).Ok?
    ensures
      var active := Opened(before).value.0.Active();
      if active.logGuid == NIL || active.logLength == 0 then report.log == Empty
      else if scan.active != [] then
        report.log.Replayed? && report.log.entries == |scan.active| && report.log.maxSequence == scan.maxSequence
      else report.log == if opts.fix && !opts.dryRun && opts.allowLogDiscard then Discarded else Empty
  {
    hide Opened, Issues, Updated, Log.IsScan, Log.Replayed, Log.AllIndexed, Cleared, Repaired;
  }

  // ---- What a run changes ----

  const SECTION: nat := 327680

  lemma UpdateBelow(data: Buffer, next: Header, i: nat)
    requires i >= SECTION
    ensures Bytes.At(Updated(data, next), i) == Bytes.At(data, i)
  {
    hide EncodeHeader, TargetIndex;
  }

  lemma TablesBelow(data: Buffer, es: seq<RegionEntry>, i: nat)
    requires i >= SECTION && |es| <= MAX_ENTRIES
    ensures Bytes.At(Apply(data, BothTables(es)), i) == Bytes.At(data, i)
  {
    hide EncodeRegions;
    LastWriteWins(data, BothTables(es), i);
  }

  /** Repairing headers and region tables changes nothing behind them. */
  lemma RepairBelow(data: Buffer, writes: bool, pair: HeaderPair, regions: RegionPair, i: nat)
    requires i >= SECTION && |regions.active.entries| <= MAX_ENTRIES
    ensures Bytes.At(Repaired(data, writes, pair, regions), i) == Bytes.At(data, i)
  {
    hide Updated, Apply;
    var next := Successor(pair.Active(), (h: Header) => h);
    UpdateBelow(data, next, i);
    UpdateBelow(Updated(data, next), next, i);
    TablesBelow(HeadersRepaired(data, pair), regions.active.entries, i);
  }

  /**
   * Behind the header section a run changes a byte only if it replays a log of which a descriptor reaches that byte, and
   * then to what the last of those descriptors says.
   */
  lemma RunChanges(before: Buffer, opts: FsckOptions, scan: Log.LogScan, report: FsckReport, after: Buffer, i: nat)
    requires Outcome(before, opts, scan, Ok(report), after) && i >= SECTION
    ensures !(report.log.Replayed? && opts.Writes()) ==> Bytes.At(after, i) == Bytes.At(before, i)
    ensures report.log.Replayed? && opts.Writes() ==>
              && Log.AllIndexed(scan.active) && scan.active != []
              && (LogBytes.NothingReaches(scan.active, i) ==> Bytes.At(after, i) == Bytes.At(before, i))
              && forall a: nat, k: nat :: LogBytes.IsLastAt(scan.active, a, k, i) ==>
                   Bytes.At(after, i) == LogBytes.ByteAt(scan.active[a], k, i)
  {
    hide Opened, Issues, Updated, Log.IsScan, Log.Replayed, Log.AllIndexed, Cleared, Repaired, LogBytes.NothingReaches,
      LogBytes.IsLastAt, LogBytes.ByteAt;
    var (pair, regions) := Opened(before).value;
    var repaired := Repaired(before, opts.Writes(), pair, regions);
    RepairBelow(before, opts.Writes(), pair, regions, i);
    UpdateBelow(repaired, Cleared(pair.Active()), i);
    if report.log.Replayed? && opts.Writes() {
      LogBytes.ReplayedByte(repaired, scan, i);
      UpdateBelow(Log.Replayed(repaired, scan), Cleared(pair.Active()), i);
    }
  }
}
