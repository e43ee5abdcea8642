/** The two region tables: codec, layout check and choice of the active one (region.rs). */
module Regions {
  import opened Wrappers
  import opened Bytes
  import opened Format
  import opened FileIo
  import opened Sorting

  const HEADER: nat := 16
  const ROW: nat := 32
  const MAX_ENTRIES: nat := 2047

  datatype RegionEntry = RegionEntry(guid: Guid, fileOffset: Word64, length: Word32, required: bool) {
    function End(): nat {
      fileOffset + length
    }

    /** The end as the code computes it, in 64 bits. */
    function WrappedEnd(): Word64 {
      (fileOffset + length) % U64
    }
  }

  datatype RegionTable = RegionTable(checksumOk: bool, entries: seq<RegionEntry>)

  // ---- Codec ----

  function Row(e: RegionEntry): (b: Buffer)
    ensures |b| == ROW
  {
    e.guid + Encode(e.fileOffset, 8) + Encode(e.length, 4) + Encode(if e.required then 1 else 0, 4)
  }

  function RowAt(buf: Buffer, i: nat): RegionEntry
    requires HEADER + ROW * i + ROW <= |buf|
  {
    var off := HEADER + ROW * i;
    RegionEntry(GuidAt(buf, off), U64At(buf, off + 16), U32At(buf, off + 24), U32At(buf, off + 28) % 2 == 1)
  }

  function RowsAt(buf: Buffer, n: nat): (es: seq<RegionEntry>)
    requires HEADER + ROW * n <= |buf|
    ensures |es| == n
    ensures forall i :: 0 <= i < n ==> es[i] == RowAt(buf, i)
  {
    if n == 0 then [] else RowsAt(buf, n - 1) + [RowAt(buf, n - 1)]
  }

  function ParseRegions(buf: Buffer): RegionTable {
    if |buf| < HEADER || Slice(buf, 0, 4) != REGION_SIGNATURE then RegionTable(false, [])
    else
      var n := U32At(buf, 8);
      if n > MAX_ENTRIES || |buf| < HEADER + ROW * n then RegionTable(false, [])
      else RegionTable(CrcWithZeroedField(buf, 4) == U32At(buf, 4), RowsAt(buf, n))
  }

  function Rows(es: seq<RegionEntry>): (b: Buffer)
    ensures |b| == ROW * |es|
  {
    if es == [] then [] else Rows(es[..|es| - 1]) + Row(es[|es| - 1])
  }

  /** The table before its checksum is filled in. */
  function Body(es: seq<RegionEntry>): (b: Buffer)
    requires |es| <= MAX_ENTRIES
    ensures |b| == REGION_TABLE_SIZE
  {
    Head(|es|) + Rows(es) + Zeros(REGION_TABLE_SIZE - HEADER - ROW * |es|)
  }

  function EncodeRegions(es: seq<RegionEntry>): (b: Buffer)
    requires |es| <= MAX_ENTRIES
    ensures |b| == REGION_TABLE_SIZE
  {
    Written(Body(es), 4, Encode(CRC32C(Body(es)), 4))
  }

  lemma {:induction false} RowInRows(es: seq<RegionEntry>, i: nat)
    requires i < |es|
    ensures Slice(Rows(es), ROW * i, ROW) == Row(es[i])
  {
    var n := |es| - 1;
    if i < n {
      RowInRows(es[..n], i);
      assert Slice(Rows(es), ROW * i, ROW) == Slice(Rows(es[..n]), ROW * i, ROW);
    }
  }

  /** The four fields of a row. */
  lemma RowParts(g: Buffer, f: Buffer, l: Buffer, r: Buffer, buf: Buffer, off: nat)
    requires |g| == 16 && |f| == 8 && |l| == 4 && |r| == 4
    requires off + ROW <= |buf| && Slice(buf, off, ROW) == g + f + l + r
    ensures Slice(buf, off, 16) == g && Slice(buf, off + 16, 8) == f
    ensures Slice(buf, off + 24, 4) == l && Slice(buf, off + 28, 4) == r
  {
    var row := Slice(buf, off, ROW);
    assert row[..16] == g && row[16..24] == f && row[24..28] == l && row[28..32] == r;
  }

  lemma RowRoundTrip(buf: Buffer, i: nat, e: RegionEntry)
    requires HEADER + ROW * i + ROW <= |buf|
    requires Slice(buf, HEADER + ROW * i, ROW) == Row(e)
    ensures RowAt(buf, i) == e
  {
    hide Encode, Decode;
    var flag := if e.required then 1 else 0;
    RowParts(e.guid, Encode(e.fileOffset, 8), Encode(e.length, 4), Encode(flag, 4), buf, HEADER + ROW * i);
    DecodedField(e.fileOffset, 8);
    DecodedField(e.length, 4);
    DecodedField(flag, 4);
  }

  /** A region table reads back as it was written, with its checksum right. */
  lemma RegionsRoundTrip(es: seq<RegionEntry>)
    requires |es| <= MAX_ENTRIES
    ensures ParseRegions(EncodeRegions(es)) == RegionTable(true, es)
  {
    var body := Body(es);
    var buf := EncodeRegions(es);
    assert Slice(buf, 0, 4) == REGION_SIGNATURE;
    assert Slice(buf, 8, 4) == Encode(|es|, 4);
    DecodedField(|es|, 4);
    assert Slice(buf, 4, 4) == Encode(CRC32C(body), 4);
    DecodedField(CRC32C(body), 4);
    assert Slice(body, 4, 4) == Zeros(4);
    StampedIsZeroedBack(body, 4, Encode(CRC32C(body), 4));
    forall i | 0 <= i < |es|
      ensures RowAt(buf, i) == es[i]
    {
      RowInRows(es, i);
      assert Slice(buf, HEADER + ROW * i, ROW) == Slice(Rows(es), ROW * i, ROW);
      RowRoundTrip(buf, i, es[i]);
    }
    assert RowsAt(buf, |es|) == es;
  }

  method ParseRegionTable(buf: Buffer) returns (t: RegionTable)
    ensures t == ParseRegions(buf)
  {
    t := RegionTable(false, []);
    if |buf| < HEADER || Slice(buf, 0, 4) != REGION_SIGNATURE {
      return;
    }
    var checksum := U32At(buf, 4);
    var n := U32At(buf, 8);
    if n > MAX_ENTRIES || |buf| < HEADER + ROW * n {
      return;
    }
    var es: seq<RegionEntry> := [];
    for i := 0 to n
      invariant es == RowsAt(buf, i)
    {
      es := es + [RowAt(buf, i)];
    }
    t := RegionTable(CrcWithZeroedField(buf, 4) == checksum, es);
  }

  /** Writes a row field by field. */
  method WriteRow(before: Buffer, off: nat, e: RegionEntry) returns (buf: Buffer)
    ensures buf == Written(before, off, Row(e))
  {
    hide Encode;
    var f := Encode(e.fileOffset, 8);
    var l := Encode(e.length, 4);
    var flags := Encode(if e.required then 1 else 0, 4);
    FourWritten(before, off, e.guid, f, l, flags);
    buf := Written(before, off, e.guid);
    buf := Written(buf, off + 16, f);
    buf := Written(buf, off + 24, l);
    buf := Written(buf, off + 28, flags);
  }

  function Head(n: nat): (b: Buffer)
    ensures |b| == HEADER
  {
    REGION_SIGNATURE + Zeros(4) + Encode(n, 4) + Zeros(4)
  }

  /** The table with its first `i` rows filled in. */
  function Begun(es: seq<RegionEntry>, i: nat): Buffer
    requires i <= |es| <= MAX_ENTRIES
  {
    Head(|es|) + Rows(es[..i]) + Zeros(REGION_TABLE_SIZE - HEADER - ROW * i)
  }

  lemma HeadWritten(es: seq<RegionEntry>)
    requires |es| <= MAX_ENTRIES
    ensures Written(Written(Zeros(REGION_TABLE_SIZE), 0, REGION_SIGNATURE), 8, Encode(|es|, 4)) == Begun(es, 0)
  {
  }

  lemma RowReplacesZeros(done: Buffer, row: Buffer, left: nat)
    requires |row| <= left
    ensures Written(done + Zeros(left), |done|, row) == done + row + Zeros(left - |row|)
  {
  }

  lemma NextRow(es: seq<RegionEntry>, i: nat)
    requires i < |es| <= MAX_ENTRIES
    ensures Written(Begun(es, i), HEADER + ROW * i, Row(es[i])) == Begun(es, i + 1)
  {
    hide Head, Row;
    RowReplacesZeros(Head(|es|) + Rows(es[..i]), Row(es[i]), REGION_TABLE_SIZE - HEADER - ROW * i);
    assert es[..i + 1][..i] == es[..i];
    assert Head(|es|) + Rows(es[..i]) + Row(es[i]) == Head(|es|) + Rows(es[..i + 1]);
  }

  method EncodeRegionTable(es: seq<RegionEntry>) returns (buf: Buffer)
    requires |es| <= MAX_ENTRIES
    ensures buf == EncodeRegions(es)
  {
    hide Head, Row, Rows;
    buf := Written(Zeros(REGION_TABLE_SIZE), 0, REGION_SIGNATURE);
    buf := Written(buf, 8, Encode(|es|, 4));
    HeadWritten(es);
    for i := 0 to |es|
      invariant buf == Begun(es, i)
    {
      NextRow(es, i);
      buf := WriteRow(buf, HEADER + ROW * i, es[i]);
    }
    assert es[..|es|] == es;
    buf := Written(buf, 4, Encode(CRC32C(buf), 4));
  }

  // ---- Layout ----

  predicate Apart(a: RegionEntry, b: RegionEntry) {
    a.End() <= b.fileOffset || b.End() <= a.fileOffset
  }

  predicate PairwiseApart(es: seq<RegionEntry>) {
    forall i, j :: 0 <= i < j < |es| ==> Apart(es[i], es[j])
  }

  predicate Aligned(es: seq<RegionEntry>) {
    forall i :: 0 <= i < |es| ==> es[i].fileOffset % MIB == 0 && es[i].length % MIB == 0
  }

  /** Intervals are compared by start, then by end, both as computed. */
  predicate NotAfter(a: RegionEntry, b: RegionEntry) {
    a.fileOffset < b.fileOffset || (a.fileOffset == b.fileOffset && a.WrappedEnd() <= b.WrappedEnd())
  }

  /** The first of the two ends, as computed, no later than the second begins. */
  predicate Passes(a: RegionEntry, b: RegionEntry) {
    if NotAfter(a, b) then a.WrappedEnd() <= b.fileOffset else b.WrappedEnd() <= a.fileOffset
  }

  predicate PairwisePasses(es: seq<RegionEntry>) {
    forall i, j :: 0 <= i < j < |es| ==> Passes(es[i], es[j])
  }

  /** What an accepted table promises: every two regions pass, and all are MiB-aligned. */
  predicate LayoutValid(es: seq<RegionEntry>) {
    PairwisePasses(es) && Aligned(es)
  }

  // ---- What acceptance means ----

  /** No other region reaches past the start of one whose end reaches 2^64. */
  predicate TopAlone(es: seq<RegionEntry>) {
    forall i, j :: 0 <= i < |es| && 0 <= j < |es| && i != j && es[i].End() >= U64 ==> es[j].End() <= es[i].fileOffset
  }

  lemma WrappedIs(e: RegionEntry)
    ensures e.End() < U64 ==> e.WrappedEnd() == e.End()
    ensures e.End() >= U64 ==> e.WrappedEnd() == e.End() - U64 < e.fileOffset
  {
  }

  /** Regions that do not overlap always pass. */
  lemma ApartPasses(a: RegionEntry, b: RegionEntry)
    requires Apart(a, b)
    ensures Passes(a, b)
  {
    WrappedIs(a);
    WrappedIs(b);
    hide RegionEntry.WrappedEnd;
  }

  /** Of two regions that pass, the first to begin ends in time unless its end reaches 2^64. */
  lemma PassesApart(a: RegionEntry, b: RegionEntry)
    requires Passes(a, b)
    requires a.End() >= U64 ==> b.End() <= a.fileOffset
    requires b.End() >= U64 ==> a.End() <= b.fileOffset
    ensures Apart(a, b)
  {
    WrappedIs(a);
    WrappedIs(b);
    hide RegionEntry.WrappedEnd;
  }

  /**
   * No two regions overlap and all are aligned exactly when the table is accepted and no region reaches past the start
   * of one whose end reaches 2^64: such an end wraps to a small number, and the check then lets anything follow.
   */
  lemma DisjointIff(es: seq<RegionEntry>)
    ensures PairwiseApart(es) && Aligned(es) <==> LayoutValid(es) && TopAlone(es)
  {
    hide Passes, Aligned;
    if PairwiseApart(es) {
      forall i, j | 0 <= i < j < |es|
        ensures Passes(es[i], es[j])
      {
        ApartPasses(es[i], es[j]);
      }
      ApartTopAlone(es);
    }
    if PairwisePasses(es) && TopAlone(es) {
      forall i, j | 0 <= i < j < |es|
        ensures Apart(es[i], es[j])
      {
        PassesApart(es[i], es[j]);
      }
    }
  }

  lemma ApartTopAlone(es: seq<RegionEntry>)
    requires PairwiseApart(es)
    ensures TopAlone(es)
  {
    forall i, j | 0 <= i < |es| && 0 <= j < |es| && i != j && es[i].End() >= U64
      ensures es[j].End() <= es[i].fileOffset
    {
      assert Apart(es[if i < j then i else j], es[if i < j then j else i]);
    }
  }

  /** While every end is below 2^64, acceptance is disjointness and alignment. */
  lemma BoundedLayoutIff(es: seq<RegionEntry>)
    requires forall e :: e in es ==> e.End() < U64
    ensures LayoutValid(es) <==> PairwiseApart(es) && Aligned(es)
  {
    hide LayoutValid, PairwiseApart, Aligned;
    DisjointIff(es);
    assert TopAlone(es);
  }

  /** One region twice, at the end of the address space: accepted, although the two are the same bytes. */
  lemma SameRegionTwiceAccepted(guid: Guid, other: Guid)
    ensures
      var es := [ RegionEntry(guid, U64 - MIB, MIB, true), RegionEntry(other, U64 - MIB, MIB, true) ];
      LayoutValid(es) && !PairwiseApart(es) && !TopAlone(es)
  {
    var es := [ RegionEntry(guid, U64 - MIB, MIB, true), RegionEntry(other, U64 - MIB, MIB, true) ];
    assert es[0].WrappedEnd() == 0 && es[1].WrappedEnd() == 0;
    assert !Apart(es[0], es[1]);
    assert es[0].End() >= U64;
  }

  // ---- The check ----

  predicate AdjacentPasses(es: seq<RegionEntry>) {
    forall i :: 0 <= i < |es| - 1 ==> es[i].WrappedEnd() <= es[i + 1].fileOffset
  }

  /** Once sorted, a region that ends before its neighbour begins ends before all that follow begin, for any number of entries. */
  lemma {:induction false} NeighboursSuffice(es: seq<RegionEntry>, i: nat, j: nat)
    requires Ordered(es, NotAfter) && AdjacentPasses(es) && i < j < |es|
    ensures es[i].WrappedEnd() <= es[j].fileOffset
  {
    if i + 1 < j {
      NeighboursSuffice(es, i, j - 1);
      assert NotAfter(es[j - 1], es[j]);
    }
  }

  /** The check on neighbours accepts a sorted list exactly when every two of its regions pass. */
  lemma AdjacentIffPasses(es: seq<RegionEntry>)
    requires Ordered(es, NotAfter)
    ensures AdjacentPasses(es) <==> PairwisePasses(es)
  {
    if AdjacentPasses(es) {
      forall i, j | 0 <= i < j < |es|
        ensures Passes(es[i], es[j])
      {
        NeighboursSuffice(es, i, j);
      }
    }
    if PairwisePasses(es) {
      forall i | 0 <= i < |es| - 1
        ensures es[i].WrappedEnd() <= es[i + 1].fileOffset
      {
        assert Passes(es[i], es[i + 1]);
        assert NotAfter(es[i], es[i + 1]);
      }
    }
  }

  lemma PassesBothWays(a: RegionEntry, b: RegionEntry)
    ensures Passes(a, b) <==> Passes(b, a)
  {
  }

  /** Whether every two pass does not depend on the order of the entries. */
  lemma PassesUnderPermutation(es: seq<RegionEntry>, sorted: seq<RegionEntry>, from: seq<nat>)
    requires |sorted| == |es| && Permutes(from, |es|)
    requires forall i :: 0 <= i < |es| ==> sorted[i] == es[from[i]]
    ensures PairwisePasses(es) <==> PairwisePasses(sorted)
  {
    hide Passes;
    if PairwisePasses(sorted) {
      forall i, j | 0 <= i < j < |es|
        ensures Passes(es[i], es[j])
      {
        assert i in from && j in from;
        var a :| 0 <= a < |es| && from[a] == i;
        var b :| 0 <= b < |es| && from[b] == j;
        PassesBothWays(es[i], es[j]);
        assert Passes(sorted[if a < b then a else b], sorted[if a < b then b else a]);
      }
    }
    if PairwisePasses(es) {
      forall i, j | 0 <= i < j < |es|
        ensures Passes(sorted[i], sorted[j])
      {
        PassesBothWays(sorted[i], sorted[j]);
        assert Passes(es[if from[i] < from[j] then from[i] else from[j]], es[if from[i] < from[j] then from[j] else from[i]]);
      }
    }
  }

  method SortIntervals(es: seq<RegionEntry>) returns (sorted: seq<RegionEntry>)
    ensures Ordered(sorted, NotAfter)
    ensures PairwisePasses(es) <==> PairwisePasses(sorted)
  {
    hide Passes;
    sorted := StableSort(es, NotAfter);
    ghost var from := SortIsStable(es, NotAfter);
    PassesUnderPermutation(es, sorted, from);
  }

  /** Accepts a table exactly when every two of its regions pass and all are aligned. */
  method ValidateLayout(t: RegionTable) returns (r: Result<()>)
    ensures r == if LayoutValid(t.entries) then Ok(()) else Err(InvalidStructure)
  {
    hide PairwisePasses, Aligned, AdjacentPasses;
    var sorted := SortIntervals(t.entries);
    AdjacentIffPasses(sorted);
    var apart := NeighboursPass(sorted);
    if !apart {
      return Err(InvalidStructure);
    }
    var aligned := AllAligned(t.entries);
    return if aligned then Ok(()) else Err(InvalidStructure);
  }

  method NeighboursPass(sorted: seq<RegionEntry>) returns (pass: bool)
    ensures pass <==> AdjacentPasses(sorted)
  {
    var i := 0;
    while i + 1 < |sorted|
      invariant 0 <= i
      invariant forall k :: 0 <= k < i && k + 1 < |sorted| ==> sorted[k].WrappedEnd() <= sorted[k + 1].fileOffset
    {
      if sorted[i].WrappedEnd() > sorted[i + 1].fileOffset {
        return false;
      }
      i := i + 1;
    }
    return true;
  }

  method AllAligned(es: seq<RegionEntry>) returns (aligned: bool)
    ensures aligned <==> Aligned(es)
  {
    for k := 0 to |es|
      invariant forall j :: 0 <= j < k ==> es[j].fileOffset % MIB == 0 && es[j].length % MIB == 0
    {
      if es[k].fileOffset % MIB != 0 || es[k].length % MIB != 0 {
        return false;
      }
    }
    return true;
  }

  function Find(es: seq<RegionEntry>, guid: Guid): Option<RegionEntry> {
    if es == [] then None
    else if es[0].guid == guid then Some(es[0])
    else Find(es[1..], guid)
  }

  // ---- The pair ----

  /** Which copies are intact, and the table in use: the first intact one. */
  datatype RegionPair = RegionPair(intact0: bool, intact1: bool, active: RegionTable)

  function ReadRegions(data: Buffer): Result<RegionPair> {
    var raw0 :- ReadExact(data, RegionTableOffset(0), REGION_TABLE_SIZE);
    var raw1 :- ReadExact(data, RegionTableOffset(1), REGION_TABLE_SIZE);
    var t0 := ParseRegions(raw0);
    var t1 := ParseRegions(raw1);
    if t0.checksumOk then Ok(RegionPair(true, t1.checksumOk, t0))
    else if t1.checksumOk then Ok(RegionPair(false, true, t1))
    else Err(NoValidRegionTable)
  }

  method WriteBoth(file: File, t: RegionTable)
    requires |t.entries| <= MAX_ENTRIES
    modifies file
    ensures file.data == Apply(old(file.data), BothTables(t.entries))
  {
    var raw := EncodeRegionTable(t.entries);
    file.WriteAllAt(RegionTableOffset(0), raw);
    file.WriteAllAt(RegionTableOffset(1), raw);
    var ws := BothTables(t.entries);
    ApplyOne(old(file.data), ws[0]);
    assert ws[..1] == [ws[0]];
  }

  function BothTables(es: seq<RegionEntry>): seq<Write>
    requires |es| <= MAX_ENTRIES
  {
    [Write(RegionTableOffset(0), EncodeRegions(es)), Write(RegionTableOffset(1), EncodeRegions(es))]
  }

  /** After both copies are rewritten both are intact and say the same. */
  lemma BothTablesRead(data: Buffer, es: seq<RegionEntry>)
    requires |es| <= MAX_ENTRIES
    ensures ReadRegions(Apply(data, BothTables(es))) == Ok(RegionPair(true, true, RegionTable(true, es)))
  {
    var ws := BothTables(es);
    ApplyReads(data, ws, 0);
    ApplyReads(data, ws, 1);
    RegionsRoundTrip(es);
  }

  /** An accepted table has at most the number of entries an encoded one may have. */
  lemma ActiveTableFits(data: Buffer)
    requires ReadRegions(data).Ok?
    ensures |ReadRegions(data).value.active.entries| <= MAX_ENTRIES
  {
  }
}
