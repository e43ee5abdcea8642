/** Which bytes of the metadata region the known items and the parent locator are read from (metadata.rs, parent_locator.rs). */
module MetadataBytes {
  import opened Wrappers
  import opened Bytes
  import opened Format
  import Packing
  import opened ParentLocators
  import opened MetadataRegion

  // ---- Rows ----

  function DataAt(buf: Buffer, i: nat): nat
    requires 64 + 32 * i <= |buf|
  {
    U32At(buf, 32 + 32 * i + 16)
  }

  function DataLength(buf: Buffer, i: nat): nat
    requires 64 + 32 * i <= |buf|
  {
    U32At(buf, 32 + 32 * i + 20)
  }

  /** Row `i` names an item of this kind with at least `least` bytes of data, inside the region. */
  predicate Names(buf: Buffer, i: nat, guid: Guid, least: nat) {
    && 64 + 32 * i <= |buf|
    && buf[32 + 32 * i..32 + 32 * i + 16] == guid
    && DataLength(buf, i) >= least && DataAt(buf, i) + DataLength(buf, i) <= |buf|
  }

  /** The last of the first `n` rows that does. */
  function LastRow(buf: Buffer, n: nat, guid: Guid, least: nat): (r: Option<nat>)
    ensures r.Some? ==> r.value < n && Names(buf, r.value, guid, least)
    ensures r.Some? ==> forall j :: r.value < j < n ==> !Names(buf, j, guid, least)
    ensures r.None? ==> forall j :: 0 <= j < n ==> !Names(buf, j, guid, least)
  {
    if n == 0 then None
    else if Names(buf, n - 1, guid, least) then Some(n - 1)
    else LastRow(buf, n - 1, guid, least)
  }

  function RowData(buf: Buffer, i: nat): Buffer
    requires 64 + 32 * i <= |buf| && DataAt(buf, i) + DataLength(buf, i) <= |buf|
  {
    buf[DataAt(buf, i)..DataAt(buf, i) + DataLength(buf, i)]
  }

  // ---- What the rows say ----

  predicate ParametersAre(v: Option<FileParameters>, buf: Buffer, row: Option<nat>)
    requires row.Some? ==> Names(buf, row.value, METADATA_GUID_FILE_PARAMETERS, 8)
  {
    match row
    case None => v.None?
    case Some(i) =>
      && v.Some? && v.value.blockSize == U32At(buf, DataAt(buf, i))
      && (v.value.leaveBlocksAllocated <==> buf[DataAt(buf, i) + 4] % 2 == 1)
      && (v.value.hasParent <==> buf[DataAt(buf, i) + 4] / 2 % 2 == 1)
  }

  predicate LongIs(v: Option<Word64>, buf: Buffer, row: Option<nat>, guid: Guid)
    requires row.Some? ==> Names(buf, row.value, guid, 8)
  {
    match row
    case None => v.None?
    case Some(i) => v == Some(U64At(buf, DataAt(buf, i)))
  }

  predicate IntIs(v: Option<Word32>, buf: Buffer, row: Option<nat>, guid: Guid)
    requires row.Some? ==> Names(buf, row.value, guid, 4)
  {
    match row
    case None => v.None?
    case Some(i) => v == Some(U32At(buf, DataAt(buf, i)))
  }

  predicate GuidIs(v: Option<Guid>, buf: Buffer, row: Option<nat>, guid: Guid)
    requires row.Some? ==> Names(buf, row.value, guid, 16)
  {
    match row
    case None => v.None?
    case Some(i) => v == Some(buf[DataAt(buf, i)..DataAt(buf, i) + 16])
  }

  predicate LocatorIs(v: Option<ParentLocator>, buf: Buffer, row: Option<nat>, guid: Guid)
    requires row.Some? ==> Names(buf, row.value, guid, 0)
  {
    match row
    case None => v.None?
    case Some(i) => v.Some? && ParseLocator(RowData(buf, i)) == Ok(v.value)
  }

  /** Each known item is read from its last row, field by field. */
  predicate FoundAre(f: Found, buf: Buffer, n: nat) {
    && ParametersAre(f.fileParameters, buf, LastRow(buf, n, METADATA_GUID_FILE_PARAMETERS, 8))
    && LongIs(f.virtualDiskSize, buf, LastRow(buf, n, METADATA_GUID_VIRTUAL_DISK_SIZE, 8), METADATA_GUID_VIRTUAL_DISK_SIZE)
    && IntIs(f.logicalSectorSize, buf, LastRow(buf, n, METADATA_GUID_LOGICAL_SECTOR_SIZE, 4), METADATA_GUID_LOGICAL_SECTOR_SIZE)
    && IntIs(f.physicalSectorSize, buf, LastRow(buf, n, METADATA_GUID_PHYSICAL_SECTOR_SIZE, 4), METADATA_GUID_PHYSICAL_SECTOR_SIZE)
    && GuidIs(f.page83Data, buf, LastRow(buf, n, METADATA_GUID_PAGE_83_DATA, 16), METADATA_GUID_PAGE_83_DATA)
    && LocatorIs(f.parentLocator, buf, LastRow(buf, n, METADATA_GUID_PARENT_LOCATOR, 0), METADATA_GUID_PARENT_LOCATOR)
  }

  /** Every locator among the rows can be read. */
  predicate LocatorsRead(buf: Buffer, n: nat) {
    forall i :: 0 <= i < n && Names(buf, i, METADATA_GUID_PARENT_LOCATOR, 0) ==> ParseLocator(RowData(buf, i)).Ok?
  }

  lemma KindsDiffer()
    ensures METADATA_GUID_FILE_PARAMETERS[0] == 0x37 && METADATA_GUID_VIRTUAL_DISK_SIZE[0] == 0x24
    ensures METADATA_GUID_LOGICAL_SECTOR_SIZE[0] == 0x1D && METADATA_GUID_PHYSICAL_SECTOR_SIZE[0] == 0xC7
    ensures METADATA_GUID_PAGE_83_DATA[0] == 0xAB && METADATA_GUID_PARENT_LOCATOR[0] == 0x2D
  {
  }

  /** The item of a row, if the row and its data lie inside the region. */
  predicate IsRow(buf: Buffer, i: nat) {
    64 + 32 * i <= |buf| && DataAt(buf, i) + DataLength(buf, i) <= |buf|
  }

  lemma ItemIs(buf: Buffer, i: nat)
    ensures ItemAt(buf, i).Some? <==> IsRow(buf, i)
    ensures IsRow(buf, i) ==>
              && ItemAt(buf, i).value.data == RowData(buf, i)
              && ItemAt(buf, i).value.guid == buf[32 + 32 * i..32 + 32 * i + 16]
    ensures forall guid: Guid, least: nat ::
              Names(buf, i, guid, least) <==>
              ItemAt(buf, i).Some? && ItemAt(buf, i).value.guid == guid && |ItemAt(buf, i).value.data| >= least
  {
    hide U32At;
  }

  lemma FieldsInside(buf: Buffer, at: nat, len: nat)
    requires at + len <= |buf|
    ensures
      var d := buf[at..at + len];
      && (len >= 4 ==> U32At(d, 0) == U32At(buf, at))
      && (len >= 8 ==> U64At(d, 0) == U64At(buf, at) && U32At(d, 4) % 2 == buf[at + 4] % 2 && U32At(d, 4) / 2 % 2 == buf[at + 4] / 2 % 2)
      && (len >= 16 ==> GuidAt(d, 0) == buf[at..at + 16])
  {
    var d := buf[at..at + len];
    if len >= 4 {
      assert Slice(d, 0, 4) == Slice(buf, at, 4);
    }
    if len >= 8 {
      assert Slice(d, 0, 8) == Slice(buf, at, 8);
      LowBits(d, 4);
    }
    hide Decode;
  }

  lemma LowBits(d: Buffer, off: nat)
    requires off + 4 <= |d|
    ensures U32At(d, off) % 2 == d[off] % 2 && U32At(d, off) / 2 % 2 == d[off] / 2 % 2
  {
    TwoBytes(d, off);
    TwoHalves(d, off, 2);
    Pow256Values();
    BitsOfSum(d[off], d[off + 1] as nat + 0x100 * U16At(d, off + 2));
    hide Decode;
  }

  lemma BitsOfSum(low: Byte, rest: nat)
    ensures (low as nat + 0x100 * rest) % 2 == low % 2 && (low as nat + 0x100 * rest) / 2 % 2 == low / 2 % 2
  {
    var n, a, b := low as nat + 0x100 * rest, low % 2, low / 2 % 2;
    assert low == 2 * (low / 2) + a && low / 2 == 2 * (low / 2 / 2) + b;
    DivModUnique(n, 2, low / 2 + 0x80 * rest, a);
    DivModUnique(n / 2, 2, low / 2 / 2 + 0x40 * rest, b);
  }

  /** What taking one item changes: the field of its kind, or the opaque items. */
  lemma TakeSays(f: Found, it: Item)
    ensures Take(f, it).Ok? <==> (it.guid == METADATA_GUID_PARENT_LOCATOR ==> ParseLocator(it.data).Ok?)
    ensures Take(f, it).Ok? ==>
              var g, n := Take(f, it).value, |it.data|;
              && g.fileParameters == (if it.guid == METADATA_GUID_FILE_PARAMETERS && n >= 8 then
                                        Some(FileParameters(U32At(it.data, 0), U32At(it.data, 4) % 2 == 1,
                                                            U32At(it.data, 4) / 2 % 2 == 1))
                                      else f.fileParameters)
              && g.virtualDiskSize == (if it.guid == METADATA_GUID_VIRTUAL_DISK_SIZE && n >= 8 then Some(U64At(it.data, 0))
                                       else f.virtualDiskSize)
              && g.logicalSectorSize == (if it.guid == METADATA_GUID_LOGICAL_SECTOR_SIZE && n >= 4 then Some(U32At(it.data, 0))
                                         else f.logicalSectorSize)
              && g.physicalSectorSize == (if it.guid == METADATA_GUID_PHYSICAL_SECTOR_SIZE && n >= 4 then Some(U32At(it.data, 0))
                                          else f.physicalSectorSize)
              && g.page83Data == (if it.guid == METADATA_GUID_PAGE_83_DATA && n >= 16 then Some(GuidAt(it.data, 0))
                                  else f.page83Data)
              && g.parentLocator == (if it.guid == METADATA_GUID_PARENT_LOCATOR then Some(ParseLocator(it.data).value)
                                     else f.parentLocator)
  {
    KindsDiffer();
    hide ParseLocator, U32At, U64At;
  }

  lemma {:induction false} RowsSay(buf: Buffer, n: nat)
    ensures FoundIn(buf, n).Ok? <==> LocatorsRead(buf, n)
    ensures FoundIn(buf, n).Ok? ==> FoundAre(FoundIn(buf, n).value, buf, n)
  {
    hide FoundAre, LocatorsRead, Take, ItemAt;
    if n > 0 {
      RowsSay(buf, n - 1);
      OneMoreRow(buf, n - 1);
    } else {
      NoRows(buf);
    }
  }

  lemma NoRows(buf: Buffer)
    ensures LocatorsRead(buf, 0) && FoundAre(NOTHING, buf, 0)
  {
  }

  lemma OneMoreRow(buf: Buffer, i: nat)
    requires FoundIn(buf, i).Ok? <==> LocatorsRead(buf, i)
    requires FoundIn(buf, i).Ok? ==> FoundAre(FoundIn(buf, i).value, buf, i)
    ensures FoundIn(buf, i + 1).Ok? <==> LocatorsRead(buf, i + 1)
    ensures FoundIn(buf, i + 1).Ok? ==> FoundAre(FoundIn(buf, i + 1).value, buf, i + 1)
  {
    hide ParseLocator, U32At, U64At, Take, ItemAt, Names, ParametersAre, LongIs, IntIs, GuidIs, LocatorIs, DataAt, DataLength,
      IsRow, LocatorsRead;
    ItemIs(buf, i);
    LocatorsNext(buf, i);
    if FoundIn(buf, i).Ok? && ItemAt(buf, i).Some? {
      TakeSays(FoundIn(buf, i).value, ItemAt(buf, i).value);
      if FoundIn(buf, i + 1).Ok? {
        RowIs(buf, i, FoundIn(buf, i).value, FoundIn(buf, i + 1).value);
      }
    }
  }

  lemma LocatorsNext(buf: Buffer, i: nat)
    ensures LocatorsRead(buf, i + 1) <==>
            LocatorsRead(buf, i) &&
            (Names(buf, i, METADATA_GUID_PARENT_LOCATOR, 0) ==> ParseLocator(RowData(buf, i)).Ok?)
  {
    hide ParseLocator, U32At;
  }

  /** The field an item is taken into holds what its row says, and the other fields are as they were. */
  lemma RowIs(buf: Buffer, i: nat, f: Found, g: Found)
    requires ItemAt(buf, i).Some? && Take(f, ItemAt(buf, i).value) == Ok(g)
    ensures if Names(buf, i, METADATA_GUID_FILE_PARAMETERS, 8) then ParametersAre(g.fileParameters, buf, Some(i))
            else g.fileParameters == f.fileParameters
    ensures if Names(buf, i, METADATA_GUID_VIRTUAL_DISK_SIZE, 8) then
              LongIs(g.virtualDiskSize, buf, Some(i), METADATA_GUID_VIRTUAL_DISK_SIZE)
            else g.virtualDiskSize == f.virtualDiskSize
    ensures if Names(buf, i, METADATA_GUID_LOGICAL_SECTOR_SIZE, 4) then
              IntIs(g.logicalSectorSize, buf, Some(i), METADATA_GUID_LOGICAL_SECTOR_SIZE)
            else g.logicalSectorSize == f.logicalSectorSize
    ensures if Names(buf, i, METADATA_GUID_PHYSICAL_SECTOR_SIZE, 4) then
              IntIs(g.physicalSectorSize, buf, Some(i), METADATA_GUID_PHYSICAL_SECTOR_SIZE)
            else g.physicalSectorSize == f.physicalSectorSize
    ensures if Names(buf, i, METADATA_GUID_PAGE_83_DATA, 16) then
              GuidIs(g.page83Data, buf, Some(i), METADATA_GUID_PAGE_83_DATA)
            else g.page83Data == f.page83Data
    ensures if Names(buf, i, METADATA_GUID_PARENT_LOCATOR, 0) then
              LocatorIs(g.parentLocator, buf, Some(i), METADATA_GUID_PARENT_LOCATOR)
            else g.parentLocator == f.parentLocator
  {
    hide ParseLocator, U32At, U64At, Take, ItemAt, GuidAt;
    ItemIs(buf, i);
    TakeSays(f, ItemAt(buf, i).value);
    FieldsInside(buf, DataAt(buf, i), DataLength(buf, i));
    hide DataAt, DataLength;
  }

  /** Any other row inside the region is kept as an opaque item, with the three lowest bits of its flags. */
  lemma OpaqueRow(buf: Buffer, i: nat, f: Found, g: Found)
    requires ItemAt(buf, i).Some? && Take(f, ItemAt(buf, i).value) == Ok(g)
    ensures IsRow(buf, i)
    ensures
      var guid := buf[32 + 32 * i..32 + 32 * i + 16];
      var flags := U32At(buf, 32 + 32 * i + 24);
      g.extras == f.extras +
      if IsOpaque(guid, DataLength(buf, i)) then
        [MetadataItem(guid, RowData(buf, i), flags % 2 == 1, flags / 2 % 2 == 1, flags / 4 % 2 == 1)]
      else []
  {
    KindsDiffer();
    ItemIs(buf, i);
    hide ParseLocator, U32At, U64At;
  }

  // ---- The region ----

  /** The known items that a region must have, in the order in which they are missed. */
  predicate HasItems(buf: Buffer, n: nat) {
    && LastRow(buf, n, METADATA_GUID_FILE_PARAMETERS, 8).Some? && LastRow(buf, n, METADATA_GUID_VIRTUAL_DISK_SIZE, 8).Some?
    && LastRow(buf, n, METADATA_GUID_LOGICAL_SECTOR_SIZE, 4).Some? && LastRow(buf, n, METADATA_GUID_PHYSICAL_SECTOR_SIZE, 4).Some?
    && LastRow(buf, n, METADATA_GUID_PAGE_83_DATA, 16).Some?
  }

  function FoundOf(m: Metadata): Found {
    Found(Some(m.fileParameters), Some(m.virtualDiskSize), Some(m.logicalSectorSize), Some(m.physicalSectorSize),
          Some(m.page83Data), m.parentLocator, m.extras)
  }

  /** The region is read exactly when it has its signature, every locator in it can be read and no known item is missing. */
  lemma RegionIff(buf: Buffer)
    ensures ParseMetadata(buf).Ok? <==>
            |buf| >= 32 && buf[..8] == [0x6D, 0x65, 0x74, 0x61, 0x64, 0x61, 0x74, 0x61] &&
            LocatorsRead(buf, U16At(buf, 10)) && HasItems(buf, U16At(buf, 10))
    ensures ParseMetadata(buf).Ok? ==> FoundAre(FoundOf(ParseMetadata(buf).value), buf, U16At(buf, 10))
  {
    hide LastRow, LocatorsRead, FoundIn, U16At;
    if |buf| >= 32 {
      assert Slice(buf, 0, 8) == buf[..8];
      RowsSay(buf, U16At(buf, 10));
    }
  }

  // ---- What the encoder writes into the table ----

  /** The known items in their order with their flags (1 user, 2 virtual disk, 4 required), the locator behind them. */
  predicate RowWritten(buf: Buffer, i: nat, hasLocator: bool)
    requires 64 + 32 * i <= |buf|
  {
    var guid, flags := GuidAt(buf, 32 + 32 * i), U32At(buf, 32 + 32 * i + 24);
    && (i == 0 ==> guid == METADATA_GUID_FILE_PARAMETERS && flags == 4)
    && (i == 1 ==> guid == METADATA_GUID_VIRTUAL_DISK_SIZE && flags == 6)
    && (i == 2 ==> guid == METADATA_GUID_PAGE_83_DATA && flags == 6)
    && (i == 3 ==> guid == METADATA_GUID_LOGICAL_SECTOR_SIZE && flags == 6)
    && (i == 4 ==> guid == METADATA_GUID_PHYSICAL_SECTOR_SIZE && flags == 6)
    && (i == 5 && hasLocator ==> guid == METADATA_GUID_PARENT_LOCATOR && flags == 4)
    && 65536 <= DataAt(buf, i) && DataAt(buf, i) % 8 == 0
  }

  lemma EncodedRows(m: Metadata, size: nat, i: nat)
    requires MetadataRegion.Encodable(m, size) && i < 5 + (if m.parentLocator.Some? then 1 else 0) + |m.extras|
    ensures 64 + 32 * i <= size && RowWritten(EncodeMetadata(m, size), i, m.parentLocator.Some?)
  {
    hide EncodeLocator, ParentLocators.Encodable, Datas, Packing.Start, Packing.Joined, Laid, U32At;
    var items := Items(m);
    assert Datas(items)[..|items|] == Datas(items);
    StartIs(Datas(items), |items|);
    StartIs(Datas(items), i);
    RowSays(items, size, i);
    Packing.JoinedIsAligned(Datas(items)[..i]);
    RowsFit(items, size);
  }

  lemma StartIs(ds: seq<Buffer>, i: nat)
    requires i <= |ds|
    ensures Packing.Start(ds, i) == |Packing.Joined(ds[..i])|
  {
  }

  lemma RowsFit(items: seq<Item>, size: nat)
    requires |items| <= MAX_ITEMS && DATA_START <= size
    ensures 32 + 32 * |items| <= size
  {
  }

  // ---- The locator ----

  /** Row `i` of the locator: where its key and its value stand. */
  predicate EntryStands(buf: Buffer, i: nat, e: Entry)
    requires 32 + 12 * i <= |buf|
  {
    var off := 20 + 12 * i;
    && StringAt(buf, U32At(buf, off), U16At(buf, off + 8)) == Ok(e.0)
    && StringAt(buf, U32At(buf, off + 4), U16At(buf, off + 10)) == Ok(e.1)
  }

  lemma {:induction false} EntriesStand(buf: Buffer, n: nat)
    requires EntriesAt(buf, n).Ok?
    ensures
      var es := EntriesAt(buf, n).value;
      && |es| <= n && (20 + 12 * n <= |buf| ==> |es| == n) && (20 + 12 * n > |buf| ==> 32 + 12 * |es| > |buf|)
      && forall i :: 0 <= i < |es| ==> 32 + 12 * i <= |buf| && EntryStands(buf, i, es[i])
  {
    hide StringAt, U32At, U16At;
    if n > 0 {
      EntriesStand(buf, n - 1);
    }
  }

  /** A locator's type, and its entries: as many as it states, or as fit. */
  lemma LocatorStands(buf: Buffer)
    requires ParseLocator(buf).Ok?
    ensures |buf| >= 20 && ParseLocator(buf).value.locatorType == buf[..16]
    ensures
      var n, es := U16At(buf, 18), ParseLocator(buf).value.entries;
      && |es| <= n && (20 + 12 * n <= |buf| ==> |es| == n) && (20 + 12 * n > |buf| ==> 32 + 12 * |es| > |buf|)
      && forall i :: 0 <= i < |es| ==> 32 + 12 * i <= |buf| && EntryStands(buf, i, es[i])
  {
    EntriesStand(buf, U16At(buf, 18));
    hide EntriesAt, U16At, EntryStands;
  }

  /** Surrogate pairs: the first character beyond 16 bits, one with bits in both halves, and the last. */
  lemma SurrogatePairs()
    ensures Units(0x1_0000 as char) == [0xD800, 0xDC00]
    ensures Units(0x1_F600 as char) == [0xD83D, 0xDE00]
    ensures Units(0x10_FFFF as char) == [0xDBFF, 0xDFFF]
  {
  }
}
