/** The metadata region: known items, opaque extras, and the geometry they give (metadata.rs). */
module MetadataRegion {
  import opened Wrappers
  import opened Bytes
  import opened Format
  import opened Packing
  import opened ParentLocators

  datatype FileParameters = FileParameters(blockSize: Word32, leaveBlocksAllocated: bool, hasParent: bool)

  datatype MetadataItem = MetadataItem(guid: Guid, data: Buffer, isUser: bool, isVirtualDisk: bool, isRequired: bool)

  datatype Metadata = Metadata(
    fileParameters: FileParameters,
    virtualDiskSize: Word64,
    logicalSectorSize: Word32,
    physicalSectorSize: Word32,
    page83Data: Guid,
    parentLocator: Option<ParentLocator>,
    extras: seq<MetadataItem>)
  {
    function BlockSize(): nat {
      fileParameters.blockSize
    }

    /** The sizes the geometry divides by are positive. */
    predicate HasGeometry() {
      0 < BlockSize() <= 0x80_0000 * logicalSectorSize
    }

    function BlockCount(): nat
      requires BlockSize() > 0
    {
      (virtualDiskSize + BlockSize() - 1) / BlockSize()
    }

    /** Blocks covered by one sector bitmap of 2^23 bits. */
    function ChunkRatio(): nat
      requires BlockSize() > 0
    {
      0x80_0000 * logicalSectorSize / BlockSize()
    }
  }

  lemma GeometryHasRatio(m: Metadata)
    requires m.HasGeometry()
    ensures m.ChunkRatio() > 0
  {
    MulMonotone(m.BlockSize(), m.ChunkRatio() + 1, 1);
  }

  const HEADER: nat := 32
  const ROW: nat := 32
  const DATA_START: nat := 65536
  const MAX_ITEMS: nat := 2047

  const IS_USER: nat := 1
  const IS_VIRTUAL_DISK: nat := 2
  const IS_REQUIRED: nat := 4

  // ---- Items ----

  datatype Item = Item(guid: Guid, data: Buffer, flags: Word32)

  /** What has been found while reading the items. */
  datatype Found = Found(
    fileParameters: Option<FileParameters>,
    virtualDiskSize: Option<Word64>,
    logicalSectorSize: Option<Word32>,
    physicalSectorSize: Option<Word32>,
    page83Data: Option<Guid>,
    parentLocator: Option<ParentLocator>,
    extras: seq<MetadataItem>)

  const NOTHING := Found(None, None, None, None, None, None, [])

  /** An item that is kept as an opaque blob: an unknown GUID, or a known one with too little data. */
  predicate IsOpaque(guid: Guid, size: nat) {
    && !(guid == METADATA_GUID_FILE_PARAMETERS && size >= 8)
    && !(guid == METADATA_GUID_VIRTUAL_DISK_SIZE && size >= 8)
    && !(guid == METADATA_GUID_LOGICAL_SECTOR_SIZE && size >= 4)
    && !(guid == METADATA_GUID_PHYSICAL_SECTOR_SIZE && size >= 4)
    && !(guid == METADATA_GUID_PAGE_83_DATA && size >= 16)
    && guid != METADATA_GUID_PARENT_LOCATOR
  }

  function Extra(it: Item): MetadataItem {
    MetadataItem(it.guid, it.data, it.flags % 2 == 1, it.flags / 2 % 2 == 1, it.flags / 4 % 2 == 1)
  }

  function Take(f: Found, it: Item): Result<Found> {
    var d := it.data;
    if it.guid == METADATA_GUID_FILE_PARAMETERS && |d| >= 8 then
      var bits := U32At(d, 4);
      Ok(f.(fileParameters := Some(FileParameters(U32At(d, 0), bits % 2 == 1, bits / 2 % 2 == 1))))
    else if it.guid == METADATA_GUID_VIRTUAL_DISK_SIZE && |d| >= 8 then
      Ok(f.(virtualDiskSize := Some(U64At(d, 0))))
    else if it.guid == METADATA_GUID_LOGICAL_SECTOR_SIZE && |d| >= 4 then
      Ok(f.(logicalSectorSize := Some(U32At(d, 0))))
    else if it.guid == METADATA_GUID_PHYSICAL_SECTOR_SIZE && |d| >= 4 then
      Ok(f.(physicalSectorSize := Some(U32At(d, 0))))
    else if it.guid == METADATA_GUID_PAGE_83_DATA && |d| >= 16 then
      Ok(f.(page83Data := Some(GuidAt(d, 0))))
    else if it.guid == METADATA_GUID_PARENT_LOCATOR then
      var pl :- ParseLocator(d);
      Ok(f.(parentLocator := Some(pl)))
    else
      Ok(f.(extras := f.extras + [Extra(it)]))
  }

  function TakeAll(items: seq<Item>): Result<Found> {
    if items == [] then Ok(NOTHING)
    else
      var f :- TakeAll(items[..|items| - 1]);
      Take(f, items[|items| - 1])
  }

  // ---- Parsing ----

  /** Row `i` of the table with its data; none when the row or the data lies outside the region. */
  function ItemAt(buf: Buffer, i: nat): Option<Item> {
    var off := HEADER + ROW * i;
    if off + ROW > |buf| then None
    else
      var at := U32At(buf, off + 16);
      var len := U32At(buf, off + 20);
      if at + len > |buf| then None
      else Some(Item(GuidAt(buf, off), Slice(buf, at, len), U32At(buf, off + 24)))
  }

  function FoundIn(buf: Buffer, n: nat): Result<Found> {
    if n == 0 then Ok(NOTHING)
    else
      var f :- FoundIn(buf, n - 1);
      match ItemAt(buf, n - 1)
      case None => Ok(f)
      case Some(it) => Take(f, it)
  }

  function Complete(f: Found): Result<Metadata> {
    if f.fileParameters.None? then Err(MissingMetadata("file_parameters"))
    else if f.virtualDiskSize.None? then Err(MissingMetadata("virtual_disk_size"))
    else if f.logicalSectorSize.None? then Err(MissingMetadata("logical_sector_size"))
    else if f.physicalSectorSize.None? then Err(MissingMetadata("physical_sector_size"))
    else if f.page83Data.None? then Err(MissingMetadata("page_83_data"))
    else
      Ok(Metadata(f.fileParameters.value, f.virtualDiskSize.value, f.logicalSectorSize.value,
                  f.physicalSectorSize.value, f.page83Data.value, f.parentLocator, f.extras))
  }

  function ParseMetadata(buf: Buffer): Result<Metadata> {
    if |buf| < HEADER || Slice(buf, 0, 8) != METADATA_SIGNATURE then Err(InvalidStructure)
    else
      var f :- FoundIn(buf, U16At(buf, 10));
      Complete(f)
  }

  // ---- Encoding ----

  function Bit(b: bool, value: nat): nat {
    if b then value else 0
  }

  function ExtraItem(e: MetadataItem): Item {
    Item(e.guid, e.data, Bit(e.isUser, IS_USER) + Bit(e.isVirtualDisk, IS_VIRTUAL_DISK) + Bit(e.isRequired, IS_REQUIRED))
  }

  function KnownItems(m: Metadata): (items: seq<Item>)
    ensures |items| == 5
  {
    var fp := m.fileParameters;
    var bits := Bit(fp.leaveBlocksAllocated, 1) + Bit(fp.hasParent, 2);
    [ Item(METADATA_GUID_FILE_PARAMETERS, Encode(fp.blockSize, 4) + Encode(bits, 4), IS_REQUIRED),
      Item(METADATA_GUID_VIRTUAL_DISK_SIZE, Encode(m.virtualDiskSize, 8), IS_VIRTUAL_DISK + IS_REQUIRED),
      Item(METADATA_GUID_PAGE_83_DATA, m.page83Data, IS_VIRTUAL_DISK + IS_REQUIRED),
      Item(METADATA_GUID_LOGICAL_SECTOR_SIZE, Encode(m.logicalSectorSize, 4), IS_VIRTUAL_DISK + IS_REQUIRED),
      Item(METADATA_GUID_PHYSICAL_SECTOR_SIZE, Encode(m.physicalSectorSize, 4), IS_VIRTUAL_DISK + IS_REQUIRED) ]
  }

  function LocatorItems(m: Metadata): seq<Item> {
    match m.parentLocator
    case None => []
    case Some(pl) => [Item(METADATA_GUID_PARENT_LOCATOR, EncodeLocator(pl), IS_REQUIRED)]
  }

  function ExtraItems(es: seq<MetadataItem>): (items: seq<Item>)
    ensures |items| == |es|
  {
    if es == [] then [] else ExtraItems(es[..|es| - 1]) + [ExtraItem(es[|es| - 1])]
  }

  function Items(m: Metadata): seq<Item> {
    KnownItems(m) + LocatorItems(m) + ExtraItems(m.extras)
  }

  function Datas(items: seq<Item>): (ds: seq<Buffer>)
    ensures |ds| == |items|
    ensures forall i :: 0 <= i < |items| ==> ds[i] == items[i].data
  {
    if items == [] then [] else Datas(items[..|items| - 1]) + [items[|items| - 1].data]
  }

  /** The item count fits the table, the data fits the region, and every part can be told apart when read. */
  predicate Encodable(m: Metadata, size: nat) {
    && |Items(m)| <= MAX_ITEMS
    && DATA_START + |Joined(Datas(Items(m)))| <= size < U32
    && (m.parentLocator.Some? ==> ParentLocators.Encodable(m.parentLocator.value))
    && forall i :: 0 <= i < |m.extras| ==> IsOpaque(m.extras[i].guid, |m.extras[i].data|)
  }

  function Row(items: seq<Item>, i: nat): (b: Buffer)
    requires i < |items|
    ensures |b| == ROW
  {
    items[i].guid + Encode(DATA_START + Start(Datas(items), i), 4) + Encode(|items[i].data|, 4)
    + Encode(items[i].flags, 4) + Zeros(4)
  }

  function Rows(items: seq<Item>, n: nat): (b: Buffer)
    requires n <= |items|
    ensures |b| == ROW * n
  {
    if n == 0 then [] else Rows(items, n - 1) + Row(items, n - 1)
  }

  function Head(n: nat): (b: Buffer)
    ensures |b| == HEADER
  {
    METADATA_SIGNATURE + Zeros(2) + Encode(n, 2) + Zeros(20)
  }

  /** The region with its first `n` items laid out. */
  function Laid(items: seq<Item>, n: nat, size: nat): (b: Buffer)
    requires n <= |items| <= MAX_ITEMS && DATA_START + Start(Datas(items), n) <= size
    ensures |b| == size
  {
    Head(|items|) + Rows(items, n) + Below(items, n, size)
  }

  /** What follows the rows: unused rows, the data of the first `n` items, and zeros. */
  function Below(items: seq<Item>, n: nat, size: nat): (b: Buffer)
    requires n <= |items| <= MAX_ITEMS && DATA_START + Start(Datas(items), n) <= size
    ensures |b| == size - HEADER - ROW * n
  {
    Zeros(DATA_START - HEADER - ROW * n) + (Joined(Datas(items)[..n]) + Zeros(size - DATA_START - Start(Datas(items), n)))
  }

  function EncodeMetadata(m: Metadata, size: nat): (b: Buffer)
    requires Encodable(m, size)
    ensures |b| == size
  {
    assert Datas(Items(m))[..|Items(m)|] == Datas(Items(m));
    Laid(Items(m), |Items(m)|, size)
  }

  // ---- Round trip ----

  lemma {:induction false} RowInRows(items: seq<Item>, n: nat, i: nat)
    requires i < n <= |items|
    ensures Slice(Rows(items, n), ROW * i, ROW) == Row(items, i)
  {
    hide Row;
    if i < n - 1 {
      RowInRows(items, n - 1, i);
      assert Slice(Rows(items, n), ROW * i, ROW) == Slice(Rows(items, n - 1), ROW * i, ROW);
    }
  }

  lemma RowFields(buf: Buffer, off: nat, g: Guid, a: nat, b: nat, c: nat)
    requires off + ROW <= |buf| && a < U32 && b < U32 && c < U32
    requires Slice(buf, off, ROW) == g + Encode(a, 4) + Encode(b, 4) + Encode(c, 4) + Zeros(4)
    ensures GuidAt(buf, off) == g && U32At(buf, off + 16) == a && U32At(buf, off + 20) == b && U32At(buf, off + 24) == c
  {
    var row := Slice(buf, off, ROW);
    assert GuidAt(buf, off) == row[..16] == g;
    assert Slice(buf, off + 16, 4) == row[16..20] == Encode(a, 4);
    assert Slice(buf, off + 20, 4) == row[20..24] == Encode(b, 4);
    assert Slice(buf, off + 24, 4) == row[24..28] == Encode(c, 4);
    DecodedField(a, 4);
    DecodedField(b, 4);
    DecodedField(c, 4);
  }

  lemma RowReads(items: seq<Item>, size: nat, i: nat)
    requires i < |items| <= MAX_ITEMS && DATA_START + Start(Datas(items), |items|) <= size
    ensures Slice(Laid(items, |items|, size), HEADER + ROW * i, ROW) == Row(items, i)
  {
    hide Row, Datas, Rows, Start, Laid;
    RowInRows(items, |items|, i);
    RowsInside(items, size, ROW * i, ROW);
  }

  lemma RowsInside(items: seq<Item>, size: nat, off: nat, n: nat)
    requires |items| <= MAX_ITEMS && DATA_START + Start(Datas(items), |items|) <= size && off + n <= ROW * |items|
    ensures HEADER + off + n <= size
    ensures Slice(Laid(items, |items|, size), HEADER + off, n) == Slice(Rows(items, |items|), off, n)
  {
    hide Row, Datas, Head, Rows, Start, Below;
    InMiddle(Head(|items|), Rows(items, |items|), Below(items, |items|, size), off, n);
  }

  lemma FourthOfFive(a: Buffer, b: Buffer, c: Buffer, d: Buffer, e: Buffer)
    ensures a + b + (c + (d + e)) == (a + b + c) + d + e
  {
  }

  lemma DataReads(items: seq<Item>, size: nat, i: nat)
    requires i < |items| <= MAX_ITEMS && DATA_START + Start(Datas(items), |items|) <= size
    ensures DATA_START + Start(Datas(items), i) + |items[i].data| <= size
    ensures Slice(Laid(items, |items|, size), DATA_START + Start(Datas(items), i), |items[i].data|) == items[i].data
  {
    var ds := Datas(items);
    hide Row, Datas, Head, Joined, Rows;
    var n := |items|;
    var before := Head(n) + Rows(items, n) + Zeros(DATA_START - HEADER - ROW * n);
    assert ds[..n] == ds;
    ItemAtStart(ds, i);
    FourthOfFive(Head(n), Rows(items, n), Zeros(DATA_START - HEADER - ROW * n), Joined(ds), Zeros(size - DATA_START - Start(ds, n)));
    InMiddle(before, Joined(ds), Zeros(size - DATA_START - Start(ds, n)), Start(ds, i), |ds[i]|);
  }

  /** The row of an item says where its data is. */
  lemma RowSays(items: seq<Item>, size: nat, i: nat)
    requires i < |items| <= MAX_ITEMS
    requires DATA_START + Start(Datas(items), |items|) <= size < U32
    ensures
      var buf := Laid(items, |items|, size);
      var off := HEADER + ROW * i;
      && GuidAt(buf, off) == items[i].guid && U32At(buf, off + 16) == DATA_START + Start(Datas(items), i)
      && U32At(buf, off + 20) == |items[i].data| && U32At(buf, off + 24) == items[i].flags
  {
    hide Laid, Datas, Encode, Decode, Start, Joined, GuidAt, U32At, Rows, Head;
    RowReads(items, size, i);
    DataReads(items, size, i);
    RowFields(Laid(items, |items|, size), HEADER + ROW * i, items[i].guid, DATA_START + Start(Datas(items), i), |items[i].data|,
              items[i].flags);
  }

  lemma ItemReads(items: seq<Item>, size: nat, i: nat)
    requires i < |items| <= MAX_ITEMS
    requires DATA_START + Start(Datas(items), |items|) <= size < U32
    ensures ItemAt(Laid(items, |items|, size), i) == Some(items[i])
  {
    hide Laid, Datas, Start, ItemAt, GuidAt, U32At;
    RowSays(items, size, i);
    DataReads(items, size, i);
    ItemFromParts(Laid(items, |items|, size), i, DATA_START + Start(Datas(items), i), items[i]);
  }

  lemma ItemFromParts(buf: Buffer, i: nat, at: nat, it: Item)
    requires HEADER + ROW * i + ROW <= |buf| && at + |it.data| <= |buf|
    requires
      var off := HEADER + ROW * i;
      GuidAt(buf, off) == it.guid && U32At(buf, off + 16) == at && U32At(buf, off + 20) == |it.data|
      && U32At(buf, off + 24) == it.flags
    requires Slice(buf, at, |it.data|) == it.data
    ensures ItemAt(buf, i) == Some(it)
  {
    hide GuidAt, U32At;
  }

  lemma {:induction false} ItemsRead(items: seq<Item>, size: nat, n: nat)
    requires n <= |items| <= MAX_ITEMS
    requires DATA_START + Start(Datas(items), |items|) <= size < U32
    ensures FoundIn(Laid(items, |items|, size), n) == TakeAll(items[..n])
  {
    hide Laid, ItemAt, Take;
    if n > 0 {
      ItemsRead(items, size, n - 1);
      ItemReads(items, size, n - 1);
      assert items[..n][..n - 1] == items[..n - 1];
    }
  }

  lemma TakeFileParameters(m: Metadata, f: Found)
    ensures Take(f, KnownItems(m)[0]) == Ok(f.(fileParameters := Some(m.fileParameters)))
  {
    var fp := m.fileParameters;
    var bits := Bit(fp.leaveBlocksAllocated, 1) + Bit(fp.hasParent, 2);
    var d := KnownItems(m)[0].data;
    assert Slice(d, 0, 4) == Encode(fp.blockSize, 4);
    assert Slice(d, 4, 4) == Encode(bits, 4);
    DecodedField(fp.blockSize, 4);
    DecodedField(bits, 4);
  }

  lemma TakeSizes(m: Metadata, f: Found)
    ensures Take(f, KnownItems(m)[1]) == Ok(f.(virtualDiskSize := Some(m.virtualDiskSize)))
    ensures Take(f, KnownItems(m)[2]) == Ok(f.(page83Data := Some(m.page83Data)))
    ensures Take(f, KnownItems(m)[3]) == Ok(f.(logicalSectorSize := Some(m.logicalSectorSize)))
    ensures Take(f, KnownItems(m)[4]) == Ok(f.(physicalSectorSize := Some(m.physicalSectorSize)))
  {
    var items := KnownItems(m);
    assert Slice(items[1].data, 0, 8) == items[1].data;
    assert Slice(items[2].data, 0, 16) == items[2].data;
    assert Slice(items[3].data, 0, 4) == items[3].data;
    assert Slice(items[4].data, 0, 4) == items[4].data;
    DecodedField(m.virtualDiskSize, 8);
    DecodedField(m.logicalSectorSize, 4);
    DecodedField(m.physicalSectorSize, 4);
  }

  lemma TakeKnown(m: Metadata)
    ensures TakeAll(KnownItems(m)) ==
            Ok(Found(Some(m.fileParameters), Some(m.virtualDiskSize), Some(m.logicalSectorSize),
                     Some(m.physicalSectorSize), Some(m.page83Data), None, []))
  {
    hide Take, KnownItems;
    var items := KnownItems(m);
    var f := NOTHING;
    TakeFileParameters(m, f);
    f := f.(fileParameters := Some(m.fileParameters));
    TakeNext(items, 0, NOTHING, f);
    TakeSizes(m, f);
    TakeNext(items, 1, f, f.(virtualDiskSize := Some(m.virtualDiskSize)));
    f := f.(virtualDiskSize := Some(m.virtualDiskSize));
    TakeSizes(m, f);
    TakeNext(items, 2, f, f.(page83Data := Some(m.page83Data)));
    f := f.(page83Data := Some(m.page83Data));
    TakeSizes(m, f);
    TakeNext(items, 3, f, f.(logicalSectorSize := Some(m.logicalSectorSize)));
    f := f.(logicalSectorSize := Some(m.logicalSectorSize));
    TakeSizes(m, f);
    TakeNext(items, 4, f, f.(physicalSectorSize := Some(m.physicalSectorSize)));
    assert items[..5] == items;
  }

  lemma TakeNext(items: seq<Item>, i: nat, f: Found, g: Found)
    requires i < |items| && TakeAll(items[..i]) == Ok(f) && Take(f, items[i]) == Ok(g)
    ensures TakeAll(items[..i + 1]) == Ok(g)
  {
    hide Take;
    assert items[..i + 1][..i] == items[..i];
  }

  lemma ExtraRoundTrip(f: Found, e: MetadataItem)
    requires IsOpaque(e.guid, |e.data|)
    ensures Take(f, ExtraItem(e)) == Ok(f.(extras := f.extras + [e]))
  {
    assert Extra(ExtraItem(e)) == e;
  }

  lemma {:induction false} TakeExtras(prefix: seq<Item>, f: Found, es: seq<MetadataItem>)
    requires TakeAll(prefix) == Ok(f)
    requires forall i :: 0 <= i < |es| ==> IsOpaque(es[i].guid, |es[i].data|)
    ensures TakeAll(prefix + ExtraItems(es)) == Ok(f.(extras := f.extras + es))
  {
    hide Take, ExtraItem, IsOpaque;
    if es == [] {
      assert prefix + ExtraItems(es) == prefix;
      assert f.extras + es == f.extras;
    } else {
      var n := |es| - 1;
      var all := prefix + ExtraItems(es);
      TakeExtras(prefix, f, es[..n]);
      assert all[..|all| - 1] == prefix + ExtraItems(es[..n]);
      ExtraRoundTrip(f.(extras := f.extras + es[..n]), es[n]);
      assert f.extras + es == f.extras + es[..n] + [es[n]];
    }
  }

  lemma TakeLocator(m: Metadata, known: seq<Item>, f: Found)
    requires m.parentLocator.Some? ==> ParentLocators.Encodable(m.parentLocator.value)
    requires TakeAll(known) == Ok(f) && f.parentLocator.None?
    ensures TakeAll(known + LocatorItems(m)) == Ok(f.(parentLocator := m.parentLocator))
  {
    hide EncodeLocator, ParseLocator, ParentLocators.Encodable;
    var all := known + LocatorItems(m);
    if m.parentLocator.Some? {
      LocatorRoundTrip(m.parentLocator.value);
      assert all[..|all| - 1] == known;
    } else {
      assert all == known;
    }
  }

  lemma TakeItems(m: Metadata, size: nat)
    requires Encodable(m, size)
    ensures TakeAll(Items(m)).Ok? && Complete(TakeAll(Items(m)).value) == Ok(m)
  {
    TakeKnown(m);
    var f := TakeAll(KnownItems(m)).value;
    hide KnownItems, LocatorItems, ExtraItems, Take, TakeAll;
    TakeLocator(m, KnownItems(m), f);
    TakeExtras(KnownItems(m) + LocatorItems(m), f.(parentLocator := m.parentLocator), m.extras);
    assert [] + m.extras == m.extras;
  }

  /** Metadata with any locator and any extras reads back as it was written. */
  lemma MetadataRoundTrip(m: Metadata, size: nat)
    requires Encodable(m, size)
    ensures ParseMetadata(EncodeMetadata(m, size)) == Ok(m)
  {
    var items := Items(m);
    var buf := EncodeMetadata(m, size);
    assert Datas(items)[..|items|] == Datas(items);
    assert Slice(buf, 0, 8) == METADATA_SIGNATURE;
    assert Slice(buf, 10, 2) == Encode(|items|, 2);
    DecodedField(|items|, 2);
    ItemsRead(items, size, |items|);
    assert items[..|items|] == items;
    TakeItems(m, size);
  }

  /** The data areas of two items never overlap, and none reaches into the item table. */
  lemma ItemDataApart(m: Metadata, size: nat, i: nat, j: nat)
    requires Encodable(m, size) && i < j < |Items(m)|
    ensures
      var ds := Datas(Items(m));
      && HEADER + ROW * |Items(m)| <= DATA_START + Start(ds, i)
      && DATA_START + Start(ds, i) + |ds[i]| <= DATA_START + Start(ds, j)
      && DATA_START + Start(ds, j) + |ds[j]| <= size
  {
    var ds := Datas(Items(m));
    StartsIncrease(ds, i, j);
    ItemAtStart(ds, j);
  }

  // ---- The loops ----

  lemma {:induction false} FailureStays(buf: Buffer, i: nat, n: nat)
    requires i <= n && FoundIn(buf, i).Err?
    ensures FoundIn(buf, n) == FoundIn(buf, i)
  {
    hide ItemAt, Take;
    if i < n {
      FailureStays(buf, i, n - 1);
    }
  }

  lemma {:induction false} RowsPastEnd(buf: Buffer, i: nat, n: nat)
    requires i <= n && (i < n ==> HEADER + ROW * i + ROW > |buf|)
    ensures FoundIn(buf, n) == FoundIn(buf, i)
  {
    hide Take, U32At, GuidAt;
    if i < n {
      RowsPastEnd(buf, i, n - 1);
      assert ItemAt(buf, n - 1) == None;
    }
  }

  method Parse(buf: Buffer) returns (r: Result<Metadata>)
    ensures r == ParseMetadata(buf)
  {
    hide Take, Complete, ItemAt;
    if |buf| < HEADER || Slice(buf, 0, 8) != METADATA_SIGNATURE {
      return Err(InvalidStructure);
    }
    var count := U16At(buf, 10);
    var f := NOTHING;
    var i := 0;
    while i < count && HEADER + ROW * i + ROW <= |buf|
      invariant 0 <= i <= count
      invariant FoundIn(buf, i) == Ok(f)
    {
      var it := ItemAt(buf, i);
      if it.Some? {
        var next := Take(f, it.value);
        if next.Err? {
          FailureStays(buf, i + 1, count);
          return Err(next.error);
        }
        f := next.value;
      }
      i := i + 1;
    }
    RowsPastEnd(buf, i, count);
    return Complete(f);
  }

  lemma HeadWritten(size: nat, n: nat)
    requires HEADER <= size
    ensures Written(Written(Zeros(size), 0, METADATA_SIGNATURE), 10, Encode(n, 2)) == Head(n) + Zeros(size - HEADER)
  {
    hide Encode;
  }

  lemma NoItems(a: Buffer, b: Buffer, c: Buffer)
    ensures a + [] + (b + ([] + c)) == a + (b + c)
  {
  }

  lemma StartLaid(items: seq<Item>, size: nat)
    requires |items| <= MAX_ITEMS && DATA_START <= size
    ensures Start(Datas(items), 0) == 0
    ensures Written(Written(Zeros(size), 0, METADATA_SIGNATURE), 10, Encode(|items|, 2)) == Laid(items, 0, size)
  {
    hide Encode, Datas, Written, Head;
    assert Datas(items)[..0] == [];
    HeadWritten(size, |items|);
    ZerosSplit(size - HEADER, DATA_START - HEADER);
    NoItems(Head(|items|), Zeros(DATA_START - HEADER), Zeros(size - DATA_START));
  }

  lemma ZerosSplit(n: nat, k: nat)
    requires k <= n
    ensures Zeros(n) == Zeros(k) + Zeros(n - k)
  {
  }

  lemma RowLaid(top: Buffer, gap: nat, rest: Buffer, row: Buffer)
    requires ROW <= gap && |row| == 28
    ensures Written(top + Zeros(gap) + rest, |top|, row) == (top + (row + Zeros(4))) + Zeros(gap - ROW) + rest
  {
    GapFilled(top, gap, rest, row);
    assert Zeros(gap - 28) == Zeros(4) + Zeros(gap - ROW);
  }

  lemma DataLaid(upper: Buffer, room: nat, d: Buffer)
    requires |Padded(d)| <= room
    ensures Written(upper + Zeros(room), |upper|, d) == upper + Padded(d) + Zeros(room - |Padded(d)|)
  {
    GapFilled(upper, room, [], d);
    assert upper + Zeros(room) + [] == upper + Zeros(room);
    assert Zeros(room - |d|) == Zeros(Fill(|d|)) + Zeros(room - |Padded(d)|);
  }

  lemma NextJoined(ds: seq<Buffer>, i: nat)
    requires i < |ds|
    ensures Joined(ds[..i + 1]) == Joined(ds[..i]) + Padded(ds[i])
  {
    assert ds[..i + 1][..i] == ds[..i];
  }

  lemma RowIsPadded(items: seq<Item>, i: nat)
    requires i < |items|
    ensures Row(items, i) == Row(items, i)[..28] + Zeros(4)
  {
  }

  /** Filling in one row and one data area takes the region from `i` items to `i + 1`. */
  lemma OneMoreLaid(items: seq<Item>, i: nat, size: nat)
    requires i < |items| <= MAX_ITEMS && DATA_START + Start(Datas(items), i + 1) <= size
    ensures DATA_START + Start(Datas(items), i) + |items[i].data| <= size
    ensures
      var row := Row(items, i)[..28];
      Written(Written(Laid(items, i, size), HEADER + ROW * i, row), DATA_START + Start(Datas(items), i), items[i].data)
      == Laid(items, i + 1, size)
  {
    hide Row, Datas, Head, Joined, Encode, Written;
    var ds := Datas(items);
    var row := Row(items, i)[..28];
    var gap := DATA_START - HEADER - ROW * i;
    var top := Head(|items|) + Rows(items, i);
    var data := Joined(ds[..i]);
    StartNext(ds, i);
    NextJoined(ds, i);
    RowIsPadded(items, i);
    var room := size - DATA_START - Start(ds, i);
    assert top + (Zeros(gap) + (data + Zeros(room))) == top + Zeros(gap) + (data + Zeros(room));
    RowLaid(top, gap, data + Zeros(room), row);
    assert top + (row + Zeros(4)) == Head(|items|) + Rows(items, i + 1);
    assert |top| == HEADER + ROW * i;
    var upper := Head(|items|) + Rows(items, i + 1) + Zeros(gap - ROW) + data;
    assert top + (row + Zeros(4)) + Zeros(gap - ROW) + (data + Zeros(room)) == upper + Zeros(room);
    DataLaid(upper, room, ds[i]);
    assert size - DATA_START - Start(ds, i + 1) == room - |Padded(ds[i])|;
    assert upper + Padded(ds[i]) == Head(|items|) + Rows(items, i + 1) + Zeros(gap - ROW) + Joined(ds[..i + 1]);
    assert |upper| == DATA_START + Start(ds, i);
    FourthOfFive(Head(|items|), Rows(items, i + 1), Zeros(gap - ROW), Joined(ds[..i + 1]), Zeros(room - |Padded(ds[i])|));
  }

  /** Lays the items out one by one, each row in the table and each data area at the next multiple of eight. */
  method EncodeRegion(m: Metadata, size: nat) returns (buf: Buffer)
    requires Encodable(m, size)
    ensures buf == EncodeMetadata(m, size)
  {
    hide Items, Datas, Joined, Row, Encode, Fill;
    var items := Items(m);
    ghost var ds := Datas(items);
    assert ds[..|items|] == ds;
    StartLaid(items, size);
    buf := Zeros(size);
    buf := Written(buf, 0, METADATA_SIGNATURE);
    buf := Written(buf, 10, Encode(|items|, 2));
    var dataOff := DATA_START;
    for i := 0 to |items|
      invariant dataOff == DATA_START + Start(ds, i) <= size
      invariant buf == Laid(items, i, size)
    {
      StartsGrow(ds, i + 1);
      OneMoreLaid(items, i, size);
      StartNext(ds, i);
      buf := WriteItem(buf, items, i, dataOff);
      dataOff := dataOff + |items[i].data| + Fill(|items[i].data|);
    }
  }

  method WriteItem(before: Buffer, items: seq<Item>, i: nat, dataOff: nat) returns (buf: Buffer)
    requires i < |items| && dataOff == DATA_START + Start(Datas(items), i)
    ensures buf == Written(Written(before, HEADER + ROW * i, Row(items, i)[..28]), dataOff, items[i].data)
  {
    hide Encode, Datas, Start;
    var it := items[i];
    var off := HEADER + ROW * i;
    var a := Encode(dataOff, 4);
    var b := Encode(|it.data|, 4);
    var c := Encode(it.flags, 4);
    buf := Written(before, off, it.guid);
    buf := Written(buf, off + 16, a);
    buf := Written(buf, off + 20, b);
    buf := Written(buf, off + 24, c);
    WrittenJoins(before, off, it.guid, a);
    WrittenJoins(before, off, it.guid + a, b);
    WrittenJoins(before, off, it.guid + a + b, c);
    assert Row(items, i)[..28] == it.guid + a + b + c;
    buf := Written(buf, dataOff, it.data);
  }
}
