/** Which bytes make a valid header, a valid region table, and the active one of each pair (header.rs, region.rs). */
module HeaderBytes {
  import opened Wrappers
  import opened Bytes
  import opened Format
  import opened Headers
  import opened Regions

  // ---- One header ----

  /** The checksum of the bytes with the field at 4 zeroed stands in that field. */
  predicate Stamped(b: Buffer)
    requires |b| >= 8
  {
    U32At(b, 4) == CRC32C(b[..4] + [0, 0, 0, 0] + b[8..])
  }

  /** The bytes are a header: signature, checksum of the first 4096 bytes, version 1 and log version 0. */
  predicate GoodHeader(b: Buffer)
    requires |b| >= 4096
  {
    && b[..4] == [0x68, 0x65, 0x61, 0x64]
    && Stamped(b[..4096])
    && U16At(b, 66) == 1 && U16At(b, 64) == 0
  }

  lemma ZeroedIs(b: Buffer)
    requires |b| >= 8
    ensures Zeroed(b, 4) == b[..4] + [0, 0, 0, 0] + b[8..]
  {
  }

  lemma SameField(b: Buffer, n: nat, off: nat, k: nat)
    requires off + k <= n <= |b|
    ensures Slice(b[..n], off, k) == Slice(b, off, k)
  {
  }

  /** A header is valid exactly when its bytes are good. */
  lemma ValidIff(b: Buffer)
    requires |b| >= 4096
    ensures ParseHeader(b).IsValid() <==> GoodHeader(b)
  {
    hide Decode;
    ZeroedIs(b[..4096]);
    SameField(b, 4096, 4, 4);
    assert Slice(b, 0, 4096) == b[..4096] && Slice(b, 0, 4) == b[..4];
  }

  /** Where the fields of a header stand. */
  predicate HeaderIs(h: Header, b: Buffer)
    requires |b| >= 80
  {
    && h.sequenceNumber == U64At(b, 8)
    && h.fileWriteGuid == b[16..32] && h.dataWriteGuid == b[32..48] && h.logGuid == b[48..64]
    && h.logVersion == U16At(b, 64) && h.version == U16At(b, 66)
    && h.logLength == U32At(b, 68) && h.logOffset == U64At(b, 72)
  }

  lemma FieldsOf(b: Buffer)
    requires |b| >= 4096 && GoodHeader(b)
    ensures HeaderIs(ParseHeader(b), b)
  {
    hide Decode, Zeroed;
  }

  // ---- The pair ----

  function FirstHeader(data: Buffer): Buffer
    requires |data| >= 196608
  {
    data[65536..131072]
  }

  function SecondHeader(data: Buffer): Buffer
    requires |data| >= 196608
  {
    data[131072..196608]
  }

  predicate FirstIsActive(data: Buffer)
    requires |data| >= 196608
  {
    GoodHeader(FirstHeader(data)) && (GoodHeader(SecondHeader(data)) ==> U64At(FirstHeader(data), 8) >= U64At(SecondHeader(data), 8))
  }

  /**
   * The pair is read exactly when both slots are in the file and one of them is good; the active header is the good one,
   * or of two good ones the one with the larger sequence number, the first if they are equal.
   */
  lemma HeaderPairIff(data: Buffer)
    ensures ReadPair(data).Ok? <==> |data| >= 196608 && (GoodHeader(FirstHeader(data)) || GoodHeader(SecondHeader(data)))
    ensures ReadPair(data).Err? ==> ReadPair(data).error == if |data| >= 196608 then NoValidHeader else UnexpectedEof
    ensures ReadPair(data).Ok? ==>
              var pair := ReadPair(data).value;
              && (pair.h0.IsValid() <==> GoodHeader(FirstHeader(data)))
              && (pair.h1.IsValid() <==> GoodHeader(SecondHeader(data)))
              && (pair.activeIndex == if FirstIsActive(data) then 0 else 1)
              && HeaderIs(pair.Active(), if FirstIsActive(data) then FirstHeader(data) else SecondHeader(data))
  {
    hide ParseHeader, GoodHeader;
    if |data| >= 196608 {
      var a, b := FirstHeader(data), SecondHeader(data);
      assert Slice(data, HeaderOffset(0), HEADER_SIZE) == a && Slice(data, HeaderOffset(1), HEADER_SIZE) == b;
      ValidIff(a);
      ValidIff(b);
      if GoodHeader(a) {
        FieldsOf(a);
      }
      if GoodHeader(b) {
        FieldsOf(b);
      }
    }
  }

  // ---- Writing a header ----

  /** The slot an update overwrites: the second exactly when the first is good and the second is not, or is older. */
  predicate OverwritesSecond(data: Buffer)
    requires |data| >= 196608
  {
    GoodHeader(FirstHeader(data)) && (GoodHeader(SecondHeader(data)) ==> U64At(FirstHeader(data), 8) > U64At(SecondHeader(data), 8))
  }

  /** What an update leaves, in bytes: a good header with the given fields in one slot, everything else as it was. */
  lemma UpdatedBytes(data: Buffer, next: Header)
    requires |data| >= 196608 && next.version == 1 && next.logVersion == 0
    ensures
      var after := Updated(data, next);
      var at := if OverwritesSecond(data) then 131072 else 65536;
      && |after| == |data|
      && (forall j :: 0 <= j < |data| && !(at <= j < at + 65536) ==> after[j] == data[j])
      && GoodHeader(after[at..at + 65536]) && HeaderIs(next, after[at..at + 65536])
  {
    hide GoodHeader, EncodeHeader, ParseHeader;
    var at := if OverwritesSecond(data) then 131072 else 65536;
    TargetIs(data);
    var b := EncodeHeader(next);
    assert Updated(data, next)[at..at + 65536] == b;
    HeaderRoundTrip(next);
    ValidIff(b);
    FieldsOf(b);
  }

  lemma TargetIs(data: Buffer)
    requires |data| >= 196608
    ensures HeaderOffset(TargetIndex(data)) == if OverwritesSecond(data) then 131072 else 65536
  {
    hide GoodHeader, ParseHeader;
    var a, b := FirstHeader(data), SecondHeader(data);
    assert Slice(data, HeaderOffset(0), HEADER_SIZE) == a && Slice(data, HeaderOffset(1), HEADER_SIZE) == b;
    ValidIff(a);
    ValidIff(b);
    if GoodHeader(a) {
      FieldsOf(a);
    }
    if GoodHeader(b) {
      FieldsOf(b);
    }
  }

  // ---- Region tables ----

  /** The bytes are a region table: signature, at most 2047 entries, and the checksum of the whole 64 KiB. */
  predicate GoodTable(b: Buffer)
    requires |b| == 65536
  {
    b[..4] == [0x72, 0x65, 0x67, 0x69] && U32At(b, 8) <= 2047 && Stamped(b)
  }

  /** Where the fields of an entry stand; only the lowest of the flags is read. */
  predicate EntryIs(e: RegionEntry, b: Buffer, i: nat)
    requires 48 + 32 * i <= |b|
  {
    var off := 16 + 32 * i;
    && e.guid == b[off..off + 16]
    && e.fileOffset == U64At(b, off + 16) && e.length == U32At(b, off + 24) && (e.required <==> b[off + 28] % 2 == 1)
  }

  predicate TableIs(t: RegionTable, b: Buffer)
    requires |b| == 65536
  {
    && t.checksumOk && |t.entries| == U32At(b, 8) <= 2047
    && forall i :: 0 <= i < |t.entries| ==> EntryIs(t.entries[i], b, i)
  }

  lemma TableIff(b: Buffer)
    requires |b| == 65536
    ensures ParseRegions(b).checksumOk <==> GoodTable(b)
    ensures GoodTable(b) ==> TableIs(ParseRegions(b), b)
  {
    hide Decode;
    ZeroedIs(b);
    assert Slice(b, 0, 4) == b[..4];
    if GoodTable(b) {
      forall i | 0 <= i < U32At(b, 8)
        ensures EntryIs(ParseRegions(b).entries[i], b, i)
      {
        LowestBit(b, 16 + 32 * i + 28);
      }
    }
  }

  lemma LowestBit(b: Buffer, off: nat)
    requires off + 4 <= |b|
    ensures U32At(b, off) % 2 == b[off] % 2
  {
    TwoBytes(b, off);
    TwoHalves(b, off, 2);
    Pow256Values();
    hide Decode;
  }

  /** Both copies are read, and the table in use is the first good one, entry by entry. */
  lemma RegionPairIff(data: Buffer)
    ensures ReadRegions(data).Ok? <==> |data| >= 327680 && (GoodTable(data[196608..262144]) || GoodTable(data[262144..327680]))
    ensures ReadRegions(data).Err? ==> ReadRegions(data).error == if |data| >= 327680 then NoValidRegionTable else UnexpectedEof
    ensures ReadRegions(data).Ok? ==>
              var r := ReadRegions(data).value;
              && (r.intact0 <==> GoodTable(data[196608..262144]))
              && (r.intact1 <==> GoodTable(data[262144..327680]))
              && TableIs(r.active, if GoodTable(data[196608..262144]) then data[196608..262144] else data[262144..327680])
  {
    hide ParseRegions, GoodTable;
    if |data| >= 327680 {
      var a, b := data[196608..262144], data[262144..327680];
      assert Slice(data, RegionTableOffset(0), REGION_TABLE_SIZE) == a && Slice(data, RegionTableOffset(1), REGION_TABLE_SIZE) == b;
      TableIff(a);
      TableIff(b);
    }
  }

  /** A region is looked up as the first entry with its GUID. */
  lemma {:induction false} FindIsFirst(es: seq<RegionEntry>, guid: Guid)
    ensures Find(es, guid).None? <==> forall i :: 0 <= i < |es| ==> es[i].guid != guid
    ensures Find(es, guid).Some? ==>
              exists i :: 0 <= i < |es| && es[i] == Find(es, guid).value && es[i].guid == guid &&
                          forall j :: 0 <= j < i ==> es[j].guid != guid
  {
    if es != [] && es[0].guid != guid {
      FindIsFirst(es[1..], guid);
      if Find(es, guid).Some? {
        var i :| 0 <= i < |es| - 1 && es[1..][i] == Find(es, guid).value && es[1..][i].guid == guid &&
                 forall j :: 0 <= j < i ==> es[1..][j].guid != guid;
        assert es[i + 1] == Find(es, guid).value;
        forall j | 0 <= j < i + 1
          ensures es[j].guid != guid
        {
          assert j > 0 ==> es[j] == es[1..][j - 1];
        }
      }
    }
  }
}
