/** On-disk constants, GUIDs and the checksum (format.rs, guid.rs, crc32c.rs). */
module Format {
  import opened Bytes

  /** A GUID is the 16 bytes it has on disk. */
  type Guid = g: Buffer | |g| == 16 witness Zeros(16)

  const NIL: Guid := Zeros(16)

  const HEADER_SIZE: nat := 65536
  const HEADER_FIXED_SIZE: nat := 4096
  const REGION_TABLE_SIZE: nat := 65536
  const HEADER_SECTION_END: nat := MIB

  function HeaderOffset(i: nat): nat
    requires i < 2
  {
    if i == 0 then 65536 else 131072
  }

  function RegionTableOffset(i: nat): nat
    requires i < 2
  {
    if i == 0 then 196608 else 262144
  }

  const FILE_TYPE_SIGNATURE: Buffer := [0x76, 0x68, 0x64, 0x78, 0x66, 0x69, 0x6C, 0x65]  // vhdxfile
  const HEADER_SIGNATURE: Buffer := [0x68, 0x65, 0x61, 0x64]                              // head
  const REGION_SIGNATURE: Buffer := [0x72, 0x65, 0x67, 0x69]                              // regi
  const METADATA_SIGNATURE: Buffer := [0x6D, 0x65, 0x74, 0x61, 0x64, 0x61, 0x74, 0x61]    // metadata
  const LOG_ENTRY_SIGNATURE: Buffer := [0x6C, 0x6F, 0x67, 0x65]                           // loge
  const ZERO_DESCRIPTOR_SIGNATURE: Buffer := [0x7A, 0x65, 0x72, 0x6F]                     // zero
  const DATA_DESCRIPTOR_SIGNATURE: Buffer := [0x64, 0x65, 0x73, 0x63]                     // desc
  const DATA_SECTOR_SIGNATURE: Buffer := [0x64, 0x61, 0x74, 0x61]                         // data

  const LOG_SECTOR_SIZE: nat := 4096

  const REGION_GUID_BAT: Guid :=
    [0x66, 0x77, 0xC2, 0x2D, 0x23, 0xF6, 0x00, 0x42, 0x9D, 0x64, 0x11, 0x5E, 0x9B, 0xFD, 0x4A, 0x08]
  const REGION_GUID_METADATA: Guid :=
    [0x06, 0xA2, 0x7C, 0x8B, 0x90, 0x47, 0x9A, 0x4B, 0xB8, 0xFE, 0x57, 0x5F, 0x05, 0x0F, 0x88, 0x6E]

  const METADATA_GUID_FILE_PARAMETERS: Guid :=
    [0x37, 0x67, 0xA1, 0xCA, 0x36, 0xFA, 0x43, 0x4D, 0xB3, 0xB6, 0x33, 0xF0, 0xAA, 0x44, 0xE7, 0x6B]
  const METADATA_GUID_VIRTUAL_DISK_SIZE: Guid :=
    [0x24, 0x42, 0xA5, 0x2F, 0x1B, 0xCD, 0x76, 0x48, 0xB2, 0x11, 0x5D, 0xBE, 0xD8, 0x3B, 0xF4, 0xB8]
  const METADATA_GUID_PAGE_83_DATA: Guid :=
    [0xAB, 0x12, 0xCA, 0xBE, 0xE6, 0xB2, 0x23, 0x45, 0x93, 0xEF, 0xC3, 0x09, 0xE0, 0x00, 0xC7, 0x46]
  const METADATA_GUID_LOGICAL_SECTOR_SIZE: Guid :=
    [0x1D, 0xBF, 0x41, 0x81, 0x6F, 0xA9, 0x09, 0x47, 0xBA, 0x47, 0xF2, 0x33, 0xA8, 0xFA, 0xAB, 0x5F]
  const METADATA_GUID_PHYSICAL_SECTOR_SIZE: Guid :=
    [0xC7, 0x48, 0xA3, 0xCD, 0x5D, 0x44, 0x71, 0x44, 0x9C, 0xC9, 0xE9, 0x88, 0x52, 0x51, 0xC5, 0x56]
  const METADATA_GUID_PARENT_LOCATOR: Guid :=
    [0x2D, 0x5F, 0xD3, 0xA8, 0x0B, 0xB3, 0x4D, 0x45, 0xAB, 0xF7, 0xD3, 0xD8, 0x48, 0x34, 0xAB, 0x0C]

  /** The checksum: nothing is known of it but that it is a function of the bytes. */
  const CRC32C: Buffer -> Word32

  function Zeroed(buf: Buffer, off: nat): (z: Buffer)
    ensures |z| == |buf|
  {
    if off + 4 <= |buf| then Written(buf, off, Zeros(4)) else buf
  }

  function CrcWithZeroedField(buf: Buffer, off: nat): Word32 {
    CRC32C(Zeroed(buf, off))
  }

  /** Stamping a checksum into a zeroed field and then zeroing the field restores the bytes. */
  lemma StampedIsZeroedBack(body: Buffer, off: nat, stamp: Buffer)
    requires off + 4 <= |body| && |stamp| == 4 && Slice(body, off, 4) == Zeros(4)
    ensures Zeroed(Written(body, off, stamp), off) == body
  {
    assert forall j :: off <= j < off + 4 ==> body[j] == Slice(body, off, 4)[j - off];
  }

  // ---- Fixed-width fields of a buffer ----

  function U16At(buf: Buffer, off: nat): Word16
    requires off + 2 <= |buf|
  {
    Pow256Values();
    EncodeDecode(Slice(buf, off, 2));
    Decode(Slice(buf, off, 2))
  }

  function U32At(buf: Buffer, off: nat): Word32
    requires off + 4 <= |buf|
  {
    Pow256Values();
    EncodeDecode(Slice(buf, off, 4));
    Decode(Slice(buf, off, 4))
  }

  function U64At(buf: Buffer, off: nat): Word64
    requires off + 8 <= |buf|
  {
    Pow256Values();
    EncodeDecode(Slice(buf, off, 8));
    Decode(Slice(buf, off, 8))
  }

  function GuidAt(buf: Buffer, off: nat): Guid
    requires off + 16 <= |buf|
  {
    Slice(buf, off, 16)
  }

  /** The integer whose `k` bytes stand at `off`. */
  lemma DecodedField(n: nat, k: nat)
    requires (k == 2 && n < U16) || (k == 4 && n < U32) || (k == 8 && n < U64)
    ensures Decode(Encode(n, k)) == n
  {
    Pow256Values();
    DecodeEncode(n, k);
  }

  /** The fields are little-endian: byte `k` counts 256^k. */
  lemma LittleEndian(buf: Buffer, off: nat)
    requires off + 8 <= |buf|
    ensures U16At(buf, off) == buf[off] as int + 0x100 * buf[off + 1] as int
    ensures U32At(buf, off) == U16At(buf, off) + 0x1_0000 * U16At(buf, off + 2)
    ensures U64At(buf, off) == U32At(buf, off) + 0x1_0000_0000 * U32At(buf, off + 4)
  {
    TwoBytes(buf, off);
    TwoBytes(buf, off + 2);
    TwoBytes(buf, off + 4);
    TwoBytes(buf, off + 6);
    TwoHalves(buf, off, 2);
    TwoHalves(buf, off + 4, 2);
    TwoHalves(buf, off, 4);
    Pow256Values();
    hide Decode;
  }

  lemma TwoBytes(buf: Buffer, off: nat)
    requires off + 2 <= |buf|
    ensures U16At(buf, off) == buf[off] as int + 0x100 * buf[off + 1] as int
  {
    var b := Slice(buf, off, 2);
    assert Decode(b) == b[0] + 256 * Decode(b[1..]) && Decode(b[1..]) == b[1] + 256 * Decode(b[1..][1..]);
  }

  lemma TwoHalves(buf: Buffer, off: nat, k: nat)
    requires off + 2 * k <= |buf|
    ensures Decode(Slice(buf, off, 2 * k)) == Decode(Slice(buf, off, k)) + Pow256(k) * Decode(Slice(buf, off + k, k))
  {
    DecodeJoin(Slice(buf, off, k), Slice(buf, off + k, k));
    assert Slice(buf, off, 2 * k) == Slice(buf, off, k) + Slice(buf, off + k, k);
  }

  lemma {:induction false} DecodeJoin(a: Buffer, b: Buffer)
    ensures Decode(a + b) == Decode(a) + Pow256(|a|) * Decode(b)
  {
    if a == [] {
      assert a + b == b;
    } else {
      assert (a + b)[1..] == a[1..] + b;
      DecodeJoin(a[1..], b);
      ThreeFactors(Pow256(|a| - 1), Decode(b));
    }
  }

  lemma ThreeFactors(p: nat, d: nat)
    ensures 256 * (p * d) == 256 * p * d
  {
  }
}
