/** The parent locator of a differencing file: key/value strings in UTF-16 (parent_locator.rs). */
module ParentLocators {
  import opened Wrappers
  import opened Bytes
  import opened Format
  import opened Packing

  // ---- UTF-16 ----

  function Units(c: char): (u: seq<Word16>)
    ensures 1 <= |u| <= 2
  {
    var v := c as int;
    if v < 0x1_0000 then [v]
    else [0xD800 + (v - 0x1_0000) / 0x400, 0xDC00 + (v - 0x1_0000) % 0x400]
  }

  function EncodeUtf16(s: string): seq<Word16> {
    if s == [] then [] else Units(s[0]) + EncodeUtf16(s[1..])
  }

  function SurrogatePair(high: int, low: int): char
    requires 0xD800 <= high < 0xDC00 <= low < 0xE000
  {
    (0x1_0000 + (high - 0xD800) * 0x400 + (low - 0xDC00)) as char
  }

  /** Fails on a surrogate without its partner. */
  function DecodeUtf16(us: seq<Word16>): Option<string> {
    if us == [] then Some([])
    else if us[0] < 0xD800 || us[0] >= 0xE000 then
      match DecodeUtf16(us[1..])
      case None => None
      case Some(rest) => Some([us[0] as char] + rest)
    else if us[0] < 0xDC00 && |us| > 1 && 0xDC00 <= us[1] < 0xE000 then
      match DecodeUtf16(us[2..])
      case None => None
      case Some(rest) => Some([SurrogatePair(us[0], us[1])] + rest)
    else None
  }

  lemma {:induction false} Utf16RoundTrip(s: string)
    ensures DecodeUtf16(EncodeUtf16(s)) == Some(s)
  {
    if s != [] {
      Utf16RoundTrip(s[1..]);
      var us := EncodeUtf16(s);
      assert us[|Units(s[0])|..] == EncodeUtf16(s[1..]);
      assert s == [s[0]] + s[1..];
    }
  }

  function UnitBytes(us: seq<Word16>): (b: Buffer)
    ensures |b| == 2 * |us|
  {
    if us == [] then [] else UnitBytes(us[..|us| - 1]) + Encode(us[|us| - 1], 2)
  }

  function UnitsAt(buf: Buffer, off: nat, n: nat): (us: seq<Word16>)
    requires off + 2 * n <= |buf|
    ensures |us| == n
  {
    if n == 0 then [] else UnitsAt(buf, off, n - 1) + [U16At(buf, off + 2 * (n - 1))]
  }

  lemma {:induction false} UnitsRoundTrip(buf: Buffer, off: nat, us: seq<Word16>)
    requires off + 2 * |us| <= |buf| && Slice(buf, off, 2 * |us|) == UnitBytes(us)
    ensures UnitsAt(buf, off, |us|) == us
  {
    hide Decode, Encode;
    if us != [] {
      var n := |us| - 1;
      assert Slice(buf, off, 2 * n) == Slice(buf, off, 2 * |us|)[..2 * n] == UnitBytes(us[..n]);
      UnitsRoundTrip(buf, off, us[..n]);
      assert Slice(buf, off + 2 * n, 2) == Slice(buf, off, 2 * |us|)[2 * n..] == Encode(us[n], 2);
      DecodedField(us[n], 2);
    }
  }

  function StringBytes(s: string): Buffer {
    UnitBytes(EncodeUtf16(s))
  }

  function StringAt(buf: Buffer, off: nat, len: nat): Result<string> {
    if off + len > |buf| || len % 2 != 0 then Err(InvalidStructure)
    else
      match DecodeUtf16(UnitsAt(buf, off, len / 2))
      case None => Err(InvalidStructure)
      case Some(s) => Ok(s)
  }

  lemma StringRoundTrip(buf: Buffer, off: nat, s: string)
    requires off + |StringBytes(s)| <= |buf| && Slice(buf, off, |StringBytes(s)|) == StringBytes(s)
    ensures StringAt(buf, off, |StringBytes(s)|) == Ok(s)
  {
    var us := EncodeUtf16(s);
    var len := |StringBytes(s)|;
    assert len % 2 == 0 && len / 2 == |us|;
    UnitsRoundTrip(buf, off, us);
    assert UnitsAt(buf, off, len / 2) == us;
    Utf16RoundTrip(s);
  }

  method EncodeString(s: string) returns (out: Buffer)
    ensures out == StringBytes(s)
  {
    var us := EncodeUtf16(s);
    out := [];
    for i := 0 to |us|
      invariant out == UnitBytes(us[..i])
    {
      out := out + Encode(us[i], 2);
      assert us[..i + 1][..i] == us[..i];
    }
    assert us[..|us|] == us;
  }

  method DecodeString(buf: Buffer, off: nat, len: nat) returns (r: Result<string>)
    ensures r == StringAt(buf, off, len)
  {
    if off + len > |buf| || len % 2 != 0 {
      return Err(InvalidStructure);
    }
    var us: seq<Word16> := [];
    for i := 0 to len / 2
      invariant us == UnitsAt(buf, off, i)
    {
      us := us + [U16At(buf, off + 2 * i)];
    }
    match DecodeUtf16(us)
    case None => return Err(InvalidStructure);
    case Some(s) => return Ok(s);
  }

  // ---- The locator ----

  type Entry = (string, string)

  datatype ParentLocator = ParentLocator(locatorType: Guid, entries: seq<Entry>)

  const HEADER: nat := 20
  const ROW: nat := 12

  function TableSize(n: nat): nat {
    HEADER + ROW * n
  }

  /** The strings of the locator in the order they are stored. */
  function Pieces(es: seq<Entry>): (ps: seq<Buffer>)
    ensures |ps| == 2 * |es|
    ensures forall i :: 0 <= i < |es| ==> ps[2 * i] == StringBytes(es[i].0) && ps[2 * i + 1] == StringBytes(es[i].1)
  {
    if es == [] then []
    else Pieces(es[..|es| - 1]) + [StringBytes(es[|es| - 1].0), StringBytes(es[|es| - 1].1)]
  }

  /** The row of an entry whose strings are the pieces `2 * i` and `2 * i + 1`. */
  function Row(ps: seq<Buffer>, base: nat, i: nat): (b: Buffer)
    requires 2 * i + 1 < |ps|
    ensures |b| == ROW
  {
    Encode(base + Start(ps, 2 * i), 4) + Encode(base + Start(ps, 2 * i + 1), 4)
    + Encode(|ps[2 * i]|, 2) + Encode(|ps[2 * i + 1]|, 2)
  }

  function Rows(ps: seq<Buffer>, base: nat, n: nat): (b: Buffer)
    requires 2 * n <= |ps|
    ensures |b| == ROW * n
  {
    if n == 0 then [] else Rows(ps, base, n - 1) + Row(ps, base, n - 1)
  }

  function EncodePieces(locatorType: Guid, ps: seq<Buffer>, n: nat): (b: Buffer)
    requires |ps| == 2 * n
    ensures |b| == TableSize(n) + |Joined(ps)|
  {
    locatorType + Zeros(2) + Encode(n, 2) + Rows(ps, TableSize(n), n) + Joined(ps)
  }

  function EncodeLocator(pl: ParentLocator): (b: Buffer)
    ensures |b| >= TableSize(|pl.entries|)
  {
    EncodePieces(pl.locatorType, Pieces(pl.entries), |pl.entries|)
  }

  /** The counts, lengths and offsets fit the 16- and 32-bit fields they are stored in. */
  predicate Encodable(pl: ParentLocator) {
    && |pl.entries| < U16
    && |EncodeLocator(pl)| < U32
    && forall i :: 0 <= i < |Pieces(pl.entries)| ==> |Pieces(pl.entries)[i]| < U16
  }

  function EntryAt(buf: Buffer, i: nat): Result<Entry>
    requires TableSize(i + 1) <= |buf|
  {
    var off := TableSize(i);
    var key :- StringAt(buf, U32At(buf, off), U16At(buf, off + 8));
    var value :- StringAt(buf, U32At(buf, off + 4), U16At(buf, off + 10));
    Ok((key, value))
  }

  /** The first `n` entries; rows past the end of the buffer are ignored. */
  function EntriesAt(buf: Buffer, n: nat): Result<seq<Entry>> {
    if n == 0 then Ok([])
    else
      var rest :- EntriesAt(buf, n - 1);
      if TableSize(n) > |buf| then Ok(rest)
      else
        var e :- EntryAt(buf, n - 1);
        Ok(rest + [e])
  }

  function ParseLocator(buf: Buffer): Result<ParentLocator> {
    if |buf| < HEADER then Err(InvalidStructure)
    else
      var es :- EntriesAt(buf, U16At(buf, 18));
      Ok(ParentLocator(GuidAt(buf, 0), es))
  }

  lemma {:induction false} RowInRows(ps: seq<Buffer>, base: nat, n: nat, i: nat)
    requires i < n && 2 * n <= |ps|
    ensures Slice(Rows(ps, base, n), ROW * i, ROW) == Row(ps, base, i)
  {
    if i < n - 1 {
      RowInRows(ps, base, n - 1, i);
      assert Slice(Rows(ps, base, n), ROW * i, ROW) == Slice(Rows(ps, base, n - 1), ROW * i, ROW);
    }
  }

  lemma RowReads(g: Guid, ps: seq<Buffer>, n: nat, i: nat)
    requires i < n && |ps| == 2 * n
    ensures Slice(EncodePieces(g, ps, n), TableSize(i), ROW) == Row(ps, TableSize(n), i)
  {
    RowInRows(ps, TableSize(n), n, i);
    assert Slice(EncodePieces(g, ps, n), TableSize(i), ROW) == Slice(Rows(ps, TableSize(n), n), ROW * i, ROW);
  }

  lemma PieceReads(g: Guid, ps: seq<Buffer>, n: nat, i: nat)
    requires i < |ps| == 2 * n
    ensures TableSize(n) + Start(ps, i) + |ps[i]| <= |EncodePieces(g, ps, n)|
    ensures Slice(EncodePieces(g, ps, n), TableSize(n) + Start(ps, i), |ps[i]|) == ps[i]
  {
    ItemAtStart(ps, i);
    assert Slice(EncodePieces(g, ps, n), TableSize(n) + Start(ps, i), |ps[i]|) == Slice(Joined(ps), Start(ps, i), |ps[i]|);
  }

  /** The four numbers of a row, read from wherever the row stands. */
  lemma RowFields(buf: Buffer, off: nat, a: nat, b: nat, c: nat, d: nat)
    requires off + ROW <= |buf| && a < U32 && b < U32 && c < U16 && d < U16
    requires Slice(buf, off, ROW) == Encode(a, 4) + Encode(b, 4) + Encode(c, 2) + Encode(d, 2)
    ensures U32At(buf, off) == a && U32At(buf, off + 4) == b && U16At(buf, off + 8) == c && U16At(buf, off + 10) == d
  {
    hide Encode;
    var row := Slice(buf, off, ROW);
    assert Slice(buf, off, 4) == row[..4] == Encode(a, 4);
    assert Slice(buf, off + 4, 4) == row[4..8] == Encode(b, 4);
    assert Slice(buf, off + 8, 2) == row[8..10] == Encode(c, 2);
    assert Slice(buf, off + 10, 2) == row[10..] == Encode(d, 2);
    DecodedField(a, 4);
    DecodedField(b, 4);
    DecodedField(c, 2);
    DecodedField(d, 2);
  }

  lemma EntryReads(pl: ParentLocator, i: nat)
    requires Encodable(pl) && i < |pl.entries|
    ensures EntryAt(EncodeLocator(pl), i) == Ok(pl.entries[i])
  {
    hide StringAt, Encode, StringBytes, U32At, U16At, EntryAt, Start, Pieces, Joined;
    var ps := Pieces(pl.entries);
    var n := |pl.entries|;
    var base := TableSize(n);
    var buf := EncodeLocator(pl);
    PieceReads(pl.locatorType, ps, n, 2 * i);
    PieceReads(pl.locatorType, ps, n, 2 * i + 1);
    RowReads(pl.locatorType, ps, n, i);
    RowFields(buf, TableSize(i), base + Start(ps, 2 * i), base + Start(ps, 2 * i + 1), |ps[2 * i]|, |ps[2 * i + 1]|);
    StringRoundTrip(buf, base + Start(ps, 2 * i), pl.entries[i].0);
    StringRoundTrip(buf, base + Start(ps, 2 * i + 1), pl.entries[i].1);
    EntryFromParts(buf, i, base + Start(ps, 2 * i), base + Start(ps, 2 * i + 1), |ps[2 * i]|, |ps[2 * i + 1]|, pl.entries[i]);
  }

  lemma EntryFromParts(buf: Buffer, i: nat, k: nat, v: nat, kl: nat, vl: nat, e: Entry)
    requires TableSize(i + 1) <= |buf|
    requires
      var off := TableSize(i);
      U32At(buf, off) == k && U16At(buf, off + 8) == kl && U32At(buf, off + 4) == v && U16At(buf, off + 10) == vl
    requires StringAt(buf, k, kl) == Ok(e.0) && StringAt(buf, v, vl) == Ok(e.1)
    ensures EntryAt(buf, i) == Ok(e)
  {
    hide StringAt, U32At, U16At;
  }

  lemma {:induction false} EntriesRead(pl: ParentLocator, n: nat)
    requires Encodable(pl) && n <= |pl.entries|
    ensures EntriesAt(EncodeLocator(pl), n) == Ok(pl.entries[..n])
  {
    hide EntryAt, EncodeLocator;
    if n > 0 {
      EntriesRead(pl, n - 1);
      EntryReads(pl, n - 1);
      assert pl.entries[..n] == pl.entries[..n - 1] + [pl.entries[n - 1]];
    }
  }

  /** A locator with any strings reads back as it was written. */
  lemma LocatorRoundTrip(pl: ParentLocator)
    requires Encodable(pl)
    ensures ParseLocator(EncodeLocator(pl)) == Ok(pl)
  {
    var buf := EncodeLocator(pl);
    assert Slice(buf, 18, 2) == Encode(|pl.entries|, 2);
    DecodedField(|pl.entries|, 2);
    assert GuidAt(buf, 0) == pl.locatorType;
    EntriesRead(pl, |pl.entries|);
    assert pl.entries[..|pl.entries|] == pl.entries;
  }

  // ---- Strings too long for their fields ----

  lemma {:induction false} DecodedUnits(us: seq<Word16>)
    ensures DecodeUtf16(us).Some? ==> |EncodeUtf16(DecodeUtf16(us).value)| == |us|
  {
    if us != [] {
      if us[0] < 0xD800 || us[0] >= 0xE000 {
        DecodedUnits(us[1..]);
        if DecodeUtf16(us).Some? {
          OneChar(us[0] as char, DecodeUtf16(us[1..]).value);
        }
      } else if us[0] < 0xDC00 && |us| > 1 && 0xDC00 <= us[1] < 0xE000 {
        DecodedUnits(us[2..]);
        if DecodeUtf16(us).Some? {
          OneChar(SurrogatePair(us[0], us[1]), DecodeUtf16(us[2..]).value);
        }
      }
    }
  }

  lemma OneChar(c: char, rest: string)
    ensures |EncodeUtf16([c] + rest)| == |EncodeUtf16(rest)| + |Units(c)|
    ensures |Units(c)| == if c as int < 0x1_0000 then 1 else 2
  {
    assert ([c] + rest)[1..] == rest;
  }

  /** A string that is read takes as many bytes as were asked for. */
  lemma StringLength(buf: Buffer, off: nat, len: nat)
    ensures StringAt(buf, off, len).Ok? ==> |StringBytes(StringAt(buf, off, len).value)| == len
  {
    if off + len <= |buf| && len % 2 == 0 {
      DecodedUnits(UnitsAt(buf, off, len / 2));
    }
    hide EncodeUtf16, DecodeUtf16;
  }

  lemma NarrowField(buf: Buffer, off: nat, n: nat)
    requires off + 2 <= |buf| && Slice(buf, off, 2) == Encode(n, 2)
    ensures U16At(buf, off) == n % U16
  {
    DecodeEncode(n, 2);
    Pow256Values();
    hide Encode, Decode;
  }

  lemma {:induction false} EntriesCount(buf: Buffer, n: nat)
    ensures EntriesAt(buf, n).Ok? ==> |EntriesAt(buf, n).value| <= n
    ensures EntriesAt(buf, n).Ok? && TableSize(n) <= |buf| ==>
              && |EntriesAt(buf, n).value| == n
              && forall i :: 0 <= i < n ==> EntryAt(buf, i) == Ok(EntriesAt(buf, n).value[i])
  {
    hide EntryAt;
    if n > 0 {
      EntriesCount(buf, n - 1);
    }
  }

  /** The lengths a row states for its strings are those of the strings, less what a 16-bit field cannot hold. */
  lemma StatedLengths(pl: ParentLocator, i: nat)
    requires i < |pl.entries|
    ensures
      var buf, ps := EncodeLocator(pl), Pieces(pl.entries);
      && TableSize(i + 1) <= |buf|
      && U16At(buf, TableSize(i) + 8) == |ps[2 * i]| % U16 && U16At(buf, TableSize(i) + 10) == |ps[2 * i + 1]| % U16
  {
    hide Encode, Start, Pieces, Joined, Rows, U16At;
    var ps := Pieces(pl.entries);
    var buf := EncodeLocator(pl);
    RowReads(pl.locatorType, ps, |pl.entries|, i);
    var row := Slice(buf, TableSize(i), ROW);
    assert Slice(buf, TableSize(i) + 8, 2) == row[8..10] == Encode(|ps[2 * i]|, 2);
    assert Slice(buf, TableSize(i) + 10, 2) == row[10..] == Encode(|ps[2 * i + 1]|, 2);
    NarrowField(buf, TableSize(i) + 8, |ps[2 * i]|);
    NarrowField(buf, TableSize(i) + 10, |ps[2 * i + 1]|);
  }

  /** An entry that reads back has strings short enough for their length fields. */
  lemma EntryIsShort(pl: ParentLocator, i: nat)
    requires i < |pl.entries| && TableSize(i + 1) <= |EncodeLocator(pl)|
    requires EntryAt(EncodeLocator(pl), i) == Ok(pl.entries[i])
    ensures |Pieces(pl.entries)[2 * i]| < U16 && |Pieces(pl.entries)[2 * i + 1]| < U16
  {
    hide StringAt, StringBytes, U32At, U16At, Pieces, EncodeLocator;
    var buf := EncodeLocator(pl);
    var off := TableSize(i);
    StatedLengths(pl, i);
    StringLength(buf, U32At(buf, off), U16At(buf, off + 8));
    StringLength(buf, U32At(buf, off + 4), U16At(buf, off + 10));
  }

  lemma StatedCount(pl: ParentLocator)
    ensures TableSize(|pl.entries|) <= |EncodeLocator(pl)| && U16At(EncodeLocator(pl), 18) == |pl.entries| % U16
  {
    var buf := EncodeLocator(pl);
    assert Slice(buf, 18, 2) == Encode(|pl.entries|, 2);
    hide EncodeLocator, U16At;
    NarrowField(buf, 18, |pl.entries|);
  }

  lemma ReadBackIsShort(pl: ParentLocator)
    requires ParseLocator(EncodeLocator(pl)) == Ok(pl)
    ensures |pl.entries| < U16
    ensures forall k :: 0 <= k < |Pieces(pl.entries)| ==> |Pieces(pl.entries)[k]| < U16
  {
    hide EntryAt, EncodeLocator, EntriesAt, Pieces, U16At;
    var n := |pl.entries|;
    StatedCount(pl);
    EntriesCount(EncodeLocator(pl), n % U16);
    assert n <= n % U16;
    forall i | 0 <= i < n
      ensures |Pieces(pl.entries)[2 * i]| < U16 && |Pieces(pl.entries)[2 * i + 1]| < U16
    {
      EntryIsShort(pl, i);
    }
    EveryPiece(pl.entries);
  }

  /** As long as its offsets fit, a locator reads back exactly when its entries and the bytes of each string number less than 2^16. */
  lemma LocatorRoundTripIff(pl: ParentLocator)
    requires |EncodeLocator(pl)| < U32
    ensures ParseLocator(EncodeLocator(pl)) == Ok(pl) <==> Encodable(pl)
  {
    hide EncodeLocator, ParseLocator, Pieces;
    if Encodable(pl) {
      LocatorRoundTrip(pl);
    }
    if ParseLocator(EncodeLocator(pl)) == Ok(pl) {
      ReadBackIsShort(pl);
    }
  }

  lemma EveryPiece(es: seq<Entry>)
    requires forall i :: 0 <= i < |es| ==> |Pieces(es)[2 * i]| < U16 && |Pieces(es)[2 * i + 1]| < U16
    ensures forall k :: 0 <= k < |Pieces(es)| ==> |Pieces(es)[k]| < U16
  {
    hide Pieces;
    forall k | 0 <= k < |Pieces(es)|
      ensures |Pieces(es)[k]| < U16
    {
      assert k == 2 * (k / 2) || k == 2 * (k / 2) + 1;
    }
  }

  method ParseParentLocator(buf: Buffer) returns (r: Result<ParentLocator>)
    ensures r == ParseLocator(buf)
  {
    hide EntryAt;
    if |buf| < HEADER {
      return Err(InvalidStructure);
    }
    var count := U16At(buf, 18);
    var es: seq<Entry> := [];
    var i := 0;
    while i < count && TableSize(i + 1) <= |buf|
      invariant 0 <= i <= count
      invariant EntriesAt(buf, i) == Ok(es)
    {
      var e := ParseEntry(buf, i);
      if e.Err? {
        FailureStays(buf, i + 1, count);
        return Err(e.error);
      }
      es := es + [e.value];
      i := i + 1;
    }
    RowsPastEnd(buf, i, count);
    return Ok(ParentLocator(GuidAt(buf, 0), es));
  }

  method ParseEntry(buf: Buffer, i: nat) returns (r: Result<Entry>)
    requires TableSize(i + 1) <= |buf|
    ensures r == EntryAt(buf, i)
  {
    var off := TableSize(i);
    var key := DecodeString(buf, U32At(buf, off), U16At(buf, off + 8));
    if key.Err? {
      return Err(key.error);
    }
    var value := DecodeString(buf, U32At(buf, off + 4), U16At(buf, off + 10));
    if value.Err? {
      return Err(value.error);
    }
    return Ok((key.value, value.value));
  }

  lemma {:induction false} FailureStays(buf: Buffer, i: nat, n: nat)
    requires i <= n && EntriesAt(buf, i).Err?
    ensures EntriesAt(buf, n) == EntriesAt(buf, i)
  {
    if i < n {
      FailureStays(buf, i, n - 1);
    }
  }

  lemma {:induction false} RowsPastEnd(buf: Buffer, i: nat, n: nat)
    requires i <= n && (i < n ==> TableSize(i + 1) > |buf|)
    ensures EntriesAt(buf, n) == EntriesAt(buf, i)
  {
    if i < n {
      RowsPastEnd(buf, i, n - 1);
    }
  }

  /** Builds the string tail and the rows side by side, then lays the item out. */
  method EncodeParentLocator(pl: ParentLocator) returns (out: Buffer)
    ensures out == EncodeLocator(pl)
  {
    hide Encode, StringBytes, Padded, Pieces;
    var es := pl.entries;
    ghost var ps := Pieces(es);
    var base := TableSize(|es|);
    var tail: Buffer := [];
    var rows: Buffer := [];
    for i := 0 to |es|
      invariant tail == Joined(ps[..2 * i]) && rows == Rows(ps, base, i)
    {
      var kb := EncodeString(es[i].0);
      var keyOff := base + |tail|;
      tail := AddString(tail, kb, ps, 2 * i);
      var vb := EncodeString(es[i].1);
      var valueOff := base + |tail|;
      tail := AddString(tail, vb, ps, 2 * i + 1);
      rows := rows + (Encode(keyOff, 4) + Encode(valueOff, 4) + Encode(|kb|, 2) + Encode(|vb|, 2));
    }
    assert ps[..2 * |es|] == ps;
    out := pl.locatorType + Zeros(2) + Encode(|es|, 2) + rows + tail;
  }

  method AddString(tail: Buffer, bytes: Buffer, ghost ps: seq<Buffer>, ghost k: nat) returns (r: Buffer)
    requires k < |ps| && bytes == ps[k] && tail == Joined(ps[..k])
    ensures r == Joined(ps[..k + 1])
  {
    JoinedIsAligned(ps[..k]);
    assert ps[..k + 1][..k] == ps[..k];
    r := PadTail(tail + bytes, tail, bytes);
  }
}
