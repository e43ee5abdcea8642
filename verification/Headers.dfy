/** The two headers: codec, choice of the active one, and update (header.rs). */
module Headers {
  import opened Wrappers
  import opened Bytes
  import opened Format
  import opened FileIo

  datatype Header = Header(
    signatureOk: bool,
    checksumOk: bool,
    checksum: Word32,
    sequenceNumber: Word64,
    fileWriteGuid: Guid,
    dataWriteGuid: Guid,
    logGuid: Guid,
    logVersion: Word16,
    version: Word16,
    logLength: Word32,
    logOffset: Word64)
  {
    predicate IsValid() {
      signatureOk && checksumOk && version == 1 && logVersion == 0
    }
  }

  const BLANK := Header(false, false, 0, 0, NIL, NIL, NIL, 0, 0, 0, 0)

  function ParseHeader(buf: Buffer): Header {
    if |buf| < HEADER_FIXED_SIZE then BLANK
    else if Slice(buf, 0, 4) != HEADER_SIGNATURE then BLANK
    else
      Header(
        true,
        CrcWithZeroedField(Slice(buf, 0, HEADER_FIXED_SIZE), 4) == U32At(buf, 4),
        U32At(buf, 4),
        U64At(buf, 8),
        GuidAt(buf, 16),
        GuidAt(buf, 32),
        GuidAt(buf, 48),
        U16At(buf, 64),
        U16At(buf, 66),
        U32At(buf, 68),
        U64At(buf, 72))
  }

  /** The fields in the order they are stored, all but the checksum. */
  function Fields(h: Header): seq<Write> {
    [ Write(0, HEADER_SIGNATURE),
      Write(8, Encode(h.sequenceNumber, 8)),
      Write(16, h.fileWriteGuid),
      Write(32, h.dataWriteGuid),
      Write(48, h.logGuid),
      Write(64, Encode(h.logVersion, 2)),
      Write(66, Encode(h.version, 2)),
      Write(68, Encode(h.logLength, 4)),
      Write(72, Encode(h.logOffset, 8)) ]
  }

  function Body(h: Header): (b: Buffer)
    ensures |b| == HEADER_SIZE
  {
    BodyLength(h);
    Apply(Zeros(HEADER_SIZE), Fields(h))
  }

  lemma BodyLength(h: Header)
    ensures |Apply(Zeros(HEADER_SIZE), Fields(h))| == HEADER_SIZE
  {
    ApplyLength(Zeros(HEADER_SIZE), Fields(h));
    FittingExtent(HEADER_SIZE, Fields(h));
  }

  lemma {:induction false} FittingExtent(n: nat, ws: seq<Write>)
    requires forall k :: 0 <= k < |ws| ==> ws[k].End() <= n
    ensures Extent(n, ws) == n
  {
    if ws != [] {
      FittingExtent(n, ws[..|ws| - 1]);
    }
  }

  function Stamp(h: Header): Word32 {
    CRC32C(Slice(Body(h), 0, HEADER_FIXED_SIZE))
  }

  function EncodeHeader(h: Header): (b: Buffer)
    ensures |b| == HEADER_SIZE
  {
    Written(Body(h), 4, Encode(Stamp(h), 4))
  }

  lemma FieldReads(h: Header, k: nat)
    requires k < 9
    ensures Fields(h)[k].End() <= HEADER_FIXED_SIZE
    ensures Slice(EncodeHeader(h), Fields(h)[k].off, |Fields(h)[k].bytes|) == Fields(h)[k].bytes
  {
    ApplyReads(Zeros(HEADER_SIZE), Fields(h), k);
    WrittenKeeps(Body(h), 4, Encode(Stamp(h), 4), Fields(h)[k].off, |Fields(h)[k].bytes|);
  }

  /** A header reads back as it was written, with its checksum right. */
  lemma HeaderRoundTrip(h: Header)
    ensures ParseHeader(EncodeHeader(h)) == h.(signatureOk := true, checksumOk := true, checksum := Stamp(h))
  {
    var b := EncodeHeader(h);
    forall k | 0 <= k < 9
      ensures Slice(b, Fields(h)[k].off, |Fields(h)[k].bytes|) == Fields(h)[k].bytes
    {
      FieldReads(h, k);
    }
    assert Slice(b, 0, 4) == Fields(h)[0].bytes;
    assert Slice(b, 8, 8) == Fields(h)[1].bytes;
    assert GuidAt(b, 16) == Fields(h)[2].bytes;
    assert GuidAt(b, 32) == Fields(h)[3].bytes;
    assert GuidAt(b, 48) == Fields(h)[4].bytes;
    assert Slice(b, 64, 2) == Fields(h)[5].bytes;
    assert Slice(b, 66, 2) == Fields(h)[6].bytes;
    assert Slice(b, 68, 4) == Fields(h)[7].bytes;
    assert Slice(b, 72, 8) == Fields(h)[8].bytes;
    assert Slice(b, 4, 4) == Encode(Stamp(h), 4);
    DecodedField(h.sequenceNumber, 8);
    DecodedField(h.logVersion, 2);
    DecodedField(h.version, 2);
    DecodedField(h.logLength, 4);
    DecodedField(h.logOffset, 8);
    DecodedField(Stamp(h), 4);
    ChecksumHolds(h);
  }

  lemma ChecksumHolds(h: Header)
    ensures CrcWithZeroedField(Slice(EncodeHeader(h), 0, HEADER_FIXED_SIZE), 4) == Stamp(h)
  {
    var fixed := Slice(Body(h), 0, HEADER_FIXED_SIZE);
    var stamp := Encode(Stamp(h), 4);
    ApplyKeeps(Zeros(HEADER_SIZE), Fields(h), 4, 4);
    assert Slice(fixed, 4, 4) == Slice(Body(h), 4, 4) == Zeros(4);
    StampedIsZeroedBack(fixed, 4, stamp);
    assert Slice(EncodeHeader(h), 0, HEADER_FIXED_SIZE) == Written(fixed, 4, stamp);
  }

  // ---- The pair ----

  datatype HeaderPair = HeaderPair(h0: Header, h1: Header, activeIndex: nat) {
    function Active(): Header {
      if activeIndex == 0 then h0 else h1
    }
  }

  function ReadPair(data: Buffer): Result<HeaderPair> {
    var raw0 :- ReadExact(data, HeaderOffset(0), HEADER_SIZE);
    var raw1 :- ReadExact(data, HeaderOffset(1), HEADER_SIZE);
    var h0 := ParseHeader(raw0);
    var h1 := ParseHeader(raw1);
    if h0.IsValid() && h1.IsValid() then
      Ok(HeaderPair(h0, h1, if h0.sequenceNumber >= h1.sequenceNumber then 0 else 1))
    else if h0.IsValid() then Ok(HeaderPair(h0, h1, 0))
    else if h1.IsValid() then Ok(HeaderPair(h0, h1, 1))
    else Err(NoValidHeader)
  }

  /** The slot an update overwrites: the older header, or the invalid one. */
  function TargetIndex(data: Buffer): (i: nat)
    ensures i < 2
  {
    match ReadPair(data)
    case Err(_) => 0
    case Ok(p) =>
      if p.h0.IsValid() && p.h1.IsValid() then
        if p.h0.sequenceNumber <= p.h1.sequenceNumber then 0 else 1
      else if p.h0.IsValid() then 1
      else 0
  }

  function Successor(current: Header, mutate: Header -> Header): Header {
    mutate(current).(sequenceNumber := (current.sequenceNumber + 1) % U64)
  }

  /** The file once a header is written over the older slot. */
  function Updated(data: Buffer, next: Header): Buffer {
    Written(data, HeaderOffset(TargetIndex(data)), EncodeHeader(next))
  }

  /** Writes `current`, changed by `mutate` and with the next sequence number, over the older header. */
  method WriteNew(file: File, current: Header, mutate: Header -> Header) returns (sequence: Word64)
    modifies file
    ensures file.data == Updated(old(file.data), Successor(current, mutate))
    ensures sequence == Successor(current, mutate).sequenceNumber
  {
    var h := Successor(current, mutate);
    var raw := EncodeHeader(h);
    var target := TargetIndex(file.data);
    file.WriteAllAt(HeaderOffset(target), raw);
    sequence := h.sequenceNumber;
  }

  // ---- Header slots as a state machine ----

  /** What a header says, apart from the flags and checksum that parsing fills in. */
  function Content(h: Header): Header {
    h.(signatureOk := true, checksumOk := true, checksum := 0)
  }

  /** The valid header in each slot. */
  datatype Slots = Slots(s0: Option<Header>, s1: Option<Header>) {
    function With(i: nat, h: Option<Header>): Slots {
      if i == 0 then Slots(h, s1) else Slots(s0, h)
    }

    function Active(): Option<Header> {
      if s0.None? then s1
      else if s1.None? || s0.value.sequenceNumber >= s1.value.sequenceNumber then s0
      else s1
    }

    function Target(): (i: nat)
      ensures i < 2
    {
      if s0.None? then 0
      else if s1.None? then 1
      else if s0.value.sequenceNumber <= s1.value.sequenceNumber then 0
      else 1
    }

    /** Two valid headers with one sequence number say the same. */
    predicate Coherent() {
      && Active().Some?
      && (s0.Some? && s1.Some? && s0.value.sequenceNumber == s1.value.sequenceNumber ==> s0 == s1)
    }
  }

  function SlotOf(data: Buffer, i: nat): Option<Header>
    requires i < 2 && HeaderOffset(1) + HEADER_SIZE <= |data|
  {
    var h := ParseHeader(Slice(data, HeaderOffset(i), HEADER_SIZE));
    if h.IsValid() then Some(Content(h)) else None
  }

  function SlotsOf(data: Buffer): Slots
    requires HeaderOffset(1) + HEADER_SIZE <= |data|
  {
    Slots(SlotOf(data, 0), SlotOf(data, 1))
  }

  /** The machine's active header and target slot are the ones the code computes from the bytes. */
  lemma SlotsAbstract(data: Buffer)
    requires HeaderOffset(1) + HEADER_SIZE <= |data|
    ensures ReadPair(data).Ok? <==> SlotsOf(data).Active().Some?
    ensures ReadPair(data).Ok? ==> SlotsOf(data).Active() == Some(Content(ReadPair(data).value.Active()))
    ensures TargetIndex(data) == SlotsOf(data).Target()
  {
  }

  /** Changing the bytes of one slot leaves the other slot alone. */
  lemma OtherSlotKept(data: Buffer, after: Buffer, i: nat)
    requires i < 2 && HeaderOffset(1) + HEADER_SIZE <= |data| && |after| == |data|
    requires forall j :: 0 <= j < |data| && !(HeaderOffset(i) <= j < HeaderOffset(i) + HEADER_SIZE) ==> after[j] == data[j]
    ensures SlotsOf(after) == SlotsOf(data).With(i, SlotOf(after, i))
  {
    var o := HeaderOffset(1 - i);
    assert Slice(after, o, HEADER_SIZE) == Slice(data, o, HEADER_SIZE);
  }

  /** A completed write of a valid header puts its content into the slot. */
  lemma SlotWritten(data: Buffer, i: nat, h: Header)
    requires i < 2 && HeaderOffset(1) + HEADER_SIZE <= |data|
    requires h.version == 1 && h.logVersion == 0
    ensures |Written(data, HeaderOffset(i), EncodeHeader(h))| == |data|
    ensures SlotsOf(Written(data, HeaderOffset(i), EncodeHeader(h))) == SlotsOf(data).With(i, Some(Content(h)))
  {
    var after := Written(data, HeaderOffset(i), EncodeHeader(h));
    WrittenReadsBack(data, HeaderOffset(i), EncodeHeader(h));
    HeaderRoundTrip(h);
    OtherSlotKept(data, after, i);
  }

  /** A completed update of the file is a completed update of the slots. */
  lemma UpdatedSlots(data: Buffer, next: Header)
    requires HeaderOffset(1) + HEADER_SIZE <= |data| && next.version == 1 && next.logVersion == 0
    ensures |Updated(data, next)| == |data|
    ensures SlotsOf(Updated(data, next)) == Update(SlotsOf(data), Content(next), Completed)
  {
    hide EncodeHeader, TargetIndex, SlotsOf;
    SlotsAbstract(data);
    SlotWritten(data, TargetIndex(data), next);
  }

  /** How one update of the header ends. A torn write leaves bytes that are no valid header. */
  datatype Ending = Completed | NeverStarted | Torn

  /** One update from the active header, ending in any of the three ways. */
  function Update(s: Slots, next: Header, ending: Ending): Slots {
    match ending
    case Completed => s.With(s.Target(), Some(next))
    case NeverStarted => s
    case Torn => s.With(s.Target(), None)
  }

  predicate Follows(s: Slots, next: Header) {
    s.Active().Some? && next.sequenceNumber == s.Active().value.sequenceNumber + 1
  }

  /** After an update, however it ends, the active header is the old one or the new one. */
  lemma UpdateIsAtomic(s: Slots, next: Header, ending: Ending)
    requires s.Coherent() && Follows(s, next)
    ensures Update(s, next, ending).Coherent()
    ensures Update(s, next, ending).Active() == if ending == Completed then Some(next) else s.Active()
  {
  }

  /** A torn update keeps the active header exactly when the slots are coherent before it. */
  lemma TornUpdateIsSafeIff(s: Slots, next: Header)
    requires Follows(s, next)
    ensures Update(s, next, Torn).Active() == s.Active() <==> s.Coherent()
  {
  }

  /** The slots after a run of updates. */
  function Run(s: Slots, updates: seq<(Header, Ending)>): Slots {
    if updates == [] then s
    else
      var last := updates[|updates| - 1];
      Update(Run(s, updates[..|updates| - 1]), last.0, last.1)
  }

  /** Each update of the run starts from the header that is then active. */
  predicate Updates(s: Slots, updates: seq<(Header, Ending)>) {
    updates == [] ||
    (Updates(s, updates[..|updates| - 1]) &&
     Follows(Run(s, updates[..|updates| - 1]), updates[|updates| - 1].0))
  }

  /** The header of the last completed update, or the one active at the start. */
  function LastCompleted(s: Slots, updates: seq<(Header, Ending)>): Option<Header> {
    if updates == [] then s.Active()
    else if updates[|updates| - 1].1 == Completed then Some(updates[|updates| - 1].0)
    else LastCompleted(s, updates[..|updates| - 1])
  }

  /** Over every run of completed, torn and lost updates some slot stays valid and the last completed header is active. */
  lemma {:induction false} EveryRunIsAtomic(s: Slots, updates: seq<(Header, Ending)>)
    requires s.Coherent() && Updates(s, updates)
    ensures Run(s, updates).Coherent()
    ensures Run(s, updates).Active() == LastCompleted(s, updates)
  {
    if updates != [] {
      var rest := updates[..|updates| - 1];
      var last := updates[|updates| - 1];
      EveryRunIsAtomic(s, rest);
      UpdateIsAtomic(Run(s, rest), last.0, last.1);
    }
  }

  // ---- The same, of files ----

  const SLOTS_END: nat := HeaderOffset(1) + HEADER_SIZE

  /**
   * What an update that is completed, cut short or lost may leave of a file: nothing changes outside the slot it
   * overwrites, and that slot holds the old header, the new one, or bytes that are no valid header.
   */
  ghost predicate MayLeave(data: Buffer, after: Buffer, next: Header) {
    && SLOTS_END <= |data| == |after|
    && var at := HeaderOffset(TargetIndex(data));
    && (forall j :: 0 <= j < |data| && !(at <= j < at + HEADER_SIZE) ==> after[j] == data[j])
    && SlotOf(after, TargetIndex(data)) in {None, SlotOf(data, TargetIndex(data)), Some(Content(next))}
  }

  function EndingOf(data: Buffer, after: Buffer, next: Header): Ending
    requires SLOTS_END <= |data| == |after|
  {
    var slot := SlotOf(after, TargetIndex(data));
    if slot == Some(Content(next)) then Completed
    else if slot == SlotOf(data, TargetIndex(data)) then NeverStarted
    else Torn
  }

  /** Whatever bytes such an update leaves, it is one of the machine's updates. */
  lemma BytesAreAnUpdate(data: Buffer, after: Buffer, next: Header)
    requires MayLeave(data, after, next)
    ensures SlotsOf(after) == Update(SlotsOf(data), Content(next), EndingOf(data, after, next))
  {
    hide SlotOf, TargetIndex, ParseHeader;
    TargetOf(data);
    OtherSlotKept(data, after, TargetIndex(data));
  }

  lemma TargetOf(data: Buffer)
    requires SLOTS_END <= |data|
    ensures TargetIndex(data) == SlotsOf(data).Target()
  {
    SlotsAbstract(data);
  }

  /** A completed write is such an outcome, and so is none at all. */
  lemma CompletedMayLeave(data: Buffer, next: Header)
    requires SLOTS_END <= |data| && next.version == 1 && next.logVersion == 0
    ensures MayLeave(data, Updated(data, next), next) && EndingOf(data, Updated(data, next), next) == Completed
    ensures MayLeave(data, data, next)
  {
    hide EncodeHeader, TargetIndex, SlotOf, ParseHeader;
    SlotWritten(data, TargetIndex(data), next);
  }

  /** Each file of the run is what an update of the one before, made from its active header, may leave. */
  ghost predicate FileRun(states: seq<Buffer>, nexts: seq<Header>) {
    && |states| == |nexts| + 1
    && (forall i :: 0 <= i < |states| ==> SLOTS_END <= |states[i]|)
    && (forall i :: 0 <= i < |nexts| ==>
          Follows(SlotsOf(states[i]), Content(nexts[i])) && MayLeave(states[i], states[i + 1], nexts[i]))
  }

  /** The last header of the run that was written whole, or the one active at the start. */
  function LastWritten(states: seq<Buffer>, nexts: seq<Header>): Option<Header>
    requires |states| == |nexts| + 1 && forall i :: 0 <= i < |states| ==> SLOTS_END <= |states[i]|
    requires forall i :: 0 <= i < |states| ==> |states[i]| == |states[0]|
  {
    var n := |nexts| - 1;
    if nexts == [] then SlotsOf(states[0]).Active()
    else if EndingOf(states[n], states[n + 1], nexts[n]) == Completed then Some(Content(nexts[n]))
    else LastWritten(states[..n + 1], nexts[..n])
  }

  lemma {:induction false} OneLength(states: seq<Buffer>, nexts: seq<Header>, i: nat)
    requires FileRun(states, nexts) && i < |states|
    ensures |states[i]| == |states[0]|
  {
    if i > 0 {
      OneLength(states, nexts, i - 1);
      assert MayLeave(states[i - 1], states[i - 1 + 1], nexts[i - 1]);
    }
  }

  /**
   * Over every run of updates of a file, completed, torn or lost, the file keeps a valid header, and the active one
   * is the last that was written whole.
   */
  lemma {:induction false} EveryFileRunIsAtomic(states: seq<Buffer>, nexts: seq<Header>)
    requires FileRun(states, nexts) && SlotsOf(states[0]).Coherent()
    ensures forall i :: 0 <= i < |states| ==> |states[i]| == |states[0]|
    ensures SlotsOf(states[|nexts|]).Coherent() && ReadPair(states[|nexts|]).Ok?
    ensures Some(Content(ReadPair(states[|nexts|]).value.Active())) == LastWritten(states, nexts)
  {
    hide SlotsOf, MayLeave, ReadPair, EndingOf;
    forall i | 0 <= i < |states|
      ensures |states[i]| == |states[0]|
    {
      OneLength(states, nexts, i);
    }
    if nexts != [] {
      var n := |nexts| - 1;
      EveryFileRunIsAtomic(states[..n + 1], nexts[..n]);
      SlotsAbstract(states[n]);
      BytesAreAnUpdate(states[n], states[n + 1], nexts[n]);
      UpdateIsAtomic(SlotsOf(states[n]), Content(nexts[n]), EndingOf(states[n], states[n + 1], nexts[n]));
    }
    SlotsAbstract(states[|nexts|]);
  }

  /** Two completed updates made from one stale header leave it in both slots, from every state. */
  lemma StaleDoubleWrite(s: Slots, next: Header)
    requires Follows(s, next)
    ensures Update(Update(s, next, Completed), next, Completed) == Slots(Some(next), Some(next))
  {
  }

  /**
   * Clearing the log after a header repair, with the header pair read before the repair: the cleared header
   * is active, but the other slot holds the uncleared one under the same sequence number. The next update
   * then overwrites the active slot, so if it is torn the uncleared header comes back.
   */
  lemma StaleClearLeavesUnsafeSlots(s: Slots, repaired: Header, cleared: Header, next: Header)
    requires Follows(s, repaired) && Follows(s, cleared) && repaired != cleared
    requires next.sequenceNumber == cleared.sequenceNumber + 1
    ensures
      var both := Update(Update(s, repaired, Completed), repaired, Completed);
      var after := Update(both, cleared, Completed);
      && after.Active() == Some(cleared)
      && !after.Coherent()
      && Update(after, next, Torn).Active() == Some(repaired)
  {
    StaleDoubleWrite(s, repaired);
  }
}
