# starweld-core: a verified model

starweld-core reads, writes, flattens, merges, compacts and repairs VHDX images and their differencing chains. This
project models that engine on the bytes of its files and proves that its parts agree on one thing: the sector the
guest sees at each virtual offset.

The lowest layer is stated on bytes: which bytes make a header, a region table, a metadata item, a table entry, a log entry
or a bitmap bit (`HeaderBytes`, `MetadataBytes`, `DiskBytes`, `LogBytes`, `FsckBytes`), apart from the functions that read
them.

A `File` is a growable sequence of bytes with positional reads, writes and set-length. What a file means is defined by
functions on its bytes (`OpenDisk`, `ReadBlock`, `ReadPair`, `Walk`); the loops that update buffers, tables and files
are methods proved against those functions. A sector of one link is present, missing or broken, and a sector of a
chain is the first link's, leaf first, that has it (`ChainView`). On that view rest the main results:

- **Flattening** (`Composite`, `Flatten`). The block composer works with per-link block sizes, sector bitmaps, skips and
  early exits; its result is the chain's answer for every sector, and the flattened image shows the chain exactly.
- **Two writers** (`Writer`, `ZstWriter`, `FlattenZst`). The seekable writer, with its table before the payload, and the
  streaming one, with its table after it, give images the guest cannot tell apart.
- **Merging in place** (`Placement`, `MergeBlocks`, `Merge`, `MergeView`, `MergeCrash`). The merge keeps the chain's view
  exactly when the sectors it exposes were zero. A merge that stops in its block loop leaves the view as it was; one that
  stops in its table or header writes leaves an image that opens and keeps the view under that same condition.
- **Compacting** (`Compact`). It keeps the view exactly when no block hides data behind clear bitmap bits.
- **The log** (`Log`). The scan finds the first of the longest runs in the ring; replay converges over every run of
  interrupted replays.
- **The two headers** (`Headers`) as a state machine over complete, lost and torn updates.
- **Checking and repairing** (`TableCheck`, `Fsck`, `FsckRuns`). A second repair changes nothing.
- **Finding a chain** (`Chains`), and the **codecs** under all this: headers, region tables, metadata, parent locators
  and the block allocation table, whose payload and bitmap entries interleave.

Six promises do not hold of the code as it stands; the model follows the code and states exactly when they do hold.

1. Repairing headers and clearing the log in one run leaves two different valid headers under one sequence number. The
   next update overwrites the active one, so if it is torn the uncleared log comes back. Repairing again does not help:
   it finds nothing to do (`FsckRuns.SafeAfterRunIff`, `FsckRuns.RepairAgainDoesNotMend`; run on an image in
   `FailingRepair.RepairLeavesUnsafeHeaders`).
2. Compacting copies the payload of a partially present block without its bitmap, so masked bytes surface
   (`Compact.RepackedShows`; `FailingImages.CompactShowsMaskedData`). Images of one chunk are never affected
   (`Compact.OneChunkIsUnmasked`).
3. Merging a partially present block over a block that is not fully present fills the sectors it lacks with zeros and
   hides what lay there or below (`MergeView.MergeKeepsEveryViewIff`; `FailingImages.MergeHidesWhatLiesBelow`). A merge
   that stops in its commit shows the same through the child (`MergeCrash.CommitKeepsEveryViewIff`).
4. In a fixed image, data for a block that was marked zero goes to offset 0 (`Writer.VhdxWriter.WriteBlock`;
   `FailingImages.FixedImageDestroyed`).
5. The table check adds offset and block size in 64 bits, so a present block whose end reaches 2^64 can pass as one inside
   the file. A clean report means what it says exactly when no entry has such an end (`TableCheck.AllSoundIff`,
   `TableCheck.CleanTableReadsIff`; run on an image in `FailingRepair.CleanReportUnreadable`).
6. The layout check adds offset and length in the same way and accepts overlapping regions that reach 2^64; a caller can
   tell by whether another region reaches past the start of one that does (`Regions.DisjointIff`,
   `Regions.SameRegionTwiceAccepted`).

Sums that wrap do so in a release build, which the model follows; a build with overflow checks panics there instead.

Where comments and code differ, the model follows the code. `parse_entry` is documented to validate the checksum of a
log entry but computes it only. `write_new` is documented to make the header just written the active one, which holds
only when it is written from the header that is active at that moment. The head of `log.rs` says that the newest valid
sequence is replayed, while `scan_log` takes the first of the longest, which may be older (`Log.ScanTakesNewestIff`,
`Log.OlderRunWins`).

## Model

| member | source | states |
|---|---|---|
| FileIo.File.ReadAt | crates/starweld-core/src/io_util.rs:25-35 | a read into a zeroed buffer that may come up short: bytes past the end of the file are zero |
| FileIo.File.ZeroRange | crates/starweld-core/src/io_util.rs:54-65 | zeroing in 64 KiB chunks is one write of that many zeros |
| FileIo.LastWriteWins | crates/starweld-core/src/io_util.rs:17-21 | of ordered, possibly overlapping writes, each byte shows the last that covers it, or the original |
| Format.LittleEndian | crates/starweld-core/src/header.rs:63-72 | fields of two, four and eight bytes are little-endian, byte by byte |
| Headers.HeaderRoundTrip | crates/starweld-core/src/header.rs:44-101 | a header reads back field by field as it was encoded, with signature and checksum right |
| Headers.WriteNew | crates/starweld-core/src/header.rs:147-179 | the mutated header with the next sequence number goes over the older slot (the invalid one, if one is), and nothing else changes |
| Headers.SlotsAbstract | crates/starweld-core/src/header.rs:113-143 | the active header and the slot an update overwrites, as the code computes them from the bytes, are those of the two-slot machine |
| Headers.UpdatedSlots | crates/starweld-core/src/header.rs:147-179 | writing a header into the file is a completed update of the machine, and the other slot keeps its content |
| Headers.UpdateIsAtomic | crates/starweld-core/src/header.rs:121-179 | after an update that completes, never starts or is torn, the active header is the new one, or still the old one |
| Headers.EveryRunIsAtomic | crates/starweld-core/src/header.rs:147-179 | over every run of such updates a slot stays valid and the active header is the one last completed |
| Headers.BytesAreAnUpdate | crates/starweld-core/src/header.rs:147-179 | whatever bytes an update leaves of a file, if only its slot changed and that holds the old header, the new one or no valid one, it is one of the machine's updates |
| Headers.CompletedMayLeave | crates/starweld-core/src/header.rs:147-179 | a completed update, and none at all, are among the outcomes an update may leave |
| Headers.EveryFileRunIsAtomic | crates/starweld-core/src/header.rs:113-179 | the same of files: over every run of such updates the file keeps a valid header, and the active one is the last written whole |
| Headers.TornUpdateIsSafeIff | crates/starweld-core/src/header.rs:121-179 | a torn update keeps the active header exactly when valid headers with one sequence number are equal |
| Headers.StaleDoubleWrite | crates/starweld-core/src/merge.rs:336-345 | two completed updates from one stale header leave it in both slots, from every state |
| Headers.StaleClearLeavesUnsafeSlots | crates/starweld-core/src/repair.rs:113-119 | clearing the log from the stale pair after a header repair leaves two different headers under one sequence number, and a torn update then revives the uncleared one |
| HeaderBytes.HeaderPairIff | crates/starweld-core/src/header.rs:44-132 | the pair is read if and only if both slots are in the file and one is good, in bytes: signature, checksum over 4096 bytes with its field zeroed, version 1, log version 0; the active header is the good one, or of two the one with the larger number at byte 8, the first on a tie, and each of its fields stands where it should |
| HeaderBytes.UpdatedBytes | crates/starweld-core/src/header.rs:147-179 | an update leaves a good header with the given fields in the slot that is not good or older, and no other byte changed |
| Sorting.SortIsStable | crates/starweld-core/src/region.rs:85-92 | the sort used for intervals and log entries orders, permutes and is stable |
| Regions.RegionsRoundTrip | crates/starweld-core/src/region.rs:34-132 | a region table of up to 2047 entries reads back as encoded, with its checksum right |
| Regions.EncodeRegionTable | crates/starweld-core/src/region.rs:117-132 | the table built in place, field by field, is the encoding |
| Regions.ParseRegionTable | crates/starweld-core/src/region.rs:34-71 | the entry loop reads what the encoding is defined to hold, and rejects the rest |
| Regions.NeighboursSuffice | crates/starweld-core/src/region.rs:85-115 | in sorted order, an end computed in 64 bits that is no later than the next start is no later than any later start |
| Regions.ValidateLayout | crates/starweld-core/src/region.rs:85-115 | accepted if and only if all regions are MiB-aligned and, of every two, the end of the first, computed in 64 bits, is no later than the start of the second, for any number of entries in any order |
| Regions.DisjointIff | crates/starweld-core/src/region.rs:85-115 | regions are pairwise disjoint and aligned if and only if they are accepted and no other reaches past the start of one whose end reaches 2^64 |
| Regions.BoundedLayoutIff | crates/starweld-core/src/region.rs:85-115 | while no end reaches 2^64, accepted if and only if pairwise disjoint and aligned |
| Regions.SameRegionTwiceAccepted | crates/starweld-core/src/region.rs:85-115 | the last MiB below 2^64, listed twice: accepted and not disjoint |
| Regions.BothTablesRead | crates/starweld-core/src/region.rs:142-176 | after both copies are rewritten both are intact and say the same |
| HeaderBytes.RegionPairIff | crates/starweld-core/src/region.rs:34-163 | the tables are read if and only if both are in the file and one is good, in bytes: signature, at most 2047 entries, checksum over 64 KiB with its field zeroed; which copies are intact, and the first intact one entry by entry |
| HeaderBytes.FindIsFirst | crates/starweld-core/src/region.rs:73-83 | a region is the first entry with its GUID |
| BlockTable.EntryUnpacks | crates/starweld-core/src/bat.rs:23-35 | a 3-bit state and a MiB-aligned offset survive packing |
| DiskBytes.EntryBits | crates/starweld-core/src/bat.rs:23-35 | of an entry's eight bytes the three lowest bits are the state, and the offset is the largest whole MiB not above their value |
| BlockTable.EntryKeepsOffsetIff | crates/starweld-core/src/bat.rs:23-35 | an entry holds a slot's offset if and only if the slot starts at a whole MiB |
| BlockTable.PayloadIndexIncreases | crates/starweld-core/src/bat.rs:103-111 | block order is entry order |
| BlockTable.PayloadIsNeverBitmap | crates/starweld-core/src/bat.rs:103-116 | no block's entry is a bitmap's entry |
| BlockTable.EveryBlockHasEntry | crates/starweld-core/src/bat.rs:118-132 | every block's entry, and for differencing files every chunk's bitmap entry, is below the total |
| BlockTable.IndicesPartition | crates/starweld-core/src/bat.rs:103-116 | every index is the entry of a block or of a bitmap, and never both |
| Bounds.EntriesFit | crates/starweld-core/src/bat.rs:118-132 | the number of table entries fits in 64 bits for every block size of at least two bytes |
| BlockTable.TableIsFull | crates/starweld-core/src/bat.rs:118-132 | a differencing table has no entry beyond the chunks of its blocks |
| DiskBytes.BlocksAreLeast | crates/starweld-core/src/metadata.rs:132-135 | the blocks are as many as the virtual size needs and no more |
| DiskBytes.ChunkIsMost | crates/starweld-core/src/metadata.rs:138-140 | a chunk is as many whole blocks as 2^23 sectors hold |
| DiskBytes.TotalIsLeast | crates/starweld-core/src/bat.rs:118-132 | the number of entries is the least that has every block's, and for differencing files every chunk's bitmap entry |
| BlockTable.TableRoundTrip | crates/starweld-core/src/bat.rs:50-100 | a table with the entries its geometry asks for reads back as encoded, whatever follows it in its region |
| BlockTable.SetOneEntry | crates/starweld-core/src/bat.rs:71-79 | setting one block's entry changes no other block's and no bitmap entry |
| BlockTable.Bat.Parse | crates/starweld-core/src/bat.rs:50-64 | the parse loop takes as many entries as geometry and buffer allow |
| BlockTable.Bat.EncodeTable | crates/starweld-core/src/bat.rs:93-100 | the encode loop writes every entry in place |
| ParentLocators.Utf16RoundTrip | crates/starweld-core/src/parent_locator.rs:131-158 | every string survives UTF-16, surrogate pairs included |
| ParentLocators.LocatorRoundTripIff | crates/starweld-core/src/parent_locator.rs:21-84 | below 4 GiB a locator reads back if and only if it has fewer than 2^16 entries and each string fewer than 2^16 bytes, the lengths being narrowed unchecked |
| ParentLocators.ParseParentLocator | crates/starweld-core/src/parent_locator.rs:21-46 | the parse loop, with its error cases |
| ParentLocators.EncodeParentLocator | crates/starweld-core/src/parent_locator.rs:48-84 | the encoder that appends strings and patches rows gives the encoding |
| MetadataRegion.MetadataRoundTrip | crates/starweld-core/src/metadata.rs:52-235 | metadata with any locator and any opaque extra items reads back whole |
| MetadataRegion.ItemDataApart | crates/starweld-core/src/metadata.rs:142-235 | item data areas never overlap one another or the entry table, and end inside the region |
| MetadataRegion.Parse | crates/starweld-core/src/metadata.rs:52-124 | the parse loop, with rows outside the region skipped and missing items reported |
| MetadataRegion.EncodeRegion | crates/starweld-core/src/metadata.rs:142-235 | the in-place encoder that advances the data offset gives the encoding |
| MetadataBytes.RegionIff | crates/starweld-core/src/metadata.rs:52-124 | a region is read if and only if it has its signature, every locator in it can be read and none of the five known items is missing; each known item is read from the last row that names it, field by field |
| MetadataBytes.OpaqueRow | crates/starweld-core/src/metadata.rs:72-108 | any other row inside the region is kept whole, with the three lowest bits of its flags |
| MetadataBytes.EncodedRows | crates/starweld-core/src/metadata.rs:142-235 | the encoder writes the known items in order with their flags, the locator behind them, and item data at multiples of 8 from 64 KiB on |
| MetadataBytes.LocatorStands | crates/starweld-core/src/parent_locator.rs:21-46 | each entry of a locator is read from the offsets and lengths of its row, as many as are stated or fit |
| MetadataBytes.SurrogatePairs | crates/starweld-core/src/parent_locator.rs:150-158 | characters beyond 16 bits are stored as high and low surrogate |
| Disks.OpenFile | crates/starweld-core/src/disk.rs:29-84 | opening, with the order of its checks and errors |
| Disks.ReadBlockFrom | crates/starweld-core/src/disk.rs:109-153 | what a block reads as, per state, with the error cases |
| Disks.ReadBitmapFrom | crates/starweld-core/src/disk.rs:157-185 | a block's part of its chunk's bitmap; sub-byte alignment is refused |
| Disks.SliceInsideBitmap | crates/starweld-core/src/disk.rs:157-185 | each block's part is byte-aligned and inside the 1 MiB bitmap (section 2.4.2 of MS-VHDX) |
| Disks.SlicesTile | crates/starweld-core/src/disk.rs:157-185 | each bitmap byte belongs to the part of exactly one block of the chunk |
| Disks.SliceBitIsChunkBit | crates/starweld-core/src/disk.rs:157-211 | testing a bit of the part tests the chunk's bit for that virtual sector |
| DiskBytes.OpensIff | crates/starweld-core/src/disk.rs:29-84 | an image opens if and only if its header section is in order and its regions can be read, and for writing its log GUID is nil; a dirty image is refused for writing with its own error |
| DiskBytes.RefusedIff | crates/starweld-core/src/disk.rs:29-84 | otherwise the first reason in the code's order is the error |
| DiskBytes.TablesIff | crates/starweld-core/src/disk.rs:39-60 | both regions must be listed and in the file; metadata and table are read from their bytes, entry by entry |
| DiskBytes.BlockBytes | crates/starweld-core/src/disk.rs:109-150 | what a block reads as by the state in its entry: the file's bytes at its offset, zeros, nothing or an error |
| DiskBytes.PartialBytes | crates/starweld-core/src/disk.rs:125-185 | when a partially present block reads; its payload is the file's bytes at its entry's offset, and bit i of its bitmap is the file's bit of that sector, counted from the chunk's bitmap offset, low bit first |
| DiskBytes.PartialBits | crates/starweld-core/src/disk.rs:157-211 | where bitmaps are filled exactly that bit is the one of the virtual sector modulo 2^23 |
| DiskBytes.SectorBytes | crates/starweld-core/src/disk.rs:109-211 | the guest's view of a link, sector by sector, is the one read off the file's bytes through the entry of the block and its bit of the bitmap |
| ChainView.LeafFirst | crates/starweld-core/src/flatten.rs:463-490 | a chain's sector is the first link's, and the rest's where the first has none |
| ChainView.DeeperLinksDoNotMatter | crates/starweld-core/src/flatten.rs:474-487 | once a link has the sector, the links below it change nothing |
| Composite.OverlapInSectors | crates/starweld-core/src/flatten.rs:389-420 | the byte arithmetic of the overlap is the overlap of the sector ranges, for different block sizes |
| Composite.BlocksVisited | crates/starweld-core/src/flatten.rs:389-400 | the link blocks visited are those that hold the leaf block's first to last sector |
| Composite.FillFromLink | crates/starweld-core/src/flatten.rs:373-454 | fills exactly the unfilled sectors the link has, leaves filled ones alone, and fails only on an unfilled sector whose link block cannot be read |
| Composite.ComposeLinks | crates/starweld-core/src/flatten.rs:463-490 | stopping when all sectors are filled gives what visiting every link would give |
| Bounds.ComposerSumsFit | crates/starweld-core/src/flatten.rs:373-410 | of a leaf that can be flattened, no sum of a virtual offset and a block size wraps |
| Composite.MergeBlock | crates/starweld-core/src/flatten.rs:463-490 | succeeds exactly when every sector can be read, and each sector is then the first link's that has it, else zeros |
| Images.RegionListValid | crates/starweld-core/src/writer.rs:157-173 | the region table of either writer passes the layout check for all parameters, and its regions are disjoint |
| Images.FramedOpens | crates/starweld-core/src/writer.rs:93-246 | an image with the writers' frame opens clean and as what it was made: every parameter, both GUIDs, and an empty log with an area of its own between header section and regions |
| Writer.LayoutOrder | crates/starweld-core/src/writer.rs:102-113 | log, metadata, table and payload follow one another without overlap and in range |
| Writer.VhdxWriter.constructor | crates/starweld-core/src/writer.rs:93-246 | an empty image with its frame in place; a fixed one gives each block its slot |
| Writer.VhdxWriter.WritePayloadBuf | crates/starweld-core/src/writer.rs:290-310 | the file is the same for every chunk size |
| Writer.VhdxWriter.WriteBlock | crates/starweld-core/src/writer.rs:255-282 | records the block; the writer still holds what was recorded if and only if the block is zeroed, the image is dynamic, or the block still has its slot; otherwise the data lands at offset 0 |
| Writer.VhdxWriter.MarkNotPresent | crates/starweld-core/src/writer.rs:359-364 | the block reads as absent and no other block changes |
| Writer.VhdxWriter.Finish | crates/starweld-core/src/writer.rs:366-382 | after any sequence of calls the image opens as what it was made and each block reads as last recorded, in disjoint MiB-aligned slots above the regions |
| Writer.SlotsNeedWholeMiBs | crates/starweld-core/src/writer.rs:262-282 | slots handed out in order are where their entries say, all of them, if and only if there is at most one or blocks are whole MiBs |
| FailingImages.DataAfterZero | crates/starweld-core/src/writer.rs:255-282 | a fixed image of any size, a block marked zero and then written: the identifier, headers and region tables of the file are those the data holds |
| FailingImages.FixedImageDestroyed | crates/starweld-core/src/writer.rs:255-282 | a one-block fixed image, marked zero and then written with zeros, no longer opens |
| Flatten.BlocksShowChain | crates/starweld-core/src/flatten.rs:302-356 | an image whose blocks are the chain's composites shows the guest the chain's sectors |
| Flatten.ZeroBlockIs | crates/starweld-core/src/flatten.rs:302-356 | recording an all-zero composite as a zero block changes nothing the guest reads |
| Flatten.FlattenChain | crates/starweld-core/src/flatten.rs:205-370 | succeeds exactly when sizes match and every sector can be read; the image then shows the chain sector by sector, in either subformat; the blocks elided are exactly those the guest reads as zeros, if elision is asked for and the file is dynamic, and the file is exactly as long as the blocks written need |
| Flatten.FlatSays | crates/starweld-core/src/flatten.rs:245-256 | a flat image has the leaf's sizes and page 83 identifier, no parent and no opaque items, the GUIDs it was given and an empty log of 1 MiB |
| ZstWriter.LayoutFits | crates/starweld-core/src/zst_writer.rs:68-93 | log, metadata, payload and table follow one another, each MiB-aligned, and the blocks fill the gap before the table exactly |
| ZstWriter.BuildBat | crates/starweld-core/src/zst_writer.rs:310-340 | zero blocks get no slot, the others consecutive ones in block order |
| ZstWriter.ZstStreamWriter.Begin | crates/starweld-core/src/zst_writer.rs:121-218 | emits everything up to the payload; the cursor then stands at the payload's start |
| ZstWriter.ZstStreamWriter.WritePayloadBlock | crates/starweld-core/src/zst_writer.rs:221-236 | the k-th block is emitted when the cursor stands at the k-th slot; one block too many is refused |
| ZstWriter.ZstStreamWriter.EmitZeros | crates/starweld-core/src/zst_writer.rs:273-286 | zeros in chunks of 64 KiB |
| ZstWriter.ZstStreamWriter.Finish | crates/starweld-core/src/zst_writer.rs:238-255 | refuses a wrong block count; otherwise the stream is the finished image and the cursor is at the planned size |
| ZstWriter.StreamReads | crates/starweld-core/src/zst_writer.rs:121-255 | the stream is exactly as long as planned and reads back, block by block, as emitted |
| FlattenZst.AnalyzeZeroBlocks | crates/starweld-core/src/flatten.rs:501-540 | a block is marked zero exactly when everything the guest reads of it is zero |
| FlattenZst.FlattenToZst | crates/starweld-core/src/flatten.rs:567-810 | succeeds on the chains the seekable flatten succeeds on, unless a fixed or NTFS-compressed output is asked for; the stream shows the same chain, the blocks left out are exactly those the guest reads as zeros, and it is as long as the layout planned; a failure emits nothing |
| FlattenZst.TwoWritersAgree | crates/starweld-core/src/flatten.rs:567-810 | the streamed and the seekable image of one chain give the guest the same answer for every sector |
| Compact.IsAllZeroAligned | crates/starweld-core/src/compact.rs:153-170 | with any positive granularity: all bytes are zero; with 0: never |
| Compact.RepackedShows | crates/starweld-core/src/compact.rs:106-126 | the repacked image shows the disk if and only if no payload byte lies in a sector whose bitmap bit is clear |
| Compact.FinishedIsUnmasked | crates/starweld-core/src/writer.rs:366-382 | an image either writer finished has no partial block, so compacting it always keeps the view |
| Compact.OneChunkIsUnmasked | crates/starweld-core/src/bat.rs:118-132 | a standalone image of one chunk has no bitmap entry and so masks nothing: compacting it always keeps the view |
| FailingImages.CompactShowsMaskedData | crates/starweld-core/src/compact.rs:106-126 | an image that opens, with 4097 blocks of 1 MiB, on which compacting succeeds and shows another disk |
| Compact.CompactImage | crates/starweld-core/src/compact.rs:46-150 | differencing disks are refused; otherwise it succeeds exactly when all blocks read; the blocks elided are those absent, and with a granularity those all zero, and the length is payload start plus the blocks written |
| Placement.StoredInFreeSlot | crates/starweld-core/src/merge.rs:241-255 | storing a block in its own slot or at the end leaves every other slot, region and bitmap byte alone, and no slots overlap |
| Merge.ChooseSlot | crates/starweld-core/src/merge.rs:241-252 | a fully present block keeps its slot, any other gets one at the end of the file |
| Merge.OverlaySectors | crates/starweld-core/src/merge.rs:273-295 | the child's sectors over the parent's block, and their number |
| Merge.MergeOne | crates/starweld-core/src/merge.rs:234-300 | one merged block: every invariant of the merge is kept, in the new table and through the old one, and however the write is torn the merge has only stopped |
| MergeBlocks.HalfMergedIsHalted | crates/starweld-core/src/merge.rs:234-300 | a merge that stops between blocks has only stopped: the same of the state a read failure leaves |
| MergeBlocks.TornStoreIsHalted | crates/starweld-core/src/merge.rs:253-296 | a block write cut short, each byte of its range old or new, leaves every sector the child lacks, every other block and all regions as they were |
| Merge.MergeBlocksOf | crates/starweld-core/src/merge.rs:234-300 | the whole block loop, its counters, and what a failure halfway leaves |
| Merge.Commit | crates/starweld-core/src/merge.rs:321-345 | the table is written back over its whole region and the new identity twice from the stale header |
| Merge.CommitDone | crates/starweld-core/src/merge.rs:321-345 | the committed file opens clean with both headers new, and holds the child's blocks over the parent's |
| Merge.MergeInto | crates/starweld-core/src/merge.rs:96-345 | succeeds exactly when identities and geometry fit and all child blocks read, and the file is then the commit of a parent that has every block of the child; otherwise the parent is untouched or half merged, and a refusal names the first reason and changes nothing |
| Merge.NewIdentityWritten | crates/starweld-core/src/merge.rs:331-345 | both slots then hold, in bytes, the old active header with the new DataWriteGuid and FileWriteGuid, a nil log GUID and the next sequence number, every other field as it was |
| Merge.SiblingRefused | crates/starweld-core/src/merge.rs:123-133 | with a new DataWriteGuid, no other child that states the old one can be merged into the parent any more |
| Siblings.SiblingHasNoChain | crates/starweld-core/src/chain.rs:96-115 | nor has it a chain over the merged parent |
| Merge.CopiedCounts | crates/starweld-core/src/merge.rs:255-298 | the report counts the blocks the child has and the set bits of its partial blocks |
| Merge.FinishedIsMergeable | crates/starweld-core/src/merge.rs:173-232 | every image the seekable writer finishes meets the preconditions of a merge |
| Merge.HalfMergedOpens | crates/starweld-core/src/merge.rs:234-300 | a parent left half merged opens with the same headers, regions, metadata and table |
| MergeView.MergedSector | crates/starweld-core/src/merge.rs:234-300 | a sector of the merged parent is the child's, else the parent's, else zeros where a partial block went over one not fully present |
| MergeView.MergeKeepsViewIff | crates/starweld-core/src/merge.rs:258-300 | over a given rest of the chain the view is kept if and only if each such exposed sector read zero before |
| MergeView.MergeKeepsEveryViewIff | crates/starweld-core/src/merge.rs:258-300 | over every rest of the chain the view is kept if and only if the parent itself has zeros in each exposed sector |
| MergeView.PartialOverFullIsSafe | crates/starweld-core/src/merge.rs:258-300 | partial child blocks over fully present or zero blocks only: the view is kept, whatever lies below |
| MergeView.PartialOverBaseIsSafe | crates/starweld-core/src/merge.rs:258-300 | the parent is the base and partial child blocks lie over no partial or unknown block: the view is kept |
| MergeView.HaltedKeepsView | crates/starweld-core/src/merge.rs:234-300 | wherever a merge stops before its table is written, between blocks or inside the write of one, every sector reads through the child as before |
| MergeCrash.TornTableIsMixed | crates/starweld-core/src/merge.rs:321-329 | however the table write is cut short, if each 8-byte entry is the old or the new one then so is each entry parsed |
| MergeCrash.StoppedCommitOpens | crates/starweld-core/src/merge.rs:321-345 | wherever the commit stops, in the table write or in either header write, the parent opens with its regions and metadata, each entry old or new, and of coherent headers the old or the new one active |
| MergeCrash.MergedInHeaderWrites | crates/starweld-core/src/merge.rs:331-345 | wherever a header write stops, torn or not, the parent alone is already the merged one |
| MergeCrash.CommittingViewIff | crates/starweld-core/src/merge.rs:321-345 | for every mix of old and new entries the guest reads the same through the child if and only if the sectors exposed by the new entries read zero before |
| MergeCrash.CommitKeepsViewIff | crates/starweld-core/src/merge.rs:321-345 | over a given rest of the chain no stop in the commit changes the view through the child if and only if every exposed sector read zero before |
| MergeCrash.CommitKeepsEveryViewIff | crates/starweld-core/src/merge.rs:321-345 | over every rest of the chain that is so if and only if the parent has zeros in every exposed sector |
| FailingImages.MergeHidesWhatLiesBelow | crates/starweld-core/src/merge.rs:258-345 | a child and a parent on which the merge succeeds and does not keep every view, nor would it had it stopped in its commit |
| MergeView.FlattenAfterMerge | crates/starweld-core/src/merge.rs:258-300 | under that condition an image is a flat image of the merged chain if and only if it is one of the chain before the merge |
| Log.ParseEntry | crates/starweld-core/src/log.rs:164-276 | the descriptor and sector loops, with every reason to refuse an entry; the checksum is not enforced |
| Log.AcceptedEntry | crates/starweld-core/src/log.rs:199-267 | data indices number the data descriptors from 0 with one sector each, behind the descriptors and inside the entry |
| LogBytes.EntryIff | crates/starweld-core/src/log.rs:164-276 | a buffer is accepted, and with what content, if and only if its bytes say so: header fields, descriptor fields and data sectors by position, sequence number echoed in each, data descriptors numbered as they come |
| Log.Linearise | crates/starweld-core/src/log.rs:99-108 | byte j of an entry is ring byte (cursor + j) modulo the ring's length, wrapped or not |
| Log.WalkRing | crates/starweld-core/src/log.rs:82-113 | the walk ends, and panics only on a stated length beyond the rest of the ring and one more round |
| Log.WalkFinds | crates/starweld-core/src/log.rs:82-113 | the entries found stand one behind the other and are what the ring holds there |
| LogBytes.WalkPanicsIff | crates/starweld-core/src/log.rs:82-113 | the walk panics if and only if a stated length leads past twice the ring |
| LogBytes.WalkFindsAll | crates/starweld-core/src/log.rs:82-113 | the entries found are those that stand at the ring's positions, all of them and nothing else: from 0 on by the stated length where an entry header with a usable length stands, by one sector elsewhere |
| LogBytes.ScanFindsAll | crates/starweld-core/src/log.rs:66-160 | a scan chooses among exactly those entries, and finds nothing to replay if and only if no entry stands at any position |
| Log.SortedEntries | crates/starweld-core/src/log.rs:128-131 | the entries chosen among are the ring's, in order of sequence number |
| Log.FindLongestRun | crates/starweld-core/src/log.rs:132-147 | a run of consecutive sequence numbers than which no other is longer, and the first of that length |
| Log.ScanLog | crates/starweld-core/src/log.rs:66-160 | what a scan returns, with its errors; every entry it returns can be replayed without a missing sector |
| Log.ScanTakesNewestIff | crates/starweld-core/src/log.rs:125-152 | the run taken reaches the highest sequence number if and only if the run leading up to that number is longer than every run before it |
| Log.OlderRunWins | crates/starweld-core/src/log.rs:132-147 | numbers 1, 2 and 9: the entries 1 and 2 are taken and 9 is not |
| Log.ScanIsDetermined | crates/starweld-core/src/log.rs:66-160 | a scan depends on nothing but the log's bytes and the header's log fields |
| Log.ApplyReplay | crates/starweld-core/src/log.rs:281-326 | the file is extended if too short, then all descriptors are applied in order; the missing-sector error does not occur |
| Log.LastDescriptorWins | crates/starweld-core/src/log.rs:281-326 | each byte comes from the last descriptor, in sequence order, that covers it |
| LogBytes.ReplayedByte | crates/starweld-core/src/log.rs:281-326 | a replayed byte is, by the last descriptor that reaches it, zero, or the leading bytes, the sector's or the trailing bytes of its sector; a byte no descriptor reaches is as it was |
| LogBytes.ReplayedSize | crates/starweld-core/src/log.rs:281-326 | the file is as long as before, as the entries say it was and as the descriptors reach, and no longer |
| Log.ReplayConverges | crates/starweld-core/src/log.rs:281-326 | replaying onto any file that differs only in the covered ranges, of a length in between, gives the same bytes and length |
| Log.TornIsCutShort | crates/starweld-core/src/log.rs:281-326 | a replay stopped at any write, that write torn in any way, is such a file |
| Log.EveryCrashRunConverges | crates/starweld-core/src/log.rs:281-326 | any number of interrupted replays and a last complete one give what one replay gives |
| Log.ReplayIsIdempotent | crates/starweld-core/src/log.rs:281-326 | replaying twice is replaying once |
| Log.RescanFindsTheSame | crates/starweld-core/src/log.rs:66-326 | if a replay does not write into the log, the scan after a crash finds the same entries and the second replay completes the first |
| TableCheck.CheckTable | crates/starweld-core/src/repair.rs:180-212 | the walk with two counters reports the issues of block k from the entry at block k's index, its end computed in 64 bits, for all blocks in order |
| TableCheck.CleanReportIff | crates/starweld-core/src/repair.rs:180-212 | no issues if and only if every block's state is known and every present block has a nonzero offset and an end, computed in 64 bits, inside the file |
| TableCheck.AllSoundIff | crates/starweld-core/src/repair.rs:180-212 | every present block lies behind offset 0 and in the file, and every state is known, if and only if there are no issues and no present block's offset plus block size reaches 2^64 |
| TableCheck.TopEntryPasses | crates/starweld-core/src/repair.rs:180-212 | the entry 0xFFFF_FFFF_FFF0_0006, a fully present block one MiB below 2^64: no issue with blocks of one MiB, whatever the file |
| FailingRepair.CleanReportUnreadable | crates/starweld-core/src/repair.rs:180-212 | an image that opens, with that entry for its one block, on which the check reports no issue and the block cannot be read |
| TableCheck.EveryBlockIsChecked | crates/starweld-core/src/repair.rs:180-212 | with a full table a clean report covers every block of the disk, which lies in the file unless its end reaches 2^64 |
| TableCheck.DifferencingHasBitmaps | crates/starweld-core/src/bat.rs:118-132 | a full differencing table has a bitmap entry for every block |
| TableCheck.CleanTableReadsIff | crates/starweld-core/src/disk.rs:109-185 | after a clean report over a full table every block can be read if and only if no present block's end reaches 2^64 and each partial block has a present bitmap entry and its part of the bitmap is byte-aligned |
| FsckBytes.IssuesListed | crates/starweld-core/src/repair.rs:180-212 | the list has, in block order, exactly the issues there are by state and offset of each entry, each once |
| FsckBytes.ReportedIssues | crates/starweld-core/src/repair.rs:163-212 | and covers every block whose entry the table has |
| FsckBytes.ReportSays | crates/starweld-core/src/repair.rs:91-124 | the report says which slots held good headers and which copies good region tables, in bytes; fixed only if asked to write, and if not fixed no byte changed |
| FsckBytes.LogSays | crates/starweld-core/src/repair.rs:126-161 | what is reported of the log: empty, how many entries up to which number, or discarded |
| Fsck.CheckFile | crates/starweld-core/src/repair.rs:73-217 | the run as a whole: repairs, log, table check, report and errors, and no byte changes unless asked to fix |
| FsckBytes.RunChanges | crates/starweld-core/src/repair.rs:73-217 | behind the header section a run changes a byte only if it replays a log of which a descriptor reaches that byte, and then to what the last of those says |
| Fsck.RepairFile | crates/starweld-core/src/repair.rs:111-126 | both headers from the active one unless both are valid, both region tables unless both are intact |
| Fsck.HandleLog | crates/starweld-core/src/repair.rs:128-161 | replay, discard or report, the log marked clean from the header pair read at the start |
| FsckRuns.RunMends | crates/starweld-core/src/repair.rs:111-161 | after a writing run both headers and both region tables are valid, with a nil log GUID if a log was dealt with, even after a header repair; the other fields of the active header are kept and its number goes up by at most one |
| FsckRuns.LogIsClean | crates/starweld-core/src/log.rs:330-334 | after a replay or discard the active header has a nil log GUID and the image opens for writing |
| FsckRuns.SecondRunIsClean | crates/starweld-core/src/repair.rs:73-217 | a second run succeeds, changes no byte, fixes nothing, finds both headers and tables valid and the same issues |
| FsckRuns.SafeAfterRunIff | crates/starweld-core/src/repair.rs:111-161 | from every state: a run that clears a log leaves safe headers if and only if both were valid before it; any other run, if and only if they were safe already |
| FsckRuns.TornUpdateAfterRunIff | crates/starweld-core/src/repair.rs:111-161 | the next header update survives being torn under that condition and no other |
| FsckRuns.RepairAgainDoesNotMend | crates/starweld-core/src/repair.rs:73-161 | after such a run a second repair finds both headers valid and leaves them as unsafe as they are |
| FailingRepair.RepairLeavesUnsafeHeaders | crates/starweld-core/src/repair.rs:111-161 | an image with one header and an empty log on which the repair succeeds and every next header update, if torn, changes the active header |
| Chains.Discover | crates/starweld-core/src/chain.rs:43-118 | ends on every file system; succeeds exactly when the leaf has a chain of different files down to a root whose stated identities match; a failure names why: a file met twice, one that does not open, a link that leads nowhere, an identity that differs |
| Chains.NodeSays | crates/starweld-core/src/chain.rs:62-92 | a node has the DataWriteGuid and FileWriteGuid of the active header of its file, and the sizes and locator of its metadata |
| Chains.LeadsToIff | crates/starweld-core/src/chain.rs:74-92 | a file leads to another if and only if it opens, has a parent and the search for its locator finds that file |
| Chains.HasChainIff | crates/starweld-core/src/chain.rs:96-115 | a leaf has a chain if and only if such paths lead to a root over different files and each stated identity is the DataWriteGuid in the next file's active header, or that is nil |
| Chains.ChainIsUnique | crates/starweld-core/src/chain.rs:43-118 | a leaf has at most one chain |
| Chains.CycleHasNoChain | crates/starweld-core/src/chain.rs:53-62 | a leaf from which a file is met twice has none |
| Chains.CheckLinkage | crates/starweld-core/src/chain.rs:96-115 | each stated identity is the next file's, or that file's is nil |

## Left out

- Integers are unbounded, and wrap only where the code's do on values read from disk: the end of a block in the table check, the end of a region, the sequence number of a new header (the results about runs exclude that last wrap). Elsewhere offsets, lengths and counts are stated to stay below 2^64 or 2^32 where the code narrows or stores them; `Bounds` shows it of the table's size and of the composer's sums, but not of a table for blocks of one byte.
- Positions at 2^63 or beyond: seeking there, or setting such a length, is an error of the operating system, while the model's file has no limit. A bitmap entry or log descriptor that points there is read as past the end, or written, in the model.
- GUIDs are their 16 bytes on disk; their text form, and reading a parent's identity out of a locator string, are a given function.
- CRC32C is some function of the bytes. That a torn header write leaves the slot with its old header, the new one or none that is valid is part of what a torn update means here, and stands for what a checksum is for.
- The standard library's sorts are modelled by an insertion sort with the same contract (ordered, stable, a permutation).
- Opening, seeking, flushing, `reopen`, page-cache advice, renaming and deleting files, temporary files, and the check that merge and compact run first: operating-system calls, or `Fsck.CheckFile` run on the same file beforehand.
- NTFS compression, the zstd encoder and the tar wrapper around the stream (`tar_header.rs`, `zst_compress.rs`, `compress.rs`): the sink is an append-only byte sequence, and the tar fields have no hard properties.
- `resolve_parent`, the search of the file system for the file a locator names, and path handling: a given partial function; the paths kept for display are not.
- Progress events, serialised reports, warnings, the `path` fields of reports, the command line, `open_repaired`, `force_clean_log`.
- Merge reads the parent's headers, regions, metadata and table once; the code reads the same bytes a second time. The final rediscovery of the chain is `Chains.Discover` on the merged file.
- Merge.MergeInto: states the result only for parents whose blocks lie inside the file, apart from one another and from regions and bitmaps, and whose table region holds every entry; the code does not check this.
- Both writers and the merge assume blocks of whole MiBs, as the VHDX format requires and the code does not check: other slots start where an entry cannot point (`BlockTable.EntryKeepsOffsetIff`, `Writer.SlotsNeedWholeMiBs`). Links below the leaf may have any block size that its sectors divide.
- Flatten.FlattenChain: the leaf's table must be describable in a 32-bit region length, as the code's narrowing assumes.
- FsckRuns.SecondRunIsClean: it and the other results about runs need the replay, if there is one, to write nothing into the first MiB; a log that overwrites its own headers has no such guarantee.
- A merge that stops in its table write: each 8-byte entry is taken to be the old or the new one; an entry torn inside is not covered.
- Opening an image with a block size of 0, or one larger than 2^23 sectors, divides by zero in the code when it has blocks; the model reports it as a panic whether it has blocks or not.
- Slice indexes that the code would panic on are the `Panic` error.
