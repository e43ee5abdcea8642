/** Where 64-bit sums of sizes read from disk cannot wrap (bat.rs, flatten.rs). */
module Bounds {
  import opened Bytes
  import opened Format
  import opened BlockTable
  import opened MetadataRegion
  import opened Images
  import opened Flatten

  lemma EntriesAtMost(count: nat, cr: nat, hasParent: bool)
    requires count > 0 && cr > 0
    ensures TotalEntries(count, cr, hasParent) <= (count - 1) + (count - 1) / cr + cr + 1
  {
    var last := count - 1;
    var c := last / cr;
    assert last == cr * c + last % cr;
    assert c * (cr + 1) == cr * c + c && (c + 1) * (cr + 1) == c * (cr + 1) + cr + 1;
  }

  /** The number of table entries fits in 64 bits for every block size but one byte. */
  lemma EntriesFit(m: Metadata, hasParent: bool)
    requires m.HasGeometry() && m.BlockSize() >= 2
    ensures m.ChunkRatio() > 0 && TotalEntries(m.BlockCount(), m.ChunkRatio(), hasParent) < U64
  {
    GeometryHasRatio(m);
    var count, cr := m.BlockCount(), m.ChunkRatio();
    if count > 0 {
      CountAtMost(m, 2);
      RatioAtMost(m);
      EntriesAtMost(count, cr, hasParent);
      hide TotalEntries;
      if cr == 1 {
        RatioOne(m);
        CountAtMost(m, 0x40_0000);
      } else {
        HalfAtMost(count - 1, cr);
      }
    }
  }

  lemma HalfAtMost(n: nat, cr: nat)
    requires cr >= 2
    ensures n / cr <= n / 2
  {
    MulMonotone(n / cr, 2, cr);
    assert n == cr * (n / cr) + n % cr;
    assert n / cr * 2 <= n / cr * cr == cr * (n / cr) <= n;
  }

  lemma CountAtMost(m: Metadata, k: nat)
    requires 0 < k <= m.BlockSize()
    ensures m.BlockCount() * k < U64 + k
  {
    var bs, count := m.BlockSize(), m.BlockCount();
    var n := m.virtualDiskSize + bs - 1;
    if count > 0 {
      assert n == bs * count + n % bs;
      assert bs * (count - 1) == bs * count - bs;
      assert bs * (count - 1) < U64;
      MulMonotone(count - 1, k, bs);
      assert (count - 1) * k <= (count - 1) * bs == bs * (count - 1);
      assert count * k == (count - 1) * k + k;
    }
  }

  lemma RatioAtMost(m: Metadata)
    requires m.HasGeometry() && m.BlockSize() >= 2
    ensures m.ChunkRatio() < 0x40_0000 * U32
  {
    var q := 0x80_0000 * m.logicalSectorSize;
    HalfAtMost(q, m.BlockSize());
  }

  lemma RatioOne(m: Metadata)
    requires m.HasGeometry() && m.ChunkRatio() == 1
    ensures m.BlockSize() > 0x40_0000
  {
    var q := 0x80_0000 * m.logicalSectorSize;
    assert q == m.BlockSize() * 1 + q % m.BlockSize();
  }

  lemma EntriesCoverBlocks(count: nat, cr: nat, hasParent: bool)
    requires cr > 0
    ensures count <= TotalEntries(count, cr, hasParent)
  {
    if count > 0 {
      EveryBlockHasEntry(count - 1, count, cr, hasParent);
      PayloadIndexIs(count - 1, cr);
    }
  }

  lemma CountIsShort(leaf: Metadata)
    requires Flattenable(leaf)
    ensures leaf.BlockCount() <= 0x2000_0000
  {
    hide WriterParams.BatLength, TotalEntries;
    var p := OutputParams(leaf, false, NIL, NIL);
    TableIsShort(p);
    EntriesCoverBlocks(leaf.BlockCount(), p.ChunkRatio(), false);
  }

  /**
   * Of a leaf that can be flattened the virtual size stays so far below 2^64 that no sum of a virtual offset and a
   * block size, of any link that shares it, wraps.
   */
  lemma ComposerSumsFit(leaf: Metadata)
    requires Flattenable(leaf)
    ensures leaf.virtualDiskSize + 2 * U32 < U64
  {
    var bs, count := leaf.BlockSize(), leaf.BlockCount();
    CountIsShort(leaf);
    hide Flattenable;
    var n := leaf.virtualDiskSize + bs - 1;
    assert n == bs * count + n % bs;
    MulMonotone(bs, count, 0x2000_0000);
  }

  lemma TableIsShort(p: WriterParams)
    requires p.Meta().HasGeometry() && p.BatLength() < U32
    ensures 8 * p.TotalEntries() < U32
  {
    hide WriterParams.TotalEntries;
  }
}
