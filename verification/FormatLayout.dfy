/** The arithmetic of vtx2_format: sizes and places of the regions. */
module FormatLayout {
  import opened Arith
  import opened Bytes
  import opened Layout
  import opened Superblock

  const MIN_TOTAL_BLOCKS: nat := 64
  const MIN_JOURNAL_BLOCKS: nat := 4
  const MAX_JOURNAL_BLOCKS: nat := 256
  const MIN_TABLE_BLOCKS: nat := 4
  const MAX_TABLE_BLOCKS: nat := 4096

  function CeilDiv(a: nat, b: nat): nat
    requires b > 0
  {
    (a + b - 1) / b
  }

  function Clamp(n: nat, least: nat, most: nat): nat {
    var m := if most < n then most else n;
    if least > m then least else m
  }

  function BitmapBlocks(total: nat, blockSize: nat): nat
    requires blockSize > 0
  {
    var n := CeilDiv(CeilDiv(total, 8), blockSize);
    if n < 1 then 1 else n
  }

  function JournalBlocks(total: nat): nat {
    Clamp(total / 256, MIN_JOURNAL_BLOCKS, MAX_JOURNAL_BLOCKS)
  }

  function TableBlocks(total: nat): nat {
    Clamp(total / 128, MIN_TABLE_BLOCKS, MAX_TABLE_BLOCKS)
  }

  /** The geometry vtx2_format writes into the superblock. */
  function Formatted(total: nat, blockSize: nat): (g: Geometry)
    requires blockSize > 0
  {
    var bitmapCount, journalCount, tableCount :=
      BitmapBlocks(total, blockSize), JournalBlocks(total), TableBlocks(total);
    var journalStart := 1 + bitmapCount;
    var tableStart := journalStart + journalCount;
    Geometry(blockSize, total, 1, bitmapCount, journalStart, journalCount, tableStart, tableCount,
             tableCount * blockSize / ENTRY_SIZE, tableStart + tableCount, 0)
  }

  lemma CeilFacts(a: nat, b: nat)
    requires b > 0
    ensures a <= CeilDiv(a, b) * b < a + b
  {
    DivFacts(a + b - 1, b);
  }

  /** The bitmap is just large enough. */
  lemma BitmapSize(total: nat, blockSize: nat)
    requires ValidBlockSize(blockSize) && total > 0
    ensures total <= 8 * (BitmapBlocks(total, blockSize) * blockSize)
    ensures 512 * BitmapBlocks(total, blockSize) <= total / 8 + 1 + 512
  {
    var bytes := CeilDiv(total, 8);
    CeilFacts(total, 8);
    CeilFacts(bytes, blockSize);
    var n := CeilDiv(bytes, blockSize);
    if n < 1 {
      MulMono(n, 0, blockSize);
      assert false;
    }
    assert (n - 1) * blockSize == n * blockSize - blockSize;
    MulMono(512, blockSize, n - 1);
    assert 512 * (n - 1) == (n - 1) * 512 && (n - 1) * blockSize == blockSize * (n - 1);
  }

  /** For every size vtx2_format accepts, the metadata leaves room for data: ERR_NO_SPACE comes only from the minimum. */
  lemma LayoutFits(total: nat, blockSize: nat)
    requires ValidBlockSize(blockSize) && total >= MIN_TOTAL_BLOCKS
    ensures Formatted(total, blockSize).dataStart < total
    ensures Formatted(total, blockSize).capacity >= 1
  {
    hide CeilDiv, Clamp, BitmapBlocks, JournalBlocks, TableBlocks, ValidBlockSize;
    BlockSizeFacts(blockSize);
    BitmapSize(total, blockSize);
    RegionCounts(total, blockSize);
    RegionBounds(total);
    var g := Formatted(total, blockSize);
    RoomLeft(total, g.bitmapCount, g.journalCount, g.tableCount);
    MulMono(4, g.tableCount, blockSize);
    TableHolds(g.tableCount * blockSize);
  }

  /** Beyond their minimum the journal and the table take a 256th and a 128th of the blocks at most. */
  lemma RegionBounds(total: nat)
    ensures JournalBlocks(total) == 4 || 256 * JournalBlocks(total) <= total
    ensures TableBlocks(total) == 4 || 128 * TableBlocks(total) <= total
  {
  }

  lemma RoomLeft(total: nat, b: nat, j: nat, t: nat)
    requires total >= MIN_TOTAL_BLOCKS && 512 * b <= total / 8 + 1 + 512
    requires (j == 4 || 256 * j <= total) && (t == 4 || 128 * t <= total)
    ensures 1 + b + j + t < total
  {
  }

  lemma TableHolds(bytes: nat)
    requires bytes >= 2048
    ensures bytes / ENTRY_SIZE >= 1
  {
  }

  lemma TableSlots(g: Geometry)
    requires ValidBlockSize(g.blockSize) && g.tableCount >= 4 && g.capacity == g.tableCount * g.blockSize / ENTRY_SIZE
    ensures g.Slots() == g.tableCount * g.PerBlock() && g.Slots() >= 4
  {
    var per := g.PerBlock();
    BlockSizeFacts(g.blockSize);
    DivFacts(g.blockSize, ENTRY_SIZE);
    MulMono(4, g.tableCount, per);
    MulMono(per * ENTRY_SIZE, g.blockSize, g.tableCount);
    assert per * ENTRY_SIZE * g.tableCount == g.tableCount * per * ENTRY_SIZE;
    assert g.blockSize * g.tableCount == g.tableCount * g.blockSize;
    DivFacts(g.tableCount * g.blockSize, ENTRY_SIZE);
  }

  /**
   * The regions lie behind one another without gap from block 1 to the data area, the bitmap has a bit
   * for every block, and the journal holds at least one transaction.
   */
  lemma LayoutValid(total: nat, blockSize: nat)
    requires ValidBlockSize(blockSize) && total >= MIN_TOTAL_BLOCKS && total * blockSize < TWO_64
    ensures var g := Formatted(total, blockSize);
            && g.Valid() && g.blockSize == blockSize && g.totalBlocks == total && g.root == 0
            && g.bitmapStart == 1 && g.journalStart == 1 + g.bitmapCount
            && g.tableStart == g.journalStart + g.journalCount && g.dataStart == g.tableStart + g.tableCount
            && g.dataStart < total
            && g.RecordSize() <= g.JournalBytes()
            && g.Slots() == g.tableCount * g.PerBlock() && g.Slots() >= 4 && g.root < g.capacity
            && FieldsFit(g, total - g.dataStart)
  {
    hide BitmapBlocks, JournalBlocks, TableBlocks, CeilDiv, Geometry.Slots, Geometry.PerBlock, Geometry.RecordSize, Geometry.JournalBytes;
    var g := Formatted(total, blockSize);
    LayoutFits(total, blockSize);
    BitmapSize(total, blockSize);
    RegionCounts(total, blockSize);
    TableSlots(g);
    TotalFits(total, blockSize);
    JournalFits(g);
    CapacityFits(g.tableCount, total, blockSize);
  }

  /**
   * How large the regions are: the fewest bitmap blocks with a bit for every block; one journal block for
   * every 256 blocks and one table block for every 128, at least 4 each and at most 256 and 4096; and as
   * many entries as the bytes of the table hold.
   */
  lemma LayoutExact(total: nat, blockSize: nat)
    requires ValidBlockSize(blockSize) && total >= MIN_TOTAL_BLOCKS
    ensures var g := Formatted(total, blockSize);
            && 8 * ((g.bitmapCount - 1) * blockSize) < total <= 8 * (g.bitmapCount * blockSize)
            && (if total < 256 * 4 then g.journalCount == 4
                else if total < 256 * 256 then 256 * g.journalCount <= total < 256 * (g.journalCount + 1)
                else g.journalCount == 256)
            && (if total < 128 * 4 then g.tableCount == 4
                else if total < 128 * 4096 then 128 * g.tableCount <= total < 128 * (g.tableCount + 1)
                else g.tableCount == 4096)
            && g.capacity * ENTRY_SIZE <= g.tableCount * blockSize < (g.capacity + 1) * ENTRY_SIZE
  {
    BitmapSize(total, blockSize);
    CeilFacts(total, 8);
    CeilFacts(CeilDiv(total, 8), blockSize);
    FewestBlocks(CeilDiv(total, 8), blockSize);
    DivFacts(Formatted(total, blockSize).tableCount * blockSize, ENTRY_SIZE);
  }

  lemma FewestBlocks(bytes: nat, blockSize: nat)
    requires bytes > 0 && blockSize > 0
    ensures CeilDiv(bytes, blockSize) >= 1 && (CeilDiv(bytes, blockSize) - 1) * blockSize < bytes
  {
    CeilFacts(bytes, blockSize);
    var n := CeilDiv(bytes, blockSize);
    if n < 1 {
      MulMono(n, 0, blockSize);
      assert false;
    }
    assert (n - 1) * blockSize == n * blockSize - blockSize;
  }

  lemma RegionCounts(total: nat, blockSize: nat)
    requires blockSize > 0
    ensures BitmapBlocks(total, blockSize) >= 1
    ensures 4 <= JournalBlocks(total) <= 256 && 4 <= TableBlocks(total) <= 4096
  {
  }

  lemma TotalFits(total: nat, blockSize: nat)
    requires blockSize > 0
    ensures total <= total * blockSize
  {
    MulMono(1, blockSize, total);
  }

  lemma CapacityFits(count: nat, total: nat, blockSize: nat)
    requires count <= total && total * blockSize < TWO_64
    ensures 0 <= count * blockSize / ENTRY_SIZE < TWO_64
  {
    MulMono(count, total, blockSize);
    DivFacts(count * blockSize, ENTRY_SIZE);
  }

  lemma JournalFits(g: Geometry)
    requires g.blockSize >= SECTOR && g.journalCount >= 4
    ensures g.RecordSize() <= g.JournalBytes()
  {
    MulMono(4, g.journalCount, g.blockSize);
  }
}
