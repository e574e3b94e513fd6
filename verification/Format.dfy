/** vtx2_format. */
module Format {
  import opened Arith
  import opened Bytes
  import opened Hash
  import opened Layout
  import opened JournalBytes
  import opened CrashSafety
  import opened Bitmap
  import opened Entries
  import opened Files
  import opened Volumes
  import opened Allocator
  import opened EntryOps
  import opened Superblock
  import opened FormatLayout
  import opened FreshVolume

  lemma NoBits(j: nat)
    requires j < 8
    ensures !Bit(0, j) && Bit(0xFF, j)
  {
    ConstantBits(j);
  }

  /** The border byte, bit by bit. */
  method BorderByte(g: Geometry, bitStart: nat) returns (x: byte)
    ensures forall k: nat :: k < 8 ==> (Bit(x, k) <==> Reserved(g, bitStart + k))
  {
    hide Bit, PutBit, Reserved;
    x := 0;
    forall k: nat | k < 8 ensures !Bit(x, k) {
      NoBits(k);
    }
    var k := 0;
    while k < 8
      invariant k <= 8
      invariant forall i: nat :: i < 8 ==> (Bit(x, i) <==> i < k && Reserved(g, bitStart + i))
    {
      var used := Reserved(g, bitStart + k);
      if used {
        forall i: nat | i < 8 ensures Bit(PutBit(x, k, true), i) == (i == k || Bit(x, i)) {
          PutBitOf(x, k, true, i);
        }
        x := PutBit(x, k, true);
      }
      k := k + 1;
    }
  }

  lemma WholeByte(g: Geometry, j: nat, x: byte)
    requires x == 0xFF || x == 0
    requires x == 0xFF ==> 8 * j + 8 <= g.dataStart || g.totalBlocks <= 8 * j
    requires x == 0 ==> g.dataStart <= 8 * j && 8 * j + 8 <= g.totalBlocks
    ensures ByteOk(g, j, x)
  {
    hide Bit;
    forall k: nat | k < 8 ensures Bit(x, k) <==> Reserved(g, 8 * j + k) {
      NoBits(k);
    }
  }

  /** Byte j of the bitmap, by its place relative to the data area. */
  method BitmapByte(g: Geometry, j: nat) returns (x: byte)
    ensures ByteOk(g, j, x)
  {
    hide Bit;
    var bitStart := j * 8;
    var bitEnd := bitStart + 8;
    if bitEnd <= g.dataStart {
      x := 0xFF;
      WholeByte(g, j, x);
    } else if bitStart >= g.totalBlocks {
      x := 0xFF;
      WholeByte(g, j, x);
    } else if bitStart >= g.dataStart && bitEnd <= g.totalBlocks {
      x := 0x00;
      WholeByte(g, j, x);
    } else {
      x := BorderByte(g, bitStart);
    }
  }

  /** One block of the bitmap, byte by byte. */
  method BitmapBlock(g: Geometry, bb: nat, buffer: Block) returns (scratch: Block)
    requires |buffer| == g.blockSize
    ensures |scratch| == g.blockSize && BlockFresh(g, bb, scratch)
  {
    hide ByteOk;
    scratch := buffer;
    var blockByteBase := bb * g.blockSize;
    var off := 0;
    while off < g.blockSize
      invariant off <= g.blockSize == |scratch|
      invariant forall i :: 0 <= i < off ==> ByteOk(g, bb * g.blockSize + i, scratch[i])
    {
      var x := BitmapByte(g, blockByteBase + off);
      scratch := scratch[off := x];
      off := off + 1;
    }
  }

  /** The regions format has still to write keep what it already wrote elsewhere. */
  ghost predicate SameOutside(d: seq<Block>, d': seq<Block>, lo: nat, hi: nat) {
    |d'| == |d| && forall b :: 0 <= b < |d| && !(lo <= b < hi) ==> d'[b] == d[b]
  }

  /** The bitmap's blocks, one write each. */
  method WriteBitmap(dev: BlockDevice, g: Geometry, buffer: Block) returns (scratch: Block)
    requires g.Valid() && DiskOk(dev.blocks, g) && |buffer| == g.blockSize
    modifies dev
    ensures DiskOk(dev.blocks, g) && BitmapFresh(dev.blocks, g) && |scratch| == g.blockSize
    ensures SameOutside(old(dev.blocks), dev.blocks, g.bitmapStart, g.bitmapStart + g.bitmapCount)
  {
    hide BlockFresh;
    scratch := buffer;
    var bb := 0;
    while bb < g.bitmapCount
      invariant bb <= g.bitmapCount && |scratch| == g.blockSize && DiskOk(dev.blocks, g)
      invariant SameOutside(old(dev.blocks), dev.blocks, g.bitmapStart, g.bitmapStart + g.bitmapCount)
      invariant forall b :: g.bitmapStart <= b < g.bitmapStart + bb ==>
                  b < |dev.blocks| && BlockFresh(g, b - g.bitmapStart, dev.blocks[b])
    {
      scratch := BitmapBlock(g, bb, scratch);
      dev.WriteBlock(g.bitmapStart + bb, scratch);
      bb := bb + 1;
    }
  }

  /** What block 0 holds after format. */
  ghost predicate SuperblockIs(d: seq<Block>, g: Geometry, hint: nat) {
    |d| > 0 && |d[0]| >= SUPERBLOCK_SIZE && d[0][..SUPERBLOCK_SIZE] == EncodeSuperblock(g, hint)
  }

  /** The journal zeroed, then the table with its root: everything in between keeps its size. */
  lemma AfterZeroing(d: seq<Block>, g: Geometry, d': seq<Block>)
    requires g.Valid() && DiskOk(d, g) && g.journalStart + g.journalCount <= |d| && g.tableStart + g.tableCount <= |d|
    requires g.tableCount > 0 && g.blockSize >= ENTRY_SIZE
    requires var d1 := Zeroed(d, g.blockSize, g.journalStart, g.journalCount);
             var d2 := Zeroed(d1, g.blockSize, g.tableStart, g.tableCount);
             d' == Put(d2, g.tableStart, RootBlock(g.blockSize))
    ensures DiskOk(d', g) && JournalZero(d', g) && TableFresh(d', g)
  {
    hide RootBlock;
  }

  /** The bitmap and the superblock lie elsewhere. */
  lemma AfterBitmap(d: seq<Block>, d': seq<Block>, g: Geometry)
    requires g.Valid() && JournalZero(d, g) && TableFresh(d, g)
    requires SameOutside(d, d', g.bitmapStart, g.bitmapStart + g.bitmapCount)
    ensures JournalZero(d', g) && TableFresh(d', g)
  {
    hide AllZero, RootBlock;
  }

  lemma AfterSuperblock(d: seq<Block>, d': seq<Block>, g: Geometry, x: Block)
    requires g.Valid() && DiskOk(d, g) && JournalZero(d, g) && TableFresh(d, g) && BitmapFresh(d, g)
    requires d' == Put(d, 0, x) && |x| == g.blockSize
    ensures DiskOk(d', g) && JournalZero(d', g) && TableFresh(d', g) && BitmapFresh(d', g)
  {
    hide AllZero, RootBlock, BlockFresh;
  }

  /** What a formatted device is: consistent, empty but for the root, nothing in its log, counts exact. */
  ghost predicate IsFormatted(d: seq<Block>, g: Geometry) {
    && Clean(d, g) && g.blockSize > 0
    && SuperblockIs(d, g, g.totalBlocks - g.dataStart)
    && FsOk(View(d, g), g, {}) && IsNew(EntryAt(View(d, g), g, g.root), DIRECTORY, [0x2F], g.root)
    && |FreeSet(View(d, g), g)| == g.totalBlocks - g.dataStart
    && (forall b :: 0 <= b < BitmapBits(g) ==> (!Used(View(d, g), g, b) <==> g.dataStart <= b < g.totalBlocks))
    && (forall i :: 0 < i < g.Slots() ==> Table(View(d, g), g)[i].kind == FREE)
  }

  lemma MakeFormatted(d: seq<Block>, g: Geometry)
    requires g.Valid() && g.blockSize > 0 && DiskOk(d, g) && JournalZero(d, g) && TableFresh(d, g) && BitmapFresh(d, g)
    requires g.root == 0 && SuperblockIs(d, g, g.totalBlocks - g.dataStart)
    ensures IsFormatted(d, g)
  {
    hide g.Valid, DiskOk, JournalZero, TableFresh, BitmapFresh, SuperblockIs, Used, FreeSet, BitmapBits, Clean, FsOk,
         g.Slots, g.PerBlock, EntryAt, BlankEntry, RootEntry, Table, IsNew;
    ZeroClean(d, g);
    SomeEntries(g);
    FreshFsOk(d, g);
    FreshHint(d, g);
    forall b | 0 <= b < BitmapBits(g) ensures !Used(View(d, g), g, b) <==> g.dataStart <= b < g.totalBlocks {
      FreshUsed(d, g, b);
    }
    BlankIs();
    forall i | 0 < i < g.Slots() ensures Table(View(d, g), g)[i].kind == FREE {
      FreshEntry(d, g, i);
      TableEntryIs(View(d, g), g, i);
    }
  }

  lemma TableEntryIs(v: seq<Block>, g: Geometry, i: nat)
    requires g.blockSize > 0 && i < g.Slots()
    ensures Table(v, g)[i] == EntryAt(v, g, i)
  {
    hide EntryAt, g.Slots;
  }

  lemma SomeEntries(g: Geometry)
    requires g.Valid()
    ensures g.PerBlock() > 0 && g.blockSize >= ENTRY_SIZE
  {
    ValidSize(g);
    DivFacts(g.blockSize, ENTRY_SIZE);
  }

  /** The superblock's image at the head of block 0. */
  lemma SuperblockWritten(d: seq<Block>, g: Geometry, hint: nat, x: Block)
    requires |d| > 0 && g.blockSize >= SUPERBLOCK_SIZE && x == Splice(Zeros(g.blockSize), 0, EncodeSuperblock(g, hint))
    ensures SuperblockIs(Put(d, 0, x), g, hint)
  {
    hide EncodeSuperblock, Splice;
    SpliceSame(Zeros(g.blockSize), 0, EncodeSuperblock(g, hint));
    assert x[..SUPERBLOCK_SIZE] == x[0..0 + SUPERBLOCK_SIZE];
  }

  /**
   * vtx2_format, on a device with `totalBlocks` blocks of `blockSize` bytes. The only sizes it refuses
   * are those below the minimum.
   */
  method FormatDevice(dev: BlockDevice, totalBlocks: nat, blockSize: nat) returns (res: FsResult)
    requires totalBlocks * blockSize < TWO_64
    requires |dev.blocks| >= totalBlocks && forall b :: 0 <= b < |dev.blocks| ==> |dev.blocks[b]| == blockSize
    modifies dev
    ensures res == if !ValidBlockSize(blockSize) then ERR_INVALID
                   else if totalBlocks < MIN_TOTAL_BLOCKS then ERR_NO_SPACE else OK
    ensures res == OK ==> IsFormatted(dev.blocks, Formatted(totalBlocks, blockSize))
    ensures res != OK ==> dev.blocks == old(dev.blocks)
  {
    hide IsFormatted, EncodeSuperblock, Splice, JournalZero, TableFresh, BitmapFresh, Geometry.Valid, Geometry.RecordSize,
         Geometry.JournalBytes, Geometry.Slots, Geometry.PerBlock, RootBlock, Fnv, LE, EncodeEntry, RootEntry, FieldsFit;
    if blockSize == 0 || blockSize % 512 != 0 || blockSize > MAX_BLOCK_SIZE {
      return ERR_INVALID;
    }
    if totalBlocks < MIN_TOTAL_BLOCKS {
      return ERR_NO_SPACE;
    }
    LayoutValid(totalBlocks, blockSize);
    var g := Formatted(totalBlocks, blockSize);
    if g.dataStart >= totalBlocks {
      return ERR_NO_SPACE;
    }
    if g.capacity < 1 {
      return ERR_NO_SPACE;
    }
    SomeEntries(g);
    ValidSize(g);
    var sb := new Volume(dev, g, totalBlocks - g.dataStart);
    sb.ZeroBlocks(g.journalStart, g.journalCount);
    sb.ZeroBlocks(g.tableStart, g.tableCount);
    RootFits();
    RootBlockIs(blockSize);
    dev.WriteBlock(g.tableStart, Splice(Zeros(blockSize), 0, EncodeEntry(RootEntry())));
    TablesThere(totalBlocks, blockSize);
    AfterZeroing(old(dev.blocks), g, dev.blocks);
    ghost var d3 := dev.blocks;
    var scratch := WriteBitmap(dev, g, sb.scratch);
    AfterBitmap(d3, dev.blocks, g);
    ghost var d4 := dev.blocks;
    dev.WriteBlock(0, Splice(Zeros(blockSize), 0, EncodeSuperblock(g, sb.freeHint)));
    AfterSuperblock(d4, dev.blocks, g, Splice(Zeros(blockSize), 0, EncodeSuperblock(g, sb.freeHint)));
    SuperblockWritten(d4, g, sb.freeHint, Splice(Zeros(blockSize), 0, EncodeSuperblock(g, sb.freeHint)));
    MakeFormatted(dev.blocks, g);
    return OK;
  }

  lemma RootBlockIs(blockSize: nat)
    requires blockSize >= ENTRY_SIZE
    ensures |EncodeEntry(RootEntry())| == ENTRY_SIZE
    ensures RootBlock(blockSize) == Splice(Zeros(blockSize), 0, EncodeEntry(RootEntry()))
  {
    hide EncodeEntry, RootEntry, Splice;
    RootFits();
  }

  lemma TablesThere(totalBlocks: nat, blockSize: nat)
    requires blockSize > 0
    ensures Formatted(totalBlocks, blockSize).tableCount > 0
  {
    RegionCounts(totalBlocks, blockSize);
  }

  // ---- Entry indices ----

  /** Entry i's block lies in the table exactly for the indices a scan visits; the capacity check does not say so. */
  lemma IndexInTable(g: Geometry, i: nat)
    requires g.blockSize >= ENTRY_SIZE
    ensures EntryBlock(g, i) < g.tableCount <==> i < g.tableCount * g.PerBlock()
  {
    var per := g.PerBlock();
    DivFacts(g.blockSize, ENTRY_SIZE);
    DivFacts(i, per);
    var q := i / per;
    if q < g.tableCount {
      MulMono(q + 1, g.tableCount, per);
      assert (q + 1) * per == q * per + per;
    } else {
      MulMono(g.tableCount, q, per);
    }
  }

  /** The smallest volume: the capacity check lets index 4 pass, whose block is the first data block. */
  lemma CapacityTooLarge()
    ensures var g := Formatted(64, 512);
            && g.blockSize >= ENTRY_SIZE && g.tableCount == 4 && g.capacity == 7 && g.Slots() == 4
            && g.tableStart + EntryBlock(g, 4) == g.dataStart
  {
  }
}
