/** A volume as format leaves it: what its zeroed regions and its bitmap read as. */
module FreshVolume {
  import opened Seqs
  import opened Arith
  import opened Bytes
  import opened Layout
  import opened JournalBytes
  import opened JournalRecord
  import opened CrashSafety
  import opened Bitmap
  import opened Entries
  import opened Names
  import opened Files
  import opened Tree
  import opened Volumes
  import opened WriteFile
  import opened EntryOps

  // ---- Zeros ----

  ghost predicate AllZero(s: seq<byte>) {
    forall i :: 0 <= i < |s| ==> s[i] == 0
  }

  lemma {:induction false} ZeroValue(s: seq<byte>)
    requires AllZero(s)
    ensures UnLE(s) == 0
  {
    if s != [] {
      ZeroValue(s[1..]);
    }
  }

  lemma ZeroExtent(s: seq<byte>)
    requires |s| == EXTENT_SIZE && AllZero(s)
    ensures DecodeExtent(s) == Extent(0, 0)
  {
    hide UnLE;
    ZeroValue(s[0..8]);
    ZeroValue(s[8..16]);
  }

  /** A zeroed slot of the table is the blank entry. */
  lemma ZeroEntry(s: seq<byte>)
    requires |s| == ENTRY_SIZE && AllZero(s)
    ensures DecodeEntry(s) == BlankEntry()
  {
    hide UnLE, DecodeExtent, DecodeExtents;
    ZeroValue(s[120..128]);
    ZeroValue(s[128..136]);
    ZeroValue(s[136..144]);
    ZeroValue(s[144..148]);
    ZeroValue(s[148..152]);
    ZeroValue(s[248..256]);
    ZeroValue(s[256..264]);
    ZeroExtents(s[152..248]);
    var e, b := DecodeEntry(s), BlankEntry();
    assert e.name == b.name && e.pad == b.pad && e.salt == b.salt && e.verifier == b.verifier && e.cryptoPad == b.cryptoPad;
  }

  lemma ZeroExtents(s: seq<byte>)
    requires |s| == EXTENT_SIZE * DIRECT_EXTENTS && AllZero(s)
    ensures DecodeExtents(s, DIRECT_EXTENTS) == seq(DIRECT_EXTENTS, _ => Extent(0, 0))
  {
    hide DecodeExtent;
    forall i | 0 <= i < DIRECT_EXTENTS ensures DecodeExtents(s, DIRECT_EXTENTS)[i] == Extent(0, 0) {
      ZeroExtent(s[EXTENT_SIZE * i..EXTENT_SIZE * i + EXTENT_SIZE]);
    }
  }

  // ---- The journal ----

  ghost predicate JournalZero(d: seq<Block>, g: Geometry) {
    forall b :: g.journalStart <= b < g.journalStart + g.journalCount && b < |d| ==> AllZero(d[b])
  }

  lemma {:induction false} FlatZero(bl: seq<Block>)
    requires forall i :: 0 <= i < |bl| ==> AllZero(bl[i])
    ensures AllZero(Flat(bl))
  {
    if bl != [] {
      FlatZero(bl[1..]);
    }
  }

  lemma ZeroBlank(log: seq<byte>, g: Geometry, off: nat)
    requires AllZero(log)
    ensures Blank(log, g, off)
  {
    hide UnLE;
    if off + HEADER_SIZE <= |log| {
      ZeroValue(log[off + 16..off + 20]);
    }
    if off + g.RecordSize() <= |log| {
      var at := off + HEADER_SIZE + g.blockSize;
      ZeroValue(log[at..at + 4]);
    }
  }

  /** A zeroed journal holds nothing: a session can begin. */
  lemma ZeroClean(d: seq<Block>, g: Geometry)
    requires g.Valid() && DiskOk(d, g) && JournalZero(d, g)
    ensures Clean(d, g)
  {
    hide Blank, Flat, Slot, AllZero;
    var log := Journal(d, g);
    FlatZero(d[g.journalStart..g.journalStart + g.journalCount]);
    forall s: nat ensures Blank(log, g, Slot(g, s)) {
      ZeroBlank(log, g, Slot(g, s));
    }
  }

  // ---- The disk format writes ----

  /** The root directory "/", its own parent. */
  function RootEntry(): (e: Entry)
    ensures IsNew(e, DIRECTORY, [0x2F], 0)
  {
    BlankEntry().(name := NameCopy([0x2F]), kind := DIRECTORY)
  }

  lemma RootFits()
    ensures Fits(RootEntry()) && RootEntry().kind == DIRECTORY && RootEntry().parent == 0
    ensures |EncodeEntry(RootEntry())| == ENTRY_SIZE
  {
    hide NameCopy, LE, EncodeEntry, EncodeExtents;
    BlankFits();
    EntrySize(RootEntry());
  }

  /** The first table block: the root's entry, the rest zero. */
  function RootBlock(blockSize: nat): (b: Block)
    requires blockSize >= ENTRY_SIZE
    ensures |b| == blockSize
  {
    RootFits();
    Splice(Zeros(blockSize), 0, EncodeEntry(RootEntry()))
  }

  /** Bit b of a fresh bitmap: metadata and padding are taken. */
  predicate Reserved(g: Geometry, b: nat) {
    b < g.dataStart || g.totalBlocks <= b
  }

  /** Byte j of the bitmap has the bits it should. */
  ghost predicate ByteOk(g: Geometry, j: nat, x: byte) {
    forall k: nat :: k < 8 ==> (Bit(x, k) <==> Reserved(g, 8 * j + k))
  }

  /** x is the fresh bitmap's block number q. */
  ghost predicate BlockFresh(g: Geometry, q: nat, x: Block) {
    forall off :: 0 <= off < |x| ==> ByteOk(g, q * g.blockSize + off, x[off])
  }

  ghost predicate BitmapFresh(d: seq<Block>, g: Geometry) {
    && g.bitmapStart + g.bitmapCount <= |d|
    && forall b :: g.bitmapStart <= b < g.bitmapStart + g.bitmapCount ==> BlockFresh(g, b - g.bitmapStart, d[b])
  }

  ghost predicate TableFresh(d: seq<Block>, g: Geometry) {
    && g.blockSize >= ENTRY_SIZE && g.tableStart + g.tableCount <= |d| && g.tableCount > 0
    && d[g.tableStart] == RootBlock(g.blockSize)
    && forall b :: g.tableStart < b < g.tableStart + g.tableCount ==> d[b] == Zeros(g.blockSize)
  }

  lemma FreshUsed(d: seq<Block>, g: Geometry, c: nat)
    requires g.Valid() && DiskOk(d, g) && BitmapFresh(d, g) && c < BitmapBits(g)
    ensures Used(View(d, g), g, c) <==> Reserved(g, c)
  {
    hide g.Valid, DiskOk, BitBlock, BitByte, BitmapBits, Bit;
    ViewIsOk(d, g);
    BitPlace(View(d, g), g, c);
    var q, off := BitBlock(g, c), BitByte(g, c);
    BitPosition(g, c);
    assert BlockFresh(g, q, d[g.bitmapStart + q]);
    assert ByteOk(g, q * g.blockSize + off, d[g.bitmapStart + q][off]);
  }

  lemma BitPosition(g: Geometry, c: nat)
    requires g.blockSize > 0
    ensures 0 <= BitBlock(g, c) * g.blockSize
    ensures 8 * (BitBlock(g, c) * g.blockSize + BitByte(g, c)) + c % 8 == c
  {
    DivFacts(c / 8, g.blockSize);
  }

  lemma FreshEntry(d: seq<Block>, g: Geometry, i: nat)
    requires g.Valid() && DiskOk(d, g) && TableFresh(d, g) && i < g.Slots() && 0 < g.PerBlock()
    ensures EntryAt(View(d, g), g, i) == if i == 0 then RootEntry() else BlankEntry()
  {
    hide g.Valid, DiskOk, g.Slots, g.PerBlock, RootBlock, BlankEntry, RootEntry, DecodeEntry, EncodeEntry, EntryBlock,
         EntryOffset, EntryAt, Splice;
    ViewIsOk(d, g);
    EntryPlace(View(d, g), g, i);
    var off := EntryOffset(g, i);
    var x := d[g.tableStart + EntryBlock(g, i)];
    if EntryBlock(g, i) == 0 {
      RootBlockSlots(g, x, i);
    } else {
      NotFirstSlot(g, i);
      ZeroEntry(x[off..off + ENTRY_SIZE]);
    }
  }

  lemma NotFirstSlot(g: Geometry, i: nat)
    requires g.blockSize >= ENTRY_SIZE && EntryBlock(g, i) != 0
    ensures i != 0
  {
  }

  lemma FirstSlot(g: Geometry)
    requires g.blockSize >= ENTRY_SIZE
    ensures EntryBlock(g, 0) == 0 && EntryOffset(g, 0) == 0
  {
    DivFacts(g.blockSize, ENTRY_SIZE);
  }

  lemma RootBlockSlots(g: Geometry, x: Block, i: nat)
    requires g.blockSize >= ENTRY_SIZE && x == RootBlock(g.blockSize) && EntryBlock(g, i) == 0
    requires EntryOffset(g, i) + ENTRY_SIZE <= g.blockSize
    ensures DecodeEntry(x[EntryOffset(g, i)..EntryOffset(g, i) + ENTRY_SIZE])
         == if i == 0 then RootEntry() else BlankEntry()
  {
    hide g.PerBlock, BlankEntry, RootEntry, DecodeEntry, EncodeEntry, EntryBlock, EntryOffset, Splice, Fits;
    RootFits();
    FirstSlot(g);
    var off := EntryOffset(g, i);
    var z, e := Zeros(g.blockSize), EncodeEntry(RootEntry());
    if i == 0 {
      SpliceSame(z, 0, e);
      EntryRoundTrip(RootEntry());
    } else {
      EntriesApart(g, 0, i);
      SpliceOther(z, 0, e, off, off + ENTRY_SIZE);
      ZeroEntry(z[off..off + ENTRY_SIZE]);
    }
  }

  /** The directory tree of a fresh volume: the root alone. */
  lemma FreshTree(t: seq<Entry>, root: nat)
    requires root < |t| && root == 0 && t[root] == RootEntry()
    requires forall i: nat :: i < |t| && i != root ==> t[i] == BlankEntry()
    ensures TreeOk(t, root)
  {
    hide NameCopy, NameIs, CString;
    ReadsBack(t[root].name, [0x2F]);
    forall i: nat | Live(t, i) ensures ParentOk(t, i) && Reaches(t, root, i) {
      assert i == root;
      assert Up(t, i, 0) == root;
    }
    forall i: nat, dir: nat ensures !ChildOf(t, i, dir) {
    }
  }

  /** A fresh volume is in order and leaks nothing. */
  lemma FreshFsOk(d: seq<Block>, g: Geometry)
    requires g.Valid() && g.blockSize > 0 && DiskOk(d, g) && BitmapFresh(d, g) && TableFresh(d, g)
    requires g.root == 0 && 0 < g.PerBlock()
    ensures FsOk(View(d, g), g, {}) && IsNew(EntryAt(View(d, g), g, g.root), DIRECTORY, [0x2F], g.root)
  {
    hide g.Valid, DiskOk, BitmapFresh, TableFresh, g.Slots, g.PerBlock, EntryAt, TreeOk, Used, BitmapBits, ViewOk,
         BlankEntry, RootEntry, NoDup, IsNew;
    var v := View(d, g);
    ValidSize(g);
    ViewIsOk(d, g);
    forall i: nat | i < g.Slots() ensures EntryAt(v, g, i) == if i == 0 then RootEntry() else BlankEntry() {
      FreshEntry(d, g, i);
    }
    BlankIs();
    TableSize(v, g);
    FreshTree(Table(v, g), g.root);
    forall i: nat | i < g.Slots() ensures Held(v, g)[i] == [] {
      FreeHeld(v, g, i);
    }
    NothingHeld(Held(v, g));
    forall c | 0 <= c < BitmapBits(g) ensures Used(v, g, c) <==> Reserved(g, c) {
      FreshUsed(d, g, c);
    }
  }

  lemma BlankIs()
    ensures BlankEntry().kind == FREE && RootEntry().kind == DIRECTORY
  {
    hide NameCopy;
  }

  lemma NothingHeld(h: seq<seq<nat>>)
    requires forall i: nat :: i < |h| ==> h[i] == []
    ensures Separate(h) && forall b :: !Referenced(h, b)
  {
  }

  /** The free count format records is exact. */
  lemma FreshHint(d: seq<Block>, g: Geometry)
    requires g.Valid() && DiskOk(d, g) && BitmapFresh(d, g)
    ensures |FreeSet(View(d, g), g)| == g.totalBlocks - g.dataStart
  {
    hide g.Valid, DiskOk, BitmapFresh, Used, BitmapBits;
    TotalInBitmap(g);
    ValidSize(g);
    forall c: nat | g.dataStart <= c < g.totalBlocks ensures !Used(View(d, g), g, c) {
      FreshUsed(d, g, c);
    }
    assert FreeSet(View(d, g), g) == RangeSet(g.dataStart, g.totalBlocks - g.dataStart);
  }
}
