/** How single block writes move block ownership. */
module Ownership {
  import opened Seqs
  import opened Bytes
  import opened Layout
  import opened Bitmap
  import opened Entries
  import opened Files

  // ---- Writes that leave every file's block list alone ----

  /** b's new image keeps every extent record that a live file has in it. */
  ghost predicate KeepsIndirect(v: seq<Block>, g: Geometry, b: nat, x: Block)
    requires g.blockSize > 0
  {
    forall i :: 0 <= i < g.Slots() && EntryAt(v, g, i).kind == FILE && EntryAt(v, g, i).indirect == b ==>
      KeepsRecords(v, b, x, EntryAt(v, g, i).extentCount)
  }

  ghost predicate KeepsRecords(v: seq<Block>, b: nat, x: Block, count: nat) {
    b < |v| && forall n :: DIRECT_EXTENTS <= n < count && (n - DIRECT_EXTENTS) * EXTENT_SIZE + EXTENT_SIZE <= |v[b]| ==>
      RecordAt(x, n) == RecordAt(v[b], n) && (n - DIRECT_EXTENTS) * EXTENT_SIZE + EXTENT_SIZE <= |x|
  }

  function RecordAt(x: Block, n: nat): seq<byte>
    requires n >= DIRECT_EXTENTS
  {
    var at := (n - DIRECT_EXTENTS) * EXTENT_SIZE;
    if at + EXTENT_SIZE <= |x| then x[at..at + EXTENT_SIZE] else []
  }

  /** The file's extents read the same in both views. */
  ghost predicate SameExtents(v: seq<Block>, v': seq<Block>, g: Geometry, e: Entry) {
    Extents(v', g, e) == Extents(v, g, e)
  }

  lemma ExtentsKept(v: seq<Block>, g: Geometry, b: nat, x: Block, e: Entry)
    requires b < |v| && |x| == |v[b]|
    requires e.indirect == b ==> KeepsRecords(v, b, x, e.extentCount)
    ensures SameExtents(v, Put(v, b, x), g, e)
  {
    hide DecodeExtent;
    var v' := Put(v, b, x);
    forall n | 0 <= n < e.extentCount ensures ExtentAt(v', g, e, n) == ExtentAt(v, g, e, n) {
      if n >= DIRECT_EXTENTS && e.indirect == b {
        RecordKept(v, b, x, e.extentCount, n);
      }
    }
  }

  lemma RecordKept(v: seq<Block>, b: nat, x: Block, count: nat, n: nat)
    requires b < |v| && |x| == |v[b]| && KeepsRecords(v, b, x, count) && DIRECT_EXTENTS <= n < count
    ensures RecordAt(x, n) == RecordAt(v[b], n)
  {
  }

  /** All entries and all files' extents read the same: so do block lists and file shapes. */
  lemma FilesSame(v: seq<Block>, v': seq<Block>, g: Geometry)
    requires g.blockSize > 0 && Table(v', g) == Table(v, g)
    requires forall i :: 0 <= i < g.Slots() && EntryAt(v, g, i).kind == FILE ==>
               SameExtents(v, v', g, EntryAt(v, g, i))
    ensures Held(v', g) == Held(v, g)
    ensures FilesOk(v, g) ==> FilesOk(v', g)
  {
    hide EntryAt, ExtentAt, Extents, g.Slots;
    forall i | 0 <= i < g.Slots() ensures EntryAt(v', g, i) == EntryAt(v, g, i) {
      assert Table(v', g)[i] == Table(v, g)[i];
    }
    forall i | 0 <= i < g.Slots()
      ensures HeldBy(v', g, EntryAt(v', g, i)) == HeldBy(v, g, EntryAt(v, g, i))
    {
    }
  }

  /** A data block written: entries and block lists stay, if indirect records stay. */
  lemma DataPut(v: seq<Block>, g: Geometry, b: nat, x: Block, leaked: set<nat>)
    requires g.Valid() && g.blockSize > 0 && OwnOk(v, g, leaked)
    requires g.dataStart <= b < g.totalBlocks && |x| == g.blockSize && KeepsIndirect(v, g, b, x)
    ensures var v' := Put(v, b, x);
            OwnOk(v', g, leaked) && Table(v', g) == Table(v, g) && Held(v', g) == Held(v, g)
  {
    hide Table, Held, FilesOk, Separate, Used, g.Valid, g.Slots, KeepsRecords, ViewOk, SameExtents, EntryAt, BitmapBits;
    ValidSize(g);
    var v' := Put(v, b, x);
    PutViewOk(v, g, b, x);
    TableSame(v, v', g);
    InData(v, g, b);
    forall i | 0 <= i < g.Slots() && EntryAt(v, g, i).kind == FILE
      ensures SameExtents(v, v', g, EntryAt(v, g, i))
    {
      ExtentsKept(v, g, b, x, EntryAt(v, g, i));
    }
    FilesSame(v, v', g);
    BitsUntouched(v, v', g, Held(v, g), leaked);
  }

  lemma InData(v: seq<Block>, g: Geometry, b: nat)
    requires g.Valid() && ViewOk(v, g) && g.dataStart <= b < g.totalBlocks
    ensures b < |v| && |v[b]| == g.blockSize && !g.InJournal(b)
  {
  }

  /** The bitmap's blocks are the same, so its bits are. */
  lemma BitsSame(v: seq<Block>, v': seq<Block>, g: Geometry)
    requires g.Valid() && ViewOk(v, g) && ViewOk(v', g) && |v'| == |v|
    requires forall x :: g.bitmapStart <= x < g.bitmapStart + g.bitmapCount && x < |v| ==> v'[x] == v[x]
    ensures forall c :: 0 <= c < BitmapBits(g) ==> Used(v', g, c) == Used(v, g, c)
  {
    hide g.Valid, ViewOk, BitmapBits, BitBlock, BitByte, Bit;
    forall c | 0 <= c < BitmapBits(g) ensures Used(v', g, c) == Used(v, g, c) {
      BitPlace(v, g, c);
      BitPlace(v', g, c);
    }
  }

  lemma BitsUntouched(v: seq<Block>, v': seq<Block>, g: Geometry, h: seq<seq<nat>>, leaked: set<nat>)
    requires g.Valid() && ViewOk(v, g) && ViewOk(v', g) && |v'| == |v|
    requires forall x :: g.bitmapStart <= x < g.bitmapStart + g.bitmapCount && x < |v| ==> v'[x] == v[x]
    requires BitsMatch(v, g, h, leaked)
    ensures BitsMatch(v', g, h, leaked)
  {
    hide g.Valid, ViewOk, BitmapBits, Used, Referenced;
    BitsSame(v, v', g);
  }

  // ---- Bits of free blocks set or cleared ----

  ghost function MarkedIn(v: seq<Block>, g: Geometry, start: nat, n: nat): set<nat> {
    set c | c in RangeSet(start, n) && Used(v, g, c)
  }

  /** Whatever bits of an unreferenced range are set, they only leak. */
  lemma BitsPut(v: seq<Block>, h: seq<Block>, g: Geometry, start: nat, n: nat, leaked: set<nat>)
    requires g.Valid() && g.blockSize > 0 && OwnOk(v, g, leaked)
    requires OnlyBits(v, h, g, start, n) && FreeRun(v, g, start, n)
    requires g.dataStart <= start && start + n <= g.totalBlocks
    ensures OwnOk(h, g, leaked + MarkedIn(h, g, start, n))
    ensures Table(h, g) == Table(v, g) && Held(h, g) == Held(v, g)
  {
    hide Table, Held, FilesOk, Separate, Used, g.Valid, g.Slots, ViewOk, EntryAt, BitmapBits, Referenced;
    ValidSize(g);
    TotalInBitmap(g);
    TableSame(v, h, g);
    BitsOnlyFiles(v, h, g);
    forall b | 0 <= b < BitmapBits(g)
      ensures Used(h, g, b) <==> b < g.dataStart || g.totalBlocks <= b || Referenced(Held(v, g), b)
                                 || b in leaked + MarkedIn(h, g, start, n)
    {
    }
  }

  /** Files do not depend on the bitmap's blocks. */
  lemma BitsOnlyFiles(v: seq<Block>, h: seq<Block>, g: Geometry)
    requires g.Valid() && g.blockSize > 0 && |h| == |v| && FilesOk(v, g)
    requires forall x :: 0 <= x < |v| && OutsideBitmap(g, x) ==> h[x] == v[x]
    requires Table(h, g) == Table(v, g)
    ensures Held(h, g) == Held(v, g) && FilesOk(h, g)
  {
    hide Table, Held, FilesOk, g.Valid, g.Slots, ViewOk, EntryAt, BitmapBits, DecodeExtent, Used;
    ValidSize(g);
    forall i | 0 <= i < g.Slots() && EntryAt(v, g, i).kind == FILE
      ensures SameExtents(v, h, g, EntryAt(v, g, i))
    {
      FileAt(v, g, i);
      ExtentsOutsideBitmap(v, h, g, EntryAt(v, g, i));
    }
    FilesSame(v, h, g);
  }

  lemma FileAt(v: seq<Block>, g: Geometry, i: nat)
    requires g.blockSize > 0 && FilesOk(v, g) && i < g.Slots() && EntryAt(v, g, i).kind == FILE
    ensures FileOk(v, g, EntryAt(v, g, i))
  {
    hide EntryAt, FileOk;
  }

  lemma IndirectInData(v: seq<Block>, g: Geometry, e: Entry)
    requires FileOk(v, g, e) && e.kind == FILE && e.indirect != 0
    ensures g.dataStart <= e.indirect < g.totalBlocks && e.extentCount > DIRECT_EXTENTS
  {
    hide Extents, DataBlocks, Fits;
    assert HeldBy(v, g, e)[0] == e.indirect;
  }

  lemma ExtentsOutsideBitmap(v: seq<Block>, h: seq<Block>, g: Geometry, e: Entry)
    requires g.Valid() && |h| == |v| && FileOk(v, g, e) && e.kind == FILE
    requires forall x :: 0 <= x < |v| && OutsideBitmap(g, x) ==> h[x] == v[x]
    ensures SameExtents(v, h, g, e)
  {
    hide DecodeExtent, g.Valid, Fits, FileOk;
    ValidSize(g);
    NoIndirect(v, g, e);
    forall n | 0 <= n < e.extentCount ensures ExtentAt(h, g, e, n) == ExtentAt(v, g, e, n) {
      if n >= DIRECT_EXTENTS {
        IndirectInData(v, g, e);
      }
    }
  }

  lemma NoIndirect(v: seq<Block>, g: Geometry, e: Entry)
    requires FileOk(v, g, e)
    ensures e.indirect == 0 ==> e.extentCount <= DIRECT_EXTENTS
    ensures e.extentCount <= DIRECT_EXTENTS + IndirectSlots(g) && Fits(e)
    ensures e.size <= |DataBlocks(Extents(v, g, e))| * g.blockSize
  {
  }

  // ---- One entry rewritten ----

  ghost predicate ReferencedElse(h: seq<seq<nat>>, i: nat, b: nat) {
    exists j :: 0 <= j < |h| && j != i && b in h[j]
  }

  lemma ReferencedUpdate(h: seq<seq<nat>>, i: nat, xs: seq<nat>, b: nat)
    requires i < |h|
    ensures Referenced(h, b) <==> b in h[i] || ReferencedElse(h, i, b)
    ensures Referenced(h[i := xs], b) <==> b in xs || ReferencedElse(h, i, b)
  {
    var h' := h[i := xs];
    if b in xs {
      assert b in h'[i];
    }
    if ReferencedElse(h, i, b) {
      var j :| 0 <= j < |h| && j != i && b in h[j];
      assert b in h'[j];
    }
  }

  lemma RefersTo(h: seq<seq<nat>>, i: nat, b: nat)
    requires i < |h|
    ensures b in h[i] ==> Referenced(h, b)
  {
  }

  /** A new block list made of old blocks of the same file and of blocks no file refers to. */
  lemma SeparateUpdate(h: seq<seq<nat>>, i: nat, xs: seq<nat>)
    requires i < |h| && Separate(h) && NoDup(xs)
    requires forall b :: b in xs ==> b in h[i] || !Referenced(h, b)
    ensures Separate(h[i := xs])
  {
    hide NoDup;
    var h' := h[i := xs];
    forall j, k, b | 0 <= j < |h'| && 0 <= k < |h'| && j != k && b in h'[j] ensures b !in h'[k] {
      RefersTo(h, j, b);
      RefersTo(h, k, b);
    }
  }

  /** The table with entry i replaced: the other files' shapes and lists stay. */
  lemma EntryPut(v: seq<Block>, v': seq<Block>, g: Geometry, i: nat, e: Entry)
    requires g.Valid() && g.blockSize > 0 && ViewOk(v, g) && FilesOk(v, g) && i < g.Slots()
    requires |v'| == |v| && Table(v', g) == Table(v, g)[i := e]
    requires forall x :: g.dataStart <= x < |v| ==> v'[x] == v[x]
    requires e.kind == FILE ==> FileOk(v, g, e)
    ensures FilesOk(v', g)
    ensures Held(v', g) == Held(v, g)[i := HeldBy(v, g, e)]
  {
    hide g.Valid, ViewOk, EntryAt, FileOk, HeldBy, FilesOk, Fits;
    ValidSize(g);
    forall j | 0 <= j < g.Slots()
      ensures EntryAt(v', g, j) == if j == i then e else EntryAt(v, g, j)
    {
      assert Table(v', g)[j] == Table(v, g)[i := e][j];
    }
    forall j | 0 <= j < g.Slots()
      ensures HeldBy(v', g, EntryAt(v', g, j)) == HeldBy(v, g, EntryAt(v', g, j))
      ensures EntryAt(v', g, j).kind == FILE ==> FileOk(v', g, EntryAt(v', g, j))
    {
      var f := EntryAt(v', g, j);
      if f.kind == FILE {
        if j != i {
          FileAt(v, g, j);
        }
        FileMoves(v, v', g, f);
      } else {
        NotAFile(v, v', g, f);
      }
    }
    MakeFilesOk(v', g);
  }

  lemma MakeFilesOk(v: seq<Block>, g: Geometry)
    requires g.blockSize > 0
    requires forall j :: 0 <= j < g.Slots() && EntryAt(v, g, j).kind == FILE ==> FileOk(v, g, EntryAt(v, g, j))
    ensures FilesOk(v, g)
  {
    hide EntryAt, FileOk;
  }

  lemma NotAFile(v: seq<Block>, v': seq<Block>, g: Geometry, e: Entry)
    requires e.kind != FILE
    ensures HeldBy(v', g, e) == [] && HeldBy(v, g, e) == []
  {
  }

  lemma FileMoves(v: seq<Block>, v': seq<Block>, g: Geometry, e: Entry)
    requires g.Valid() && |v'| == |v| && FileOk(v, g, e) && e.kind == FILE
    requires forall x :: g.dataStart <= x < |v| ==> v'[x] == v[x]
    ensures HeldBy(v', g, e) == HeldBy(v, g, e) && FileOk(v', g, e)
    ensures Extents(v', g, e) == Extents(v, g, e)
  {
    hide g.Valid, Fits, DecodeExtent;
    ValidSize(g);
    if e.indirect != 0 {
      IndirectInData(v, g, e);
    }
    forall n | 0 <= n < e.extentCount ensures ExtentAt(v', g, e, n) == ExtentAt(v, g, e, n) {
    }
    assert Extents(v', g, e) == Extents(v, g, e);
  }
}
