/** The entry table and the files' block lists, read off a view of the volume. */
module Files {
  import opened Seqs
  import opened Arith
  import opened Bytes
  import opened Layout
  import opened Bitmap
  import opened Entries

  // ---- The entry table ----

  function EntryBlock(g: Geometry, i: nat): (q: nat)
    requires g.blockSize >= ENTRY_SIZE
  {
    i / g.PerBlock()
  }

  function EntryOffset(g: Geometry, i: nat): (r: nat)
    requires g.blockSize >= ENTRY_SIZE
  {
    (i % g.PerBlock()) * ENTRY_SIZE
  }

  /** The freed entry: all zero. */
  function BlankEntry(): Entry {
    Entry(seq(NAME_LEN, _ => 0), FREE, seq(7, _ => 0), 0, 0, 0, 0, 0,
          seq(DIRECT_EXTENTS, _ => Extent(0, 0)), 0, 0, 0, seq(16, _ => 0), seq(4, _ => 0), 0, seq(6, _ => 0))
  }

  ghost function EntryAt(v: seq<Block>, g: Geometry, i: nat): Entry {
    if g.blockSize >= ENTRY_SIZE && g.tableStart + EntryBlock(g, i) < |v|
       && EntryOffset(g, i) + ENTRY_SIZE <= |v[g.tableStart + EntryBlock(g, i)]|
    then DecodeEntry(v[g.tableStart + EntryBlock(g, i)][EntryOffset(g, i)..EntryOffset(g, i) + ENTRY_SIZE])
    else BlankEntry()
  }

  ghost function Table(v: seq<Block>, g: Geometry): (t: seq<Entry>)
    requires g.blockSize > 0
    ensures |t| == g.Slots()
  {
    seq(g.Slots(), i requires 0 <= i < g.Slots() => EntryAt(v, g, i))
  }

  lemma EntryArith(g: Geometry, i: nat)
    requires g.blockSize >= ENTRY_SIZE && i < g.Slots()
    ensures EntryBlock(g, i) < g.tableCount && EntryOffset(g, i) + ENTRY_SIZE <= g.blockSize
  {
    var per := g.PerBlock();
    DivFacts(i, per);
    DivFacts(g.blockSize, ENTRY_SIZE);
    var q := i / per;
    if q >= g.tableCount {
      MulMono(g.tableCount, q, per);
      assert false;
    }
    MulMono(i % per + 1, per, ENTRY_SIZE);
  }

  lemma EntryPlace(v: seq<Block>, g: Geometry, i: nat)
    requires g.Valid() && ViewOk(v, g) && i < g.Slots()
    ensures g.blockSize >= 512 && EntryOffset(g, i) + ENTRY_SIZE <= g.blockSize
    ensures var x := g.tableStart + EntryBlock(g, i);
            && x < |v| && x < g.dataStart && !g.InJournal(x) && |v[x]| == g.blockSize
            && g.tableStart <= x < g.tableStart + g.tableCount
            && EntryAt(v, g, i) == DecodeEntry(v[x][EntryOffset(g, i)..EntryOffset(g, i) + ENTRY_SIZE])
  {
    hide DecodeEntry, EntryBlock, EntryOffset, g.Slots, g.PerBlock;
    BlockSizeFacts(g.blockSize);
    EntryArith(g, i);
  }

  lemma EntriesApart(g: Geometry, i: nat, j: nat)
    requires g.blockSize >= ENTRY_SIZE && i != j && EntryBlock(g, i) == EntryBlock(g, j)
    ensures EntryOffset(g, i) + ENTRY_SIZE <= EntryOffset(g, j) || EntryOffset(g, j) + ENTRY_SIZE <= EntryOffset(g, i)
  {
    var per := g.PerBlock();
    DivFacts(i, per);
    DivFacts(j, per);
  }

  /** Copying an entry into its slot of the table block changes that slot and no other. */
  lemma TablePut(v: seq<Block>, g: Geometry, i: nat, e: Entry)
    requires g.Valid() && ViewOk(v, g) && i < g.Slots() && Fits(e)
    requires g.blockSize >= ENTRY_SIZE && |EncodeEntry(e)| == ENTRY_SIZE
    requires g.tableStart + EntryBlock(g, i) < |v|
    requires EntryOffset(g, i) + ENTRY_SIZE <= |v[g.tableStart + EntryBlock(g, i)]|
    ensures var x := g.tableStart + EntryBlock(g, i);
            var v' := Put(v, x, Splice(v[x], EntryOffset(g, i), EncodeEntry(e)));
            ViewOk(v', g) && Table(v', g) == Table(v, g)[i := e]
  {
    hide DecodeEntry, EncodeEntry, EntryBlock, EntryOffset, g.Slots, g.PerBlock, g.Valid, ViewOk, EntryAt, Splice, Fits;
    EntryPlace(v, g, i);
    var x := g.tableStart + EntryBlock(g, i);
    var y := Splice(v[x], EntryOffset(g, i), EncodeEntry(e));
    var v' := Put(v, x, y);
    PutViewOk(v, g, x, y);
    forall j | 0 <= j < g.Slots() ensures EntryAt(v', g, j) == if j == i then e else EntryAt(v, g, j) {
      EntryPlace(v, g, j);
      EntryPlace(v', g, j);
      if j == i {
        SpliceSame(v[x], EntryOffset(g, i), EncodeEntry(e));
        EntryRoundTrip(e);
      } else if EntryBlock(g, j) == EntryBlock(g, i) {
        EntriesApart(g, i, j);
        SpliceOther(v[x], EntryOffset(g, i), EncodeEntry(e), EntryOffset(g, j), EntryOffset(g, j) + ENTRY_SIZE);
      }
    }
  }

  /** The table only depends on the table's blocks. */
  lemma TableSame(v: seq<Block>, v': seq<Block>, g: Geometry)
    requires g.Valid() && ViewOk(v, g) && ViewOk(v', g) && |v'| == |v|
    requires forall x :: g.tableStart <= x < g.tableStart + g.tableCount && x < |v| ==> v'[x] == v[x]
    ensures g.blockSize > 0 && Table(v', g) == Table(v, g)
  {
    hide DecodeEntry, EntryBlock, EntryOffset, g.Slots, g.PerBlock, g.Valid, ViewOk, EntryAt;
    ValidSize(g);
    forall j | 0 <= j < g.Slots() ensures EntryAt(v', g, j) == EntryAt(v, g, j) {
      EntryPlace(v, g, j);
      EntryPlace(v', g, j);
    }
  }

  lemma ValidSize(g: Geometry)
    requires g.Valid()
    ensures 512 <= g.blockSize <= 4096 && g.blockSize >= ENTRY_SIZE && g.dataStart <= g.totalBlocks
    ensures g.root < g.Slots() && g.tableStart + g.tableCount <= g.dataStart
    ensures 1 <= g.bitmapStart && g.bitmapStart + g.bitmapCount <= g.journalStart
    ensures g.journalStart + g.journalCount <= g.tableStart
    ensures g.totalBlocks * g.blockSize < TWO_64 && g.totalBlocks < TWO_64
  {
    BlockSizeFacts(g.blockSize);
  }

  // ---- Extents and block lists ----

  /** As many records as an indirect block has room for. */
  function IndirectSlots(g: Geometry): (n: nat)
    ensures n * EXTENT_SIZE <= g.blockSize < (n + 1) * EXTENT_SIZE
  {
    g.blockSize / EXTENT_SIZE
  }

  ghost function ExtentAt(v: seq<Block>, g: Geometry, e: Entry, n: nat): Extent {
    if n < DIRECT_EXTENTS then
      if n < |e.direct| then e.direct[n] else Extent(0, 0)
    else
      var at := (n - DIRECT_EXTENTS) * EXTENT_SIZE;
      if e.indirect < |v| && at + EXTENT_SIZE <= |v[e.indirect]|
      then DecodeExtent(v[e.indirect][at..at + EXTENT_SIZE]) else Extent(0, 0)
  }

  ghost function Extents(v: seq<Block>, g: Geometry, e: Entry): (xs: seq<Extent>)
    ensures |xs| == e.extentCount
  {
    seq(e.extentCount, n requires 0 <= n < e.extentCount => ExtentAt(v, g, e, n))
  }

  function Run(start: nat, n: nat): (r: seq<nat>)
    ensures |r| == n && forall i :: 0 <= i < n ==> r[i] == start + i
  {
    seq(n, i requires 0 <= i < n => start + i)
  }

  /** The blocks of an extent list, in file order. */
  function DataBlocks(xs: seq<Extent>): seq<nat> {
    if xs == [] then [] else DataBlocks(xs[..|xs| - 1]) + Run(xs[|xs| - 1].start, xs[|xs| - 1].count)
  }

  function Indirect(e: Entry): seq<nat> {
    if e.indirect != 0 then [e.indirect] else []
  }

  /** Every block a file refers to. */
  ghost function HeldBy(v: seq<Block>, g: Geometry, e: Entry): seq<nat> {
    if e.kind == FILE then Indirect(e) + DataBlocks(Extents(v, g, e)) else []
  }

  ghost predicate FileOk(v: seq<Block>, g: Geometry, e: Entry) {
    && Fits(e)
    && e.extentCount <= DIRECT_EXTENTS + IndirectSlots(g)
    && (e.indirect != 0 <==> e.extentCount > DIRECT_EXTENTS)
    && e.size <= |DataBlocks(Extents(v, g, e))| * g.blockSize
    && (forall p :: 0 <= p < |HeldBy(v, g, e)| ==> g.dataStart <= HeldBy(v, g, e)[p] < g.totalBlocks)
  }

  ghost function Held(v: seq<Block>, g: Geometry): (h: seq<seq<nat>>)
    requires g.blockSize > 0
    ensures |h| == g.Slots()
  {
    seq(g.Slots(), i requires 0 <= i < g.Slots() => HeldBy(v, g, EntryAt(v, g, i)))
  }

  /** No block is referred to twice, by one file or by two. */
  ghost predicate Separate(h: seq<seq<nat>>) {
    && (forall i :: 0 <= i < |h| ==> NoDup(h[i]))
    && (forall i, j, b :: 0 <= i < |h| && 0 <= j < |h| && i != j && b in h[i] ==> b !in h[j])
  }

  ghost predicate Referenced(h: seq<seq<nat>>, b: nat) {
    exists i :: 0 <= i < |h| && b in h[i]
  }

  /** A block's bit is set exactly when it is metadata, padding, referred to by a file, or leaked. */
  ghost predicate BitsMatch(v: seq<Block>, g: Geometry, h: seq<seq<nat>>, leaked: set<nat>) {
    && (forall b :: 0 <= b < BitmapBits(g) ==>
          (Used(v, g, b) <==> b < g.dataStart || g.totalBlocks <= b || Referenced(h, b) || b in leaked))
    && (forall b :: b in leaked ==> g.dataStart <= b < g.totalBlocks && !Referenced(h, b))
  }

  ghost predicate FilesOk(v: seq<Block>, g: Geometry)
    requires g.blockSize > 0
  {
    forall i :: 0 <= i < g.Slots() && EntryAt(v, g, i).kind == FILE ==> FileOk(v, g, EntryAt(v, g, i))
  }

  /**
   * Block ownership: the files' blocks lie in the data area and are theirs alone, and the bitmap
   * says so; the set `leaked` is marked used without belonging to any file.
   */
  ghost predicate OwnOk(v: seq<Block>, g: Geometry, leaked: set<nat>)
    requires g.blockSize > 0
  {
    && ViewOk(v, g)
    && FilesOk(v, g)
    && Separate(Held(v, g))
    && BitsMatch(v, g, Held(v, g), leaked)
  }
}
