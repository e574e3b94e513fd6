/** What the steps of vtx2_write mean for block ownership and for the files' bytes. */
module WriteLemmas {
  import opened Seqs
  import opened Arith
  import opened Bytes
  import opened Layout
  import opened JournalBytes
  import opened Bitmap
  import opened Entries
  import opened Files
  import opened Ownership
  import opened Contents
  import opened FileReads
  import opened FileGrowth
  import opened FileWrites

  // ---- One chunk stored into a file ----

  lemma ChunkInFile(v: seq<Block>, g: Geometry, e: Entry, pos: nat, piece: seq<byte>)
    requires g.Valid() && g.blockSize > 0 && ViewOk(v, g) && LocalFile(v, g, e)
    requires 0 <= pos / g.blockSize < |DataBlocks(Extents(v, g, e))|
    requires 0 <= pos % g.blockSize && pos % g.blockSize + |piece| <= g.blockSize
    ensures var b := DataBlocks(Extents(v, g, e))[pos / g.blockSize];
            && g.dataStart <= b < g.totalBlocks && b < |v| && |v[b]| == g.blockSize
            && pos + |piece| <= |FileBytes(v, g, e)|
            && var v' := Put(v, b, Splice(v[b], pos % g.blockSize, piece));
            && Extents(v', g, e) == Extents(v, g, e)
            && LocalFile(v', g, e)
            && FileBytes(v', g, e) == Splice(FileBytes(v, g, e), pos, piece)
  {
    hide g.Valid, ViewOk, LocalFile, DataBlocks, Flat, Extents, Pick, Splice, NoDup;
    LocalParts(v, g, e);
    var bl := DataBlocks(Extents(v, g, e));
    var q, r := pos / g.blockSize, pos % g.blockSize;
    var b := bl[q];
    DataInView(v, g, b);
    var x := Splice(v[b], r, piece);
    DivFacts(pos, g.blockSize);
    PickSize(v, g, bl);
    PickIs(v, bl, q);
    FlatSplice(Pick(v, bl), g.blockSize, q, r, piece);
    PickPut(v, bl, q, x);
    OtherBlockExtents(v, g, e, b, x);
    LocalMoves(v, Put(v, b, x), g, e);
  }

  lemma PickIs(v: seq<Block>, bl: seq<nat>, q: nat)
    requires q < |bl| && bl[q] < |v|
    ensures Pick(v, bl)[q] == v[bl[q]]
  {
  }

  lemma OtherBlockExtents(v: seq<Block>, g: Geometry, e: Entry, b: nat, x: Block)
    requires b < |v| && (e.extentCount > DIRECT_EXTENTS ==> e.indirect != b)
    ensures Extents(Put(v, b, x), g, e) == Extents(v, g, e)
  {
    hide DecodeExtent;
    var v' := Put(v, b, x);
    forall n | 0 <= n < e.extentCount ensures ExtentAt(v', g, e, n) == ExtentAt(v, g, e, n) {
    }
  }

  lemma LocalMoves(v: seq<Block>, v': seq<Block>, g: Geometry, e: Entry)
    requires LocalFile(v, g, e) && Extents(v', g, e) == Extents(v, g, e)
    ensures LocalFile(v', g, e)
  {
    hide Extents, DataBlocks, Fits;
  }

  /** b is no live file's indirect block, so its contents may change freely. */
  ghost predicate NotIndirect(v: seq<Block>, g: Geometry, b: nat)
    requires g.blockSize > 0
  {
    forall i :: 0 <= i < g.Slots() && EntryAt(v, g, i).kind == FILE ==> EntryAt(v, g, i).indirect != b
  }

  lemma NotIndirectKeeps(v: seq<Block>, g: Geometry, b: nat, x: Block)
    requires g.blockSize > 0 && NotIndirect(v, g, b)
    ensures KeepsIndirect(v, g, b, x)
  {
    hide EntryAt, g.Slots, KeepsRecords;
  }

  lemma NotIndirectSame(v: seq<Block>, v': seq<Block>, g: Geometry, b: nat)
    requires g.blockSize > 0 && NotIndirect(v, g, b) && Table(v', g) == Table(v, g)
    ensures NotIndirect(v', g, b)
  {
    hide EntryAt, g.Slots;
    forall i | 0 <= i < g.Slots() ensures EntryAt(v', g, i) == EntryAt(v, g, i) {
      SameEntry(v, v', g, i);
    }
  }

  /** Data blocks of a file, and pending blocks, are nobody's indirect block. */
  lemma FileBlockNotIndirect(v: seq<Block>, g: Geometry, i: nat, b: nat)
    requires g.blockSize > 0 && b > 0 && Separate(Held(v, g)) && i < g.Slots()
    requires !Referenced(Held(v, g), b) || (b in Held(v, g)[i] && EntryAt(v, g, i).indirect != b)
    ensures NotIndirect(v, g, b)
  {
    hide EntryAt, Held, g.Slots, NoDup, Referenced;
    forall j | 0 <= j < g.Slots() && EntryAt(v, g, j).kind == FILE ensures EntryAt(v, g, j).indirect != b {
      if EntryAt(v, g, j).indirect == b {
        IndirectHeld(v, g, j);
        RefersTo(Held(v, g), j, b);
        assert false;
      }
    }
  }

  // ---- The final entry ----

  /** xs and h together: the same blocks, plus exactly the pending ones. */
  ghost predicate GrowsBy(h: seq<nat>, xs: seq<nat>, pending: set<nat>) {
    && (forall b :: b in h ==> b in xs)
    && (forall b :: b in pending ==> b in xs)
    && (forall b :: b in xs ==> b in h || b in pending)
  }

  lemma BitsGrow(v: seq<Block>, v': seq<Block>, g: Geometry, h: seq<seq<nat>>, i: nat, xs: seq<nat>,
                 leaked: set<nat>, pending: set<nat>)
    requires BitsMatch(v, g, h, leaked + pending) && leaked !! pending && i < |h|
    requires Separate(h) && GrowsBy(h[i], xs, pending)
    requires forall c :: 0 <= c < BitmapBits(g) ==> Used(v', g, c) == Used(v, g, c)
    ensures BitsMatch(v', g, h[i := xs], leaked)
  {
    hide Used, BitmapBits, Referenced, ReferencedElse, Separate;
    forall b: nat ensures Referenced(h[i := xs], b) <==> Referenced(h, b) || b in pending {
      ReferencedUpdate(h, i, xs, b);
    }
    forall b | b in leaked ensures g.dataStart <= b < g.totalBlocks && !Referenced(h[i := xs], b) {
    }
  }

  /** The entry with its grown block list goes to the table: the pending blocks are the file's. */
  lemma EntryOwn(v: seq<Block>, v': seq<Block>, g: Geometry, i: nat, e: Entry, leaked: set<nat>, pending: set<nat>)
    requires g.Valid() && g.blockSize > 0 && OwnOk(v, g, leaked + pending) && leaked !! pending
    requires i < g.Slots() && LocalFile(v, g, e) && ViewOk(v', g)
    requires Table(v', g) == Table(v, g)[i := e] && SameButTable(v, v', g)
    requires GrowsBy(Held(v, g)[i], HeldBy(v, g, e), pending)
    ensures OwnOk(v', g, leaked)
    ensures Held(v', g) == Held(v, g)[i := HeldBy(v, g, e)]
  {
    hide g.Valid, ViewOk, FilesOk, Separate, Held, HeldBy, Table, Used, BitmapBits, FileOk, NoDup, BitsMatch, GrowsBy;
    ValidSize(g);
    EntryPut(v, v', g, i, e);
    BitsSame(v, v', g);
    GrowSeparate(v, g, Held(v, g), i, HeldBy(v, g, e), leaked, pending);
    BitsGrow(v, v', g, Held(v, g), i, HeldBy(v, g, e), leaked, pending);
  }

  lemma GrowSeparate(v: seq<Block>, g: Geometry, h: seq<seq<nat>>, i: nat, xs: seq<nat>,
                     leaked: set<nat>, pending: set<nat>)
    requires Separate(h) && i < |h| && NoDup(xs) && GrowsBy(h[i], xs, pending)
    requires BitsMatch(v, g, h, leaked + pending)
    ensures Separate(h[i := xs])
  {
    hide NoDup, Used, Referenced, Separate;
    SeparateUpdate(h, i, xs);
  }

  // ---- The other files ----

  /** Every other live file keeps its entry, its blocks and its contents. */
  ghost predicate OthersKept(v: seq<Block>, v': seq<Block>, g: Geometry, i: nat)
    requires g.blockSize > 0
  {
    forall j :: 0 <= j < g.Slots() && j != i && EntryAt(v, g, j).kind == FILE ==>
      EntryAt(v', g, j) == EntryAt(v, g, j)
      && Content(v', g, EntryAt(v, g, j)) == Content(v, g, EntryAt(v, g, j))
  }

  lemma FileKept(v: seq<Block>, v': seq<Block>, g: Geometry, e: Entry)
    requires LocalFile(v, g, e) && |v'| == |v|
    requires forall b :: b in HeldBy(v, g, e) && b < |v| ==> v'[b] == v[b]
    ensures Extents(v', g, e) == Extents(v, g, e) && FileBytes(v', g, e) == FileBytes(v, g, e)
    ensures Content(v', g, e) == Content(v, g, e)
  {
    hide LocalFile, DataBlocks, Flat, Fits;
    LocalParts(v, g, e);
    forall n | 0 <= n < e.extentCount ensures ExtentAt(v', g, e, n) == ExtentAt(v, g, e, n) {
      if n >= DIRECT_EXTENTS {
        IndirectIn(v, g, e);
      }
    }
    assert Extents(v', g, e) == Extents(v, g, e);
    var bl := DataBlocks(Extents(v, g, e));
    forall p | 0 <= p < |bl| && bl[p] < |v| ensures v'[bl[p]] == v[bl[p]] {
      assert bl[p] in HeldBy(v, g, e);
    }
    PickOther(v, v', bl);
  }

  /** Only blocks of file i and unreferenced blocks changed: the other files did not. */
  lemma OthersUntouched(v: seq<Block>, v': seq<Block>, g: Geometry, i: nat, leaked: set<nat>)
    requires g.Valid() && g.blockSize > 0 && OwnOk(v, g, leaked) && i < g.Slots() && |v'| == |v|
    requires Table(v', g) == Table(v, g)[i := EntryAt(v', g, i)]
    requires forall b :: g.dataStart <= b < |v| && Referenced(Held(v, g), b) && b !in Held(v, g)[i] ==> v'[b] == v[b]
    ensures OthersKept(v, v', g, i)
  {
    hide g.Valid, OwnOk, EntryAt, Held, Table, Referenced, g.Slots, LocalFile, HeldBy, Content, NoDup, FileBytes;
    OwnParts(v, g, leaked);
    forall j | 0 <= j < g.Slots() && j != i && EntryAt(v, g, j).kind == FILE
      ensures EntryAt(v', g, j) == EntryAt(v, g, j)
              && Content(v', g, EntryAt(v, g, j)) == Content(v, g, EntryAt(v, g, j))
    {
      TableEntry(v, v', g, i, j);
      OnDiskFile(v, g, j, leaked);
      forall b | b in HeldBy(v, g, EntryAt(v, g, j)) && b < |v| ensures v'[b] == v[b] {
        RefersTo(Held(v, g), j, b);
        HeldInData(v, g, EntryAt(v, g, j), b);
      }
      FileKept(v, v', g, EntryAt(v, g, j));
    }
  }

  lemma HeldInData(v: seq<Block>, g: Geometry, e: Entry, b: nat)
    requires LocalFile(v, g, e) && b in HeldBy(v, g, e)
    ensures g.dataStart <= b < g.totalBlocks
  {
    hide HeldBy, NoDup, Extents, DataBlocks, Fits;
  }

  lemma TableEntry(v: seq<Block>, v': seq<Block>, g: Geometry, i: nat, j: nat)
    requires g.blockSize > 0 && i < g.Slots() && j < g.Slots() && j != i
    requires Table(v', g) == Table(v, g)[i := EntryAt(v', g, i)]
    ensures EntryAt(v', g, j) == EntryAt(v, g, j)
  {
    hide EntryAt, g.Slots;
    assert Table(v', g)[j] == Table(v, g)[i := EntryAt(v', g, i)][j];
  }

  lemma TableAt(v: seq<Block>, g: Geometry, i: nat)
    requires g.blockSize > 0 && i < g.Slots()
    ensures Table(v, g)[i] == EntryAt(v, g, i)
  {
    hide EntryAt, g.Slots;
  }
}
