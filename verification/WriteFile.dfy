/** vtx2_write: growing a file, copying into it, and putting its entry on disk. */
module WriteFile {
  import opened Seqs
  import opened Arith
  import opened Bytes
  import opened Layout
  import opened JournalBytes
  import opened Bitmap
  import opened Entries
  import opened Files
  import opened Ownership
  import opened Contents
  import opened Volumes
  import opened Allocator
  import opened FileReads
  import opened FileGrowth
  import opened FileWrites
  import opened WriteLemmas

  /** The bytes all of an entry's extents hold. */
  method CapacityOf(vol: Volume, entry: Entry) returns (capacity: nat)
    requires vol.Valid() && vol.g.blockSize > 0 && LocalFile(vol.V(), vol.g, entry)
    modifies vol`scratch2
    ensures vol.Valid()
    ensures capacity == |DataBlocks(Extents(vol.V(), vol.g, entry))| * vol.g.blockSize
  {
    hide vol.Valid, vol.V, vol.g.Valid, DataBlocks, LocalFile, Fits, ExtentAt, FileOk;
    ghost var xs := Extents(vol.V(), vol.g, entry);
    LocalParts(vol.V(), vol.g, entry);
    DataBlocksAll(xs);
    capacity := 0;
    var n := 0;
    while n < entry.extentCount
      invariant n <= entry.extentCount && vol.Valid()
      invariant capacity == |DataBlocks(xs[..n])| * vol.g.blockSize
    {
      var res, ext := GetExtent(vol, entry, n);
      assert ext == xs[n];
      DataBlocksStep(xs, n);
      SumTimes(|DataBlocks(xs[..n])|, ext.count, vol.g.blockSize);
      capacity := capacity + ext.count * vol.g.blockSize;
      n := n + 1;
    }
  }

  /** File `e` of v has become the local file e' of v': the same blocks, then `added`; `pending` are the new ones. */
  ghost predicate Grown(v: seq<Block>, v': seq<Block>, g: Geometry, i: nat, e: Entry, e': Entry,
                        added: seq<nat>, leaked: set<nat>, pending: set<nat>)
    requires g.blockSize > 0
  {
    && |v'| == |v| && i < g.Slots()
    && e' == e.(direct := e'.direct, extentCount := e'.extentCount, indirect := e'.indirect)
    && (e.indirect != 0 ==> e'.indirect == e.indirect)
    && Table(v', g) == Table(v, g) && Held(v', g) == Held(v, g)
    && LocalFile(v', g, e')
    && DataBlocks(Extents(v', g, e')) == DataBlocks(Extents(v, g, e)) + added
    && OwnOk(v', g, leaked + pending) && leaked !! pending
    && GrowsBy(Held(v, g)[i], HeldBy(v', g, e'), pending)
    && (forall b :: b in pending ==> !Referenced(Held(v, g), b))
    && (forall b :: g.dataStart <= b < |v| && b != e'.indirect ==> v'[b] == v[b])
  }

  lemma GrownNothing(v: seq<Block>, g: Geometry, i: nat, e: Entry, leaked: set<nat>)
    requires g.blockSize > 0 && OwnOk(v, g, leaked) && i < g.Slots() && EntryAt(v, g, i) == e && e.kind == FILE
    ensures Grown(v, v, g, i, e, e, [], leaked, {})
  {
    hide OwnOk, EntryAt, HeldBy, Held, Table, LocalFile, DataBlocks, Extents, Referenced, g.Slots;
    OnDiskFile(v, g, i, leaked);
    assert leaked + {} == leaked;
    assert DataBlocks(Extents(v, g, e)) + [] == DataBlocks(Extents(v, g, e));
  }

  lemma AppendedGrows(v0: seq<Block>, v: seq<Block>, v': seq<Block>, g: Geometry, i: nat, e: Entry, e': Entry,
                      x: Extent, leaked: set<nat>)
    requires g.blockSize > 0 && i < g.Slots() && |v| == |v0|
    requires Held(v, g) == Held(v0, g) && Table(v, g) == Table(v0, g)
    requires Held(v0, g)[i] == HeldBy(v, g, e)
    requires DataBlocks(Extents(v, g, e)) == DataBlocks(Extents(v0, g, e))
    requires Appended(v, v', g, e, e', x, leaked + RangeSet(x.start, x.count))
    requires forall b :: x.start <= b < x.start + x.count ==> b !in leaked && !Referenced(Held(v0, g), b)
    requires forall b :: g.dataStart <= b < |v| ==> v[b] == v0[b]
    ensures Grown(v0, v', g, i, e, e', Run(x.start, x.count), leaked, RangeSet(x.start, x.count) + NewIndirect(e, e'))
  {
    hide OwnOk, EntryAt, HeldBy, Held, Table, LocalFile, DataBlocks, Extents, Referenced, g.Slots, Run, NewIndirect,
         GrowsBy, RangeSet;
    var r, n := RangeSet(x.start, x.count), NewIndirect(e, e');
    assert leaked + (r + n) == leaked + r + n;
    AppendedBlocks(v0, v, v', g, i, e, e', x, leaked);
  }

  lemma AppendedBlocks(v0: seq<Block>, v: seq<Block>, v': seq<Block>, g: Geometry, i: nat, e: Entry, e': Entry,
                       x: Extent, leaked: set<nat>)
    requires g.blockSize > 0 && i < g.Slots() && Held(v, g) == Held(v0, g) && Held(v0, g)[i] == HeldBy(v, g, e)
    requires Appended(v, v', g, e, e', x, leaked + RangeSet(x.start, x.count))
    requires forall b :: x.start <= b < x.start + x.count ==> b !in leaked && !Referenced(Held(v0, g), b)
    ensures var pending := RangeSet(x.start, x.count) + NewIndirect(e, e');
            && leaked !! pending && GrowsBy(Held(v0, g)[i], HeldBy(v', g, e'), pending)
            && (forall b :: b in pending ==> !Referenced(Held(v0, g), b))
  {
    hide OwnOk, EntryAt, HeldBy, Held, Table, LocalFile, DataBlocks, Extents, Referenced, g.Slots, Run, NewIndirect, Appended;
    var r, n := RangeSet(x.start, x.count), NewIndirect(e, e');
    AppendedSets(v, v', g, e, e', x, leaked + r);
    assert forall b :: b in n ==> b in HeldBy(v', g, e') && b !in leaked + r && !Referenced(Held(v0, g), b);
    assert forall b :: b in r ==> b in HeldBy(v', g, e') && b !in leaked && !Referenced(Held(v0, g), b);
  }

  lemma AppendedSets(v: seq<Block>, v': seq<Block>, g: Geometry, e: Entry, e': Entry, x: Extent, leaked: set<nat>)
    requires g.blockSize > 0 && Appended(v, v', g, e, e', x, leaked)
    ensures forall b :: b in NewIndirect(e, e') ==>
              b in HeldBy(v', g, e') && b !in leaked && !Referenced(Held(v, g), b)
    ensures forall b :: b in RangeSet(x.start, x.count) ==> b in HeldBy(v', g, e')
    ensures forall b :: b in HeldBy(v', g, e') ==>
              b in HeldBy(v, g, e) || b in RangeSet(x.start, x.count) || b in NewIndirect(e, e')
    ensures forall b :: b in HeldBy(v, g, e) ==> b in HeldBy(v', g, e')
  {
    hide OwnOk, HeldBy, Held, Table, LocalFile, DataBlocks, Extents, Referenced, Run, NewIndirect;
  }

  /** The undo of a failed append: the fresh blocks are free again. */
  lemma UndoOwn(v0: seq<Block>, v1: seq<Block>, v2: seq<Block>, g: Geometry, start: nat, n: nat, leaked: set<nat>)
    requires g.Valid() && g.blockSize > 0 && OwnOk(v0, g, leaked) && FirstFit(v0, g, start, n)
    requires Marked(v0, v1, g, start, n, true) && Marked(v1, v2, g, start, n, false)
    ensures OwnOk(v2, g, leaked) && Table(v2, g) == Table(v0, g)
    ensures |v2| == |v0| && forall x :: g.dataStart <= x < |v0| ==> v2[x] == v0[x]
    ensures |FreeSet(v2, g)| == |FreeSet(v1, g)| + n
  {
    hide g.Valid, OwnOk, Used, BitmapBits, Table, Held, ViewOk, OnlyBits, FreeRun;
    MarkedOnlyBits(v0, v1, g, start, n, n, true);
    MarkedOnlyBits(v1, v2, g, start, n, n, false);
    OnlyBitsTrans(v0, v1, v2, g, start, n);
    BitsPut(v0, v2, g, start, n, leaked);
    TotalInBitmap(g);
    assert MarkedIn(v2, g, start, n) == {};
    assert leaked + {} == leaked;
    FreeingCount(v1, v2, g, start, n);
    MarkedKeepsData(v0, v1, g, start, n, true);
    MarkedKeepsData(v1, v2, g, start, n, false);
  }

  lemma UndoState(v0: seq<Block>, v1: seq<Block>, h: seq<Block>, g: Geometry, start: nat, n: nat, leaked: set<nat>)
    requires g.Valid() && g.blockSize > 0 && OwnOk(v0, g, leaked) && FirstFit(v0, g, start, n)
    requires Marked(v0, v1, g, start, n, true) && OnlyBits(v1, h, g, start, n)
    ensures StateOf(h, g, v0, {})
  {
    hide g.Valid, OwnOk, Marked, Table, OnlyBits, Sound, FirstFit, DataBut;
    MarkedOnlyBits(v0, v1, g, start, n, n, true);
    OnlyBitsTrans(v0, v1, h, g, start, n);
    OnlyBitsSound(v0, h, g, start, n, leaked);
    OnlyBitsData(v0, h, g, start, n);
  }

  /** vtx2_free_blocks after a failed append: everything is as before the allocation. */
  method Undo(vol: Volume, start: nat, n: nat, ghost v0: seq<Block>, ghost leaked: set<nat>)
    requires vol.Valid() && vol.g.Valid() && vol.g.blockSize > 0 && OwnOk(v0, vol.g, leaked)
    requires FirstFit(v0, vol.g, start, n) && Marked(v0, vol.V(), vol.g, start, n, true)
    modifies vol, vol.dev
    ensures vol.Valid() && vol.Continues() && OwnOk(vol.V(), vol.g, leaked)
    ensures Table(vol.V(), vol.g) == Table(v0, vol.g)
    ensures |vol.V()| == |v0| && forall x :: vol.g.dataStart <= x < |v0| ==> vol.V()[x] == v0[x]
    ensures old(HintExact(vol)) ==> HintExact(vol)
    ensures SoundSince(vol, |old(vol.history)|, v0, {})
  {
    hide vol.Valid, vol.V, vol.g.Valid, OwnOk, Marked, Table, FreeSet, StateOf, FirstFit, OnlyBits, BitmapBits;
    ghost var v1 := vol.V();
    TotalInBitmap(vol.g);
    FitBounds(v0, vol.g, start, n);
    var res := FreeBlocks(vol, start, n);
    UndoOwn(v0, v1, vol.V(), vol.g, start, n, leaked);
    forall k | |old(vol.history)| <= k < |vol.history|
      ensures StateOf(vol.history[k], vol.g, v0, {})
    {
      UndoState(v0, v1, vol.history[k], vol.g, start, n, leaked);
    }
  }

  lemma PendingNow(v: seq<Block>, g: Geometry, start: nat, n: nat, leaked: set<nat>)
    requires g.Valid() && g.blockSize > 0
    requires g.dataStart <= start && start + n <= g.totalBlocks
    requires forall b :: start <= b < start + n ==> !Referenced(Held(v, g), b)
    ensures Pending(v, g, Extent(start, n), leaked + RangeSet(start, n))
  {
    hide Held, Referenced;
    ValidSize(g);
  }

  /** What makes the growth step fail: no run of free blocks, no free record, or no block left for the records. */
  ghost predicate GrowFails(v: seq<Block>, g: Geometry, e: Entry, extra: nat) {
    || NoFit(v, g, extra)
    || e.extentCount >= DIRECT_EXTENTS + IndirectSlots(g)
    || (e.extentCount == DIRECT_EXTENTS && |FreeSet(v, g)| == extra)
  }

  lemma NoRun(v: seq<Block>, g: Geometry, e: Entry, extra: nat)
    requires NoFit(v, g, extra)
    ensures GrowFails(v, g, e, extra)
  {
    hide NoFit;
  }

  /** The run is taken; whether its record finds a place is known before it is written. */
  lemma GrowthOutcome(v: seq<Block>, v1: seq<Block>, g: Geometry, e: Entry, extra: nat, start: nat)
    requires g.Valid() && FirstFit(v, g, start, extra) && |FreeSet(v, g)| == |FreeSet(v1, g)| + extra
    ensures GrowFails(v, g, e, extra) <==>
              e.extentCount >= DIRECT_EXTENTS + IndirectSlots(g) || (e.extentCount == DIRECT_EXTENTS && NoFit(v1, g, 1))
  {
    hide NoFit, FirstFit, FreeSet, IndirectSlots, g.Valid;
    FitsNot(v, g, start, extra);
    FitsOne(v1, g);
  }

  lemma DataAll(v: seq<Block>, v': seq<Block>, g: Geometry, s: set<nat>)
    requires |v'| == |v| && forall b :: g.dataStart <= b < |v| ==> v'[b] == v[b]
    ensures DataBut(v, v', g, s)
  {
  }

  lemma FitsOne(v: seq<Block>, g: Geometry)
    requires g.Valid()
    ensures NoFit(v, g, 1) <==> |FreeSet(v, g)| == 0
  {
    hide Used, g.Valid;
    if b: nat :| b in FreeSet(v, g) {
      assert FreeRun(v, g, b, 1);
    } else {
      assert FreeSet(v, g) == {};
      forall b: nat | g.dataStart <= b && b + 1 <= g.totalBlocks ensures !FreeRun(v, g, b, 1) {
        assert b !in FreeSet(v, g);
      }
    }
  }

  /** The growth step of vtx2_write: allocate, append the extent, and undo the allocation if that fails. */
  method Grow(vol: Volume, entry: Entry, extra: nat, ghost index: nat, ghost leaked: set<nat>)
    returns (res: FsResult, entry': Entry, ghost added: seq<nat>, ghost pending: set<nat>)
    requires vol.Valid() && vol.g.Valid() && vol.g.blockSize > 0 && OwnOk(vol.V(), vol.g, leaked) && extra > 0
    requires index < vol.g.Slots() && EntryAt(vol.V(), vol.g, index) == entry && entry.kind == FILE
    modifies vol, vol.dev
    ensures vol.Valid() && vol.Continues()
    ensures old(HintExact(vol)) ==> HintExact(vol)
    ensures SoundSince(vol, |old(vol.history)|, old(vol.V()), if res == OK then {entry'.indirect} else {})
    ensures res == if GrowFails(old(vol.V()), vol.g, entry, extra) then ERR_NO_SPACE else OK
    ensures res == OK ==>
              Grown(old(vol.V()), vol.V(), vol.g, index, entry, entry', added, leaked, pending) && |added| == extra
    ensures res != OK ==>
              && OwnOk(vol.V(), vol.g, leaked) && Table(vol.V(), vol.g) == Table(old(vol.V()), vol.g)
              && |vol.V()| == |old(vol.V())|
              && (forall x :: vol.g.dataStart <= x < |vol.V()| ==> vol.V()[x] == old(vol.V())[x])
  {
    hide vol.Valid, vol.V, vol.g.Valid, OwnOk, NoFit, Table, Held, HeldBy, FreeSet, Referenced, StateOf, EntryAt, Fits,
         Extents, DataBlocks, vol.g.Slots, LocalFile, Appended, Grown, Marked, FirstFit, Pending, Run, IndirectSlots,
         DataBut, NewIndirect, RangeSet, GrowFails;
    var g := vol.g;
    ghost var v := vol.V();
    entry', added, pending := entry, [], {};
    var start;
    res, start := Reserve(vol, extra, leaked);
    if res != OK {
      NoRun(v, g, entry, extra);
      return;
    }
    ghost var h1, v1 := vol.history, vol.V();
    DataAll(v, v, g, {});
    FitBounds(v, g, start, extra);
    PendingNow(v1, g, start, extra, leaked);
    SameEntry(v, v1, g, index);
    res, entry' := AppendExtent(vol, entry, Extent(start, extra), index, leaked + RangeSet(start, extra));
    GrowthOutcome(v, v1, g, entry, extra, start);
    if res != OK {
      Undo(vol, start, extra, v, leaked);
      SoundSinceMore(vol, old(vol.history), h1, v, {}, v, {}, {});
      return;
    }
    DataAll(v, v1, g, {entry'.indirect});
    SoundSinceMore(vol, old(vol.history), h1, v, {}, v1, {entry'.indirect}, {entry'.indirect});
    OnDiskFile(v1, g, index, leaked + RangeSet(start, extra));
    ExtentsKeptData(v, v1, g, index, leaked);
    added := Run(start, extra);
    pending := RangeSet(start, extra) + NewIndirect(entry, entry');
    AppendedGrows(v, v1, vol.V(), g, index, entry, entry', Extent(start, extra), leaked);
  }

  /** Data blocks unchanged: the file's extents read the same. */
  lemma ExtentsKeptData(v: seq<Block>, v': seq<Block>, g: Geometry, i: nat, leaked: set<nat>)
    requires g.Valid() && g.blockSize > 0 && OwnOk(v, g, leaked) && i < g.Slots() && EntryAt(v, g, i).kind == FILE
    requires |v'| == |v| && forall x :: g.dataStart <= x < |v| ==> v'[x] == v[x]
    ensures Extents(v', g, EntryAt(v, g, i)) == Extents(v, g, EntryAt(v, g, i))
  {
    hide g.Valid, OwnOk, EntryAt, HeldBy, Extents, FileOk, NoDup;
    OnDiskFile(v, g, i, leaked);
    FileMoves(v, v', g, EntryAt(v, g, i));
  }

  // ---- The copy loop ----

  /** The file's blocks may be overwritten: none of them is anyone's indirect block. */
  ghost predicate Writable(v: seq<Block>, g: Geometry, bl: seq<nat>)
    requires g.blockSize > 0
  {
    forall p :: 0 <= p < |bl| ==> NotIndirect(v, g, bl[p])
  }

  lemma WritableSame(v: seq<Block>, v': seq<Block>, g: Geometry, bl: seq<nat>)
    requires g.blockSize > 0 && Writable(v, g, bl) && Table(v', g) == Table(v, g)
    ensures Writable(v', g, bl)
  {
    hide NotIndirect, Table;
    forall p | 0 <= p < |bl| ensures NotIndirect(v', g, bl[p]) {
      NotIndirectSame(v, v', g, bl[p]);
    }
  }

  lemma GrownWritable(v: seq<Block>, v': seq<Block>, g: Geometry, i: nat, e: Entry, e': Entry,
                      added: seq<nat>, leaked: set<nat>, pending: set<nat>)
    requires g.Valid() && g.blockSize > 0 && OwnOk(v, g, leaked) && EntryAt(v, g, i) == e && e.kind == FILE
    requires Grown(v, v', g, i, e, e', added, leaked, pending)
    ensures Writable(v', g, DataBlocks(Extents(v', g, e')))
  {
    hide g.Valid, OwnOk, EntryAt, HeldBy, Held, Table, LocalFile, DataBlocks, Extents, Referenced, g.Slots, NotIndirect;
    OwnParts(v, g, leaked);
    ValidSize(g);
    var bl := DataBlocks(Extents(v', g, e'));
    forall p | 0 <= p < |bl| ensures NotIndirect(v', g, bl[p]) {
      DataOfGrown(v', g, e', e.indirect, bl[p]);
      FileBlockNotIndirect(v, g, i, bl[p]);
      NotIndirectSame(v, v', g, bl[p]);
    }
  }

  lemma DataOfGrown(v: seq<Block>, g: Geometry, e: Entry, indirect: nat, b: nat)
    requires LocalFile(v, g, e) && b in DataBlocks(Extents(v, g, e)) && 0 < g.dataStart
    requires indirect != 0 ==> e.indirect == indirect
    ensures b in HeldBy(v, g, e) && b != indirect && b > 0
  {
    hide LocalFile, DataBlocks, Extents;
    LocalParts(v, g, e);
  }

  ghost function BlockSet(bl: seq<nat>): set<nat> {
    set b | b in bl
  }

  /** Every block of h is as in v or as in v'. */
  ghost predicate OldOrFinal(v: seq<Block>, h: seq<Block>, v': seq<Block>) {
    |h| == |v| == |v'| && forall b :: 0 <= b < |v| ==> h[b] == v[b] || h[b] == v'[b]
  }

  /** One turn of the copy loop. */
  method CopyChunk(vol: Volume, entry: Entry, pos: nat, piece: seq<byte>, ghost leaked: set<nat>)
    returns (found: bool)
    requires vol.Valid() && vol.g.Valid() && vol.g.blockSize > 0 && OwnOk(vol.V(), vol.g, leaked)
    requires LocalFile(vol.V(), vol.g, entry)
    requires Writable(vol.V(), vol.g, DataBlocks(Extents(vol.V(), vol.g, entry)))
    requires 0 < |piece| && 0 <= pos % vol.g.blockSize && pos % vol.g.blockSize + |piece| <= vol.g.blockSize
    requires pos < |DataBlocks(Extents(vol.V(), vol.g, entry))| * vol.g.blockSize
    modifies vol, vol.dev
    ensures vol.Valid() && vol.Continues() && found
    ensures OwnOk(vol.V(), vol.g, leaked)
    ensures Table(vol.V(), vol.g) == Table(old(vol.V()), vol.g) && Held(vol.V(), vol.g) == Held(old(vol.V()), vol.g)
    ensures LocalFile(vol.V(), vol.g, entry)
    ensures Extents(vol.V(), vol.g, entry) == Extents(old(vol.V()), vol.g, entry)
    ensures pos + |piece| <= |FileBytes(old(vol.V()), vol.g, entry)|
    ensures FileBytes(vol.V(), vol.g, entry) == Splice(FileBytes(old(vol.V()), vol.g, entry), pos, piece)
    ensures |vol.V()| == |old(vol.V())|
    ensures forall b :: 0 <= b < |vol.V()| && b !in DataBlocks(Extents(old(vol.V()), vol.g, entry)) ==>
              vol.V()[b] == old(vol.V())[b]
    ensures old(HintExact(vol)) ==> HintExact(vol)
    ensures vol.history == old(vol.history) + [vol.V()]
    ensures SoundSince(vol, |old(vol.history)|, old(vol.V()), BlockSet(DataBlocks(Extents(old(vol.V()), vol.g, entry))))
    ensures 0 <= pos / vol.g.blockSize < |DataBlocks(Extents(old(vol.V()), vol.g, entry))|
    ensures forall b :: 0 <= b < |vol.V()| && b != DataBlocks(Extents(old(vol.V()), vol.g, entry))[pos / vol.g.blockSize] ==>
              vol.V()[b] == old(vol.V())[b]
  {
    hide vol.Valid, vol.V, vol.g.Valid, OwnOk, Table, Held, FreeSet, Sound, Fits, Extents, DataBlocks, LocalFile,
         FileBytes, Splice, KeepsIndirect, NotIndirect, ViewOk;
    var g := vol.g;
    ghost var v := vol.V();
    VolumeView(vol);
    var base, ext;
    found, base, ext := FindExtent(vol, entry, pos);
    var local := pos - base;
    var blockInExtent, within := local / g.blockSize, local % g.blockSize;
    var diskBlock := ext.start + blockInExtent;
    ghost var q := pos / g.blockSize;
    ChunkInFile(v, g, entry, pos, piece);
    NotJournal(g, diskBlock);
    VolumeView(vol);
    if |piece| < g.blockSize {
      vol.Load(diskBlock);
    } else {
      WholeBlocks(vol.scratch, v[diskBlock], piece);
    }
    vol.SetScratch(Splice(vol.scratch, within, piece));
    NotIndirectKeeps(v, g, diskBlock, vol.scratch);
    StoreData(vol, diskBlock, vol.scratch, leaked);
    SoundSinceWider(vol, |old(vol.history)|, v, {diskBlock}, BlockSet(DataBlocks(Extents(v, g, entry))));
  }

  lemma SoundSinceWider(vol: Volume, from: nat, v: seq<Block>, s: set<nat>, s': set<nat>)
    requires vol.g.blockSize > 0 && SoundSince(vol, from, v, s) && s <= s'
    ensures SoundSince(vol, from, v, s')
  {
    hide Sound, Table;
    forall k | from <= k < |vol.history| ensures StateOf(vol.history[k], vol.g, v, s') {
      assert StateOf(vol.history[k], vol.g, v, s);
    }
  }

  lemma WholeBlocks(a: Block, b: Block, piece: seq<byte>)
    requires |a| == |piece| && |b| == |piece|
    ensures Splice(a, 0, piece) == Splice(b, 0, piece)
  {
  }

  /** The loop that copies `data` into the file at `offset`, block by block. */
  method CopyIn(vol: Volume, entry: Entry, offset: nat, data: seq<byte>, ghost leaked: set<nat>)
    requires vol.Valid() && vol.g.Valid() && vol.g.blockSize > 0 && OwnOk(vol.V(), vol.g, leaked)
    requires LocalFile(vol.V(), vol.g, entry)
    requires Writable(vol.V(), vol.g, DataBlocks(Extents(vol.V(), vol.g, entry)))
    requires offset + |data| <= |DataBlocks(Extents(vol.V(), vol.g, entry))| * vol.g.blockSize
    modifies vol, vol.dev
    ensures vol.Valid() && vol.Continues() && OwnOk(vol.V(), vol.g, leaked)
    ensures Table(vol.V(), vol.g) == Table(old(vol.V()), vol.g) && Held(vol.V(), vol.g) == Held(old(vol.V()), vol.g)
    ensures LocalFile(vol.V(), vol.g, entry)
    ensures Extents(vol.V(), vol.g, entry) == Extents(old(vol.V()), vol.g, entry)
    ensures offset + |data| <= |FileBytes(old(vol.V()), vol.g, entry)|
    ensures FileBytes(vol.V(), vol.g, entry) == Splice(FileBytes(old(vol.V()), vol.g, entry), offset, data)
    ensures |vol.V()| == |old(vol.V())|
    ensures forall b :: 0 <= b < |vol.V()| && b !in DataBlocks(Extents(old(vol.V()), vol.g, entry)) ==>
              vol.V()[b] == old(vol.V())[b]
    ensures old(HintExact(vol)) ==> HintExact(vol)
    ensures SoundSince(vol, |old(vol.history)|, old(vol.V()), BlockSet(DataBlocks(Extents(old(vol.V()), vol.g, entry))))
    ensures forall k :: |old(vol.history)| <= k < |vol.history| ==> OldOrFinal(old(vol.V()), vol.history[k], vol.V())
  {
    hide vol.Valid, vol.V, vol.g.Valid, OwnOk, Table, Held, FreeSet, Sound, Fits, Extents, DataBlocks, LocalFile,
         FileBytes, Splice, Writable;
    var g := vol.g;
    ghost var v := vol.V();
    ghost var bytes := FileBytes(v, g, entry);
    SizeFits(vol, entry);
    LocalParts(v, g, entry);
    var pos: nat, done: nat := offset, 0;
    SpliceNothing(bytes, offset, data);
    while done < |data|
      invariant done <= |data| && pos == offset + done
      invariant vol.Valid() && vol.Continues() && OwnOk(vol.V(), g, leaked)
      invariant Table(vol.V(), g) == Table(v, g) && Held(vol.V(), g) == Held(v, g)
      invariant LocalFile(vol.V(), g, entry) && Extents(vol.V(), g, entry) == Extents(v, g, entry)
      invariant FileBytes(vol.V(), g, entry) == Splice(bytes, offset, data[..done])
      invariant |vol.V()| == |v|
      invariant forall b :: 0 <= b < |v| && b !in DataBlocks(Extents(v, g, entry)) ==> vol.V()[b] == v[b]
      invariant old(HintExact(vol)) ==> HintExact(vol)
      invariant SoundSince(vol, |old(vol.history)|, v, BlockSet(DataBlocks(Extents(v, g, entry))))
      invariant forall k :: |old(vol.history)| <= k < |vol.history| ==> OldOrFinal(v, vol.history[k], vol.V())
      invariant done < |data| ==> Untouched(v, vol.V(), g, DataBlocks(Extents(v, g, entry)), pos)
    {
      ghost var h1, v1 := vol.history, vol.V();
      var within := pos % g.blockSize;
      var chunk := g.blockSize - within;
      if chunk > |data| - done {
        chunk := |data| - done;
      }
      Within(pos, g.blockSize);
      WritableSame(v, vol.V(), g, DataBlocks(Extents(v, g, entry)));
      var found := CopyChunk(vol, entry, pos, data[done..done + chunk], leaked);
      SpliceSplice(bytes, offset, data[..done], data[done..done + chunk]);
      assert data[..done] + data[done..done + chunk] == data[..done + chunk];
      SoundSinceMore(vol, old(vol.history), h1, v, BlockSet(DataBlocks(Extents(v, g, entry))), v1,
                     BlockSet(DataBlocks(Extents(v, g, entry))), BlockSet(DataBlocks(Extents(v, g, entry))));
      StatesMore(v, v1, vol.V(), g, DataBlocks(Extents(v, g, entry)), pos, chunk, old(vol.history), h1, vol.history);
      pos := pos + chunk;
      done := done + chunk;
    }
    assert data[..done] == data;
  }

  /** The file's blocks from the one of position pos on are as in v. */
  ghost predicate Untouched(v: seq<Block>, v': seq<Block>, g: Geometry, bl: seq<nat>, pos: nat)
    requires g.blockSize > 0
  {
    |v'| == |v| && forall p :: pos / g.blockSize <= p < |bl| && bl[p] < |v| ==> v'[bl[p]] == v[bl[p]]
  }

  lemma NextBlock(pos: nat, size: nat)
    requires size > 0
    ensures (pos + (size - pos % size)) / size == pos / size + 1
  {
    DivFacts(pos, size);
    assert (pos / size + 1) * size == pos / size * size + size;
    DivUnique(pos + (size - pos % size), size, pos / size + 1, 0);
  }

  /** The block written next was untouched so far: it is old in every earlier state, and final from now on. */
  lemma StatesMore(v: seq<Block>, v1: seq<Block>, v2: seq<Block>, g: Geometry, bl: seq<nat>, pos: nat, chunk: nat,
                   h0: seq<seq<Block>>, h1: seq<seq<Block>>, h2: seq<seq<Block>>)
    requires g.blockSize > 0 && NoDup(bl) && 0 <= pos / g.blockSize < |bl|
    requires Untouched(v, v1, g, bl, pos) && |v2| == |v1| && h0 <= h1 && h2 == h1 + [v2]
    requires forall b :: 0 <= b < |v1| && b != bl[pos / g.blockSize] ==> v2[b] == v1[b]
    requires forall k :: |h0| <= k < |h1| ==> OldOrFinal(v, h1[k], v1)
    ensures forall k :: |h0| <= k < |h2| ==> OldOrFinal(v, h2[k], v2)
    ensures chunk == g.blockSize - pos % g.blockSize ==> Untouched(v, v2, g, bl, pos + chunk)
  {
    forall k | |h0| <= k < |h2| ensures OldOrFinal(v, h2[k], v2) {
      if k < |h1| {
        assert OldOrFinal(v, h1[k], v1) && h2[k] == h1[k];
      }
    }
    if chunk == g.blockSize - pos % g.blockSize {
      NextBlock(pos, g.blockSize);
    }
  }

  lemma SpliceNothing(s: seq<byte>, off: nat, d: seq<byte>)
    requires off + |d| <= |s|
    ensures Splice(s, off, d[..0]) == s
  {
  }

  // ---- vtx2_write ----

  function MaxNat(a: nat, b: nat): nat {
    if a > b then a else b
  }

  /** What a successful write of `data` at `offset` does to file i, and to nothing else. */
  ghost predicate Written(v: seq<Block>, v': seq<Block>, g: Geometry, i: nat, offset: nat, data: seq<byte>)
    requires g.blockSize > 0
  {
    var e, e' := EntryAt(v, g, i), EntryAt(v', g, i);
    var old_, new_ := Content(v, g, e), Content(v', g, e');
    && i < g.Slots() && Table(v', g) == Table(v, g)[i := e']
    && e' == e.(size := MaxNat(e.size, offset + |data|), extentCount := e'.extentCount,
                direct := e'.direct, indirect := e'.indirect)
    && |old_| == e.size && |new_| == e'.size
    && new_[offset..offset + |data|] == data
    && (forall p :: 0 <= p < e.size && !(offset <= p < offset + |data|) ==> new_[p] == old_[p])
    && OthersKept(v, v', g, i)
  }

  /** Nothing a reader can see has changed. */
  ghost predicate AllKept(v: seq<Block>, v': seq<Block>, g: Geometry)
    requires g.blockSize > 0
  {
    && Table(v', g) == Table(v, g)
    && forall j :: 0 <= j < g.Slots() && EntryAt(v, g, j).kind == FILE ==>
         Content(v', g, EntryAt(v, g, j)) == Content(v, g, EntryAt(v, g, j))
  }

  lemma DataSameAllKept(v: seq<Block>, v': seq<Block>, g: Geometry, leaked: set<nat>)
    requires g.Valid() && g.blockSize > 0 && OwnOk(v, g, leaked) && |v'| == |v|
    requires Table(v', g) == Table(v, g)
    requires forall b :: g.dataStart <= b < |v| ==> v'[b] == v[b]
    ensures AllKept(v, v', g)
  {
    hide g.Valid, OwnOk, EntryAt, Table, g.Slots, LocalFile, HeldBy, Content, FileBytes;
    forall j | 0 <= j < g.Slots() && EntryAt(v, g, j).kind == FILE
      ensures Content(v', g, EntryAt(v, g, j)) == Content(v, g, EntryAt(v, g, j))
    {
      OnDiskFile(v, g, j, leaked);
      forall b | b in HeldBy(v, g, EntryAt(v, g, j)) && b < |v| ensures v'[b] == v[b] {
        HeldInData(v, g, EntryAt(v, g, j), b);
      }
      FileKept(v, v', g, EntryAt(v, g, j));
    }
  }

  /** Only the size changes: the block list is the same. */
  lemma Resize(v: seq<Block>, g: Geometry, e: Entry, size: nat)
    requires LocalFile(v, g, e) && size <= |DataBlocks(Extents(v, g, e))| * g.blockSize && size < TWO_64
    ensures var e' := e.(size := size);
            && LocalFile(v, g, e') && HeldBy(v, g, e') == HeldBy(v, g, e)
            && Extents(v, g, e') == Extents(v, g, e) && FileBytes(v, g, e') == FileBytes(v, g, e)
  {
    hide DataBlocks, Flat, NoDup, Pick, ExtentFits, g.Slots;
    var e' := e.(size := size);
    forall n | 0 <= n < e.extentCount ensures ExtentAt(v, g, e', n) == ExtentAt(v, g, e, n) {
    }
    assert Extents(v, g, e') == Extents(v, g, e);
    assert HeldBy(v, g, e') == HeldBy(v, g, e);
  }

  lemma Enough(n: nat, extra: nat, size: nat, needed: nat)
    requires size > 0 && needed > n * size && extra == (needed - n * size + size - 1) / size
    ensures extra > 0 && needed <= (n + extra) * size
  {
    var x := needed - n * size;
    DivFacts(x + size - 1, size);
    assert (n + extra) * size == n * size + extra * size;
    if extra == 0 {
      assert false;
    }
  }

  /** The grown file's bytes before the copy begin with the old file's bytes. */
  lemma GrownBytes(v: seq<Block>, v': seq<Block>, g: Geometry, i: nat, e: Entry, e': Entry,
                   added: seq<nat>, leaked: set<nat>, pending: set<nat>)
    requires g.Valid() && g.blockSize > 0 && OwnOk(v, g, leaked) && i < g.Slots()
    requires EntryAt(v, g, i) == e && e.kind == FILE
    requires Grown(v, v', g, i, e, e', added, leaked, pending)
    ensures |FileBytes(v, g, e)| <= |FileBytes(v', g, e')|
    ensures FileBytes(v', g, e')[..|FileBytes(v, g, e)|] == FileBytes(v, g, e)
    ensures |FileBytes(v, g, e)| == |DataBlocks(Extents(v, g, e))| * g.blockSize
    ensures |FileBytes(v', g, e')| == |DataBlocks(Extents(v', g, e'))| * g.blockSize
  {
    hide g.Valid, OwnOk, EntryAt, HeldBy, Held, Table, LocalFile, DataBlocks, Extents, Referenced, g.Slots, Flat, Pick;
    OnDiskFile(v, g, i, leaked);
    LocalParts(v, g, e);
    LocalParts(v', g, e');
    var d := DataBlocks(Extents(v, g, e));
    OwnParts(v, g, leaked);
    OwnParts(v', g, leaked + pending);
    ValidSize(g);
    PickLength(v, g, d);
    PickLength(v', g, d + added);
    PickConcat(v', d, added);
    FlatConcat(Pick(v', d), Pick(v', added));
    forall p | 0 <= p < |d| && d[p] < |v| ensures v'[d[p]] == v[d[p]] {
      assert (d + added)[p] == d[p];
      assert d[p] in d + added;
    }
    PickOther(v, v', d);
  }

  /** The copied bytes, read as the file's contents. */
  lemma ContentsAfter(old_: seq<byte>, size: nat, grown: seq<byte>, offset: nat, data: seq<byte>, new_: seq<byte>)
    requires size <= |old_| <= |grown| && grown[..|old_|] == old_
    requires offset + |data| <= |grown| && new_ == Splice(grown, offset, data)
    ensures var n := MaxNat(size, offset + |data|);
            && n <= |new_| && new_[..n][offset..offset + |data|] == data
            && (forall p :: 0 <= p < size && !(offset <= p < offset + |data|) ==> new_[..n][p] == old_[..size][p])
  {
    hide Splice;
    var n := MaxNat(size, offset + |data|);
    SpliceSame(grown, offset, data);
    PrefixSlice(new_, n, offset, offset + |data|);
    forall p | 0 <= p < size && !(offset <= p < offset + |data|) ensures new_[..n][p] == old_[..size][p] {
      SpliceAt(grown, offset, data, p);
      assert grown[p] == grown[..|old_|][p];
    }
  }

  lemma PrefixSlice(s: seq<byte>, n: nat, a: nat, b: nat)
    requires a <= b <= n <= |s|
    ensures s[..n][a..b] == s[a..b]
  {
  }

  /** All of vtx2_write's changes, taken together: v before, v2 grown, v3 copied, v4 with the entry written. */
  lemma WriteEffect(v: seq<Block>, v2: seq<Block>, v3: seq<Block>, v4: seq<Block>, g: Geometry, i: nat,
                    e: Entry, e': Entry, added: seq<nat>, leaked: set<nat>, pending: set<nat>,
                    offset: nat, data: seq<byte>)
    requires g.Valid() && g.blockSize > 0 && OwnOk(v, g, leaked) && i < g.Slots()
    requires EntryAt(v, g, i) == e && e.kind == FILE
    requires Grown(v, v2, g, i, e, e', added, leaked, pending)
    requires |v3| == |v2| && OwnOk(v3, g, leaked + pending)
    requires Table(v3, g) == Table(v2, g) && Held(v3, g) == Held(v2, g)
    requires LocalFile(v3, g, e') && Extents(v3, g, e') == Extents(v2, g, e')
    requires offset + |data| <= |FileBytes(v2, g, e')| && offset + |data| < TWO_64
    requires FileBytes(v3, g, e') == Splice(FileBytes(v2, g, e'), offset, data)
    requires forall b :: 0 <= b < |v3| && b !in DataBlocks(Extents(v2, g, e')) ==> v3[b] == v2[b]
    requires var e'' := e'.(size := MaxNat(e.size, offset + |data|));
             Table(v4, g) == Table(v3, g)[i := e''] && SameButTable(v3, v4, g) && ViewOk(v4, g)
    ensures OwnOk(v4, g, leaked) && Written(v, v4, g, i, offset, data)
  {
    hide *;
    var size := MaxNat(e.size, offset + |data|);
    var e'' := e'.(size := size);
    GrownParts(v, v2, g, i, e, e', added, leaked, pending);
    GrownBytes(v, v2, g, i, e, e', added, leaked, pending);
    OnDiskFile(v, g, i, leaked);
    LocalParts(v, g, e);
    MaxFacts(e.size, offset + |data|);
    LocalParts(v3, g, e');
    FitsSize(e');
    Resize(v3, g, e', size);
    SameHeld(v2, v3, g, e');
    SameGrowth(Held(v, g)[i], HeldBy(v2, g, e'), HeldBy(v3, g, e''), pending);
    EntryOwn(v3, v4, g, i, e'', leaked, pending);
    TableAt(v4, g, i);
    TableSize(v3, g);
    assert Table(v3, g)[i := e''][i] == e'';
    assert EntryAt(v4, g, i) == e'';
    AfterTable(v3, v4, g, e'');
    ContentsAfter(FileBytes(v, g, e), e.size, FileBytes(v2, g, e'), offset, data, FileBytes(v3, g, e'));
    ContentIs(v4, g, e'');
    ContentIs(v, g, e);
    OnlyThisFile(v, v2, v3, v4, g, i, e, e', added, leaked, pending);
    assert Table(v4, g) == Table(v, g)[i := EntryAt(v4, g, i)];
    OthersUntouched(v, v4, g, i, leaked);
    MakeWritten(v, v4, g, i, offset, data);
  }

  /**
   * The file's bytes after a write, down to the gaps: its old blocks and the added ones with what they
   * held before, and the data stored over them. A gap shows whatever its blocks held.
   */
  ghost predicate ExactBytes(v: seq<Block>, v': seq<Block>, g: Geometry, i: nat, offset: nat, data: seq<byte>) {
    exists added: seq<nat> :: BytesFrom(v, v', g, i, offset, data, added)
  }

  ghost predicate BytesFrom(v: seq<Block>, v': seq<Block>, g: Geometry, i: nat, offset: nat, data: seq<byte>,
                            added: seq<nat>)
  {
    var e, e' := EntryAt(v, g, i), EntryAt(v', g, i);
    var blocks := DataBlocks(Extents(v, g, e)) + added;
    && DataBlocks(Extents(v', g, e')) == blocks
    && offset + |data| <= |Flat(Pick(v, blocks))|
    && FileBytes(v', g, e') == Splice(Flat(Pick(v, blocks)), offset, data)
  }

  /** Growing the file does not touch the contents of its data blocks, old or added. */
  lemma GrownPick(v: seq<Block>, v': seq<Block>, g: Geometry, i: nat, e: Entry, e': Entry,
                  added: seq<nat>, leaked: set<nat>, pending: set<nat>)
    requires g.Valid() && g.blockSize > 0 && Grown(v, v', g, i, e, e', added, leaked, pending)
    ensures FileBytes(v', g, e') == Flat(Pick(v, DataBlocks(Extents(v, g, e)) + added))
  {
    hide OwnOk, EntryAt, HeldBy, Held, Table, LocalFile, DataBlocks, Extents, Referenced, g.Slots, GrowsBy, Flat;
    LocalParts(v', g, e');
    ValidSize(g);
    var blocks := DataBlocks(Extents(v', g, e'));
    forall p | 0 <= p < |blocks| && blocks[p] < |v| ensures v'[blocks[p]] == v[blocks[p]] {
      assert blocks[p] in blocks;
    }
    PickOther(v, v', blocks);
  }

  lemma WriteBytes(v: seq<Block>, v2: seq<Block>, v3: seq<Block>, v4: seq<Block>, g: Geometry, i: nat,
                   e: Entry, e': Entry, added: seq<nat>, leaked: set<nat>, pending: set<nat>,
                   offset: nat, data: seq<byte>)
    requires g.Valid() && g.blockSize > 0 && i < g.Slots() && EntryAt(v, g, i) == e && e.kind == FILE
    requires Grown(v, v2, g, i, e, e', added, leaked, pending)
    requires Table(v3, g) == Table(v2, g)
    requires LocalFile(v3, g, e') && Extents(v3, g, e') == Extents(v2, g, e')
    requires offset + |data| <= |FileBytes(v2, g, e')| && offset + |data| < TWO_64
    requires |FileBytes(v2, g, e')| == |DataBlocks(Extents(v2, g, e'))| * g.blockSize
    requires FileBytes(v3, g, e') == Splice(FileBytes(v2, g, e'), offset, data)
    requires var e'' := e'.(size := MaxNat(e.size, offset + |data|));
             Table(v4, g) == Table(v3, g)[i := e''] && SameButTable(v3, v4, g)
    ensures ExactBytes(v, v4, g, i, offset, data)
    ensures DataBlocks(Extents(v4, g, EntryAt(v4, g, i))) == DataBlocks(Extents(v2, g, e'))
  {
    hide *;
    var e'' := e'.(size := MaxNat(e.size, offset + |data|));
    MaxFacts(e.size, offset + |data|);
    GrownParts(v, v2, g, i, e, e', added, leaked, pending);
    GrownOwn(v, v2, g, i, e, e', added, leaked, pending);
    GrownPick(v, v2, g, i, e, e', added, leaked, pending);
    LocalParts(v3, g, e');
    FitsSize(e');
    Resize(v3, g, e', MaxNat(e.size, offset + |data|));
    TableAt(v4, g, i);
    TableSize(v3, g);
    assert Table(v3, g)[i := e''][i] == e'';
    AfterTable(v3, v4, g, e'');
    MakeExact(v, v4, g, i, offset, data, added);
  }

  lemma MakeExact(v: seq<Block>, v': seq<Block>, g: Geometry, i: nat, offset: nat, data: seq<byte>, added: seq<nat>)
    requires var e, e' := EntryAt(v, g, i), EntryAt(v', g, i);
             var blocks := DataBlocks(Extents(v, g, e)) + added;
             && DataBlocks(Extents(v', g, e')) == blocks
             && offset + |data| <= |Flat(Pick(v, blocks))|
             && FileBytes(v', g, e') == Splice(Flat(Pick(v, blocks)), offset, data)
    ensures ExactBytes(v, v', g, i, offset, data)
  {
    hide EntryAt, DataBlocks, Extents, Flat, Pick, FileBytes, Splice;
    assert BytesFrom(v, v', g, i, offset, data, added);
  }

  lemma MakeWritten(v: seq<Block>, v': seq<Block>, g: Geometry, i: nat, offset: nat, data: seq<byte>)
    requires g.blockSize > 0 && i < g.Slots()
    requires var e, e' := EntryAt(v, g, i), EntryAt(v', g, i);
             var old_, new_ := Content(v, g, e), Content(v', g, e');
             && Table(v', g) == Table(v, g)[i := e']
             && e' == e.(size := MaxNat(e.size, offset + |data|), extentCount := e'.extentCount,
                         direct := e'.direct, indirect := e'.indirect)
             && |old_| == e.size && |new_| == e'.size && offset + |data| <= |new_|
             && new_[offset..offset + |data|] == data
             && (forall p :: 0 <= p < e.size && !(offset <= p < offset + |data|) ==> p < |new_| && new_[p] == old_[p])
             && OthersKept(v, v', g, i)
    ensures Written(v, v', g, i, offset, data)
  {
    hide EntryAt, Table, Content, OthersKept, g.Slots;
  }

  lemma FitsSize(e: Entry)
    requires Fits(e)
    ensures e.size < TWO_64
  {
  }

  lemma MaxFacts(a: nat, b: nat)
    ensures MaxNat(a, b) == (if a > b then a else b)
  {
  }

  lemma GrownParts(v: seq<Block>, v': seq<Block>, g: Geometry, i: nat, e: Entry, e': Entry,
                   added: seq<nat>, leaked: set<nat>, pending: set<nat>)
    requires g.blockSize > 0 && Grown(v, v', g, i, e, e', added, leaked, pending)
    ensures |v'| == |v| && i < g.Slots()
    ensures e' == e.(direct := e'.direct, extentCount := e'.extentCount, indirect := e'.indirect)
    ensures Table(v', g) == Table(v, g) && Held(v', g) == Held(v, g) && LocalFile(v', g, e')
    ensures leaked !! pending && GrowsBy(Held(v, g)[i], HeldBy(v', g, e'), pending)
    ensures forall b :: b in pending ==> !Referenced(Held(v, g), b)
    ensures forall b :: g.dataStart <= b < |v| && b != e'.indirect ==> v'[b] == v[b]
  {
    hide OwnOk, HeldBy, Held, Table, LocalFile, DataBlocks, Extents, Referenced, g.Slots, GrowsBy;
  }

  lemma SameHeld(v: seq<Block>, v': seq<Block>, g: Geometry, e: Entry)
    requires Extents(v', g, e) == Extents(v, g, e)
    ensures HeldBy(v', g, e) == HeldBy(v, g, e)
  {
    hide Extents, DataBlocks;
  }

  lemma SameGrowth(h: seq<nat>, xs: seq<nat>, ys: seq<nat>, pending: set<nat>)
    requires GrowsBy(h, xs, pending) && ys == xs
    ensures GrowsBy(h, ys, pending)
  {
  }

  lemma TableSize(v: seq<Block>, g: Geometry)
    requires g.blockSize > 0
    ensures |Table(v, g)| == g.Slots()
  {
  }

  /** The table's blocks are not data blocks: the file's bytes read the same after the entry is written. */
  lemma AfterTable(v: seq<Block>, v': seq<Block>, g: Geometry, e: Entry)
    requires g.Valid() && SameButTable(v, v', g) && LocalFile(v, g, e)
    ensures FileBytes(v', g, e) == FileBytes(v, g, e) && Extents(v', g, e) == Extents(v, g, e)
  {
    hide g.Valid, LocalFile, FileBytes, HeldBy;
    ValidSize(g);
    forall b | b in HeldBy(v, g, e) && b < |v| ensures v'[b] == v[b] {
      HeldInData(v, g, e, b);
    }
    FileKept(v, v', g, e);
  }

  lemma ContentIs(v: seq<Block>, g: Geometry, e: Entry)
    requires e.size <= |FileBytes(v, g, e)|
    ensures Content(v, g, e) == FileBytes(v, g, e)[..e.size] && |Content(v, g, e)| == e.size
  {
    hide FileBytes;
  }

  /** Outside the file's own blocks the data area is as before. */
  lemma OnlyThisFile(v: seq<Block>, v2: seq<Block>, v3: seq<Block>, v4: seq<Block>, g: Geometry, i: nat,
                     e: Entry, e': Entry, added: seq<nat>, leaked: set<nat>, pending: set<nat>)
    requires g.Valid() && g.blockSize > 0 && i < g.Slots() && Grown(v, v2, g, i, e, e', added, leaked, pending)
    requires e.kind == FILE
    requires |v3| == |v2| && SameButTable(v3, v4, g)
    requires forall b :: 0 <= b < |v3| && b !in DataBlocks(Extents(v2, g, e')) ==> v3[b] == v2[b]
    ensures |v4| == |v|
    ensures forall b :: g.dataStart <= b < |v| && Referenced(Held(v, g), b) && b !in Held(v, g)[i] ==> v4[b] == v[b]
  {
    hide g.Valid, OwnOk, EntryAt, Table, Held, LocalFile, DataBlocks, Extents, Referenced, g.Slots, NoDup;
    ValidSize(g);
    forall b | g.dataStart <= b < |v| && Referenced(Held(v, g), b) && b !in Held(v, g)[i] ensures v4[b] == v[b] {
      assert b !in HeldBy(v2, g, e');
      if e'.indirect == b {
        IndirectIn(v2, g, e');
        assert false;
      }
    }
  }

  /** Every block of the list is as in v or as in v'. */
  ghost predicate OldOrNew(v: seq<Block>, h: seq<Block>, v': seq<Block>, bl: seq<nat>) {
    && |h| == |v| == |v'|
    && forall p :: 0 <= p < |bl| && bl[p] < |v| ==> h[bl[p]] == v[bl[p]] || h[bl[p]] == v'[bl[p]]
  }

  /**
   * A state on the way of a write from v to v': it is sound, it shows the old table or the new one, every
   * other file's contents are there, and each block of the file is wholly old or wholly new.
   */
  ghost predicate DuringWrite(v: seq<Block>, h: seq<Block>, v': seq<Block>, g: Geometry, i: nat)
    requires g.blockSize > 0
  {
    && Sound(h, g) && (Table(h, g) == Table(v, g) || Table(h, g) == Table(v', g))
    && OthersKept(v, h, g, i)
    && OldOrNew(v, h, v', DataBlocks(Extents(v', g, EntryAt(v', g, i))))
  }

  ghost predicate WriteStates(vol: Volume, from: nat, v: seq<Block>, v': seq<Block>, i: nat)
    requires vol.g.blockSize > 0
    reads vol
  {
    forall k :: from <= k < |vol.history| ==> DuringWrite(v, vol.history[k], v', vol.g, i)
  }

  lemma TableKept(v: seq<Block>, h: seq<Block>, g: Geometry, i: nat)
    requires g.blockSize > 0 && i < g.Slots() && Table(h, g) == Table(v, g)
    ensures Table(h, g) == Table(v, g)[i := EntryAt(h, g, i)]
  {
    hide EntryAt, Table, g.Slots;
    TableAt(h, g, i);
    TableSize(v, g);
  }

  /** A state of a write that failed: no data block has changed. */
  lemma FailedState(v: seq<Block>, h: seq<Block>, v': seq<Block>, g: Geometry, i: nat, leaked: set<nat>)
    requires g.Valid() && g.blockSize > 0 && OwnOk(v, g, leaked) && i < g.Slots() && EntryAt(v, g, i).kind == FILE
    requires StateOf(h, g, v, {}) && Table(v', g) == Table(v, g) && |v'| == |v|
    requires forall b :: g.dataStart <= b < |v| ==> v'[b] == v[b]
    ensures DuringWrite(v, h, v', g, i)
  {
    hide g.Valid, OwnOk, EntryAt, Table, Held, Referenced, g.Slots, OthersKept, Sound, Extents, DataBlocks, HeldBy,
         LocalFile;
    TableKept(v, h, g, i);
    OthersUntouched(v, h, g, i, leaked);
    SameEntry(v, v', g, i);
    OnDiskFile(v, g, i, leaked);
    LocalParts(v, g, EntryAt(v, g, i));
    ExtentsKeptData(v, v', g, i, leaked);
  }

  /** Neither a block of another file nor a new one: growing and copying leave it alone. */
  lemma NotOurs(v: seq<Block>, v2: seq<Block>, g: Geometry, i: nat, e: Entry, e': Entry, added: seq<nat>,
                leaked: set<nat>, pending: set<nat>, b: nat)
    requires g.Valid() && g.blockSize > 0 && i < g.Slots() && Grown(v, v2, g, i, e, e', added, leaked, pending)
    requires e.kind == FILE && g.dataStart <= b && Referenced(Held(v, g), b) && b !in Held(v, g)[i]
    ensures b !in HeldBy(v2, g, e') && b !in DataBlocks(Extents(v2, g, e')) && b != e'.indirect
  {
    hide g.Valid, OwnOk, EntryAt, Table, Held, LocalFile, DataBlocks, Extents, Referenced, g.Slots, NoDup;
    ValidSize(g);
    assert b !in HeldBy(v2, g, e');
    if e'.indirect == b {
      IndirectIn(v2, g, e');
      assert false;
    }
  }

  /** A state of the growth step: only the block of extent records may have changed. */
  lemma GrowthState(v: seq<Block>, v2: seq<Block>, h: seq<Block>, v4: seq<Block>, g: Geometry, i: nat, e: Entry, e': Entry,
                    added: seq<nat>, leaked: set<nat>, pending: set<nat>)
    requires g.Valid() && g.blockSize > 0 && OwnOk(v, g, leaked) && i < g.Slots()
    requires Grown(v, v2, g, i, e, e', added, leaked, pending) && e.kind == FILE
    requires StateOf(h, g, v, {e'.indirect}) && |v4| == |v|
    requires DataBlocks(Extents(v4, g, EntryAt(v4, g, i))) == DataBlocks(Extents(v2, g, e'))
    ensures DuringWrite(v, h, v4, g, i)
  {
    hide g.Valid, OwnOk, EntryAt, Table, Held, Referenced, g.Slots, OthersKept, Sound, Extents, DataBlocks, HeldBy,
         LocalFile, Grown;
    ValidSize(g);
    GrownParts(v, v2, g, i, e, e', added, leaked, pending);
    TableKept(v, h, g, i);
    forall b | g.dataStart <= b < |v| && Referenced(Held(v, g), b) && b !in Held(v, g)[i] ensures h[b] == v[b] {
      NotOurs(v, v2, g, i, e, e', added, leaked, pending, b);
    }
    OthersUntouched(v, h, g, i, leaked);
    var bl := DataBlocks(Extents(v2, g, e'));
    forall p | 0 <= p < |bl| && bl[p] < |v| ensures h[bl[p]] == v[bl[p]] {
      NotTheRecords(v2, g, e', p);
    }
  }

  lemma NotTheRecords(v: seq<Block>, g: Geometry, e: Entry, p: nat)
    requires LocalFile(v, g, e) && p < |DataBlocks(Extents(v, g, e))|
    ensures DataBlocks(Extents(v, g, e))[p] != e.indirect || e.indirect == 0
    ensures g.dataStart <= DataBlocks(Extents(v, g, e))[p]
  {
    hide LocalFile, DataBlocks, Extents;
    LocalParts(v, g, e);
  }

  /** A state of the copy loop: each of the file's data blocks is as the growth step left it, or final. */
  lemma CopyState(v: seq<Block>, v2: seq<Block>, v3: seq<Block>, h: seq<Block>, v4: seq<Block>, g: Geometry, i: nat,
                  e: Entry, e': Entry, added: seq<nat>, leaked: set<nat>, pending: set<nat>)
    requires g.Valid() && g.blockSize > 0 && OwnOk(v, g, leaked) && i < g.Slots()
    requires Grown(v, v2, g, i, e, e', added, leaked, pending) && e.kind == FILE
    requires StateOf(h, g, v2, BlockSet(DataBlocks(Extents(v2, g, e')))) && OldOrFinal(v2, h, v3)
    requires SameButTable(v3, v4, g)
    requires DataBlocks(Extents(v4, g, EntryAt(v4, g, i))) == DataBlocks(Extents(v2, g, e'))
    ensures DuringWrite(v, h, v4, g, i)
  {
    hide g.Valid, OwnOk, EntryAt, Table, Held, Referenced, g.Slots, OthersKept, Sound, Extents, DataBlocks, HeldBy,
         LocalFile, Grown;
    ValidSize(g);
    GrownParts(v, v2, g, i, e, e', added, leaked, pending);
    TableKept(v, h, g, i);
    forall b | g.dataStart <= b < |v| && Referenced(Held(v, g), b) && b !in Held(v, g)[i] ensures h[b] == v[b] {
      NotOurs(v, v2, g, i, e, e', added, leaked, pending, b);
    }
    OthersUntouched(v, h, g, i, leaked);
    var bl := DataBlocks(Extents(v2, g, e'));
    forall p | 0 <= p < |bl| && bl[p] < |v| ensures h[bl[p]] == v[bl[p]] || h[bl[p]] == v4[bl[p]] {
      NotTheRecords(v2, g, e', p);
    }
  }

  /** The last state: the write is done. */
  lemma FinalState(v: seq<Block>, v': seq<Block>, g: Geometry, i: nat, offset: nat, data: seq<byte>, leaked: set<nat>)
    requires g.blockSize > 0 && Written(v, v', g, i, offset, data) && OwnOk(v', g, leaked) && |v'| == |v|
    ensures DuringWrite(v, v', v', g, i)
  {
    hide OwnOk, EntryAt, Table, g.Slots, OthersKept, Extents, DataBlocks, Content;
    OwnSound(v', g, leaked);
  }

  /** The rest of vtx2_write once the extents suffice: copy, then put the entry on disk. */
  method CopyAndCommit(vol: Volume, entry: Entry, index: nat, offset: nat, data: seq<byte>, ghost v: seq<Block>,
                       ghost e: Entry, ghost added: seq<nat>, ghost leaked: set<nat>, ghost pending: set<nat>)
    requires vol.Valid() && vol.g.Valid() && vol.g.blockSize > 0 && OwnOk(v, vol.g, leaked)
    requires index < vol.g.Slots() && EntryAt(v, vol.g, index) == e && e.kind == FILE && IndexOk(vol.g, index)
    requires index < vol.g.capacity
    requires Grown(v, vol.V(), vol.g, index, e, entry, added, leaked, pending)
    requires offset + |data| <= |DataBlocks(Extents(vol.V(), vol.g, entry))| * vol.g.blockSize
    requires offset + |data| < TWO_64
    modifies vol, vol.dev
    ensures vol.Valid() && vol.Continues() && OwnOk(vol.V(), vol.g, leaked)
    ensures Written(v, vol.V(), vol.g, index, offset, data) && ExactBytes(v, vol.V(), vol.g, index, offset, data)
    ensures old(HintExact(vol)) ==> HintExact(vol)
    ensures WriteStates(vol, |old(vol.history)|, v, vol.V(), index) && |vol.V()| == |v|
    ensures DataBlocks(Extents(vol.V(), vol.g, EntryAt(vol.V(), vol.g, index)))
         == DataBlocks(Extents(old(vol.V()), vol.g, entry))
  {
    hide vol.Valid, vol.V, vol.g.Valid, OwnOk, Table, Held, HeldBy, FreeSet, Referenced, Sound, EntryAt, Fits,
         Extents, DataBlocks, vol.g.Slots, LocalFile, Grown, Writable, FileBytes, Splice, Written, IndexOk, ViewOk,
         SameButTable, ExactBytes, StateOf, OldOrFinal, DuringWrite;
    var g := vol.g;
    ghost var v2 := vol.V();
    GrownWritable(v, v2, g, index, e, entry, added, leaked, pending);
    GrownParts(v, v2, g, index, e, entry, added, leaked, pending);
    GrownOwn(v, v2, g, index, e, entry, added, leaked, pending);
    CopyIn(vol, entry, offset, data, leaked + pending);
    ghost var h1, v3 := vol.history, vol.V();
    var size := entry.size;
    if offset + |data| > size {
      size := offset + |data|;
    }
    MaxFacts(entry.size, offset + |data|);
    LocalParts(v3, g, entry);
    FitsSize(entry);
    FitsResized(entry, size);
    VolumeView(vol);
    var res := WriteEntry(vol, index, entry.(size := size));
    VolumeView(vol);
    ValidSize(g);
    TableOnly(v3, vol.V(), g);
    HintKept(vol, v3, vol.freeHint);
    WriteEffect(v, v2, v3, vol.V(), g, index, e, entry, added, leaked, pending, offset, data);
    GrownBytes(v, v2, g, index, e, entry, added, leaked, pending);
    WriteBytes(v, v2, v3, vol.V(), g, index, e, entry, added, leaked, pending, offset, data);
    FinalState(v, vol.V(), g, index, offset, data, leaked);
    forall k | |old(vol.history)| <= k < |vol.history| ensures DuringWrite(v, vol.history[k], vol.V(), g, index) {
      if k < |h1| {
        CopyState(v, v2, v3, h1[k], vol.V(), g, index, e, entry, added, leaked, pending);
      }
    }
  }

  lemma TableOnly(v: seq<Block>, v': seq<Block>, g: Geometry)
    requires g.Valid() && SameButTable(v, v', g)
    ensures |v'| == |v|
    ensures forall x :: g.bitmapStart <= x < g.bitmapStart + g.bitmapCount && x < |v| ==> v'[x] == v[x]
  {
    ValidSize(g);
  }

  lemma GrownOwn(v: seq<Block>, v': seq<Block>, g: Geometry, i: nat, e: Entry, e': Entry,
                 added: seq<nat>, leaked: set<nat>, pending: set<nat>)
    requires g.blockSize > 0 && Grown(v, v', g, i, e, e', added, leaked, pending)
    ensures OwnOk(v', g, leaked + pending)
    ensures DataBlocks(Extents(v', g, e')) == DataBlocks(Extents(v, g, e)) + added
  {
    hide OwnOk, HeldBy, Held, Table, LocalFile, DataBlocks, Extents, Referenced, g.Slots, GrowsBy;
  }

  lemma FitsResized(e: Entry, size: nat)
    requires Fits(e) && size < TWO_64
    ensures Fits(e.(size := size))
  {
    hide ExtentFits;
  }

  /**
   * vtx2_write. On success exactly the written range of this file changes; on any error nothing a
   * reader can see does. It fails for lack of space exactly when the file has to grow and cannot. Every
   * state in between is sound, shows the old entry or the new one and all other files as they were, and
   * has each of this file's blocks wholly old or wholly new.
   */
  method WriteAt(vol: Volume, index: nat, offset: nat, data: seq<byte>, ghost leaked: set<nat>)
    returns (res: FsResult, written: nat)
    requires vol.Valid() && vol.g.Valid() && vol.g.blockSize > 0 && OwnOk(vol.V(), vol.g, leaked)
    requires IndexOk(vol.g, index) && offset + |data| < TWO_64
    modifies vol, vol.dev
    ensures vol.Valid() && vol.Continues() && OwnOk(vol.V(), vol.g, leaked)
    ensures old(HintExact(vol)) ==> HintExact(vol)
    ensures WriteStates(vol, |old(vol.history)|, old(vol.V()), vol.V(), index)
    ensures res == OK && |data| > 0 ==>
              && Written(old(vol.V()), vol.V(), vol.g, index, offset, data)
              && ExactBytes(old(vol.V()), vol.V(), vol.g, index, offset, data)
    ensures res == OK && |data| > 0 ==>
              var e, e' := EntryAt(old(vol.V()), vol.g, index), EntryAt(vol.V(), vol.g, index);
              |DataBlocks(Extents(vol.V(), vol.g, e'))|
                == |DataBlocks(Extents(old(vol.V()), vol.g, e))| + Missing(old(vol.V()), vol.g, e, offset + |data|)
    ensures res != OK || |data| == 0 ==> AllKept(old(vol.V()), vol.V(), vol.g)
    ensures written == if res == OK then |data| else 0
    ensures |data| == 0 ==> res == OK
    ensures |data| > 0 && index >= vol.g.capacity ==> res == ERR_INVALID
    ensures |data| > 0 && index < vol.g.capacity ==>
              var e := EntryAt(old(vol.V()), vol.g, index);
              && (e.kind != FILE <==> res == ERR_IS_DIR)
              && (e.kind == FILE ==> res == if CannotGrow(old(vol.V()), vol.g, e, offset + |data|) then ERR_NO_SPACE else OK)
  {
    hide vol.Valid, vol.V, vol.g.Valid, OwnOk, Table, Held, HeldBy, FreeSet, StateOf, EntryAt, Fits,
         Extents, DataBlocks, vol.g.Slots, LocalFile, Grown, Written, ExactBytes, AllKept, GrowFails, DuringWrite,
         EntryReachable;
    var g := vol.g;
    ghost var v := vol.V();
    written := 0;
    DataSameAllKept(v, v, g, leaked);
    if |data| == 0 {
      return OK, 0;
    }
    var entry;
    res, entry := ReadEntry(vol, index);
    if res != OK {
      return;
    }
    if entry.kind != FILE {
      return ERR_IS_DIR, 0;
    }
    OnDiskFile(v, g, index, leaked);
    var capacity := CapacityOf(vol, entry);
    var neededEnd := offset + |data|;
    ghost var e := entry;
    ghost var added, pending: set<nat> := [], {};
    GrownNothing(v, g, index, entry, leaked);
    ghost var h1, v1 := vol.history, v;
    if neededEnd > capacity {
      var extraBytes := neededEnd - capacity;
      var extraBlocks := (extraBytes + g.blockSize - 1) / g.blockSize;
      Enough(|DataBlocks(Extents(v, g, e))|, extraBlocks, g.blockSize, neededEnd);
      res, entry, added, pending := Grow(vol, entry, extraBlocks, index, leaked);
      if res != OK {
        DataSameAllKept(v, vol.V(), g, leaked);
        forall k | |old(vol.history)| <= k < |vol.history| ensures DuringWrite(v, vol.history[k], vol.V(), g, index) {
          FailedState(v, vol.history[k], vol.V(), g, index, leaked);
        }
        return;
      }
      h1, v1 := vol.history, vol.V();
    }
    GrownOwn(v, vol.V(), g, index, e, entry, added, leaked, pending);
    GrownLength(v, vol.V(), g, index, e, entry, added, leaked, pending);
    CopyAndCommit(vol, entry, index, offset, data, v, e, added, leaked, pending);
    forall k | |old(vol.history)| <= k < |vol.history| ensures DuringWrite(v, vol.history[k], vol.V(), g, index) {
      if k < |h1| {
        assert vol.history[k] == h1[k];
        GrowthState(v, v1, h1[k], vol.V(), g, index, e, entry, added, leaked, pending);
      }
    }
    return OK, |data|;
  }

  /** Blocks a file lacks for its bytes to reach `end`. */
  ghost function Missing(v: seq<Block>, g: Geometry, e: Entry, end: nat): nat
    requires g.blockSize > 0
  {
    var n := |DataBlocks(Extents(v, g, e))| * g.blockSize;
    if end > n then (end - n + g.blockSize - 1) / g.blockSize else 0
  }

  lemma GrownLength(v: seq<Block>, v': seq<Block>, g: Geometry, i: nat, e: Entry, e': Entry,
                    added: seq<nat>, leaked: set<nat>, pending: set<nat>)
    requires g.blockSize > 0 && Grown(v, v', g, i, e, e', added, leaked, pending)
    ensures |DataBlocks(Extents(v', g, e'))| == |DataBlocks(Extents(v, g, e))| + |added|
  {
    hide OwnOk, LocalFile, Table, Held, HeldBy, Referenced, DataBlocks, Extents;
  }

  /** With the missing blocks the file reaches `end`, and with one fewer it would not. */
  lemma MissingLeast(v: seq<Block>, g: Geometry, e: Entry, end: nat)
    requires g.blockSize > 0
    ensures var n, m := |DataBlocks(Extents(v, g, e))|, Missing(v, g, e, end);
            end <= (n + m) * g.blockSize && (m > 0 ==> (n + m - 1) * g.blockSize < end)
  {
    hide DataBlocks, Extents;
    var n, m := |DataBlocks(Extents(v, g, e))|, Missing(v, g, e, end);
    if m > 0 {
      var x := end - n * g.blockSize;
      DivFacts(x + g.blockSize - 1, g.blockSize);
      assert (n + m) * g.blockSize == n * g.blockSize + m * g.blockSize;
      assert (n + m - 1) * g.blockSize == (n + m) * g.blockSize - g.blockSize;
    } else if end > n * g.blockSize {
      Enough(n, m, g.blockSize, end);
    }
  }

  ghost predicate CannotGrow(v: seq<Block>, g: Geometry, e: Entry, end: nat)
    requires g.blockSize > 0
  {
    Missing(v, g, e, end) > 0 && GrowFails(v, g, e, Missing(v, g, e, end))
  }
}
