/** Appending extents and writing file contents. */
module FileWrites {
  import opened Bytes
  import opened Layout
  import opened Bitmap
  import opened Entries
  import opened Files
  import opened Ownership
  import opened Volumes
  import opened Allocator
  import opened FileReads
  import opened FileGrowth

  lemma HintKept(vol: Volume, v: seq<Block>, hint: nat)
    requires vol.g.Valid() && ViewOk(v, vol.g) && ViewOk(vol.V(), vol.g) && |vol.V()| == |v| && vol.freeHint == hint
    requires forall x :: vol.g.bitmapStart <= x < vol.g.bitmapStart + vol.g.bitmapCount && x < |v| ==> vol.V()[x] == v[x]
    ensures hint == |FreeSet(v, vol.g)| ==> HintExact(vol)
  {
    hide vol.g.Valid, ViewOk, vol.V, Used, BitmapBits;
    BitsSame(v, vol.V(), vol.g);
    TotalInBitmap(vol.g);
    assert FreeSet(vol.V(), vol.g) == FreeSet(v, vol.g);
  }

  /** A data block is written in place: ownership, the table and the free count stay, and so does soundness. */
  method StoreData(vol: Volume, b: nat, x: Block, ghost leaked: set<nat>)
    requires vol.Valid() && vol.g.Valid() && vol.g.blockSize > 0 && OwnOk(vol.V(), vol.g, leaked)
    requires vol.g.dataStart <= b < vol.g.totalBlocks && |x| == vol.g.blockSize
    requires KeepsIndirect(vol.V(), vol.g, b, x)
    modifies vol, vol.dev
    ensures vol.Valid() && vol.Continues() && vol.scratch2 == old(vol.scratch2)
    ensures vol.V() == Put(old(vol.V()), b, x) && OwnOk(vol.V(), vol.g, leaked)
    ensures Table(vol.V(), vol.g) == Table(old(vol.V()), vol.g) && Held(vol.V(), vol.g) == Held(old(vol.V()), vol.g)
    ensures old(HintExact(vol)) ==> HintExact(vol)
    ensures vol.history == old(vol.history) + [vol.V()]
    ensures SoundSince(vol, |old(vol.history)|, old(vol.V()), {b})
  {
    hide vol.Valid, vol.V, vol.g.Valid, OwnOk, KeepsIndirect, Table, Held, FreeSet, Sound, ViewOk;
    ghost var v := vol.V();
    VolumeView(vol);
    ValidSize(vol.g);
    DataPut(v, vol.g, b, x, leaked);
    vol.Store(b, x);
    VolumeView(vol);
    HintKept(vol, v, old(vol.freeHint));
    OwnSound(vol.V(), vol.g, leaked);
  }

  lemma SoundSinceMore(vol: Volume, h0: seq<seq<Block>>, h1: seq<seq<Block>>, v: seq<Block>, s0: set<nat>,
                       v1: seq<Block>, s1: set<nat>, s: set<nat>)
    requires vol.g.blockSize > 0 && h0 <= h1 <= vol.history && s0 <= s && s1 <= s
    requires forall k :: |h0| <= k < |h1| ==> StateOf(h1[k], vol.g, v, s0)
    requires Table(v1, vol.g) == Table(v, vol.g) && DataBut(v, v1, vol.g, s)
    requires SoundSince(vol, |h1|, v1, s1)
    ensures SoundSince(vol, |h0|, v, s)
  {
    hide Sound, Table;
    forall k | |h0| <= k < |vol.history| ensures StateOf(vol.history[k], vol.g, v, s) {
      if k < |h1| {
        assert vol.history[k] == h1[k];
      } else {
        assert StateOf(vol.history[k], vol.g, v1, s1);
      }
    }
  }

  /** A zeroed indirect block, allocated and still unreferenced. */
  method FreshIndirect(vol: Volume, ghost leaked: set<nat>) returns (res: FsResult, b: nat)
    requires vol.Valid() && vol.g.Valid() && vol.g.blockSize > 0 && OwnOk(vol.V(), vol.g, leaked)
    modifies vol, vol.dev
    ensures vol.Valid() && vol.Continues()
    ensures old(HintExact(vol)) ==> HintExact(vol)
    ensures SoundSince(vol, |old(vol.history)|, old(vol.V()), {b})
    ensures res == if NoFit(old(vol.V()), vol.g, 1) then ERR_NO_SPACE else OK
    ensures res != OK ==> vol.V() == old(vol.V()) && vol.history == old(vol.history)
    ensures res == OK ==>
              && vol.g.dataStart <= b < vol.g.totalBlocks && b !in leaked && b > 0
              && |vol.V()| == |old(vol.V())|
              && OwnOk(vol.V(), vol.g, leaked + {b})
              && Table(vol.V(), vol.g) == Table(old(vol.V()), vol.g)
              && Held(vol.V(), vol.g) == Held(old(vol.V()), vol.g)
              && !Referenced(Held(vol.V(), vol.g), b)
              && (forall x :: vol.g.dataStart <= x < |vol.V()| && x != b ==> vol.V()[x] == old(vol.V())[x])
  {
    hide vol.Valid, vol.V, vol.g.Valid, OwnOk, Marked, NoFit, Table, Held, FreeSet, Referenced, Sound, KeepsIndirect,
         FirstFit;
    ghost var v := vol.V();
    res, b := Reserve(vol, 1, leaked);
    if res != OK {
      return;
    }
    ghost var h1, v1 := vol.history, vol.V();
    ValidSize(vol.g);
    FitBounds(v, vol.g, b, 1);
    assert RangeSet(b, 1) == {b};
    KeepsUnreferenced(v1, vol.g, b, Zeros(vol.g.blockSize));
    vol.SetScratch2(Zeros(vol.g.blockSize));
    StoreData(vol, b, vol.scratch2, leaked + {b});
    SoundSinceMore(vol, old(vol.history), h1, v, {}, v1, {b}, {b});
  }

  lemma FitBounds(v: seq<Block>, g: Geometry, start: nat, n: nat)
    requires FirstFit(v, g, start, n)
    ensures g.dataStart <= start && start + n <= g.totalBlocks
  {
    hide FreeRun;
  }

  lemma ExtentsDirect(v: seq<Block>, v': seq<Block>, g: Geometry, e: Entry)
    requires e.extentCount <= DIRECT_EXTENTS
    ensures Extents(v', g, e) == Extents(v, g, e)
  {
  }

  /** The new extent's blocks are allocated and belong to no file. */
  ghost predicate Pending(v: seq<Block>, g: Geometry, x: Extent, leaked: set<nat>)
    requires g.blockSize > 0
  {
    && ExtentFits(x) && g.dataStart <= x.start && x.start + x.count <= g.totalBlocks
    && forall b :: x.start <= b < x.start + x.count ==> b in leaked && !Referenced(Held(v, g), b)
  }

  lemma PendingUnreferenced(v: seq<Block>, g: Geometry, x: Extent, leaked: set<nat>, b: nat)
    requires g.blockSize > 0 && Pending(v, g, x, leaked)
    ensures x.start <= b < x.start + x.count ==> b in leaked && !Referenced(Held(v, g), b)
  {
    hide Held, Referenced;
  }

  /** The record's store and what it means for the file, as values. */
  lemma RecordOwn(v: seq<Block>, g: Geometry, i: nat, e: Entry, b: nat, x: Extent, leaked: set<nat>)
    requires g.Valid() && g.blockSize > 0 && OwnOk(v, g, leaked) && i < g.Slots() && EntryAt(v, g, i) == e
    requires LocalFile(v, g, e) && ExtentFits(x)
    requires DIRECT_EXTENTS <= e.extentCount && e.extentCount - DIRECT_EXTENTS < IndirectSlots(g)
    requires g.dataStart <= b < g.totalBlocks && b < |v| && |v[b]| == g.blockSize
    requires (e.extentCount - DIRECT_EXTENTS) * EXTENT_SIZE + EXTENT_SIZE <= |v[b]|
    requires e.extentCount > DIRECT_EXTENTS ==> e.indirect == b
    requires e.extentCount == DIRECT_EXTENTS ==> !Referenced(Held(v, g), b)
    ensures var v' := Put(v, b, Splice(v[b], (e.extentCount - DIRECT_EXTENTS) * EXTENT_SIZE, EncodeExtent(x)));
            var e' := e.(indirect := b, extentCount := e.extentCount + 1);
            && OwnOk(v', g, leaked) && Table(v', g) == Table(v, g) && Held(v', g) == Held(v, g)
            && Extents(v', g, e') == Extents(v, g, e) + [x] && Fits(e')
  {
    hide g.Valid, OwnOk, Referenced, Held, Table, EntryAt, Splice, EncodeExtent, Extents, KeepsIndirect, g.Slots, Fits,
         LocalFile;
    ValidSize(g);
    LocalParts(v, g, e);
    MaxExtents(g);
    FitsIndirect(e, b);
    OwnParts(v, g, leaked);
    if e.extentCount > DIRECT_EXTENTS {
      KeepsOwn(v, g, i, EncodeExtent(x));
    } else {
      KeepsUnreferenced(v, g, b, Splice(v[b], (e.extentCount - DIRECT_EXTENTS) * EXTENT_SIZE, EncodeExtent(x)));
    }
    DataPut(v, g, b, Splice(v[b], (e.extentCount - DIRECT_EXTENTS) * EXTENT_SIZE, EncodeExtent(x)), leaked);
    AppendIndirect(v, g, e, b, v[b], x);
  }

  lemma OwnParts(v: seq<Block>, g: Geometry, leaked: set<nat>)
    requires g.blockSize > 0 && OwnOk(v, g, leaked)
    ensures ViewOk(v, g) && FilesOk(v, g) && Separate(Held(v, g)) && BitsMatch(v, g, Held(v, g), leaked)
  {
    hide ViewOk, FilesOk, Separate, Held, BitsMatch;
  }

  lemma PendingFits(v: seq<Block>, g: Geometry, x: Extent, leaked: set<nat>)
    requires g.blockSize > 0 && Pending(v, g, x, leaked)
    ensures ExtentFits(x) && g.dataStart <= x.start && x.start + x.count <= g.totalBlocks
    ensures forall b :: x.start <= b < x.start + x.count ==> !Referenced(Held(v, g), b)
  {
    hide Held, Referenced, ExtentFits;
  }

  lemma SameEntry(v: seq<Block>, v': seq<Block>, g: Geometry, i: nat)
    requires g.blockSize > 0 && i < g.Slots() && Table(v', g) == Table(v, g)
    ensures EntryAt(v', g, i) == EntryAt(v, g, i)
  {
    hide EntryAt, g.Slots;
    assert Table(v', g)[i] == Table(v, g)[i];
  }

  lemma OneMore(vol: Volume, h0: seq<seq<Block>>, h1: seq<seq<Block>>, v: seq<Block>, s: set<nat>)
    requires vol.g.blockSize > 0 && h0 <= h1 && vol.history == h1 + [vol.V()]
    requires forall k :: |h0| <= k < |h1| ==> StateOf(h1[k], vol.g, v, s)
    requires Sound(vol.V(), vol.g) && Table(vol.V(), vol.g) == Table(v, vol.g) && DataBut(v, vol.V(), vol.g, s)
    ensures SoundSince(vol, |h0|, v, s)
  {
    hide Sound, Table, DataBut;
  }

  /** The file's indirect block, allocated now if it has none. */
  method PrepareIndirect(vol: Volume, entry: Entry, x: Extent, ghost index: nat, ghost leaked: set<nat>)
    returns (res: FsResult, b: nat)
    requires vol.Valid() && vol.g.Valid() && vol.g.blockSize > 0 && OwnOk(vol.V(), vol.g, leaked)
    requires index < vol.g.Slots() && EntryAt(vol.V(), vol.g, index) == entry && entry.kind == FILE
    requires DIRECT_EXTENTS <= entry.extentCount
    requires Pending(vol.V(), vol.g, x, leaked)
    modifies vol, vol.dev
    ensures vol.Valid() && vol.Continues()
    ensures old(HintExact(vol)) ==> HintExact(vol)
    ensures SoundSince(vol, |old(vol.history)|, old(vol.V()), {b})
    ensures res == if entry.extentCount == DIRECT_EXTENTS && NoFit(old(vol.V()), vol.g, 1) then ERR_NO_SPACE else OK
    ensures res != OK ==> vol.V() == old(vol.V()) && vol.history == old(vol.history)
    ensures res == OK ==>
              && vol.g.dataStart <= b < vol.g.totalBlocks && 0 < b && !(x.start <= b < x.start + x.count)
              && (entry.indirect != 0 ==> b == entry.indirect && entry.extentCount > DIRECT_EXTENTS)
              && (entry.indirect == 0 ==> b !in leaked && !Referenced(Held(old(vol.V()), vol.g), b)
                                          && entry.extentCount == DIRECT_EXTENTS)
              && |vol.V()| == |old(vol.V())|
              && OwnOk(vol.V(), vol.g, leaked + NewIndirect(entry, entry.(indirect := b)))
              && Table(vol.V(), vol.g) == Table(old(vol.V()), vol.g)
              && Held(vol.V(), vol.g) == Held(old(vol.V()), vol.g)
              && EntryAt(vol.V(), vol.g, index) == entry && LocalFile(vol.V(), vol.g, entry)
              && Extents(vol.V(), vol.g, entry) == Extents(old(vol.V()), vol.g, entry)
              && (forall y :: vol.g.dataStart <= y < |vol.V()| && y != b ==> vol.V()[y] == old(vol.V())[y])
  {
    hide vol.Valid, vol.V, vol.g.Valid, OwnOk, NoFit, Table, Held, FreeSet, Referenced, Sound, EntryAt, Fits, Extents,
         vol.g.Slots, LocalFile, Pending, ExtentFits, ViewOk;
    var g := vol.g;
    ghost var v := vol.V();
    OnDiskFile(v, g, index, leaked);
    LocalParts(v, g, entry);
    ValidSize(g);
    if entry.indirect == 0 {
      res, b := FreshIndirect(vol, leaked);
      if res == OK {
        ExtentsDirect(v, vol.V(), g, entry);
        PendingUnreferenced(v, g, x, leaked, b);
        SameEntry(v, vol.V(), g, index);
        OnDiskFile(vol.V(), g, index, leaked + {b});
      }
    } else {
      IndirectHeld(v, g, index);
      RefersTo(Held(v, g), index, entry.indirect);
      PendingUnreferenced(v, g, x, leaked, entry.indirect);
      assert leaked + NewIndirect(entry, entry) == leaked;
      res, b := OK, entry.indirect;
    }
  }

  /** The case of an entry whose direct extents are all in use. */
  method AppendToIndirect(vol: Volume, entry: Entry, x: Extent, ghost index: nat, ghost leaked: set<nat>)
    returns (res: FsResult, entry': Entry)
    requires vol.Valid() && vol.g.Valid() && vol.g.blockSize > 0 && OwnOk(vol.V(), vol.g, leaked)
    requires index < vol.g.Slots() && EntryAt(vol.V(), vol.g, index) == entry && entry.kind == FILE
    requires DIRECT_EXTENTS <= entry.extentCount < DIRECT_EXTENTS + IndirectSlots(vol.g)
    requires Pending(vol.V(), vol.g, x, leaked)
    modifies vol, vol.dev
    ensures vol.Valid() && vol.Continues()
    ensures old(HintExact(vol)) ==> HintExact(vol)
    ensures SoundSince(vol, |old(vol.history)|, old(vol.V()), {entry'.indirect})
    ensures res == if entry.extentCount == DIRECT_EXTENTS && NoFit(old(vol.V()), vol.g, 1) then ERR_NO_SPACE else OK
    ensures res != OK ==> vol.V() == old(vol.V()) && vol.history == old(vol.history)
    ensures res == OK ==> Appended(old(vol.V()), vol.V(), vol.g, entry, entry', x, leaked)
  {
    hide vol.Valid, vol.V, vol.g.Valid, OwnOk, NoFit, Table, Held, FreeSet, Referenced, Sound, EntryAt, Fits, Extents,
         vol.g.Slots, LocalFile, Appended, Splice, EncodeExtent, Pending, ExtentFits, ViewOk, NewIndirect;
    var g := vol.g;
    ghost var v := vol.V();
    PendingFits(v, g, x, leaked);
    ValidSize(g);
    var b;
    res, b := PrepareIndirect(vol, entry, x, index, leaked);
    if res != OK {
      return res, entry;
    }
    ghost var leaked' := leaked + NewIndirect(entry, entry.(indirect := b));
    var at := entry.extentCount - DIRECT_EXTENTS;
    ghost var h1, v1 := vol.history, vol.V();
    VolumeView(vol);
    DataInView(v1, g, b);
    RecordRoom(g, at);
    RecordOwn(v1, g, index, entry, b, x, leaked');
    StoreRecord(vol, b, at, x);
    VolumeView(vol);
    HintKept(vol, v1, vol.freeHint);
    entry' := entry.(indirect := b, extentCount := entry.extentCount + 1);
    NewIndirectSame(entry, b);
    OwnSound(vol.V(), g, leaked');
    OneMore(vol, old(vol.history), h1, v, {b});
    MakeAppended(v, vol.V(), g, index, entry, entry', x, leaked);
    res := OK;
  }

  lemma NewIndirectSame(e: Entry, b: nat)
    ensures NewIndirect(e, e.(indirect := b, extentCount := e.extentCount + 1)) == NewIndirect(e, e.(indirect := b))
  {
  }

  /** vtx2_append_extent. */
  method AppendExtent(vol: Volume, entry: Entry, x: Extent, ghost index: nat, ghost leaked: set<nat>)
    returns (res: FsResult, entry': Entry)
    requires vol.Valid() && vol.g.Valid() && vol.g.blockSize > 0 && OwnOk(vol.V(), vol.g, leaked)
    requires index < vol.g.Slots() && EntryAt(vol.V(), vol.g, index) == entry && entry.kind == FILE
    requires Pending(vol.V(), vol.g, x, leaked)
    modifies vol, vol.dev
    ensures vol.Valid() && vol.Continues()
    ensures old(HintExact(vol)) ==> HintExact(vol)
    ensures SoundSince(vol, |old(vol.history)|, old(vol.V()), {entry'.indirect})
    ensures res == if entry.extentCount >= DIRECT_EXTENTS + IndirectSlots(vol.g)
                      || (entry.extentCount == DIRECT_EXTENTS && NoFit(old(vol.V()), vol.g, 1))
                   then ERR_NO_SPACE else OK
    ensures res != OK ==> vol.V() == old(vol.V()) && vol.history == old(vol.history)
    ensures res == OK ==> Appended(old(vol.V()), vol.V(), vol.g, entry, entry', x, leaked)
  {
    hide vol.Valid, vol.V, vol.g.Valid, OwnOk, NoFit, Table, Held, FreeSet, Referenced, Sound, EntryAt, Fits, Extents,
         vol.g.Slots, LocalFile, Appended, Pending, ExtentFits;
    var g := vol.g;
    ghost var v := vol.V();
    MaxExtents(g);
    OnDiskFile(v, g, index, leaked);
    LocalParts(v, g, entry);
    if entry.extentCount >= DIRECT_EXTENTS + g.blockSize / EXTENT_SIZE {
      return ERR_NO_SPACE, entry;
    }
    if entry.extentCount < DIRECT_EXTENTS {
      entry' := entry.(direct := entry.direct[entry.extentCount := x], extentCount := entry.extentCount + 1);
      PendingFits(v, g, x, leaked);
      FitsDirect(entry, x);
      AppendDirect(v, g, entry, x);
      ValidSize(g);
      assert leaked + NewIndirect(entry, entry') == leaked;
      MakeAppended(v, v, g, index, entry, entry', x, leaked);
      res := OK;
    } else {
      res, entry' := AppendToIndirect(vol, entry, x, index, leaked);
    }
  }
}
