/** vtx2_delete: the entry's blocks go back to the allocator, then its slot to the table. */
module DeleteEntry {
  import opened Seqs
  import opened Layout
  import opened Bitmap
  import opened Entries
  import opened Files
  import opened Ownership
  import opened Contents
  import opened Tree
  import opened Volumes
  import opened Allocator
  import opened FileReads
  import opened FileGrowth
  import opened FileWrites
  import opened WriteLemmas
  import opened WriteFile
  import opened Directory
  import opened EntryOps

  /** v is v0 with the bits of the listed blocks cleared. */
  ghost predicate Freed(v0: seq<Block>, v: seq<Block>, g: Geometry, bl: seq<nat>) {
    && |v| == |v0| && ViewOk(v, g)
    && (forall x :: 0 <= x < |v0| && OutsideBitmap(g, x) ==> v[x] == v0[x])
    && (forall c :: 0 <= c < BitmapBits(g) ==> (Used(v, g, c) <==> Used(v0, g, c) && c !in bl))
  }

  lemma FreedNothing(v: seq<Block>, g: Geometry)
    requires ViewOk(v, g)
    ensures Freed(v, v, g, [])
  {
    hide Used, ViewOk, BitmapBits;
  }

  lemma FreedStep(v0: seq<Block>, v: seq<Block>, v': seq<Block>, g: Geometry, bl: seq<nat>, start: nat, n: nat)
    requires Freed(v0, v, g, bl) && Marked(v, v', g, start, n, false)
    ensures Freed(v0, v', g, bl + Run(start, n))
  {
    hide Used, ViewOk, BitmapBits, Run;
    RunFacts(start, n);
  }

  /** Extent n's blocks come next in the file's list, and are still in use. */
  lemma NextExtent(v0: seq<Block>, v: seq<Block>, g: Geometry, i: nat, e: Entry, n: nat, leaked: set<nat>)
    requires g.Valid() && g.blockSize > 0 && OwnOk(v0, g, leaked) && i < g.Slots() && EntryAt(v0, g, i) == e
    requires e.kind == FILE && n < e.extentCount
    requires Freed(v0, v, g, DataBlocks(Extents(v0, g, e)[..n]))
    ensures var xs := Extents(v0, g, e);
            && DataBlocks(xs[..n + 1]) == DataBlocks(xs[..n]) + Run(xs[n].start, xs[n].count)
            && (xs[n].count > 0 ==> g.dataStart <= xs[n].start && xs[n].start + xs[n].count <= g.totalBlocks)
            && forall c :: xs[n].start <= c < xs[n].start + xs[n].count ==> Used(v, g, c)
  {
    hide g.Valid, OwnOk, EntryAt, Used, DataBlocks, Run, g.Slots, Extents, Freed;
    var xs := Extents(v0, g, e);
    DataBlocksPrefix(xs, n);
    forall c | xs[n].start <= c < xs[n].start + xs[n].count ensures Used(v, g, c) {
      ExtentBlock(v0, v, g, i, e, n, c, leaked);
    }
    if xs[n].count > 0 {
      ExtentBlock(v0, v, g, i, e, n, xs[n].start, leaked);
      ExtentBlock(v0, v, g, i, e, n, xs[n].start + xs[n].count - 1, leaked);
    }
  }

  lemma ExtentBlock(v0: seq<Block>, v: seq<Block>, g: Geometry, i: nat, e: Entry, n: nat, c: nat, leaked: set<nat>)
    requires g.Valid() && g.blockSize > 0 && OwnOk(v0, g, leaked) && i < g.Slots() && EntryAt(v0, g, i) == e
    requires e.kind == FILE && n < e.extentCount
    requires Freed(v0, v, g, DataBlocks(Extents(v0, g, e)[..n]))
    requires var x := Extents(v0, g, e)[n]; x.start <= c < x.start + x.count
    ensures g.dataStart <= c < g.totalBlocks && Used(v, g, c)
  {
    hide g.Valid, OwnOk, EntryAt, LocalFile, Used, BitmapBits, Held, HeldBy, DataBlocks, Run, ViewOk, g.Slots, Extents;
    var xs := Extents(v0, g, e);
    OnDiskFile(v0, g, i, leaked);
    LocalParts(v0, g, e);
    DataBlocksPrefix(xs, n);
    var d := DataBlocks(xs);
    var k := |DataBlocks(xs[..n])|;
    DataBlocksAt(xs, n, c - xs[n].start);
    assert d[k + (c - xs[n].start)] == c;
    assert c in HeldBy(v0, g, e);
    HeldUsed(v0, g, i, e, c, leaked);
    EarlierApart(d, k, k + (c - xs[n].start));
  }

  lemma {:induction false} DataBlocksPrefix(xs: seq<Extent>, n: nat)
    requires n < |xs|
    ensures DataBlocks(xs[..n + 1]) == DataBlocks(xs[..n]) + Run(xs[n].start, xs[n].count)
    ensures DataBlocks(xs[..n]) <= DataBlocks(xs)
    decreases |xs|
  {
    hide Run;
    assert xs[..n + 1][..n] == xs[..n];
    if n < |xs| - 1 {
      var init := xs[..|xs| - 1];
      DataBlocksPrefix(init, n);
      assert init[..n] == xs[..n];
    } else {
      assert xs[..n + 1] == xs;
    }
  }

  lemma EarlierApart(d: seq<nat>, k: nat, p: nat)
    requires NoDup(d) && k <= p < |d|
    ensures d[p] !in d[..k]
  {
  }

  /** While an entry still refers to a block that is already free, the volume is not sound. */
  lemma FreedUnsound(v0: seq<Block>, v: seq<Block>, g: Geometry, i: nat, bl: seq<nat>, leaked: set<nat>)
    requires g.Valid() && g.blockSize > 0 && OwnOk(v0, g, leaked) && i < g.Slots()
    requires Freed(v0, v, g, bl) && bl != [] && bl[0] in Held(v0, g)[i]
    ensures !Sound(v, g) && Table(v, g) == Table(v0, g)
  {
    hide g.Valid, ViewOk, FilesOk, Separate, Held, Table, Used, BitmapBits, g.Slots, Referenced;
    ValidSize(g);
    TableSame(v0, v, g);
    BitsOnlyFiles(v0, v, g);
    var c := bl[0];
    RefersTo(Held(v0, g), i, c);
    OwnedInData(v0, g, i, c, leaked);
    TotalInBitmap(g);
  }

  /** The blocks of a file in the order in which vtx2_delete frees them. */
  ghost function FreeOrder(d: seq<nat>, indirect: nat): seq<nat> {
    if indirect != 0 then d + [indirect] else d
  }

  /** The session went through one state for each freed block: every one has one block more free. */
  ghost predicate BlockByBlock(vol: Volume, from: nat, v: seq<Block>, order: seq<nat>, n: nat)
    reads vol
  {
    && n <= |order| && |vol.history| == from + n
    && forall k :: from <= k < |vol.history| ==> Freed(v, vol.history[k], vol.g, order[..k - from + 1])
  }

  lemma FreedMore(vol: Volume, h1: seq<seq<Block>>, from: nat, v: seq<Block>, v1: seq<Block>, order: seq<nat>, n: nat,
                  start: nat, count: nat)
    requires n + count <= |order| && order[n..n + count] == Run(start, count) && |h1| == from + n && h1 <= vol.history
    requires forall k :: from <= k < |h1| ==> Freed(v, h1[k], vol.g, order[..k - from + 1])
    requires Freed(v, v1, vol.g, order[..n]) && BitByBit(vol, |h1|, v1, start, count, false)
    ensures BlockByBlock(vol, from, v, order, n + count)
  {
    hide Freed, Marked, Run;
    forall k | from <= k < |vol.history| ensures Freed(v, vol.history[k], vol.g, order[..k - from + 1]) {
      if k < |h1| {
        assert vol.history[k] == h1[k];
      } else {
        FreedStep(v, v1, vol.history[k], vol.g, order[..n], start, k - |h1| + 1);
        RunPrefix(order, n, start, count, k - |h1| + 1);
      }
    }
  }

  lemma RunPrefix(order: seq<nat>, n: nat, start: nat, count: nat, m: nat)
    requires n + count <= |order| && order[n..n + count] == Run(start, count) && m <= count
    ensures order[..n] + Run(start, m) == order[..n + m]
  {
    forall p | 0 <= p < m ensures Run(start, m)[p] == order[n + p] {
      assert order[n..n + count][p] == Run(start, count)[p];
    }
  }

  /** A file's blocks are in use and inside the bitmap. */
  lemma HeldUsed(v: seq<Block>, g: Geometry, i: nat, e: Entry, c: nat, leaked: set<nat>)
    requires g.Valid() && g.blockSize > 0 && OwnOk(v, g, leaked) && i < g.Slots() && EntryAt(v, g, i) == e
    requires e.kind == FILE && c in HeldBy(v, g, e)
    ensures g.dataStart <= c < g.totalBlocks && c < BitmapBits(g) && Used(v, g, c)
  {
    hide g.Valid, EntryAt, LocalFile, Used, BitmapBits, Held, HeldBy, ViewOk, g.Slots, FilesOk, Separate, Referenced;
    OnDiskFile(v, g, i, leaked);
    HeldInData(v, g, e, c);
    RefersTo(Held(v, g), i, c);
    TotalInBitmap(g);
  }

  /** The slot cleared after the bits: the blocks are nobody's, everything else is as before. */
  lemma DeleteOwn(v0: seq<Block>, v: seq<Block>, v': seq<Block>, g: Geometry, i: nat, leaked: set<nat>)
    requires g.Valid() && g.blockSize > 0 && OwnOk(v0, g, leaked) && i < g.Slots()
    requires Freed(v0, v, g, Held(v0, g)[i])
    requires Table(v', g) == Table(v, g)[i := BlankEntry()] && SameButTable(v, v', g) && ViewOk(v', g)
    ensures OwnOk(v', g, leaked)
    ensures Table(v', g) == Table(v0, g)[i := BlankEntry()]
    ensures Held(v', g) == Held(v0, g)[i := []]
    ensures OthersKept(v0, v', g, i)
  {
    hide g.Valid, ViewOk, FilesOk, Separate, Held, HeldBy, Table, Used, BitmapBits, FileOk, NoDup, BitsMatch, EntryAt,
         OthersKept, g.Slots, Referenced, BlankEntry;
    ValidSize(g);
    var h := Held(v0, g);
    TableSame(v0, v, g);
    BitsOnlyFiles(v0, v, g);
    BlankIsEmpty(v, g);
    EntryPut(v, v', g, i, BlankEntry());
    EmptyNoDup();
    SeparateUpdate(h, i, []);
    BitsSame(v, v', g);
    BitsDeleted(v0, v, v', g, i, leaked);
    TableAt(v', g, i);
    OthersUntouched(v0, v', g, i, leaked);
  }

  lemma BlankIsEmpty(v: seq<Block>, g: Geometry)
    ensures HeldBy(v, g, BlankEntry()) == [] && BlankEntry().kind == FREE
  {
  }

  lemma EmptyNoDup()
    ensures NoDup([])
  {
  }

  lemma BitsDeleted(v0: seq<Block>, v: seq<Block>, v': seq<Block>, g: Geometry, i: nat, leaked: set<nat>)
    requires g.Valid() && g.blockSize > 0 && OwnOk(v0, g, leaked) && i < g.Slots()
    requires Freed(v0, v, g, Held(v0, g)[i])
    requires forall c :: 0 <= c < BitmapBits(g) ==> Used(v', g, c) == Used(v, g, c)
    ensures BitsMatch(v', g, Held(v0, g)[i := []], leaked)
  {
    hide g.Valid, ViewOk, FilesOk, Held, Used, BitmapBits, EntryAt, g.Slots, Referenced, ReferencedElse, NoDup;
    var h := Held(v0, g);
    forall b: nat
      ensures Referenced(h[i := []], b) <==> Referenced(h, b) && b !in h[i]
      ensures b in h[i] ==> g.dataStart <= b < g.totalBlocks && b !in leaked
    {
      ReferencedUpdate(h, i, [], b);
      if b in h[i] {
        NotElse(h, i, b);
        OwnedInData(v0, g, i, b, leaked);
      }
    }
  }

  lemma NotElse(h: seq<seq<nat>>, i: nat, b: nat)
    requires i < |h| && Separate(h) && b in h[i]
    ensures !ReferencedElse(h, i, b)
  {
  }

  lemma OwnedInData(v: seq<Block>, g: Geometry, i: nat, b: nat, leaked: set<nat>)
    requires g.blockSize > 0 && OwnOk(v, g, leaked) && i < g.Slots() && b in Held(v, g)[i]
    ensures g.dataStart <= b < g.totalBlocks && b !in leaked
  {
    hide ViewOk, FilesOk, Separate, Held, HeldBy, Used, BitmapBits, EntryAt, g.Slots, Referenced, LocalFile;
    HeldAt(v, g, i);
    RefersTo(Held(v, g), i, b);
    if EntryAt(v, g, i).kind == FILE {
      OnDiskFile(v, g, i, leaked);
      HeldInData(v, g, EntryAt(v, g, i), b);
    } else {
      NotAFile(v, v, g, EntryAt(v, g, i));
    }
  }

  lemma ExtentsWhenFreed(v0: seq<Block>, v: seq<Block>, g: Geometry, i: nat, e: Entry, bl: seq<nat>, leaked: set<nat>)
    requires g.Valid() && g.blockSize > 0 && OwnOk(v0, g, leaked) && i < g.Slots() && EntryAt(v0, g, i) == e
    requires e.kind == FILE && Freed(v0, v, g, bl)
    ensures Extents(v, g, e) == Extents(v0, g, e)
  {
    hide g.Valid, OwnOk, EntryAt, Used, BitmapBits, DataBlocks, g.Slots, Extents, ViewOk, HeldBy, FileOk, NoDup;
    OnDiskFile(v0, g, i, leaked);
    ExtentsOutsideBitmap(v0, v, g, e);
  }

  lemma ExtentIs(v: seq<Block>, g: Geometry, e: Entry, n: nat)
    requires n < e.extentCount
    ensures Extents(v, g, e)[n] == ExtentAt(v, g, e, n)
  {
    hide ExtentAt;
  }

  /** Freeing used blocks moves the hint and the free count alike. */
  lemma HintFreed(v: seq<Block>, v': seq<Block>, g: Geometry, start: nat, n: nat, hint: nat)
    requires g.Valid() && Marked(v, v', g, start, n, false) && g.dataStart <= start && start + n <= g.totalBlocks
    requires forall c :: start <= c < start + n ==> Used(v, g, c)
    ensures hint == |FreeSet(v, g)| ==> hint + n == |FreeSet(v', g)|
  {
    hide g.Valid, Used, FreeSet, Marked;
    FreeingCount(v, v', g, start, n);
  }

  lemma InBitmap(g: Geometry, start: nat, n: nat)
    requires g.Valid() && start + n <= g.totalBlocks
    ensures start + n <= BitmapBits(g)
  {
    hide g.Valid, BitmapBits;
    TotalInBitmap(g);
  }

  /** The loop of vtx2_delete over a file's extents. */
  method FreeExtents(vol: Volume, index: nat, entry: Entry, ghost leaked: set<nat>)
    requires vol.Valid() && vol.g.Valid() && vol.g.blockSize > 0 && OwnOk(vol.V(), vol.g, leaked)
    requires index < vol.g.Slots() && EntryAt(vol.V(), vol.g, index) == entry && entry.kind == FILE
    modifies vol, vol.dev
    ensures vol.Valid() && vol.Continues()
    ensures old(HintExact(vol)) ==> HintExact(vol)
    ensures var d := DataBlocks(Extents(old(vol.V()), vol.g, entry));
            && Freed(old(vol.V()), vol.V(), vol.g, d)
            && BlockByBlock(vol, |old(vol.history)|, old(vol.V()), FreeOrder(d, entry.indirect), |d|)
  {
    hide vol.Valid, vol.V, vol.g.Valid, OwnOk, Held, HeldBy, FreeSet, EntryAt, Extents, ExtentAt, DataBlocks, LocalFile,
         vol.g.Slots, Freed, Marked, Used, BitmapBits, Fits, OnlyBits, ViewOk, BitByBit, BlockByBlock, FreeOrder;
    var g := vol.g;
    ghost var v := vol.V();
    ghost var xs := Extents(v, g, entry);
    OnDiskFile(v, g, index, leaked);
    LocalParts(v, g, entry);
    DataBlocksAll(xs);
    VolumeView(vol);
    FreedNothing(v, g);
    ghost var d, order := DataBlocks(xs), FreeOrder(DataBlocks(xs), entry.indirect);
    NoBlockYet(vol, v, order);
    var n := 0;
    while n < entry.extentCount
      invariant n <= entry.extentCount && vol.Valid() && vol.Continues()
      invariant Freed(v, vol.V(), g, DataBlocks(xs[..n]))
      invariant DataBlocks(xs[..n]) <= d && BlockByBlock(vol, |old(vol.history)|, v, order, |DataBlocks(xs[..n])|)
      invariant old(HintExact(vol)) ==> HintExact(vol)
    {
      ghost var v1, h1 := vol.V(), vol.history;
      VolumeView(vol);
      ExtentsWhenFreed(v, v1, g, index, entry, DataBlocks(xs[..n]), leaked);
      ExtentIs(v1, g, entry, n);
      NextExtent(v, v1, g, index, entry, n, leaked);
      DataBlocksPrefix(xs, n);
      PrefixOfAll(xs, n + 1);
      BlocksSoFar(vol, |old(vol.history)|, v, order, |DataBlocks(xs[..n])|);
      var res, ext := GetExtent(vol, entry, n);
      if ext.count > 0 {
        InBitmap(g, ext.start, ext.count);
        res := FreeBlocks(vol, ext.start, ext.count);
        FreedStep(v, v1, vol.V(), g, DataBlocks(xs[..n]), ext.start, ext.count);
        OrderSlice(d, entry.indirect, DataBlocks(xs[..n]), ext.start, ext.count);
        FreedMore(vol, h1, |old(vol.history)|, v, v1, order, |DataBlocks(xs[..n])|, ext.start, ext.count);
        HintFreed(v1, vol.V(), g, ext.start, ext.count, vol.freeHint - ext.count);
      } else {
        EmptyRunIs(ext.start);
        MakeBlocks(vol, |old(vol.history)|, v, order, |DataBlocks(xs[..n])|);
      }
      n := n + 1;
    }
  }

  lemma NoBlockYet(vol: Volume, v: seq<Block>, order: seq<nat>)
    ensures BlockByBlock(vol, |vol.history|, v, order, 0)
  {
  }

  lemma MakeBlocks(vol: Volume, from: nat, v: seq<Block>, order: seq<nat>, n: nat)
    requires n <= |order| && |vol.history| == from + n
    requires forall k :: from <= k < |vol.history| ==> Freed(v, vol.history[k], vol.g, order[..k - from + 1])
    ensures BlockByBlock(vol, from, v, order, n)
  {
    hide Freed;
  }

  lemma BlocksSoFar(vol: Volume, from: nat, v: seq<Block>, order: seq<nat>, n: nat)
    requires BlockByBlock(vol, from, v, order, n)
    ensures n <= |order| && |vol.history| == from + n
    ensures forall k :: from <= k < |vol.history| ==> Freed(v, vol.history[k], vol.g, order[..k - from + 1])
  {
    hide Freed;
  }

  /** Both parts of vtx2_delete's freeing: the extents, then the indirect block. */
  method FreeFile(vol: Volume, index: nat, entry: Entry, ghost leaked: set<nat>) returns (res: FsResult)
    requires vol.Valid() && vol.g.Valid() && vol.g.blockSize > 0 && OwnOk(vol.V(), vol.g, leaked)
    requires index < vol.g.Slots() && EntryAt(vol.V(), vol.g, index) == entry && entry.kind == FILE
    modifies vol, vol.dev
    ensures vol.Valid() && vol.Continues() && res == OK
    ensures Freed(old(vol.V()), vol.V(), vol.g, Held(old(vol.V()), vol.g)[index])
    ensures old(HintExact(vol)) ==> HintExact(vol)
    ensures |vol.history| == |old(vol.history)| + |Held(old(vol.V()), vol.g)[index]|
    ensures forall k :: |old(vol.history)| <= k < |vol.history| ==>
              Table(vol.history[k], vol.g) == Table(old(vol.V()), vol.g) && !Sound(vol.history[k], vol.g)
  {
    hide vol.Valid, vol.V, vol.g.Valid, OwnOk, Held, HeldBy, FreeSet, EntryAt, Extents, DataBlocks, LocalFile,
         vol.g.Slots, Freed, Marked, Used, BitmapBits, Fits, Table, OnlyBits, ViewOk, BitByBit, Sound, BlockByBlock,
         FreeOrder;
    var g := vol.g;
    ghost var v := vol.V();
    ghost var d, order := DataBlocks(Extents(v, g, entry)), FreeOrder(DataBlocks(Extents(v, g, entry)), entry.indirect);
    OnDiskFile(v, g, index, leaked);
    LocalParts(v, g, entry);
    FirstHeld(d, entry.indirect);
    HeldOrder(v, g, index, leaked);
    FreeExtents(vol, index, entry, leaked);
    BlocksSoFar(vol, |old(vol.history)|, v, order, |d|);
    res := OK;
    if entry.indirect != 0 {
      ghost var v1, h1 := vol.V(), vol.history;
      VolumeView(vol);
      InBitmap(g, entry.indirect, 1);
      IndirectStillUsed(v, v1, g, index, entry, d, leaked);
      res := FreeBlocks(vol, entry.indirect, 1);
      FreedStep(v, v1, vol.V(), g, d, entry.indirect, 1);
      RunOne(entry.indirect);
      OrderEnd(d, entry.indirect);
      FreedMore(vol, h1, |old(vol.history)|, v, v1, order, |d|, entry.indirect, 1);
      BlocksSoFar(vol, |old(vol.history)|, v, order, |d| + 1);
      HintFreed(v1, vol.V(), g, entry.indirect, 1, vol.freeHint - 1);
    }
    FreedAll(v, vol.V(), g, Held(v, g)[index], d, entry.indirect);
    OrderSize(d, entry.indirect);
    forall k | |old(vol.history)| <= k < |vol.history|
      ensures Table(vol.history[k], g) == Table(v, g) && !Sound(vol.history[k], g)
    {
      FreedUnsound(v, vol.history[k], g, index, order[..k - |old(vol.history)| + 1], leaked);
    }
  }

  lemma OrderSize(d: seq<nat>, indirect: nat)
    ensures |FreeOrder(d, indirect)| == |d| + (if indirect != 0 then 1 else 0)
  {
  }

  lemma OrderSlice(d: seq<nat>, indirect: nat, bl: seq<nat>, start: nat, count: nat)
    requires bl + Run(start, count) <= d
    ensures var order, n := FreeOrder(d, indirect), |bl|;
            n + count <= |order| && order[n..n + count] == Run(start, count) && order[..n] == bl
  {
    hide Run;
    var n := |bl|;
    assert d[..n + count] == bl + Run(start, count);
    assert FreeOrder(d, indirect)[..n + count] == d[..n + count];
  }

  lemma OrderEnd(d: seq<nat>, indirect: nat)
    requires indirect != 0
    ensures var order := FreeOrder(d, indirect);
            |order| == |d| + 1 && order[|d|..|d| + 1] == [indirect] && order[..|d|] == d
  {
  }

  lemma RunOne(b: nat)
    ensures Run(b, 1) == [b]
  {
  }

  lemma PrefixOfAll(xs: seq<Extent>, n: nat)
    requires n <= |xs|
    ensures DataBlocks(xs[..n]) <= DataBlocks(xs)
  {
    hide DataBlocks;
    if n < |xs| {
      DataBlocksPrefix(xs, n);
    } else {
      DataBlocksAll(xs);
    }
  }

  lemma HeldOrder(v: seq<Block>, g: Geometry, i: nat, leaked: set<nat>)
    requires g.blockSize > 0 && OwnOk(v, g, leaked) && i < g.Slots() && EntryAt(v, g, i).kind == FILE
    ensures var e := EntryAt(v, g, i);
            Held(v, g)[i] == (if e.indirect != 0 then [e.indirect] else []) + DataBlocks(Extents(v, g, e))
  {
    hide OwnOk, EntryAt, HeldBy, Held, DataBlocks, Extents, LocalFile, g.Slots;
    OnDiskFile(v, g, i, leaked);
    LocalParts(v, g, EntryAt(v, g, i));
  }

  lemma FirstHeld(d: seq<nat>, indirect: nat)
    ensures var order, h := FreeOrder(d, indirect), (if indirect != 0 then [indirect] else []) + d;
            |order| == |h| && (order != [] ==> order[0] in h)
  {
    var h := (if indirect != 0 then [indirect] else []) + d;
    if indirect != 0 {
      assert h[0] == indirect;
      if d != [] {
        assert h[1] == d[0];
      }
    }
  }

  lemma EmptyRunIs(start: nat)
    ensures Run(start, 0) == [] && forall s: seq<nat> :: s + Run(start, 0) == s
  {
  }

  lemma IndirectStillUsed(v0: seq<Block>, v: seq<Block>, g: Geometry, i: nat, e: Entry, bl: seq<nat>, leaked: set<nat>)
    requires g.Valid() && g.blockSize > 0 && OwnOk(v0, g, leaked) && i < g.Slots() && EntryAt(v0, g, i) == e
    requires e.kind == FILE && e.indirect != 0 && e.indirect !in bl && Freed(v0, v, g, bl)
    ensures forall c :: e.indirect <= c < e.indirect + 1 ==> Used(v, g, c)
  {
    hide g.Valid, OwnOk, EntryAt, Used, BitmapBits, HeldBy, ViewOk, g.Slots;
    IndirectIn(v0, g, e);
    HeldUsed(v0, g, i, e, e.indirect, leaked);
  }

  /** Clearing the data blocks and then the indirect block clears the file's whole list. */
  lemma FreedAll(v0: seq<Block>, v: seq<Block>, g: Geometry, h: seq<nat>, d: seq<nat>, indirect: nat)
    requires Freed(v0, v, g, if indirect != 0 then d + Run(indirect, 1) else d)
    requires h == (if indirect != 0 then [indirect] else []) + d
    ensures Freed(v0, v, g, h)
  {
    hide Used, BitmapBits, Run, ViewOk;
    RunFacts(indirect, 1);
  }

  /**
   * vtx2_delete. A directory goes only when it has no child; the slot is all zero afterwards, the
   * file's blocks are free, and nothing else moves. The blocks are freed before the slot is cleared:
   * each state in between is unsound, and there is one for every block the file had.
   */
  method Delete(vol: Volume, index: nat, ghost leaked: set<nat>) returns (res: FsResult)
    requires vol.Valid() && vol.g.Valid() && vol.g.blockSize > 0 && FsOk(vol.V(), vol.g, leaked)
    requires IndexOk(vol.g, index)
    modifies vol, vol.dev
    ensures vol.Valid() && vol.Continues() && FsOk(vol.V(), vol.g, leaked)
    ensures old(HintExact(vol)) ==> HintExact(vol)
    ensures res == if index == vol.g.root || index >= vol.g.capacity then ERR_INVALID
                   else if EntryAt(old(vol.V()), vol.g, index).kind == FREE then ERR_NOT_FOUND
                   else if exists j: nat :: ChildOf(Table(old(vol.V()), vol.g), j, index) then ERR_NOT_EMPTY
                   else OK
    ensures res == OK ==>
              && index < vol.g.Slots()
              && Table(vol.V(), vol.g) == Table(old(vol.V()), vol.g)[index := BlankEntry()]
              && Held(vol.V(), vol.g) == Held(old(vol.V()), vol.g)[index := []]
              && OthersKept(old(vol.V()), vol.V(), vol.g, index)
              && |vol.history| == |old(vol.history)| + |Held(old(vol.V()), vol.g)[index]| + 1
              && (forall k :: |old(vol.history)| <= k < |vol.history| ==>
                    (Sound(vol.history[k], vol.g) <==> k == |vol.history| - 1))
    ensures forall k :: |old(vol.history)| <= k < |vol.history| ==>
              Table(vol.history[k], vol.g) == Table(old(vol.V()), vol.g)
              || Table(vol.history[k], vol.g) == Table(vol.V(), vol.g)
    ensures res != OK ==> vol.V() == old(vol.V()) && vol.history == old(vol.history)
  {
    hide vol.Valid, vol.V, vol.g.Valid, OwnOk, Table, Held, HeldBy, FreeSet, EntryAt, ViewOk, TreeOk, Fits,
         vol.g.Slots, IndexOk, SameButTable, OthersKept, Freed, Children, ChildOf, BlankEntry, Sound;
    var g := vol.g;
    ghost var v := vol.V();
    if index == g.root {
      return ERR_INVALID;
    }
    var entry;
    res, entry := ReadEntry(vol, index);
    if res != OK {
      return;
    }
    TableAt(v, g, index);
    TableSize(v, g);
    if entry.kind == FREE {
      return ERR_NOT_FOUND;
    }
    VolumeView(vol);
    ValidSize(g);
    if entry.kind == DIRECTORY {
      var dummy, childCount;
      res, dummy, childCount := ListDir(vol, index, 0);
      ChildCount(Table(v, g), index, g.Slots());
      if childCount > 0 {
        return ERR_NOT_EMPTY;
      }
      DirectoryHeld(v, g, index);
    } else {
      KindIs(Table(v, g), g.root, index);
      NoChildOfFile(Table(v, g), g.root, index);
      res := FreeFile(vol, index, entry, leaked);
    }
    ghost var v1, h1 := vol.V(), vol.history;
    BlankFits();
    VolumeView(vol);
    res := WriteEntry(vol, index, BlankEntry());
    VolumeView(vol);
    DeleteOwn(v, v1, vol.V(), g, index, leaked);
    TreeDelete(Table(v, g), g.root, index, BlankEntry());
    TableOnly(v1, vol.V(), g);
    HintKept(vol, v1, vol.freeHint);
    OwnSound(vol.V(), g, leaked);
    forall k | |old(vol.history)| <= k < |vol.history| ensures Sound(vol.history[k], g) <==> k == |vol.history| - 1 {
      if k < |h1| {
        assert vol.history[k] == h1[k];
      }
    }
  }

  lemma ChildCount(t: seq<Entry>, dir: nat, n: nat)
    requires n == |t|
    ensures |Children(t, dir, n)| == 0 <==> forall j: nat :: !ChildOf(t, j, dir)
  {
    hide Children;
    ChildrenAll(t, dir, n);
    var c := Children(t, dir, n);
    if |c| > 0 {
      assert c[0] in c;
    }
    forall j: nat ensures ChildOf(t, j, dir) ==> j in c {
    }
  }

  lemma DirectoryHeld(v: seq<Block>, g: Geometry, i: nat)
    requires g.blockSize > 0 && i < g.Slots() && EntryAt(v, g, i).kind != FILE && ViewOk(v, g)
    ensures Freed(v, v, g, Held(v, g)[i]) && Held(v, g)[i] == []
  {
    hide EntryAt, Held, ViewOk, Freed, g.Slots;
    FreeHeld(v, g, i);
    FreedNothing(v, g);
  }

  lemma KindIs(t: seq<Entry>, root: nat, i: nat)
    requires TreeOk(t, root) && i < |t| && t[i].kind != FREE && t[i].kind != DIRECTORY
    ensures t[i].kind == FILE
  {
  }

  /** Only a directory has children. */
  lemma NoChildOfFile(t: seq<Entry>, root: nat, i: nat)
    requires TreeOk(t, root) && i < |t| && t[i].kind != DIRECTORY
    ensures forall j: nat :: !ChildOf(t, j, i)
  {
    hide Reaches, NamesDiffer;
    forall j: nat ensures !ChildOf(t, j, i) {
      assert Live(t, j) ==> ParentOk(t, j);
    }
  }
}
