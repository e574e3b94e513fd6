/** Rewriting an entry, and appending an extent to a file. */
module FileGrowth {
  import opened Seqs
  import opened Arith
  import opened Bytes
  import opened Layout
  import opened Bitmap
  import opened Entries
  import opened Files
  import opened Ownership
  import opened Contents
  import opened Volumes
  import opened Allocator
  import opened FileReads

  /** Block ownership up to leaked blocks: what a crash may leave. */
  ghost predicate Sound(v: seq<Block>, g: Geometry)
    requires g.blockSize > 0
  {
    exists leaked: set<nat> :: OwnOk(v, g, leaked)
  }

  /** Outside the table's blocks the views agree. */
  ghost predicate SameButTable(v: seq<Block>, v': seq<Block>, g: Geometry) {
    |v'| == |v| && forall x :: 0 <= x < |v| && !(g.tableStart <= x < g.tableStart + g.tableCount) ==> v'[x] == v[x]
  }

  /** vtx2_write_entry. */
  method WriteEntry(vol: Volume, index: nat, entry: Entry) returns (res: FsResult)
    requires vol.Valid() && vol.g.blockSize > 0 && IndexOk(vol.g, index) && Fits(entry)
    modifies vol, vol.dev
    ensures vol.Valid() && vol.Continues() && vol.freeHint == old(vol.freeHint)
    ensures res == if index >= vol.g.capacity then ERR_INVALID else OK
    ensures res == OK ==>
              && index < vol.g.Slots()
              && Table(vol.V(), vol.g) == Table(old(vol.V()), vol.g)[index := entry]
              && SameButTable(old(vol.V()), vol.V(), vol.g)
              && vol.history == old(vol.history) + [vol.V()]
    ensures res != OK ==> vol.V() == old(vol.V()) && vol.history == old(vol.history)
  {
    hide vol.Valid, vol.V, vol.g.Valid, EntryBlock, EntryOffset, EncodeEntry, Fits, ViewOk, EntryAt, vol.g.PerBlock,
         Table, Splice, vol.g.Slots;
    if index >= vol.g.capacity {
      return ERR_INVALID;
    }
    SlotOrBeyond(vol.g, index);
    VolumeView(vol);
    var g := vol.g;
    EntryPlace(vol.V(), g, index);
    ValidSize(g);
    EntrySize(entry);
    TablePut(vol.V(), g, index, entry);
    vol.Load(g.tableStart + EntryBlock(g, index));
    vol.SetScratch(Splice(vol.scratch, EntryOffset(g, index), EncodeEntry(entry)));
    vol.JournalWriteTransaction(g.tableStart + EntryBlock(g, index));
    return OK;
  }

  // ---- Which blocks may be written without disturbing a file ----

  lemma HeldAt(v: seq<Block>, g: Geometry, i: nat)
    requires g.blockSize > 0 && i < g.Slots()
    ensures Held(v, g)[i] == HeldBy(v, g, EntryAt(v, g, i))
  {
    hide EntryAt, HeldBy;
  }

  lemma IndirectHeld(v: seq<Block>, g: Geometry, i: nat)
    requires g.blockSize > 0 && i < g.Slots() && EntryAt(v, g, i).kind == FILE && EntryAt(v, g, i).indirect != 0
    ensures EntryAt(v, g, i).indirect in Held(v, g)[i]
  {
    hide EntryAt, DataBlocks, Extents;
    HeldAt(v, g, i);
    assert HeldBy(v, g, EntryAt(v, g, i))[0] == EntryAt(v, g, i).indirect;
  }

  /** A block no file refers to is no file's indirect block. */
  lemma KeepsUnreferenced(v: seq<Block>, g: Geometry, b: nat, x: Block)
    requires g.blockSize > 0 && b > 0 && !Referenced(Held(v, g), b)
    ensures KeepsIndirect(v, g, b, x)
  {
    hide EntryAt, Held, g.Slots, KeepsRecords;
    forall i | 0 <= i < g.Slots() ensures !(EntryAt(v, g, i).kind == FILE && EntryAt(v, g, i).indirect == b) {
      if EntryAt(v, g, i).kind == FILE && EntryAt(v, g, i).indirect == b {
        IndirectHeld(v, g, i);
        RefersTo(Held(v, g), i, b);
        assert false;
      }
    }
  }

  /** A record added behind those the entry on disk counts. */
  lemma KeepsOwn(v: seq<Block>, g: Geometry, i: nat, rec: seq<byte>)
    requires g.blockSize > 0 && Separate(Held(v, g)) && i < g.Slots() && EntryAt(v, g, i).kind == FILE
    requires var e := EntryAt(v, g, i);
             && e.indirect != 0 && e.indirect < |v| && e.extentCount >= DIRECT_EXTENTS
             && |rec| == EXTENT_SIZE
             && (e.extentCount - DIRECT_EXTENTS) * EXTENT_SIZE + EXTENT_SIZE <= |v[e.indirect]|
    ensures var e := EntryAt(v, g, i);
            KeepsIndirect(v, g, e.indirect,
                          Splice(v[e.indirect], (e.extentCount - DIRECT_EXTENTS) * EXTENT_SIZE, rec))
  {
    hide EntryAt, Held, g.Slots, NoDup, Splice, KeepsRecords;
    var e := EntryAt(v, g, i);
    var b := e.indirect;
    var x := Splice(v[b], (e.extentCount - DIRECT_EXTENTS) * EXTENT_SIZE, rec);
    IndirectHeld(v, g, i);
    SpliceKeepsRecords(v, b, e.extentCount, rec);
    forall j | 0 <= j < g.Slots() && EntryAt(v, g, j).kind == FILE && EntryAt(v, g, j).indirect == b
      ensures KeepsRecords(v, b, x, EntryAt(v, g, j).extentCount)
    {
      IndirectHeld(v, g, j);
    }
  }

  lemma SpliceKeepsRecords(v: seq<Block>, b: nat, count: nat, rec: seq<byte>)
    requires b < |v| && count >= DIRECT_EXTENTS && |rec| == EXTENT_SIZE
    requires (count - DIRECT_EXTENTS) * EXTENT_SIZE + EXTENT_SIZE <= |v[b]|
    ensures KeepsRecords(v, b, Splice(v[b], (count - DIRECT_EXTENTS) * EXTENT_SIZE, rec), count)
  {
    hide Splice;
    var at := (count - DIRECT_EXTENTS) * EXTENT_SIZE;
    forall n | DIRECT_EXTENTS <= n < count
      ensures RecordAt(Splice(v[b], at, rec), n) == RecordAt(v[b], n)
    {
      var lo := (n - DIRECT_EXTENTS) * EXTENT_SIZE;
      SpliceOther(v[b], at, rec, lo, lo + EXTENT_SIZE);
    }
  }

  // ---- Allocation and ownership ----

  /** The hint equals the number of free blocks. */
  ghost predicate HintExact(vol: Volume)
    reads vol, vol.dev
  {
    vol.freeHint == |FreeSet(vol.V(), vol.g)|
  }

  lemma FreeNotOwned(v: seq<Block>, g: Geometry, leaked: set<nat>, b: nat)
    requires g.Valid() && g.blockSize > 0 && OwnOk(v, g, leaked)
    requires g.dataStart <= b < g.totalBlocks && !Used(v, g, b)
    ensures b !in leaked && !Referenced(Held(v, g), b)
  {
    hide g.Valid, ViewOk, FilesOk, Separate, Referenced, Held, Used, BitmapBits;
    TotalInBitmap(g);
  }

  /** After an allocation the new blocks are used and nobody's. */
  lemma AllocOwn(v: seq<Block>, v': seq<Block>, g: Geometry, start: nat, n: nat, leaked: set<nat>)
    requires g.Valid() && g.blockSize > 0 && OwnOk(v, g, leaked)
    requires FirstFit(v, g, start, n) && Marked(v, v', g, start, n, true)
    ensures OwnOk(v', g, leaked + RangeSet(start, n))
    ensures Table(v', g) == Table(v, g) && Held(v', g) == Held(v, g)
    ensures forall b :: start <= b < start + n ==> b !in leaked && !Referenced(Held(v, g), b)
    ensures |FreeSet(v', g)| == |FreeSet(v, g)| - n && n <= |FreeSet(v, g)|
  {
    hide g.Valid, OwnOk, Used, BitmapBits, Table, Held, Referenced, ViewOk;
    MarkedOnlyBits(v, v', g, start, n, n, true);
    BitsPut(v, v', g, start, n, leaked);
    TotalInBitmap(g);
    assert MarkedIn(v', g, start, n) == RangeSet(start, n);
    AllocCount(v, v', g, start, n);
    forall b | start <= b < start + n ensures b !in leaked && !Referenced(Held(v, g), b) {
      FreeNotOwned(v, g, leaked, b);
    }
  }

  lemma OnlyBitsSound(v: seq<Block>, h: seq<Block>, g: Geometry, start: nat, n: nat, leaked: set<nat>)
    requires g.Valid() && g.blockSize > 0 && OwnOk(v, g, leaked)
    requires OnlyBits(v, h, g, start, n) && FirstFit(v, g, start, n)
    ensures Sound(h, g) && Table(h, g) == Table(v, g)
  {
    hide g.Valid, OwnOk, Used, BitmapBits, Table, Held, OnlyBits, FreeRun;
    BitsPut(v, h, g, start, n, leaked);
  }

  lemma OwnSound(v: seq<Block>, g: Geometry, leaked: set<nat>)
    requires g.blockSize > 0 && OwnOk(v, g, leaked)
    ensures Sound(v, g)
  {
    hide OwnOk;
  }

  /** h has v's data blocks, but perhaps for those in s. */
  ghost predicate DataBut(v: seq<Block>, h: seq<Block>, g: Geometry, s: set<nat>) {
    |h| == |v| && forall b :: g.dataStart <= b < |v| && b !in s ==> h[b] == v[b]
  }

  /** A state on the way from v: sound, with v's table, and with v's data blocks but for those in s. */
  ghost predicate StateOf(h: seq<Block>, g: Geometry, v: seq<Block>, s: set<nat>)
    requires g.blockSize > 0
  {
    Sound(h, g) && Table(h, g) == Table(v, g) && DataBut(v, h, g, s)
  }

  /** Every state the session went through since position `from` is one on the way from v. */
  ghost predicate SoundSince(vol: Volume, from: nat, v: seq<Block>, s: set<nat>)
    requires vol.g.blockSize > 0
    reads vol
  {
    forall k :: from <= k < |vol.history| ==> StateOf(vol.history[k], vol.g, v, s)
  }

  /** vtx2_alloc_blocks seen from the files: the new blocks belong to nobody, nothing else moved. */
  method Reserve(vol: Volume, count: nat, ghost leaked: set<nat>) returns (res: FsResult, start: nat)
    requires vol.Valid() && vol.g.Valid() && vol.g.blockSize > 0 && OwnOk(vol.V(), vol.g, leaked)
    modifies vol, vol.dev
    ensures vol.Valid() && vol.Continues()
    ensures old(HintExact(vol)) ==> HintExact(vol)
    ensures SoundSince(vol, |old(vol.history)|, old(vol.V()), {})
    ensures res == if count == 0 then ERR_INVALID else if NoFit(old(vol.V()), vol.g, count) then ERR_NO_SPACE else OK
    ensures res != OK ==> vol.V() == old(vol.V()) && vol.history == old(vol.history)
    ensures res == OK ==>
              && |vol.V()| == |old(vol.V())|
              && FirstFit(old(vol.V()), vol.g, start, count)
              && Marked(old(vol.V()), vol.V(), vol.g, start, count, true)
              && OwnOk(vol.V(), vol.g, leaked + RangeSet(start, count))
              && Table(vol.V(), vol.g) == Table(old(vol.V()), vol.g)
              && Held(vol.V(), vol.g) == Held(old(vol.V()), vol.g)
              && (forall b :: start <= b < start + count ==> b !in leaked && !Referenced(Held(vol.V(), vol.g), b))
              && (forall x :: vol.g.dataStart <= x < |vol.V()| ==> vol.V()[x] == old(vol.V())[x])
              && |FreeSet(old(vol.V()), vol.g)| == |FreeSet(vol.V(), vol.g)| + count
  {
    hide vol.Valid, vol.V, vol.g.Valid, OwnOk, Marked, FirstFit, NoFit, Table, Held, OnlyBits, FreeSet, Referenced, Sound,
         DataBut;
    ghost var v := vol.V();
    res, start := AllocBlocks(vol, count);
    if res == OK {
      AllocOwn(v, vol.V(), vol.g, start, count, leaked);
      FitsNot(v, vol.g, start, count);
      MarkedKeepsData(v, vol.V(), vol.g, start, count, true);
      forall k | |old(vol.history)| <= k < |vol.history|
        ensures StateOf(vol.history[k], vol.g, v, {})
      {
        OnlyBitsSound(v, vol.history[k], vol.g, start, count, leaked);
        OnlyBitsData(v, vol.history[k], vol.g, start, count);
      }
    }
  }

  lemma OnlyBitsData(v: seq<Block>, h: seq<Block>, g: Geometry, start: nat, n: nat)
    requires g.Valid() && OnlyBits(v, h, g, start, n)
    ensures DataBut(v, h, g, {})
  {
    hide Used, ViewOk, BitmapBits;
    ValidSize(g);
  }

  lemma FitsNot(v: seq<Block>, g: Geometry, start: nat, n: nat)
    requires FirstFit(v, g, start, n)
    ensures !NoFit(v, g, n)
  {
    hide FreeRun;
  }

  lemma MarkedKeepsData(v: seq<Block>, v': seq<Block>, g: Geometry, start: nat, n: nat, on: bool)
    requires g.Valid() && Marked(v, v', g, start, n, on)
    ensures |v'| == |v| && forall x :: g.dataStart <= x < |v| ==> v'[x] == v[x]
  {
    hide Used, ViewOk, BitmapBits;
  }

  // ---- Appending an extent ----

  lemma AppendDirect(v: seq<Block>, g: Geometry, e: Entry, x: Extent)
    requires |e.direct| == DIRECT_EXTENTS && e.extentCount < DIRECT_EXTENTS
    ensures var e' := e.(direct := e.direct[e.extentCount := x], extentCount := e.extentCount + 1);
            Extents(v, g, e') == Extents(v, g, e) + [x]
  {
    hide DecodeExtent;
  }

  lemma RecordRoom(g: Geometry, index: nat)
    requires index < IndirectSlots(g)
    ensures index * EXTENT_SIZE + EXTENT_SIZE <= g.blockSize
  {
  }

  /** The record lands where vtx2_get_extent looks for it, and the earlier ones stay. */
  lemma AppendIndirect(v: seq<Block>, g: Geometry, e: Entry, b: nat, block: Block, x: Extent)
    requires |e.direct| == DIRECT_EXTENTS && e.extentCount >= DIRECT_EXTENTS && ExtentFits(x)
    requires b < |v| && |block| == |v[b]|
    requires e.extentCount > DIRECT_EXTENTS ==> e.indirect == b && block == v[b]
    requires (e.extentCount - DIRECT_EXTENTS) * EXTENT_SIZE + EXTENT_SIZE <= |block|
    ensures var at := (e.extentCount - DIRECT_EXTENTS) * EXTENT_SIZE;
            var v' := Put(v, b, Splice(block, at, EncodeExtent(x)));
            var e' := e.(indirect := b, extentCount := e.extentCount + 1);
            Extents(v', g, e') == Extents(v, g, e) + [x]
  {
    hide DecodeExtent, EncodeExtent, Splice;
    var at := (e.extentCount - DIRECT_EXTENTS) * EXTENT_SIZE;
    var y := Splice(block, at, EncodeExtent(x));
    var v' := Put(v, b, y);
    var e' := e.(indirect := b, extentCount := e.extentCount + 1);
    forall n | 0 <= n < e'.extentCount
      ensures ExtentAt(v', g, e', n) == if n < e.extentCount then ExtentAt(v, g, e, n) else x
    {
      if n == e.extentCount {
        SpliceSame(block, at, EncodeExtent(x));
        ExtentRoundTrip(x);
      } else if n >= DIRECT_EXTENTS {
        var lo := (n - DIRECT_EXTENTS) * EXTENT_SIZE;
        SpliceOther(block, at, EncodeExtent(x), lo, lo + EXTENT_SIZE);
      }
    }
  }

  /** Two duplicate-free lists without a common block. */
  lemma NoDupConcat(a: seq<nat>, b: seq<nat>)
    requires NoDup(a) && NoDup(b) && forall x :: x in a ==> x !in b
    ensures NoDup(a + b)
  {
    var c := a + b;
    forall p, q | 0 <= p < q < |c| ensures c[p] != c[q] {
      if p < |a| <= q {
        assert c[p] in a && c[q] == b[q - |a|];
      }
    }
  }

  lemma RunFacts(start: nat, n: nat)
    ensures NoDup(Run(start, n)) && forall b: nat :: b in Run(start, n) <==> start <= b < start + n
  {
    var r := Run(start, n);
    forall b: nat ensures b in r <==> start <= b < start + n {
      if start <= b < start + n {
        assert r[b - start] == b;
      }
      if b in r {
        var i :| 0 <= i < |r| && r[i] == b;
      }
    }
    assert NoDup(r);
  }

  /** The grown file is sound: its blocks are the old ones, the new run, and perhaps a new indirect block. */
  lemma GrownFile(v: seq<Block>, v': seq<Block>, g: Geometry, e: Entry, e': Entry, x: Extent)
    requires LocalFile(v, g, e) && e'.kind == FILE && Fits(e') && e'.size == e.size
    requires e'.extentCount == e.extentCount + 1 <= DIRECT_EXTENTS + IndirectSlots(g)
    requires e'.indirect != 0 <==> e'.extentCount > DIRECT_EXTENTS
    requires Extents(v', g, e') == Extents(v, g, e) + [x]
    requires g.dataStart <= x.start && x.start + x.count <= g.totalBlocks
    requires forall b :: x.start <= b < x.start + x.count ==> b !in HeldBy(v, g, e)
    requires !(x.start <= e'.indirect < x.start + x.count)
    requires e'.indirect == e.indirect
             || (e.indirect == 0 && e'.indirect !in HeldBy(v, g, e) && g.dataStart <= e'.indirect < g.totalBlocks)
    ensures LocalFile(v', g, e')
    ensures forall b :: b in HeldBy(v', g, e') ==>
              b in HeldBy(v, g, e) || x.start <= b < x.start + x.count || (e'.indirect != 0 && b == e'.indirect)
    ensures forall b :: b in HeldBy(v, g, e) ==> b in HeldBy(v', g, e')
    ensures forall b :: x.start <= b < x.start + x.count ==> b in HeldBy(v', g, e')
    ensures DataBlocks(Extents(v', g, e')) == DataBlocks(Extents(v, g, e)) + Run(x.start, x.count)
  {
    hide Fits, Run, Extents, DataBlocks;
    LocalParts(v, g, e);
    DataBlocksSnoc(Extents(v, g, e), x);
    RunFacts(x.start, x.count);
    var d, r := DataBlocks(Extents(v, g, e)), Run(x.start, x.count);
    forall b | b in d ensures b !in r && (e'.indirect != 0 ==> b != e'.indirect) {
      assert b in HeldBy(v, g, e);
    }
    NoDupConcat(d, r);
    assert forall b :: b in d + r <==> b in d || b in r;
    assert e'.indirect != 0 ==> e'.indirect !in d + r;
    NoDupConcat(Indirect(e'), d + r);
    assert HeldBy(v', g, e') == Indirect(e') + (d + r);
    MoreCapacity(|d|, |r|, g.blockSize);
    var h' := HeldBy(v', g, e');
    forall p | 0 <= p < |h'| ensures g.dataStart <= h'[p] < g.totalBlocks {
      assert h'[p] in h';
    }
  }

  lemma MoreCapacity(a: nat, b: nat, size: nat)
    ensures a * size <= (a + b) * size
  {
    MulMono(a, a + b, size);
  }

  /** A live file's own entry is a sound local file. */
  lemma OnDiskFile(v: seq<Block>, g: Geometry, i: nat, leaked: set<nat>)
    requires g.blockSize > 0 && OwnOk(v, g, leaked) && i < g.Slots() && EntryAt(v, g, i).kind == FILE
    ensures LocalFile(v, g, EntryAt(v, g, i)) && Held(v, g)[i] == HeldBy(v, g, EntryAt(v, g, i))
  {
    hide EntryAt, FileOk, HeldBy, ViewOk, BitsMatch, NoDup;
    FileAt(v, g, i);
    HeldAt(v, g, i);
  }

  /** What appending one extent to file `index` comes to. */
  ghost predicate Appended(v: seq<Block>, v': seq<Block>, g: Geometry, e: Entry, e': Entry, x: Extent,
                           leaked: set<nat>)
    requires g.blockSize > 0
  {
    && |v'| == |v|
    && e' == e.(direct := e'.direct, extentCount := e.extentCount + 1, indirect := e'.indirect)
    && (e.indirect != 0 ==> e'.indirect == e.indirect)
    && Table(v', g) == Table(v, g)
    && LocalFile(v', g, e')
    && DataBlocks(Extents(v', g, e')) == DataBlocks(Extents(v, g, e)) + Run(x.start, x.count)
    && OwnOk(v', g, leaked + NewIndirect(e, e'))
    && (forall b :: b in HeldBy(v', g, e') ==>
          b in HeldBy(v, g, e) || x.start <= b < x.start + x.count || b in NewIndirect(e, e'))
    && (forall b :: b in HeldBy(v, g, e) ==> b in HeldBy(v', g, e'))
    && (forall b :: x.start <= b < x.start + x.count ==> b in HeldBy(v', g, e'))
    && (forall b :: b in NewIndirect(e, e') ==> b in HeldBy(v', g, e') && b !in leaked && !Referenced(Held(v, g), b))
    && Held(v', g) == Held(v, g)
    && (forall b :: g.dataStart <= b < |v| && b != e'.indirect ==> v'[b] == v[b])
  }

  ghost function NewIndirect(e: Entry, e': Entry): set<nat> {
    if e.indirect == 0 && e'.indirect != 0 then {e'.indirect} else {}
  }

  lemma FitsDirect(e: Entry, x: Extent)
    requires Fits(e) && e.extentCount < DIRECT_EXTENTS && ExtentFits(x)
    ensures Fits(e.(direct := e.direct[e.extentCount := x], extentCount := e.extentCount + 1))
  {
    hide ExtentFits;
  }

  lemma FitsIndirect(e: Entry, b: nat)
    requires Fits(e) && b < TWO_64 && e.extentCount + 1 < TWO_32
    ensures Fits(e.(indirect := b, extentCount := e.extentCount + 1))
  {
    hide ExtentFits;
  }

  lemma MaxExtents(g: Geometry)
    requires g.Valid()
    ensures 0 < IndirectSlots(g) && DIRECT_EXTENTS + IndirectSlots(g) < TWO_32
  {
    ValidSize(g);
  }

  /** Assembles Appended from its parts. */
  lemma MakeAppended(v: seq<Block>, v': seq<Block>, g: Geometry, i: nat, e: Entry, e': Entry, x: Extent,
                     leaked: set<nat>)
    requires g.blockSize > 0 && OwnOk(v, g, leaked) && i < g.Slots() && EntryAt(v, g, i) == e && e.kind == FILE
    requires |v'| == |v| && e' == e.(direct := e'.direct, extentCount := e.extentCount + 1, indirect := e'.indirect)
    requires Fits(e') && e'.extentCount <= DIRECT_EXTENTS + IndirectSlots(g)
    requires e'.indirect != 0 <==> e'.extentCount > DIRECT_EXTENTS
    requires Extents(v', g, e') == Extents(v, g, e) + [x]
    requires g.dataStart <= x.start && x.start + x.count <= g.totalBlocks
    requires forall b :: x.start <= b < x.start + x.count ==> !Referenced(Held(v, g), b)
    requires !(x.start <= e'.indirect < x.start + x.count)
    requires e'.indirect == e.indirect
             || (e.indirect == 0 && !Referenced(Held(v, g), e'.indirect) && e'.indirect !in leaked
                 && g.dataStart <= e'.indirect < g.totalBlocks)
    requires OwnOk(v', g, leaked + NewIndirect(e, e'))
    requires Table(v', g) == Table(v, g) && Held(v', g) == Held(v, g)
    requires forall b :: g.dataStart <= b < |v| && b != e'.indirect ==> v'[b] == v[b]
    ensures Appended(v, v', g, e, e', x, leaked)
  {
    hide OwnOk, EntryAt, HeldBy, Held, Table, Fits, Extents, DataBlocks, Run, Referenced, g.Slots, LocalFile;
    OnDiskFile(v, g, i, leaked);
    forall b ensures b in HeldBy(v, g, e) ==> Referenced(Held(v, g), b) {
      if b in HeldBy(v, g, e) {
        RefersTo(Held(v, g), i, b);
      }
    }
    GrownFile(v, v', g, e, e', x);
    IndirectIn(v', g, e');
    IndirectIn(v, g, e);
  }

  lemma IndirectIn(v: seq<Block>, g: Geometry, e: Entry)
    requires e.kind == FILE
    ensures e.indirect != 0 ==> e.indirect in HeldBy(v, g, e)
  {
    hide DataBlocks, Extents;
    if e.indirect != 0 {
      assert HeldBy(v, g, e)[0] == e.indirect;
    }
  }

  /** The indirect block's record is stored and the block written back. */
  method StoreRecord(vol: Volume, b: nat, index: nat, x: Extent)
    requires vol.Valid() && vol.g.Valid() && vol.g.blockSize > 0
    requires vol.g.dataStart <= b < vol.g.totalBlocks && index < IndirectSlots(vol.g)
    modifies vol, vol.dev
    ensures vol.Valid() && vol.Continues() && vol.freeHint == old(vol.freeHint)
    ensures b < |old(vol.V())| && index * EXTENT_SIZE + EXTENT_SIZE <= |old(vol.V())[b]| == vol.g.blockSize
    ensures vol.V() == Put(old(vol.V()), b, Splice(old(vol.V())[b], index * EXTENT_SIZE, EncodeExtent(x)))
    ensures vol.history == old(vol.history) + [vol.V()]
  {
    hide vol.Valid, vol.V, vol.g.Valid, Splice, EncodeExtent;
    VolumeView(vol);
    DataInView(vol.V(), vol.g, b);
    RecordRoom(vol.g, index);
    vol.Load2(b);
    vol.SetScratch2(Splice(vol.scratch2, index * EXTENT_SIZE, EncodeExtent(x)));
    vol.Store(b, vol.scratch2);
  }
}
