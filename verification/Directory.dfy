/** Scanning the entry table: free slots, children by name, and vtx2_list_dir. */
module Directory {
  import opened Arith
  import opened Bytes
  import opened Layout
  import opened Bitmap
  import opened Entries
  import opened Names
  import opened Files
  import opened Tree
  import opened Volumes
  import opened Allocator
  import opened FileReads
  import opened WriteLemmas
  import opened WriteFile

  // ---- Scans ----

  /** Entry i of the table block in scratch is entry blk * per + i of the table. */
  lemma ScanEntry(v: seq<Block>, g: Geometry, scratch: Block, blk: nat, i: nat)
    requires g.Valid() && ViewOk(v, g) && g.blockSize >= ENTRY_SIZE
    requires blk < g.tableCount && i < g.PerBlock() && blk * g.PerBlock() + i < g.capacity
    requires g.tableStart + blk < |v| && scratch == v[g.tableStart + blk]
    ensures 0 <= blk * g.PerBlock() && blk * g.PerBlock() + i < g.Slots()
    ensures i * ENTRY_SIZE + ENTRY_SIZE <= |scratch|
    ensures EntryAt(v, g, blk * g.PerBlock() + i) == DecodeEntry(scratch[i * ENTRY_SIZE..i * ENTRY_SIZE + ENTRY_SIZE])
    ensures Table(v, g)[blk * g.PerBlock() + i] == EntryAt(v, g, blk * g.PerBlock() + i)
  {
    hide g.Valid, ViewOk, DecodeEntry, EntryAt;
    var per := g.PerBlock();
    ScanIndex(g.tableCount, per, g.capacity, blk, i);
    DivUnique(blk * per + i, per, blk, i);
    EntryPlace(v, g, blk * per + i);
    TableAt(v, g, blk * per + i);
  }

  lemma ScanIndex(count: nat, per: nat, capacity: nat, blk: nat, i: nat)
    requires blk < count && i < per && blk * per + i < capacity
    ensures 0 <= blk * per && blk * per + i < count * per
  {
    MulMono(blk + 1, count, per);
    assert (blk + 1) * per == blk * per + per;
  }

  lemma TableBlock(v: seq<Block>, g: Geometry, blk: nat)
    requires g.Valid() && ViewOk(v, g) && blk < g.tableCount
    ensures g.tableStart + blk < |v| && !g.InJournal(g.tableStart + blk)
    ensures |v[g.tableStart + blk]| == g.blockSize && g.blockSize >= ENTRY_SIZE && g.PerBlock() > 0
  {
    ValidSize(g);
    DivFacts(g.blockSize, ENTRY_SIZE);
  }

  /** The scan has left block blk: it has seen every entry below (blk + 1) * per. */
  lemma BlockDone(blk: nat, per: nat)
    ensures (blk + 1) * per == blk * per + per && 0 <= blk * per
  {
  }

  lemma ScanDone(g: Geometry)
    requires g.blockSize > 0
    ensures g.Slots() <= g.tableCount * g.PerBlock() && g.Slots() <= g.capacity
  {
  }

  ghost predicate NameTaken(t: seq<Entry>, parent: nat, name: seq<byte>) {
    exists j: nat :: ChildOf(t, j, parent) && NameIs(t[j].name, name)
  }

  /**
   * A name short enough to be created is taken exactly when a child in the clear has it, up to its NUL,
   * or the stored bytes of an encrypted name happen to be it.
   */
  lemma TakenExactly(t: seq<Entry>, root: nat, parent: nat, name: seq<byte>)
    requires TreeOk(t, root) && |CString(name)| < NAME_LEN
    ensures NameTaken(t, parent, name) <==>
            exists j: nat :: ChildOf(t, j, parent)
              && if t[j].nameEncrypted == 0 then CString(t[j].name) == CString(name) else NameIs(t[j].name, name)
  {
    hide NameIs, CString;
    forall j: nat | ChildOf(t, j, parent) && t[j].nameEncrypted == 0
      ensures NameIs(t[j].name, name) <==> CString(t[j].name) == CString(name)
    {
      assert Live(t, j);
      HoldsString(t[j].name, name);
    }
  }

  ghost predicate NoneFreeBelow(t: seq<Entry>, n: nat) {
    forall j :: 0 <= j < n && j < |t| ==> t[j].kind != FREE
  }

  ghost predicate TableFull(t: seq<Entry>) {
    NoneFreeBelow(t, |t|)
  }

  /** vtx2_find_free_entry: the first free slot. */
  method FindFreeEntry(vol: Volume) returns (res: FsResult, index: nat)
    requires vol.Valid() && vol.g.Valid() && vol.g.blockSize >= ENTRY_SIZE
    modifies vol`scratch
    ensures vol.Valid()
    ensures res == if TableFull(Table(vol.V(), vol.g)) then ERR_NO_SPACE else OK
    ensures res == OK ==> index < vol.g.Slots() && EntryAt(vol.V(), vol.g, index).kind == FREE
                          && NoneFreeBelow(Table(vol.V(), vol.g), index)
  {
    hide vol.Valid, vol.V, vol.g.Valid, ViewOk, EntryAt, DecodeEntry, vol.g.PerBlock, Table, vol.g.Slots;
    var g := vol.g;
    ghost var t := Table(vol.V(), g);
    TableSize(vol.V(), g);
    ScanDone(g);
    var per := g.PerBlock();
    var blk := 0;
    while blk < g.tableCount
      invariant blk <= g.tableCount && vol.Valid()
      invariant NoneFreeBelow(t, blk * per)
    {
      VolumeView(vol);
      TableBlock(vol.V(), g, blk);
      vol.Load(g.tableStart + blk);
      BlockDone(blk, per);
      var i := 0;
      while i < per
        invariant i <= per && vol.Valid() && vol.scratch == vol.V()[g.tableStart + blk]
        invariant NoneFreeBelow(t, blk * per + i)
      {
        index := blk * per + i;
        if index >= g.capacity {
          break;
        }
        ScanEntry(vol.V(), g, vol.scratch, blk, i);
        var e := DecodeEntry(vol.scratch[i * ENTRY_SIZE..i * ENTRY_SIZE + ENTRY_SIZE]);
        if e.kind == FREE {
          return OK, index;
        }
        i := i + 1;
      }
      blk := blk + 1;
    }
    return ERR_NO_SPACE, 0;
  }

  /** vtx2_find_child: the first child of `parent` with this name, if there is one. */
  method FindChild(vol: Volume, parent: nat, name: seq<byte>) returns (found: bool, index: nat)
    requires vol.Valid() && vol.g.Valid() && vol.g.blockSize >= ENTRY_SIZE
    modifies vol`scratch
    ensures vol.Valid()
    ensures found ==> var t := Table(vol.V(), vol.g);
                      ChildOf(t, index, parent) && NameIs(t[index].name, name)
    ensures found <==> NameTaken(Table(vol.V(), vol.g), parent, name)
  {
    hide vol.Valid, vol.V, vol.g.Valid, ViewOk, EntryAt, DecodeEntry, vol.g.PerBlock, Table, vol.g.Slots, NameIs,
         NameCopy;
    var g := vol.g;
    ghost var t := Table(vol.V(), g);
    TableSize(vol.V(), g);
    ScanDone(g);
    var normalized := NameCopy(name);
    var per := g.PerBlock();
    found, index := false, 0;
    var blk := 0;
    while blk < g.tableCount
      invariant blk <= g.tableCount && vol.Valid()
      invariant forall j: nat :: j < blk * per && ChildOf(t, j, parent) ==> !NameIs(t[j].name, name)
    {
      VolumeView(vol);
      TableBlock(vol.V(), g, blk);
      vol.Load(g.tableStart + blk);
      BlockDone(blk, per);
      var i := 0;
      while i < per
        invariant i <= per && vol.Valid() && vol.scratch == vol.V()[g.tableStart + blk]
        invariant forall j: nat :: j < blk * per + i && ChildOf(t, j, parent) ==> !NameIs(t[j].name, name)
      {
        index := blk * per + i;
        if index >= g.capacity {
          break;
        }
        ScanEntry(vol.V(), g, vol.scratch, blk, i);
        var e := DecodeEntry(vol.scratch[i * ENTRY_SIZE..i * ENTRY_SIZE + ENTRY_SIZE]);
        OneField(normalized, e.name, name);
        if index != parent && e.kind != FREE && e.parent == parent && e.name == normalized {
          return true, index;
        }
        i := i + 1;
      }
      blk := blk + 1;
    }
    return false, 0;
  }

  lemma ChildrenStep(t: seq<Entry>, dir: nat, n: nat)
    ensures Children(t, dir, n + 1) == Children(t, dir, n) + (if ChildOf(t, n, dir) then [n] else [])
  {
  }

  lemma {:induction false} ChildrenBeyond(t: seq<Entry>, dir: nat, n: nat, m: nat)
    requires |t| <= n <= m
    ensures Children(t, dir, m) == Children(t, dir, n)
    decreases m
  {
    if n < m {
      ChildrenBeyond(t, dir, n, m - 1);
    }
  }

  /** vtx2_list_dir: the number of children, and the first `max` of them in table order. */
  method ListDir(vol: Volume, dir: nat, max: nat) returns (res: FsResult, out: seq<nat>, count: nat)
    requires vol.Valid() && vol.g.Valid() && vol.g.blockSize >= ENTRY_SIZE && IndexOk(vol.g, dir)
    modifies vol`scratch
    ensures vol.Valid()
    ensures res == if dir >= vol.g.capacity then ERR_INVALID
                   else if EntryAt(vol.V(), vol.g, dir).kind != DIRECTORY then ERR_NOT_DIR else OK
    ensures res == OK ==>
              var c := Children(Table(vol.V(), vol.g), dir, vol.g.Slots());
              count == |c| && out == c[..MinNat(max, |c|)]
    ensures res != OK ==> out == [] && count == 0
  {
    hide vol.Valid, vol.V, vol.g.Valid, ViewOk, EntryAt, DecodeEntry, vol.g.PerBlock, Table, vol.g.Slots, Fits, Children,
         IndexOk;
    var g := vol.g;
    out, count := [], 0;
    var dirEntry;
    res, dirEntry := ReadEntry(vol, dir);
    if res != OK {
      return;
    }
    if dirEntry.kind != DIRECTORY {
      return ERR_NOT_DIR, [], 0;
    }
    ghost var t := Table(vol.V(), g);
    TableSize(vol.V(), g);
    ScanDone(g);
    NoChildren(t, dir);
    var per := g.PerBlock();
    var blk := 0;
    while blk < g.tableCount
      invariant blk <= g.tableCount && vol.Valid() && 0 <= blk * per
      invariant var c := Children(t, dir, blk * per); count == |c| && out == c[..MinNat(max, |c|)]
    {
      VolumeView(vol);
      TableBlock(vol.V(), g, blk);
      vol.Load(g.tableStart + blk);
      BlockDone(blk, per);
      var i := 0;
      while i < per
        invariant i <= per && vol.Valid() && vol.scratch == vol.V()[g.tableStart + blk]
        invariant var c := Children(t, dir, blk * per + i); count == |c| && out == c[..MinNat(max, |c|)]
      {
        var index := blk * per + i;
        if index >= g.capacity {
          ChildrenBeyond(t, dir, index, blk * per + per);
          break;
        }
        ScanEntry(vol.V(), g, vol.scratch, blk, i);
        ChildrenStep(t, dir, index);
        var e := DecodeEntry(vol.scratch[i * ENTRY_SIZE..i * ENTRY_SIZE + ENTRY_SIZE]);
        if index != dir && e.kind != FREE && e.parent == dir {
          if count < max {
            out := out + [index];
          }
          count := count + 1;
        }
        i := i + 1;
      }
      blk := blk + 1;
    }
    ChildrenBeyond(t, dir, |t|, g.tableCount * per);
    res := OK;
  }

  lemma NoChildren(t: seq<Entry>, dir: nat)
    ensures Children(t, dir, 0) == []
  {
  }
}
