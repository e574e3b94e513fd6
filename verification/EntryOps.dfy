/** Creating and truncating entries. */
module EntryOps {
  import opened Seqs
  import opened Arith
  import opened Bytes
  import opened Layout
  import opened Bitmap
  import opened Entries
  import opened Names
  import opened Files
  import opened Ownership
  import opened Contents
  import opened Tree
  import opened Volumes
  import opened Allocator
  import opened FileReads
  import opened FileGrowth
  import opened FileWrites
  import opened WriteLemmas
  import opened WriteFile
  import opened Directory

  /** Everything the file system keeps true between operations. */
  ghost predicate FsOk(v: seq<Block>, g: Geometry, leaked: set<nat>)
    requires g.blockSize > 0
  {
    OwnOk(v, g, leaked) && TreeOk(Table(v, g), g.root)
  }

  /** The entry is replaced by one with the same block list. */
  lemma SameHeldOwn(v: seq<Block>, v': seq<Block>, g: Geometry, i: nat, e: Entry, leaked: set<nat>)
    requires g.Valid() && g.blockSize > 0 && OwnOk(v, g, leaked) && i < g.Slots() && ViewOk(v', g)
    requires Table(v', g) == Table(v, g)[i := e] && SameButTable(v, v', g)
    requires HeldBy(v, g, e) == Held(v, g)[i] && (e.kind == FILE ==> FileOk(v, g, e))
    ensures OwnOk(v', g, leaked) && Held(v', g) == Held(v, g)
    ensures OthersKept(v, v', g, i)
  {
    hide g.Valid, ViewOk, FilesOk, Separate, Held, HeldBy, Table, Used, BitmapBits, FileOk, NoDup, BitsMatch, EntryAt,
         OthersKept, g.Slots, Referenced;
    ValidSize(g);
    EntryPut(v, v', g, i, e);
    assert Held(v, g)[i := Held(v, g)[i]] == Held(v, g);
    BitsUntouched(v, v', g, Held(v, g), leaked);
    TableAt(v', g, i);
    assert Table(v, g)[i := e][i] == e;
    OthersUntouched(v, v', g, i, leaked);
  }

  /** An entry that refers to no block at all. */
  lemma EmptyEntry(v: seq<Block>, g: Geometry, e: Entry)
    requires Fits(e) && e.extentCount == 0 && e.indirect == 0 && e.size == 0
    ensures HeldBy(v, g, e) == [] && FileOk(v, g, e)
  {
    hide Fits;
    assert Extents(v, g, e) == [];
  }

  lemma FreeHeld(v: seq<Block>, g: Geometry, i: nat)
    requires g.blockSize > 0 && i < g.Slots() && EntryAt(v, g, i).kind != FILE
    ensures Held(v, g)[i] == []
  {
    hide EntryAt;
    HeldAt(v, g, i);
    NotAFile(v, v, g, EntryAt(v, g, i));
  }

  ghost predicate IsZero(s: seq<byte>, n: nat) {
    |s| == n && forall i :: 0 <= i < n ==> s[i] == 0
  }

  /** What a new entry has to be: its kind, its name, its place in the tree, and zero in every other field. */
  ghost predicate IsNew(e: Entry, kind: byte, name: seq<byte>, parent: nat) {
    && e.kind == kind && NameIs(e.name, name) && e.parent == parent
    && e.size == 0 && e.created == 0 && e.modified == 0
    && e.extentCount == 0 && e.indirect == 0 && |e.direct| == DIRECT_EXTENTS
    && (forall n :: 0 <= n < DIRECT_EXTENTS ==> e.direct[n] == Extent(0, 0))
    && e.nameEncrypted == 0 && e.scheme == 0 && IsZero(e.salt, SALT_SIZE) && IsZero(e.verifier, 4)
    && IsZero(e.pad, 7) && e.pad2 == 0 && IsZero(e.cryptoPad, 6)
  }

  function NewEntry(kind: byte, name: seq<byte>, parent: nat): (e: Entry)
    ensures IsNew(e, kind, name, parent)
  {
    BlankEntry().(kind := kind, name := NameCopy(name), parent := parent)
  }

  lemma BlankFits()
    ensures Fits(BlankEntry()) && BlankEntry().kind == FREE && BlankEntry().nameEncrypted == 0
    ensures BlankEntry().extentCount == 0 && BlankEntry().indirect == 0 && BlankEntry().size == 0
  {
  }

  lemma NewEntryFits(kind: byte, name: seq<byte>, parent: nat)
    requires parent < TWO_64
    ensures var e := NewEntry(kind, name, parent);
            && Fits(e) && e.kind == kind && e.parent == parent && NameIs(e.name, name) && Padded(e.name)
            && e.extentCount == 0 && e.indirect == 0 && e.size == 0 && e.nameEncrypted == 0
  {
    hide NameCopy, CString;
    BlankFits();
    ReadsBack(NameCopy(name), name);
  }

  /** A created name is found from then on, and no other name is that was not found before. */
  lemma TakenAfterCreate(t: seq<Entry>, i: nat, kind: byte, name: seq<byte>, parent: nat, other: seq<byte>)
    requires i < |t| && i != parent && t[i].kind == FREE && kind != FREE
    requires |CString(name)| < NAME_LEN && |CString(other)| < NAME_LEN
    ensures NameTaken(t[i := NewEntry(kind, name, parent)], parent, other)
       <==> NameTaken(t, parent, other) || CString(other) == CString(name)
  {
    hide NameIs, CString, NewEntry;
    var e := NewEntry(kind, name, parent);
    var t' := t[i := e];
    NewIsNamed(kind, name, parent);
    SameName(name, other);
    OneField(NameCopy(name), e.name, name);
    OneField(NameCopy(other), e.name, other);
    assert ChildOf(t', i, parent);
    assert forall j: nat :: j != i ==> (ChildOf(t', j, parent) <==> ChildOf(t, j, parent)) && (j < |t| ==> t'[j] == t[j]);
    assert !ChildOf(t, i, parent);
    if NameTaken(t, parent, other) {
      var j: nat :| ChildOf(t, j, parent) && NameIs(t[j].name, other);
      assert ChildOf(t', j, parent) && NameIs(t'[j].name, other);
    }
  }

  lemma NewIsNamed(kind: byte, name: seq<byte>, parent: nat)
    ensures var e := NewEntry(kind, name, parent); e.kind == kind && e.parent == parent && NameIs(e.name, name)
  {
    hide NameIs;
  }

  /** The outcome of vtx2_create_entry, in the order of its checks. */
  ghost predicate CreateResult(res: FsResult, t: seq<Entry>, g: Geometry, parent: nat, name: seq<byte>) {
    if parent >= g.capacity then res == ERR_INVALID
    else if parent >= |t| || t[parent].kind != DIRECTORY then res == ERR_NOT_DIR
    else if |CString(name)| >= NAME_LEN - 1 then res == ERR_NAME_TOO_LONG
    else if |CString(name)| == 0 then res == ERR_INVALID
    else if NameTaken(t, parent, name) then res == ERR_EXISTS
    else if TableFull(t) then res == ERR_NO_SPACE
    else res == OK
  }

  /** When each outcome comes. */
  lemma CreateOutcome(res: FsResult, t: seq<Entry>, g: Geometry, parent: nat, name: seq<byte>)
    requires CreateResult(res, t, g, parent, name)
    ensures var length, dir := |CString(name)|, parent < g.capacity && parent < |t| && t[parent].kind == DIRECTORY;
            && (res == OK <==> dir && 0 < length < NAME_LEN - 1 && !NameTaken(t, parent, name) && !TableFull(t))
            && (res == ERR_EXISTS <==> dir && 0 < length < NAME_LEN - 1 && NameTaken(t, parent, name))
            && (res == ERR_NAME_TOO_LONG <==> dir && length >= NAME_LEN - 1)
            && (res == ERR_INVALID <==> parent >= g.capacity || (dir && length == 0))
            && (res == ERR_NOT_DIR <==> parent < g.capacity && !dir)
            && (res == ERR_NO_SPACE <==> dir && 0 < length < NAME_LEN - 1 && !NameTaken(t, parent, name) && TableFull(t))
  {
    hide CString, NameTaken, TableFull;
  }

  /** The last step of vtx2_create_entry: the new entry goes into its free slot. */
  method PutNew(vol: Volume, index: nat, parent: nat, name: seq<byte>, kind: byte, ghost leaked: set<nat>)
    requires vol.Valid() && vol.g.Valid() && vol.g.blockSize > 0 && FsOk(vol.V(), vol.g, leaked)
    requires index < vol.g.Slots() && parent < vol.g.Slots() && (kind == FILE || kind == DIRECTORY)
    requires var t := Table(vol.V(), vol.g);
             && t[index].kind == FREE && t[parent].kind == DIRECTORY
             && !NameTaken(t, parent, name)
    modifies vol, vol.dev
    ensures vol.Valid() && vol.Continues() && FsOk(vol.V(), vol.g, leaked)
    ensures old(HintExact(vol)) ==> HintExact(vol)
    ensures Table(vol.V(), vol.g) == Table(old(vol.V()), vol.g)[index := NewEntry(kind, name, parent)]
    ensures OthersKept(old(vol.V()), vol.V(), vol.g, index)
    ensures vol.history == old(vol.history) + [vol.V()]
  {
    hide vol.Valid, vol.V, vol.g.Valid, OwnOk, Table, Held, HeldBy, FreeSet, EntryAt, Fits, FileOk, ViewOk, TreeOk,
         vol.g.Slots, NewEntry, NameCopy, IndexOk, SameButTable, OthersKept;
    var g := vol.g;
    ghost var v := vol.V();
    ValidSize(g);
    TableSize(v, g);
    SlotNumber(g, parent);
    SlotNumber(g, index);
    NewEntryFits(kind, name, parent);
    TableAt(v, g, index);
    VolumeView(vol);
    var res := WriteEntry(vol, index, NewEntry(kind, name, parent));
    VolumeView(vol);
    FreeHeld(v, g, index);
    EmptyEntry(v, g, NewEntry(kind, name, parent));
    SameHeldOwn(v, vol.V(), g, index, NewEntry(kind, name, parent), leaked);
    TreeCreate(Table(v, g), g.root, index, NewEntry(kind, name, parent));
    TableOnly(v, vol.V(), g);
    HintKept(vol, v, vol.freeHint);
  }

  /** vtx2_create_entry, behind vtx2_create_file and vtx2_mkdir. */
  method CreateEntry(vol: Volume, parent: nat, name: seq<byte>, kind: byte, ghost leaked: set<nat>)
    returns (res: FsResult, index: nat)
    requires vol.Valid() && vol.g.Valid() && vol.g.blockSize > 0 && FsOk(vol.V(), vol.g, leaked)
    requires IndexOk(vol.g, parent) && (kind == FILE || kind == DIRECTORY)
    modifies vol, vol.dev
    ensures vol.Valid() && vol.Continues() && FsOk(vol.V(), vol.g, leaked)
    ensures old(HintExact(vol)) ==> HintExact(vol)
    ensures CreateResult(res, Table(old(vol.V()), vol.g), vol.g, parent, name)
    ensures res == OK ==>
              && index < vol.g.Slots() && EntryAt(old(vol.V()), vol.g, index).kind == FREE
              && NoneFreeBelow(Table(old(vol.V()), vol.g), index)
              && Table(vol.V(), vol.g) == Table(old(vol.V()), vol.g)[index := NewEntry(kind, name, parent)]
              && IsNew(EntryAt(vol.V(), vol.g, index), kind, name, parent)
              && OthersKept(old(vol.V()), vol.V(), vol.g, index)
              && vol.history == old(vol.history) + [vol.V()]
    ensures res != OK ==> vol.V() == old(vol.V()) && vol.history == old(vol.history)
  {
    hide vol.Valid, vol.V, vol.g.Valid, OwnOk, Table, Held, HeldBy, FreeSet, EntryAt, Fits, FileOk, ViewOk, TreeOk,
         vol.g.Slots, NewEntry, NameCopy, IndexOk, OthersKept, FsOk, FreeSet, NameTaken, TableFull, NoneFreeBelow, EntryReachable,
         StrLen;
    var g := vol.g;
    ghost var v := vol.V();
    ghost var t := Table(v, g);
    ValidSize(g);
    TableSize(v, g);
    index := 0;
    if parent >= g.capacity {
      return ERR_INVALID, 0;
    }
    var parentEntry;
    res, parentEntry := ReadEntry(vol, parent);
    TableAt(v, g, parent);
    if parentEntry.kind != DIRECTORY {
      return ERR_NOT_DIR, 0;
    }
    var nameLen := StrLenBounded(name, NAME_LEN);
    if nameLen >= NAME_LEN - 1 {
      return ERR_NAME_TOO_LONG, 0;
    }
    if nameLen == 0 {
      return ERR_INVALID, 0;
    }
    var found, existing := FindChild(vol, parent, name);
    if found {
      return ERR_EXISTS, 0;
    }
    var free;
    res, free := FindFreeEntry(vol);
    if res != OK {
      return;
    }
    TableAt(v, g, free);
    PutNew(vol, free, parent, name, kind, leaked);
    index := free;
    TableAt(vol.V(), g, index);
  }

  lemma SlotNumber(g: Geometry, i: nat)
    requires g.Valid() && g.blockSize > 0 && i < g.Slots()
    ensures i < TWO_64 && IndexOk(g, i) && i < g.capacity
  {
    ValidSize(g);
    ScanDone(g);
    var per := g.PerBlock();
    EntryArith(g, i);
    DivFacts(g.blockSize, ENTRY_SIZE);
    MulMono(per, g.blockSize, g.tableCount);
    MulMono(g.tableCount, g.totalBlocks, g.blockSize);
    assert g.tableCount * per == per * g.tableCount;
    assert g.tableCount * g.blockSize == g.blockSize * g.tableCount;
  }

  method CreateFile(vol: Volume, parent: nat, name: seq<byte>, ghost leaked: set<nat>)
    returns (res: FsResult, index: nat)
    requires vol.Valid() && vol.g.Valid() && vol.g.blockSize > 0 && FsOk(vol.V(), vol.g, leaked)
    requires IndexOk(vol.g, parent)
    modifies vol, vol.dev
    ensures vol.Valid() && vol.Continues() && FsOk(vol.V(), vol.g, leaked)
    ensures old(HintExact(vol)) ==> HintExact(vol)
    ensures CreateResult(res, Table(old(vol.V()), vol.g), vol.g, parent, name)
    ensures res == OK ==>
              && index < vol.g.Slots() && EntryAt(old(vol.V()), vol.g, index).kind == FREE
              && Table(vol.V(), vol.g) == Table(old(vol.V()), vol.g)[index := NewEntry(FILE, name, parent)]
              && IsNew(EntryAt(vol.V(), vol.g, index), FILE, name, parent)
              && OthersKept(old(vol.V()), vol.V(), vol.g, index)
    ensures res != OK ==> vol.V() == old(vol.V())
  {
    hide *;
    res, index := CreateEntry(vol, parent, name, FILE, leaked);
  }

  method Mkdir(vol: Volume, parent: nat, name: seq<byte>, ghost leaked: set<nat>)
    returns (res: FsResult, index: nat)
    requires vol.Valid() && vol.g.Valid() && vol.g.blockSize > 0 && FsOk(vol.V(), vol.g, leaked)
    requires IndexOk(vol.g, parent)
    modifies vol, vol.dev
    ensures vol.Valid() && vol.Continues() && FsOk(vol.V(), vol.g, leaked)
    ensures old(HintExact(vol)) ==> HintExact(vol)
    ensures CreateResult(res, Table(old(vol.V()), vol.g), vol.g, parent, name)
    ensures res == OK ==>
              && index < vol.g.Slots() && EntryAt(old(vol.V()), vol.g, index).kind == FREE
              && Table(vol.V(), vol.g) == Table(old(vol.V()), vol.g)[index := NewEntry(DIRECTORY, name, parent)]
              && IsNew(EntryAt(vol.V(), vol.g, index), DIRECTORY, name, parent)
              && OthersKept(old(vol.V()), vol.V(), vol.g, index)
    ensures res != OK ==> vol.V() == old(vol.V())
  {
    hide *;
    res, index := CreateEntry(vol, parent, name, DIRECTORY, leaked);
  }

  /** vtx2_truncate: the file keeps its blocks and a prefix of its contents. */
  method Truncate(vol: Volume, index: nat, newSize: nat, ghost leaked: set<nat>) returns (res: FsResult)
    requires vol.Valid() && vol.g.Valid() && vol.g.blockSize > 0 && FsOk(vol.V(), vol.g, leaked)
    requires IndexOk(vol.g, index)
    modifies vol, vol.dev
    ensures vol.Valid() && vol.Continues() && FsOk(vol.V(), vol.g, leaked)
    ensures old(HintExact(vol)) ==> HintExact(vol)
    ensures res == if index >= vol.g.capacity then ERR_INVALID
                   else if EntryAt(old(vol.V()), vol.g, index).kind != FILE then ERR_IS_DIR
                   else if newSize > EntryAt(old(vol.V()), vol.g, index).size then ERR_INVALID else OK
    ensures res == OK ==>
              && index < vol.g.Slots()
              && var e := EntryAt(old(vol.V()), vol.g, index);
              && Table(vol.V(), vol.g) == Table(old(vol.V()), vol.g)[index := e.(size := newSize)]
              && Held(vol.V(), vol.g) == Held(old(vol.V()), vol.g)
              && newSize <= |Content(old(vol.V()), vol.g, e)|
              && Content(vol.V(), vol.g, e.(size := newSize)) == Content(old(vol.V()), vol.g, e)[..newSize]
              && OthersKept(old(vol.V()), vol.V(), vol.g, index)
              && vol.history == old(vol.history) + [vol.V()]
    ensures res != OK ==> vol.V() == old(vol.V()) && vol.history == old(vol.history)
  {
    hide vol.Valid, vol.V, vol.g.Valid, OwnOk, Table, Held, HeldBy, FreeSet, EntryAt, Fits, FileOk, ViewOk, TreeOk,
         vol.g.Slots, IndexOk, SameButTable, OthersKept, LocalFile, DataBlocks, Extents, FileBytes, Content;
    var g := vol.g;
    ghost var v := vol.V();
    ghost var t := Table(v, g);
    var entry;
    res, entry := ReadEntry(vol, index);
    if res != OK {
      return;
    }
    if entry.kind != FILE {
      return ERR_IS_DIR;
    }
    if newSize > entry.size {
      return ERR_INVALID;
    }
    var e' := entry.(size := newSize);
    OnDiskFile(v, g, index, leaked);
    LocalParts(v, g, entry);
    FitsSize(entry);
    FitsResized(entry, newSize);
    Resize(v, g, entry, newSize);
    SizeFits(vol, entry);
    VolumeView(vol);
    res := WriteEntry(vol, index, e');
    VolumeView(vol);
    TableAt(v, g, index);
    LocalIsFile(v, g, e');
    SameHeldOwn(v, vol.V(), g, index, e', leaked);
    AfterTable(v, vol.V(), g, e');
    ContentIs(v, g, entry);
    ContentIs(vol.V(), g, e');
    EntryPlain(t, g.root, index, e');
    TableOnly(v, vol.V(), g);
    HintKept(vol, v, vol.freeHint);
  }

  lemma LocalIsFile(v: seq<Block>, g: Geometry, e: Entry)
    requires LocalFile(v, g, e)
    ensures FileOk(v, g, e)
  {
    hide FileOk, NoDup, HeldBy;
  }

  lemma EntryPlain(t: seq<Entry>, root: nat, i: nat, e: Entry)
    requires TreeOk(t, root) && i < |t| && e == t[i].(size := e.size, extentCount := e.extentCount,
                                                      direct := e.direct, indirect := e.indirect)
    ensures TreeOk(t[i := e], root)
  {
    hide TreeOk;
    TreeUpdate(t, root, i, e);
  }
}
