/** Encrypted files and directories: creating, reading, writing. */
module Encryption {
  import opened Seqs
  import opened Arith
  import opened Bytes
  import opened Hash
  import opened Layout
  import opened Bitmap
  import opened Entries
  import opened Names
  import opened Files
  import opened Contents
  import opened Tree
  import opened Volumes
  import opened Allocator
  import opened FileReads
  import opened FileGrowth
  import opened FileWrites
  import opened WriteLemmas
  import opened WriteFile
  import opened Directory
  import opened EntryOps
  import opened Runs
  import opened Cipher

  lemma SealedFits(e: Entry, salt: seq<byte>, password: seq<byte>)
    requires Fits(e) && |salt| == SALT_SIZE
    ensures var s := Sealed(e, salt, password);
            && Fits(s) && s.kind == e.kind && s.parent == e.parent && s.nameEncrypted != 0
            && s.extentCount == e.extentCount && s.indirect == e.indirect && s.size == e.size
  {
    hide ExtentFits, Key, Verifier, Crypt;
  }

  lemma OthersTrans(v: seq<Block>, v1: seq<Block>, v2: seq<Block>, g: Geometry, i: nat)
    requires g.blockSize > 0 && OthersKept(v, v1, g, i) && OthersKept(v1, v2, g, i)
    ensures OthersKept(v, v2, g, i)
  {
    hide EntryAt, Content, g.Slots;
  }

  /** An entry that refers to no block. */
  predicate Empty(e: Entry) {
    e.extentCount == 0 && e.indirect == 0 && e.size == 0
  }

  lemma EmptyHeld(v: seq<Block>, g: Geometry, i: nat)
    requires g.blockSize > 0 && i < g.Slots() && Empty(EntryAt(v, g, i))
    ensures Held(v, g)[i] == []
  {
    hide EntryAt;
    HeldAt(v, g, i);
    var e := EntryAt(v, g, i);
    assert Extents(v, g, e) == [];
  }

  /** vtx2_finish_encrypted_entry, on the entry that was just created. */
  method FinishEncryptedEntry(vol: Volume, salts: SaltSource, index: nat, password: seq<byte>, ghost leaked: set<nat>)
    returns (res: FsResult)
    requires vol.Valid() && vol.g.Valid() && vol.g.blockSize > 0 && FsOk(vol.V(), vol.g, leaked)
    requires index < vol.g.Slots() && index < vol.g.capacity && Empty(EntryAt(vol.V(), vol.g, index))
    modifies vol, vol.dev, salts
    ensures vol.Valid() && vol.Continues() && FsOk(vol.V(), vol.g, leaked)
    ensures old(HintExact(vol)) ==> HintExact(vol)
    ensures res == OK && vol.history == old(vol.history) + [vol.V()]
    ensures var e := EntryAt(old(vol.V()), vol.g, index);
            Table(vol.V(), vol.g)
              == Table(old(vol.V()), vol.g)[index := Sealed(e, EntryAt(vol.V(), vol.g, index).salt, password)]
    ensures OthersKept(old(vol.V()), vol.V(), vol.g, index)
  {
    hide vol.Valid, vol.V, vol.g.Valid, OwnOk, Table, Held, HeldBy, FreeSet, EntryAt, Fits, FileOk, ViewOk, TreeOk,
         vol.g.Slots, SameButTable, OthersKept, Crypt, Key, Verifier, Xor, SaltState, Sealed;
    var g := vol.g;
    ghost var v := vol.V();
    var entry;
    res, entry := ReadEntry(vol, index);
    var salt := salts.Generate(Xor(index, entry.parent, 64));
    var key := DeriveKey(password, salt);
    var sealed := SealedEntry(entry, salt, password, key);
    SealedFits(entry, salt, password);
    VolumeView(vol);
    TableAt(v, g, index);
    TableSize(v, g);
    res := WriteEntry(vol, index, sealed);
    VolumeView(vol);
    EmptyHeld(v, g, index);
    EmptyEntry(v, g, sealed);
    SameHeldOwn(v, vol.V(), g, index, sealed, leaked);
    TreeUpdate(Table(v, g), g.root, index, sealed);
    TableOnly(v, vol.V(), g);
    HintKept(vol, v, vol.freeHint);
    TableAt(vol.V(), g, index);
    SaltOfSealed(entry, salt, password);
  }

  lemma SaltOfSealed(e: Entry, salt: seq<byte>, password: seq<byte>)
    ensures Sealed(e, salt, password).salt == salt
  {
  }

  /** The fields vtx2_finish_encrypted_entry fills in. */
  method SealedEntry(entry: Entry, salt: seq<byte>, password: seq<byte>, key: seq<byte>) returns (sealed: Entry)
    requires key == Key(password, salt)
    ensures sealed == Sealed(entry, salt, password)
  {
    hide Crypt, Key, FnvFrom, LE;
    var h := FnvLoop(FNV_BASIS, key + salt + Tag());
    var buf := new byte[|entry.name|](i requires 0 <= i < |entry.name| => entry.name[i]);
    assert buf[..buf.Length] == entry.name;
    XorCryptBuffer(key, 0, buf, buf.Length);
    sealed := entry.(salt := salt, verifier := LE(h, 4), scheme := 1, nameEncrypted := 1, name := buf[..buf.Length]);
  }

  /** A free slot has become the entry e, sealed with the password; the password opens it, and its name is there. */
  ghost predicate NewSealed(v: seq<Block>, v': seq<Block>, g: Geometry, i: nat, e: Entry, password: seq<byte>)
    requires g.blockSize > 0
  {
    && i < g.Slots() && EntryAt(v, g, i).kind == FREE
    && var sealed := EntryAt(v', g, i);
    && sealed == Sealed(e, sealed.salt, password)
    && Table(v', g) == Table(v, g)[i := sealed]
    && Unlocks(password, sealed)
    && Crypt(Key(password, sealed.salt), 0, sealed.name) == e.name
    && OthersKept(v, v', g, i)
  }

  /** vtx2_create_file_encrypted and vtx2_mkdir_encrypted. */
  method CreateEncrypted(vol: Volume, salts: SaltSource, parent: nat, name: seq<byte>, kind: byte, password: seq<byte>,
                         ghost leaked: set<nat>)
    returns (res: FsResult, index: nat)
    requires vol.Valid() && vol.g.Valid() && vol.g.blockSize > 0 && FsOk(vol.V(), vol.g, leaked)
    requires IndexOk(vol.g, parent) && (kind == FILE || kind == DIRECTORY)
    modifies vol, vol.dev, salts
    ensures vol.Valid() && vol.Continues() && FsOk(vol.V(), vol.g, leaked)
    ensures old(HintExact(vol)) ==> HintExact(vol)
    ensures AllCrashOk(vol, |old(vol.history)|)
    ensures CreateResult(res, Table(old(vol.V()), vol.g), vol.g, parent, name)
    ensures res == OK ==> NewSealed(old(vol.V()), vol.V(), vol.g, index, NewEntry(kind, name, parent), password)
    ensures res == OK ==> var e := EntryAt(vol.V(), vol.g, index);
                      NameIs(Crypt(Key(password, e.salt), 0, e.name), name)
    ensures res != OK ==> vol.V() == old(vol.V()) && vol.history == old(vol.history)
  {
    hide vol.Valid, vol.V, vol.g.Valid, FsOk, Table, EntryAt, vol.g.Slots, OthersKept, Crypt, Key, Verifier, CreateResult,
         IndexOk, NewEntry, HintExact, CrashOk, Sealed, NameCopy, NameIs, CString, Unlocks;
    ghost var v := vol.V();
    res, index := CreateEntry(vol, parent, name, kind, leaked);
    OneState(vol, old(vol.history), leaked);
    if res != OK {
      return;
    }
    ghost var v1, h1 := vol.V(), vol.history;
    TableSize(v, vol.g);
    TableAt(v1, vol.g, index);
    SlotNumber(vol.g, index);
    ParentOfNew(v, vol.g, parent, name, kind, leaked, res);
    NewEntryFits(kind, name, parent);
    res := FinishEncryptedEntry(vol, salts, index, password, leaked);
    TableAt(vol.V(), vol.g, index);
    OneState(vol, h1, leaked);
    JoinCrashOk(vol, old(vol.history), h1);
    OthersTrans(v, v1, vol.V(), vol.g, index);
    SealedOpens(NewEntry(kind, name, parent), EntryAt(vol.V(), vol.g, index).salt, password);
    SaltOfSealed(NewEntry(kind, name, parent), EntryAt(vol.V(), vol.g, index).salt, password);
  }

  lemma ParentOfNew(v: seq<Block>, g: Geometry, parent: nat, name: seq<byte>, kind: byte, leaked: set<nat>, res: FsResult)
    requires g.Valid() && g.blockSize > 0 && CreateResult(res, Table(v, g), g, parent, name) && res == OK
    ensures parent < TWO_64
  {
    hide g.Valid, g.Slots, Table, NameTaken, TableFull;
    TableSize(v, g);
    SlotNumber(g, parent);
  }

  lemma JoinCrashOk(vol: Volume, h0: seq<seq<Block>>, h1: seq<seq<Block>>)
    requires vol.g.blockSize > 0 && h0 <= h1 <= vol.history && AllCrashOk(vol, |h1|)
    requires forall k :: |h0| <= k < |h1| ==> CrashOk(h1[k], vol.g)
    ensures AllCrashOk(vol, |h0|)
  {
    hide CrashOk;
    forall k | |h0| <= k < |vol.history| ensures CrashOk(vol.history[k], vol.g) {
      if k < |h1| {
        assert vol.history[k] == h1[k];
      }
    }
  }

  // ---- Reading ----

  /** The file's contents as its password's owner sees them. */
  ghost function Plain(v: seq<Block>, g: Geometry, i: nat, password: seq<byte>): seq<byte> {
    var e := EntryAt(v, g, i);
    Crypt(Key(password, e.salt), 0, Content(v, g, e))
  }

  /** Decrypting a slice of the contents gives the slice of the plain contents. */
  lemma PlainSlice(v: seq<Block>, g: Geometry, i: nat, password: seq<byte>, offset: nat, length: nat)
    ensures Crypt(Key(password, EntryAt(v, g, i).salt), offset, ReadSlice(Content(v, g, EntryAt(v, g, i)), offset, length))
         == ReadSlice(Plain(v, g, i, password), offset, length)
  {
    hide EntryAt, Content, Crypt, Key;
    var c, key := Content(v, g, EntryAt(v, g, i)), Key(password, EntryAt(v, g, i).salt);
    if offset < |c| {
      CryptSlice(key, 0, c, offset, MinNat(offset + length, |c|));
    } else {
      CryptEmpty(key, offset);
    }
  }

  lemma CryptEmpty(key: seq<byte>, start: nat)
    ensures Crypt(key, start, []) == []
  {
  }

  /** A file the caller may read is sound. */
  lemma OwnedLocal(v: seq<Block>, g: Geometry, i: nat, leaked: set<nat>)
    requires g.blockSize > 0 && OwnOk(v, g, leaked)
    ensures i < g.Slots() && EntryAt(v, g, i).kind == FILE ==> LocalFile(v, g, EntryAt(v, g, i))
  {
    hide OwnOk, EntryAt, LocalFile, g.Slots;
    if i < g.Slots() && EntryAt(v, g, i).kind == FILE {
      OnDiskFile(v, g, i, leaked);
    }
  }

  /** vtx2_read_encrypted: a slice of the plain contents, for every password the entry accepts and no other. */
  method ReadEncrypted(vol: Volume, index: nat, password: seq<byte>, offset: nat, length: nat, ghost leaked: set<nat>)
    returns (res: FsResult, out: seq<byte>)
    requires vol.Valid() && vol.g.Valid() && vol.g.blockSize > 0 && OwnOk(vol.V(), vol.g, leaked)
    requires IndexOk(vol.g, index)
    modifies vol`scratch, vol`scratch2
    ensures vol.Valid()
    ensures index >= vol.g.capacity ==> res == ERR_INVALID
    ensures index < vol.g.capacity ==>
              var e := EntryAt(vol.V(), vol.g, index);
              res == if e.scheme == 0 || !Unlocks(password, e) then ERR_INVALID
                     else if length > 0 && e.kind != FILE then ERR_IS_DIR else OK
    ensures res == OK ==> out == ReadSlice(Plain(vol.V(), vol.g, index, password), offset, length)
    ensures res != OK ==> out == []
  {
    hide vol.Valid, vol.V, vol.g.Valid, OwnOk, EntryAt, Fits, vol.g.Slots, IndexOk, LocalFile, Content, Crypt, Key,
         Verifier;
    out := [];
    var entry;
    res, entry := ReadEntry(vol, index);
    if res != OK {
      return;
    }
    if entry.scheme == 0 {
      return ERR_INVALID, [];
    }
    SaltSize(entry);
    var key := DeriveKey(password, entry.salt);
    var ok := CheckPassword(key, entry.salt, entry.verifier);
    if !ok {
      return ERR_INVALID, [];
    }
    OwnedLocal(vol.V(), vol.g, index, leaked);
    var got;
    res, got := Read(vol, index, offset, length);
    if res != OK {
      return;
    }
    var buf := new byte[|got|](i requires 0 <= i < |got| => got[i]);
    assert buf[..buf.Length] == got;
    XorCryptBuffer(key, offset, buf, buf.Length);
    out := buf[..buf.Length];
    if length == 0 {
      CryptEmpty(key, offset);
      NoSlice(Plain(vol.V(), vol.g, index, password), offset);
    } else {
      PlainSlice(vol.V(), vol.g, index, password, offset, length);
    }
  }

  lemma NoSlice(p: seq<byte>, offset: nat)
    ensures ReadSlice(p, offset, 0) == []
  {
  }

  lemma SaltSize(e: Entry)
    requires Fits(e)
    ensures |e.salt| == SALT_SIZE
  {
  }

  // ---- Writing ----

  /** `data` stored over `before` from `offset` on; bytes beyond the old end up to `offset` are not determined. */
  ghost predicate Updated(before: seq<byte>, after: seq<byte>, offset: nat, data: seq<byte>) {
    && |after| == MaxNat(|before|, offset + |data|)
    && after[offset..offset + |data|] == data
    && forall p :: 0 <= p < |before| && !(offset <= p < offset + |data|) ==> after[p] == before[p]
  }

  lemma WrittenParts(v: seq<Block>, v': seq<Block>, g: Geometry, i: nat, offset: nat, data: seq<byte>)
    requires g.blockSize > 0 && Written(v, v', g, i, offset, data)
    ensures var e, e' := EntryAt(v, g, i), EntryAt(v', g, i);
            && i < g.Slots() && Table(v', g) == Table(v, g)[i := e']
            && e' == e.(size := MaxNat(e.size, offset + |data|), extentCount := e'.extentCount,
                        direct := e'.direct, indirect := e'.indirect)
            && |Content(v, g, e)| == e.size && |Content(v', g, e')| == e'.size
            && Updated(Content(v, g, e), Content(v', g, e'), offset, data)
            && OthersKept(v, v', g, i)
  {
    hide EntryAt, Table, Content, OthersKept, g.Slots;
  }

  lemma MakeWrittenFrom(v: seq<Block>, v': seq<Block>, g: Geometry, i: nat, offset: nat, data: seq<byte>)
    requires g.blockSize > 0
    requires var e, e' := EntryAt(v, g, i), EntryAt(v', g, i);
             && i < g.Slots() && Table(v', g) == Table(v, g)[i := e']
             && e' == e.(size := MaxNat(e.size, offset + |data|), extentCount := e'.extentCount,
                         direct := e'.direct, indirect := e'.indirect)
             && |Content(v, g, e)| == e.size && |Content(v', g, e')| == e'.size
             && Updated(Content(v, g, e), Content(v', g, e'), offset, data)
             && OthersKept(v, v', g, i)
    ensures Written(v, v', g, i, offset, data)
  {
    hide EntryAt, Table, Content, OthersKept, g.Slots;
  }

  lemma UpdatedTwice(a: seq<byte>, b: seq<byte>, c: seq<byte>, offset: nat, d1: seq<byte>, d2: seq<byte>)
    requires Updated(a, b, offset, d1) && Updated(b, c, offset + |d1|, d2)
    ensures Updated(a, c, offset, d1 + d2)
  {
    var d := d1 + d2;
    forall p | offset <= p < offset + |d| ensures c[p] == d[p - offset] {
      if p < offset + |d1| {
        assert b[offset..offset + |d1|][p - offset] == d1[p - offset];
        assert c[p] == b[p];
      } else {
        assert c[offset + |d1|..offset + |d1| + |d2|][p - offset - |d1|] == d2[p - offset - |d1|];
      }
    }
    assert c[offset..offset + |d|] == d;
  }

  /** One write after another, adjacent, is one write. */
  lemma WrittenTwice(v: seq<Block>, v1: seq<Block>, v2: seq<Block>, g: Geometry, i: nat, offset: nat,
                     d1: seq<byte>, d2: seq<byte>)
    requires g.blockSize > 0 && Written(v, v1, g, i, offset, d1) && Written(v1, v2, g, i, offset + |d1|, d2)
    ensures Written(v, v2, g, i, offset, d1 + d2)
  {
    hide EntryAt, Table, Content, OthersKept, g.Slots, Written, Updated;
    WrittenParts(v, v1, g, i, offset, d1);
    WrittenParts(v1, v2, g, i, offset + |d1|, d2);
    var e, e1, e2 := EntryAt(v, g, i), EntryAt(v1, g, i), EntryAt(v2, g, i);
    UpdatedTwice(Content(v, g, e), Content(v1, g, e1), Content(v2, g, e2), offset, d1, d2);
    OthersTrans(v, v1, v2, g, i);
    TableSize(v, g);
    assert |d1 + d2| == |d1| + |d2|;
    assert Table(v, g)[i := e1][i := e2] == Table(v, g)[i := e2];
    MakeWrittenFrom(v, v2, g, i, offset, d1 + d2);
  }

  lemma AllKeptOthers(v: seq<Block>, v': seq<Block>, g: Geometry, i: nat)
    requires g.blockSize > 0 && AllKept(v, v', g) && i < g.Slots()
    ensures OthersKept(v, v', g, i) && EntryAt(v', g, i) == EntryAt(v, g, i)
    ensures EntryAt(v, g, i).kind == FILE ==>
              Content(v', g, EntryAt(v, g, i)) == Content(v, g, EntryAt(v, g, i))
  {
    hide EntryAt, Content, g.Slots, Table;
    forall j | 0 <= j < g.Slots() ensures EntryAt(v', g, j) == EntryAt(v, g, j) {
      TableAt(v, g, j);
      TableAt(v', g, j);
    }
  }

  /** A failed write after a successful one. */
  lemma WrittenThenKept(v: seq<Block>, v1: seq<Block>, v2: seq<Block>, g: Geometry, i: nat, offset: nat, data: seq<byte>)
    requires g.blockSize > 0 && Written(v, v1, g, i, offset, data) && AllKept(v1, v2, g)
    requires EntryAt(v1, g, i).kind == FILE
    ensures Written(v, v2, g, i, offset, data)
  {
    hide EntryAt, Table, Content, OthersKept, g.Slots, Written, Updated, AllKept;
    WrittenParts(v, v1, g, i, offset, data);
    AllKeptOthers(v1, v2, g, i);
    OthersTrans(v, v1, v2, g, i);
    KeptTable(v1, v2, g);
    MakeWrittenFrom(v, v2, g, i, offset, data);
  }

  lemma KeptTable(v: seq<Block>, v': seq<Block>, g: Geometry)
    requires g.blockSize > 0 && AllKept(v, v', g)
    ensures Table(v', g) == Table(v, g)
  {
    hide EntryAt, Content, g.Slots, Table;
  }

  /** What has become of the file after the bytes d were written, if any were. */
  ghost predicate Progress(v: seq<Block>, v': seq<Block>, g: Geometry, i: nat, offset: nat, d: seq<byte>)
    requires g.blockSize > 0
  {
    if d == [] then AllKept(v, v', g) else Written(v, v', g, i, offset, d)
  }

  lemma ProgressEntry(v: seq<Block>, v': seq<Block>, g: Geometry, i: nat, offset: nat, d: seq<byte>)
    requires g.blockSize > 0 && i < g.Slots() && Progress(v, v', g, i, offset, d)
    ensures var e, e' := EntryAt(v, g, i), EntryAt(v', g, i);
            e'.kind == e.kind && e'.salt == e.salt && e'.verifier == e.verifier && e'.scheme == e.scheme
  {
    hide EntryAt, Table, Content, OthersKept, g.Slots, Written, AllKept, Updated;
    if d == [] {
      AllKeptOthers(v, v', g, i);
    } else {
      WrittenParts(v, v', g, i, offset, d);
    }
  }

  lemma ProgressTree(v: seq<Block>, v': seq<Block>, g: Geometry, i: nat, offset: nat, d: seq<byte>)
    requires g.blockSize > 0 && Progress(v, v', g, i, offset, d) && TreeOk(Table(v, g), g.root)
    ensures TreeOk(Table(v', g), g.root)
  {
    hide TreeOk, Table, Written, AllKept;
    if d == [] {
      KeptTable(v, v', g);
    } else {
      WriteKeepsTree(v, v', g, i, offset, d);
    }
  }

  lemma AllKeptTwice(v: seq<Block>, v1: seq<Block>, v2: seq<Block>, g: Geometry)
    requires g.blockSize > 0 && AllKept(v, v1, g) && AllKept(v1, v2, g)
    ensures AllKept(v, v2, g)
  {
    hide EntryAt, Content, g.Slots, Table;
    KeptTable(v, v1, g);
    forall j | 0 <= j < g.Slots() && EntryAt(v, g, j).kind == FILE
      ensures Content(v2, g, EntryAt(v, g, j)) == Content(v, g, EntryAt(v, g, j))
    {
      TableAt(v, g, j);
      TableAt(v1, g, j);
    }
  }

  /** Nothing visible happened before the first write. */
  lemma KeptThenWritten(v: seq<Block>, v1: seq<Block>, v2: seq<Block>, g: Geometry, i: nat, offset: nat, data: seq<byte>)
    requires g.blockSize > 0 && AllKept(v, v1, g) && Written(v1, v2, g, i, offset, data) && EntryAt(v, g, i).kind == FILE
    ensures Written(v, v2, g, i, offset, data)
  {
    hide EntryAt, Table, Content, OthersKept, g.Slots, Written, Updated, AllKept;
    WrittenParts(v1, v2, g, i, offset, data);
    AllKeptOthers(v, v1, g, i);
    OthersTrans(v, v1, v2, g, i);
    KeptTable(v, v1, g);
    MakeWrittenFrom(v, v2, g, i, offset, data);
  }

  lemma ProgressWrites(v: seq<Block>, v1: seq<Block>, v2: seq<Block>, g: Geometry, i: nat, offset: nat,
                       d1: seq<byte>, d2: seq<byte>)
    requires g.blockSize > 0 && Progress(v, v1, g, i, offset, d1) && Progress(v1, v2, g, i, offset + |d1|, d2)
    requires i < g.Slots() && (d1 + d2 != [] ==> EntryAt(v, g, i).kind == FILE)
    ensures Progress(v, v2, g, i, offset, d1 + d2)
  {
    hide EntryAt, Written, AllKept, g.Slots;
    ProgressEntry(v, v1, g, i, offset, d1);
    assert |d1 + d2| == |d1| + |d2|;
    if d1 == [] {
      assert d1 + d2 == d2;
      if d2 == [] {
        AllKeptTwice(v, v1, v2, g);
      } else {
        KeptThenWritten(v, v1, v2, g, i, offset, d2);
      }
    } else if d2 == [] {
      assert d1 + d2 == d1;
      WrittenThenKept(v, v1, v2, g, i, offset, d1);
    } else {
      WrittenTwice(v, v1, v2, g, i, offset, d1, d2);
    }
  }

  /** Ciphertext written at its position is plain text written at its position. */
  lemma PlainWritten(v: seq<Block>, v': seq<Block>, g: Geometry, i: nat, offset: nat, data: seq<byte>, password: seq<byte>)
    requires g.blockSize > 0 && data != []
    requires Progress(v, v', g, i, offset, Crypt(Key(password, EntryAt(v, g, i).salt), offset, data))
    ensures Updated(Plain(v, g, i, password), Plain(v', g, i, password), offset, data)
  {
    hide EntryAt, Content, Table, OthersKept, g.Slots, Written, Crypt, Key;
    var key := Key(password, EntryAt(v, g, i).salt);
    var c := Crypt(key, offset, data);
    WrittenParts(v, v', g, i, offset, c);
    var a, b := Content(v, g, EntryAt(v, g, i)), Content(v', g, EntryAt(v', g, i));
    CryptSlice(key, 0, b, offset, offset + |data|);
    CryptTwice(key, offset, data);
    assert b[offset..offset + |data|] == c && 0 + offset == offset;
    forall p | 0 <= p < |a| && !(offset <= p < offset + |data|) ensures Crypt(key, 0, b)[p] == Crypt(key, 0, a)[p] {
      CryptSlice(key, 0, a, p, p + 1);
      CryptSlice(key, 0, b, p, p + 1);
      assert a[p..p + 1] == b[p..p + 1];
      assert Crypt(key, 0, a)[p..p + 1][0] == Crypt(key, 0, b)[p..p + 1][0];
    }
  }

  /** The file has to grow to reach `end`, and cannot. */
  ghost predicate CannotReach(v: seq<Block>, g: Geometry, i: nat, end: nat)
    requires g.blockSize > 0
  {
    CannotGrow(v, g, EntryAt(v, g, i), end)
  }

  ghost function BlockCount(v: seq<Block>, g: Geometry, i: nat): nat {
    |DataBlocks(Extents(v, g, EntryAt(v, g, i)))|
  }

  /** A file that has the blocks never fails to reach `end`, and more blocks do not change that. */
  lemma RoomStays(v: seq<Block>, v1: seq<Block>, g: Geometry, i: nat, end: nat, all: nat)
    requires g.blockSize > 0 && BlockCount(v, g, i) <= BlockCount(v1, g, i) && end <= all <= BlockCount(v, g, i) * g.blockSize
    ensures !CannotReach(v1, g, i, end)
  {
    hide EntryAt, DataBlocks, Extents, GrowFails;
    MulMono(BlockCount(v, g, i), BlockCount(v1, g, i), g.blockSize);
  }

  /** One piece of vtx2_write_encrypted: copied to the buffer, encrypted there, written. */
  method WritePiece(vol: Volume, index: nat, key: seq<byte>, chunk: array<byte>, pos: nat, piece: seq<byte>,
                    ghost leaked: set<nat>)
    returns (res: FsResult, written: nat)
    requires vol.Valid() && vol.g.Valid() && vol.g.blockSize > 0 && FsOk(vol.V(), vol.g, leaked)
    requires index < vol.g.Slots() && IndexOk(vol.g, index) && index < vol.g.capacity && pos + |piece| < TWO_64
    requires 0 < |piece| <= chunk.Length
    modifies vol, vol.dev, chunk
    ensures vol.Valid() && vol.Continues() && FsOk(vol.V(), vol.g, leaked)
    ensures old(HintExact(vol)) ==> HintExact(vol)
    ensures AllCrashOk(vol, |old(vol.history)|)
    ensures EntryAt(old(vol.V()), vol.g, index).kind != FILE <==> res == ERR_IS_DIR
    ensures res == OK || res == ERR_IS_DIR || res == ERR_NO_SPACE
    ensures written == if res == OK then |piece| else 0
    ensures res == ERR_NO_SPACE ==> CannotReach(old(vol.V()), vol.g, index, pos + |piece|)
    ensures res == OK ==> BlockCount(old(vol.V()), vol.g, index) <= BlockCount(vol.V(), vol.g, index)
    ensures Progress(old(vol.V()), vol.V(), vol.g, index, pos, if res == OK then Crypt(key, pos, piece) else [])
  {
    hide vol.Valid, vol.V, vol.g.Valid, OwnOk, TreeOk, EntryAt, vol.g.Slots, IndexOk, Table, Crypt, Written, AllKept,
         WriteStates, HintExact;
    ghost var v := vol.V();
    var i := 0;
    while i < |piece|
      invariant i <= |piece| && chunk[..i] == piece[..i]
      modifies chunk
    {
      chunk[i] := piece[i];
      i := i + 1;
    }
    assert piece[..i] == piece;
    XorCryptBuffer(key, pos, chunk, |piece|);
    res, written := WriteAt(vol, index, pos, chunk[..|piece|], leaked);
    ProgressTree(v, vol.V(), vol.g, index, pos, if res == OK then Crypt(key, pos, piece) else []);
    TwoTables(vol, |old(vol.history)|, v, vol.V(), index);
  }

  lemma ProgressStart(v: seq<Block>, g: Geometry, i: nat, offset: nat, d: seq<byte>)
    requires g.blockSize > 0 && d == []
    ensures Progress(v, v, g, i, offset, d)
  {
  }

  /** One turn of the loop of vtx2_write_encrypted. */
  method WriteTurn(vol: Volume, index: nat, key: seq<byte>, chunk: array<byte>, offset: nat, data: seq<byte>, total: nat,
                   ghost v: seq<Block>, ghost from: nat, ghost leaked: set<nat>)
    returns (res: FsResult, take: nat, written: nat)
    requires vol.Valid() && vol.g.Valid() && vol.g.blockSize > 0 && FsOk(vol.V(), vol.g, leaked)
    requires index < vol.g.Slots() && IndexOk(vol.g, index) && index < vol.g.capacity && offset + |data| < TWO_64
    requires total < |data| && chunk.Length == 512 && from <= |vol.history| && AllCrashOk(vol, from)
    requires Progress(v, vol.V(), vol.g, index, offset, Crypt(key, offset, data[..total]))
    requires total > 0 ==> EntryAt(v, vol.g, index).kind == FILE
    modifies vol, vol.dev, chunk
    ensures vol.Valid() && vol.Continues() && FsOk(vol.V(), vol.g, leaked)
    ensures old(HintExact(vol)) ==> HintExact(vol)
    ensures AllCrashOk(vol, from)
    ensures EntryAt(v, vol.g, index).kind != FILE <==> res == ERR_IS_DIR
    ensures res == OK || res == ERR_IS_DIR || res == ERR_NO_SPACE
    ensures 0 < take && total + take <= |data| && written == if res == OK then take else 0
    ensures take == MinNat(512, |data| - total)
    ensures res == ERR_NO_SPACE ==> CannotReach(old(vol.V()), vol.g, index, offset + total + take)
    ensures res == OK ==> BlockCount(old(vol.V()), vol.g, index) <= BlockCount(vol.V(), vol.g, index)
    ensures Progress(v, vol.V(), vol.g, index, offset, Crypt(key, offset, data[..total + written]))
  {
    hide vol.Valid, vol.V, vol.g.Valid, FsOk, EntryAt, vol.g.Slots, Crypt, Progress, FreeSet, CrashOk, CannotReach, BlockCount;
    var g := vol.g;
    ghost var v1, h1 := vol.V(), vol.history;
    ProgressEntry(v, v1, g, index, offset, Crypt(key, offset, data[..total]));
    take := if |data| - total > 512 then 512 else |data| - total;
    res, written := WritePiece(vol, index, key, chunk, offset + total, data[total..total + take], leaked);
    assert offset + total + |data[total..total + take]| == offset + total + take;
    JoinCrashes(vol, from, h1);
    CryptConcat(key, offset, data[..total], data[total..total + take]);
    assert data[..total] + data[total..total + take] == data[..total + take];
    assert Crypt(key, offset, data[..total]) + [] == Crypt(key, offset, data[..total]);
    ProgressWrites(v, v1, vol.V(), g, index, offset, Crypt(key, offset, data[..total]),
                   if res == OK then Crypt(key, offset + total, data[total..total + take]) else []);
  }

  lemma JoinCrashes(vol: Volume, from: nat, h: seq<seq<Block>>)
    requires vol.g.blockSize > 0 && from <= |h| && h <= vol.history && AllCrashOk(vol, |h|)
    requires forall k :: from <= k < |h| ==> CrashOk(h[k], vol.g)
    ensures AllCrashOk(vol, from)
  {
    JoinCrashOk(vol, h[..from], h);
  }

  /** The pieces written so far are in, as the owner of the password sees it; nothing else has changed. */
  ghost predicate PiecesIn(v: seq<Block>, v': seq<Block>, g: Geometry, i: nat, offset: nat, d: seq<byte>, password: seq<byte>)
    requires g.blockSize > 0
  {
    if d == [] then AllKept(v, v', g)
    else
      var e, e' := EntryAt(v, g, i), EntryAt(v', g, i);
      && e'.kind == e.kind && e'.salt == e.salt && e'.verifier == e.verifier && e'.scheme == e.scheme
      && Updated(Plain(v, g, i, password), Plain(v', g, i, password), offset, d)
      && OthersKept(v, v', g, i)
  }

  /** With the first `done` bytes in, the next piece makes the file grow, and it cannot. */
  ghost predicate StuckAt(v: seq<Block>, v': seq<Block>, g: Geometry, i: nat, offset: nat, data: seq<byte>, done: nat,
                          password: seq<byte>)
    requires g.blockSize > 0
  {
    && done < |data| && PiecesIn(v, v', g, i, offset, data[..done], password)
    && CannotReach(v', g, i, offset + done + MinNat(512, |data| - done))
  }

  lemma Stopped(v: seq<Block>, v1: seq<Block>, g: Geometry, i: nat, offset: nat, data: seq<byte>, done: nat, password: seq<byte>)
    requires g.blockSize > 0 && done < |data| && PiecesIn(v, v1, g, i, offset, data[..done], password)
    requires CannotReach(v1, g, i, offset + done + MinNat(512, |data| - done))
    requires BlockCount(v, g, i) <= BlockCount(v1, g, i)
    ensures StuckAt(v, v1, g, i, offset, data, done, password)
    ensures offset + |data| > BlockCount(v, g, i) * g.blockSize
  {
    hide PiecesIn, CannotReach, BlockCount;
    if offset + |data| <= BlockCount(v, g, i) * g.blockSize {
      RoomStays(v, v1, g, i, offset + done + MinNat(512, |data| - done), offset + |data|);
    }
  }

  /** The loop of vtx2_write_encrypted. */
  method WritePieces(vol: Volume, index: nat, password: seq<byte>, key: seq<byte>, offset: nat, data: seq<byte>,
                     ghost leaked: set<nat>)
    returns (res: FsResult, total: nat, ghost done: nat, ghost stuck: nat)
    requires vol.Valid() && vol.g.Valid() && vol.g.blockSize > 0 && FsOk(vol.V(), vol.g, leaked)
    requires index < vol.g.Slots() && IndexOk(vol.g, index) && index < vol.g.capacity && offset + |data| < TWO_64
    requires key == Key(password, EntryAt(vol.V(), vol.g, index).salt) && data != []
    modifies vol, vol.dev
    ensures vol.Valid() && vol.Continues() && FsOk(vol.V(), vol.g, leaked)
    ensures old(HintExact(vol)) ==> HintExact(vol)
    ensures AllCrashOk(vol, |old(vol.history)|)
    ensures res == ERR_IS_DIR <==> EntryAt(old(vol.V()), vol.g, index).kind != FILE
    ensures res == OK || res == ERR_IS_DIR || res == ERR_NO_SPACE
    ensures done <= |data| && (res == OK ==> done == |data|) && total == if res == OK then |data| else 0
    ensures res == ERR_NO_SPACE ==>
              && stuck < |vol.history| && |old(vol.history)| <= stuck + 1
              && StuckAt(old(vol.V()), vol.history[stuck], vol.g, index, offset, data, done, password)
    ensures offset + |data| <= BlockCount(old(vol.V()), vol.g, index) * vol.g.blockSize ==> res != ERR_NO_SPACE
    ensures PiecesIn(old(vol.V()), vol.V(), vol.g, index, offset, data[..done], password)
  {
    hide vol.Valid, vol.V, vol.g.Valid, FsOk, EntryAt, vol.g.Slots, Table, Crypt, Progress, FreeSet, Key, CrashOk, PiecesIn,
         CannotReach, BlockCount, ViewOk, StuckAt, IndexOk;
    var g := vol.g;
    ghost var v, kind := vol.V(), EntryAt(vol.V(), vol.g, index).kind;
    res, total, done, stuck := OK, 0, 0, 0;
    VolumeView(vol);
    ProgressStart(v, g, index, offset, []);
    var chunk := new byte[512];
    var pos := offset;
    assert data[..0] == [];
    CryptEmpty(key, offset);
    while total < |data|
      invariant total <= |data| && pos == offset + total && done == total
      invariant vol.Valid() && vol.Continues() && FsOk(vol.V(), g, leaked)
      invariant old(HintExact(vol)) ==> HintExact(vol)
      invariant AllCrashOk(vol, |old(vol.history)|)
      invariant Progress(v, vol.V(), g, index, offset, Crypt(key, offset, data[..total]))
      invariant total > 0 ==> kind == FILE
      invariant BlockCount(v, g, index) <= BlockCount(vol.V(), g, index)
      invariant res == OK && fresh(chunk) && chunk.Length == 512
    {
      var take, writtenNow;
      VolumeView(vol);
      ghost var h1, v1 := vol.history, vol.V();
      res, take, writtenNow := WriteTurn(vol, index, key, chunk, offset, data, total, v, |old(vol.history)|, leaked);
      if res != OK {
        Finished(v, vol.V(), g, index, offset, data[..total], password);
        Finished(v, v1, g, index, offset, data[..total], password);
        assert vol.history[|h1| - 1] == v1;
        if res == ERR_NO_SPACE {
          Stopped(v, v1, g, index, offset, data, total, password);
        }
        return res, 0, total, |h1| - 1;
      }
      pos := pos + take;
      total := total + writtenNow;
      done := total;
      if writtenNow < take {
        break;
      }
    }
    assert data[..total] == data;
    Finished(v, vol.V(), g, index, offset, data, password);
  }

  /**
   * vtx2_write_encrypted, in pieces of 512 bytes. Afterwards the owner of the password sees the data
   * in place; on an error, the pieces before it. For lack of space it fails only where the next piece makes
   * the file grow, and never when the file has the blocks.
   */
  method WriteEncrypted(vol: Volume, index: nat, password: seq<byte>, offset: nat, data: seq<byte>, ghost leaked: set<nat>)
    returns (res: FsResult, total: nat, ghost done: nat, ghost stuck: nat)
    requires vol.Valid() && vol.g.Valid() && vol.g.blockSize > 0 && FsOk(vol.V(), vol.g, leaked)
    requires IndexOk(vol.g, index) && offset + |data| < TWO_64
    modifies vol, vol.dev
    ensures vol.Valid() && vol.Continues() && FsOk(vol.V(), vol.g, leaked)
    ensures old(HintExact(vol)) ==> HintExact(vol)
    ensures AllCrashOk(vol, |old(vol.history)|)
    ensures |data| == 0 ==> res == OK
    ensures |data| > 0 && index >= vol.g.capacity ==> res == ERR_INVALID
    ensures |data| > 0 && index < vol.g.capacity ==>
              var e := EntryAt(old(vol.V()), vol.g, index);
              && (res == ERR_INVALID <==> e.scheme == 0 || !Unlocks(password, e))
              && (res == ERR_IS_DIR <==> res != ERR_INVALID && e.kind != FILE)
              && (res == OK || res == ERR_INVALID || res == ERR_IS_DIR || res == ERR_NO_SPACE)
    ensures done <= |data| && (res == OK ==> done == |data|) && total == if res == OK then |data| else 0
    ensures res == ERR_NO_SPACE ==>
              && stuck < |vol.history| && |old(vol.history)| <= stuck + 1
              && StuckAt(old(vol.V()), vol.history[stuck], vol.g, index, offset, data, done, password)
    ensures offset + |data| <= BlockCount(old(vol.V()), vol.g, index) * vol.g.blockSize ==> res != ERR_NO_SPACE
    ensures PiecesIn(old(vol.V()), vol.V(), vol.g, index, offset, data[..done], password)
  {
    hide vol.Valid, vol.V, vol.g.Valid, FsOk, EntryAt, vol.g.Slots, Table, Crypt, Fits, Progress, FreeSet, Key, Verifier,
         CrashOk, PiecesIn, AllKept, CannotReach, BlockCount, ViewOk, StuckAt;
    var g := vol.g;
    ghost var v := vol.V();
    total, done, stuck := 0, 0, 0;
    NothingDone(v, g, index, offset, password);
    if |data| == 0 {
      return OK, 0, 0, 0;
    }
    var entry;
    res, entry := ReadEntry(vol, index);
    if res != OK {
      return;
    }
    if entry.scheme == 0 {
      return ERR_INVALID, 0, 0, 0;
    }
    SaltSize(entry);
    var key := DeriveKey(password, entry.salt);
    var ok := CheckPassword(key, entry.salt, entry.verifier);
    if !ok {
      return ERR_INVALID, 0, 0, 0;
    }
    res, total, done, stuck := WritePieces(vol, index, password, key, offset, data, leaked);
  }

  lemma NothingDone(v: seq<Block>, g: Geometry, i: nat, offset: nat, password: seq<byte>)
    requires g.blockSize > 0
    ensures PiecesIn(v, v, g, i, offset, [], password)
  {
  }

  lemma Finished(v: seq<Block>, v': seq<Block>, g: Geometry, i: nat, offset: nat, d: seq<byte>, password: seq<byte>)
    requires g.blockSize > 0 && i < g.Slots()
    requires Progress(v, v', g, i, offset, Crypt(Key(password, EntryAt(v, g, i).salt), offset, d))
    ensures PiecesIn(v, v', g, i, offset, d, password)
  {
    hide EntryAt, Content, Table, OthersKept, g.Slots, Written, Crypt, Key, AllKept, Updated, Plain;
    var c := Crypt(Key(password, EntryAt(v, g, i).salt), offset, d);
    ProgressEntry(v, v', g, i, offset, c);
    if d != [] {
      WrittenParts(v, v', g, i, offset, c);
      PlainWritten(v, v', g, i, offset, d, password);
    }
  }

  lemma PiecesUpdate(v: seq<Block>, v': seq<Block>, g: Geometry, i: nat, offset: nat, d: seq<byte>, password: seq<byte>)
    requires g.blockSize > 0 && PiecesIn(v, v', g, i, offset, d, password) && d != []
    ensures Updated(Plain(v, g, i, password), Plain(v', g, i, password), offset, d)
    ensures var e, e' := EntryAt(v, g, i), EntryAt(v', g, i);
            e'.kind == e.kind && e'.salt == e.salt && e'.verifier == e.verifier && e'.scheme == e.scheme
  {
    hide EntryAt, OthersKept, AllKept, Updated, Plain;
  }

  lemma UpdatedSlice(before: seq<byte>, after: seq<byte>, offset: nat, data: seq<byte>, from: nat, length: nat)
    requires Updated(before, after, offset, data)
    requires offset <= from && from + length <= offset + |data|
    ensures from + length <= |after| && after[from..from + length] == data[from - offset..from - offset + length]
  {
    SliceSlice(after, offset, offset + |data|, from - offset, from - offset + length);
  }

  /**
   * The round trip: once a write under a password the entry accepts has put all its data in, the entry
   * still accepts it, and what a read of any sub-range under the same password returns is the matching
   * slice of the data.
   */
  lemma EncryptedRoundTrip(v: seq<Block>, v': seq<Block>, g: Geometry, i: nat, password: seq<byte>, offset: nat,
                           data: seq<byte>, from: nat, length: nat)
    requires g.blockSize > 0 && data != [] && PiecesIn(v, v', g, i, offset, data, password)
    requires offset <= from && from + length <= offset + |data|
    ensures var e, e' := EntryAt(v, g, i), EntryAt(v', g, i);
            e'.kind == e.kind && e'.scheme == e.scheme && (Unlocks(password, e') <==> Unlocks(password, e))
    ensures ReadSlice(Plain(v', g, i, password), from, length) == data[from - offset..from - offset + length]
  {
    hide PiecesIn, EntryAt, Plain, Updated, Key, Verifier;
    PiecesUpdate(v, v', g, i, offset, data, password);
    UpdatedSlice(Plain(v, g, i, password), Plain(v', g, i, password), offset, data, from, length);
  }
}
