/** Reading entries, extents and file contents. */
module FileReads {
  import opened Seqs
  import opened Arith
  import opened Bytes
  import opened Layout
  import opened JournalBytes
  import opened Bitmap
  import opened Entries
  import opened Files
  import opened Contents
  import opened Volumes
  import opened Allocator

  /** An index a caller may pass: an entry of the table, or one that the capacity check refuses. */
  ghost predicate IndexOk(g: Geometry, i: nat)
    requires g.blockSize > 0
  {
    i < g.Slots() || g.capacity <= i
  }

  /** The device has the block that the index names, in the table or behind it. */
  ghost predicate EntryReachable(v: seq<Block>, g: Geometry, i: nat)
    requires g.blockSize > 0
  {
    g.blockSize >= ENTRY_SIZE && g.tableStart + EntryBlock(g, i) < |v|
  }

  lemma EntryReached(v: seq<Block>, g: Geometry, i: nat)
    requires g.Valid() && ViewOk(v, g) && g.blockSize > 0 && (IndexOk(g, i) || EntryReachable(v, g, i)) && i < g.capacity
    ensures g.blockSize >= 512 && EntryOffset(g, i) + ENTRY_SIZE <= g.blockSize
    ensures var x := g.tableStart + EntryBlock(g, i);
            && x < |v| && !g.InJournal(x) && |v[x]| == g.blockSize
            && EntryAt(v, g, i) == DecodeEntry(v[x][EntryOffset(g, i)..EntryOffset(g, i) + ENTRY_SIZE])
  {
    hide DecodeEntry, EntryBlock, EntryOffset, g.Slots, g.PerBlock, ViewOk;
    BlockSizeFacts(g.blockSize);
    if IndexOk(g, i) {
      SlotOrBeyond(g, i);
      EntryPlace(v, g, i);
    } else {
      OffsetInBlock(g, i);
      TableOutsideLog(v, g, g.tableStart + EntryBlock(g, i));
    }
  }

  lemma SlotOrBeyond(g: Geometry, i: nat)
    requires g.blockSize > 0 && IndexOk(g, i) && i < g.capacity
    ensures i < g.Slots()
  {
  }

  lemma OffsetInBlock(g: Geometry, i: nat)
    requires g.blockSize >= ENTRY_SIZE
    ensures EntryOffset(g, i) + ENTRY_SIZE <= g.blockSize
  {
    var per := g.PerBlock();
    DivFacts(g.blockSize, ENTRY_SIZE);
    MulMono(i % per + 1, per, ENTRY_SIZE);
  }

  lemma TableOutsideLog(v: seq<Block>, g: Geometry, x: nat)
    requires g.Valid() && ViewOk(v, g) && g.tableStart <= x < |v|
    ensures !g.InJournal(x) && |v[x]| == g.blockSize
  {
  }

  /** vtx2_read_entry. An index behind the table's size but below the capacity reads what lies there. */
  method ReadEntry(vol: Volume, index: nat) returns (res: FsResult, entry: Entry)
    requires vol.Valid() && vol.g.blockSize > 0
    requires index < vol.g.capacity ==> IndexOk(vol.g, index) || EntryReachable(vol.V(), vol.g, index)
    modifies vol`scratch
    ensures vol.Valid()
    ensures res == if index >= vol.g.capacity then ERR_INVALID else OK
    ensures res == OK ==> entry == EntryAt(vol.V(), vol.g, index) && Fits(entry)
    ensures res == OK && IndexOk(vol.g, index) ==> index < vol.g.Slots()
  {
    hide vol.Valid, vol.V, vol.g.Valid, EntryBlock, EntryOffset, DecodeEntry, Fits, ViewOk, EntryAt, vol.g.PerBlock;
    entry := BlankEntry();
    if index >= vol.g.capacity {
      return ERR_INVALID, entry;
    }
    VolumeView(vol);
    EntryReached(vol.V(), vol.g, index);
    vol.Load(vol.g.tableStart + EntryBlock(vol.g, index));
    var off := EntryOffset(vol.g, index);
    DecodedFits(vol.scratch[off..off + ENTRY_SIZE]);
    return OK, DecodeEntry(vol.scratch[off..off + ENTRY_SIZE]);
  }

  /** A file entry, on disk or about to be, whose block list is sound in v. */
  ghost predicate LocalFile(v: seq<Block>, g: Geometry, e: Entry) {
    e.kind == FILE && FileOk(v, g, e) && NoDup(HeldBy(v, g, e))
  }

  lemma LocalParts(v: seq<Block>, g: Geometry, e: Entry)
    requires LocalFile(v, g, e)
    ensures e.kind == FILE && Fits(e) && |e.direct| == DIRECT_EXTENTS
    ensures e.extentCount <= DIRECT_EXTENTS + IndirectSlots(g)
    ensures e.indirect != 0 <==> e.extentCount > DIRECT_EXTENTS
    ensures e.indirect != 0 ==> g.dataStart <= e.indirect < g.totalBlocks
    ensures e.size <= |DataBlocks(Extents(v, g, e))| * g.blockSize
    ensures AllData(g, DataBlocks(Extents(v, g, e))) && NoDup(DataBlocks(Extents(v, g, e)))
    ensures e.indirect != 0 ==> e.indirect !in DataBlocks(Extents(v, g, e))
    ensures HeldBy(v, g, e) == Indirect(e) + DataBlocks(Extents(v, g, e))
  {
    hide Extents, DataBlocks;
    var h, d, n := HeldBy(v, g, e), DataBlocks(Extents(v, g, e)), |Indirect(e)|;
    forall p | 0 <= p < |d| ensures h[n + p] == d[p] {
    }
    if e.indirect != 0 {
      assert h[0] == e.indirect;
    }
  }

  /** vtx2_get_extent. */
  method GetExtent(vol: Volume, entry: Entry, n: nat) returns (res: FsResult, ext: Extent)
    requires vol.Valid() && vol.g.blockSize > 0 && |entry.direct| == DIRECT_EXTENTS
    requires entry.indirect != 0 ==> vol.g.dataStart <= entry.indirect < vol.g.totalBlocks
    modifies vol`scratch2
    ensures vol.Valid()
    ensures res == if n < DIRECT_EXTENTS || (entry.indirect != 0 && n - DIRECT_EXTENTS < IndirectSlots(vol.g))
                   then OK else ERR_INVALID
    ensures res == OK ==> ext == ExtentAt(vol.V(), vol.g, entry, n)
  {
    hide vol.Valid, vol.V, vol.g.Valid, DecodeExtent;
    ext := Extent(0, 0);
    if n < DIRECT_EXTENTS {
      return OK, entry.direct[n];
    }
    if entry.indirect == 0 {
      return ERR_INVALID, ext;
    }
    var index := n - DIRECT_EXTENTS;
    if index >= vol.g.blockSize / EXTENT_SIZE {
      return ERR_INVALID, ext;
    }
    VolumeView(vol);
    DataInView(vol.V(), vol.g, entry.indirect);
    vol.Load2(entry.indirect);
    return OK, DecodeExtent(vol.scratch2[index * EXTENT_SIZE..index * EXTENT_SIZE + EXTENT_SIZE]);
  }

  lemma DataInView(v: seq<Block>, g: Geometry, b: nat)
    requires g.Valid() && ViewOk(v, g) && g.dataStart <= b < g.totalBlocks
    ensures b < |v| && !g.InJournal(b) && |v[b]| == g.blockSize
  {
  }

  /** The search for the extent that holds byte pos, as vtx2_read and vtx2_write make it; it never fails below the capacity. */
  method FindExtent(vol: Volume, entry: Entry, pos: nat) returns (found: bool, base: nat, ext: Extent)
    requires vol.Valid() && vol.g.blockSize > 0 && LocalFile(vol.V(), vol.g, entry)
    modifies vol`scratch2
    ensures vol.Valid()
    ensures found <==> pos < |DataBlocks(Extents(vol.V(), vol.g, entry))| * vol.g.blockSize
    ensures found ==>
              && base <= pos
              && var b := ext.start + (pos - base) / vol.g.blockSize;
              var r := (pos - base) % vol.g.blockSize;
              && 0 <= (pos - base) / vol.g.blockSize && 0 <= pos / vol.g.blockSize
              && pos / vol.g.blockSize < |DataBlocks(Extents(vol.V(), vol.g, entry))|
              && b == DataBlocks(Extents(vol.V(), vol.g, entry))[pos / vol.g.blockSize]
              && r == pos % vol.g.blockSize
  {
    hide vol.Valid, vol.V, vol.g.Valid, DataBlocks, LocalFile, Fits, ExtentAt, FileOk;
    var g := vol.g;
    ghost var xs := Extents(vol.V(), g, entry);
    LocalParts(vol.V(), g, entry);
    DataBlocksAll(xs);
    base, ext := 0, Extent(0, 0);
    var n := 0;
    while n < entry.extentCount
      invariant n <= entry.extentCount && vol.Valid()
      invariant base == |DataBlocks(xs[..n])| * g.blockSize && base <= pos
    {
      var res;
      res, ext := GetExtent(vol, entry, n);
      assert ext == xs[n];
      var extBytes := ext.count * g.blockSize;
      DataBlocksStep(xs, n);
      SumTimes(|DataBlocks(xs[..n])|, ext.count, g.blockSize);
      if pos < base + extBytes {
        PositionInExtent(xs, g.blockSize, n, base, pos);
        InCapacity(pos, g.blockSize, |DataBlocks(xs)|);
        return true, base, ext;
      }
      base := base + extBytes;
      n := n + 1;
    }
    return false, base, ext;
  }

  lemma SumTimes(a: nat, b: nat, size: nat)
    ensures (a + b) * size == a * size + b * size
    ensures 0 <= b * size
  {
  }

  lemma InCapacity(pos: nat, size: nat, n: nat)
    requires size > 0 && pos / size < n
    ensures pos < n * size
  {
    DivFacts(pos, size);
    MulMono(pos / size + 1, n, size);
    assert (pos / size + 1) * size == pos / size * size + size;
  }

  /** Bytes pos.. of a file, inside one block, are bytes of the block that holds pos. */
  lemma BytesAt(v: seq<Block>, g: Geometry, e: Entry, pos: nat, chunk: nat)
    requires g.Valid() && ViewOk(v, g) && LocalFile(v, g, e) && g.blockSize > 0
    requires 0 <= pos / g.blockSize < |DataBlocks(Extents(v, g, e))|
    requires 0 <= pos % g.blockSize && pos % g.blockSize + chunk <= g.blockSize
    ensures var b := DataBlocks(Extents(v, g, e))[pos / g.blockSize];
            && g.dataStart <= b < g.totalBlocks && b < |v| && |v[b]| == g.blockSize
            && pos + chunk <= |FileBytes(v, g, e)|
            && FileBytes(v, g, e)[pos..pos + chunk] == v[b][pos % g.blockSize..pos % g.blockSize + chunk]
  {
    hide g.Valid, ViewOk, LocalFile, DataBlocks, Flat, Extents;
    LocalParts(v, g, e);
    var bl := DataBlocks(Extents(v, g, e));
    PickSize(v, g, bl);
    DivFacts(pos, g.blockSize);
    var q := pos / g.blockSize;
    FlatSlice(Pick(v, bl), g.blockSize, q, pos % g.blockSize, chunk);
    DataInView(v, g, bl[q]);
  }

  /** What a read of `length` bytes from `offset` on gives of the bytes p. */
  function ReadSlice(p: seq<byte>, offset: nat, length: nat): (out: seq<byte>)
    ensures |out| == if offset >= |p| then 0 else MinNat(length, |p| - offset)
    ensures forall k :: 0 <= k < |out| ==> out[k] == p[offset + k]
  {
    if offset >= |p| then [] else p[offset..MinNat(offset + length, |p|)]
  }

  /** One turn of the copy loop of vtx2_read: what one block holds of the bytes wanted. */
  method ReadChunk(vol: Volume, entry: Entry, pos: nat, remaining: nat) returns (piece: seq<byte>)
    requires vol.Valid() && vol.g.blockSize > 0 && LocalFile(vol.V(), vol.g, entry)
    requires 0 < remaining && pos + remaining <= |FileBytes(vol.V(), vol.g, entry)|
    requires |FileBytes(vol.V(), vol.g, entry)| == |DataBlocks(Extents(vol.V(), vol.g, entry))| * vol.g.blockSize
    modifies vol`scratch, vol`scratch2
    ensures vol.Valid() && 0 < |piece| <= remaining
    ensures piece == FileBytes(vol.V(), vol.g, entry)[pos..pos + |piece|]
  {
    hide vol.Valid, vol.V, vol.g.Valid, DataBlocks, LocalFile, Fits, FileBytes, Extents;
    var g := vol.g;
    var found, base, ext := FindExtent(vol, entry, pos);
    var local := pos - base;
    var blockInExtent, within := local / g.blockSize, local % g.blockSize;
    var diskBlock := ext.start + blockInExtent;
    var chunk := g.blockSize - within;
    if chunk > remaining {
      chunk := remaining;
    }
    Within(local, g.blockSize);
    VolumeView(vol);
    BytesAt(vol.V(), g, entry, pos, chunk);
    NotJournal(g, diskBlock);
    vol.Load(diskBlock);
    piece := vol.scratch[within..within + chunk];
  }

  /** The copy loop of vtx2_read. */
  method ReadBytes(vol: Volume, entry: Entry, offset: nat, length: nat) returns (out: seq<byte>)
    requires vol.Valid() && vol.g.blockSize > 0 && LocalFile(vol.V(), vol.g, entry)
    requires offset + length <= |FileBytes(vol.V(), vol.g, entry)|
    requires |FileBytes(vol.V(), vol.g, entry)| == |DataBlocks(Extents(vol.V(), vol.g, entry))| * vol.g.blockSize
    modifies vol`scratch, vol`scratch2
    ensures vol.Valid() && out == FileBytes(vol.V(), vol.g, entry)[offset..offset + length]
  {
    hide *;
    ghost var bytes := FileBytes(vol.V(), vol.g, entry);
    out := [];
    var remaining: nat, pos: nat := length, offset;
    while remaining > 0
      invariant vol.Valid() && offset <= pos && pos + remaining == offset + length
      invariant out == bytes[offset..pos]
    {
      var piece := ReadChunk(vol, entry, pos, remaining);
      out := out + piece;
      assert out == bytes[offset..pos + |piece|];
      pos := pos + |piece|;
      remaining := remaining - |piece|;
    }
  }

  /**
   * vtx2_read, with the number of bytes read as the length of `out`: exactly the file's bytes from
   * offset on, up to length and the end of the file.
   */
  method Read(vol: Volume, index: nat, offset: nat, length: nat) returns (res: FsResult, out: seq<byte>)
    requires vol.Valid() && vol.g.blockSize > 0 && IndexOk(vol.g, index)
    requires index < vol.g.Slots() && EntryAt(vol.V(), vol.g, index).kind == FILE ==>
               LocalFile(vol.V(), vol.g, EntryAt(vol.V(), vol.g, index))
    modifies vol`scratch, vol`scratch2
    ensures vol.Valid()
    ensures length == 0 ==> res == OK && out == []
    ensures length > 0 && index >= vol.g.capacity ==> res == ERR_INVALID && out == []
    ensures length > 0 && index < vol.g.capacity && EntryAt(vol.V(), vol.g, index).kind != FILE ==>
              res == ERR_IS_DIR && out == []
    ensures length > 0 && index < vol.g.capacity && EntryAt(vol.V(), vol.g, index).kind == FILE ==>
              var c := Content(vol.V(), vol.g, EntryAt(vol.V(), vol.g, index));
              |c| == EntryAt(vol.V(), vol.g, index).size && res == OK && out == ReadSlice(c, offset, length)
  {
    hide vol.Valid, vol.V, vol.g.Valid, DataBlocks, LocalFile, Fits, EntryAt, FileBytes, Extents, vol.g.Slots, Content;
    out := [];
    if length == 0 {
      return OK, [];
    }
    var entry;
    res, entry := ReadEntry(vol, index);
    if res != OK {
      return res, [];
    }
    if entry.kind != FILE {
      return ERR_IS_DIR, [];
    }
    SizeFits(vol, entry);
    ContentPrefix(vol.V(), vol.g, entry);
    if offset >= entry.size {
      return OK, [];
    }
    var effective := length;
    if offset + effective > entry.size {
      effective := entry.size - offset;
    }
    SliceSlice(FileBytes(vol.V(), vol.g, entry), 0, entry.size, offset, offset + effective);
    out := ReadBytes(vol, entry, offset, effective);
    return OK, out;
  }

  lemma ContentPrefix(v: seq<Block>, g: Geometry, e: Entry)
    requires e.size <= |FileBytes(v, g, e)|
    ensures Content(v, g, e) == FileBytes(v, g, e)[0..e.size] && |Content(v, g, e)| == e.size
  {
    hide FileBytes;
  }

  lemma NotJournal(g: Geometry, b: nat)
    requires g.Valid() && g.dataStart <= b
    ensures !g.InJournal(b)
  {
  }

  lemma Within(n: nat, size: nat)
    requires size > 0
    ensures 0 <= n % size < size && 0 <= n / size
  {
  }

  lemma SizeFits(vol: Volume, e: Entry)
    requires vol.Valid() && vol.g.blockSize > 0 && LocalFile(vol.V(), vol.g, e)
    ensures |FileBytes(vol.V(), vol.g, e)| == |DataBlocks(Extents(vol.V(), vol.g, e))| * vol.g.blockSize
    ensures e.size <= |FileBytes(vol.V(), vol.g, e)|
  {
    hide vol.Valid, vol.V, vol.g.Valid, DataBlocks, LocalFile, Fits, Extents, Flat;
    VolumeView(vol);
    LocalParts(vol.V(), vol.g, e);
    PickLength(vol.V(), vol.g, DataBlocks(Extents(vol.V(), vol.g, e)));
  }
}
