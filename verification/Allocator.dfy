/** The first-fit block allocator over the journaled bitmap. */
module Allocator {
  import opened Bytes
  import opened Layout
  import opened Bitmap
  import opened Volumes

  datatype FsResult =
    | OK | ERR_NOT_FORMATTED | ERR_NO_SPACE | ERR_NOT_FOUND | ERR_EXISTS | ERR_NOT_DIR | ERR_IS_DIR
    | ERR_NAME_TOO_LONG | ERR_INVALID | ERR_NOT_EMPTY | ERR_IO

  lemma VolumeView(vol: Volume)
    requires vol.Valid()
    ensures ViewOk(vol.V(), vol.g) && vol.g.Valid() && 512 <= vol.g.blockSize
    ensures |vol.scratch| == vol.g.blockSize && |vol.scratch2| == vol.g.blockSize
    ensures |vol.history| == |vol.steps| + 1 && vol.history[|vol.steps|] == vol.V()
  {
    hide *;
    vol.ValidParts();
    ViewIsOk(vol.dev.blocks, vol.g);
  }

  /** vtx2_bitmap_set. */
  method BitmapSet(vol: Volume, b: nat, used: bool) returns (res: FsResult)
    requires vol.Valid()
    modifies vol, vol.dev
    ensures vol.Valid() && vol.Continues() && vol.freeHint == old(vol.freeHint)
    ensures res == if b < BitmapBits(vol.g) then OK else ERR_INVALID
    ensures res == OK ==> Marked(old(vol.V()), vol.V(), vol.g, b, 1, used)
                          && vol.history == old(vol.history) + [vol.V()]
    ensures res != OK ==> vol.V() == old(vol.V()) && vol.history == old(vol.history)
  {
    hide vol.Valid, vol.V, vol.g.Valid, Marked, ViewOk, BitmapBits, BitBlock, BitByte, PutBit;
    VolumeView(vol);
    BitBlockRange(vol.g, b);
    var g := vol.g;
    var bitmapBlock, byteInBlock := BitBlock(g, b), BitByte(g, b);
    if bitmapBlock >= g.bitmapCount {
      return ERR_INVALID;
    }
    BitPlace(vol.V(), g, b);
    MarkOne(vol.V(), g, b, used);
    vol.Load(g.bitmapStart + bitmapBlock);
    vol.SetScratch(vol.scratch[byteInBlock := PutBit(vol.scratch[byteInBlock], b % 8, used)]);
    vol.JournalWriteTransaction(g.bitmapStart + bitmapBlock);
    return OK;
  }

  /** The session went through one state for each bit: every one has one bit more rewritten. */
  ghost predicate BitByBit(vol: Volume, from: nat, v: seq<Block>, start: nat, count: nat, used: bool)
    reads vol
  {
    && |vol.history| == from + count
    && forall k :: from <= k < |vol.history| ==> Marked(v, vol.history[k], vol.g, start, k - from + 1, used)
  }

  /** The bits of `count` blocks from `start` on are rewritten one transaction at a time. */
  method MarkRun(vol: Volume, start: nat, count: nat, used: bool) returns (res: FsResult)
    requires vol.Valid() && start + count <= BitmapBits(vol.g)
    modifies vol, vol.dev
    ensures vol.Valid() && vol.Continues() && vol.freeHint == old(vol.freeHint)
    ensures res == OK && Marked(old(vol.V()), vol.V(), vol.g, start, count, used)
    ensures forall k :: |old(vol.history)| <= k < |vol.history| ==>
              OnlyBits(old(vol.V()), vol.history[k], vol.g, start, count)
    ensures BitByBit(vol, |old(vol.history)|, old(vol.V()), start, count, used)
  {
    hide vol.Valid, vol.V, vol.g.Valid, Marked, ViewOk, BitmapBits, OnlyBits;
    VolumeView(vol);
    MarkedNothing(vol.V(), vol.g, start, used);
    var i := 0;
    while i < count
      invariant i <= count
      invariant vol.Valid() && vol.Continues() && vol.freeHint == old(vol.freeHint)
      invariant Marked(old(vol.V()), vol.V(), vol.g, start, i, used)
      invariant forall k :: |old(vol.history)| <= k < |vol.history| ==>
                  OnlyBits(old(vol.V()), vol.history[k], vol.g, start, count)
      invariant BitByBit(vol, |old(vol.history)|, old(vol.V()), start, i, used)
    {
      ghost var v1 := vol.V();
      res := BitmapSet(vol, start + i, used);
      MarkNext(old(vol.V()), v1, vol.V(), vol.g, start, i, used);
      MarkedOnlyBits(old(vol.V()), vol.V(), vol.g, start, i + 1, count, used);
      i := i + 1;
    }
    res := OK;
  }

  // ---- The scan ----

  /** The cache of the scan: scratch holds bitmap block `loaded`, if any. */
  ghost predicate Cached(v: seq<Block>, g: Geometry, scratch: Block, loaded: int) {
    loaded >= 0 ==> loaded < g.bitmapCount && g.bitmapStart + loaded < |v| && scratch == v[g.bitmapStart + loaded]
  }

  lemma CacheReads(v: seq<Block>, g: Geometry, scratch: Block, b: nat)
    requires g.Valid() && ViewOk(v, g) && b < g.totalBlocks && g.blockSize > 0
    requires Cached(v, g, scratch, BitBlock(g, b))
    ensures BitByte(g, b) < |scratch|
    ensures Bit(scratch[BitByte(g, b)], b % 8) == Used(v, g, b)
  {
    hide g.Valid, ViewOk, BitBlock, BitByte, BitmapBits, Bit;
    TotalInBitmap(g);
    BitPlace(v, g, b);
  }

  /** The scan has reached b: [b - n, b) is the free run it is in, and no run of `count` fits below b. */
  ghost predicate Scanned(v: seq<Block>, g: Geometry, count: nat, b: nat, n: nat) {
    && g.dataStart + n <= b
    && FreeRun(v, g, b - n, n)
    && (b - n == g.dataStart || Used(v, g, b - n - 1))
    && (forall s :: g.dataStart <= s && s + count <= b ==> !FreeRun(v, g, s, count))
  }

  lemma ScanStart(v: seq<Block>, g: Geometry, count: nat)
    requires count > 0
    ensures Scanned(v, g, count, g.dataStart, 0)
  {
    hide Used;
  }

  lemma ScanUsed(v: seq<Block>, g: Geometry, count: nat, b: nat, n: nat)
    requires Scanned(v, g, count, b, n) && Used(v, g, b) && count > 0
    ensures Scanned(v, g, count, b + 1, 0)
  {
    hide Used, FreeRun;
    forall s | g.dataStart <= s && s + count <= b + 1 ensures !FreeRun(v, g, s, count) {
      if s + count == b + 1 {
        RunHas(v, g, s, count, b);
      }
    }
    EmptyRun(v, g, b + 1);
  }

  lemma RunHas(v: seq<Block>, g: Geometry, s: nat, n: nat, c: nat)
    requires s <= c < s + n
    ensures FreeRun(v, g, s, n) ==> !Used(v, g, c)
  {
    hide Used;
  }

  lemma EmptyRun(v: seq<Block>, g: Geometry, s: nat)
    ensures FreeRun(v, g, s, 0)
  {
  }

  lemma RunGrows(v: seq<Block>, g: Geometry, s: nat, n: nat)
    requires FreeRun(v, g, s, n) && !Used(v, g, s + n)
    ensures FreeRun(v, g, s, n + 1)
  {
    hide Used;
  }

  lemma ScanFree(v: seq<Block>, g: Geometry, count: nat, b: nat, n: nat)
    requires Scanned(v, g, count, b, n) && !Used(v, g, b) && n + 1 < count
    ensures Scanned(v, g, count, b + 1, n + 1)
  {
    hide Used, FreeRun;
    RunGrows(v, g, b - n, n);
    forall s | g.dataStart <= s && s + count <= b + 1 ensures !FreeRun(v, g, s, count) {
      if s + count == b + 1 {
        RunHas(v, g, s, count, b - n - 1);
      }
    }
  }

  lemma ScanFound(v: seq<Block>, g: Geometry, count: nat, b: nat, n: nat)
    requires Scanned(v, g, count, b, n) && !Used(v, g, b) && n + 1 == count && b < g.totalBlocks
    ensures FirstFit(v, g, b - n, count)
  {
    hide Used, FreeRun;
    RunGrows(v, g, b - n, n);
  }

  lemma ScanEnd(v: seq<Block>, g: Geometry, count: nat, n: nat)
    requires Scanned(v, g, count, g.totalBlocks, n)
    ensures NoFit(v, g, count)
  {
    hide Used, FreeRun;
  }

  lemma GeometryOrder(g: Geometry)
    requires g.Valid()
    ensures g.dataStart <= g.totalBlocks <= BitmapBits(g) && g.blockSize > 0
  {
  }

  /** vtx2_alloc_blocks: first fit, exactly those bits, and NO_SPACE exactly when nothing fits. */
  method AllocBlocks(vol: Volume, count: nat) returns (res: FsResult, start: nat)
    requires vol.Valid()
    modifies vol, vol.dev
    ensures vol.Valid() && vol.Continues()
    ensures res == OK || res == ERR_INVALID || res == ERR_NO_SPACE
    ensures res == ERR_INVALID <==> count == 0
    ensures res == OK ==>
              && FirstFit(old(vol.V()), vol.g, start, count)
              && Marked(old(vol.V()), vol.V(), vol.g, start, count, true)
              && vol.freeHint == if old(vol.freeHint) >= count then old(vol.freeHint) - count else old(vol.freeHint)
    ensures res == ERR_NO_SPACE ==> NoFit(old(vol.V()), vol.g, count)
    ensures res != OK ==> vol.V() == old(vol.V()) && vol.history == old(vol.history)
                          && vol.freeHint == old(vol.freeHint)
    ensures res == OK ==> forall k :: |old(vol.history)| <= k < |vol.history| ==>
              OnlyBits(old(vol.V()), vol.history[k], vol.g, start, count)
  {
    hide vol.Valid, vol.V, vol.g.Valid, Marked, ViewOk, BitmapBits, OnlyBits, BitBlock, BitByte, Scanned, Cached,
         FirstFit, NoFit, Used, Bit;
    VolumeView(vol);
    start := 0;
    if count == 0 {
      return ERR_INVALID, 0;
    }
    var g := vol.g;
    ghost var v := vol.V();
    GeometryOrder(g);
    ScanStart(v, g, count);
    NotCached(v, g, vol.scratch);
    var runStart: nat, runLen: nat := 0, 0;
    var loaded: int := -1;
    var b: nat := g.dataStart;
    while b < g.totalBlocks
      invariant g.dataStart <= b <= g.totalBlocks && runLen < count
      invariant vol.Valid() && vol.V() == v && vol.history == old(vol.history) && vol.Continues()
      invariant vol.freeHint == old(vol.freeHint)
      invariant Scanned(v, g, count, b, runLen)
      invariant runLen > 0 ==> runStart == b - runLen
      invariant Cached(v, g, vol.scratch, loaded)
    {
      var bitmapBlock, byteInBlock := BitBlock(g, b), BitByte(g, b);
      if bitmapBlock != loaded {
        BitPlace(v, g, b);
        vol.Load(g.bitmapStart + bitmapBlock);
        loaded := bitmapBlock;
        NowCached(v, g, vol.scratch, loaded);
      }
      CacheReads(v, g, vol.scratch, b);
      ScanBounds(v, g, count, b, runLen);
      if !Bit(vol.scratch[byteInBlock], b % 8) {
        if runLen == 0 {
          runStart := b;
        }
        runLen := runLen + 1;
        if runLen == count {
          ScanFound(v, g, count, b, runLen - 1);
          res := MarkRun(vol, runStart, count, true);
          start := runStart;
          if vol.freeHint >= count {
            vol.SetFreeHint(vol.freeHint - count);
          }
          return res, start;
        }
        ScanFree(v, g, count, b, runLen - 1);
      } else {
        runLen := 0;
        ScanUsedFrom(v, g, count, b);
      }
      b := b + 1;
    }
    ScanEnd(v, g, count, runLen);
    return ERR_NO_SPACE, 0;
  }

  lemma NotCached(v: seq<Block>, g: Geometry, scratch: Block)
    ensures Cached(v, g, scratch, -1)
  {
  }

  lemma NowCached(v: seq<Block>, g: Geometry, scratch: Block, q: nat)
    requires q < g.bitmapCount && g.bitmapStart + q < |v| && scratch == v[g.bitmapStart + q]
    ensures Cached(v, g, scratch, q)
  {
  }

  lemma ScanBounds(v: seq<Block>, g: Geometry, count: nat, b: nat, n: nat)
    requires Scanned(v, g, count, b, n)
    ensures g.dataStart + n <= b
  {
    hide Used, FreeRun;
  }

  lemma ScanUsedFrom(v: seq<Block>, g: Geometry, count: nat, b: nat)
    requires count > 0 && Used(v, g, b) && exists n: nat :: Scanned(v, g, count, b, n)
    ensures Scanned(v, g, count, b + 1, 0)
  {
    hide Used, FreeRun, Scanned;
    var n: nat :| Scanned(v, g, count, b, n);
    ScanUsed(v, g, count, b, n);
  }

  /** vtx2_free_blocks. */
  method FreeBlocks(vol: Volume, start: nat, count: nat) returns (res: FsResult)
    requires vol.Valid() && start + count <= BitmapBits(vol.g)
    modifies vol, vol.dev
    ensures vol.Valid() && vol.Continues()
    ensures res == OK && Marked(old(vol.V()), vol.V(), vol.g, start, count, false)
    ensures vol.freeHint == old(vol.freeHint) + count
    ensures forall k :: |old(vol.history)| <= k < |vol.history| ==>
              OnlyBits(old(vol.V()), vol.history[k], vol.g, start, count)
    ensures BitByBit(vol, |old(vol.history)|, old(vol.V()), start, count, false)
  {
    hide vol.Valid, vol.V, vol.g.Valid, Marked, BitmapBits, OnlyBits;
    res := MarkRun(vol, start, count, false);
    vol.SetFreeHint(vol.freeHint + count);
  }
}
