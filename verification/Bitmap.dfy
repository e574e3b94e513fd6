/** The block bitmap: which bit stands for which block, and what setting one does. */
module Bitmap {
  import opened Arith
  import opened Bytes
  import opened Layout
  import opened JournalBytes

  /** A view whose blocks all have the volume's block size (the masked journal aside). */
  ghost predicate ViewOk(v: seq<Block>, g: Geometry) {
    |v| >= g.totalBlocks && forall b :: 0 <= b < |v| && !g.InJournal(b) ==> |v[b]| == g.blockSize
  }

  lemma ViewIsOk(d: seq<Block>, g: Geometry)
    requires DiskOk(d, g)
    ensures ViewOk(View(d, g), g)
  {
  }

  lemma PutViewOk(v: seq<Block>, g: Geometry, b: nat, x: Block)
    requires ViewOk(v, g) && |x| == g.blockSize
    ensures ViewOk(Put(v, b, x), g)
  {
  }

  /** Block b's bit: the bitmap block, the byte in it, and b % 8. */
  function BitBlock(g: Geometry, b: nat): (q: nat)
    requires g.blockSize > 0
  {
    b / 8 / g.blockSize
  }

  function BitByte(g: Geometry, b: nat): (r: nat)
    requires g.blockSize > 0
  {
    b / 8 % g.blockSize
  }

  function BitmapBits(g: Geometry): nat {
    8 * (g.bitmapCount * g.blockSize)
  }

  ghost predicate Used(v: seq<Block>, g: Geometry, b: nat) {
    && g.blockSize > 0
    && g.bitmapStart + BitBlock(g, b) < |v|
    && BitByte(g, b) < |v[g.bitmapStart + BitBlock(g, b)]|
    && Bit(v[g.bitmapStart + BitBlock(g, b)][BitByte(g, b)], b % 8)
  }

  lemma BitBlockRange(g: Geometry, b: nat)
    requires g.blockSize > 0
    ensures BitByte(g, b) < g.blockSize
    ensures BitBlock(g, b) < g.bitmapCount <==> b < BitmapBits(g)
  {
    var n, size := b / 8, g.blockSize;
    DivFacts(n, size);
    var q := n / size;
    if q < g.bitmapCount {
      MulMono(q + 1, g.bitmapCount, size);
      assert (q + 1) * size == q * size + size;
    } else {
      MulMono(g.bitmapCount, q, size);
    }
  }

  lemma BitPlace(v: seq<Block>, g: Geometry, b: nat)
    requires g.Valid() && ViewOk(v, g) && b < BitmapBits(g)
    ensures g.blockSize > 0 && BitBlock(g, b) < g.bitmapCount && BitByte(g, b) < g.blockSize
    ensures var x := g.bitmapStart + BitBlock(g, b);
            x < |v| && x < g.dataStart && !g.InJournal(x) && |v[x]| == g.blockSize
  {
    hide BitBlock, BitByte, BitmapBits;
    BitBlockRange(g, b);
  }

  lemma BitPlaceUnique(g: Geometry, b: nat, c: nat)
    requires g.blockSize > 0
    requires BitBlock(g, b) == BitBlock(g, c) && BitByte(g, b) == BitByte(g, c) && b % 8 == c % 8
    ensures b == c
  {
    DivFacts(b / 8, g.blockSize);
    DivFacts(c / 8, g.blockSize);
  }

  /** The bitmap block with b's bit rewritten. */
  function BitImage(x: Block, g: Geometry, b: nat, on: bool): (y: Block)
    requires g.blockSize > 0 && BitByte(g, b) < |x|
    ensures |y| == |x|
  {
    x[BitByte(g, b) := PutBit(x[BitByte(g, b)], b % 8, on)]
  }

  ghost predicate OutsideBitmap(g: Geometry, x: nat) {
    x < g.bitmapStart || g.bitmapStart + g.bitmapCount <= x
  }

  /** v1 is v0 with the bits of `n` blocks from `start` on set or cleared, and nothing else changed. */
  ghost predicate Marked(v0: seq<Block>, v1: seq<Block>, g: Geometry, start: nat, n: nat, on: bool) {
    && |v1| == |v0| && ViewOk(v1, g)
    && (forall x :: 0 <= x < |v0| && OutsideBitmap(g, x) ==> v1[x] == v0[x])
    && (forall c :: 0 <= c < BitmapBits(g) ==>
          Used(v1, g, c) == if start <= c < start + n then on else Used(v0, g, c))
  }

  /** v1 is v0 but for bits of blocks in the range. */
  ghost predicate OnlyBits(v0: seq<Block>, v1: seq<Block>, g: Geometry, start: nat, n: nat) {
    && |v1| == |v0| && ViewOk(v1, g)
    && (forall x :: 0 <= x < |v0| && OutsideBitmap(g, x) ==> v1[x] == v0[x])
    && (forall c :: 0 <= c < BitmapBits(g) && !(start <= c < start + n) ==> Used(v1, g, c) == Used(v0, g, c))
  }

  lemma BitImageUsed(v: seq<Block>, g: Geometry, b: nat, on: bool, c: nat)
    requires g.Valid() && ViewOk(v, g) && b < BitmapBits(g) && c < BitmapBits(g) && g.blockSize > 0
    requires g.bitmapStart + BitBlock(g, b) < |v|
    requires BitByte(g, b) < |v[g.bitmapStart + BitBlock(g, b)]|
    ensures var x := g.bitmapStart + BitBlock(g, b);
            Used(Put(v, x, BitImage(v[x], g, b, on)), g, c) == if c == b then on else Used(v, g, c)
  {
    hide BitBlock, BitByte, BitmapBits, g.Valid, ViewOk, PutBit, Bit;
    BitPlace(v, g, b);
    BitPlace(v, g, c);
    var x := g.bitmapStart + BitBlock(g, b);
    PutBitOf(v[x][BitByte(g, b)], b % 8, on, c % 8);
    if BitBlock(g, b) == BitBlock(g, c) && BitByte(g, b) == BitByte(g, c) && b % 8 == c % 8 {
      BitPlaceUnique(g, b, c);
    }
  }

  /** One bit rewritten in place. */
  lemma MarkOne(v: seq<Block>, g: Geometry, b: nat, on: bool)
    requires g.Valid() && ViewOk(v, g) && b < BitmapBits(g) && g.blockSize > 0
    requires g.bitmapStart + BitBlock(g, b) < |v|
    requires BitByte(g, b) < |v[g.bitmapStart + BitBlock(g, b)]|
    ensures var x := g.bitmapStart + BitBlock(g, b);
            Marked(v, Put(v, x, BitImage(v[x], g, b, on)), g, b, 1, on)
  {
    hide BitBlock, BitByte, BitmapBits, g.Valid, ViewOk, Used, BitImage;
    BitPlace(v, g, b);
    var x := g.bitmapStart + BitBlock(g, b);
    var v' := Put(v, x, BitImage(v[x], g, b, on));
    PutViewOk(v, g, x, BitImage(v[x], g, b, on));
    forall c | 0 <= c < BitmapBits(g)
      ensures Used(v', g, c) == if b <= c < b + 1 then on else Used(v, g, c)
    {
      BitImageUsed(v, g, b, on, c);
    }
    assert Marked(v, v', g, b, 1, on);
  }

  lemma MarkNext(v0: seq<Block>, v1: seq<Block>, v2: seq<Block>, g: Geometry, start: nat, n: nat, on: bool)
    requires Marked(v0, v1, g, start, n, on) && Marked(v1, v2, g, start + n, 1, on)
    ensures Marked(v0, v2, g, start, n + 1, on)
  {
    hide Used, ViewOk, BitmapBits;
  }

  lemma MarkedNothing(v: seq<Block>, g: Geometry, start: nat, on: bool)
    requires ViewOk(v, g)
    ensures Marked(v, v, g, start, 0, on)
  {
    hide Used, ViewOk, BitmapBits;
  }

  lemma MarkedOnlyBits(v0: seq<Block>, v1: seq<Block>, g: Geometry, start: nat, n: nat, k: nat, on: bool)
    requires Marked(v0, v1, g, start, n, on) && n <= k
    ensures OnlyBits(v0, v1, g, start, k)
  {
    hide Used, ViewOk, BitmapBits;
  }

  lemma OnlyBitsTrans(v0: seq<Block>, v1: seq<Block>, v2: seq<Block>, g: Geometry, start: nat, n: nat)
    requires OnlyBits(v0, v1, g, start, n) && OnlyBits(v1, v2, g, start, n)
    ensures OnlyBits(v0, v2, g, start, n)
  {
    hide Used, ViewOk, BitmapBits;
  }

  // ---- First fit ----

  ghost predicate FreeRun(v: seq<Block>, g: Geometry, start: nat, n: nat) {
    forall c :: start <= c < start + n ==> !Used(v, g, c)
  }

  /** start is the least place in the data area where n blocks in a row are free. */
  ghost predicate FirstFit(v: seq<Block>, g: Geometry, start: nat, n: nat) {
    && g.dataStart <= start && start + n <= g.totalBlocks && FreeRun(v, g, start, n)
    && forall s :: g.dataStart <= s < start ==> !FreeRun(v, g, s, n)
  }

  ghost predicate NoFit(v: seq<Block>, g: Geometry, n: nat) {
    forall s :: g.dataStart <= s && s + n <= g.totalBlocks ==> !FreeRun(v, g, s, n)
  }

  // ---- Counting free blocks ----

  ghost function FreeSet(v: seq<Block>, g: Geometry): set<nat> {
    set b: nat | g.dataStart <= b < g.totalBlocks && !Used(v, g, b)
  }

  ghost function RangeSet(start: nat, n: nat): (r: set<nat>)
    ensures forall b: nat :: b in r <==> start <= b < start + n
    ensures |r| == n
  {
    if n == 0 then {} else RangeSet(start, n - 1) + {start + n - 1}
  }

  lemma TotalInBitmap(g: Geometry)
    requires g.Valid()
    ensures g.totalBlocks <= BitmapBits(g) && g.blockSize > 0
  {
  }

  /** Allocating a free run takes exactly its length from the free count. */
  lemma AllocCount(v0: seq<Block>, v1: seq<Block>, g: Geometry, start: nat, n: nat)
    requires g.Valid() && Marked(v0, v1, g, start, n, true)
    requires FreeRun(v0, g, start, n) && g.dataStart <= start && start + n <= g.totalBlocks
    ensures |FreeSet(v1, g)| == |FreeSet(v0, g)| - n && n <= |FreeSet(v0, g)|
  {
    hide Used, BitmapBits, ViewOk;
    TotalInBitmap(g);
    var r := RangeSet(start, n);
    assert FreeSet(v1, g) == FreeSet(v0, g) - r;
    assert r <= FreeSet(v0, g);
  }

  /** Freeing a run of used blocks gives exactly its length back. */
  lemma FreeingCount(v0: seq<Block>, v1: seq<Block>, g: Geometry, start: nat, n: nat)
    requires g.Valid() && Marked(v0, v1, g, start, n, false)
    requires forall c :: start <= c < start + n ==> Used(v0, g, c)
    requires g.dataStart <= start && start + n <= g.totalBlocks
    ensures |FreeSet(v1, g)| == |FreeSet(v0, g)| + n
  {
    hide Used, BitmapBits, ViewOk;
    TotalInBitmap(g);
    var r := RangeSet(start, n);
    assert FreeSet(v1, g) == FreeSet(v0, g) + r;
    assert r !! FreeSet(v0, g);
  }
}
