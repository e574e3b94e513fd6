/** The journal region as one flat byte array, and the blockwise helpers that write it. */
module JournalBytes {
  import opened Arith
  import opened Bytes
  import opened Layout

  function Flat(bl: seq<Block>): seq<byte> {
    if bl == [] then [] else bl[0] + Flat(bl[1..])
  }

  ghost predicate AllOfSize(bl: seq<Block>, size: nat) {
    forall i :: 0 <= i < |bl| ==> |bl[i]| == size
  }

  lemma {:induction false} FlatLength(bl: seq<Block>, size: nat)
    requires AllOfSize(bl, size)
    ensures |Flat(bl)| == |bl| * size
  {
    if bl != [] {
      FlatLength(bl[1..], size);
      assert (|bl| - 1) * size + size == |bl| * size;
    }
  }

  lemma ChunkInside(q: nat, r: nat, c: nat, n: nat, size: nat)
    requires q < n && r + c <= size
    ensures 0 <= q * size && q * size + r + c <= n * size
  {
    MulMono(q + 1, n, size);
    assert (q + 1) * size == q * size + size;
  }

  /** Bytes r..r+c of block q are bytes q*size+r.. of the flat array. */
  lemma {:induction false} FlatSlice(bl: seq<Block>, size: nat, q: nat, r: nat, c: nat)
    requires AllOfSize(bl, size) && q < |bl| && r + c <= size
    ensures 0 <= q * size && q * size + r + c <= |Flat(bl)|
    ensures Flat(bl)[q * size + r..q * size + r + c] == bl[q][r..r + c]
  {
    FlatLength(bl, size);
    ChunkInside(q, r, c, |bl|, size);
    if q > 0 {
      FlatSlice(bl[1..], size, q - 1, r, c);
      assert (q - 1) * size == q * size - size;
    }
  }

  lemma SpliceAfter(a: seq<byte>, b: seq<byte>, off: nat, data: seq<byte>)
    requires off + |data| <= |b|
    ensures a + Splice(b, off, data) == Splice(a + b, |a| + off, data)
  {
  }

  lemma SpliceBefore(a: seq<byte>, b: seq<byte>, off: nat, data: seq<byte>)
    requires off + |data| <= |a|
    ensures Splice(a, off, data) + b == Splice(a + b, off, data)
  {
  }

  /** Storing into block q is storing into the flat array at q*size+r. */
  lemma {:induction false} FlatSplice(bl: seq<Block>, size: nat, q: nat, r: nat, data: seq<byte>)
    requires AllOfSize(bl, size) && q < |bl| && r + |data| <= size
    ensures 0 <= q * size && q * size + r + |data| <= |Flat(bl)|
    ensures Flat(bl[q := Splice(bl[q], r, data)]) == Splice(Flat(bl), q * size + r, data)
  {
    hide Splice;
    FlatLength(bl, size);
    ChunkInside(q, r, |data|, |bl|, size);
    var rest := bl[1..];
    var x := Splice(bl[q], r, data);
    if q > 0 {
      assert (q - 1) * size == q * size - size;
      FlatSplice(rest, size, q - 1, r, data);
      assert bl[q := x][1..] == rest[q - 1 := x];
      SpliceAfter(bl[0], Flat(rest), (q - 1) * size + r, data);
    } else {
      assert bl[q := x][1..] == rest;
      SpliceBefore(bl[0], Flat(rest), r, data);
    }
  }

  /** The journal region of a device. */
  function Journal(d: seq<Block>, g: Geometry): seq<byte>
    requires g.journalStart + g.journalCount <= |d|
  {
    Flat(d[g.journalStart..g.journalStart + g.journalCount])
  }

  /** Everything but the journal region: the journal's blocks are masked out. */
  function View(d: seq<Block>, g: Geometry): (v: seq<Block>)
    ensures |v| == |d|
    ensures forall b :: 0 <= b < |d| && !g.InJournal(b) ==> v[b] == d[b]
  {
    seq(|d|, b requires 0 <= b < |d| => if g.InJournal(b) then [] else d[b])
  }

  lemma JournalLength(d: seq<Block>, g: Geometry)
    requires g.Valid() && DiskOk(d, g)
    ensures |Journal(d, g)| == g.JournalBytes()
  {
    FlatLength(d[g.journalStart..g.journalStart + g.journalCount], g.blockSize);
  }

  /** Position `off` of the log: which journal block, and where in it. */
  lemma Position(g: Geometry, off: nat)
    requires g.Valid() && off < g.JournalBytes()
    ensures 0 <= g.LogBlock(off) < g.journalCount && 0 <= g.LogByte(off) < g.blockSize
    ensures g.LogBlock(off) * g.blockSize + g.LogByte(off) == off
  {
    DivFacts(off, g.blockSize);
    var q := g.LogBlock(off);
    if q >= g.journalCount {
      MulMono(g.journalCount, q, g.blockSize);
      assert false;
    }
  }

  function Chunk(g: Geometry, off: nat, length: nat): (c: nat)
    requires g.blockSize > 0
    ensures c <= length
  {
    var room := g.blockSize - g.LogByte(off);
    if room > length then length else room
  }

  function ChunkWrite(d: seq<Block>, g: Geometry, off: nat, data: seq<byte>): Write
    requires g.Valid() && DiskOk(d, g)
    requires |data| > 0 && off + |data| <= g.JournalBytes()
  {
    Position(g, off);
    var b := g.journalStart + g.LogBlock(off);
    Write(b, Splice(d[b], g.LogByte(off), data[..Chunk(g, off, |data|)]))
  }

  /** The block writes vtx2_journal_write_bytes makes. */
  function ChunkWrites(d: seq<Block>, g: Geometry, off: nat, data: seq<byte>): seq<Write>
    requires g.Valid() && DiskOk(d, g)
    requires off + |data| <= g.JournalBytes()
    decreases |data|
  {
    if data == [] then []
    else
      var w := ChunkWrite(d, g, off, data);
      var c := Chunk(g, off, |data|);
      Position(g, off);
      [w] + ChunkWrites(Put(d, w.block, w.data), g, off + c, data[c..])
  }

  lemma PutHidden(d: seq<Block>, g: Geometry, b: nat, data: Block)
    requires g.InJournal(b)
    ensures View(Put(d, b, data), g) == View(d, g)
  {
  }

  function Region(d: seq<Block>, g: Geometry): seq<Block>
    requires g.journalStart + g.journalCount <= |d|
  {
    d[g.journalStart..g.journalStart + g.journalCount]
  }

  lemma PutRegion(d: seq<Block>, g: Geometry, q: nat, x: Block)
    requires g.journalStart + g.journalCount <= |d| && q < g.journalCount
    ensures Region(Put(d, g.journalStart + q, x), g) == Region(d, g)[q := x]
  {
  }

  lemma PutDiskOk(d: seq<Block>, g: Geometry, b: nat, x: Block)
    requires DiskOk(d, g) && |x| == g.blockSize
    ensures DiskOk(Put(d, b, x), g)
  {
  }

  lemma RegionOk(d: seq<Block>, g: Geometry)
    requires g.Valid() && DiskOk(d, g)
    ensures |d| >= g.totalBlocks && g.journalStart + g.journalCount <= |d|
    ensures |Region(d, g)| == g.journalCount && AllOfSize(Region(d, g), g.blockSize)
    ensures Journal(d, g) == Flat(Region(d, g))
  {
  }

  lemma RegionBlock(d: seq<Block>, g: Geometry, q: nat)
    requires g.Valid() && DiskOk(d, g) && q < g.journalCount
    ensures g.journalStart + q < |d| && |d[g.journalStart + q]| == g.blockSize
    ensures g.InJournal(g.journalStart + q)
    ensures Region(d, g)[q] == d[g.journalStart + q]
  {
  }

  lemma PutInJournal(d: seq<Block>, g: Geometry, q: nat, r: nat, part: seq<byte>)
    requires g.Valid() && DiskOk(d, g)
    requires q < g.journalCount && r + |part| <= g.blockSize
    ensures var b := g.journalStart + q;
            var d' := Put(d, b, Splice(d[b], r, part));
            && DiskOk(d', g)
            && 0 <= q * g.blockSize && q * g.blockSize + r + |part| <= |Journal(d, g)|
            && Journal(d', g) == Splice(Journal(d, g), q * g.blockSize + r, part)
  {
    hide *;
    RegionOk(d, g);
    RegionBlock(d, g, q);
    var b := g.journalStart + q;
    var x := Splice(d[b], r, part);
    PutDiskOk(d, g, b, x);
    FlatSplice(Region(d, g), g.blockSize, q, r, part);
    PutRegion(d, g, q, x);
    RegionOk(Put(d, b, x), g);
  }

  lemma ChunkShape(d: seq<Block>, g: Geometry, off: nat, data: seq<byte>)
    requires g.Valid() && DiskOk(d, g)
    requires |data| > 0 && off + |data| <= g.JournalBytes()
    ensures g.blockSize > 0
    ensures var c := Chunk(g, off, |data|);
            var q, r := g.LogBlock(off), g.LogByte(off);
            && 0 <= q < g.journalCount && 0 <= r && r + c <= g.blockSize
            && g.journalStart + q < |d|
            && r + c <= |d[g.journalStart + q]|
            && ChunkWrite(d, g, off, data)
               == Write(g.journalStart + q, Splice(d[g.journalStart + q], r, data[..c]))
  {
    Position(g, off);
    RegionBlock(d, g, g.LogBlock(off));
  }

  lemma ChunkIsSplice(d: seq<Block>, g: Geometry, off: nat, data: seq<byte>)
    requires g.Valid() && DiskOk(d, g)
    requires |data| > 0 && off + |data| <= g.JournalBytes()
    ensures var w := ChunkWrite(d, g, off, data);
            var d' := Put(d, w.block, w.data);
            var c := Chunk(g, off, |data|);
            && g.InJournal(w.block)
            && DiskOk(d', g)
            && View(d', g) == View(d, g)
            && off + c <= |Journal(d, g)|
            && Journal(d', g) == Splice(Journal(d, g), off, data[..c])
  {
    hide *;
    ChunkShape(d, g, off, data);
    Position(g, off);
    RegionBlock(d, g, g.LogBlock(off));
    var w := ChunkWrite(d, g, off, data);
    PutInJournal(d, g, g.LogBlock(off), g.LogByte(off), data[..Chunk(g, off, |data|)]);
    PutHidden(d, g, w.block, w.data);
  }
}
