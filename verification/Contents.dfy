/** A file's bytes: its blocks, gathered in extent order. */
module Contents {
  import opened Seqs
  import opened Arith
  import opened Bytes
  import opened Layout
  import opened JournalBytes
  import opened Bitmap
  import opened Entries
  import opened Files

  ghost function Pick(v: seq<Block>, bl: seq<nat>): (p: seq<Block>)
    ensures |p| == |bl|
  {
    seq(|bl|, i requires 0 <= i < |bl| => if bl[i] < |v| then v[bl[i]] else [])
  }

  /** All bytes the file's blocks hold, also past its size. */
  ghost function FileBytes(v: seq<Block>, g: Geometry, e: Entry): seq<byte> {
    Flat(Pick(v, DataBlocks(Extents(v, g, e))))
  }

  /** The file's contents. */
  ghost function Content(v: seq<Block>, g: Geometry, e: Entry): seq<byte> {
    if e.size <= |FileBytes(v, g, e)| then FileBytes(v, g, e)[..e.size] else []
  }

  ghost predicate AllData(g: Geometry, bl: seq<nat>) {
    forall p :: 0 <= p < |bl| ==> g.dataStart <= bl[p] < g.totalBlocks
  }

  lemma PickSize(v: seq<Block>, g: Geometry, bl: seq<nat>)
    requires g.Valid() && ViewOk(v, g) && AllData(g, bl)
    ensures AllOfSize(Pick(v, bl), g.blockSize)
  {
  }

  lemma PickLength(v: seq<Block>, g: Geometry, bl: seq<nat>)
    requires g.Valid() && ViewOk(v, g) && AllData(g, bl)
    ensures |Flat(Pick(v, bl))| == |bl| * g.blockSize
  {
    hide g.Valid, ViewOk, AllData, Pick;
    PickSize(v, g, bl);
    FlatLength(Pick(v, bl), g.blockSize);
  }

  lemma PickPut(v: seq<Block>, bl: seq<nat>, q: nat, x: Block)
    requires NoDup(bl) && q < |bl| && bl[q] < |v|
    ensures Pick(Put(v, bl[q], x), bl) == Pick(v, bl)[q := x]
  {
  }

  lemma PickOther(v: seq<Block>, v': seq<Block>, bl: seq<nat>)
    requires |v'| == |v| && forall p :: 0 <= p < |bl| && bl[p] < |v| ==> v'[bl[p]] == v[bl[p]]
    ensures Pick(v', bl) == Pick(v, bl)
  {
  }

  lemma PickConcat(v: seq<Block>, a: seq<nat>, b: seq<nat>)
    ensures Pick(v, a + b) == Pick(v, a) + Pick(v, b)
  {
  }

  lemma {:induction false} FlatConcat(a: seq<Block>, b: seq<Block>)
    ensures Flat(a + b) == Flat(a) + Flat(b)
  {
    if a == [] {
      assert a + b == b;
    } else {
      assert (a + b)[1..] == a[1..] + b;
      FlatConcat(a[1..], b);
    }
  }

  // ---- Where position pos of a file is ----

  lemma {:induction false} DataBlocksAt(xs: seq<Extent>, n: nat, j: nat)
    requires n < |xs| && j < xs[n].count
    ensures |DataBlocks(xs[..n])| + j < |DataBlocks(xs)|
    ensures DataBlocks(xs)[|DataBlocks(xs[..n])| + j] == xs[n].start + j
    decreases |xs|
  {
    if n < |xs| - 1 {
      var init := xs[..|xs| - 1];
      DataBlocksAt(init, n, j);
      assert init[..n] == xs[..n];
    }
  }

  lemma DataBlocksStep(xs: seq<Extent>, n: nat)
    requires n < |xs|
    ensures |DataBlocks(xs[..n + 1])| == |DataBlocks(xs[..n])| + xs[n].count
  {
    assert xs[..n + 1][..n] == xs[..n];
  }

  lemma DataBlocksAll(xs: seq<Extent>)
    ensures xs[..|xs|] == xs && DataBlocks(xs[..0]) == []
  {
  }

  lemma DataBlocksSnoc(xs: seq<Extent>, x: Extent)
    ensures DataBlocks(xs + [x]) == DataBlocks(xs) + Run(x.start, x.count)
  {
    hide Run;
    assert (xs + [x])[..|xs|] == xs;
  }

  /** Extent n, which starts at logical byte base, holds pos: its block for pos is the file's block pos / size. */
  lemma PositionInExtent(xs: seq<Extent>, size: nat, n: nat, base: nat, pos: nat)
    requires size > 0 && n < |xs| && base == |DataBlocks(xs[..n])| * size
    requires base <= pos < base + xs[n].count * size
    ensures 0 <= (pos - base) / size < xs[n].count
    ensures 0 <= pos / size < |DataBlocks(xs)|
    ensures DataBlocks(xs)[pos / size] == xs[n].start + (pos - base) / size
    ensures (pos - base) % size == pos % size
  {
    hide DataBlocks;
    var k := |DataBlocks(xs[..n])|;
    var q, r := (pos - base) / size, (pos - base) % size;
    DivFacts(pos - base, size);
    assert (k + q) * size == k * size + q * size;
    DivUnique(pos, size, k + q, r);
    if q >= xs[n].count {
      MulMono(xs[n].count, q, size);
      assert false;
    }
    DataBlocksAt(xs, n, q);
  }
}
