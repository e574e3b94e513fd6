/** What every prefix of the log writes leaves behind: an aligned prefix of the bytes being logged. */
module JournalStream {
  import opened Arith
  import opened Bytes
  import opened Layout
  import opened JournalBytes

  /** A device seen as the log's bytes and everything else. */
  datatype Image = Image(view: seq<Block>, log: seq<byte>)

  function ImageOf(d: seq<Block>, g: Geometry): Image
    requires g.Valid() && DiskOk(d, g)
  {
    Image(View(d, g), Journal(d, g))
  }

  function Logged(im: Image, off: nat, data: seq<byte>): Image {
    if off + |data| <= |im.log| then im.(log := Splice(im.log, off, data)) else im
  }

  lemma LoggedTwice(im: Image, off: nat, a: seq<byte>, b: seq<byte>)
    requires off + |a| + |b| <= |im.log|
    ensures Logged(Logged(im, off, a), off + |a|, b) == Logged(im, off, a + b)
  {
    SpliceSplice(im.log, off, a, b);
  }

  lemma LoggedNothing(im: Image, off: nat)
    ensures Logged(im, off, []) == im
  {
    if off <= |im.log| {
      assert Splice(im.log, off, []) == im.log;
    }
  }

  /** d' is d with the first n bytes of data logged at off, n a multiple of 8. */
  ghost predicate Streamed(d: seq<Block>, d': seq<Block>, g: Geometry, off: nat, data: seq<byte>, n: nat)
    requires g.Valid() && DiskOk(d, g)
  {
    && DiskOk(d', g)
    && n <= |data| && n % 8 == 0
    && off + |data| <= |ImageOf(d, g).log|
    && ImageOf(d', g) == Logged(ImageOf(d, g), off, data[..n])
  }

  /** After the first m of the writes ws, some aligned prefix of data is logged. */
  ghost predicate CutShort(d: seq<Block>, g: Geometry, ws: seq<Write>, m: nat, off: nat, data: seq<byte>)
    requires g.Valid() && DiskOk(d, g) && m <= |ws|
  {
    exists n: nat :: Streamed(d, Apply(d, ws[..m]), g, off, data, n)
  }

  /** However many of the writes ws reach the device, an aligned prefix of data is logged. */
  ghost predicate Streams(d: seq<Block>, g: Geometry, ws: seq<Write>, off: nat, data: seq<byte>)
    requires g.Valid() && DiskOk(d, g)
  {
    && (forall m :: 0 <= m <= |ws| ==> CutShort(d, g, ws, m, off, data))
    && Streamed(d, Apply(d, ws), g, off, data, |data|)
  }

  lemma StreamsEmpty(d: seq<Block>, g: Geometry, off: nat)
    requires g.Valid() && DiskOk(d, g) && off <= |ImageOf(d, g).log|
    ensures Streams(d, g, [], off, [])
  {
    hide ImageOf, g.Valid, DiskOk;
    var e: seq<byte> := [];
    LoggedNothing(ImageOf(d, g), off);
    assert e[..0] == e;
    assert Streamed(d, Apply(d, []), g, off, e, 0);
    var ws: seq<Write> := [];
    forall m | 0 <= m <= |ws| ensures CutShort(d, g, ws, m, off, e) {
      assert ws[..m] == [];
    }
  }

  lemma StreamedTrans(d: seq<Block>, d1: seq<Block>, d2: seq<Block>, g: Geometry, off: nat,
                      a: seq<byte>, b: seq<byte>, n: nat)
    requires g.Valid() && DiskOk(d, g)
    requires Streamed(d, d1, g, off, a, |a|)
    requires Streamed(d1, d2, g, off + |a|, b, n)
    ensures Streamed(d, d2, g, off, a + b, |a| + n)
  {
    hide ImageOf, g.Valid, DiskOk;
    assert a[..|a|] == a;
    assert (a + b)[..|a| + n] == a + b[..n];
    LoggedTwice(ImageOf(d, g), off, a, b[..n]);
  }

  lemma StreamedExtend(d: seq<Block>, d': seq<Block>, g: Geometry, off: nat, a: seq<byte>, b: seq<byte>, n: nat)
    requires g.Valid() && DiskOk(d, g)
    requires Streamed(d, d', g, off, a, n)
    requires off + |a| + |b| <= |ImageOf(d, g).log|
    ensures Streamed(d, d', g, off, a + b, n)
  {
    hide ImageOf, g.Valid, DiskOk, Logged;
    assert (a + b)[..n] == a[..n];
  }

  lemma StreamsConcatPrefix(d: seq<Block>, g: Geometry, ws1: seq<Write>, ws2: seq<Write>, off: nat,
                            a: seq<byte>, b: seq<byte>, m: nat) returns (n: nat)
    requires g.Valid() && DiskOk(d, g)
    requires Streams(d, g, ws1, off, a)
    requires DiskOk(Apply(d, ws1), g) && Streams(Apply(d, ws1), g, ws2, off + |a|, b)
    requires m <= |ws1 + ws2|
    ensures Streamed(d, Apply(d, (ws1 + ws2)[..m]), g, off, a + b, n)
  {
    hide ImageOf, g.Valid, DiskOk;
    var d1 := Apply(d, ws1);
    assert Streamed(d, d1, g, off, a, |a|);
    assert Streamed(d1, Apply(d1, ws2), g, off + |a|, b, |b|);
    if m <= |ws1| {
      assert (ws1 + ws2)[..m] == ws1[..m];
      assert CutShort(d, g, ws1, m, off, a);
      n :| Streamed(d, Apply(d, ws1[..m]), g, off, a, n);
      StreamedExtend(d, Apply(d, ws1[..m]), g, off, a, b, n);
    } else {
      var k := m - |ws1|;
      assert (ws1 + ws2)[..m] == ws1 + ws2[..k];
      ApplyConcat(d, ws1, ws2[..k]);
      assert CutShort(d1, g, ws2, k, off + |a|, b);
      n :| Streamed(d1, Apply(d1, ws2[..k]), g, off + |a|, b, n);
      StreamedTrans(d, d1, Apply(d1, ws2[..k]), g, off, a, b, n);
      n := |a| + n;
    }
  }

  lemma StreamsConcat(d: seq<Block>, g: Geometry, ws1: seq<Write>, ws2: seq<Write>, off: nat,
                      a: seq<byte>, b: seq<byte>)
    requires g.Valid() && DiskOk(d, g)
    requires Streams(d, g, ws1, off, a)
    requires DiskOk(Apply(d, ws1), g) && Streams(Apply(d, ws1), g, ws2, off + |a|, b)
    ensures Streams(d, g, ws1 + ws2, off, a + b)
  {
    hide ImageOf, g.Valid, DiskOk, Streamed;
    forall m | 0 <= m <= |ws1 + ws2|
      ensures CutShort(d, g, ws1 + ws2, m, off, a + b)
    {
      var n := StreamsConcatPrefix(d, g, ws1, ws2, off, a, b, m);
    }
    ApplyConcat(d, ws1, ws2);
    StreamedTrans(d, Apply(d, ws1), Apply(d, ws1 + ws2), g, off, a, b, |b|);
    assert Streamed(d, Apply(d, ws1 + ws2), g, off, a + b, |a + b|);
  }

  lemma AlignedRemainder(off: nat, size: nat)
    requires size > 0 && size % 8 == 0 && off % 8 == 0
    ensures (off % size) % 8 == 0
  {
    DivFacts(off, size);
    var k, q := size / 8, off / size;
    assert q * (8 * k) == 8 * (q * k);
    assert off % size == 8 * (off / 8 - q * k);
  }

  lemma RoomAligned(size: nat, r: nat)
    requires size % 8 == 0 && r % 8 == 0 && r < size
    ensures (size - r) % 8 == 0
  {
    var a, b := size / 8, r / 8;
    assert size - r == 8 * (a - b);
  }

  lemma ChunkAligned(g: Geometry, off: nat, length: nat)
    requires g.blockSize > 0 && g.blockSize % 8 == 0 && 0 < length && off % 8 == 0 && length % 8 == 0
    ensures Chunk(g, off, length) % 8 == 0 && Chunk(g, off, length) > 0
  {
    AlignedRemainder(off, g.blockSize);
    DivFacts(off, g.blockSize);
    RoomAligned(g.blockSize, off % g.blockSize);
  }

  lemma BlockSizeOk(g: Geometry)
    requires g.Valid()
    ensures ValidBlockSize(g.blockSize) && g.blockSize >= 512 && g.blockSize % 8 == 0
  {
    BlockSizeFacts(g.blockSize);
  }

  lemma ChunkIsLogged(d: seq<Block>, g: Geometry, off: nat, data: seq<byte>)
    requires g.Valid() && DiskOk(d, g)
    requires |data| > 0 && off + |data| <= g.JournalBytes()
    ensures var w := ChunkWrite(d, g, off, data);
            var d' := Put(d, w.block, w.data);
            && DiskOk(d', g)
            && off + |data| <= |ImageOf(d, g).log|
            && ImageOf(d', g) == Logged(ImageOf(d, g), off, data[..Chunk(g, off, |data|)])
  {
    JournalLength(d, g);
    ChunkIsSplice(d, g, off, data);
  }

  lemma ApplyOne(d: seq<Block>, w: Write)
    ensures Apply(d, [w]) == Put(d, w.block, w.data)
    ensures Apply(d, []) == d
  {
  }

  lemma StreamsOne(d: seq<Block>, g: Geometry, w: Write, off: nat, part: seq<byte>)
    requires g.Valid() && DiskOk(d, g)
    requires |part| % 8 == 0 && off + |part| <= |ImageOf(d, g).log|
    requires DiskOk(Put(d, w.block, w.data), g)
    requires ImageOf(Put(d, w.block, w.data), g) == Logged(ImageOf(d, g), off, part)
    ensures Streams(d, g, [w], off, part)
  {
    hide ImageOf, g.Valid, DiskOk, Put, Logged;
    ApplyOne(d, w);
    assert part[..|part|] == part;
    assert Streamed(d, Put(d, w.block, w.data), g, off, part, |part|);
    LoggedNothing(ImageOf(d, g), off);
    assert part[..0] == [];
    assert Streamed(d, d, g, off, part, 0);
    var ws := [w];
    forall m | 0 <= m <= |ws| ensures CutShort(d, g, ws, m, off, part) {
      assert ws[..m] == if m == 0 then [] else ws;
      if m == 0 {
        assert Streamed(d, Apply(d, ws[..m]), g, off, part, 0);
      } else {
        assert Streamed(d, Apply(d, ws[..m]), g, off, part, |part|);
      }
    }
    assert Streamed(d, Apply(d, ws), g, off, part, |part|);
    assert Streams(d, g, ws, off, part);
  }

  lemma StreamsStep(d: seq<Block>, g: Geometry, off: nat, data: seq<byte>, rest: seq<Write>)
    requires g.Valid() && DiskOk(d, g)
    requires |data| > 0 && off + |data| <= g.JournalBytes() && off % 8 == 0 && |data| % 8 == 0
    requires var w := ChunkWrite(d, g, off, data);
             var d' := Put(d, w.block, w.data);
             var c := Chunk(g, off, |data|);
             c % 8 == 0 && DiskOk(d', g) && Streams(d', g, rest, off + c, data[c..])
    ensures Streams(d, g, [ChunkWrite(d, g, off, data)] + rest, off, data)
  {
    hide *;
    BlockSizeOk(g);
    ChunkIsLogged(d, g, off, data);
    var w := ChunkWrite(d, g, off, data);
    var c := Chunk(g, off, |data|);
    StreamsOne(d, g, w, off, data[..c]);
    ApplyOne(d, w);
    StreamsConcat(d, g, [w], rest, off, data[..c], data[c..]);
    assert data[..c] + data[c..] == data;
  }

  lemma ChunkWritesUnfold(d: seq<Block>, g: Geometry, off: nat, data: seq<byte>)
    requires g.Valid() && DiskOk(d, g)
    requires |data| > 0 && off + |data| <= g.JournalBytes()
    ensures var w := ChunkWrite(d, g, off, data);
            var d' := Put(d, w.block, w.data);
            var c := Chunk(g, off, |data|);
            && DiskOk(d', g)
            && ChunkWrites(d, g, off, data) == [w] + ChunkWrites(d', g, off + c, data[c..])
  {
    hide g.Valid, DiskOk, ImageOf, Logged, Chunk, Put, ChunkWrite;
    ChunkIsLogged(d, g, off, data);
  }

  lemma ChunkWritesNone(d: seq<Block>, g: Geometry, off: nat)
    requires g.Valid() && DiskOk(d, g) && off <= g.JournalBytes()
    ensures Streams(d, g, ChunkWrites(d, g, off, []), off, [])
  {
    JournalLength(d, g);
    StreamsEmpty(d, g, off);
    assert ChunkWrites(d, g, off, []) == [];
  }

  /** The blockwise write helper refines one store into the flat byte array, also when it is cut short. */
  lemma {:induction false} ChunkWritesStream(d: seq<Block>, g: Geometry, off: nat, data: seq<byte>)
    requires g.Valid() && DiskOk(d, g)
    requires off + |data| <= g.JournalBytes() && off % 8 == 0 && |data| % 8 == 0
    ensures Streams(d, g, ChunkWrites(d, g, off, data), off, data)
    decreases |data|
  {
    hide *;
    BlockSizeOk(g);
    if data == [] {
      ChunkWritesNone(d, g, off);
    } else {
      ChunkAligned(g, off, |data|);
      ChunkWritesUnfold(d, g, off, data);
      var w := ChunkWrite(d, g, off, data);
      var c := Chunk(g, off, |data|);
      var d' := Put(d, w.block, w.data);
      ChunkWritesStream(d', g, off + c, data[c..]);
      StreamsStep(d, g, off, data, ChunkWrites(d', g, off + c, data[c..]));
    }
  }
}
