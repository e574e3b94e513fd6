/** The record a transaction leaves in the log, and how a log slot reads at replay. */
module JournalRecord {
  import opened Arith
  import opened Bytes
  import opened Hash
  import opened Layout

  const MAGIC_BEGIN: nat := 0x54584A42
  const MAGIC_COMMIT: nat := 0x54584A43

  datatype Header = Header(magic: nat, txid: nat, target: nat, length: nat, checksum: nat)

  function EncodeHeader(h: Header): (s: seq<byte>)
    ensures |s| == HEADER_SIZE
  {
    LE(h.magic, 4) + LE(h.txid, 4) + LE(h.target, 8) + LE(h.length, 4) + LE(h.checksum, 4)
  }

  function DecodeHeader(s: seq<byte>): Header
    requires |s| == HEADER_SIZE
  {
    Header(UnLE(s[0..4]), UnLE(s[4..8]), UnLE(s[8..16]), UnLE(s[16..20]), UnLE(s[20..24]))
  }

  lemma HeaderFields(h: Header)
    ensures var s := EncodeHeader(h);
            && s[0..4] == LE(h.magic, 4) && s[4..8] == LE(h.txid, 4) && s[8..16] == LE(h.target, 8)
            && s[16..20] == LE(h.length, 4) && s[20..24] == LE(h.checksum, 4)
  {
    hide LE;
    var s := EncodeHeader(h);
    assert s[16..24] == LE(h.length, 4) + LE(h.checksum, 4);
    assert s[20..24] == s[16..24][4..8];
  }

  function BeginHeader(g: Geometry, off: nat, target: nat, data: Block): (s: seq<byte>)
    requires g.blockSize > 0
    ensures |s| == HEADER_SIZE
  {
    EncodeHeader(Header(MAGIC_BEGIN, off / g.blockSize + 1, target, g.blockSize, Fnv(data)))
  }

  function CommitHeader(): (s: seq<byte>)
    ensures |s| == HEADER_SIZE
  {
    EncodeHeader(Header(MAGIC_COMMIT, 0, 0, 0, 0))
  }

  lemma BeginDecodes(g: Geometry, off: nat, target: nat, data: Block)
    requires 0 < g.blockSize < TWO_32 && target < TWO_64
    ensures var h := DecodeHeader(BeginHeader(g, off, target, data));
            && h.magic == MAGIC_BEGIN && h.target == target && h.txid == (off / g.blockSize + 1) % TWO_32
            && h.length == g.blockSize && h.checksum == Fnv(data)
  {
    hide LE, UnLE, EncodeHeader, Fnv;
    HeaderFields(Header(MAGIC_BEGIN, off / g.blockSize + 1, target, g.blockSize, Fnv(data)));
    LE4(MAGIC_BEGIN);
    LERoundTrip(off / g.blockSize + 1, 4);
    Powers();
    LE8(target);
    LE4(g.blockSize);
    LE4(Fnv(data));
  }

  lemma CommitDecodes()
    ensures CommitHeader()[0..4] == LE(MAGIC_COMMIT, 4) && UnLE(LE(MAGIC_COMMIT, 4)) == MAGIC_COMMIT
  {
    hide LE, UnLE, EncodeHeader;
    HeaderFields(Header(MAGIC_COMMIT, 0, 0, 0, 0));
    LE4(MAGIC_COMMIT);
  }

  /** All the bytes one transaction logs. */
  function Record(g: Geometry, off: nat, w: Write): (s: seq<byte>)
    requires g.blockSize > 0 && |w.data| == g.blockSize
    ensures |s| == g.RecordSize()
  {
    BeginHeader(g, off, w.block, w.data) + w.data + CommitHeader()
  }

  /** Byte offset of the s-th record. */
  function Slot(g: Geometry, s: nat): (off: nat)
  {
    s * g.RecordSize()
  }

  lemma SlotNext(g: Geometry, s: nat)
    ensures Slot(g, s + 1) == Slot(g, s) + g.RecordSize() && Slot(g, 0) == 0
  {
  }

  lemma SlotsApart(g: Geometry, s: nat, t: nat)
    requires s < t
    ensures Slot(g, s) + g.RecordSize() <= Slot(g, t)
  {
    MulMono(s + 1, t, g.RecordSize());
    SlotNext(g, s);
  }

  lemma SlotAligned(g: Geometry, s: nat)
    requires g.blockSize % 8 == 0
    ensures Slot(g, s) % 8 == 0
  {
    var k := g.RecordSize() / 8;
    assert s * (8 * k) == 8 * (s * k);
  }

  /** A 24-byte header sits at off; its length field and, one record further, a commit magic. */
  function LengthAt(log: seq<byte>, off: nat): nat
    requires off + HEADER_SIZE <= |log|
  {
    UnLE(log[off + 16..off + 20])
  }

  function CommitAt(log: seq<byte>, g: Geometry, off: nat): nat
    requires off + g.RecordSize() <= |log|
  {
    UnLE(log[off + HEADER_SIZE + g.blockSize..off + HEADER_SIZE + g.blockSize + 4])
  }

  /** The slot at off holds the committed record of w. */
  ghost predicate Holds(log: seq<byte>, g: Geometry, off: nat, w: Write) {
    && 0 < g.blockSize && |w.data| == g.blockSize
    && off + g.RecordSize() <= |log|
    && log[off..off + HEADER_SIZE] == BeginHeader(g, off, w.block, w.data)
    && log[off + HEADER_SIZE..off + HEADER_SIZE + g.blockSize] == w.data
    && CommitAt(log, g, off) == MAGIC_COMMIT
  }

  /** Replay stops at off: no commit there, and no length that would look for it elsewhere. */
  ghost predicate Blank(log: seq<byte>, g: Geometry, off: nat) {
    && (off + HEADER_SIZE <= |log| ==> LengthAt(log, off) == 0 || LengthAt(log, off) == g.blockSize)
    && (off + g.RecordSize() <= |log| ==> CommitAt(log, g, off) != MAGIC_COMMIT)
  }

  /** The log holds exactly the records ws, one slot each from the start, and nothing committed after them. */
  ghost predicate JournalIs(log: seq<byte>, g: Geometry, ws: seq<Write>) {
    && (forall s :: 0 <= s < |ws| ==> Holds(log, g, Slot(g, s), ws[s]))
    && (forall s :: |ws| <= s ==> Blank(log, g, Slot(g, s)))
  }

  // ---- What a store into one slot does to that slot and to the others ----

  lemma HoldsElsewhere(log: seq<byte>, g: Geometry, off: nat, d: seq<byte>, at: nat, w: Write)
    requires at + |d| <= |log|
    requires Holds(log, g, off, w)
    requires off + g.RecordSize() <= at || at + |d| <= off
    ensures Holds(Splice(log, at, d), g, off, w)
  {
    hide Splice, BeginHeader;
    SpliceOther(log, at, d, off, off + HEADER_SIZE);
    SpliceOther(log, at, d, off + HEADER_SIZE, off + HEADER_SIZE + g.blockSize);
    SpliceOther(log, at, d, off + HEADER_SIZE + g.blockSize, off + HEADER_SIZE + g.blockSize + 4);
  }

  lemma BlankElsewhere(log: seq<byte>, g: Geometry, off: nat, d: seq<byte>, at: nat)
    requires at + |d| <= |log|
    requires Blank(log, g, off)
    requires at + |d| <= off
    ensures Blank(Splice(log, at, d), g, off)
  {
    hide Splice;
    if off + HEADER_SIZE <= |log| {
      SpliceOther(log, at, d, off + 16, off + 20);
    }
    if off + g.RecordSize() <= |log| {
      SpliceOther(log, at, d, off + HEADER_SIZE + g.blockSize, off + HEADER_SIZE + g.blockSize + 4);
    }
  }

  lemma SplicePart(log: seq<byte>, at: nat, d: seq<byte>, n: nat, lo: nat, hi: nat)
    requires at + |d| <= |log| && n <= |d| && lo <= hi <= n
    ensures Splice(log, at, d[..n])[at + lo..at + hi] == d[lo..hi]
  {
  }

  lemma RecordParts(g: Geometry, off: nat, w: Write)
    requires g.blockSize > 0 && |w.data| == g.blockSize
    ensures var r := Record(g, off, w);
            && r[0..HEADER_SIZE] == BeginHeader(g, off, w.block, w.data)
            && r[HEADER_SIZE..HEADER_SIZE + g.blockSize] == w.data
            && r[HEADER_SIZE + g.blockSize..HEADER_SIZE + g.blockSize + 4] == CommitHeader()[0..4]
            && r[16..20] == BeginHeader(g, off, w.block, w.data)[16..20]
  {
    hide BeginHeader, CommitHeader;
  }

  /** Once the commit magic is in, the slot holds the record. */
  lemma RecordHolds(log: seq<byte>, g: Geometry, off: nat, w: Write, n: nat)
    requires g.blockSize > 0 && |w.data| == g.blockSize
    requires off + g.RecordSize() <= |log|
    requires HEADER_SIZE + g.blockSize + 4 <= n <= g.RecordSize()
    ensures Holds(Splice(log, off, Record(g, off, w)[..n]), g, off, w)
  {
    hide Splice, BeginHeader, CommitHeader, Record;
    var r := Record(g, off, w);
    RecordParts(g, off, w);
    CommitDecodes();
    SplicePart(log, off, r, n, 0, HEADER_SIZE);
    SplicePart(log, off, r, n, HEADER_SIZE, HEADER_SIZE + g.blockSize);
    SplicePart(log, off, r, n, HEADER_SIZE + g.blockSize, HEADER_SIZE + g.blockSize + 4);
  }

  lemma BeginLength(g: Geometry, off: nat, target: nat, data: Block)
    requires 0 < g.blockSize < TWO_32
    ensures UnLE(BeginHeader(g, off, target, data)[16..20]) == g.blockSize
  {
    hide LE, UnLE, EncodeHeader, Fnv;
    HeaderFields(Header(MAGIC_BEGIN, off / g.blockSize + 1, target, g.blockSize, Fnv(data)));
    LE4(g.blockSize);
  }

  /** Before the commit magic is in, the slot stays blank: an 8-aligned cut never splits a field. */
  lemma RecordBlank(log: seq<byte>, g: Geometry, off: nat, w: Write, n: nat)
    requires 0 < g.blockSize < TWO_32 && |w.data| == g.blockSize
    requires off + g.RecordSize() <= |log|
    requires n <= HEADER_SIZE + g.blockSize && n % 8 == 0
    requires Blank(log, g, off)
    ensures Blank(Splice(log, off, Record(g, off, w)[..n]), g, off)
  {
    hide Splice, BeginHeader, CommitHeader, Record;
    var r := Record(g, off, w);
    RecordParts(g, off, w);
    BeginLength(g, off, w.block, w.data);
    SpliceOther(log, off, r[..n], off + HEADER_SIZE + g.blockSize, off + HEADER_SIZE + g.blockSize + 4);
    if n <= 16 {
      SpliceOther(log, off, r[..n], off + 16, off + 20);
    } else {
      SplicePart(log, off, r, n, 16, 20);
    }
  }

  /** A cut transaction either adds its record to the log or leaves the list of records as it was. */
  lemma RecordCut(log: seq<byte>, g: Geometry, ws: seq<Write>, w: Write, n: nat)
    requires JournalIs(log, g, ws)
    requires 0 < g.blockSize < TWO_32 && g.blockSize % 8 == 0 && |w.data| == g.blockSize
    requires Slot(g, |ws|) + g.RecordSize() <= |log|
    requires n <= g.RecordSize() && n % 8 == 0
    ensures var log' := Splice(log, Slot(g, |ws|), Record(g, Slot(g, |ws|), w)[..n]);
            if n <= HEADER_SIZE + g.blockSize then JournalIs(log', g, ws) else JournalIs(log', g, ws + [w])
  {
    hide Splice, Record, Slot, Holds, Blank;
    var off := Slot(g, |ws|);
    var d := Record(g, off, w)[..n];
    var log' := Splice(log, off, d);
    forall s | 0 <= s < |ws| ensures Holds(log', g, Slot(g, s), ws[s]) {
      SlotsApart(g, s, |ws|);
      HoldsElsewhere(log, g, Slot(g, s), d, off, ws[s]);
    }
    forall s | |ws| < s ensures Blank(log', g, Slot(g, s)) {
      SlotsApart(g, |ws|, s);
      BlankElsewhere(log, g, Slot(g, s), d, off);
    }
    if n <= HEADER_SIZE + g.blockSize {
      RecordBlank(log, g, off, w, n);
      assert JournalIs(log', g, ws);
    } else {
      RecordHolds(log, g, off, w, n);
      assert JournalIs(log', g, ws + [w]);
    }
  }
}
