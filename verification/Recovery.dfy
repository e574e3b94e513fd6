/** Replay of the log, and what it makes of every crash. */
module Recovery {
  import opened Seqs
  import opened Bytes
  import opened Hash
  import opened Layout
  import opened JournalBytes
  import opened JournalRecord

  datatype Replayed = Replayed(disk: seq<Block>, ok: bool, applied: bool)

  /** The record vtx2_journal_replay accepts at off, if any: (header, end of record). */
  datatype Parsed = Stop | Found(target: nat, payload: seq<byte>, next: nat)

  function HeaderAt(log: seq<byte>, off: nat): Header
    requires off + HEADER_SIZE <= |log|
  {
    DecodeHeader(log[off..off + HEADER_SIZE])
  }

  function ParseAt(log: seq<byte>, g: Geometry, off: nat): (p: Parsed)
    ensures p.Found? ==> off < p.next && |p.payload| <= g.blockSize
  {
    if off + HEADER_SIZE > |log| then Stop
    else
      var h := HeaderAt(log, off);
      var start := off + HEADER_SIZE;
      if h.magic != MAGIC_BEGIN then Stop
      else if h.length == 0 || h.length > g.blockSize || start + h.length + HEADER_SIZE > |log| then Stop
      else
        var payload := log[start..start + h.length];
        if Fnv(payload) != h.checksum then Stop
        else if HeaderAt(log, start + h.length).magic != MAGIC_COMMIT then Stop
        else Found(h.target, payload, start + h.length + HEADER_SIZE)
  }

  /** One changed byte in the payload of a record, or in its checksum, and replay refuses the record. */
  lemma DamagedStops(log: seq<byte>, g: Geometry, off: nat, j: nat, x: byte)
    requires ParseAt(log, g, off).Found?
    requires off + 20 <= j < ParseAt(log, g, off).next - HEADER_SIZE && j < |log| && log[j] != x
    ensures ParseAt(log[j := x], g, off).Stop?
  {
    hide FnvFrom, UnLE;
    var log', start := log[j := x], off + HEADER_SIZE;
    var h := HeaderAt(log, off);
    SamePart(log, j, x, off, off + 4);
    SamePart(log, j, x, off + 16, off + 20);
    HeaderParts(log, off);
    HeaderParts(log', off);
    if j < start {
      var c, c' := log[off + 20..off + 24], log'[off + 20..off + 24];
      assert c'[j - off - 20] != c[j - off - 20];
      SamePart(log, j, x, start, start + h.length);
      if UnLE(c') == UnLE(c) {
        UnLEApart(c', c);
      }
    } else {
      SamePart(log, j, x, off + 20, off + 24);
      assert log'[start..start + h.length] == log[start..start + h.length][j - start := x];
      OneByteTells(FNV_BASIS, log[start..start + h.length], j - start, x);
    }
  }

  lemma SamePart(log: seq<byte>, j: nat, x: byte, lo: nat, hi: nat)
    requires j < |log| && lo <= hi <= |log| && !(lo <= j < hi)
    ensures log[j := x][lo..hi] == log[lo..hi]
  {
  }

  lemma HeaderParts(log: seq<byte>, off: nat)
    requires off + HEADER_SIZE <= |log|
    ensures var h := HeaderAt(log, off);
            && h.magic == UnLE(log[off..off + 4]) && h.length == UnLE(log[off + 16..off + 20])
            && h.checksum == UnLE(log[off + 20..off + 24])
  {
    hide UnLE;
    SliceSlice(log, off, off + HEADER_SIZE, 0, 4);
    SliceSlice(log, off, off + HEADER_SIZE, 16, 20);
    SliceSlice(log, off, off + HEADER_SIZE, 20, 24);
  }

  /** Replay from off on; `scratch` is the buffer the payload is read into and written out of. */
  function ReplayFrom(d: seq<Block>, g: Geometry, scratch: Block, off: nat): (r: Replayed)
    requires g.journalStart + g.journalCount <= |d| && |scratch| == g.blockSize
    ensures |r.disk| == |d|
    decreases g.JournalBytes() - off
  {
    if off + HEADER_SIZE > g.JournalBytes() then Replayed(d, true, false)
    else
      var p := ParseAt(Journal(d, g), g, off);
      if p.Stop? then Replayed(d, true, false)
      else
        var image := Splice(scratch, 0, p.payload);
        if p.target >= |d| then Replayed(d, false, true)
        else
          var r := ReplayFrom(Put(d, p.target, image), g, image, p.next);
          r.(applied := true)
  }

  /** A disk write that leaves the journal alone and stays on the device. */
  ghost predicate Outside(d: seq<Block>, g: Geometry, w: Write) {
    w.block < |d| && !g.InJournal(w.block) && |w.data| == g.blockSize && w.block < TWO_64
  }

  ghost predicate AllOutside(d: seq<Block>, g: Geometry, ws: seq<Write>) {
    forall i :: 0 <= i < |ws| ==> Outside(d, g, ws[i])
  }

  // ---- Replay is the ordered fold of the records the log holds ----

  lemma HeldHeaders(log: seq<byte>, g: Geometry, off: nat, w: Write)
    requires Holds(log, g, off, w) && g.blockSize < TWO_32 && w.block < TWO_64
    ensures off + HEADER_SIZE <= |log|
    ensures var h := HeaderAt(log, off);
            && h.magic == MAGIC_BEGIN && h.target == w.block
            && h.length == g.blockSize && h.checksum == Fnv(w.data)
    ensures off + g.RecordSize() <= |log| && 0 < g.blockSize
    ensures log[off + HEADER_SIZE..off + HEADER_SIZE + g.blockSize] == w.data
    ensures HeaderAt(log, off + HEADER_SIZE + g.blockSize).magic == MAGIC_COMMIT
  {
    hide BeginHeader, Fnv;
    BeginDecodes(g, off, w.block, w.data);
    var at := off + HEADER_SIZE + g.blockSize;
    SliceSlice(log, at, at + HEADER_SIZE, 0, 4);
  }

  lemma HoldsParses(log: seq<byte>, g: Geometry, off: nat, w: Write)
    requires Holds(log, g, off, w) && g.blockSize < TWO_32 && w.block < TWO_64
    ensures ParseAt(log, g, off) == Found(w.block, w.data, off + g.RecordSize())
  {
    hide Holds, HeaderAt, Fnv;
    HeldHeaders(log, g, off, w);
  }

  lemma BlankParses(log: seq<byte>, g: Geometry, off: nat)
    requires Blank(log, g, off)
    ensures ParseAt(log, g, off) == Stop
  {
    hide Fnv;
    if off + HEADER_SIZE <= |log| {
      SliceSlice(log, off, off + HEADER_SIZE, 16, 20);
      var at := off + HEADER_SIZE + g.blockSize;
      if at + HEADER_SIZE <= |log| {
        SliceSlice(log, at, at + HEADER_SIZE, 0, 4);
      }
    }
  }

  lemma PutOutside(d: seq<Block>, g: Geometry, w: Write)
    requires g.Valid() && DiskOk(d, g) && Outside(d, g, w)
    ensures var d' := Put(d, w.block, w.data);
            DiskOk(d', g) && Journal(d', g) == Journal(d, g)
            && View(d', g) == Put(View(d, g), w.block, w.data)
  {
    var d' := Put(d, w.block, w.data);
    assert d'[g.journalStart..g.journalStart + g.journalCount] == d[g.journalStart..g.journalStart + g.journalCount];
  }

  lemma {:induction false} ApplyOutside(d: seq<Block>, g: Geometry, ws: seq<Write>)
    requires g.Valid() && DiskOk(d, g) && AllOutside(d, g, ws)
    ensures var d' := Apply(d, ws);
            DiskOk(d', g) && Journal(d', g) == Journal(d, g) && View(d', g) == Apply(View(d, g), ws)
    decreases |ws|
  {
    hide Journal, View, g.Valid, DiskOk, Outside, Put;
    if ws != [] {
      assert Outside(d, g, ws[0]);
      PutOutside(d, g, ws[0]);
      var d' := Put(d, ws[0].block, ws[0].data);
      AllOutsideTail(d, d', g, ws);
      ApplyOutside(d', g, ws[1..]);
    }
  }

  lemma AllOutsideTail(d: seq<Block>, d': seq<Block>, g: Geometry, ws: seq<Write>)
    requires AllOutside(d, g, ws) && |d'| == |d| && ws != []
    ensures Outside(d, g, ws[0]) && AllOutside(d', g, ws[1..])
  {
  }

  lemma WholeBlock(scratch: Block, data: Block)
    requires |scratch| == |data|
    ensures Splice(scratch, 0, data) == data
  {
  }

  lemma GeometryBounds(g: Geometry, d: seq<Block>)
    requires g.Valid() && DiskOk(d, g)
    ensures 512 <= g.blockSize < TWO_32 && g.blockSize % 8 == 0
    ensures g.journalStart + g.journalCount <= |d|
    ensures |Journal(d, g)| == g.JournalBytes()
  {
    JournalLength(d, g);
    BlockSizeFacts(g.blockSize);
  }

  /** One accepted record: write it out and go on behind it. */
  lemma ReplayHeld(d: seq<Block>, g: Geometry, scratch: Block, off: nat, w: Write)
    requires g.Valid() && DiskOk(d, g) && |scratch| == g.blockSize
    requires g.journalStart + g.journalCount <= |d|
    requires Holds(Journal(d, g), g, off, w) && Outside(d, g, w)
    ensures var r := ReplayFrom(Put(d, w.block, w.data), g, w.data, off + g.RecordSize());
            ReplayFrom(d, g, scratch, off) == r.(applied := true)
  {
    hide g.Valid, DiskOk, Journal, ParseAt, Splice, Put;
    GeometryBounds(g, d);
    HoldsParses(Journal(d, g), g, off, w);
    WholeBlock(scratch, w.data);
  }

  lemma ReplayBlank(d: seq<Block>, g: Geometry, scratch: Block, off: nat)
    requires g.Valid() && DiskOk(d, g) && |scratch| == g.blockSize
    requires g.journalStart + g.journalCount <= |d|
    requires Blank(Journal(d, g), g, off)
    ensures ReplayFrom(d, g, scratch, off) == Replayed(d, true, false)
  {
    hide g.Valid, DiskOk, Journal, ParseAt, Splice, Put;
    GeometryBounds(g, d);
    BlankParses(Journal(d, g), g, off);
  }

  lemma {:induction false} ReplayFolds(d: seq<Block>, g: Geometry, scratch: Block, ws: seq<Write>, s: nat)
    requires g.Valid() && DiskOk(d, g) && |scratch| == g.blockSize
    requires g.journalStart + g.journalCount <= |d|
    requires JournalIs(Journal(d, g), g, ws) && AllOutside(d, g, ws) && s <= |ws|
    ensures ReplayFrom(d, g, scratch, Slot(g, s)) == Replayed(Apply(d, ws[s..]), true, s < |ws|)
    decreases |ws| - s
  {
    hide g.Valid, DiskOk, Journal, ReplayFrom, Put, Holds, Blank, Slot, Outside;
    if s == |ws| {
      assert ws[s..] == [];
      ReplayBlank(d, g, scratch, Slot(g, s));
    } else {
      var w := ws[s];
      assert Outside(d, g, w);
      var d' := Put(d, w.block, w.data);
      PutOutside(d, g, w);
      OutsideSame(d, d', g, ws);
      OutsideSize(d, g, w);
      ReplayHeld(d, g, scratch, Slot(g, s), w);
      SlotNext(g, s);
      ReplayFolds(d', g, w.data, ws, s + 1);
      assert ws[s..][0] == w && ws[s..][1..] == ws[s + 1..];
    }
  }

  lemma OutsideSame(d: seq<Block>, d': seq<Block>, g: Geometry, ws: seq<Write>)
    requires AllOutside(d, g, ws) && |d'| == |d|
    ensures AllOutside(d', g, ws)
  {
  }

  lemma OutsideSize(d: seq<Block>, g: Geometry, w: Write)
    requires Outside(d, g, w)
    ensures |w.data| == g.blockSize && w.block < |d|
  {
  }
}
