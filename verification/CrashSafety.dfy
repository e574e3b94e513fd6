/** Sessions: what the journal guarantees for every crash point of every list of metadata and data writes. */
module CrashSafety {
  import opened Bytes
  import opened Layout
  import opened JournalBytes
  import opened JournalStream
  import opened JournalRecord
  import opened Recovery

  /** What the file system asks of the device: a journaled metadata block, or a plain data block. */
  datatype Step = Txn(w: Write) | Raw(w: Write)

  function Txns(steps: seq<Step>): seq<Write> {
    if steps == [] then []
    else
      var init := Txns(steps[..|steps| - 1]);
      var s := steps[|steps| - 1];
      if s.Txn? then init + [s.w] else init
  }

  ghost function LogChunk(d: seq<Block>, g: Geometry, off: nat, data: seq<byte>): seq<Write> {
    if g.Valid() && DiskOk(d, g) && off + |data| <= g.JournalBytes()
    then ChunkWrites(d, g, off, data) else []
  }

  /** The block writes of the log part of one transaction: begin header, block image, commit header. */
  ghost function LogWrites(d: seq<Block>, g: Geometry, off: nat, w: Write): seq<Write>
    requires g.blockSize > 0
  {
    var w1 := LogChunk(d, g, off, BeginHeader(g, off, w.block, w.data));
    var d1 := Apply(d, w1);
    var w2 := LogChunk(d1, g, off + HEADER_SIZE, w.data);
    w1 + w2 + LogChunk(Apply(d1, w2), g, off + HEADER_SIZE + g.blockSize, CommitHeader())
  }

  lemma LogChunkStreams(d: seq<Block>, g: Geometry, off: nat, data: seq<byte>)
    requires g.Valid() && DiskOk(d, g)
    requires off + |data| <= g.JournalBytes() && off % 8 == 0 && |data| % 8 == 0
    ensures LogChunk(d, g, off, data) == ChunkWrites(d, g, off, data)
    ensures Streams(d, g, LogChunk(d, g, off, data), off, data)
    ensures DiskOk(Apply(d, LogChunk(d, g, off, data)), g)
  {
    hide g.Valid, DiskOk, ChunkWrites, Apply;
    ChunkWritesStream(d, g, off, data);
  }

  lemma RecordSizes(g: Geometry)
    ensures g.RecordSize() == g.blockSize + 48 && HEADER_SIZE == 24
  {
  }

  lemma LogWritesParts(d: seq<Block>, g: Geometry, off: nat, w: Write)
    requires g.blockSize > 0 && |w.data| == g.blockSize
    ensures var b, c := BeginHeader(g, off, w.block, w.data), CommitHeader();
            var w1 := LogChunk(d, g, off, b);
            var d1 := Apply(d, w1);
            var w2 := LogChunk(d1, g, off + HEADER_SIZE, w.data);
            var w3 := LogChunk(Apply(d1, w2), g, off + HEADER_SIZE + g.blockSize, c);
            && LogWrites(d, g, off, w) == w1 + w2 + w3
            && Record(g, off, w) == b + w.data + c
  {
    hide LogChunk, Apply, BeginHeader, CommitHeader;
  }

  /** The three pieces of a transaction stream its whole record into the log. */
  lemma LogWritesStream(d: seq<Block>, g: Geometry, off: nat, w: Write)
    requires g.Valid() && DiskOk(d, g) && g.blockSize > 0 && g.blockSize % 8 == 0
    requires |w.data| == g.blockSize && off % 8 == 0
    requires off + g.RecordSize() <= g.JournalBytes()
    ensures Streams(d, g, LogWrites(d, g, off, w), off, Record(g, off, w))
  {
    hide *;
    RecordSizes(g);
    LogWritesParts(d, g, off, w);
    var b, c := BeginHeader(g, off, w.block, w.data), CommitHeader();
    var w1 := LogChunk(d, g, off, b);
    LogChunkStreams(d, g, off, b);
    var d1 := Apply(d, w1);
    var w2 := LogChunk(d1, g, off + HEADER_SIZE, w.data);
    LogChunkStreams(d1, g, off + HEADER_SIZE, w.data);
    ApplyConcat(d, w1, w2);
    StreamsConcat(d, g, w1, w2, off, b, w.data);
    var d2 := Apply(d1, w2);
    var w3 := LogChunk(d2, g, off + HEADER_SIZE + g.blockSize, c);
    LogChunkStreams(d2, g, off + HEADER_SIZE + g.blockSize, c);
    StreamsConcat(d, g, w1 + w2, w3, off, b + w.data, c);
    assert Streams(d, g, LogWrites(d, g, off, w), off, Record(g, off, w));
  }

  // ---- Sessions ----

  ghost function StepWrites(d: seq<Block>, g: Geometry, off: nat, s: Step): (ws: seq<Write>)
    requires g.blockSize > 0
    ensures |ws| > 0
  {
    if s.Txn? then LogWrites(d, g, off, s.w) + [s.w] else [s.w]
  }

  /** All the block writes a list of steps makes, starting with an empty log. */
  ghost function Expand(base: seq<Block>, g: Geometry, steps: seq<Step>): seq<Write>
    requires g.blockSize > 0
    decreases |steps|
  {
    if steps == [] then []
    else
      var init := steps[..|steps| - 1];
      var ws := Expand(base, g, init);
      ws + StepWrites(Apply(base, ws), g, Slot(g, |Txns(init)|), steps[|steps| - 1])
  }

  /** The same steps on a device where each is one indivisible write. */
  function Atomic(v: seq<Block>, steps: seq<Step>): (r: seq<Block>)
    ensures |r| == |v|
    decreases |steps|
  {
    if steps == [] then v
    else
      var w := steps[|steps| - 1].w;
      Put(Atomic(v, steps[..|steps| - 1]), w.block, w.data)
  }

  /** Metadata goes through the journal and lies before the data area; data does not. The superblock is never a target. */
  ghost predicate StepOk(g: Geometry, s: Step) {
    && |s.w.data| == g.blockSize && g.bitmapStart <= s.w.block < g.totalBlocks && !g.InJournal(s.w.block)
    && (s.Txn? <==> s.w.block < g.dataStart)
  }

  ghost predicate StepsOk(g: Geometry, steps: seq<Step>) {
    forall i :: 0 <= i < |steps| ==> StepOk(g, steps[i])
  }

  /** A device with nothing committed in its log: as after format, or after a replay that cleaned it. */
  ghost predicate Clean(d: seq<Block>, g: Geometry) {
    g.Valid() && DiskOk(d, g) && JournalIs(Journal(d, g), g, [])
  }

  /** Without the log, d is v; the log holds ws. */
  ghost predicate Intact(d: seq<Block>, g: Geometry, v: seq<Block>, ws: seq<Write>)
    requires g.Valid()
  {
    DiskOk(d, g) && View(d, g) == v && JournalIs(Journal(d, g), g, ws)
  }

  lemma TxnsSnoc(steps: seq<Step>, s: Step)
    ensures Txns(steps + [s]) == if s.Txn? then Txns(steps) + [s.w] else Txns(steps)
  {
    assert (steps + [s])[..|steps|] == steps;
  }

  lemma ExpandSnoc(base: seq<Block>, g: Geometry, steps: seq<Step>, s: Step)
    requires g.blockSize > 0
    ensures var ws := Expand(base, g, steps);
            Expand(base, g, steps + [s]) == ws + StepWrites(Apply(base, ws), g, Slot(g, |Txns(steps)|), s)
  {
    hide StepWrites, Apply, Slot, Txns;
    assert (steps + [s])[..|steps|] == steps;
  }

  lemma AtomicSnoc(v: seq<Block>, steps: seq<Step>, s: Step)
    ensures Atomic(v, steps + [s]) == Put(Atomic(v, steps), s.w.block, s.w.data)
  {
    hide Put;
    assert (steps + [s])[..|steps|] == steps;
  }

  /** Logging w, cut anywhere: nothing else changes, and the log gains w or does not. */
  lemma TxnCut(d: seq<Block>, g: Geometry, v: seq<Block>, ws: seq<Write>, w: Write, m: nat)
    requires g.Valid() && g.blockSize > 0 && Intact(d, g, v, ws) && |w.data| == g.blockSize
    requires Slot(g, |ws|) + g.RecordSize() <= g.JournalBytes()
    requires m <= |LogWrites(d, g, Slot(g, |ws|), w)|
    ensures var all := LogWrites(d, g, Slot(g, |ws|), w);
            var d' := Apply(d, all[..m]);
            && (Intact(d', g, v, ws) || Intact(d', g, v, ws + [w]))
            && (m == |all| ==> Intact(d', g, v, ws + [w]))
  {
    hide *;
    IntactParts(d, g, v, ws);
    var off := Slot(g, |ws|);
    var all := LogWrites(d, g, off, w);
    var d' := Apply(d, all[..m]);
    SlotAligned(g, |ws|);
    LogWritesStream(d, g, off, w);
    var n := CutAt(d, g, all, m, off, Record(g, off, w));
    StreamedImage(d, d', g, off, Record(g, off, w), n);
    RecordCut(Journal(d, g), g, ws, w, n);
    RecordSizes(g);
    assert all[..|all|] == all;
    if n <= HEADER_SIZE + g.blockSize {
      MakeIntact(d', g, v, ws);
      assert Intact(d', g, v, ws);
    } else {
      MakeIntact(d', g, v, ws + [w]);
      assert Intact(d', g, v, ws + [w]);
    }
  }

  lemma CutAt(d: seq<Block>, g: Geometry, ws: seq<Write>, m: nat, off: nat, data: seq<byte>) returns (n: nat)
    requires g.Valid() && DiskOk(d, g) && Streams(d, g, ws, off, data) && m <= |ws|
    ensures Streamed(d, Apply(d, ws[..m]), g, off, data, n)
    ensures m == |ws| ==> n == |data|
  {
    hide g.Valid, DiskOk, Streamed;
    if m == |ws| {
      assert ws[..m] == ws;
      n := |data|;
    } else {
      assert CutShort(d, g, ws, m, off, data);
      n :| Streamed(d, Apply(d, ws[..m]), g, off, data, n);
    }
  }

  lemma StreamedImage(d: seq<Block>, d': seq<Block>, g: Geometry, off: nat, data: seq<byte>, n: nat)
    requires g.Valid() && DiskOk(d, g) && Streamed(d, d', g, off, data, n)
    ensures DiskOk(d', g) && n <= |data| && n % 8 == 0 && off + n <= |Journal(d, g)|
    ensures View(d', g) == View(d, g) && Journal(d', g) == Splice(Journal(d, g), off, data[..n])
  {
    hide g.Valid, DiskOk, Journal, View, Splice;
  }

  lemma IntactParts(d: seq<Block>, g: Geometry, v: seq<Block>, ws: seq<Write>)
    requires g.Valid() && Intact(d, g, v, ws)
    ensures DiskOk(d, g) && View(d, g) == v && 512 <= g.blockSize < TWO_32 && g.blockSize % 8 == 0
    ensures g.journalStart + g.journalCount <= |d| && |d| == |v|
    ensures JournalIs(Journal(d, g), g, ws) && |Journal(d, g)| == g.JournalBytes()
  {
    hide g.Valid, JournalIs, Journal;
    GeometryBounds(g, d);
  }

  lemma MakeIntact(d: seq<Block>, g: Geometry, v: seq<Block>, ws: seq<Write>)
    requires g.Valid() && DiskOk(d, g) && g.journalStart + g.journalCount <= |d|
    requires View(d, g) == v && JournalIs(Journal(d, g), g, ws)
    ensures Intact(d, g, v, ws)
  {
    hide g.Valid, JournalIs, Journal, DiskOk;
  }
}
