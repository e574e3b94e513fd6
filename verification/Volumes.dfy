/** The block device, and the mounted volume with its journal. */
module Volumes {
  import opened Arith
  import opened Bytes
  import opened Hash
  import opened Layout
  import opened JournalBytes
  import opened JournalStream
  import opened JournalRecord
  import opened Recovery
  import opened CrashSafety
  import opened CrashTheorems
  import opened Wrap
  import opened Laps

  /** A device writes one block at a time, indivisibly; `log` remembers the writes. */
  class BlockDevice {
    var blocks: seq<Block>
    ghost var log: seq<Write>

    constructor (contents: seq<Block>)
      ensures blocks == contents && log == []
    {
      blocks := contents;
      log := [];
    }

    method ReadBlock(b: nat) returns (data: Block)
      requires b < |blocks|
      ensures data == blocks[b]
    {
      data := blocks[b];
    }

    method WriteBlock(b: nat, data: Block)
      requires b < |blocks|
      modifies this
      ensures blocks == Put(old(blocks), b, data)
      ensures log == old(log) + [Write(b, data)]
    {
      blocks := blocks[b := data];
      log := log + [Write(b, data)];
    }
  }

  /** The states a session went through, one per step: what a device with indivisible steps would show. */
  ghost predicate HistoryOf(history: seq<seq<Block>>, v: seq<Block>, steps: seq<Step>) {
    && |history| == |steps| + 1
    && forall k :: 0 <= k <= |steps| ==> history[k] == Atomic(v, steps[..k])
  }

  ghost predicate Session(base: seq<Block>, g: Geometry, written: seq<Write>, blocks: seq<Block>,
                          steps: seq<Step>, history: seq<seq<Block>>, offset: nat) {
    && Clean(base, g) && g.blockSize > 0
    && StepsOk(g, steps)
    && offset == Slot(g, |Txns(steps)|) <= g.JournalBytes()
    && written == Expand(base, g, steps)
    && blocks == Apply(base, written)
    && HistoryOf(history, View(base, g), steps)
  }

  lemma StepSnoc(g: Geometry, steps: seq<Step>, s: Step)
    requires StepsOk(g, steps) && StepOk(g, s)
    ensures StepsOk(g, steps + [s])
  {
  }

  lemma HistorySnoc(history: seq<seq<Block>>, v: seq<Block>, steps: seq<Step>, s: Step)
    requires HistoryOf(history, v, steps)
    ensures HistoryOf(history + [Atomic(v, steps + [s])], v, steps + [s])
  {
    hide Atomic;
    var ss := steps + [s];
    var h := history + [Atomic(v, ss)];
    forall k | 0 <= k <= |ss| ensures h[k] == Atomic(v, ss[..k]) {
      if k <= |steps| {
        assert ss[..k] == steps[..k];
      } else {
        assert ss[..k] == ss;
      }
    }
  }

  lemma SessionParts(base: seq<Block>, g: Geometry, written: seq<Write>, blocks: seq<Block>,
                     steps: seq<Step>, history: seq<seq<Block>>, offset: nat)
    requires Session(base, g, written, blocks, steps, history, offset)
    ensures Clean(base, g) && g.Valid() && g.blockSize > 0 && DiskOk(base, g) && StepsOk(g, steps)
    ensures offset == Slot(g, |Txns(steps)|) <= g.JournalBytes()
    ensures written == Expand(base, g, steps) && blocks == Apply(base, written)
    ensures HistoryOf(history, View(base, g), steps)
  {
    hide g.Valid, StepsOk, HistoryOf, Expand, Apply, View, Slot, Txns, Journal, JournalIs;
  }

  lemma MakeSession(base: seq<Block>, g: Geometry, written: seq<Write>, blocks: seq<Block>,
                    steps: seq<Step>, history: seq<seq<Block>>, offset: nat)
    requires Clean(base, g) && g.blockSize > 0 && StepsOk(g, steps)
    requires offset == Slot(g, |Txns(steps)|) <= g.JournalBytes()
    requires written == Expand(base, g, steps) && blocks == Apply(base, written)
    requires HistoryOf(history, View(base, g), steps)
    ensures Session(base, g, written, blocks, steps, history, offset)
  {
    hide g.Valid, StepsOk, HistoryOf, Expand, Apply, View, Slot, Txns, Clean;
  }

  lemma IntactView(d: seq<Block>, g: Geometry, v: seq<Block>, ws: seq<Write>)
    requires g.Valid() && Intact(d, g, v, ws)
    ensures View(d, g) == v
  {
    hide g.Valid, JournalIs, Journal, View;
  }

  /** One more step keeps the session. */
  lemma SessionGrows(base: seq<Block>, g: Geometry, written: seq<Write>, blocks: seq<Block>,
                     steps: seq<Step>, history: seq<seq<Block>>, offset: nat, s: Step, ws: seq<Write>)
    requires Session(base, g, written, blocks, steps, history, offset)
    requires StepOk(g, s) && g.blockSize > 0 && ws == StepWrites(blocks, g, offset, s)
    requires s.Txn? ==> offset + g.RecordSize() <= g.JournalBytes()
    ensures var blocks' := Apply(blocks, ws);
            Session(base, g, written + ws, blocks', steps + [s], history + [View(blocks', g)],
                    if s.Txn? then offset + g.RecordSize() else offset)
  {
    hide *;
    SessionParts(base, g, written, blocks, steps, history, offset);
    var blocks' := Apply(blocks, ws);
    StepSnoc(g, steps, s);
    TxnsSnoc(steps, s);
    SlotNext(g, |Txns(steps)|);
    ExpandSnoc(base, g, steps, s);
    ApplyConcat(base, written, ws);
    SessionInvariant(base, g, steps + [s]);
    IntactView(blocks', g, Atomic(View(base, g), steps + [s]), Txns(steps + [s]));
    HistorySnoc(history, View(base, g), steps, s);
    MakeSession(base, g, written + ws, blocks', steps + [s], history + [View(blocks', g)],
                if s.Txn? then offset + g.RecordSize() else offset);
  }

  /** The cursor stands behind the records of the lap, and the log holds them and what is left of the lap before. */
  ghost predicate Lap(d: seq<Block>, g: Geometry, offset: nat, lap: seq<Write>, prev: seq<Write>)
    requires g.Valid()
  {
    LogOk(d, g, lap, prev) && offset == Slot(g, |lap|)
  }

  /** A mounted volume: the device, the superblock fields in memory, and the journal's cursor. */
  class Volume {
    const dev: BlockDevice
    const g: Geometry
    var journalOffset: nat
    var scratch: Block
    var scratch2: Block
    var freeHint: nat

    // The session since mount. `exposed` records that the log wrapped (or cannot hold a record), after
    // which a crash is no longer covered. `lap` lists the transactions since the log last started over,
    // `prev` those of the lap before.
    ghost var base: seq<Block>
    ghost var mark: nat
    ghost var steps: seq<Step>
    ghost var history: seq<seq<Block>>
    ghost var exposed: bool
    ghost var lap: seq<Write>
    ghost var prev: seq<Write>

    ghost predicate Valid()
      reads this, dev
    {
      && g.Valid() && DiskOk(dev.blocks, g)
      && |scratch| == g.blockSize && |scratch2| == g.blockSize
      && journalOffset % 8 == 0 && journalOffset <= g.JournalBytes()
      && |history| == |steps| + 1 && history[|steps|] == V()
      && mark <= |dev.log|
      && (!exposed ==> Session(base, g, dev.log[mark..], dev.blocks, steps, history, journalOffset))
      && Lap(dev.blocks, g, journalOffset, lap, prev)
      && (!exposed ==> lap == Txns(steps) && prev == [])
    }

    constructor (dev: BlockDevice, g: Geometry, freeHint: nat)
      ensures this.dev == dev && this.g == g && this.freeHint == freeHint
      ensures |scratch| == |scratch2| == g.blockSize
    {
      this.dev, this.g, this.freeHint := dev, g, freeHint;
      journalOffset := 0;
      scratch, scratch2 := seq(g.blockSize, _ => 0), seq(g.blockSize, _ => 0);
      base, mark, steps, history, exposed, lap, prev := [], 0, [], [], true, [], [];
    }

    /** The volume without its journal. */
    ghost function V(): (v: seq<Block>)
      reads dev
      ensures |v| == |dev.blocks|
    {
      View(dev.blocks, g)
    }

    /** The same session, further on. */
    twostate predicate Continues()
      reads this
    {
      && base == old(base) && mark == old(mark)
      && old(steps) <= steps && old(history) <= history
      && (old(exposed) ==> exposed)
    }

    /** vtx2_journal_read_bytes. */
    method JournalReadBytes(byteOffset: nat, length: nat) returns (out: seq<byte>)
      requires g.Valid() && DiskOk(dev.blocks, g) && g.journalStart + g.journalCount <= |dev.blocks|
      requires byteOffset + length <= g.JournalBytes()
      requires |scratch2| == g.blockSize
      modifies this`scratch2
      ensures byteOffset + length <= |Journal(dev.blocks, g)|
      ensures out == Journal(dev.blocks, g)[byteOffset..byteOffset + length]
      ensures |scratch2| == g.blockSize
    {
      hide *;
      GeometryBounds(g, dev.blocks);
      ghost var blocks := dev.blocks;
      ghost var bytes := Journal(blocks, g);
      out := [];
      var remaining: nat, cur: nat := length, byteOffset;
      while remaining > 0
        invariant dev.blocks == blocks
        invariant cur + remaining == byteOffset + length <= |bytes|
        invariant byteOffset <= cur
        invariant out == bytes[byteOffset..cur]
        invariant |scratch2| == g.blockSize
      {
        var local := g.LogBlock(cur);
        var within := g.LogByte(cur);
        var chunk := g.blockSize - within;
        if chunk > remaining {
          chunk := remaining;
        }
        Position(g, cur);
        ReadStep(blocks, g, cur, remaining, chunk);
        scratch2 := dev.ReadBlock(g.journalStart + local);
        out := out + scratch2[within..within + chunk];
        cur := cur + chunk;
        remaining := remaining - chunk;
      }
    }

    /** vtx2_journal_write_bytes: read-modify-write of each block the range touches. */
    method JournalWriteBytes(byteOffset: nat, src: seq<byte>)
      requires g.Valid() && DiskOk(dev.blocks, g)
      requires byteOffset + |src| <= g.JournalBytes() && byteOffset % 8 == 0 && |src| % 8 == 0
      requires |scratch2| == g.blockSize
      modifies this`scratch2, dev
      ensures |scratch2| == g.blockSize
      ensures DiskOk(dev.blocks, g)
      ensures var ws := LogChunk(old(dev.blocks), g, byteOffset, src);
              dev.log == old(dev.log) + ws && dev.blocks == Apply(old(dev.blocks), ws)
      ensures ImageOf(dev.blocks, g) == Logged(ImageOf(old(dev.blocks), g), byteOffset, src)
    {
      hide g.Valid, DiskOk, LogChunk, ChunkWrites, Apply, ImageOf, Logged, Streams, Splice, Put;
      LogChunkStreams(dev.blocks, g, byteOffset, src);
      StreamsWhole(dev.blocks, g, LogChunk(dev.blocks, g, byteOffset, src), byteOffset, src);
      GeometryBounds(g, dev.blocks);
      ghost var all := LogChunk(dev.blocks, g, byteOffset, src);
      var cur: nat, done: nat := byteOffset, 0;
      assert src[0..] == src;
      while done < |src|
        invariant done <= |src| && cur == byteOffset + done
        invariant |scratch2| == g.blockSize && DiskOk(dev.blocks, g)
        invariant var rest := ChunkWrites(dev.blocks, g, cur, src[done..]);
                  dev.log + rest == old(dev.log) + all && Apply(dev.blocks, rest) == Apply(old(dev.blocks), all)
      {
        var local := g.LogBlock(cur);
        var within := g.LogByte(cur);
        var chunk := g.blockSize - within;
        if chunk > |src| - done {
          chunk := |src| - done;
        }
        ghost var logBefore := dev.log;
        ChunkStep(dev.blocks, g, cur, src, done, chunk);
        scratch2 := dev.ReadBlock(g.journalStart + local);
        scratch2 := Splice(scratch2, within, src[done..done + chunk]);
        dev.WriteBlock(g.journalStart + local, scratch2);
        cur := cur + chunk;
        done := done + chunk;
        ghost var rest' := ChunkWrites(dev.blocks, g, cur, src[done..]);
        assert logBefore + ([Write(g.journalStart + local, scratch2)] + rest') == dev.log + rest';
      }
      assert src[done..] == [];
      ChunkWritesEmpty(dev.blocks, g, cur);
      assert dev.log + [] == dev.log;
    }

    /** The record goes into the log piece by piece; only then is the block written to its place. */
    method LogAndApply(target: nat)
      requires g.Valid() && DiskOk(dev.blocks, g) && 512 <= g.blockSize && g.blockSize % 8 == 0
      requires |scratch| == g.blockSize && |scratch2| == g.blockSize && target < |dev.blocks|
      requires StepOk(g, Txn(Write(target, scratch)))
      requires journalOffset % 8 == 0 && journalOffset + g.RecordSize() <= g.JournalBytes()
      modifies this`scratch2, this`journalOffset, dev
      ensures |scratch2| == g.blockSize && DiskOk(dev.blocks, g)
      ensures journalOffset == old(journalOffset) + g.RecordSize()
      ensures var ws := StepWrites(old(dev.blocks), g, old(journalOffset), Txn(Write(target, scratch)));
              dev.log == old(dev.log) + ws && dev.blocks == Apply(old(dev.blocks), ws)
      ensures View(dev.blocks, g) == Put(View(old(dev.blocks), g), target, scratch)
    {
      hide *;
      RecordSizes(g);
      var off := journalOffset;
      TxnCompose(dev.blocks, g, off, Write(target, scratch));
      JournalWriteBytes(off, BeginHeader(g, off, target, scratch));
      JournalWriteBytes(off + HEADER_SIZE, scratch);
      JournalWriteBytes(off + HEADER_SIZE + g.blockSize, CommitHeader());
      journalOffset := off + HEADER_SIZE + g.blockSize + HEADER_SIZE;
      dev.WriteBlock(target, scratch);
    }

    /** A log that can hold no record is bypassed: the block goes straight to its place. */
    method WriteUnlogged(target: nat)
      requires Valid() && g.bitmapStart <= target < g.dataStart && !g.InJournal(target)
      requires g.RecordSize() > g.JournalBytes()
      modifies this, dev
      ensures Valid() && Continues() && freeHint == old(freeHint)
      ensures scratch == old(scratch)
      ensures V() == Put(old(V()), target, scratch)
      ensures history == old(history) + [V()] && steps == old(steps) + [Txn(Write(target, scratch))]
      ensures exposed && lap == old(lap) && prev == old(prev)
    {
      hide *;
      ValidParts();
      ghost var w := Write(target, scratch);
      TargetOk(dev.blocks, g, w);
      ghost var blocks0 := dev.blocks;
      PutOutside(blocks0, g, w);
      LapPasses(blocks0, g, journalOffset, lap, prev, w);
      dev.WriteBlock(target, scratch);
      exposed := true;
      ViewIs();
      Advance(Txn(w));
      ContinuesNow(Txn(w));
    }

    /** A full log starts over from offset 0; from now on a crash is not covered. */
    method StartOver()
      requires Valid() && journalOffset + g.RecordSize() > g.JournalBytes()
      modifies this`journalOffset, this`exposed, this`lap, this`prev
      ensures Valid() && journalOffset == 0 && exposed && lap == [] && prev == old(lap)
    {
      hide *;
      ValidParts();
      LapTurns(dev.blocks, g, journalOffset, lap, prev);
      journalOffset := 0;
      exposed, lap, prev := true, [], lap;
      ViewIs();
      MakeValid();
    }

    /** The transaction proper: the record, then the block. */
    method WriteLogged(target: nat)
      requires Valid() && g.bitmapStart <= target < g.dataStart && !g.InJournal(target)
      requires journalOffset + g.RecordSize() <= g.JournalBytes()
      modifies this, dev
      ensures Valid() && Continues() && freeHint == old(freeHint)
      ensures scratch == old(scratch)
      ensures V() == Put(old(V()), target, scratch)
      ensures history == old(history) + [V()] && steps == old(steps) + [Txn(Write(target, scratch))]
      ensures exposed == old(exposed) && lap == old(lap) + [Write(target, scratch)] && prev == old(prev)
    {
      hide *;
      ValidParts();
      ghost var w := Write(target, scratch);
      TargetOk(dev.blocks, g, w);
      RecordSizes(g);
      ghost var blocks0, written0, off := dev.blocks, dev.log[mark..], journalOffset;
      LapMoves(blocks0, g, off, lap, prev, w);
      LogAndApply(target);
      lap := lap + [w];
      ghost var ws := StepWrites(blocks0, g, off, Txn(w));
      LogTail(old(dev.log), dev.log, ws, mark);
      if !exposed {
        SessionGrows(base, g, written0, blocks0, steps, history, off, Txn(w), ws);
      }
      ViewIs();
      TxnsSnoc(steps, Txn(w));
      Advance(Txn(w));
      ContinuesNow(Txn(w));
    }

    /**
     * vtx2_journal_write_transaction; its block_data is always the scratch buffer. A log without room
     * for the record starts over from offset 0; one that can hold no record is bypassed.
     */
    method JournalWriteTransaction(target: nat)
      requires Valid() && g.bitmapStart <= target < g.dataStart && !g.InJournal(target)
      modifies this, dev
      ensures Valid() && Continues() && freeHint == old(freeHint)
      ensures scratch == old(scratch)
      ensures V() == Put(old(V()), target, scratch)
      ensures history == old(history) + [V()] && steps == old(steps) + [Txn(Write(target, scratch))]
      ensures exposed == (old(exposed) || old(journalOffset) + g.RecordSize() > g.JournalBytes())
      ensures if g.RecordSize() > g.JournalBytes() then lap == old(lap) && prev == old(prev)
              else if old(journalOffset) + g.RecordSize() > g.JournalBytes()
              then lap == [Write(target, scratch)] && prev == old(lap)
              else lap == old(lap) + [Write(target, scratch)] && prev == old(prev)
    {
      hide Valid, V, Put, g.Valid, g.RecordSize, g.JournalBytes;
      RecordSizes(g);
      JournalSize(g);
      var needed := HEADER_SIZE + g.blockSize + HEADER_SIZE;
      if needed > g.journalCount * g.blockSize {
        WriteUnlogged(target);
        return;
      }
      if journalOffset + needed > g.journalCount * g.blockSize {
        StartOver();
      }
      WriteLogged(target);
    }

    /** Enters the finished step in the session's books. */
    ghost method Advance(s: Step)
      requires g.Valid() && DiskOk(dev.blocks, g)
      requires |scratch| == g.blockSize && |scratch2| == g.blockSize
      requires journalOffset % 8 == 0 && journalOffset <= g.JournalBytes()
      requires |history| == |steps| + 1 && mark <= |dev.log|
      requires !exposed ==> Session(base, g, dev.log[mark..], dev.blocks, steps + [s],
                                    history + [View(dev.blocks, g)], journalOffset)
      requires Lap(dev.blocks, g, journalOffset, lap, prev) && (!exposed ==> lap == Txns(steps + [s]) && prev == [])
      modifies this`history, this`steps
      ensures Valid() && V() == old(V())
      ensures history == old(history) + [V()] && steps == old(steps) + [s]
    {
      hide *;
      ViewIs();
      history := history + [V()];
      steps := steps + [s];
      ViewIs();
      MakeValid();
    }

    /** read_block of a block outside the journal into g_scratch_block. */
    method Load(b: nat)
      requires Valid() && b < |V()| && !g.InJournal(b)
      modifies this`scratch
      ensures Valid() && scratch == V()[b] && |scratch| == g.blockSize
    {
      hide g.Valid, Session, Lap, Txns;
      scratch := dev.ReadBlock(b);
    }

    /** read_block of a block outside the journal into g_scratch_block2. */
    method Load2(b: nat)
      requires Valid() && b < |V()| && !g.InJournal(b)
      modifies this`scratch2
      ensures Valid() && scratch2 == V()[b] && |scratch2| == g.blockSize
    {
      hide g.Valid, Session, Lap, Txns;
      scratch2 := dev.ReadBlock(b);
    }

    /** A store into g_scratch_block. */
    method SetScratch(data: Block)
      requires Valid() && |data| == g.blockSize
      modifies this`scratch
      ensures Valid() && scratch == data
    {
      hide g.Valid, Session, Lap, Txns;
      scratch := data;
    }

    /** A store into g_scratch_block2. */
    method SetScratch2(data: Block)
      requires Valid() && |data| == g.blockSize
      modifies this`scratch2
      ensures Valid() && scratch2 == data
    {
      hide g.Valid, Session, Lap, Txns;
      scratch2 := data;
    }

    /** The superblock's free_blocks_hint lives in memory only. */
    method SetFreeHint(n: nat)
      requires Valid()
      modifies this`freeHint
      ensures Valid() && freeHint == n
    {
      hide g.Valid, Session, Lap, Txns;
      freeHint := n;
    }

    /** write_block of a data block: it does not pass through the journal. */
    method Store(b: nat, data: Block)
      requires Valid() && g.dataStart <= b < g.totalBlocks && |data| == g.blockSize
      modifies this`history, this`steps, dev
      ensures Valid() && Continues()
      ensures V() == Put(old(V()), b, data)
      ensures history == old(history) + [V()] && steps == old(steps) + [Raw(Write(b, data))]
    {
      hide *;
      ValidParts();
      ghost var w := Write(b, data);
      DataTargetOk(dev.blocks, g, w);
      ghost var blocks0, written0 := dev.blocks, dev.log[mark..];
      PutOutside(blocks0, g, w);
      StepWritesParts(blocks0, g, journalOffset, Raw(w));
      ApplyOne(blocks0, w);
      dev.WriteBlock(b, data);
      LogTail(old(dev.log), dev.log, [w], mark);
      LapStays(blocks0, g, journalOffset, lap, prev, w);
      TxnsSnoc(steps, Raw(w));
      if !exposed {
        SessionGrows(base, g, written0, blocks0, steps, history, journalOffset, Raw(w), [w]);
      }
      ViewIs();
      Advance(Raw(w));
      ContinuesNow(Raw(w));
    }

    /** vtx2_zero_blocks. */
    method ZeroBlocks(start: nat, count: nat)
      requires start + count <= |dev.blocks|
      modifies this`scratch, dev
      ensures dev.blocks == Zeroed(old(dev.blocks), g.blockSize, start, count)
      ensures |scratch| == g.blockSize
    {
      scratch := Zeros(g.blockSize);
      var i := 0;
      while i < count
        invariant i <= count && scratch == Zeros(g.blockSize)
        invariant dev.blocks == Zeroed(old(dev.blocks), g.blockSize, start, i)
      {
        dev.WriteBlock(start + i, scratch);
        i := i + 1;
      }
    }

    /** One turn of the replay scan: read a record and check it; the payload goes to g_scratch_block. */
    method ReadRecord(offset: nat) returns (p: Parsed)
      requires g.Valid() && DiskOk(dev.blocks, g) && g.journalStart + g.journalCount <= |dev.blocks|
      requires |scratch| == g.blockSize && |scratch2| == g.blockSize
      requires offset + HEADER_SIZE <= g.JournalBytes()
      modifies this`scratch, this`scratch2
      ensures |scratch| == g.blockSize && |scratch2| == g.blockSize
      ensures p == ParseAt(Journal(dev.blocks, g), g, offset)
      ensures p.Found? ==> |p.payload| <= g.blockSize && scratch == Splice(old(scratch), 0, p.payload)
    {
      hide g.Valid, DiskOk, Journal, Splice, Fnv, DecodeHeader, UnLE;
      GeometryBounds(g, dev.blocks);
      p := Stop;
      var bytes := JournalReadBytes(offset, HEADER_SIZE);
      var hdr := DecodeHeader(bytes);
      if hdr.magic == 0 {
        return;
      }
      if hdr.magic != MAGIC_BEGIN {
        return;
      }
      var start := offset + HEADER_SIZE;
      if hdr.length == 0 || hdr.length > g.blockSize || start + hdr.length + HEADER_SIZE > g.JournalBytes() {
        return;
      }
      var payload := JournalReadBytes(start, hdr.length);
      scratch := Splice(scratch, 0, payload);
      if Fnv(payload) != hdr.checksum {
        return;
      }
      var commit := JournalReadBytes(start + hdr.length, HEADER_SIZE);
      if DecodeHeader(commit).magic != MAGIC_COMMIT {
        return;
      }
      p := Found(hdr.target, payload, start + hdr.length + HEADER_SIZE);
    }

    /** vtx2_journal_replay; fails when a record names a block the device does not have. */
    method JournalReplay() returns (ok: bool)
      requires g.Valid() && DiskOk(dev.blocks, g) && g.journalStart + g.journalCount <= |dev.blocks|
      requires |scratch| == g.blockSize && |scratch2| == g.blockSize
      modifies this`scratch, this`scratch2, dev
      ensures |scratch| == g.blockSize && |scratch2| == g.blockSize
      ensures var r := ReplayFrom(old(dev.blocks), g, old(scratch), 0);
              && ok == r.ok
              && dev.blocks == if r.ok && r.applied
                               then Zeroed(r.disk, g.blockSize, g.journalStart, g.journalCount) else r.disk
    {
      hide *;
      JournalSize(g);
      RecordSizes(g);
      ghost var r0 := ReplayFrom(dev.blocks, g, scratch, 0);
      var offset: nat, applied, running := 0, false, true;
      ok := true;
      while running && offset + HEADER_SIZE <= g.journalCount * g.blockSize
        invariant DiskOk(dev.blocks, g) && g.journalStart + g.journalCount <= |dev.blocks|
        invariant |scratch| == g.blockSize && |scratch2| == g.blockSize
        invariant running ==> ok
        invariant running ==> var r := ReplayFrom(dev.blocks, g, scratch, offset);
                              r0 == r.(applied := applied || r.applied)
        invariant !running ==> r0 == Replayed(dev.blocks, ok, applied)
        decreases running, g.journalCount * g.blockSize - offset
      {
        ghost var before := scratch;
        ReplayTurn(dev.blocks, g, before, offset);
        var p := ReadRecord(offset);
        if p.Stop? {
          running := false;
        } else if p.target >= |dev.blocks| {
          ok, applied, running := false, true, false;
        } else {
          dev.WriteBlock(p.target, scratch);
          applied := true;
          offset := p.next;
        }
      }
      if running {
        ReplayEnd(dev.blocks, g, scratch, offset);
      }
      if ok && applied {
        ZeroBlocks(g.journalStart, g.journalCount);
      }
    }

    /** The log is clean and its cursor at the start: a session begins. */
    ghost method BeginSession()
      requires Clean(dev.blocks, g) && |scratch| == g.blockSize && |scratch2| == g.blockSize && journalOffset == 0
      modifies this`base, this`mark, this`steps, this`history, this`exposed, this`lap, this`prev
      ensures Valid() && !exposed && base == dev.blocks && mark == |dev.log|
      ensures history == [V()] && steps == []
    {
      hide *;
      CleanParts(dev.blocks, g);
      EmptySession(dev.blocks, g, View(dev.blocks, g));
      base, mark, steps, exposed, lap, prev := dev.blocks, |dev.log|, [], false, [], [];
      LapBegins(dev.blocks, g);
      ViewIs();
      history := [V()];
      ViewIs();
      SlotNext(g, 0);
      EmptyHistory(View(base, g), g);
      MakeSession(base, g, [], dev.blocks, steps, history, 0);
      assert dev.log[mark..] == [];
      MakeValid();
    }

    lemma ValidParts()
      requires Valid()
      ensures g.Valid() && DiskOk(dev.blocks, g) && 512 <= g.blockSize && g.blockSize % 8 == 0
      ensures |scratch| == g.blockSize && |scratch2| == g.blockSize
      ensures journalOffset % 8 == 0 && journalOffset <= g.JournalBytes()
      ensures |history| == |steps| + 1 && history[|steps|] == V() && V() == View(dev.blocks, g)
      ensures mark <= |dev.log| && g.totalBlocks <= |dev.blocks|
      ensures !exposed ==> Session(base, g, dev.log[mark..], dev.blocks, steps, history, journalOffset)
      ensures Lap(dev.blocks, g, journalOffset, lap, prev) && (!exposed ==> lap == Txns(steps) && prev == [])
    {
      hide Session, Lap, Txns;
      BlockSizeOk(g);
    }

    lemma MakeValid()
      requires g.Valid() && DiskOk(dev.blocks, g)
      requires |scratch| == g.blockSize && |scratch2| == g.blockSize
      requires journalOffset % 8 == 0 && journalOffset <= g.JournalBytes()
      requires |history| == |steps| + 1 && history[|steps|] == V()
      requires mark <= |dev.log|
      requires !exposed ==> Session(base, g, dev.log[mark..], dev.blocks, steps, history, journalOffset)
      requires Lap(dev.blocks, g, journalOffset, lap, prev) && (!exposed ==> lap == Txns(steps) && prev == [])
      ensures Valid()
    {
      hide g.Valid, DiskOk, Session, V, Lap, Txns;
    }

    lemma ViewIs()
      ensures V() == View(dev.blocks, g)
    {
    }

    twostate lemma ContinuesNow(s: Step)
      requires base == old(base) && mark == old(mark)
      requires steps == old(steps) + [s] && |history| == |old(history)| + 1 && history[..|old(history)|] == old(history)
      requires old(exposed) ==> exposed
      ensures Continues()
    {
    }
  }

  lemma LapBegins(d: seq<Block>, g: Geometry)
    requires Clean(d, g)
    ensures g.Valid() && Lap(d, g, 0, [], []) && Txns([]) == []
  {
    hide LogOk, Clean;
    LapStart(d, g);
    SlotNext(g, 0);
  }

  lemma LapMoves(d: seq<Block>, g: Geometry, off: nat, lap: seq<Write>, prev: seq<Write>, w: Write)
    requires g.Valid() && g.blockSize > 0 && Lap(d, g, off, lap, prev) && StepOk(g, Txn(w))
    requires off + g.RecordSize() <= g.JournalBytes()
    ensures Lap(Apply(d, StepWrites(d, g, off, Txn(w))), g, off + g.RecordSize(), lap + [w], prev)
  {
    hide LogOk, StepWrites, Apply, StepOk, g.Valid, Slot;
    LapGrows(d, g, lap, prev, w);
    SlotNext(g, |lap|);
  }

  lemma LapTurns(d: seq<Block>, g: Geometry, off: nat, lap: seq<Write>, prev: seq<Write>)
    requires g.Valid() && Lap(d, g, off, lap, prev) && off <= g.JournalBytes() < off + g.RecordSize()
    ensures Lap(d, g, 0, [], lap)
  {
    hide LogOk, g.Valid, Slot;
    SlotNext(g, |lap|);
    LapWraps(d, g, lap, prev);
    SlotNext(g, 0);
  }

  lemma LapStays(d: seq<Block>, g: Geometry, off: nat, lap: seq<Write>, prev: seq<Write>, w: Write)
    requires g.Valid() && Lap(d, g, off, lap, prev) && StepOk(g, Raw(w))
    ensures Lap(Put(d, w.block, w.data), g, off, lap, prev)
  {
    hide LogOk, g.Valid, StepOk, Put;
    LapKeeps(d, g, lap, prev, w);
  }

  /** A log that can hold no record holds none. */
  lemma LapPasses(d: seq<Block>, g: Geometry, off: nat, lap: seq<Write>, prev: seq<Write>, w: Write)
    requires g.Valid() && Lap(d, g, off, lap, prev) && StepOk(g, Txn(w)) && off <= g.JournalBytes() < g.RecordSize()
    ensures Lap(Put(d, w.block, w.data), g, off, lap, prev)
  {
    hide LogOk, g.Valid, StepOk, Put;
    NoRoom(d, g, lap, prev);
    LapBypassed(d, g, w);
  }

  lemma NoRoom(d: seq<Block>, g: Geometry, lap: seq<Write>, prev: seq<Write>)
    requires g.Valid() && LogOk(d, g, lap, prev) && Slot(g, |lap|) <= g.JournalBytes() < g.RecordSize()
    ensures lap == [] && prev == []
  {
    hide LogOk, g.Valid;
    LogParts(d, g, lap, prev);
    if |lap| > 0 {
      MulMono(1, |lap|, g.RecordSize());
    }
    if |prev| > 0 {
      MulMono(1, |prev|, g.RecordSize());
    }
  }

  /**
   * What replay would make of a mounted volume as it is: as long as the log has not wrapped, the volume
   * itself; afterwards the volume itself if and only if no record left from the lap before disagrees with
   * one of this lap.
   */
  lemma ReplayNow(vol: Volume, scratch: Block)
    requires vol.Valid() && |scratch| == vol.g.blockSize
    ensures vol.g.journalStart + vol.g.journalCount <= |vol.dev.blocks|
    ensures var r := ReplayFrom(vol.dev.blocks, vol.g, scratch, 0);
            && r.ok
            && (View(r.disk, vol.g) == vol.V() <==> forall b :: !Conflict(Leftover(vol.lap, vol.prev), vol.lap, b))
            && (!vol.exposed ==> View(r.disk, vol.g) == vol.V())
  {
    hide *;
    vol.ValidParts();
    GeometryBounds(vol.g, vol.dev.blocks);
    LapLog(vol.dev.blocks, vol.g, vol.journalOffset, vol.lap, vol.prev);
    ReplayOfLaps(vol.dev.blocks, vol.g, scratch, vol.lap, vol.prev);
    if !vol.exposed {
      NothingLeft(vol.lap);
      NoConflict(vol.lap);
    }
  }

  lemma LapLog(d: seq<Block>, g: Geometry, off: nat, lap: seq<Write>, prev: seq<Write>)
    requires g.Valid() && Lap(d, g, off, lap, prev)
    ensures LogOk(d, g, lap, prev)
  {
    hide LogOk, g.Valid;
  }

  lemma NothingLeft(lap: seq<Write>)
    ensures Leftover(lap, []) == []
  {
  }

  function Zeros(n: nat): (z: seq<byte>)
    ensures |z| == n
  {
    seq(n, _ => 0)
  }

  /** `count` blocks from `start` on are zero, the rest is d. */
  function Zeroed(d: seq<Block>, size: nat, start: nat, count: nat): (r: seq<Block>)
    requires start + count <= |d|
    ensures |r| == |d|
    ensures forall b :: 0 <= b < |d| ==> r[b] == if start <= b < start + count then Zeros(size) else d[b]
  {
    seq(|d|, b requires 0 <= b < |d| => if start <= b < start + count then Zeros(size) else d[b])
  }

  /** What ReplayFrom does with the record at off. */
  lemma ReplayTurn(d: seq<Block>, g: Geometry, scratch: Block, off: nat)
    requires g.Valid() && DiskOk(d, g) && g.journalStart + g.journalCount <= |d|
    requires |scratch| == g.blockSize && off + HEADER_SIZE <= g.JournalBytes()
    ensures var p := ParseAt(Journal(d, g), g, off);
            var r := ReplayFrom(d, g, scratch, off);
            && (p.Stop? ==> r == Replayed(d, true, false))
            && (p.Found? ==> |p.payload| <= g.blockSize && off < p.next)
            && (p.Found? && p.target >= |d| ==> r == Replayed(d, false, true))
            && (p.Found? && p.target < |d| ==>
                  var image := Splice(scratch, 0, p.payload);
                  var d' := Put(d, p.target, image);
                  && DiskOk(d', g)
                  && r == ReplayFrom(d', g, image, p.next).(applied := true))
  {
    hide ParseAt, Journal, g.Valid, Put;
    var p := ParseAt(Journal(d, g), g, off);
    if p.Found? {
      PutDiskOk(d, g, p.target, Splice(scratch, 0, p.payload));
    }
  }

  lemma ReplayEnd(d: seq<Block>, g: Geometry, scratch: Block, off: nat)
    requires g.journalStart + g.journalCount <= |d| && |scratch| == g.blockSize
    requires off + HEADER_SIZE > g.JournalBytes()
    ensures ReplayFrom(d, g, scratch, off) == Replayed(d, true, false)
  {
    hide ParseAt, Journal;
  }

  lemma DataTargetOk(d: seq<Block>, g: Geometry, w: Write)
    requires g.Valid() && DiskOk(d, g) && g.dataStart <= w.block < g.totalBlocks && |w.data| == g.blockSize
    ensures StepOk(g, Raw(w)) && Outside(d, g, w) && w.block < |d|
    ensures DiskOk(Put(d, w.block, w.data), g)
  {
  }

  lemma EmptyHistory(v: seq<Block>, g: Geometry)
    ensures HistoryOf([v], v, []) && StepsOk(g, [])
  {
    var steps: seq<Step> := [];
    assert steps[..0] == [];
  }

  lemma JournalSize(g: Geometry)
    ensures g.JournalBytes() == g.journalCount * g.blockSize
  {
  }

  lemma TargetOk(d: seq<Block>, g: Geometry, w: Write)
    requires g.Valid() && DiskOk(d, g) && g.bitmapStart <= w.block < g.dataStart && !g.InJournal(w.block)
    requires |w.data| == g.blockSize
    ensures StepOk(g, Txn(w)) && Outside(d, g, w) && w.block < |d|
    ensures DiskOk(Put(d, w.block, w.data), g)
  {
  }

  lemma LogTail(log0: seq<Write>, log1: seq<Write>, ws: seq<Write>, mark: nat)
    requires log1 == log0 + ws && mark <= |log0|
    ensures log1[mark..] == log0[mark..] + ws
  {
  }

  /** The writes of the three log pieces and of the target block are the writes of the step. */
  lemma TxnCompose(d: seq<Block>, g: Geometry, off: nat, w: Write)
    requires g.Valid() && DiskOk(d, g) && 512 <= g.blockSize && g.blockSize % 8 == 0
    requires off % 8 == 0 && off + g.RecordSize() <= g.JournalBytes()
    requires |w.data| == g.blockSize && StepOk(g, Txn(w))
    ensures var b, c := BeginHeader(g, off, w.block, w.data), CommitHeader();
            var w1 := LogChunk(d, g, off, b);
            var d1 := Apply(d, w1);
            var w2 := LogChunk(d1, g, off + HEADER_SIZE, w.data);
            var d2 := Apply(d1, w2);
            var w3 := LogChunk(d2, g, off + HEADER_SIZE + g.blockSize, c);
            var d3 := Apply(d2, w3);
            var ws := StepWrites(d, g, off, Txn(w));
            && w1 + w2 + w3 + [w] == ws
            && Put(d3, w.block, w.data) == Apply(d, ws)
            && DiskOk(Apply(d, ws), g)
            && View(Apply(d, ws), g) == Put(View(d, g), w.block, w.data)
  {
    hide *;
    var b, c := BeginHeader(g, off, w.block, w.data), CommitHeader();
    var w1 := LogChunk(d, g, off, b);
    var d1 := Apply(d, w1);
    var w2 := LogChunk(d1, g, off + HEADER_SIZE, w.data);
    var d2 := Apply(d1, w2);
    var w3 := LogChunk(d2, g, off + HEADER_SIZE + g.blockSize, c);
    var d3 := Apply(d2, w3);
    var log := LogWrites(d, g, off, w);
    LogWritesParts(d, g, off, w);
    StepWritesParts(d, g, off, Txn(w));
    ApplyConcat(d, w1, w2);
    ApplyConcat(d, w1 + w2, w3);
    ApplyLast(d, log, w);
    LogWritesStream(d, g, off, w);
    StreamsWhole(d, g, log, off, Record(g, off, w));
    LoggedView(d, d3, g, off, Record(g, off, w));
    StepOutside(d3, g, Txn(w));
    PutOutside(d3, g, w);
    assert w1 + w2 + w3 + [w] == StepWrites(d, g, off, Txn(w));
  }

  lemma LoggedView(d: seq<Block>, d': seq<Block>, g: Geometry, off: nat, data: seq<byte>)
    requires g.Valid() && DiskOk(d, g) && DiskOk(d', g)
    requires ImageOf(d', g) == Logged(ImageOf(d, g), off, data)
    ensures View(d', g) == View(d, g)
  {
    hide g.Valid, DiskOk, Journal, View, Splice;
  }

  /** One turn of the read loop, as values. */
  lemma ReadStep(d: seq<Block>, g: Geometry, cur: nat, remaining: nat, chunk: nat)
    requires g.Valid() && DiskOk(d, g) && g.blockSize > 0 && g.journalStart + g.journalCount <= |d|
    requires 0 < remaining && cur + remaining <= g.JournalBytes()
    requires chunk == if g.blockSize - g.LogByte(cur) > remaining then remaining else g.blockSize - g.LogByte(cur)
    ensures 0 <= g.LogByte(cur) && 0 <= g.LogBlock(cur) && 0 < chunk
    ensures g.journalStart + g.LogBlock(cur) < |d|
    ensures |d[g.journalStart + g.LogBlock(cur)]| == g.blockSize
    ensures g.LogByte(cur) + chunk <= g.blockSize && cur + chunk <= |Journal(d, g)|
    ensures Journal(d, g)[cur..cur + chunk]
         == d[g.journalStart + g.LogBlock(cur)][g.LogByte(cur)..g.LogByte(cur) + chunk]
  {
    hide *;
    Position(g, cur);
    RegionBlock(d, g, g.LogBlock(cur));
    JournalSlice(d, g, g.LogBlock(cur), g.LogByte(cur), chunk);
  }

  /** One turn of the write loop, as values: what is written, and what is left to write. */
  lemma ChunkStep(d: seq<Block>, g: Geometry, cur: nat, src: seq<byte>, done: nat, chunk: nat)
    requires g.Valid() && DiskOk(d, g) && g.blockSize > 0
    requires done < |src| && cur + |src| - done <= g.JournalBytes()
    requires chunk == Chunk(g, cur, |src| - done)
    ensures chunk > 0
    ensures 0 <= g.LogByte(cur) && 0 <= g.LogBlock(cur)
    ensures g.journalStart + g.LogBlock(cur) < |d|
    ensures |d[g.journalStart + g.LogBlock(cur)]| == g.blockSize
    ensures g.LogByte(cur) + chunk <= g.blockSize
    ensures var b := g.journalStart + g.LogBlock(cur);
            var x := Splice(d[b], g.LogByte(cur), src[done..done + chunk]);
            var d' := Put(d, b, x);
            && DiskOk(d', g)
            && var rest := ChunkWrites(d', g, cur + chunk, src[done + chunk..]);
            && ChunkWrites(d, g, cur, src[done..]) == [Write(b, x)] + rest
            && Apply(d, ChunkWrites(d, g, cur, src[done..])) == Apply(d', rest)
  {
    hide *;
    var data := src[done..];
    Position(g, cur);
    ChunkPositive(g, cur, |data|);
    ChunkShape(d, g, cur, data);
    ChunkWritesUnfold(d, g, cur, data);
    RegionBlock(d, g, g.LogBlock(cur));
    assert data[..chunk] == src[done..done + chunk];
    assert data[chunk..] == src[done + chunk..];
    var ws := ChunkWrites(d, g, cur, data);
    ApplyHead(d, ws);
    assert ws[1..] == ChunkWrites(Put(d, ws[0].block, ws[0].data), g, cur + chunk, data[chunk..]);
  }

  lemma ChunkPositive(g: Geometry, cur: nat, length: nat)
    requires g.blockSize > 0 && length > 0
    ensures Chunk(g, cur, length) > 0
  {
  }

  lemma ChunkWritesEmpty(d: seq<Block>, g: Geometry, off: nat)
    requires g.Valid() && DiskOk(d, g) && off <= g.JournalBytes()
    ensures ChunkWrites(d, g, off, []) == [] && Apply(d, []) == d
  {
  }

  lemma ApplyHead(d: seq<Block>, ws: seq<Write>)
    requires ws != []
    ensures Apply(d, ws) == Apply(Put(d, ws[0].block, ws[0].data), ws[1..])
  {
  }

  lemma StreamsWhole(d: seq<Block>, g: Geometry, ws: seq<Write>, off: nat, data: seq<byte>)
    requires g.Valid() && DiskOk(d, g) && Streams(d, g, ws, off, data)
    ensures DiskOk(Apply(d, ws), g) && ImageOf(Apply(d, ws), g) == Logged(ImageOf(d, g), off, data)
  {
    hide g.Valid, DiskOk, ImageOf, Logged, CutShort;
    assert data[..|data|] == data;
  }

  lemma JournalSlice(d: seq<Block>, g: Geometry, q: nat, r: nat, c: nat)
    requires g.Valid() && DiskOk(d, g) && q < g.journalCount && r + c <= g.blockSize
    requires g.journalStart + g.journalCount <= |d| && |d[g.journalStart + q]| == g.blockSize
    ensures 0 <= q * g.blockSize && q * g.blockSize + r + c <= |Journal(d, g)|
    ensures Journal(d, g)[q * g.blockSize + r..q * g.blockSize + r + c] == d[g.journalStart + q][r..r + c]
  {
    hide *;
    RegionOk(d, g);
    RegionBlock(d, g, q);
    FlatSlice(Region(d, g), g.blockSize, q, r, c);
  }

  lemma {:induction false} ExpandMono(base: seq<Block>, g: Geometry, steps: seq<Step>, i: nat)
    requires g.blockSize > 0 && i <= |steps|
    ensures |Expand(base, g, steps[..i])| <= |Expand(base, g, steps)|
    decreases |steps|
  {
    if i == |steps| {
      assert steps[..i] == steps;
    } else {
      ExpandGrows(base, g, steps);
      ExpandMono(base, g, steps[..|steps| - 1], i);
      PrefixPrefix(steps, |steps| - 1, i);
    }
  }

  /**
   * A power cut at any block write of a session whose log did not wrap. After replay the volume is
   * one of the states of the session's history, and no step that was finished by then is lost.
   */
  lemma CrashPoint(vol: Volume, m: nat) returns (k: nat)
    requires vol.Valid() && !vol.exposed && m <= |vol.dev.log| - vol.mark
    ensures vol.g.Valid() && vol.g.blockSize > 0 && vol.mark <= |vol.dev.log|
    ensures k < |vol.history| && k <= |vol.steps|
    ensures RecoversTo(Apply(vol.base, vol.dev.log[vol.mark..vol.mark + m]), vol.g, vol.history[k])
    ensures forall i :: 0 <= i <= |vol.steps| && |Expand(vol.base, vol.g, vol.steps[..i])| <= m ==> i <= k
  {
    hide *;
    vol.ValidParts();
    var written := vol.dev.log[vol.mark..];
    SessionParts(vol.base, vol.g, written, vol.dev.blocks, vol.steps, vol.history, vol.journalOffset);
    k := CrashAtomicity(vol.base, vol.g, vol.steps, m);
    assert written[..m] == vol.dev.log[vol.mark..vol.mark + m];
    HistoryAt(vol.history, View(vol.base, vol.g), vol.steps, k);
    forall i | 0 <= i <= |vol.steps| && |Expand(vol.base, vol.g, vol.steps[..i])| <= m ensures i <= k {
      if k < i {
        ExpandMono(vol.base, vol.g, vol.steps[..i], k + 1);
        PrefixPrefix(vol.steps, i, k + 1);
      }
    }
  }

  lemma HistoryAt(history: seq<seq<Block>>, v: seq<Block>, steps: seq<Step>, k: nat)
    requires HistoryOf(history, v, steps) && k <= |steps|
    ensures |history| == |steps| + 1 && history[k] == Atomic(v, steps[..k])
  {
    hide Atomic;
  }
}
