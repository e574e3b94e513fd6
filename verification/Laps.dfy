/**
 * The log over any number of laps: the records of the current lap, and behind them what the lap before
 * left. This is what a volume's log holds also after it has started over.
 */
module Laps {
  import opened Bytes
  import opened Layout
  import opened JournalBytes
  import opened JournalStream
  import opened JournalRecord
  import opened Recovery
  import opened CrashSafety
  import opened CrashTheorems
  import opened Wrap

  /** The records of the lap before that the current lap has not reached. */
  function Leftover(lap: seq<Write>, prev: seq<Write>): seq<Write> {
    if |lap| <= |prev| then prev[|lap|..] else []
  }

  ghost predicate MetadataWrites(g: Geometry, ws: seq<Write>) {
    forall i :: 0 <= i < |ws| ==> StepOk(g, Txn(ws[i]))
  }

  /** The log has no room for another record behind n of them. */
  predicate Full(g: Geometry, n: nat) {
    Slot(g, n) <= g.JournalBytes() < Slot(g, n + 1)
  }

  /** The device's log holds the lap and what is left of the one before; every record has been carried out. */
  ghost predicate LogOk(d: seq<Block>, g: Geometry, lap: seq<Write>, prev: seq<Write>)
    requires g.Valid()
  {
    && Intact(d, g, View(d, g), lap + Leftover(lap, prev))
    && MetadataWrites(g, prev + lap)
    && Apply(View(d, g), prev + lap) == View(d, g)
    && (prev != [] ==> |lap| <= |prev| && Full(g, |prev|))
  }

  lemma LogParts(d: seq<Block>, g: Geometry, lap: seq<Write>, prev: seq<Write>)
    requires g.Valid() && LogOk(d, g, lap, prev)
    ensures DiskOk(d, g) && 512 <= g.blockSize < TWO_32 && g.blockSize % 8 == 0
    ensures g.journalStart + g.journalCount <= |d|
    ensures JournalIs(Journal(d, g), g, lap + Leftover(lap, prev)) && |Journal(d, g)| == g.JournalBytes()
    ensures MetadataWrites(g, prev + lap) && Apply(View(d, g), prev + lap) == View(d, g)
    ensures prev != [] ==> |lap| <= |prev| && Full(g, |prev|)
  {
    hide g.Valid, DiskOk, Journal, JournalIs, View, Apply, MetadataWrites, Full, Leftover, Intact;
    IntactParts(d, g, View(d, g), lap + Leftover(lap, prev));
  }

  lemma MakeLog(d: seq<Block>, g: Geometry, lap: seq<Write>, prev: seq<Write>)
    requires g.Valid() && DiskOk(d, g) && g.journalStart + g.journalCount <= |d|
    requires JournalIs(Journal(d, g), g, lap + Leftover(lap, prev))
    requires MetadataWrites(g, prev + lap) && Apply(View(d, g), prev + lap) == View(d, g)
    requires prev != [] ==> |lap| <= |prev| && Full(g, |prev|)
    ensures LogOk(d, g, lap, prev)
  {
    hide g.Valid, DiskOk, Journal, JournalIs, View, Apply, MetadataWrites, Full, Leftover;
  }

  /** A clean log: no lap yet. */
  lemma LapStart(d: seq<Block>, g: Geometry)
    requires Clean(d, g)
    ensures g.Valid() && LogOk(d, g, [], [])
  {
    hide g.Valid, DiskOk, Journal, JournalIs, View, Full;
    CleanParts(d, g);
    IntactParts(d, g, View(d, g), []);
    assert [] + Leftover([], []) == [];
    MakeLog(d, g, [], []);
  }

  /** Writing metadata again that was written last changes nothing. */
  lemma Absorbed(v: seq<Block>, ws: seq<Write>, w: Write)
    requires Apply(v, ws) == v
    ensures var v' := Put(v, w.block, w.data); Apply(v', ws + [w]) == v'
  {
    hide Apply;
    var v' := Put(v, w.block, w.data);
    FoldAgree(v', v, ws, w.block);
    ApplyLast(v', ws, w);
    PutPut(Apply(v', ws), v, w.block, w.data);
  }

  lemma LeftoverNext(lap: seq<Write>, prev: seq<Write>, w: Write)
    ensures |lap| < |prev| ==> |lap + Leftover(lap, prev)| > |lap|
    ensures |lap| < |prev| ==> (lap + Leftover(lap, prev))[|lap| := w] == (lap + [w]) + Leftover(lap + [w], prev)
    ensures |lap| >= |prev| ==> lap + Leftover(lap, prev) == lap
    ensures |lap| >= |prev| ==> (lap + [w]) + Leftover(lap + [w], prev) == lap + [w]
  {
  }

  lemma MetadataSnoc(g: Geometry, ws: seq<Write>, w: Write)
    requires MetadataWrites(g, ws) && StepOk(g, Txn(w))
    ensures MetadataWrites(g, ws + [w])
  {
  }

  /** The log after the three pieces of a record have been streamed into the lap's next slot. */
  lemma RecordInLog(log: seq<byte>, g: Geometry, lap: seq<Write>, prev: seq<Write>, w: Write)
    requires JournalIs(log, g, lap + Leftover(lap, prev)) && |w.data| == g.blockSize
    requires 0 < g.blockSize < TWO_32 && g.blockSize % 8 == 0
    requires Slot(g, |lap|) + g.RecordSize() <= |log|
    ensures JournalIs(Splice(log, Slot(g, |lap|), Record(g, Slot(g, |lap|), w)), g, (lap + [w]) + Leftover(lap + [w], prev))
  {
    hide JournalIs, Slot, Record, Splice, Leftover;
    LeftoverNext(lap, prev, w);
    if |lap| < |prev| {
      OverwriteSlot(log, g, lap + Leftover(lap, prev), |lap|, w);
    } else {
      RecordSizes(g);
      var r := Record(g, Slot(g, |lap|), w);
      RecordCut(log, g, lap, w, |r|);
      assert r[..|r|] == r;
    }
  }

  /** One more transaction of the lap. */
  lemma LapGrows(d: seq<Block>, g: Geometry, lap: seq<Write>, prev: seq<Write>, w: Write)
    requires g.Valid() && g.blockSize > 0 && LogOk(d, g, lap, prev) && StepOk(g, Txn(w))
    requires Slot(g, |lap|) + g.RecordSize() <= g.JournalBytes()
    ensures var d' := Apply(d, StepWrites(d, g, Slot(g, |lap|), Txn(w)));
            LogOk(d', g, lap + [w], prev) && View(d', g) == Put(View(d, g), w.block, w.data)
  {
    hide *;
    LogParts(d, g, lap, prev);
    StepOutside(d, g, Txn(w));
    var off := Slot(g, |lap|);
    var log := LogWrites(d, g, off, w);
    StepWritesParts(d, g, off, Txn(w));
    ApplyLast(d, log, w);
    SlotAligned(g, |lap|);
    LogWritesStream(d, g, off, w);
    var d1 := Apply(d, log);
    StreamedWhole(d, g, log, off, Record(g, off, w));
    RecordInLog(Journal(d, g), g, lap, prev, w);
    StepOutside(d1, g, Txn(w));
    PutOutside(d1, g, w);
    var d' := Put(d1, w.block, w.data);
    Absorbed(View(d, g), prev + lap, w);
    MetadataSnoc(g, prev + lap, w);
    assert (prev + lap) + [w] == prev + (lap + [w]);
    LapRoom(g, |lap|, |prev|);
    GeometryBounds(g, d');
    MakeLog(d', g, lap + [w], prev);
  }

  lemma StreamedWhole(d: seq<Block>, g: Geometry, ws: seq<Write>, off: nat, data: seq<byte>)
    requires g.Valid() && DiskOk(d, g) && Streams(d, g, ws, off, data) && g.journalStart + g.journalCount <= |d|
    ensures var d' := Apply(d, ws);
            && DiskOk(d', g) && View(d', g) == View(d, g) && off + |data| <= |Journal(d, g)|
            && Journal(d', g) == Splice(Journal(d, g), off, data)
  {
    hide g.Valid, DiskOk, Journal, View, Splice, Streamed;
    assert ws[..|ws|] == ws;
    var n := CutAt(d, g, ws, |ws|, off, data);
    assert data[..n] == data;
    StreamedImage(d, Apply(d, ws), g, off, data, n);
  }

  /** A lap with room for a record is shorter than a full one. */
  lemma LapRoom(g: Geometry, n: nat, full: nat)
    requires Slot(g, n) + g.RecordSize() <= g.JournalBytes()
    ensures Full(g, full) ==> n < full
  {
    hide Slot;
    SlotNext(g, full);
    SlotNext(g, n);
    if Full(g, full) && full <= n {
      SlotMono(g, full, n);
    }
  }

  /** A full log starts over: the lap becomes the one before. */
  lemma LapWraps(d: seq<Block>, g: Geometry, lap: seq<Write>, prev: seq<Write>)
    requires g.Valid() && LogOk(d, g, lap, prev) && Full(g, |lap|)
    ensures LogOk(d, g, [], lap)
  {
    hide *;
    LogParts(d, g, lap, prev);
    SameFull(g, |lap|, |prev|);
    WholeLap(lap, prev);
    var v := View(d, g);
    ApplyConcat(v, prev, lap);
    FoldAgain(Apply(v, prev), lap, |lap|);
    assert lap[..|lap|] == lap && lap + [] == lap;
    MetadataSuffix(g, prev, lap);
    MakeLog(d, g, [], lap);
  }

  lemma MetadataSuffix(g: Geometry, a: seq<Write>, b: seq<Write>)
    requires MetadataWrites(g, a + b)
    ensures MetadataWrites(g, b) && MetadataWrites(g, a)
  {
    forall i | 0 <= i < |b| ensures StepOk(g, Txn(b[i])) {
      assert (a + b)[|a| + i] == b[i];
    }
    forall i | 0 <= i < |a| ensures StepOk(g, Txn(a[i])) {
      assert (a + b)[i] == a[i];
    }
  }

  lemma SameFull(g: Geometry, n: nat, m: nat)
    requires Full(g, n)
    ensures Full(g, m) ==> n == m
  {
    hide Slot;
    if Full(g, m) && n < m {
      SlotMono(g, n + 1, m);
    }
    if Full(g, m) && m < n {
      SlotMono(g, m + 1, n);
    }
  }

  lemma WholeLap(lap: seq<Write>, prev: seq<Write>)
    requires prev != [] ==> |lap| == |prev|
    ensures lap + Leftover(lap, prev) == [] + Leftover([], lap)
  {
  }

  /** A data block written in place. */
  lemma LapKeeps(d: seq<Block>, g: Geometry, lap: seq<Write>, prev: seq<Write>, w: Write)
    requires g.Valid() && LogOk(d, g, lap, prev) && StepOk(g, Raw(w))
    ensures LogOk(Put(d, w.block, w.data), g, lap, prev)
  {
    hide *;
    LogParts(d, g, lap, prev);
    StepOutside(d, g, Raw(w));
    PutOutside(d, g, w);
    var v := View(d, g);
    var d' := Put(d, w.block, w.data);
    DataUntouched(v, g, prev + lap, w);
    GeometryBounds(g, d');
    MakeLog(d', g, lap, prev);
  }

  lemma DataUntouched(v: seq<Block>, g: Geometry, ws: seq<Write>, w: Write)
    requires Apply(v, ws) == v && MetadataWrites(g, ws) && StepOk(g, Raw(w))
    ensures Apply(Put(v, w.block, w.data), ws) == Put(v, w.block, w.data)
  {
    hide Apply;
    var v' := Put(v, w.block, w.data);
    FoldAgree(v', v, ws, w.block);
    forall i | 0 <= i < |ws| ensures ws[i].block != w.block {
      assert StepOk(g, Txn(ws[i]));
    }
    if w.block < |v'| {
      FoldKeeps(v', ws, w.block);
    }
    assert Apply(v', ws) == v';
  }

  /** A metadata block written past a log that can hold no record. */
  lemma LapBypassed(d: seq<Block>, g: Geometry, w: Write)
    requires g.Valid() && LogOk(d, g, [], []) && StepOk(g, Txn(w))
    ensures LogOk(Put(d, w.block, w.data), g, [], [])
  {
    hide *;
    LogParts(d, g, [], []);
    StepOutside(d, g, Txn(w));
    PutOutside(d, g, w);
    var d' := Put(d, w.block, w.data);
    NothingToApply(View(d', g), g);
    GeometryBounds(g, d');
    MakeLog(d', g, [], []);
  }

  lemma NothingToApply(v: seq<Block>, g: Geometry)
    ensures Apply(v, [] + []) == v && MetadataWrites(g, [] + [])
  {
  }

  /**
   * A power cut between two transactions, in any lap: replay succeeds, and it leaves the volume as it is
   * if and only if no leftover record of the lap before disagrees with a record of this lap.
   */
  lemma ReplayOfLaps(d: seq<Block>, g: Geometry, scratch: Block, lap: seq<Write>, prev: seq<Write>)
    requires g.Valid() && LogOk(d, g, lap, prev) && |scratch| == g.blockSize && g.journalStart + g.journalCount <= |d|
    ensures var r := ReplayFrom(d, g, scratch, 0);
            && r.ok
            && View(r.disk, g) == Apply(View(d, g), lap + Leftover(lap, prev))
            && (View(r.disk, g) == View(d, g) <==> forall b :: !Conflict(Leftover(lap, prev), lap, b))
  {
    hide *;
    LogParts(d, g, lap, prev);
    var ws := lap + Leftover(lap, prev);
    LeftoverIs(lap, prev);
    MetadataOutside(d, g, prev + lap);
    OutsideParts(d, g, prev, lap);
    SlotNext(g, 0);
    ReplayFolds(d, g, scratch, ws, 0);
    assert ws[0..] == ws;
    ApplyOutside(d, g, ws);
    if |lap| <= |prev| {
      InRangeParts(View(d, g), d, g, prev, lap);
      ReplayOfWrappedLog(d, g, scratch, View(d, g), prev, lap);
    } else {
      assert prev == [];
      assert prev + lap == lap;
      NoConflict(lap);
    }
  }

  lemma LeftoverIs(lap: seq<Write>, prev: seq<Write>)
    ensures |lap| <= |prev| ==> Leftover(lap, prev) == prev[|lap|..]
    ensures |lap| > |prev| ==> Leftover(lap, prev) == [] && lap + Leftover(lap, prev) == lap
  {
  }

  lemma MetadataOutside(d: seq<Block>, g: Geometry, ws: seq<Write>)
    requires g.Valid() && DiskOk(d, g) && MetadataWrites(g, ws)
    ensures AllOutside(d, g, ws)
  {
    hide g.Valid, DiskOk, Outside;
    forall i | 0 <= i < |ws| ensures Outside(d, g, ws[i]) {
      StepOutside(d, g, Txn(ws[i]));
    }
  }

  lemma OutsideParts(d: seq<Block>, g: Geometry, prev: seq<Write>, lap: seq<Write>)
    requires AllOutside(d, g, prev + lap)
    ensures AllOutside(d, g, lap + Leftover(lap, prev))
  {
    hide Outside;
    var ws := lap + Leftover(lap, prev);
    forall i | 0 <= i < |ws| ensures Outside(d, g, ws[i]) {
      if i < |lap| {
        assert (prev + lap)[|prev| + i] == ws[i];
      } else {
        assert (prev + lap)[i] == ws[i];
      }
    }
  }

  lemma InRangeParts(v: seq<Block>, d: seq<Block>, g: Geometry, prev: seq<Write>, lap: seq<Write>)
    requires AllOutside(d, g, prev + lap) && |v| == |d|
    ensures InRange(v, prev) && InRange(v, lap)
  {
    forall i | 0 <= i < |prev| ensures prev[i].block < |v| {
      assert Outside(d, g, (prev + lap)[i]);
    }
    forall i | 0 <= i < |lap| ensures lap[i].block < |v| {
      assert Outside(d, g, (prev + lap)[|prev| + i]);
    }
  }

  lemma NoConflict(lap: seq<Write>)
    ensures forall b :: !Conflict([], lap, b)
  {
  }
}
