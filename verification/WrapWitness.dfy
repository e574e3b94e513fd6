/**
 * A volume on which replay puts old contents back: the smallest that vtx2_format makes, with a log of
 * three records that has started over once.
 */
module WrapWitness {
  import opened Layout
  import opened JournalBytes
  import opened JournalRecord
  import opened Recovery
  import opened CrashSafety
  import opened Wrap
  import opened Laps
  import opened FormatLayout

  const TABLE_BLOCK: nat := 6
  const BITMAP_BLOCK: nat := 1

  lemma SmallestVolume()
    ensures var g := Formatted(64, 512);
            && g == Geometry(512, 64, 1, 1, 2, 4, TABLE_BLOCK, 4, 7, 10, 0) && g.Valid()
            && g.RecordSize() == 560 && g.JournalBytes() == 2048
  {
  }

  /** The device after one more transaction, its record at slot n. */
  ghost function Logged(d: seq<Block>, n: nat, w: Write): seq<Block> {
    Apply(d, StepWrites(d, Formatted(64, 512), Slot(Formatted(64, 512), n), Txn(w)))
  }

  lemma LoggedOk(d: seq<Block>, lap: seq<Write>, prev: seq<Write>, w: Write)
    requires var g := Formatted(64, 512);
             && g.Valid() && LogOk(d, g, lap, prev) && |lap| < 3
    requires (w.block == TABLE_BLOCK || w.block == BITMAP_BLOCK) && |w.data| == 512
    ensures var g := Formatted(64, 512);
            var d' := Logged(d, |lap|, w);
            LogOk(d', g, lap + [w], prev) && View(d', g) == Put(View(d, g), w.block, w.data)
  {
    hide LogOk, Apply, StepWrites, View, Formatted;
    SmallestVolume();
    LapGrows(d, Formatted(64, 512), lap, prev, w);
  }

  /** The bitmap's block twice, the table's block once: the log is full. */
  function FirstLap(a: Block, b: Block): (lap: seq<Write>)
    ensures |lap| == 3
  {
    [Write(BITMAP_BLOCK, a), Write(BITMAP_BLOCK, a), Write(TABLE_BLOCK, b)]
  }

  /** Three transactions fill the log, a fourth starts it over. */
  ghost function AfterFour(d: seq<Block>, a: Block, b: Block, c: Block): seq<Block> {
    var lap := FirstLap(a, b);
    Logged(Logged(Logged(Logged(d, 0, lap[0]), 1, lap[1]), 2, lap[2]), 0, Write(TABLE_BLOCK, c))
  }

  lemma LogAfterFour(d: seq<Block>, a: Block, b: Block, c: Block)
    requires Clean(d, Formatted(64, 512)) && |a| == |b| == |c| == 512
    ensures var g := Formatted(64, 512);
            var d' := AfterFour(d, a, b, c);
            && g.Valid() && LogOk(d', g, [Write(TABLE_BLOCK, c)], FirstLap(a, b))
            && |d'| == |d| > TABLE_BLOCK && View(d', g)[TABLE_BLOCK] == c
  {
    hide LogOk, Apply, StepWrites, View, Formatted, Clean, Logged;
    SmallestVolume();
    var g, lap := Formatted(64, 512), FirstLap(a, b);
    assert [] + [lap[0]] == [lap[0]] && [lap[0]] + [lap[1]] == [lap[0], lap[1]] && [lap[0], lap[1]] + [lap[2]] == lap;
    LapStart(d, g);
    var d1 := Logged(d, 0, lap[0]);
    LoggedOk(d, [], [], lap[0]);
    var d2 := Logged(d1, 1, lap[1]);
    LoggedOk(d1, [lap[0]], [], lap[1]);
    var d3 := Logged(d2, 2, lap[2]);
    LoggedOk(d2, [lap[0], lap[1]], [], lap[2]);
    LapWraps(d3, g, lap, []);
    LoggedOk(d3, [], lap, Write(TABLE_BLOCK, c));
    assert [] + [Write(TABLE_BLOCK, c)] == [Write(TABLE_BLOCK, c)];
    LogParts(d, g, [], []);
    LongEnough(d, g);
  }

  lemma LongEnough(d: seq<Block>, g: Geometry)
    requires g.Valid() && DiskOk(d, g) && g.tableStart == TABLE_BLOCK && g.dataStart > TABLE_BLOCK
    ensures |d| > TABLE_BLOCK
  {
  }

  /**
   * The table's block was written with b and then, over the start of the log, with c. The device shows c;
   * a power cut and a mount bring b back, from the record the second lap had not reached.
   */
  lemma OldContentsReturn(d: seq<Block>, scratch: Block, a: Block, b: Block, c: Block)
    requires Clean(d, Formatted(64, 512)) && |scratch| == |a| == |b| == |c| == 512 && b != c
    ensures var g := Formatted(64, 512);
            var d' := AfterFour(d, a, b, c);
            && g.blockSize == 512 && g.journalStart + g.journalCount <= |d'| && TABLE_BLOCK < |d'|
            && d'[TABLE_BLOCK] == c
            && var r := ReplayFrom(d', g, scratch, 0);
            && r.ok && r.disk[TABLE_BLOCK] == b && View(r.disk, g) != View(d', g)
  {
    hide LogOk, Apply, Formatted, Clean, AfterFour, ReplayFrom;
    SmallestVolume();
    var g, lap, prev := Formatted(64, 512), [Write(TABLE_BLOCK, c)], FirstLap(a, b);
    var d' := AfterFour(d, a, b, c);
    LogAfterFour(d, a, b, c);
    LogParts(d', g, lap, prev);
    ReplayOfLaps(d', g, scratch, lap, prev);
    var r := ReplayFrom(d', g, scratch, 0);
    assert lap + Leftover(lap, prev) == [Write(TABLE_BLOCK, c), Write(BITMAP_BLOCK, a), Write(TABLE_BLOCK, b)];
    ApplyAt(View(d', g), lap + Leftover(lap, prev), TABLE_BLOCK);
    assert View(r.disk, g)[TABLE_BLOCK] == b;
  }
}
