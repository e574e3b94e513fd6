/**
 * A power cut while replay cleans the journal. The blocks are zeroed from the front, so that records may
 * stay behind zeros: the volume is safe, the log perhaps not.
 */
module Cleaning {
  import opened Seqs
  import opened Arith
  import opened Bytes
  import opened Layout
  import opened JournalBytes
  import opened JournalRecord
  import opened Recovery
  import opened CrashSafety
  import opened CrashTheorems
  import opened Volumes
  import opened Contents
  import opened FreshVolume

  /** The log with its first z bytes zeroed. */
  ghost predicate ZeroedTo(log: seq<byte>, log': seq<byte>, z: nat) {
    && |log'| == |log| && z <= |log| && AllZero(log'[..z]) && log'[z..] == log[z..]
  }

  lemma ZeroPart(log: seq<byte>, log': seq<byte>, z: nat, lo: nat, hi: nat)
    requires ZeroedTo(log, log', z) && lo <= hi <= z
    ensures AllZero(log'[lo..hi]) && UnLE(log'[lo..hi]) == 0
  {
    hide UnLE;
    forall i | 0 <= i < hi - lo ensures log'[lo..hi][i] == 0 {
      assert log'[lo..hi][i] == log'[..z][lo + i];
    }
    ZeroValue(log'[lo..hi]);
  }

  lemma KeptPart(log: seq<byte>, log': seq<byte>, z: nat, lo: nat, hi: nat)
    requires ZeroedTo(log, log', z) && z <= lo <= hi <= |log|
    ensures log'[lo..hi] == log[lo..hi]
  {
    SliceSlice(log', z, |log|, lo - z, hi - z);
    SliceSlice(log, z, |log|, lo - z, hi - z);
    assert log'[z..] == log'[z..|log|] && log[z..] == log[z..|log|];
  }

  /** The bytes of the log's first c blocks. */
  function Cleaned(g: Geometry, c: nat): nat {
    c * g.blockSize
  }

  /** Zeroing whole blocks from the front is zeroing the log's first bytes. */
  lemma CleanedLog(d: seq<Block>, g: Geometry, c: nat)
    requires g.Valid() && DiskOk(d, g) && g.journalStart + g.journalCount <= |d| && c <= g.journalCount
    ensures var d' := Zeroed(d, g.blockSize, g.journalStart, c);
            && DiskOk(d', g) && View(d', g) == View(d, g)
            && ZeroedTo(Journal(d, g), Journal(d', g), Cleaned(g, c))
            && |Journal(d, g)| == g.JournalBytes()
  {
    hide g.Valid, Flat, Journal;
    var d' := Zeroed(d, g.blockSize, g.journalStart, c);
    var r, r' := Region(d, g), Region(d', g);
    RegionOk(d, g);
    RegionOk(d', g);
    FlatConcat(r[..c], r[c..]);
    FlatConcat(r'[..c], r'[c..]);
    assert r[..c] + r[c..] == r && r'[..c] + r'[c..] == r' && r'[c..] == r[c..];
    FlatLength(r[..c], g.blockSize);
    FlatLength(r'[..c], g.blockSize);
    JournalLength(d, g);
    FlatZero(r'[..c]);
  }

  lemma Boundary(g: Geometry, c: nat)
    requires g.blockSize % 8 == 0
    ensures Cleaned(g, c) % 8 == 0
  {
    var k := g.blockSize / 8;
    assert c * (8 * k) == 8 * (c * k);
  }

  lemma CleanedSome(g: Geometry, c: nat)
    requires 0 < c
    ensures g.blockSize <= Cleaned(g, c)
  {
    MulMono(1, c, g.blockSize);
  }

  /** An aligned field lies wholly on one side of the border. */
  lemma OneSide(at: nat, z: nat)
    requires at % 8 == 0 && z % 8 == 0
    ensures z <= at || at + 8 <= z
  {
  }

  lemma FieldsAligned(off: nat, size: nat)
    requires off % 8 == 0 && size % 8 == 0
    ensures (off + 16) % 8 == 0 && (off + HEADER_SIZE + size) % 8 == 0
  {
    var a, b := off / 8, size / 8;
    assert off + HEADER_SIZE + size == 8 * (a + b + 3);
  }

  /** A slot whose commit magic is gone, or was never there, reads as blank. */
  lemma CleanedSlot(log: seq<byte>, log': seq<byte>, g: Geometry, z: nat, off: nat)
    requires ZeroedTo(log, log', z) && z % 8 == 0 && off % 8 == 0 && g.blockSize % 8 == 0
    requires off + HEADER_SIZE <= |log| ==> LengthAt(log, off) == 0 || LengthAt(log, off) == g.blockSize
    requires off + g.RecordSize() <= |log| && off + HEADER_SIZE + g.blockSize + 4 > z ==>
               CommitAt(log, g, off) != MAGIC_COMMIT
    ensures Blank(log', g, off)
  {
    hide UnLE, ZeroedTo;
    Lengths(log, log', z);
    FieldsAligned(off, g.blockSize);
    if off + HEADER_SIZE <= |log| {
      OneSide(off + 16, z);
      if z <= off + 16 {
        KeptPart(log, log', z, off + 16, off + 20);
      } else {
        ZeroPart(log, log', z, off + 16, off + 20);
      }
    }
    if off + g.RecordSize() <= |log| {
      var at := off + HEADER_SIZE + g.blockSize;
      OneSide(at, z);
      if z <= at {
        KeptPart(log, log', z, at, at + 4);
      } else {
        ZeroPart(log, log', z, at, at + 4);
      }
    }
  }

  lemma Lengths(log: seq<byte>, log': seq<byte>, z: nat)
    requires ZeroedTo(log, log', z)
    ensures |log'| == |log| && z <= |log|
  {
  }

  /** A slot whose commit magic the zeros have not reached still ends in a commit. */
  lemma CommitStays(log: seq<byte>, log': seq<byte>, g: Geometry, z: nat, off: nat, w: Write)
    requires ZeroedTo(log, log', z) && z % 8 == 0 && off % 8 == 0 && g.blockSize % 8 == 0
    requires Holds(log, g, off, w) && z < off + HEADER_SIZE + g.blockSize + 4
    ensures !Blank(log', g, off)
  {
    hide UnLE, BeginHeader, ZeroedTo, Blank;
    Lengths(log, log', z);
    var at := off + HEADER_SIZE + g.blockSize;
    FieldsAligned(off, g.blockSize);
    OneSide(at, z);
    KeptPart(log, log', z, at, at + 4);
    NotBlank(log', g, off);
  }

  lemma NotBlank(log: seq<byte>, g: Geometry, off: nat)
    requires off + g.RecordSize() <= |log| && CommitAt(log, g, off) == MAGIC_COMMIT
    ensures !Blank(log, g, off)
  {
    hide UnLE;
  }

  lemma HeldLength(log: seq<byte>, g: Geometry, off: nat, w: Write)
    requires Holds(log, g, off, w) && g.blockSize < TWO_32
    ensures off + HEADER_SIZE <= |log| && LengthAt(log, off) == g.blockSize
  {
    hide UnLE, BeginHeader;
    BeginLength(g, off, w.block, w.data);
    SliceSlice(log, off, off + HEADER_SIZE, 16, 20);
  }

  /** The commit magic of the last of n records is gone. */
  predicate LastErased(g: Geometry, n: nat, z: nat) {
    n > 0 ==> Slot(g, n - 1) + HEADER_SIZE + g.blockSize + 4 <= z
  }

  /** The log is clean again exactly when the zeros have passed the last record's commit magic. */
  lemma CleanedBlank(log: seq<byte>, log': seq<byte>, g: Geometry, ws: seq<Write>, z: nat)
    requires ZeroedTo(log, log', z) && z % 8 == 0 && 0 < g.blockSize < TWO_32 && g.blockSize % 8 == 0
    requires JournalIs(log, g, ws)
    ensures JournalIs(log', g, []) <==> LastErased(g, |ws|, z)
  {
    hide Holds, Blank, Slot, ZeroedTo;
    if LastErased(g, |ws|, z) {
      forall s: nat ensures Blank(log', g, Slot(g, s)) {
        SlotErased(log, log', g, ws, z, s);
      }
      assert JournalIs(log', g, []);
    } else {
      var s := |ws| - 1;
      SlotAligned(g, s);
      assert Holds(log, g, Slot(g, s), ws[s]);
      CommitStays(log, log', g, z, Slot(g, s), ws[s]);
      assert !Blank(log', g, Slot(g, s));
    }
  }

  lemma SlotErased(log: seq<byte>, log': seq<byte>, g: Geometry, ws: seq<Write>, z: nat, s: nat)
    requires ZeroedTo(log, log', z) && z % 8 == 0 && 0 < g.blockSize < TWO_32 && g.blockSize % 8 == 0
    requires JournalIs(log, g, ws) && LastErased(g, |ws|, z)
    ensures Blank(log', g, Slot(g, s))
  {
    hide Holds, Slot, ZeroedTo, UnLE;
    SlotAligned(g, s);
    if s < |ws| {
      assert Holds(log, g, Slot(g, s), ws[s]);
      HeldLength(log, g, Slot(g, s), ws[s]);
      SlotMono(g, s, |ws| - 1);
    } else {
      assert Blank(log, g, Slot(g, s));
    }
    CleanedSlot(log, log', g, z, Slot(g, s));
  }

  /** With its first block zeroed, the log has nothing for replay. */
  lemma NothingToReplay(d: seq<Block>, g: Geometry, scratch: Block)
    requires g.Valid() && DiskOk(d, g) && |scratch| == g.blockSize && g.journalStart + g.journalCount <= |d|
    requires HEADER_SIZE <= |Journal(d, g)| ==> UnLE(Journal(d, g)[0..4]) == 0
    ensures ReplayFrom(d, g, scratch, 0) == Replayed(d, true, false)
  {
    hide g.Valid, Journal, UnLE;
    JournalLength(d, g);
    var log := Journal(d, g);
    if HEADER_SIZE <= |log| {
      assert log[0..0 + HEADER_SIZE][0..4] == log[0..4];
    }
  }

  /** Cleaning has not begun: replay applies the records once more. */
  lemma BeforeCleaning(d: seq<Block>, g: Geometry, ws: seq<Write>, scratch: Block)
    requires g.Valid() && DiskOk(d, g) && JournalIs(Journal(d, g), g, ws) && AllOutside(d, g, ws)
    requires Apply(View(d, g), ws) == View(d, g) && |scratch| == g.blockSize
    requires g.journalStart + g.journalCount <= |d|
    ensures var r := ReplayFrom(d, g, scratch, 0);
            && r.ok && DiskOk(r.disk, g) && View(r.disk, g) == View(d, g) && (r.applied <==> ws != [])
  {
    hide *;
    SlotNext(g, 0);
    ReplayFolds(d, g, scratch, ws, 0);
    assert ws[0..] == ws;
    ApplyOutside(d, g, ws);
  }

  /** At least one block is zero: there is no first record. */
  lemma DuringCleaning(d: seq<Block>, g: Geometry, c: nat, scratch: Block)
    requires g.Valid() && DiskOk(d, g) && 0 < c <= g.journalCount && |scratch| == g.blockSize
    requires g.journalStart + g.journalCount <= |d|
    ensures var d' := Zeroed(d, g.blockSize, g.journalStart, c);
            && ReplayFrom(d', g, scratch, 0) == Replayed(d', true, false)
            && DiskOk(d', g) && View(d', g) == View(d, g)
  {
    hide *;
    var d' := Zeroed(d, g.blockSize, g.journalStart, c);
    GeometryBounds(g, d);
    CleanedLog(d, g, c);
    CleanedSome(g, c);
    ZeroPart(Journal(d, g), Journal(d', g), Cleaned(g, c), 0, 4);
    NothingToReplay(d', g, scratch);
  }

  lemma CleanedOrNot(d: seq<Block>, g: Geometry, ws: seq<Write>, c: nat)
    requires g.Valid() && DiskOk(d, g) && JournalIs(Journal(d, g), g, ws) && c <= g.journalCount
    requires g.journalStart + g.journalCount <= |d|
    ensures Clean(Zeroed(d, g.blockSize, g.journalStart, c), g) <==> LastErased(g, |ws|, Cleaned(g, c))
  {
    hide *;
    var d' := Zeroed(d, g.blockSize, g.journalStart, c);
    GeometryBounds(g, d);
    CleanedLog(d, g, c);
    Boundary(g, c);
    CleanedBlank(Journal(d, g), Journal(d', g), g, ws, Cleaned(g, c));
    CleanIff(d', g);
  }

  /**
   * The device at any point of the cleaning loop, c blocks in: replay gives the volume it had before. The
   * log is clean, so that a session may begin, if and only if the zeros have passed the commit magic of
   * the last record; between the first block and that point replay applies nothing and the mount leaves
   * the stale records where they are.
   */
  lemma CutInCleaning(d: seq<Block>, g: Geometry, ws: seq<Write>, c: nat, scratch: Block)
    requires g.Valid() && DiskOk(d, g) && JournalIs(Journal(d, g), g, ws) && AllOutside(d, g, ws)
    requires Apply(View(d, g), ws) == View(d, g) && c <= g.journalCount && |scratch| == g.blockSize
    requires g.journalStart + g.journalCount <= |d|
    ensures var d' := Zeroed(d, g.blockSize, g.journalStart, c);
            var r := ReplayFrom(d', g, scratch, 0);
            && r.ok && DiskOk(r.disk, g) && View(r.disk, g) == View(d, g)
            && (r.applied <==> c == 0 && ws != []) && (c > 0 ==> r.disk == d')
            && (Clean(d', g) <==> LastErased(g, |ws|, Cleaned(g, c)))
  {
    hide *;
    CleanedOrNot(d, g, ws, c);
    if c == 0 {
      ZeroedNothing(d, g);
      BeforeCleaning(d, g, ws, scratch);
    } else {
      DuringCleaning(d, g, c, scratch);
    }
  }

  ghost predicate GivesView(d: seq<Block>, g: Geometry, scratch: Block, v: seq<Block>)
    requires g.Valid() && g.journalStart + g.journalCount <= |d| && |scratch| == g.blockSize
  {
    var r := ReplayFrom(d, g, scratch, 0);
    r.ok && DiskOk(r.disk, g) && View(r.disk, g) == v
  }

  /** Replay leaves v behind, whatever its buffer held before. */
  ghost predicate ReplaysTo(d: seq<Block>, g: Geometry, v: seq<Block>)
    requires g.Valid()
  {
    && g.journalStart + g.journalCount <= |d|
    && forall scratch: Block :: |scratch| == g.blockSize ==> GivesView(d, g, scratch, v)
  }

  /** So a mount after the cut shows the volume. */
  lemma CutReplays(d: seq<Block>, g: Geometry, ws: seq<Write>, c: nat)
    requires g.Valid() && DiskOk(d, g) && JournalIs(Journal(d, g), g, ws) && AllOutside(d, g, ws)
    requires Apply(View(d, g), ws) == View(d, g) && c <= g.journalCount
    requires g.journalStart + g.journalCount <= |d|
    ensures ReplaysTo(Zeroed(d, g.blockSize, g.journalStart, c), g, View(d, g))
  {
    hide g.Valid, DiskOk, Journal, JournalIs, AllOutside, ReplayFrom, View, Clean, LastErased, Zeroed, Apply;
    forall scratch: Block | |scratch| == g.blockSize
      ensures GivesView(Zeroed(d, g.blockSize, g.journalStart, c), g, scratch, View(d, g))
    {
      CutInCleaning(d, g, ws, c, scratch);
    }
  }

  /**
   * A mount that loses power in its cleaning loop: the log listed ws, replay has carried them out, and c
   * blocks are zero. The next mount shows the same volume, and finds a clean log exactly from the point
   * on where the last record's commit magic is gone.
   */
  lemma PowerCutWhileCleaning(d: seq<Block>, g: Geometry, ws: seq<Write>, c: nat)
    requires g.Valid() && DiskOk(d, g) && JournalIs(Journal(d, g), g, ws) && AllOutside(d, g, ws)
    requires c <= g.journalCount && g.journalStart + g.journalCount <= |d|
    ensures var d' := Zeroed(Apply(d, ws), g.blockSize, g.journalStart, c);
            && ReplaysTo(d', g, Apply(View(d, g), ws))
            && (Clean(d', g) <==> LastErased(g, |ws|, Cleaned(g, c)))
  {
    hide *;
    var d1 := Apply(d, ws);
    ApplyOutside(d, g, ws);
    OutsideSame(d, d1, g, ws);
    FoldAgain(View(d, g), ws, |ws|);
    assert ws[..|ws|] == ws;
    CutReplays(d1, g, ws, c);
    CleanedOrNot(d1, g, ws, c);
  }

  lemma CleanIff(d: seq<Block>, g: Geometry)
    requires g.Valid() && DiskOk(d, g) && g.journalStart + g.journalCount <= |d|
    ensures Clean(d, g) <==> JournalIs(Journal(d, g), g, [])
  {
    hide g.Valid, DiskOk, Journal, JournalIs;
  }

  lemma ZeroedNothing(d: seq<Block>, g: Geometry)
    requires g.journalStart <= |d|
    ensures Zeroed(d, g.blockSize, g.journalStart, 0) == d
  {
  }
}
