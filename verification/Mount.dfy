/** vtx2_mount: the superblock's checks, recovery, and the session it starts. */
module Mount {
  import opened Bytes
  import opened Hash
  import opened Layout
  import opened JournalBytes
  import opened JournalRecord
  import opened Recovery
  import opened CrashSafety
  import opened CrashTheorems
  import opened Bitmap
  import opened Files
  import opened Tree
  import opened Volumes
  import opened Allocator
  import opened FileGrowth
  import opened EntryOps
  import opened Runs
  import opened Superblock
  import opened SuperblockChecks
  import opened FormatLayout
  import opened FreshVolume
  import opened Cleaning
  import opened Format

  /** What mount reads before it knows the block size: the first 512 bytes of block 0. */
  function Sector(d: seq<Block>): (s: seq<byte>)
    requires |d| > 0 && |d[0]| >= SUPERBLOCK_SIZE
    ensures |s| == SUPERBLOCK_SIZE
  {
    d[0][..SUPERBLOCK_SIZE]
  }

  /** A device whose superblock, if mount accepts it, also meets the demands that mount leaves open. */
  ghost predicate Mountable(d: seq<Block>) {
    && |d| > 0 && |d[0]| >= SUPERBLOCK_SIZE
    && (Signed(Sector(d)) && Accepted(Sector(d)) ==>
          var g := DecodeGeometry(Sector(d)); AllUnchecked(g) && DiskOk(d, g))
  }

  /** After replay, and after the cleaning that follows it if anything was applied, the log is clean and v is in place. */
  lemma ReplayThenClean(d: seq<Block>, g: Geometry, v: seq<Block>, scratch: Block, d': seq<Block>)
    requires g.Valid() && |scratch| == g.blockSize && g.journalStart + g.journalCount <= |d| && RecoversTo(d, g, v)
    requires var r := ReplayFrom(d, g, scratch, 0);
             d' == if r.ok && r.applied then Zeroed(r.disk, g.blockSize, g.journalStart, g.journalCount) else r.disk
    ensures ReplayFrom(d, g, scratch, 0).ok && Clean(d', g) && View(d', g) == v
  {
    hide g.Valid, RecoversTo, ReplayFrom, Clean, View, Zeroed, DiskOk;
    ReplayRecovers(d, g, v, scratch);
    var r := ReplayFrom(d, g, scratch, 0);
    if r.applied {
      ZeroedJournal(r.disk, g);
      ZeroClean(d', g);
    }
  }

  lemma ReplayThenView(d: seq<Block>, g: Geometry, v: seq<Block>, scratch: Block, d': seq<Block>)
    requires g.Valid() && |scratch| == g.blockSize && g.journalStart + g.journalCount <= |d| && ReplaysTo(d, g, v)
    requires var r := ReplayFrom(d, g, scratch, 0);
             d' == if r.ok && r.applied then Zeroed(r.disk, g.blockSize, g.journalStart, g.journalCount) else r.disk
    ensures ReplayFrom(d, g, scratch, 0).ok && View(d', g) == v
  {
    hide g.Valid, ReplayFrom, Clean, View, Zeroed, DiskOk;
    assert GivesView(d, g, scratch, v);
    var r := ReplayFrom(d, g, scratch, 0);
    if r.applied {
      ZeroedJournal(r.disk, g);
    }
  }

  lemma ZeroedJournal(d: seq<Block>, g: Geometry)
    requires g.Valid() && DiskOk(d, g) && g.journalStart + g.journalCount <= |d|
    ensures var d' := Zeroed(d, g.blockSize, g.journalStart, g.journalCount);
            DiskOk(d', g) && JournalZero(d', g) && View(d', g) == View(d, g)
  {
    hide g.Valid;
  }

  /**
   * vtx2_mount. On a device that replay can restore to v, a mounted volume shows v, its log is clean
   * and a session begins.
   */
  method MountDevice(dev: BlockDevice) returns (res: FsResult, vol: Volume?)
    requires Mountable(dev.blocks)
    modifies dev
    ensures res == OK <==> vol != null
    ensures !Signed(Sector(old(dev.blocks))) <==> res == ERR_NOT_FORMATTED
    ensures Signed(Sector(old(dev.blocks))) && !Accepted(Sector(old(dev.blocks))) <==> res == ERR_INVALID
    ensures res == ERR_NOT_FORMATTED || res == ERR_INVALID ==> dev.blocks == old(dev.blocks)
    ensures Signed(Sector(old(dev.blocks))) && Accepted(Sector(old(dev.blocks))) ==>
              var g := DecodeGeometry(Sector(old(dev.blocks)));
              && g.Valid()
              && (forall v :: ReplaysTo(old(dev.blocks), g, v) ==> res == OK && View(dev.blocks, g) == v)
              && (forall v :: RecoversTo(old(dev.blocks), g, v) ==> res == OK && View(dev.blocks, g) == v && Clean(dev.blocks, g))
              && ((exists v :: RecoversTo(old(dev.blocks), g, v)) && res == OK ==>
                    && fresh(vol) && vol.dev == dev && vol.g == g
                    && vol.freeHint == DecodeHint(Sector(old(dev.blocks)))
                    && vol.Valid() && !vol.exposed && vol.history == [vol.V()] && vol.steps == []
                    && vol.base == dev.blocks)
  {
    hide Geometry.Valid, RecoversTo, ReplaysTo, ReplayFrom, Clean, View, DiskOk, Zeroed, Accepted, Signed, DecodeGeometry, DecodeHint,
         Volume.Valid, Volume.V;
    vol := null;
    var sector := dev.ReadBlock(0);
    sector := sector[..SUPERBLOCK_SIZE];
    assert sector == Sector(dev.blocks);
    if !Signed(sector) {
      return ERR_NOT_FORMATTED, null;
    }
    if !Accepted(sector) {
      return ERR_INVALID, null;
    }
    var g := DecodeGeometry(sector);
    ghost var d := dev.blocks;
    WhatMountAssumes(sector);
    GeometryBounds(g, d);
    var fresh_ := new Volume(dev, g, DecodeHint(sector));
    ghost var scratch := fresh_.scratch;
    var ok := fresh_.JournalReplay();
    forall v | RecoversTo(d, g, v) ensures ok && View(dev.blocks, g) == v && Clean(dev.blocks, g) {
      ReplayThenClean(d, g, v, scratch, dev.blocks);
    }
    forall v | ReplaysTo(d, g, v) ensures ok && View(dev.blocks, g) == v {
      ReplayThenView(d, g, v, scratch, dev.blocks);
    }
    if !ok {
      return ERR_IO, null;
    }
    fresh_.journalOffset := 0;
    if exists v :: RecoversTo(d, g, v) {
      fresh_.BeginSession();
    }
    return OK, fresh_;
  }

  // ---- Format, then mount ----

  /** Block 0 holds a superblock with these fields that mount accepts. */
  ghost predicate SuperblockFor(d: seq<Block>, g: Geometry, hint: nat) {
    SuperblockIs(d, g, hint) && FieldsFit(g, hint) && g.Valid() && g.root < g.capacity
  }

  lemma SuperblockAccepted(d: seq<Block>, g: Geometry, hint: nat)
    requires SuperblockFor(d, g, hint) && DiskOk(d, g)
    ensures |d| > 0 && |d[0]| >= SUPERBLOCK_SIZE
    ensures var s := Sector(d); Signed(s) && Accepted(s) && DecodeGeometry(s) == g && DecodeHint(s) == hint
    ensures Mountable(d)
  {
    hide DecodeGeometry, DecodeHint, EncodeSuperblock, FieldsFit, Signed, DiskOk, Fnv, UnLE;
    SuperblockRoundTrip(g, hint);
    ValidSize(g);
    WhatMountAssumes(Sector(d));
  }

  /** A clean log: replay has nothing to do. */
  lemma CleanRecovers(d: seq<Block>, g: Geometry)
    requires Clean(d, g)
    ensures g.Valid() && g.blockSize > 0 && DiskOk(d, g) && RecoversTo(d, g, View(d, g))
  {
    hide *;
    CleanParts(d, g);
    NothingOutside(View(d, g), g);
    Recovers(d, g, View(d, g), View(d, g), []);
  }

  lemma NothingOutside(v: seq<Block>, g: Geometry)
    ensures AllOutside(v, g, []) && Apply(v, []) == v
  {
  }

  lemma FormattedSuperblock(d: seq<Block>, total: nat, blockSize: nat)
    requires ValidBlockSize(blockSize) && total >= MIN_TOTAL_BLOCKS && total * blockSize < TWO_64
    requires IsFormatted(d, Formatted(total, blockSize))
    ensures var g := Formatted(total, blockSize);
            SuperblockFor(d, g, g.totalBlocks - g.dataStart) && Clean(d, g) && g.blockSize > 0
            && FsOk(View(d, g), g, {}) && |FreeSet(View(d, g), g)| == g.totalBlocks - g.dataStart
  {
    hide Formatted, FsOk, FreeSet, Clean, SuperblockIs, FieldsFit, Used, BitmapBits, Table;
    LayoutValid(total, blockSize);
  }

  /**
   * Format, then mount: mount accepts the superblock and returns the fields format wrote, the hint is
   * the number of free blocks, and the session starts on an intact volume without leaks.
   */
  method FormatAndMount(dev: BlockDevice, totalBlocks: nat, blockSize: nat) returns (res: FsResult, vol: Volume?)
    requires totalBlocks * blockSize < TWO_64 && ValidBlockSize(blockSize) && totalBlocks >= MIN_TOTAL_BLOCKS
    requires |dev.blocks| >= totalBlocks && forall b :: 0 <= b < |dev.blocks| ==> |dev.blocks[b]| == blockSize
    modifies dev
    ensures res == OK && vol != null && fresh(vol) && vol.dev == dev && vol.g == Formatted(totalBlocks, blockSize)
    ensures vol.Valid() && !vol.exposed && vol.history == [vol.V()] && vol.steps == []
    ensures vol.g.Valid() && vol.g.blockSize > 0 && FsOk(vol.V(), vol.g, {}) && HintExact(vol)
    ensures SuperblockFor(vol.base, vol.g, vol.g.totalBlocks - vol.g.dataStart)
  {
    hide Formatted, FsOk, FreeSet, Clean, SuperblockFor, IsFormatted, Geometry.Valid, Volume.Valid, View, RecoversTo, ReplaysTo,
         Signed, Accepted, DecodeGeometry, DecodeHint, DiskOk, Mountable, Sector;
    vol := null;
    res := FormatDevice(dev, totalBlocks, blockSize);
    ghost var g := Formatted(totalBlocks, blockSize);
    ghost var d := dev.blocks;
    FormattedSuperblock(d, totalBlocks, blockSize);
    CleanRecovers(d, g);
    SuperblockAccepted(d, g, g.totalBlocks - g.dataStart);
    assert RecoversTo(d, g, View(d, g));
    res, vol := MountDevice(dev);
    SuperblockSame(d, dev.blocks, g, g.totalBlocks - g.dataStart);
  }

  lemma SuperblockSame(d: seq<Block>, d': seq<Block>, g: Geometry, hint: nat)
    requires SuperblockFor(d, g, hint) && View(d', g) == View(d, g)
    ensures SuperblockFor(d', g, hint)
  {
    hide EncodeSuperblock, FieldsFit;
    assert View(d', g)[0] == View(d, g)[0];
  }

  // ---- A session, a power cut, a mount ----

  ghost predicate Avoids0(ws: seq<Write>) {
    forall i :: 0 <= i < |ws| ==> ws[i].block > 0
  }

  lemma {:induction false} ApplyAvoids0(d: seq<Block>, ws: seq<Write>)
    requires Avoids0(ws) && |d| > 0
    ensures Apply(d, ws)[0] == d[0]
    decreases |ws|
  {
    if ws != [] {
      ApplyAvoids0(Put(d, ws[0].block, ws[0].data), ws[1..]);
    }
  }

  lemma {:induction false} ChunksAvoid0(d: seq<Block>, g: Geometry, off: nat, data: seq<byte>)
    requires g.Valid() && DiskOk(d, g) && off + |data| <= g.JournalBytes()
    ensures Avoids0(ChunkWrites(d, g, off, data))
    decreases |data|
  {
    hide g.Valid, DiskOk, ChunkWrite, Splice, Journal, View, g.JournalBytes;
    if data != [] {
      ValidSize(g);
      var w := ChunkWrite(d, g, off, data);
      var c := Chunk(g, off, |data|);
      ChunkIsSplice(d, g, off, data);
      ChunkPositive(g, off, |data|);
      ChunksAvoid0(Put(d, w.block, w.data), g, off + c, data[c..]);
    }
  }

  lemma LogChunkAvoids0(d: seq<Block>, g: Geometry, off: nat, data: seq<byte>)
    ensures Avoids0(LogChunk(d, g, off, data))
  {
    hide g.Valid, DiskOk, ChunkWrites, g.JournalBytes;
    if g.Valid() && DiskOk(d, g) && off + |data| <= g.JournalBytes() {
      ChunksAvoid0(d, g, off, data);
    }
  }

  lemma StepAvoids0(d: seq<Block>, g: Geometry, off: nat, s: Step)
    requires g.Valid() && g.blockSize > 0 && StepOk(g, s)
    ensures Avoids0(StepWrites(d, g, off, s))
  {
    hide g.Valid, LogChunk, Apply, BeginHeader, CommitHeader;
    ValidSize(g);
    if s.Txn? {
      var w1 := LogChunk(d, g, off, BeginHeader(g, off, s.w.block, s.w.data));
      var d1 := Apply(d, w1);
      var w2 := LogChunk(d1, g, off + HEADER_SIZE, s.w.data);
      LogChunkAvoids0(d, g, off, BeginHeader(g, off, s.w.block, s.w.data));
      LogChunkAvoids0(d1, g, off + HEADER_SIZE, s.w.data);
      LogChunkAvoids0(Apply(d1, w2), g, off + HEADER_SIZE + g.blockSize, CommitHeader());
    }
  }

  lemma {:induction false} SessionAvoids0(base: seq<Block>, g: Geometry, steps: seq<Step>)
    requires g.Valid() && g.blockSize > 0 && StepsOk(g, steps)
    ensures Avoids0(Expand(base, g, steps))
    decreases |steps|
  {
    hide g.Valid, StepWrites, Apply, Slot, Txns, StepOk;
    if steps != [] {
      var init := steps[..|steps| - 1];
      StepsOkInit(g, steps);
      SessionAvoids0(base, g, init);
      StepAvoids0(Apply(base, Expand(base, g, init)), g, Slot(g, |Txns(init)|), steps[|steps| - 1]);
    }
  }

  /** No write of a session touches the superblock. */
  lemma SuperblockSurvives(vol: Volume, m: nat, hint: nat)
    requires vol.Valid() && !vol.exposed && SuperblockFor(vol.base, vol.g, hint)
    requires vol.mark <= |vol.dev.log| && m <= |vol.dev.log| - vol.mark
    ensures SuperblockFor(Apply(vol.base, vol.dev.log[vol.mark..vol.mark + m]), vol.g, hint)
  {
    hide vol.Valid, vol.g.Valid, FieldsFit, EncodeSuperblock, Expand, Apply, Session, Clean;
    vol.ValidParts();
    var written := vol.dev.log[vol.mark..];
    SessionParts(vol.base, vol.g, written, vol.dev.blocks, vol.steps, vol.history, vol.journalOffset);
    SessionAvoids0(vol.base, vol.g, vol.steps);
    assert vol.dev.log[vol.mark..vol.mark + m] == written[..m];
    ApplyAvoids0(vol.base, written[..m]);
  }

  lemma RecoversDisk(d: seq<Block>, g: Geometry, v: seq<Block>)
    requires g.Valid() && RecoversTo(d, g, v)
    ensures DiskOk(d, g)
  {
    hide g.Valid, DiskOk, JournalIs, Journal, View;
  }

  /**
   * The whole way round: the device of a session of calls loses power at any block write, and is mounted
   * again. Mount succeeds with the same fields, the volume is one of the session's states, no finished
   * step is lost, the tree is whole, and every file owns its blocks if and only if the state does not lie
   * strictly inside a delete.
   */
  method MountAfterPowerCut(dev: BlockDevice, ghost vol: Volume, ghost calls: seq<Call>, ghost marks: seq<nat>,
                            ghost m: nat, ghost hint: nat)
    returns (res: FsResult, after: Volume?, ghost k: nat)
    requires vol.Valid() && !vol.exposed && vol.g.Valid() && vol.g.blockSize > 0
    requires AllTrees(vol, 0) && SafeButDeletes(vol.history, vol.g, calls, marks) && SuperblockFor(vol.base, vol.g, hint)
    requires vol.mark <= |vol.dev.log| && m <= |vol.dev.log| - vol.mark && dev != vol.dev
    requires dev.blocks == Apply(vol.base, vol.dev.log[vol.mark..vol.mark + m])
    modifies dev
    ensures res == OK && after != null && fresh(after) && after.dev == dev && after.g == vol.g
    ensures after.Valid() && !after.exposed && after.history == [after.V()]
    ensures k < |vol.history| && after.V() == vol.history[k]
    ensures TreeOk(Table(after.V(), vol.g), vol.g.root)
    ensures CrashOk(after.V(), vol.g) <==> !InsideDelete(calls, marks, k)
    ensures forall i :: 0 <= i <= |vol.steps| && |Expand(vol.base, vol.g, vol.steps[..i])| <= m ==> i <= k
  {
    hide FsOk, Clean, SuperblockFor, Geometry.Valid, View, RecoversTo, ReplaysTo, Apply, Expand, Volume.Valid, CrashOk,
         Signed, Accepted, DecodeGeometry, DecodeHint, DiskOk, Mountable, Sector, TreeOk, Table, InsideDelete,
         SafeButDeletes, AllTrees;
    k := CrashDuringRun(vol, calls, marks, m);
    ghost var d := dev.blocks;
    SuperblockSurvives(vol, m, hint);
    RecoversDisk(d, vol.g, vol.history[k]);
    SuperblockAccepted(d, vol.g, hint);
    assert RecoversTo(d, vol.g, vol.history[k]);
    res, after := MountDevice(dev);
  }
}
