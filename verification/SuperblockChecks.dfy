/** What the checks of vtx2_mount establish about a superblock, and what they leave to whoever wrote it. */
module SuperblockChecks {
  import opened Bytes
  import opened Hash
  import opened Layout
  import opened Superblock

  const UNCHECKED: nat := 7

  /** The demands on the fields that mount relies on and does not check. */
  ghost predicate Unchecked(g: Geometry, n: nat)
    requires g.blockSize > 0
  {
    if n == 0 then g.totalBlocks * g.blockSize < TWO_64
    else if n == 1 then 1 <= g.bitmapStart
    else if n == 2 then g.bitmapStart + g.bitmapCount <= g.journalStart
    else if n == 3 then g.journalStart + g.journalCount <= g.tableStart
    else if n == 4 then g.tableStart + g.tableCount <= g.dataStart
    else if n == 5 then g.totalBlocks <= 8 * (g.bitmapCount * g.blockSize)
    else g.root < g.Slots()
  }

  ghost predicate AllUnchecked(g: Geometry)
    requires g.blockSize > 0
  {
    forall n: nat :: n < UNCHECKED ==> Unchecked(g, n)
  }

  /** Of a superblock that mount accepts exactly these seven demands are open. */
  lemma WhatMountAssumes(s: seq<byte>)
    requires |s| == SUPERBLOCK_SIZE && Accepted(s)
    ensures DecodeGeometry(s).blockSize > 0
    ensures DecodeGeometry(s).Valid() <==> AllUnchecked(DecodeGeometry(s))
  {
    hide Fnv, UnLE, Geometry.Slots;
    var g := DecodeGeometry(s);
    UnLE8(s[12..20]);
    if AllUnchecked(g) {
      assert Unchecked(g, 0) && Unchecked(g, 1) && Unchecked(g, 2) && Unchecked(g, 3);
      assert Unchecked(g, 4) && Unchecked(g, 5) && Unchecked(g, 6);
    }
  }

  /** The fields vtx2_format writes for 64 blocks of 512 bytes. */
  function Smallest(): Geometry {
    Geometry(512, 64, 1, 1, 2, 4, 6, 4, 7, 10, 0)
  }

  /** Fields that break demand n and no other. */
  function Breaks(n: nat): Geometry {
    var g := Smallest();
    if n == 0 then
      g.(totalBlocks := 0x80_0000_0000_0000, bitmapCount := 0x800_0000_0000, journalStart := 0x800_0000_0001,
         tableStart := 0x800_0000_0005, dataStart := 0x800_0000_0009)
    else if n == 1 then g.(bitmapStart := 0)
    else if n == 2 then g.(bitmapStart := 2)
    else if n == 3 then g.(journalCount := 5)
    else if n == 4 then g.(tableCount := 5)
    else if n == 5 then g.(bitmapCount := 0)
    else g.(root := 4)
  }

  lemma BreaksOne(n: nat, m: nat)
    requires n < UNCHECKED && m < UNCHECKED
    ensures var g := Breaks(n);
            && ValidBlockSize(g.blockSize) && FieldsFit(g, 0) && g.dataStart <= g.totalBlocks
            && (g.tableStart + g.tableCount) % TWO_64 <= g.totalBlocks && g.root < g.capacity
            && (Unchecked(g, m) <==> m != n)
  {
  }

  lemma SomeSize(g: Geometry)
    requires ValidBlockSize(g.blockSize)
    ensures g.blockSize > 0
  {
  }

  lemma ImageAccepted(g: Geometry)
    requires ValidBlockSize(g.blockSize) && FieldsFit(g, 0) && g.dataStart <= g.totalBlocks && g.root < g.capacity
    requires (g.tableStart + g.tableCount) % TWO_64 <= g.totalBlocks
    ensures var s := EncodeSuperblock(g, 0); Signed(s) && Accepted(s) && DecodeGeometry(s) == g
  {
    hide EncodeSuperblock, DecodeGeometry, DecodeHint, FieldsFit, Fnv, UnLE, Signed;
    SuperblockRoundTrip(g, 0);
  }

  /**
   * Each of the demands by itself: a signed superblock that mount accepts and that fails this one only,
   * so that the fields do not describe a volume.
   */
  lemma AcceptedButBroken(n: nat)
    requires n < UNCHECKED
    ensures var g := Breaks(n);
            var s := EncodeSuperblock(g, 0);
            && Signed(s) && Accepted(s) && DecodeGeometry(s) == g && g.blockSize > 0 && !g.Valid()
            && forall m: nat :: m < UNCHECKED ==> (Unchecked(g, m) <==> m != n)
  {
    hide EncodeSuperblock, DecodeGeometry, FieldsFit, Accepted, Signed, Breaks, Unchecked, Geometry.Valid,
         ValidBlockSize;
    var g := Breaks(n);
    BreaksOne(n, n);
    SomeSize(g);
    forall m: nat | m < UNCHECKED ensures Unchecked(g, m) <==> m != n {
      BreaksOne(n, m);
    }
    ImageAccepted(g);
    WhatMountAssumes(EncodeSuperblock(g, 0));
  }

  /** The check on the table's end is a 64-bit sum: a table behind every block passes it by wrapping to 0. */
  lemma TableEndWraps()
    ensures var g := Smallest().(tableStart := TWO_64 - 4);
            var s := EncodeSuperblock(g, 0);
            Signed(s) && Accepted(s) && DecodeGeometry(s) == g && g.totalBlocks < g.tableStart && !g.Valid()
  {
    hide EncodeSuperblock, DecodeGeometry, Accepted, Signed;
    ImageAccepted(Smallest().(tableStart := TWO_64 - 4));
  }
}
