/** The on-disk layout: sizes of the packed structs and the regions of a volume. */
module Layout {
  import opened Bytes

  type Block = seq<byte>

  const SECTOR: nat := 512
  const MAX_BLOCK_SIZE: nat := 4096
  const HEADER_SIZE: nat := 24
  const ENTRY_SIZE: nat := 292
  const EXTENT_SIZE: nat := 16
  const DIRECT_EXTENTS: nat := 6
  const NAME_LEN: nat := 112
  const SALT_SIZE: nat := 16

  predicate ValidBlockSize(blockSize: nat) {
    0 < blockSize <= MAX_BLOCK_SIZE && blockSize % SECTOR == 0
  }

  lemma BlockSizeFacts(blockSize: nat)
    requires ValidBlockSize(blockSize)
    ensures blockSize >= SECTOR && blockSize % 8 == 0 && blockSize == 8 * (blockSize / 8)
  {
  }

  /** The geometry fields of a superblock. */
  datatype Geometry = Geometry(
    blockSize: nat, totalBlocks: nat,
    bitmapStart: nat, bitmapCount: nat,
    journalStart: nat, journalCount: nat,
    tableStart: nat, tableCount: nat, capacity: nat,
    dataStart: nat, root: nat)
  {
    /** Block size is usable, the regions lie in order after block 0, the bitmap covers every block. */
    ghost predicate Valid() {
      && ValidBlockSize(blockSize)
      && totalBlocks * blockSize < TWO_64
      && totalBlocks < TWO_64
      && 1 <= bitmapStart
      && bitmapStart + bitmapCount <= journalStart
      && journalStart + journalCount <= tableStart
      && tableStart + tableCount <= dataStart <= totalBlocks
      && totalBlocks <= 8 * (bitmapCount * blockSize)
      && root < Slots()
    }

    predicate InJournal(b: nat) {
      journalStart <= b < journalStart + journalCount
    }

    /** The journal block that holds byte `off` of the log, and the byte's place in it. */
    function LogBlock(off: nat): (q: nat)
      requires blockSize > 0
    {
      off / blockSize
    }

    function LogByte(off: nat): (r: nat)
      requires blockSize > 0
    {
      off % blockSize
    }

    function JournalBytes(): nat {
      journalCount * blockSize
    }

    /** Bytes one transaction takes in the log: begin header, block image, commit header. */
    function RecordSize(): nat {
      HEADER_SIZE + blockSize + HEADER_SIZE
    }

    function PerBlock(): nat
      requires blockSize > 0
    {
      blockSize / ENTRY_SIZE
    }

    /** Entries that a scan of the table visits. */
    function Slots(): nat
      requires blockSize > 0
    {
      var n := tableCount * PerBlock();
      if capacity < n then capacity else n
    }
  }

  /** A device that holds the volume: every block has the volume's block size. */
  ghost predicate DiskOk(d: seq<Block>, g: Geometry) {
    |d| >= g.totalBlocks && forall b :: 0 <= b < |d| ==> |d[b]| == g.blockSize
  }

  datatype Write = Write(block: nat, data: Block)

  /** One atomic block write; a device ignores addresses it does not have. */
  function Put(d: seq<Block>, b: nat, data: Block): (r: seq<Block>)
    ensures |r| == |d|
    ensures forall i :: 0 <= i < |d| ==> r[i] == if i == b then data else d[i]
  {
    if b < |d| then d[b := data] else d
  }

  function Apply(d: seq<Block>, ws: seq<Write>): (r: seq<Block>)
    ensures |r| == |d|
    decreases |ws|
  {
    if ws == [] then d else Apply(Put(d, ws[0].block, ws[0].data), ws[1..])
  }

  lemma {:induction false} ApplyConcat(d: seq<Block>, a: seq<Write>, b: seq<Write>)
    ensures Apply(d, a + b) == Apply(Apply(d, a), b)
    decreases |a|
  {
    if a == [] {
      assert a + b == b;
    } else {
      assert (a + b)[1..] == a[1..] + b;
      ApplyConcat(Put(d, a[0].block, a[0].data), a[1..], b);
    }
  }

  lemma ApplyLast(d: seq<Block>, a: seq<Write>, w: Write)
    ensures Apply(d, a + [w]) == Put(Apply(d, a), w.block, w.data)
  {
    ApplyConcat(d, a, [w]);
  }
}
