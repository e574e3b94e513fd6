/** The superblock: its 512-byte image and the checks mount makes on it. */
module Superblock {
  import opened Bytes
  import opened Hash
  import opened Layout

  const SIGNATURE_LEN: nat := 8
  const FIELDS_LEN: nat := 100
  const SUPERBLOCK_SIZE: nat := 512

  function Signature(): (s: seq<byte>)
    ensures |s| == SIGNATURE_LEN && forall k :: 0 <= k < 8 ==> s[k] as int == "VTX2FS01"[k] as int
  {
    [0x56, 0x54, 0x58, 0x32, 0x46, 0x53, 0x30, 0x31]
  }

  /** The counted fields, eight bytes each, from total_blocks to free_blocks_hint. */
  function Counts(g: Geometry, hint: nat): (c: seq<nat>)
    ensures |c| == 11
  {
    [g.totalBlocks, g.bitmapStart, g.bitmapCount, g.journalStart, g.journalCount,
     g.tableStart, g.tableCount, g.capacity, g.dataStart, g.root, hint]
  }

  function EncodeCounts(c: seq<nat>): (s: seq<byte>)
    ensures |s| == 8 * |c|
  {
    if c == [] then [] else LE(c[0], 8) + EncodeCounts(c[1..])
  }

  lemma {:induction false} CountAt(c: seq<nat>, n: nat)
    requires n < |c|
    ensures EncodeCounts(c)[8 * n..8 * n + 8] == LE(c[n], 8)
  {
    hide LE;
    if n > 0 {
      CountAt(c[1..], n - 1);
      var t := EncodeCounts(c[1..]);
      assert EncodeCounts(c) == LE(c[0], 8) + t;
      assert EncodeCounts(c)[8 * n..8 * n + 8] == t[8 * (n - 1)..8 * (n - 1) + 8];
    }
  }

  /** The fields the checksum covers. */
  function EncodeFields(g: Geometry, hint: nat): (s: seq<byte>)
    ensures |s| == FIELDS_LEN
  {
    Signature() + LE(g.blockSize, 4) + EncodeCounts(Counts(g, hint))
  }

  function EncodeSuperblock(g: Geometry, hint: nat): (s: seq<byte>)
    ensures |s| == SUPERBLOCK_SIZE
  {
    EncodeFields(g, hint) + LE(Fnv(EncodeFields(g, hint)), 4) + seq(408, _ => 0)
  }

  function FieldAt(s: seq<byte>, n: nat): nat
    requires |s| == SUPERBLOCK_SIZE && n < 11
  {
    UnLE(s[12 + 8 * n..20 + 8 * n])
  }

  function DecodeGeometry(s: seq<byte>): Geometry
    requires |s| == SUPERBLOCK_SIZE
  {
    Geometry(UnLE(s[8..12]), FieldAt(s, 0), FieldAt(s, 1), FieldAt(s, 2), FieldAt(s, 3), FieldAt(s, 4),
             FieldAt(s, 5), FieldAt(s, 6), FieldAt(s, 7), FieldAt(s, 8), FieldAt(s, 9))
  }

  function DecodeHint(s: seq<byte>): nat
    requires |s| == SUPERBLOCK_SIZE
  {
    FieldAt(s, 10)
  }

  /** mount finds the signature. */
  predicate Signed(s: seq<byte>)
    requires |s| == SUPERBLOCK_SIZE
  {
    s[..SIGNATURE_LEN] == Signature()
  }

  /** mount finds nothing wrong with the fields; the table's end is a uint64_t sum. */
  predicate Accepted(s: seq<byte>)
    requires |s| == SUPERBLOCK_SIZE
  {
    var g := DecodeGeometry(s);
    && ValidBlockSize(g.blockSize)
    && UnLE(s[FIELDS_LEN..FIELDS_LEN + 4]) == Fnv(s[..FIELDS_LEN])
    && g.dataStart <= g.totalBlocks
    && (g.tableStart + g.tableCount) % TWO_64 <= g.totalBlocks
    && g.root < g.capacity
  }

  ghost predicate FieldsFit(g: Geometry, hint: nat) {
    g.blockSize < TWO_32 && forall n :: 0 <= n < 11 ==> Counts(g, hint)[n] < TWO_64
  }

  lemma FieldDecodes(g: Geometry, hint: nat, n: nat)
    requires FieldsFit(g, hint) && n < 11
    ensures FieldAt(EncodeSuperblock(g, hint), n) == Counts(g, hint)[n]
  {
    hide LE, UnLE, Fnv, EncodeCounts, Counts;
    var c := Counts(g, hint);
    var s := EncodeSuperblock(g, hint);
    CountAt(c, n);
    LE8(c[n]);
    FieldsSlice(g, hint, 12 + 8 * n, 20 + 8 * n);
    assert EncodeFields(g, hint)[12 + 8 * n..20 + 8 * n] == EncodeCounts(c)[8 * n..8 * n + 8];
  }

  lemma FieldsSlice(g: Geometry, hint: nat, lo: nat, hi: nat)
    requires lo <= hi <= FIELDS_LEN
    ensures EncodeSuperblock(g, hint)[lo..hi] == EncodeFields(g, hint)[lo..hi]
  {
    hide EncodeFields, LE, Fnv;
  }

  lemma ChecksumSlice(g: Geometry, hint: nat)
    ensures EncodeSuperblock(g, hint)[FIELDS_LEN..FIELDS_LEN + 4] == LE(Fnv(EncodeFields(g, hint)), 4)
  {
    hide EncodeFields, LE, Fnv;
  }

  lemma BlockSizeSlice(g: Geometry, hint: nat)
    ensures EncodeFields(g, hint)[..SIGNATURE_LEN] == Signature()
    ensures EncodeFields(g, hint)[8..12] == LE(g.blockSize, 4)
  {
    hide LE, EncodeCounts;
  }

  /** The image decodes to the fields it was made of, and carries its signature and checksum. */
  lemma SuperblockRoundTrip(g: Geometry, hint: nat)
    requires FieldsFit(g, hint)
    ensures var s := EncodeSuperblock(g, hint);
            && Signed(s) && DecodeGeometry(s) == g && DecodeHint(s) == hint
            && UnLE(s[FIELDS_LEN..FIELDS_LEN + 4]) == Fnv(s[..FIELDS_LEN])
  {
    hide LE, UnLE, Fnv, EncodeFields, EncodeSuperblock, Counts, FieldAt;
    var s := EncodeSuperblock(g, hint);
    BlockSizeSlice(g, hint);
    FieldsSlice(g, hint, 0, 8);
    FieldsSlice(g, hint, 8, 12);
    FieldsSlice(g, hint, 0, FIELDS_LEN);
    assert s[..FIELDS_LEN] == EncodeFields(g, hint);
    assert s[..SIGNATURE_LEN] == EncodeFields(g, hint)[0..8] == EncodeFields(g, hint)[..SIGNATURE_LEN];
    LE4(g.blockSize);
    ChecksumSlice(g, hint);
    LE4(Fnv(EncodeFields(g, hint)));
    forall n: nat | n < 11 ensures FieldAt(s, n) == Counts(g, hint)[n] {
      FieldDecodes(g, hint, n);
    }
    CountsAre(g, hint);
    assert DecodeGeometry(s) == g;
  }

  lemma CountsAre(g: Geometry, hint: nat)
    ensures var c := Counts(g, hint);
            && c[0] == g.totalBlocks && c[1] == g.bitmapStart && c[2] == g.bitmapCount && c[3] == g.journalStart
            && c[4] == g.journalCount && c[5] == g.tableStart && c[6] == g.tableCount && c[7] == g.capacity
            && c[8] == g.dataStart && c[9] == g.root && c[10] == hint
  {
  }

  /** One changed byte in a field that the checksum covers, or in the checksum itself, and mount refuses the superblock. */
  lemma DamagedRefused(s: seq<byte>, i: nat, x: byte)
    requires |s| == SUPERBLOCK_SIZE && Accepted(s) && i < FIELDS_LEN + 4 && s[i] != x
    ensures !Accepted(s[i := x])
  {
    hide FnvFrom, UnLE, ValidBlockSize, DecodeGeometry;
    var s' := s[i := x];
    if i < FIELDS_LEN {
      assert s'[..FIELDS_LEN] == s[..FIELDS_LEN][i := x] && s'[FIELDS_LEN..FIELDS_LEN + 4] == s[FIELDS_LEN..FIELDS_LEN + 4];
      OneByteTells(FNV_BASIS, s[..FIELDS_LEN], i, x);
    } else {
      assert s'[..FIELDS_LEN] == s[..FIELDS_LEN];
      assert s'[FIELDS_LEN..FIELDS_LEN + 4][i - FIELDS_LEN] != s[FIELDS_LEN..FIELDS_LEN + 4][i - FIELDS_LEN];
      if UnLE(s'[FIELDS_LEN..FIELDS_LEN + 4]) == UnLE(s[FIELDS_LEN..FIELDS_LEN + 4]) {
        UnLEApart(s'[FIELDS_LEN..FIELDS_LEN + 4], s[FIELDS_LEN..FIELDS_LEN + 4]);
      }
    }
  }
}
