/** Entries and extents: their packed images, and their places in the entry table. */
module Entries {
  import opened Bytes
  import opened Layout

  const FREE: byte := 0
  const FILE: byte := 1
  const DIRECTORY: byte := 2

  datatype Extent = Extent(start: nat, count: nat)

  datatype Entry = Entry(
    name: seq<byte>, kind: byte, pad: seq<byte>,
    size: nat, created: nat, modified: nat,
    extentCount: nat, pad2: nat,
    direct: seq<Extent>, indirect: nat, parent: nat,
    scheme: byte, salt: seq<byte>, verifier: seq<byte>, nameEncrypted: byte, cryptoPad: seq<byte>)

  ghost predicate ExtentFits(x: Extent) {
    x.start < TWO_64 && x.count < TWO_64
  }

  /** The entry fits the fields of vtx2_entry_t. */
  ghost predicate Fits(e: Entry) {
    && |e.name| == NAME_LEN && |e.pad| == 7
    && e.size < TWO_64 && e.created < TWO_64 && e.modified < TWO_64
    && e.extentCount < TWO_32 && e.pad2 < TWO_32
    && |e.direct| == DIRECT_EXTENTS && (forall n :: 0 <= n < |e.direct| ==> ExtentFits(e.direct[n]))
    && e.indirect < TWO_64 && e.parent < TWO_64
    && |e.salt| == SALT_SIZE && |e.verifier| == 4 && |e.cryptoPad| == 6
  }

  function EncodeExtent(x: Extent): (s: seq<byte>)
    ensures |s| == EXTENT_SIZE
  {
    LE(x.start, 8) + LE(x.count, 8)
  }

  function DecodeExtent(s: seq<byte>): Extent
    requires |s| == EXTENT_SIZE
  {
    Extent(UnLE(s[0..8]), UnLE(s[8..16]))
  }

  lemma ExtentRoundTrip(x: Extent)
    requires ExtentFits(x)
    ensures DecodeExtent(EncodeExtent(x)) == x
  {
    hide LE, UnLE;
    LE8(x.start);
    LE8(x.count);
    var s := EncodeExtent(x);
    assert s[0..8] == LE(x.start, 8);
    assert s[8..16] == LE(x.count, 8);
  }

  lemma DecodedExtentFits(s: seq<byte>)
    requires |s| == EXTENT_SIZE
    ensures ExtentFits(DecodeExtent(s))
  {
    hide UnLE;
    UnLE8(s[0..8]);
    UnLE8(s[8..16]);
  }

  function EncodeExtents(xs: seq<Extent>): (s: seq<byte>)
    ensures |s| == EXTENT_SIZE * |xs|
  {
    if xs == [] then [] else EncodeExtent(xs[0]) + EncodeExtents(xs[1..])
  }

  lemma {:induction false} ExtentsSlice(xs: seq<Extent>, n: nat)
    requires n < |xs|
    ensures EncodeExtents(xs)[EXTENT_SIZE * n..EXTENT_SIZE * n + EXTENT_SIZE] == EncodeExtent(xs[n])
  {
    hide EncodeExtent;
    if n > 0 {
      ExtentsSlice(xs[1..], n - 1);
      var t := EncodeExtents(xs[1..]);
      assert EncodeExtents(xs) == EncodeExtent(xs[0]) + t;
      assert EncodeExtents(xs)[EXTENT_SIZE * n..EXTENT_SIZE * n + EXTENT_SIZE]
          == t[EXTENT_SIZE * (n - 1)..EXTENT_SIZE * (n - 1) + EXTENT_SIZE];
    }
  }

  function DecodeExtents(s: seq<byte>, n: nat): (xs: seq<Extent>)
    requires |s| == EXTENT_SIZE * n
    ensures |xs| == n
  {
    seq(n, i requires 0 <= i < n => DecodeExtent(s[EXTENT_SIZE * i..EXTENT_SIZE * i + EXTENT_SIZE]))
  }

  lemma ExtentsAt(xs: seq<Extent>, i: nat)
    requires i < |xs| && ExtentFits(xs[i])
    ensures DecodeExtents(EncodeExtents(xs), |xs|)[i] == xs[i]
  {
    hide EncodeExtent, DecodeExtent, ExtentFits, EncodeExtents;
    ExtentsSlice(xs, i);
    ExtentRoundTrip(xs[i]);
  }

  lemma ExtentsRoundTrip(xs: seq<Extent>)
    requires forall n :: 0 <= n < |xs| ==> ExtentFits(xs[n])
    ensures DecodeExtents(EncodeExtents(xs), |xs|) == xs
  {
    hide *;
    forall i | 0 <= i < |xs| ensures DecodeExtents(EncodeExtents(xs), |xs|)[i] == xs[i] {
      ExtentsAt(xs, i);
    }
  }

  // ---- The packed entry ----

  function EncodeHead(e: Entry): seq<byte> {
    e.name + [e.kind] + e.pad + LE(e.size, 8) + LE(e.created, 8) + LE(e.modified, 8)
    + LE(e.extentCount, 4) + LE(e.pad2, 4)
  }

  function EncodeTail(e: Entry): seq<byte> {
    LE(e.indirect, 8) + LE(e.parent, 8) + [e.scheme] + e.salt + e.verifier + [e.nameEncrypted] + e.cryptoPad
  }

  function EncodeEntry(e: Entry): seq<byte> {
    EncodeHead(e) + EncodeExtents(e.direct) + EncodeTail(e)
  }

  function DecodeEntry(s: seq<byte>): Entry
    requires |s| == ENTRY_SIZE
  {
    Entry(s[0..112], s[112], s[113..120],
          UnLE(s[120..128]), UnLE(s[128..136]), UnLE(s[136..144]),
          UnLE(s[144..148]), UnLE(s[148..152]),
          DecodeExtents(s[152..248], DIRECT_EXTENTS),
          UnLE(s[248..256]), UnLE(s[256..264]),
          s[264], s[265..281], s[281..285], s[285], s[286..292])
  }

  lemma HeadFields(e: Entry)
    requires Fits(e)
    ensures var s := EncodeHead(e);
            && |s| == 152
            && s[0..112] == e.name && s[112] == e.kind && s[113..120] == e.pad
            && s[120..128] == LE(e.size, 8) && s[128..136] == LE(e.created, 8)
            && s[136..144] == LE(e.modified, 8)
            && s[144..148] == LE(e.extentCount, 4) && s[148..152] == LE(e.pad2, 4)
  {
    hide LE;
  }

  lemma TailFields(e: Entry)
    requires Fits(e)
    ensures var s := EncodeTail(e);
            && |s| == 44
            && s[0..8] == LE(e.indirect, 8) && s[8..16] == LE(e.parent, 8)
            && s[16] == e.scheme && s[17..33] == e.salt && s[33..37] == e.verifier
            && s[37] == e.nameEncrypted && s[38..44] == e.cryptoPad
  {
    hide LE;
  }

  lemma SubSlice(a: seq<byte>, b: seq<byte>, c: seq<byte>, lo: nat, hi: nat)
    requires lo <= hi
    ensures hi <= |a| ==> (a + b + c)[lo..hi] == a[lo..hi]
    ensures |a| <= lo && hi <= |a| + |b| ==> (a + b + c)[lo..hi] == b[lo - |a|..hi - |a|]
    ensures |a| + |b| <= lo && hi <= |a + b + c| ==> (a + b + c)[lo..hi] == c[lo - |a| - |b|..hi - |a| - |b|]
  {
  }

  lemma EntrySize(e: Entry)
    requires Fits(e)
    ensures |EncodeEntry(e)| == ENTRY_SIZE
  {
    hide LE, EncodeExtents;
  }

  lemma HeadDecodes(e: Entry)
    requires Fits(e) && |EncodeEntry(e)| == ENTRY_SIZE
    ensures var s := EncodeEntry(e);
            && s[0..112] == e.name && s[112] == e.kind && s[113..120] == e.pad
            && UnLE(s[120..128]) == e.size && UnLE(s[128..136]) == e.created && UnLE(s[136..144]) == e.modified
            && UnLE(s[144..148]) == e.extentCount && UnLE(s[148..152]) == e.pad2
  {
    hide LE, UnLE, EncodeHead, EncodeTail, EncodeExtents;
    HeadFields(e);
    var a, b, c := EncodeHead(e), EncodeExtents(e.direct), EncodeTail(e);
    SubSlice(a, b, c, 0, 112);
    SubSlice(a, b, c, 113, 120);
    SubSlice(a, b, c, 120, 128);
    SubSlice(a, b, c, 128, 136);
    SubSlice(a, b, c, 136, 144);
    SubSlice(a, b, c, 144, 148);
    SubSlice(a, b, c, 148, 152);
    LE8(e.size);
    LE8(e.created);
    LE8(e.modified);
    LE4(e.extentCount);
    LE4(e.pad2);
  }

  lemma TailDecodes(e: Entry)
    requires Fits(e) && |EncodeEntry(e)| == ENTRY_SIZE
    ensures var s := EncodeEntry(e);
            && s[152..248] == EncodeExtents(e.direct)
            && UnLE(s[248..256]) == e.indirect && UnLE(s[256..264]) == e.parent
            && s[264] == e.scheme && s[265..281] == e.salt && s[281..285] == e.verifier
            && s[285] == e.nameEncrypted && s[286..292] == e.cryptoPad
  {
    hide LE, UnLE, EncodeHead, EncodeTail, EncodeExtents;
    HeadFields(e);
    TailFields(e);
    var a, b, c := EncodeHead(e), EncodeExtents(e.direct), EncodeTail(e);
    SubSlice(a, b, c, 152, 248);
    SubSlice(a, b, c, 248, 256);
    SubSlice(a, b, c, 256, 264);
    SubSlice(a, b, c, 265, 281);
    SubSlice(a, b, c, 281, 285);
    SubSlice(a, b, c, 286, 292);
    assert b[0..96] == b;
    LE8(e.indirect);
    LE8(e.parent);
  }

  /** An entry copied into the table and back is the same entry. */
  lemma EntryRoundTrip(e: Entry)
    requires Fits(e)
    ensures |EncodeEntry(e)| == ENTRY_SIZE && DecodeEntry(EncodeEntry(e)) == e
  {
    hide LE, UnLE, EncodeEntry, EncodeExtents, DecodeExtents, ExtentFits;
    EntrySize(e);
    HeadDecodes(e);
    TailDecodes(e);
    ExtentsRoundTrip(e.direct);
  }

  lemma DecodedFits(s: seq<byte>)
    requires |s| == ENTRY_SIZE
    ensures Fits(DecodeEntry(s))
  {
    hide UnLE, DecodeExtent, ExtentFits;
    UnLE8(s[120..128]);
    UnLE8(s[128..136]);
    UnLE8(s[136..144]);
    UnLE4(s[144..148]);
    UnLE4(s[148..152]);
    UnLE8(s[248..256]);
    UnLE8(s[256..264]);
    var d := s[152..248];
    forall n | 0 <= n < DIRECT_EXTENTS ensures ExtentFits(DecodeExtents(d, DIRECT_EXTENTS)[n]) {
      DecodedExtentFits(d[EXTENT_SIZE * n..EXTENT_SIZE * n + EXTENT_SIZE]);
    }
  }
}
