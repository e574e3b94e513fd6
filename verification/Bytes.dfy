/** Bytes, bits and the little-endian images that a memcpy of a packed C struct produces. */
module Bytes {
  import opened Arith

  newtype byte = b: int | 0 <= b < 256

  /** `s` with `d` stored over it from `off` on: what a memcpy into a buffer does. */
  function Splice<T>(s: seq<T>, off: nat, d: seq<T>): (r: seq<T>)
    requires off + |d| <= |s|
    ensures |r| == |s|
  {
    s[..off] + d + s[off + |d|..]
  }

  lemma SpliceAt<T>(s: seq<T>, off: nat, d: seq<T>, i: nat)
    requires off + |d| <= |s| && i < |s|
    ensures Splice(s, off, d)[i] == if off <= i < off + |d| then d[i - off] else s[i]
  {
  }

  /** A read of the stored range returns what was stored. */
  lemma SpliceSame<T>(s: seq<T>, off: nat, d: seq<T>)
    requires off + |d| <= |s|
    ensures Splice(s, off, d)[off..off + |d|] == d
  {
  }

  /** A read that misses the stored range is unchanged. */
  lemma SpliceOther<T>(s: seq<T>, off: nat, d: seq<T>, lo: nat, hi: nat)
    requires off + |d| <= |s| && lo <= hi <= |s|
    requires hi <= off || off + |d| <= lo
    ensures Splice(s, off, d)[lo..hi] == s[lo..hi]
  {
  }

  lemma SpliceSplice<T>(s: seq<T>, off: nat, a: seq<T>, b: seq<T>)
    requires off + |a| + |b| <= |s|
    ensures Splice(Splice(s, off, a), off + |a|, b) == Splice(s, off, a + b)
  {
  }

  function Pow2(k: nat): (p: nat)
    ensures p > 0
  {
    if k == 0 then 1 else 2 * Pow2(k - 1)
  }

  lemma {:induction false} Pow2Mono(j: nat, k: nat)
    requires j <= k
    ensures Pow2(j) <= Pow2(k)
  {
    if j < k {
      Pow2Mono(j, k - 1);
    }
  }

  /** Bit k of an unsigned integer: `(n & (1u << k)) != 0`. */
  predicate BitOf(n: nat, k: nat) {
    if k == 0 then n % 2 == 1 else BitOf(n / 2, k - 1)
  }

  /** Bit k is worth 2^k. */
  lemma {:induction false} BitValue(n: nat, k: nat)
    ensures BitOf(n, k) <==> n / Pow2(k) % 2 == 1
  {
    if k > 0 {
      BitValue(n / 2, k - 1);
      HalfFirst(n, Pow2(k - 1));
    }
  }

  lemma HalfFirst(n: nat, p: nat)
    requires p > 0
    ensures n / (2 * p) == n / 2 / p
  {
    DivFacts(n, 2);
    DivFacts(n / 2, p);
    var q, r := n / 2 / p, n / 2 % p;
    assert n == q * (2 * p) + (2 * r + n % 2) by {
      assert 2 * (q * p) == q * (2 * p);
    }
    DivUnique(n, 2 * p, q, 2 * r + n % 2);
  }

  /** `n | (1u << k)` when `on`, `n & ~(1u << k)` otherwise. */
  function WithBit(n: nat, k: nat, on: bool): nat {
    if k == 0 then n - n % 2 + (if on then 1 else 0)
    else 2 * WithBit(n / 2, k - 1, on) + n % 2
  }

  lemma {:induction false} WithBitBound(n: nat, k: nat, on: bool, w: nat)
    requires k < w && n < Pow2(w)
    ensures WithBit(n, k, on) < Pow2(w)
  {
    if k > 0 {
      WithBitBound(n / 2, k - 1, on, w - 1);
    }
  }

  /** Setting or clearing bit k replaces what it counts. */
  lemma {:induction false} WithBitValue(n: nat, k: nat, on: bool)
    ensures WithBit(n, k, on) + (if BitOf(n, k) then Pow2(k) else 0) == n + (if on then Pow2(k) else 0)
  {
    if k > 0 {
      WithBitValue(n / 2, k - 1, on);
    }
  }

  /** Setting or clearing bit k changes that bit and no other. */
  lemma {:induction false} WithBitOf(n: nat, k: nat, on: bool, j: nat)
    ensures BitOf(WithBit(n, k, on), j) == if j == k then on else BitOf(n, j)
  {
    if k > 0 && j > 0 {
      assert WithBit(n, k, on) / 2 == WithBit(n / 2, k - 1, on);
      WithBitOf(n / 2, k - 1, on, j - 1);
    } else if j > 0 {
      assert WithBit(n, k, on) / 2 == n / 2;
    }
  }

  predicate Bit(b: byte, k: nat) {
    BitOf(b as nat, k)
  }

  function PutBit(b: byte, k: nat, on: bool): byte
    requires k < 8
  {
    WithBitBound(b as nat, k, on, 8);
    assert Pow2(8) == 256;
    WithBit(b as nat, k, on) as byte
  }

  lemma PutBitOf(b: byte, k: nat, on: bool, j: nat)
    requires k < 8
    ensures Bit(PutBit(b, k, on), j) == if j == k then on else Bit(b, j)
  {
    WithBitOf(b as nat, k, on, j);
  }

  /** Bit k of a byte counts 2^k, and setting or clearing it replaces what it counts. */
  lemma PutBitValue(b: byte, k: nat, on: bool)
    requires k < 8
    ensures Bit(b, k) <==> b as nat / Pow2(k) % 2 == 1
    ensures PutBit(b, k, on) as nat + (if Bit(b, k) then Pow2(k) else 0) == b as nat + (if on then Pow2(k) else 0)
  {
    BitValue(b as nat, k);
    WithBitValue(b as nat, k, on);
  }

  lemma {:induction false} ZeroBits(j: nat)
    ensures !BitOf(0, j)
  {
    if j > 0 {
      ZeroBits(j - 1);
    }
  }

  lemma {:induction false} OneBits(w: nat, j: nat)
    requires j < w
    ensures BitOf(Pow2(w) - 1, j)
  {
    if j > 0 {
      assert (Pow2(w) - 1) / 2 == Pow2(w - 1) - 1;
      OneBits(w - 1, j - 1);
    }
  }

  lemma ConstantBits(j: nat)
    requires j < 8
    ensures Bit(0xFF, j) && !Bit(0, j)
  {
    assert Pow2(8) == 256;
    OneBits(8, j);
    ZeroBits(j);
  }

  /** The low w bits of `a ^ b`. */
  function Xor(a: nat, b: nat, w: nat): (r: nat)
    ensures r < Pow2(w)
  {
    if w == 0 then 0 else (a % 2 + b % 2) % 2 + 2 * Xor(a / 2, b / 2, w - 1)
  }

  lemma Halves(d: nat, h: nat)
    requires d < 2
    ensures (d + 2 * h) % 2 == d && (d + 2 * h) / 2 == h
  {
  }

  lemma ParityTwice(a: nat, b: nat)
    requires a < 2 && b < 2
    ensures ((a + b) % 2 + b) % 2 == a
  {
  }

  lemma XorStep(a: nat, b: nat, w: nat)
    requires w > 0
    ensures Xor(a, b, w) == (a % 2 + b % 2) % 2 + 2 * Xor(a / 2, b / 2, w - 1)
  {
  }

  /** XOR with the same operand twice gives the first operand back. */
  lemma {:induction false} XorTwice(a: nat, b: nat, w: nat)
    requires a < Pow2(w)
    ensures Xor(Xor(a, b, w), b, w) == a
  {
    hide Xor;
    if w == 0 {
      XorNone(Xor(a, b, w), b);
    } else {
      var d, h := (a % 2 + b % 2) % 2, Xor(a / 2, b / 2, w - 1);
      XorTwice(a / 2, b / 2, w - 1);
      XorStep(a, b, w);
      XorStep(d + 2 * h, b, w);
      Halves(d, h);
      ParityTwice(a % 2, b % 2);
    }
  }

  /** A bit of `a ^ b` is set where the bits of a and b differ. */
  lemma {:induction false} XorBits(a: nat, b: nat, w: nat, k: nat)
    ensures BitOf(Xor(a, b, w), k) <==> k < w && (BitOf(a, k) != BitOf(b, k))
  {
    if w == 0 {
      ZeroBits(k);
    } else {
      var d, h := (a % 2 + b % 2) % 2, Xor(a / 2, b / 2, w - 1);
      Halves(d, h);
      if k > 0 {
        XorBits(a / 2, b / 2, w - 1, k - 1);
      }
    }
  }

  lemma {:induction false} XorZero(a: nat, w: nat)
    requires a < Pow2(w)
    ensures Xor(a, 0, w) == a
  {
    if w > 0 {
      XorZero(a / 2, w - 1);
    }
  }

  lemma {:induction false} XorComm(a: nat, b: nat, w: nat)
    ensures Xor(a, b, w) == Xor(b, a, w)
  {
    if w > 0 {
      XorComm(a / 2, b / 2, w - 1);
    }
  }

  lemma XorNone(a: nat, b: nat)
    ensures Xor(a, b, 0) == 0
  {
  }

  function XorByte(a: byte, b: byte): byte {
    assert Pow2(8) == 256;
    Xor(a as nat, b as nat, 8) as byte
  }

  lemma XorByteTwice(a: byte, b: byte)
    ensures XorByte(XorByte(a, b), b) == a
  {
    assert Pow2(8) == 256;
    XorTwice(a as nat, b as nat, 8);
  }

  /** Only a stream byte of 0 leaves a byte as it is. */
  lemma XorByteChanges(a: byte, k: byte)
    ensures XorByte(a, k) == a <==> k == 0
  {
    hide Xor;
    assert Pow2(8) == 256;
    XorTwice(k as nat, a as nat, 8);
    XorComm(a as nat, k as nat, 8);
    XorZero(a as nat, 8);
    XorComm(a as nat, 0, 8);
    XorSelf(a as nat, 8);
  }

  lemma {:induction false} XorSelf(a: nat, w: nat)
    ensures Xor(a, a, w) == 0
  {
    if w > 0 {
      XorSelf(a / 2, w - 1);
    }
  }

  function Pow256(k: nat): (p: nat)
    ensures p > 0
  {
    if k == 0 then 1 else 256 * Pow256(k - 1)
  }

  /** The k-byte little-endian image of n, truncated as a C integer of that width is. */
  function LE(n: nat, k: nat): (s: seq<byte>)
    ensures |s| == k
  {
    if k == 0 then [] else [(n % 256) as byte] + LE(n / 256, k - 1)
  }

  function UnLE(s: seq<byte>): nat {
    if s == [] then 0 else s[0] as nat + 256 * UnLE(s[1..])
  }

  lemma {:induction false} UnLEBound(s: seq<byte>)
    ensures UnLE(s) < Pow256(|s|)
  {
    if s != [] {
      UnLEBound(s[1..]);
    }
  }

  lemma UnLECons(b: byte, t: seq<byte>)
    ensures UnLE([b] + t) == b as nat + 256 * UnLE(t)
  {
    assert ([b] + t)[1..] == t;
  }

  /** Storing a number and reading it back loses exactly what does not fit the width. */
  lemma {:induction false} LERoundTrip(n: nat, k: nat)
    ensures UnLE(LE(n, k)) == n % Pow256(k)
  {
    if k > 0 {
      LERoundTrip(n / 256, k - 1);
      UnLECons((n % 256) as byte, LE(n / 256, k - 1));
      ModStep(n, Pow256(k - 1));
    }
  }

  /** No two strings of one length are the same number. */
  lemma {:induction false} UnLEApart(s: seq<byte>, t: seq<byte>)
    requires |s| == |t| && UnLE(s) == UnLE(t)
    ensures s == t
  {
    if s != [] {
      assert s[0] as nat == UnLE(s) % 256 && t[0] as nat == UnLE(t) % 256;
      UnLEApart(s[1..], t[1..]);
      assert s == [s[0]] + s[1..] && t == [t[0]] + t[1..];
    }
  }

  const TWO_32: nat := 0x1_0000_0000
  const TWO_64: nat := 0x1_0000_0000_0000_0000

  lemma Powers()
    ensures Pow256(4) == TWO_32 && Pow256(8) == TWO_64
  {
    assert Pow256(2) == 0x1_0000;
    assert Pow256(4) == TWO_32;
    assert Pow256(6) == 0x1_0000_0000_0000;
  }

  lemma LE4(n: nat)
    requires n < TWO_32
    ensures UnLE(LE(n, 4)) == n
  {
    hide LE, UnLE;
    LERoundTrip(n, 4);
    Powers();
  }

  lemma LE8(n: nat)
    requires n < TWO_64
    ensures UnLE(LE(n, 8)) == n
  {
    hide LE, UnLE;
    LERoundTrip(n, 8);
    Powers();
  }

  lemma UnLE4(s: seq<byte>)
    requires |s| == 4
    ensures UnLE(s) < TWO_32
  {
    hide UnLE;
    UnLEBound(s);
    Powers();
  }

  lemma UnLE8(s: seq<byte>)
    requires |s| == 8
    ensures UnLE(s) < TWO_64
  {
    hide UnLE;
    UnLEBound(s);
    Powers();
  }
}
