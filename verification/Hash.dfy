/** FNV-1a on uint32_t: checksums, key words and password verifiers. */
module Hash {
  import opened Arith
  import opened Bytes

  const FNV_BASIS: nat := 0x811C9DC5
  const FNV_PRIME: nat := 0x01000193

  lemma Pow2Word()
    ensures Pow2(32) == TWO_32
  {
    assert Pow2(8) == 256;
    assert Pow2(16) == 0x1_0000;
    assert Pow2(24) == 0x100_0000;
  }

  /** `a ^ b` on uint32_t. */
  function Xor32(a: nat, b: nat): (r: nat)
    ensures r < TWO_32
  {
    Pow2Word();
    Xor(a, b, 32)
  }

  /** One round: `h ^= x; h *= 0x01000193u`. */
  function Round(h: nat, x: nat): (r: nat)
    ensures r < TWO_32
  {
    (Xor32(h, x) * FNV_PRIME) % TWO_32
  }

  function FnvFrom(h: nat, data: seq<byte>): (r: nat)
    requires h < TWO_32
    ensures r < TWO_32
    decreases |data|
  {
    if data == [] then h else FnvFrom(Round(h, data[0] as nat), data[1..])
  }

  function Fnv(data: seq<byte>): (r: nat)
    ensures r < TWO_32
  {
    FnvFrom(FNV_BASIS, data)
  }

  /** The loop of vtx2_fnv1a from any starting value. */
  method FnvLoop(h0: nat, data: seq<byte>) returns (h: nat)
    requires h0 < TWO_32
    ensures h < TWO_32 && h == FnvFrom(h0, data)
  {
    hide Round;
    h := h0;
    var i := 0;
    assert data[0..] == data;
    while i < |data|
      invariant i <= |data| && h < TWO_32
      invariant FnvFrom(h0, data) == FnvFrom(h, data[i..])
    {
      assert data[i..][1..] == data[i + 1..];
      h := Round(h, data[i] as nat);
      i := i + 1;
    }
    assert data[i..] == [];
  }

  // ---- What a round keeps apart ----

  /** The prime has an inverse modulo 2^32. */
  const FNV_INVERSE: nat := 0x359C449B

  lemma Unmultiply(a: nat)
    requires a < TWO_32
    ensures a * FNV_PRIME % TWO_32 * FNV_INVERSE % TWO_32 == a
  {
    var r, q := a * FNV_PRIME % TWO_32, a * FNV_PRIME / TWO_32;
    assert a * FNV_PRIME * FNV_INVERSE == a + (3513497 * a) * TWO_32;
    var k := 3513497 * a - q * FNV_INVERSE;
    assert r * FNV_INVERSE == k * TWO_32 + a;
    DivUnique(r * FNV_INVERSE, TWO_32, k, a);
  }

  lemma Multiplied(a: nat)
    requires a < TWO_32
    ensures a * FNV_INVERSE % TWO_32 * FNV_PRIME % TWO_32 == a
  {
    var r, q := a * FNV_INVERSE % TWO_32, a * FNV_INVERSE / TWO_32;
    assert a * FNV_INVERSE * FNV_PRIME == a + (3513497 * a) * TWO_32;
    var k := 3513497 * a - q * FNV_PRIME;
    assert r * FNV_PRIME == k * TWO_32 + a;
    DivUnique(r * FNV_PRIME, TWO_32, k, a);
  }

  lemma Xor32Undone(a: nat, b: nat)
    requires a < TWO_32
    ensures Xor32(Xor32(a, b), b) == a && Xor32(b, Xor32(b, a)) == a && Xor32(a, b) == Xor32(b, a)
  {
    hide Xor;
    Pow2Word();
    XorTwice(a, b, 32);
    XorComm(a, b, 32);
    XorComm(b, Xor(a, b, 32), 32);
  }

  /** A round loses nothing: neither the value before it nor the byte taken in. */
  lemma RoundApart(h: nat, h': nat, x: nat, x': nat)
    requires h < TWO_32 && h' < TWO_32 && x < TWO_32 && x' < TWO_32 && Round(h, x) == Round(h', x')
    ensures x == x' ==> h == h'
    ensures h == h' ==> x == x'
  {
    hide Xor32;
    Unmultiply(Xor32(h, x));
    Unmultiply(Xor32(h', x'));
    Xor32Undone(h, x);
    Xor32Undone(h', x');
    Xor32Undone(x, h);
    Xor32Undone(x', h');
  }

  /** Every value comes out of a round with some word, whatever went in. */
  lemma RoundReaches(h: nat, r: nat) returns (x: nat)
    requires h < TWO_32 && r < TWO_32
    ensures x < TWO_32 && Round(h, x) == r
  {
    hide Xor32;
    var y := r * FNV_INVERSE % TWO_32;
    x := Xor32(h, y);
    Xor32Undone(y, h);
    Multiplied(r);
  }

  lemma {:induction false} FnvApart(h: nat, h': nat, data: seq<byte>)
    requires h < TWO_32 && h' < TWO_32 && h != h'
    ensures FnvFrom(h, data) != FnvFrom(h', data)
    decreases |data|
  {
    hide Round;
    if data != [] {
      var x := data[0] as nat;
      if Round(h, x) == Round(h', x) {
        RoundApart(h, h', x, x);
      }
      FnvApart(Round(h, x), Round(h', x), data[1..]);
    }
  }

  /** The hash depends on every single byte: strings that differ in just one have different hashes. */
  lemma {:induction false} OneByteTells(h: nat, data: seq<byte>, i: nat, x: byte)
    requires h < TWO_32 && i < |data| && data[i] != x
    ensures FnvFrom(h, data[i := x]) != FnvFrom(h, data)
    decreases |data|
  {
    hide Round;
    var other := data[i := x];
    if i == 0 {
      assert other[1..] == data[1..];
      if Round(h, x as nat) == Round(h, data[0] as nat) {
        RoundApart(h, h, x as nat, data[0] as nat);
      }
      FnvApart(Round(h, x as nat), Round(h, data[0] as nat), data[1..]);
    } else {
      assert other[1..] == data[1..][i - 1 := x];
      OneByteTells(Round(h, data[0] as nat), data[1..], i - 1, x);
    }
  }

  /** Two bits at a time. */
  lemma XorTwoBits(a: nat, a1: nat, a0: nat, b: nat, b1: nat, b0: nat, w: nat)
    requires a1 < 2 && a0 < 2 && b1 < 2 && b0 < 2
    ensures Xor(a0 + 2 * (a1 + 2 * a), b0 + 2 * (b1 + 2 * b), w + 2)
         == (a0 + b0) % 2 + 2 * ((a1 + b1) % 2 + 2 * Xor(a, b, w))
  {
    hide Xor;
    Halves(a0, a1 + 2 * a);
    Halves(b0, b1 + 2 * b);
    Halves(a1, a);
    Halves(b1, b);
    XorStep(a0 + 2 * (a1 + 2 * a), b0 + 2 * (b1 + 2 * b), w + 2);
    XorStep(a1 + 2 * a, b1 + 2 * b, w + 1);
  }

  /** 0xC5 ^ 0x61 in the low byte; the bits above stay. */
  lemma KnownXor(h: nat, x: nat)
    requires h == FNV_BASIS && x == 0x61
    ensures Xor32(h, x) == 0x811C9DA4
  {
    hide Xor, Pow2;
    var q := 0x811C9D;
    XorTwoBits(q, 1, 1, 0, 0, 1, 24);
    XorTwoBits(4 * q + 3, 0, 0, 1, 1, 0, 26);
    XorTwoBits(16 * q + 12, 0, 1, 6, 0, 0, 28);
    XorTwoBits(64 * q + 49, 0, 1, 24, 0, 1, 30);
    Pow2Values();
    XorZero(q, 24);
  }

  lemma Pow2Values()
    ensures Pow2(24) == 0x100_0000
  {
    assert Pow2(8) == 256;
    assert Pow2(16) == 0x1_0000;
  }

  /** Two values from the published table of 32-bit FNV-1a: the empty string, and "a". */
  lemma KnownHashes(a: byte)
    requires a as int == 'a' as int
    ensures Fnv([]) == 0x811C9DC5 && Fnv([a]) == 0xE40C292C
  {
    hide Xor32;
    KnownXor(FNV_BASIS, a as nat);
    assert Round(FNV_BASIS, a as nat) == 0xE40C292C;
    assert [a][1..] == [];
    assert FnvFrom(FNV_BASIS, [a]) == FnvFrom(Round(FNV_BASIS, a as nat), []);
  }
}
