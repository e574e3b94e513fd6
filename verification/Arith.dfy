/** Facts about multiplication, division and remainder that the layout proofs need. */
module Arith {

  function MinNat(a: nat, b: nat): nat {
    if a < b then a else b
  }

  lemma MulMono(a: int, b: int, d: int)
    requires a <= b && d >= 0
    ensures a * d <= b * d
  {
    if a < b {
      assert (b - a) * d >= 0;
    }
  }

  /** A quotient and a remainder are determined by the equation that defines them. */
  lemma DivUnique(n: int, d: int, q: int, r: int)
    requires d > 0 && 0 <= r < d && n == q * d + r
    ensures n / d == q && n % d == r
  {
    var q' := n / d;
    assert (q + 1) * d == q * d + d;
    assert (q' + 1) * d == q' * d + d;
    assert n == q' * d + n % d;
    if q < q' {
      MulMono(q + 1, q', d);
      assert false;
    }
    if q' < q {
      MulMono(q' + 1, q, d);
      assert false;
    }
  }

  lemma DivFacts(n: nat, d: nat)
    requires d > 0
    ensures n == (n / d) * d + n % d && 0 <= n % d < d && 0 <= n / d
  {
  }

  /** Dividing first by 256 and then by p is dividing by 256p. */
  lemma ModStep(n: nat, p: nat)
    requires p > 0
    ensures n % (256 * p) == n % 256 + 256 * ((n / 256) % p)
  {
    var q, r := n / 256, n % 256;
    var a, b := q / p, q % p;
    assert q == a * p + b;
    assert a * (256 * p) == 256 * (a * p);
    DivUnique(n, 256 * p, a, 256 * b + r);
  }

  /** A multiple of d strictly between 0 and d does not exist. */
  lemma NoMultipleBetween(q: int, d: int)
    requires d > 0 && 0 < q * d
    ensures d <= q * d
  {
    if q <= 0 {
      MulMono(q, 0, d);
      assert false;
    }
    MulMono(1, q, d);
  }
}
