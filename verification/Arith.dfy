/** The modulus of 64-bit words, and the few facts of integer arithmetic that the proofs need. */
module Arith {
  const M64 := 0x1_0000_0000_0000_0000

  function Pow2(n: nat): (r: nat)
    ensures 0 < r
  {
    if n == 0 then 1 else 2 * Pow2(n - 1)
  }

  lemma Dist(n: nat, x: nat, y: nat)
    ensures n * (x + y) == n * x + n * y
  {
  }

  lemma Assoc(n: nat, k: nat, x: nat)
    ensures n * (k * x) == (n * k) * x
  {
  }

  lemma Mono(n: nat, x: nat, y: nat)
    requires x <= y
    ensures n * x <= n * y
  {
  }

  lemma DivUnique(a: nat, d: nat, q: nat, r: nat)
    requires 0 < d && a == d * q + r && r < d
    ensures a / d == q && a % d == r
  {
    var p := a / d;
    assert a == d * p + a % d;
    if p < q { Mono(d, p + 1, q); Dist(d, p, 1); }
    if q < p { Mono(d, q + 1, p); Dist(d, q, 1); }
  }

  /** A block of n bytes at a multiple of n does not cross a multiple of n * k. */
  lemma MultipleFits(a: nat, n: nat, k: nat)
    requires 0 < n && 0 < k && a % n == 0
    ensures 0 < n * k && a % (n * k) + n <= n * k
  {
    var q := a / n;
    var x, y := q / k, q % k;
    assert a == n * q;
    assert q == k * x + y;
    Dist(n, k * x, y);
    Assoc(n, k, x);
    Mono(n, y + 1, k);
    Dist(n, y, 1);
    Mono(k, 1, n);
    DivUnique(a, n * k, x, n * y);
  }

  /** Stepping by multiples of n stays aligned to n. */
  lemma StepAligned(a: nat, n: nat, j: nat)
    requires 0 < n && a % n == 0
    ensures (a + j * n) % n == 0
  {
    Dist(n, a / n, j);
    DivUnique(a + j * n, n, a / n + j, 0);
  }
}
