/** Facts about `/` and `%` by a variable divisor that the solver does not find unaided. */
module Arith {

  lemma DivModUnique(a: int, n: int, q: int, r: int)
    requires n > 0 && 0 <= r < n && a == q * n + r
    ensures a / n == q && a % n == r
  {
    var k, s := q - a / n, a % n - r;
    assert k * n == s && -n < s < n;
    assert k >= 1 ==> k * n >= n;
    assert k <= -1 ==> k * n <= -n;
  }

  lemma MulDiv(a: int, n: int)
    requires n > 0
    ensures (a * n) / n == a && (a * n) % n == 0
  {
    DivModUnique(a * n, n, a, 0);
  }

  /** Reducing at a whole number of blocks reduces the block number only. */
  lemma BlockMod(g: nat, j: nat, n: int, k: int)
    requires n > 0 && k > 0 && j < n
    ensures k * n > 0 && (g * n + j) % (k * n) == (g % k) * n + j
  {
    MulPositive(k, n);
    var t, u := g / k, g % k;
    assert g * n + j == t * (k * n) + (u * n + j) by {
      assert g == t * k + u;
      assert (t * k + u) * n == t * k * n + u * n;
      assert t * k * n == t * (k * n);
    }
    assert 0 <= u * n + j < k * n by {
      MulMono(0, u, n);
      MulMono(u + 1, k, n);
      assert (u + 1) * n == u * n + n;
    }
    DivModUnique(g * n + j, k * n, t, u * n + j);
  }

  lemma MulPositive(a: int, b: int)
    requires a > 0 && b > 0
    ensures a * b > 0
  {}

  lemma MulMono(a: int, b: int, n: int)
    requires a <= b && n >= 0
    ensures a * n <= b * n
  {}
}
