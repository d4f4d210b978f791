/** 32-bit sequence numbers: wrap-around arithmetic, the signed difference used to order
    packets, and the wrap points that keep shard groups whole. */
module Serial {
  import opened Arith

  const TWO_31: int := 0x8000_0000
  const TWO_32: int := 0x1_0000_0000

  type U32 = x: int | 0 <= x < 0x1_0000_0000

  /** `uint32` addition. */
  function Add(a: U32, b: int): U32 {
    (a + b) % TWO_32
  }

  lemma AddReduced(x: nat, k: nat)
    ensures Add(x % TWO_32, k) == (x + k) % TWO_32
  {
    var q, r := x / TWO_32, x % TWO_32 + k;
    DivModUnique(x + k, TWO_32, q + r / TWO_32, r % TWO_32);
  }

  lemma AddAdds(x: U32, m: nat, n: nat)
    ensures Add(Add(x, m), n) == Add(x, m + n)
  {
    AddReduced(x + m, n);
  }

  /** `int32(later - earlier)`. */
  function Diff(later: U32, earlier: U32): (r: int)
    ensures -TWO_31 <= r < TWO_31
  {
    var u := (later - earlier) % TWO_32;
    if u < TWO_31 then u else u - TWO_32
  }

  /** The comparison of section 3.2 of RFC 1982 with SERIAL_BITS 32. */
  predicate SerialLess(s1: U32, s2: U32) {
    (s1 < s2 && s2 - s1 < TWO_31) || (s1 > s2 && s1 - s2 > TWO_31)
  }

  /** Largest number of shards a codec is ever built for; keeps the wrap point positive. */
  const MAX_SHARDS: int := 65536

  /** Wrap point of the live encoder: one whole group below the largest multiple that fits. */
  function PawsV1(n: int): U32
    requires 2 <= n <= MAX_SHARDS
  {
    PawsBounds(n);
    (0xffff_ffff / n - 1) * n
  }

  /** Wrap point of the second encoder: the largest multiple of the shard size that fits. */
  function PawsV2(n: int): U32
    requires 2 <= n <= MAX_SHARDS
  {
    PawsBounds(n);
    (0xffff_ffff / n) * n
  }

  lemma PawsBounds(n: int)
    requires 2 <= n <= MAX_SHARDS
    ensures TWO_32 - 2 * n <= (0xffff_ffff / n - 1) * n <= TWO_32 - n - 1
    ensures TWO_32 - n <= (0xffff_ffff / n) * n <= TWO_32 - 1
    ensures 0xffff_ffff / n - 1 > 0
  {
    var q := 0xffff_ffff / n;
    assert q * n <= 0xffff_ffff < q * n + n;
    assert (q - 1) * n == q * n - n;
    assert q <= 1 ==> q * n <= n;
  }

  /** The second encoder's wrap point is the only multiple of the group size among the last of the
      32-bit numbers, and the live encoder's lies one group below. */
  lemma PawsExact(n: int, x: U32)
    requires 2 <= n <= MAX_SHARDS
    ensures x == PawsV2(n) <==> x % n == 0 && 0x1_0000_0000 - n <= x
    ensures x == PawsV1(n) <==> x % n == 0 && 0x1_0000_0000 - 2 * n <= x < 0x1_0000_0000 - n
  {
    PawsBounds(n);
    var q := 0xffff_ffff / n;
    OnlyMultiple(x, n, q, 0x1_0000_0000 - n);
    OnlyMultiple(x, n, q - 1, 0x1_0000_0000 - 2 * n);
  }

  /** Among `n` successive numbers there is one multiple of `n`. */
  lemma OnlyMultiple(x: int, n: int, q: int, lo: int)
    requires n > 0 && lo <= q * n < lo + n
    ensures x == q * n <==> x % n == 0 && lo <= x < lo + n
  {
    MulDiv(q, n);
    if x % n == 0 && lo <= x < lo + n {
      var k := x / n - q;
      assert k * n == x - q * n;
      assert k >= 1 ==> k * n >= n;
      assert k <= -1 ==> k * n <= -n;
    }
  }

  /** `x` is a whole number of times `n`. */
  predicate Multiple(x: nat, n: int)
    requires n > 0
  {
    x == 0 || (x >= n && Multiple(x - n, n))
  }

  lemma MultipleHasFactor(x: nat, n: int) returns (k: nat)
    requires n > 0 && Multiple(x, n)
    ensures x == k * n
  {
    if x == 0 {
      k := 0;
    } else {
      var j := MultipleHasFactor(x - n, n);
      k := j + 1;
    }
  }

  lemma {:induction false} FactorIsMultiple(k: nat, n: int)
    requires n > 0
    ensures k * n >= 0 && Multiple(k * n, n)
  {
    if k > 0 {
      FactorIsMultiple(k - 1, n);
      assert (k - 1) * n == k * n - n;
    }
  }

  /** A wrap point: a whole number of groups, close below 2^32. */
  ghost predicate WrapPoint(paws: U32, n: int)
    requires 2 <= n <= MAX_SHARDS
  {
    TWO_32 - 2 * n <= paws < TWO_32 && Multiple(paws, n)
  }

  lemma PawsAreWrapPoints(n: int)
    requires 2 <= n <= MAX_SHARDS
    ensures WrapPoint(PawsV1(n), n) && WrapPoint(PawsV2(n), n)
  {
    PawsBounds(n);
    var q := 0xffff_ffff / n;
    FactorIsMultiple(q - 1, n);
    FactorIsMultiple(q, n);
  }

  /** Difference that the wire shows between two sends `delta` apart. */
  function WireGap(paws: U32, earlier: nat, later: nat): int
    requires paws > 0
  {
    later - earlier + (if later / paws == earlier / paws then 0 else TWO_32 - paws)
  }

  /** Less than one pass apart, two counts lie in the same pass or in successive ones. */
  lemma SameOrNextPass(paws: int, e: int, l: int, re: int, rl: int, ahead: int)
    requires 0 <= re < paws && 0 <= rl < paws && 0 <= ahead < paws && l * paws + rl == e * paws + re + ahead
    ensures l == e || l == e + 1
    ensures rl - re == ahead - if l == e then 0 else paws
  {
    var k := l - e;
    assert k * paws == l * paws - e * paws;
    assert k >= 2 ==> k * paws >= 2 * paws;
    assert k < 0 ==> k * paws <= -paws;
    assert k == 1 ==> k * paws == paws;
  }

  lemma WireDifference(paws: U32, earlier: nat, later: nat)
    requires paws > 0 && earlier <= later < earlier + paws
    ensures 0 <= WireGap(paws, earlier, later) < TWO_32
    ensures (later % paws - earlier % paws) % TWO_32 == WireGap(paws, earlier, later)
  {
    SameOrNextPass(paws, earlier / paws, later / paws, earlier % paws, later % paws, later - earlier);
  }

  lemma DiffOfGap(a: U32, b: U32, gap: int)
    requires 0 <= gap < TWO_32 && (a - b) % TWO_32 == gap
    ensures Diff(a, b) > 0 <==> 0 < gap < TWO_31
    ensures Diff(b, a) < 0 <==> 0 < gap <= TWO_31
  {}

  /** Exactly when the wire order of two sends is their send order: the gap the wire shows,
      which grows by `2^32 - paws` across a wrap, must stay below 2^31. */
  lemma WireOrderExact(paws: U32, earlier: nat, later: nat)
    requires paws > 0 && earlier < later < earlier + paws
    ensures Diff(later % paws, earlier % paws) > 0 <==> WireGap(paws, earlier, later) < TWO_31
    ensures Diff(earlier % paws, later % paws) < 0 <==> WireGap(paws, earlier, later) <= TWO_31
  {
    WireDifference(paws, earlier, later);
    DiffOfGap(later % paws, earlier % paws, WireGap(paws, earlier, later));
    assert WireGap(paws, earlier, later) > 0;
  }

  /** Sends less than 2^31 - 2n apart always compare correctly, wrapped or not. */
  lemma WireOrder(paws: U32, n: int, earlier: nat, later: nat)
    requires 2 <= n <= MAX_SHARDS && WrapPoint(paws, n)
    requires earlier < later < earlier + TWO_31 - 2 * n
    ensures Diff(later % paws, earlier % paws) > 0
    ensures Diff(earlier % paws, later % paws) < 0
  {
    WireOrderExact(paws, earlier, later);
  }

  /** No group straddles the wrap: packet `j` of group `g` shows the number of its group's
      first packet plus `j`, for the whole group. */
  lemma GroupsSurviveWrap(paws: U32, n: int, g: nat, j: nat)
    requires 2 <= n <= MAX_SHARDS && WrapPoint(paws, n) && j < n
    ensures (g * n + j) % paws == (g * n) % paws + j
    ensures (g * n) % paws % n == 0
    ensures (g * n) % paws + n <= paws
  {
    var k := MultipleHasFactor(paws, n);
    var u := g % k;
    BlockMod(g, j, n, k);
    BlockMod(g, 0, n, k);
    MulDiv(u, n);
    MulMono(u + 1, k, n);
    assert (u + 1) * n == u * n + n;
  }

  lemma DiffIsSerialOrder(s1: U32, s2: U32)
    ensures Diff(s2, s1) > 0 <==> SerialLess(s1, s2)
  {}
}
