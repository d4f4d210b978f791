/** Send order and wire sequence numbers. A packet is named by its group and its position in
    the group; the wire shows the running number reduced at the wrap point. */
module Numbering {
  import opened Arith
  import opened Serial

  datatype Idx = Idx(g: nat, k: nat)

  /** Running number of a packet: groups are `n` packets long. */
  function Flat(n: nat, i: Idx): nat {
    assert i.g * n >= 0;
    i.g * n + i.k
  }

  predicate Less(i: Idx, j: Idx) {
    i.g < j.g || (i.g == j.g && i.k < j.k)
  }

  /** In send order, without repeats. */
  ghost predicate InOrder(ix: seq<Idx>) {
    forall a, b :: 0 <= a < b < |ix| ==> Less(ix[a], ix[b])
  }

  ghost predicate Layout(n: nat, paws: U32) {
    2 <= n <= MAX_SHARDS && WrapPoint(paws, n)
  }

  /** Sequence number of the first packet of group `g`. */
  function StartOf(n: nat, paws: U32, g: nat): (r: U32)
    requires Layout(n, paws)
    ensures r + n <= paws
  {
    if g == 0 then 0
    else
      var before := StartOf(n, paws, g - 1);
      if before + 2 * n <= paws then before + n else 0
  }

  /** Sequence number that the packet carries. */
  function SeqId(n: nat, paws: U32, i: Idx): U32
    requires Layout(n, paws) && i.k < n
  {
    StartOf(n, paws, i.g) + i.k
  }

  lemma {:induction false} StartIsReduced(n: nat, paws: U32, g: nat, flat: nat)
    requires Layout(n, paws) && flat == g * n
    ensures StartOf(n, paws, g) == flat % paws
  {
    if g == 0 {
      SmallMod(flat, paws);
    } else {
      PreviousBlock(g, n, flat);
      StartIsReduced(n, paws, g - 1, flat - n);
      ModAdd(flat - n, n, paws);
      GroupsSurviveWrap(paws, n, g, 0);
    }
  }

  /** The last group before the wrap point ends exactly there. */
  lemma LastGroupFits(n: nat, paws: U32, g: nat)
    requires Layout(n, paws)
    ensures StartOf(n, paws, g) + n == paws || StartOf(n, paws, g) + 2 * n <= paws
  {
    MulMono(0, g, n);
    var flat := g * n;
    assert (g + 1) * n == flat + n;
    StartIsReduced(n, paws, g, flat);
    StartIsReduced(n, paws, g + 1, flat + n);
    ModAdd(flat, n, paws);
  }

  lemma PreviousBlock(g: nat, n: nat, flat: nat)
    requires g > 0 && flat == g * n
    ensures flat >= n && flat - n == (g - 1) * n
  {
    assert (g - 1) * n == g * n - n;
    MulMono(0, g - 1, n);
  }

  lemma ModAdd(x: nat, n: nat, p: nat)
    requires p > 0 && x % p + n <= p
    ensures (x + n) % p == if x % p + n == p then 0 else x % p + n
  {
    if x % p + n == p {
      assert (x / p + 1) * p == x / p * p + p;
      DivModUnique(x + n, p, x / p + 1, 0);
    } else {
      DivModUnique(x + n, p, x / p, x % p + n);
    }
  }

  /** The sequence number is the running number reduced at the wrap point. */
  lemma SeqIdIsReduced(n: nat, paws: U32, i: Idx)
    requires Layout(n, paws) && i.k < n
    ensures SeqId(n, paws, i) == Flat(n, i) % paws
  {
    var flat := i.g * n;
    assert flat >= 0 && Flat(n, i) == flat + i.k;
    StartIsReduced(n, paws, i.g, flat);
    ModAdd(flat, i.k, paws);
  }

  /** How far ahead of `i` the wire shows `j`. */
  function Ahead(n: nat, paws: U32, i: Idx, j: Idx): U32
    requires Layout(n, paws) && i.k < n && j.k < n
  {
    (SeqId(n, paws, j) - SeqId(n, paws, i)) % TWO_32
  }

  /** Send order of `m` and another packet `i` shows on the wire, to the decoder that compares them
      with each other and `i` with both ends of `m`'s group: the later one is ahead, by less than half
      the numbers, and `i` is not among the numbers of `m`'s group unless it belongs to it. */
  ghost predicate Near(n: nat, paws: U32, m: Idx, i: Idx) {
    && Layout(n, paws) && m.k < n && i.k < n
    && (i.g < m.g ==> AheadOfEarlier(Ahead(n, paws, i, m), m.k, n))
    && (m.g < i.g ==> AheadOfLater(Ahead(n, paws, m, i), m.k, n))
  }

  lemma FlatParts(n: nat, i: Idx)
    requires i.k < n
    ensures Flat(n, i) / n == i.g && Flat(n, i) % n == i.k
    ensures Flat(n, i) - i.k == Flat(n, Idx(i.g, 0))
    ensures Flat(n, Idx(i.g, n - 1)) == Flat(n, i) - i.k + n - 1
  {
    DivModUnique(Flat(n, i), n, i.g, i.k);
  }

  lemma FlatMonotone(n: nat, i: Idx, j: Idx)
    requires i.k < n && j.k < n
    ensures Less(i, j) <==> Flat(n, i) < Flat(n, j)
    ensures i.g < j.g ==> Flat(n, i) < Flat(n, Idx(j.g, 0))
  {
    if i.g < j.g {
      MulMono(i.g + 1, j.g, n);
      assert (i.g + 1) * n == i.g * n + n;
    } else if j.g < i.g {
      MulMono(j.g + 1, i.g, n);
      assert (j.g + 1) * n == j.g * n + n;
    }
  }

  lemma AddBelow(a: nat, k: nat, n: nat)
    requires k < n && a % n == 0
    ensures (a + k) % n == k
  {
    DivModUnique(a + k, n, a / n, k);
  }

  /** The wire number keeps the position, and a group occupies consecutive wire numbers. */
  lemma SeqIdParts(n: nat, paws: U32, i: Idx)
    requires Layout(n, paws) && i.k < n
    ensures SeqId(n, paws, i) % n == i.k
    ensures SeqId(n, paws, i) - i.k == SeqId(n, paws, Idx(i.g, 0))
    ensures SeqId(n, paws, Idx(i.g, 0)) + n <= paws
  {
    MulMono(0, i.g, n);
    StartIsReduced(n, paws, i.g, i.g * n);
    GroupsSurviveWrap(paws, n, i.g, 0);
    AddBelow(StartOf(n, paws, i.g), i.k, n);
  }

  /** First and last wire number of the group that a wire number belongs to. */
  function GroupFirst(n: nat, s: U32): U32
    requires n > 0
  {
    s - s % n
  }

  function GroupLast(n: nat, s: U32): U32
    requires n > 0
  {
    Add(Add(GroupFirst(n, s), n), -1)
  }

  lemma LastNumber(first: U32, n: nat)
    requires n > 0 && first + n < TWO_32
    ensures Add(Add(first, n), -1) == first + n - 1
  {}

  lemma GroupBounds(n: nat, paws: U32, m: Idx)
    requires Layout(n, paws) && m.k < n
    ensures GroupFirst(n, SeqId(n, paws, m)) == SeqId(n, paws, Idx(m.g, 0))
    ensures GroupLast(n, SeqId(n, paws, m)) == SeqId(n, paws, Idx(m.g, 0)) + n - 1
    ensures GroupLast(n, SeqId(n, paws, m)) == SeqId(n, paws, Idx(m.g, n - 1))
  {
    SeqIdParts(n, paws, m);
    SeqIdParts(n, paws, Idx(m.g, n - 1));
    LastNumber(SeqId(n, paws, Idx(m.g, 0)), n);
  }

  lemma BetweenDiffs(first: U32, last: U32, x: U32)
    requires first <= last < first + MAX_SHARDS
    ensures (Diff(x, last) <= 0 && Diff(x, first) >= 0) <==> first <= x <= last
  {}

  /** The decoder's range test accepts exactly the wire numbers of the group, whatever the
      other number is. */
  lemma RangeTestExact(n: nat, paws: U32, m: Idx, x: U32)
    requires Layout(n, paws) && m.k < n
    ensures var s := SeqId(n, paws, m);
            (Diff(x, GroupLast(n, s)) <= 0 && Diff(x, GroupFirst(n, s)) >= 0)
            <==> GroupFirst(n, s) <= x <= GroupLast(n, s)
  {
    GroupBounds(n, paws, m);
    SeqIdParts(n, paws, m);
    var s := SeqId(n, paws, m);
    BetweenDiffs(GroupFirst(n, s), GroupLast(n, s), x);
  }

  lemma GroupMembersInRange(n: nat, paws: U32, m: Idx, i: Idx)
    requires Layout(n, paws) && m.k < n && i.k < n && i.g == m.g
    ensures Diff(SeqId(n, paws, i), GroupLast(n, SeqId(n, paws, m))) <= 0
    ensures Diff(SeqId(n, paws, i), GroupFirst(n, SeqId(n, paws, m))) >= 0
  {
    GroupBounds(n, paws, m);
    SeqIdParts(n, paws, i);
    var s := SeqId(n, paws, m);
    BetweenDiffs(GroupFirst(n, s), GroupLast(n, s), SeqId(n, paws, i));
  }

  /** The decoder's tests of a number `x` when `y` arrives, whose group has the numbers from `lo` to
      `hi`: `x` is earlier and before the group, later and behind it, or in it and in order. */
  predicate ShowsBefore(x: U32, y: U32, lo: U32, hi: U32) {
    Diff(y, x) > 0 && Diff(x, hi) <= 0 && Diff(x, lo) < 0
  }

  predicate ShowsBehind(x: U32, y: U32, hi: U32) {
    x != y && Diff(y, x) <= 0 && Diff(x, hi) > 0
  }

  predicate ShowsInside(x: U32, y: U32, lo: U32, hi: U32, earlier: bool) {
    x != y && (Diff(y, x) > 0 <==> earlier) && Diff(x, hi) <= 0 && Diff(x, lo) >= 0
  }

  /** Whatever the decoder tests of another packet `i` when `m` arrives comes out as send order
      wants: which of the two is later, and whether `i` lies before, in or behind `m`'s group. */
  ghost predicate TestsRight(n: nat, paws: U32, m: Idx, i: Idx)
    requires Layout(n, paws) && m.k < n && i.k < n
  {
    var x, y := SeqId(n, paws, i), SeqId(n, paws, m);
    if i.g < m.g then ShowsBefore(x, y, GroupFirst(n, y), GroupLast(n, y))
    else if i.g > m.g then ShowsBehind(x, y, GroupLast(n, y))
    else ShowsInside(x, y, GroupFirst(n, y), GroupLast(n, y), i.k < m.k)
  }

  /** `y`, position `k` of a group of `n`, is this far ahead of a number before its group. */
  predicate AheadOfEarlier(ahead: int, k: nat, n: nat) {
    k < ahead < TWO_31 && ahead + (n - 1 - k) <= TWO_31
  }

  /** A number behind the group is this far ahead of `y`. */
  predicate AheadOfLater(ahead: int, k: nat, n: nat) {
    n - 1 - k < ahead <= TWO_31 && ahead - (n - 1 - k) < TWO_31
  }

  lemma EarlierTests(x: U32, y: U32, k: nat, n: nat, lo: U32, hi: U32, ahead: U32)
    requires k < n <= MAX_SHARDS && lo == y - k && hi == lo + n - 1 && ahead == (y - x) % TWO_32
    ensures ShowsBefore(x, y, lo, hi) <==> AheadOfEarlier(ahead, k, n)
  {}

  lemma LaterTests(x: U32, y: U32, k: nat, n: nat, lo: U32, hi: U32, ahead: U32)
    requires k < n <= MAX_SHARDS && lo == y - k && hi == lo + n - 1 && ahead == (x - y) % TWO_32
    ensures ShowsBehind(x, y, hi) <==> AheadOfLater(ahead, k, n)
  {}

  lemma SameGroupOrder(n: nat, paws: U32, m: Idx, i: Idx)
    requires Layout(n, paws) && m.k < n && i.k < n && m.g == i.g && m != i
    ensures SeqId(n, paws, i) != SeqId(n, paws, m)
    ensures Diff(SeqId(n, paws, m), SeqId(n, paws, i)) > 0 <==> Less(i, m)
  {}

  lemma NumbersOfGroup(n: nat, paws: U32, m: Idx, y: U32)
    requires Layout(n, paws) && m.k < n && y == SeqId(n, paws, m)
    ensures GroupFirst(n, y) == y - m.k && GroupLast(n, y) == GroupFirst(n, y) + n - 1
  {
    GroupBounds(n, paws, m);
    SeqIdParts(n, paws, m);
  }

  lemma EarlierShows(n: nat, paws: U32, m: Idx, i: Idx, lo: U32, hi: U32)
    requires Layout(n, paws) && m.k < n && i.k < n && lo == SeqId(n, paws, m) - m.k && hi == lo + n - 1
    ensures ShowsBefore(SeqId(n, paws, i), SeqId(n, paws, m), lo, hi) <==> AheadOfEarlier(Ahead(n, paws, i, m), m.k, n)
  {
    EarlierTests(SeqId(n, paws, i), SeqId(n, paws, m), m.k, n, lo, hi, Ahead(n, paws, i, m));
  }

  lemma LaterShows(n: nat, paws: U32, m: Idx, i: Idx, lo: U32, hi: U32)
    requires Layout(n, paws) && m.k < n && i.k < n && lo == SeqId(n, paws, m) - m.k && hi == lo + n - 1
    ensures ShowsBehind(SeqId(n, paws, i), SeqId(n, paws, m), hi) <==> AheadOfLater(Ahead(n, paws, m, i), m.k, n)
  {
    LaterTests(SeqId(n, paws, i), SeqId(n, paws, m), m.k, n, lo, hi, Ahead(n, paws, m, i));
  }

  /** Exactly the near packets are treated right, whatever the distance and on either side of a
      wrap. */
  lemma NearExact(n: nat, paws: U32, m: Idx, i: Idx)
    requires Layout(n, paws) && m.k < n && i.k < n && m != i
    ensures Near(n, paws, m, i) <==> TestsRight(n, paws, m, i)
  {
    var y := SeqId(n, paws, m);
    if i.g < m.g {
      NumbersOfGroup(n, paws, m, y);
      EarlierShows(n, paws, m, i, GroupFirst(n, y), GroupLast(n, y));
    } else if i.g > m.g {
      NumbersOfGroup(n, paws, m, y);
      LaterShows(n, paws, m, i, GroupFirst(n, y), GroupLast(n, y));
    } else {
      GroupMembersInRange(n, paws, m, i);
      SameGroupOrder(n, paws, m, i);
    }
  }

  // ----- When packets are near

  /** Less than one pass apart, the wire shows the distance in sends, and across a wrap what the wrap
      leaves out as well. */
  lemma AheadIsWireGap(n: nat, paws: U32, i: Idx, j: Idx)
    requires Layout(n, paws) && i.k < n && j.k < n && Flat(n, i) <= Flat(n, j) < Flat(n, i) + paws
    ensures Ahead(n, paws, i, j) == WireGap(paws, Flat(n, i), Flat(n, j))
  {
    SeqIdIsReduced(n, paws, i);
    SeqIdIsReduced(n, paws, j);
    ReducedAhead(paws, Flat(n, i), Flat(n, j), SeqId(n, paws, i), SeqId(n, paws, j));
  }

  lemma ReducedAhead(paws: U32, earlier: nat, later: nat, x: U32, y: U32)
    requires paws > 0 && earlier <= later < earlier + paws && x == earlier % paws && y == later % paws
    ensures (y - x) % TWO_32 == WireGap(paws, earlier, later)
  {
    WireDifference(paws, earlier, later);
  }

  /** Packets less than 2^31 - 3n sends apart are near, wherever a wrap falls. */
  lemma CloseIsNear(n: nat, paws: U32, m: Idx, i: Idx)
    requires Layout(n, paws) && m.k < n && i.k < n
    requires -(TWO_31 - 3 * n) < Flat(n, m) - Flat(n, i) < TWO_31 - 3 * n
    ensures Near(n, paws, m, i)
  {
    FlatParts(n, m);
    FlatMonotone(n, i, m);
    FlatMonotone(n, Idx(m.g, n - 1), i);
    if i.g < m.g {
      AheadIsWireGap(n, paws, i, m);
    } else if m.g < i.g {
      AheadIsWireGap(n, paws, m, i);
    }
  }

  /** Packets whose groups lie below number 2^31 in the same pass are near at any distance. */
  lemma LowIsNear(n: nat, paws: U32, m: Idx, i: Idx)
    requires Layout(n, paws) && m.k < n && i.k < n
    requires StartOf(n, paws, m.g) + n <= TWO_31 && StartOf(n, paws, i.g) + n <= TWO_31
    requires i.g < m.g ==> StartOf(n, paws, i.g) + n <= StartOf(n, paws, m.g)
    requires m.g < i.g ==> StartOf(n, paws, m.g) + n <= StartOf(n, paws, i.g)
    ensures Near(n, paws, m, i)
  {
    if i.g < m.g {
      PlainAhead(SeqId(n, paws, i), SeqId(n, paws, m));
    } else if m.g < i.g {
      PlainAhead(SeqId(n, paws, m), SeqId(n, paws, i));
    }
  }

  lemma PlainAhead(x: U32, y: U32)
    requires x <= y
    ensures (y - x) % TWO_32 == y - x
  {}

  /** The number after a packet, reduced at the wrap point, is the next packet's. */
  lemma NextReduced(n: nat, paws: U32, i: Idx)
    requires Layout(n, paws) && i.k < n
    ensures (SeqId(n, paws, i) + 1) % paws
            == SeqId(n, paws, if i.k + 1 < n then Idx(i.g, i.k + 1) else Idx(i.g + 1, 0))
  {
    ModAdd(SeqId(n, paws, i), 1, paws);
    SmallMod(SeqId(n, paws, i), paws);
    LastGroupFits(n, paws, i.g);
  }

  lemma SmallMod(x: nat, p: nat)
    requires x < p
    ensures x % p == x
  {}

  /** Within a group numbers go up by one, unreduced, without overflow. */
  lemma NextInGroup(n: nat, paws: U32, i: Idx)
    requires Layout(n, paws) && i.k + 1 < n
    ensures Add(SeqId(n, paws, i), 1) == SeqId(n, paws, Idx(i.g, i.k + 1))
    ensures Add(SeqId(n, paws, i), 1) % n == i.k + 1
  {
    SeqIdParts(n, paws, Idx(i.g, i.k + 1));
  }

  lemma NextInGroupReduced(n: nat, paws: U32, i: Idx)
    requires Layout(n, paws) && i.k + 1 < n
    ensures Add(SeqId(n, paws, i), 1) % paws == SeqId(n, paws, Idx(i.g, i.k + 1))
  {
    NextInGroup(n, paws, i);
    SmallMod(SeqId(n, paws, Idx(i.g, i.k + 1)), paws);
  }

  lemma SkipBlock(start: nat, k: nat, n: nat, paws: U32)
    requires k < n && start + n <= paws
    ensures Add(start + k, n - k) % paws == if start + n == paws then 0 else start + n
  {
    assert Add(start + k, n - k) == start + n;
    SmallMod(start, paws);
    ModAdd(start, n, paws);
  }

  /** Stepping over the rest of a group in one go reaches the next group. */
  lemma SkipToNextGroup(n: nat, paws: U32, i: Idx)
    requires Layout(n, paws) && i.k < n
    ensures Add(SeqId(n, paws, i), n - i.k) % paws == SeqId(n, paws, Idx(i.g + 1, 0))
  {
    LastGroupFits(n, paws, i.g);
    SkipBlock(StartOf(n, paws, i.g), i.k, n, paws);
  }

  lemma PawsLayouts(n: nat)
    requires 2 <= n <= MAX_SHARDS
    ensures Layout(n, PawsV1(n)) && Layout(n, PawsV2(n))
  {
    PawsAreWrapPoints(n);
  }
}
