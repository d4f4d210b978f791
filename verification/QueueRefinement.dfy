/** The ordered-queue decoder does what the set decoder does, as long as the packets it holds
    are within reach of the one that arrives. */
module QueueRefinement {
  import opened Codec
  import opened Numbering
  import opened QueueDecoder
  import opened Recovery
  import opened Reference
  import opened Serial
  import opened Sets
  import opened Traffic

  /** The queue `rx` holds the packets that `s` sent at the indices `ix`. */
  ghost predicate Represents(s: Sender, rx: seq<FecPacket>, ix: seq<Idx>)
    requires s.Valid()
  {
    |rx| == |ix| && forall j :: 0 <= j < |ix| ==> s.Emitted(ix[j]) && rx[j] == s.Sent(ix[j])
  }

  ghost predicate AllNear(n: nat, paws: U32, ix: seq<Idx>, m: Idx) {
    forall j :: 0 <= j < |ix| ==> Near(n, paws, m, ix[j])
  }

  // ----- Insertion

  ghost predicate SplitsAt(ix: seq<Idx>, m: Idx, at: nat) {
    && at <= |ix|
    && (forall j :: 0 <= j < at ==> Less(ix[j], m))
    && (forall j :: at <= j < |ix| ==> Less(m, ix[j]))
  }

  /** The decoder's comparison of `m` with every queued packet is their send order. */
  ghost predicate ComparesRight(rx: seq<FecPacket>, ix: seq<Idx>, m: Idx, seqid: U32) {
    |rx| == |ix| && forall j :: 0 <= j < |ix| ==>
      && (seqid == rx[j].seqid <==> m == ix[j])
      && (Diff(seqid, rx[j].seqid) > 0 <==> Less(ix[j], m))
  }

  lemma {:induction false} NearComparesRight(s: Sender, rx: seq<FecPacket>, ix: seq<Idx>, m: Idx)
    requires s.Valid() && Represents(s, rx, ix) && s.Emitted(m) && AllNear(s.par.Size(), s.paws, ix, m)
    ensures ComparesRight(rx, ix, m, s.Sent(m).seqid)
  {
    forall j | 0 <= j < |ix|
      ensures s.Sent(m).seqid == rx[j].seqid <==> m == ix[j]
      ensures Diff(s.Sent(m).seqid, rx[j].seqid) > 0 <==> Less(ix[j], m)
    {
      if m != ix[j] {
        NearExact(s.par.Size(), s.paws, m, ix[j]);
      }
    }
  }

  /** The backward search finds the packet or its place in send order. */
  lemma {:induction false} ScanFindsPlace(rx: seq<FecPacket>, ix: seq<Idx>, m: Idx, seqid: U32, i: nat)
    requires ComparesRight(rx, ix, m, seqid) && InOrder(ix)
    requires i <= |ix| && forall j :: i <= j < |ix| ==> Less(m, ix[j])
    ensures match Scan(rx, seqid, i)
            case Duplicate => m in ix
            case InsertAt(at) => SplitsAt(ix, m, at)
    decreases i
  {
    if i > 0 && Less(m, ix[i - 1]) {
      ScanFindsPlace(rx, ix, m, seqid, i - 1);
    }
  }

  lemma InsertKeepsOrder(ix: seq<Idx>, m: Idx, at: nat)
    requires InOrder(ix) && SplitsAt(ix, m, at)
    ensures InOrder(Insert(ix, at, m)) && Insert(ix, at, m)[at] == m
    ensures Elems(Insert(ix, at, m)) == Elems(ix) + {m} && m !in ix
  {
    var q := Insert(ix, at, m);
    assert forall j :: 0 <= j < |q| ==> q[j] == if j < at then ix[j] else if j == at then m else ix[j - 1];
    forall i
      ensures i in Elems(q) <==> i in Elems(ix) + {m}
    {
      if i in ix {
        var j :| 0 <= j < |ix| && ix[j] == i;
        assert q[if j < at then j else j + 1] == i;
      }
    }
  }

  lemma FreeKeepsOrder(q: seq<Idx>, first: nat, count: nat)
    requires InOrder(q) && first + count <= |q|
    ensures InOrder(FreeRange(q, first, count))
    ensures Elems(FreeRange(q, first, count)) == Elems(q) - Elems(q[first..first + count])
  {
    var front, cut, back := q[..first], q[first..first + count], q[first + count..];
    assert q == front + cut + back;
    ElemsConcat(front + cut, back);
    ElemsConcat(front, cut);
    ElemsConcat(front, back);
    assert Elems(cut) !! Elems(front) && Elems(cut) !! Elems(back);
  }

  lemma InOrderSize(ix: seq<Idx>)
    requires InOrder(ix)
    ensures |Elems(ix)| == |ix|
  {
    DistinctSize(ix);
  }

  // ----- The block of a group

  ghost predicate IsBlock(ix: seq<Idx>, g: nat, a: nat, b: nat) {
    && a <= b <= |ix|
    && (forall j :: 0 <= j < a ==> ix[j].g < g)
    && (forall j :: a <= j < b ==> ix[j].g == g)
    && (forall j :: b <= j < |ix| ==> ix[j].g > g)
  }

  lemma FindBlock(ix: seq<Idx>, g: nat) returns (a: nat, b: nat)
    requires InOrder(ix)
    ensures IsBlock(ix, g, a, b)
  {
    if ix == [] {
      return 0, 0;
    }
    var front, last := ix[..|ix| - 1], ix[|ix| - 1];
    a, b := FindBlock(front, g);
    assert forall j :: 0 <= j < |front| ==> front[j] == ix[j] && Less(ix[j], last);
    if last.g < g {
      a, b := |ix|, |ix|;
    } else if last.g == g {
      b := |ix|;
      assert forall j :: a <= j < |front| ==> ix[j].g == g;
    }
  }

  lemma BlockIsGroup(ix: seq<Idx>, g: nat, a: nat, b: nat)
    requires InOrder(ix) && IsBlock(ix, g, a, b)
    ensures Elems(ix[a..b]) == Group(Elems(ix), g)
    ensures |Group(Elems(ix), g)| == b - a
  {
    var block := ix[a..b];
    assert forall j :: 0 <= j < |block| ==> block[j] == ix[a + j];
    forall i
      ensures i in Elems(block) <==> i in Group(Elems(ix), g)
    {
      if i in Elems(ix) && i.g == g {
        var j :| 0 <= j < |ix| && ix[j] == i;
        assert block[j - a] == i;
      }
    }
    InOrderSize(block);
  }

  lemma {:induction false} PositionsGrow(ix: seq<Idx>, g: nat, a: nat, b: nat, i: nat, j: nat)
    requires InOrder(ix) && IsBlock(ix, g, a, b) && a <= i <= j < b
    ensures ix[j].k - ix[i].k >= j - i
    decreases j - i
  {
    if i < j {
      PositionsGrow(ix, g, a, b, i, j - 1);
      assert Less(ix[j - 1], ix[j]);
    }
  }

  /** The search window holds the whole group of the packet just inserted. */
  lemma WindowCoversGroup(n: nat, ix: seq<Idx>, at: nat, s: U32, a: nat, b: nat)
    requires InOrder(ix) && at < |ix| && IsBlock(ix, ix[at].g, a, b)
    requires forall j :: 0 <= j < |ix| ==> ix[j].k < n
    requires n > 0 && s % n == ix[at].k
    ensures SearchBegin(n, at, s) <= a <= at < b <= SearchEnd(n, SearchBegin(n, at, s), |ix|)
  {
    assert a <= at < b;
    PositionsGrow(ix, ix[at].g, a, b, a, at);
    PositionsGrow(ix, ix[at].g, a, b, at, b - 1);
  }

  // ----- Assembly

  /** The range tests of the assembly loop sort the queue by group. */
  ghost predicate RangeTestsRight(q: seq<FecPacket>, qi: seq<Idx>, g: nat, lo: U32, hi: U32) {
    |q| == |qi| && forall j :: 0 <= j < |q| ==>
      && (qi[j].g < g ==> Diff(q[j].seqid, hi) <= 0 && Diff(q[j].seqid, lo) < 0)
      && (qi[j].g == g ==> Diff(q[j].seqid, hi) <= 0 && Diff(q[j].seqid, lo) >= 0)
      && (qi[j].g > g ==> Diff(q[j].seqid, hi) > 0)
  }

  lemma {:induction false} NearRangeTests(s: Sender, q: seq<FecPacket>, qi: seq<Idx>, m: Idx)
    requires s.Valid() && Represents(s, q, qi) && s.Emitted(m) && AllNear(s.par.Size(), s.paws, qi, m)
    ensures var n := s.par.Size();
            RangeTestsRight(q, qi, m.g, GroupFirst(n, s.Sent(m).seqid), GroupLast(n, s.Sent(m).seqid))
  {
    var n := s.par.Size();
    forall j | 0 <= j < |qi|
      ensures var lo, hi := GroupFirst(n, s.Sent(m).seqid), GroupLast(n, s.Sent(m).seqid);
              && (qi[j].g < m.g ==> Diff(q[j].seqid, hi) <= 0 && Diff(q[j].seqid, lo) < 0)
              && (qi[j].g == m.g ==> Diff(q[j].seqid, hi) <= 0 && Diff(q[j].seqid, lo) >= 0)
              && (qi[j].g > m.g ==> Diff(q[j].seqid, hi) > 0)
    {
      if qi[j] == m {
        GroupMembersInRange(n, s.paws, m, m);
      } else {
        NearExact(n, s.paws, m, qi[j]);
      }
    }
  }

  lemma {:induction false} SkipEarlier(n: nat, q: seq<FecPacket>, i: nat, a: nat, end: nat, lo: U32, hi: U32)
    requires n > 0 && i <= a <= end <= |q|
    requires forall j :: i <= j < a ==> Diff(q[j].seqid, hi) <= 0 && Diff(q[j].seqid, lo) < 0
    ensures Assemble(n, q, i, end, lo, hi, EmptyAssembly(n)) == Assemble(n, q, a, end, lo, hi, EmptyAssembly(n))
    decreases a - i
  {
    if i < a {
      SkipEarlier(n, q, i + 1, a, end, lo, hi);
    }
  }

  lemma NextIsNew(qi: seq<Idx>, a: nat, i: nat)
    requires InOrder(qi) && a <= i < |qi|
    ensures qi[i] !in Elems(qi[a..i])
    ensures Elems(qi[a..i + 1]) == Elems(qi[a..i]) + {qi[i]}
  {
    assert qi[a..i + 1] == qi[a..i] + [qi[i]];
  }

  /** What holds when the loop stands at position `i` of the group's block. */
  ghost predicate AtBlock(s: Sender, qi: seq<Idx>, g: nat, a: nat, i: nat, acc: Assembly)
    requires s.Valid()
  {
    && a <= i <= |qi|
    && Collected(s, g, acc, Elems(qi[a..i]))
    && acc.numShard == i - a && (i > a ==> acc.first == a)
  }

  lemma {:induction false} BlockStep(s: Sender, qi: seq<Idx>, g: nat, a: nat, i: nat, acc: Assembly)
    requires s.Valid() && InOrder(qi) && AtBlock(s, qi, g, a, i, acc)
    requires i < |qi| && qi[i].g == g && s.Emitted(qi[i])
    ensures AtBlock(s, qi, g, a, i + 1, acc.Take(s.par.Size(), i, s.Sent(qi[i])))
  {
    NextIsNew(qi, a, i);
    TakeOne(s, g, acc, Elems(qi[a..i]), qi[i], i);
  }

  lemma {:induction false} LoopStops(n: nat, q: seq<FecPacket>, i: nat, end: nat, lo: U32, hi: U32, acc: Assembly)
    requires n > 0 && i <= end <= |q| && acc.Fits(n)
    requires acc.numShard <= i && (acc.numShard > 0 ==> acc.first + acc.numShard <= i)
    requires i == end || Diff(q[i].seqid, hi) > 0
    ensures Assemble(n, q, i, end, lo, hi, acc) == acc
  {}

  lemma {:induction false} LoopTakes(n: nat, q: seq<FecPacket>, i: nat, end: nat, lo: U32, hi: U32, acc: Assembly)
    requires n > 0 && i < end <= |q| && acc.Fits(n)
    requires acc.numShard <= i && (acc.numShard > 0 ==> acc.first + acc.numShard <= i)
    requires Diff(q[i].seqid, hi) <= 0 && Diff(q[i].seqid, lo) >= 0
    ensures Assemble(n, q, i, end, lo, hi, acc) == Assemble(n, q, i + 1, end, lo, hi, acc.Take(n, i, q[i]))
  {}

  /** The loop stands at position `i` of the block `[a, b)` of its group, and may go on to `end`. */
  ghost predicate InBlock(s: Sender, q: seq<FecPacket>, qi: seq<Idx>, g: nat, lo: U32, hi: U32, a: nat, i: nat, b: nat, end: nat) {
    && s.Valid() && Represents(s, q, qi) && InOrder(qi)
    && RangeTestsRight(q, qi, g, lo, hi) && IsBlock(qi, g, a, b) && a <= i <= b <= end <= |q|
  }

  lemma {:induction false} AtBlockReady(s: Sender, qi: seq<Idx>, g: nat, a: nat, i: nat, acc: Assembly)
    requires s.Valid() && AtBlock(s, qi, g, a, i, acc)
    ensures acc.Fits(s.par.Size()) && acc.numShard <= i && (acc.numShard > 0 ==> acc.first + acc.numShard <= i)
  {}

  lemma {:induction false} LoopTakesAtMost(n: nat, q: seq<FecPacket>, i: nat, end: nat, lo: U32, hi: U32, acc: Assembly)
    requires n > 0 && i <= end <= |q| && acc.Fits(n)
    requires acc.numShard <= i && (acc.numShard > 0 ==> acc.first + acc.numShard <= i)
    ensures Assemble(n, q, i, end, lo, hi, acc).numShard <= acc.numShard + (end - i)
    decreases end - i
  {
    if i < end && Diff(q[i].seqid, hi) <= 0 {
      LoopTakesAtMost(n, q, i + 1, end, lo, hi, if Diff(q[i].seqid, lo) >= 0 then acc.Take(n, i, q[i]) else acc);
    }
  }

  /** Of no queue whatever are more packets looked at or collected than a group has. */
  lemma {:induction false} WindowIsAGroup(n: nat, q: seq<FecPacket>, at: nat, x: U32)
    requires n > 0 && at < |q|
    ensures GroupInWindow(n, q, at, x).numShard <= WindowWidth(n, |q|, at, x) <= n
  {
    var begin := SearchBegin(n, at, x);
    LoopTakesAtMost(n, q, begin, SearchEnd(n, begin, |q|), GroupFirst(n, x), GroupLast(n, x), EmptyAssembly(n));
  }

  /** What the loop needs of its caches at position `i`. */
  predicate Ready(n: nat, i: nat, acc: Assembly) {
    acc.Fits(n) && acc.numShard <= i && (acc.numShard > 0 ==> acc.first + acc.numShard <= i)
  }

  predicate Inside(x: U32, lo: U32, hi: U32) {
    Diff(x, hi) <= 0 && Diff(x, lo) >= 0
  }

  /** Taking the entry at `i` keeps `inv`. */
  ghost predicate Keeps(inv: (nat, Assembly) -> bool, n: nat, q: seq<FecPacket>, i: nat, lo: U32, hi: U32, acc: Assembly) {
    i < |q| && n > 0 && inv(i, acc) ==>
      Ready(n, i, acc) && Inside(q[i].seqid, lo, hi) && inv(i + 1, acc.Take(n, i, q[i]))
  }

  /** The loop from `i` on takes the entries up to `b` and stops; what each of them keeps holds in the end. */
  lemma {:induction false} LoopKeeps(inv: (nat, Assembly) -> bool, n: nat, q: seq<FecPacket>, i: nat, b: nat, end: nat, lo: U32, hi: U32,
                                     acc: Assembly) returns (r: Assembly)
    requires n > 0 && i <= b <= end <= |q| && Ready(n, i, acc) && inv(i, acc) && (b == end || Diff(q[b].seqid, hi) > 0)
    requires forall j: nat, x: Assembly :: i <= j < b ==> Keeps(inv, n, q, j, lo, hi, x)
    ensures inv(b, r) && Assemble(n, q, i, end, lo, hi, acc) == r
    decreases b - i
  {
    if i < b {
      assert Keeps(inv, n, q, i, lo, hi, acc);
      LoopTakes(n, q, i, end, lo, hi, acc);
      r := LoopKeeps(inv, n, q, i + 1, b, end, lo, hi, acc.Take(n, i, q[i]));
    } else {
      LoopStops(n, q, i, end, lo, hi, acc);
      r := acc;
    }
  }

  lemma {:induction false} TakesNext(s: Sender, q: seq<FecPacket>, qi: seq<Idx>, g: nat, a: nat, i: nat, acc: Assembly)
    requires s.Valid() && Represents(s, q, qi) && InOrder(qi) && AtBlock(s, qi, g, a, i, acc) && i < |qi| && qi[i].g == g
    ensures Ready(s.par.Size(), i, acc) && AtBlock(s, qi, g, a, i + 1, acc.Take(s.par.Size(), i, q[i]))
  {
    AtBlockReady(s, qi, g, a, i, acc);
    BlockStep(s, qi, g, a, i, acc);
  }

  lemma {:induction false} BlockInside(s: Sender, q: seq<FecPacket>, qi: seq<Idx>, g: nat, lo: U32, hi: U32, a: nat, i: nat, b: nat, end: nat)
    requires InBlock(s, q, qi, g, lo, hi, a, i, b, end)
    ensures forall j :: i <= j < b ==> qi[j].g == g && Inside(q[j].seqid, lo, hi)
    ensures b == end || Diff(q[b].seqid, hi) > 0
  {}

  /** `AtBlock`, as what the loop keeps. */
  ghost function Standing(s: Sender, qi: seq<Idx>, g: nat, a: nat): (nat, Assembly) -> bool {
    (j: nat, x: Assembly) => s.Valid() && AtBlock(s, qi, g, a, j, x)
  }

  lemma {:induction false} BlockKeeps(s: Sender, q: seq<FecPacket>, qi: seq<Idx>, g: nat, lo: U32, hi: U32, a: nat, j: nat, x: Assembly)
    requires s.Valid() && Represents(s, q, qi) && InOrder(qi) && j < |qi| && qi[j].g == g && Inside(q[j].seqid, lo, hi)
    ensures Keeps(Standing(s, qi, g, a), s.par.Size(), q, j, lo, hi, x)
  {
    if AtBlock(s, qi, g, a, j, x) {
      TakesNext(s, q, qi, g, a, j, x);
    }
  }

  lemma {:induction false} BlockKeepsAll(s: Sender, q: seq<FecPacket>, qi: seq<Idx>, g: nat, lo: U32, hi: U32, a: nat, i: nat, b: nat, end: nat)
    requires InBlock(s, q, qi, g, lo, hi, a, i, b, end)
    ensures b == end || Diff(q[b].seqid, hi) > 0
    ensures forall j: nat, x: Assembly :: i <= j < b ==> Keeps(Standing(s, qi, g, a), s.par.Size(), q, j, lo, hi, x)
  {
    BlockInside(s, q, qi, g, lo, hi, a, i, b, end);
    forall j: nat, x: Assembly | i <= j < b
      ensures Keeps(Standing(s, qi, g, a), s.par.Size(), q, j, lo, hi, x)
    {
      BlockKeeps(s, q, qi, g, lo, hi, a, j, x);
    }
  }

  lemma {:induction false} StandingIs(s: Sender, qi: seq<Idx>, g: nat, a: nat, j: nat, x: Assembly)
    requires s.Valid()
    ensures Standing(s, qi, g, a)(j, x) == AtBlock(s, qi, g, a, j, x)
  {}

  /** The loop takes the block `[a, b)` of the group and stops. */
  lemma {:induction false} TakeBlock(s: Sender, q: seq<FecPacket>, qi: seq<Idx>, g: nat, lo: U32, hi: U32,
                                     a: nat, i: nat, b: nat, end: nat, acc: Assembly) returns (r: Assembly)
    requires InBlock(s, q, qi, g, lo, hi, a, i, b, end) && AtBlock(s, qi, g, a, i, acc)
    ensures AtBlock(s, qi, g, a, b, r)
    ensures Ready(s.par.Size(), i, acc) && Assemble(s.par.Size(), q, i, end, lo, hi, acc) == r
  {
    var inv := Standing(s, qi, g, a);
    AtBlockReady(s, qi, g, a, i, acc);
    BlockKeepsAll(s, q, qi, g, lo, hi, a, i, b, end);
    StandingIs(s, qi, g, a, i, acc);
    r := LoopKeeps(inv, s.par.Size(), q, i, b, end, lo, hi, acc);
    StandingIs(s, qi, g, a, b, r);
  }

  /** Window and loop together collect exactly the group's packets in the queue. */
  lemma {:induction false} WindowCollectsGroup(s: Sender, q: seq<FecPacket>, qi: seq<Idx>, at: nat, a: nat, b: nat)
    requires s.Valid() && Represents(s, q, qi) && InOrder(qi)
    requires at < |qi| && AllNear(s.par.Size(), s.paws, qi, qi[at]) && IsBlock(qi, qi[at].g, a, b)
    ensures WindowWidth(s.par.Size(), |q|, at, q[at].seqid) >= b - a > 0
    ensures AtBlock(s, qi, qi[at].g, a, b, GroupInWindow(s.par.Size(), q, at, q[at].seqid))
  {
    var n, m, x := s.par.Size(), qi[at], q[at].seqid;
    SeqIdParts(n, s.paws, m);
    WindowCoversGroup(n, qi, at, x, a, b);
    NearRangeTests(s, q, qi, m);
    var begin := SearchBegin(n, at, x);
    var end := SearchEnd(n, begin, |q|);
    SkipEarlier(n, q, begin, a, end, GroupFirst(n, x), GroupLast(n, x));
    EmptyCollected(s, m.g);
    assert Elems(qi[a..a]) == {};
    var r := TakeBlock(s, q, qi, m.g, GroupFirst(n, x), GroupLast(n, x), a, a, b, end, EmptyAssembly(n));
  }

  // ----- One packet

  lemma FirstInOrder(ix: seq<Idx>, held: set<Idx>)
    requires InOrder(ix) && held == Elems(ix) && held != {}
    ensures ix != [] && First(held) == ix[0]
  {
    var j :| 0 <= j < |ix| && ix[j] == First(held);
    assert ix[0] in held;
  }

  lemma {:induction false} InsertRepresents(s: Sender, rx: seq<FecPacket>, ix: seq<Idx>, m: Idx, at: nat)
    requires s.Valid() && Represents(s, rx, ix) && s.Emitted(m) && at <= |ix|
    ensures Represents(s, Insert(rx, at, s.Sent(m)), Insert(ix, at, m))
  {
    var q, qi := Insert(rx, at, s.Sent(m)), Insert(ix, at, m);
    forall j | 0 <= j < |qi|
      ensures s.Emitted(qi[j]) && q[j] == s.Sent(qi[j])
    {
      InsertedAt(rx, at, s.Sent(m), j);
      InsertedAt(ix, at, m, j);
    }
  }

  /** What is at position `j` once `x` is inserted. */
  lemma InsertedAt<T>(q: seq<T>, at: nat, x: T, j: nat)
    requires at <= |q| && j <= |q|
    ensures Insert(q, at, x)[j] == if j < at then q[j] else if j == at then x else q[j - 1]
  {}

  /** What is at position `j` once a range is taken out. */
  lemma LeftAt<T>(q: seq<T>, first: nat, count: nat, j: nat)
    requires first + count <= |q| && j < |q| - count
    ensures FreeRange(q, first, count)[j] == q[if j < first then j else j + count]
  {}

  lemma {:induction false} FreeRepresents(s: Sender, rx: seq<FecPacket>, ix: seq<Idx>, first: nat, count: nat)
    requires s.Valid() && Represents(s, rx, ix) && first + count <= |ix|
    ensures Represents(s, FreeRange(rx, first, count), FreeRange(ix, first, count))
  {
    var q, qi := FreeRange(rx, first, count), FreeRange(ix, first, count);
    forall j | 0 <= j < |qi|
      ensures s.Emitted(qi[j]) && q[j] == s.Sent(qi[j])
    {
      LeftAt(rx, first, count, j);
      LeftAt(ix, first, count, j);
    }
  }

  lemma InsertNear(n: nat, paws: U32, ix: seq<Idx>, m: Idx, at: nat)
    requires Layout(n, paws) && m.k < n && AllNear(n, paws, ix, m) && at <= |ix|
    ensures AllNear(n, paws, Insert(ix, at, m), m)
  {
    assert Near(n, paws, m, m);
    var q := Insert(ix, at, m);
    assert forall j :: 0 <= j < |q| ==> q[j] == if j < at then ix[j] else if j == at then m else ix[j - 1];
  }

  /** The decoder and the sender it listens to. */
  ghost predicate Linked(cfg: Config, s: Sender) {
    cfg.Valid() && s.Valid() && cfg.par == s.par && cfg.codec == s.codec
  }

  /** Queue state on which the decoder is exact. */
  ghost predicate Tidy(cfg: Config, s: Sender, rx: seq<FecPacket>, ix: seq<Idx>)
    requires s.Valid()
  {
    Represents(s, rx, ix) && InOrder(ix) && Settled(s.par, Elems(ix)) && |ix| <= cfg.rxlimit
  }

  /** What a collected block does: it goes out exactly when it has `data` packets, and then its
      missing data packets are handed out. */
  ghost predicate SettlesBlock(cfg: Config, s: Sender, e: Edit, len: nat, at: nat, g: nat, held: set<Idx>, a: nat, b: nat)
    requires s.Valid()
  {
    && e.Edit? && e.at == at
    && (b - a < s.par.data ==> e.first == e.count == 0 && e.recovered == [])
    && (b - a == s.par.data ==>
          && e.first == a && e.count == b - a
          && AllInWholeGroups(s, Missing(g, held, s.par.data))
          && e.recovered == Shards(s, Missing(g, held, s.par.data)))
    && e.evict == (len - e.count > cfg.rxlimit)
  }

  lemma {:induction false} SettleBlock(cfg: Config, s: Sender, qi: seq<Idx>, at: nat, width: nat, a: nat, b: nat, acc: Assembly)
    requires Linked(cfg, s) && at < |qi| && a < b <= |qi| && b - a <= s.par.data && width >= b - a
    requires AtBlock(s, qi, qi[at].g, a, b, acc) && Distinct(qi)
    ensures SettlesBlock(cfg, s, Settle(cfg, |qi|, at, width, acc), |qi|, at, qi[at].g, Elems(qi[a..b]), a, b)
  {
    DistinctSize(qi[a..b]);
    if b - a == s.par.data {
      CollectedRecovers(cfg, s, qi[at].g, acc, Elems(qi[a..b]));
    }
  }

  /** The plan for a new packet, in terms of its group's block in the queue. */
  lemma {:induction false} PlanForBlock(cfg: Config, s: Sender, rx: seq<FecPacket>, ix: seq<Idx>, m: Idx, at: nat, a: nat, b: nat)
    requires Linked(cfg, s) && Represents(s, rx, ix) && InOrder(ix) && s.Emitted(m)
    requires AllNear(s.par.Size(), s.paws, ix, m) && SplitsAt(ix, m, at)
    requires Scan(rx, s.Sent(m).seqid, |rx|) == InsertAt(at)
    requires IsBlock(Insert(ix, at, m), m.g, a, b) && b - a <= s.par.data
    ensures SettlesBlock(cfg, s, Plan(cfg, rx, s.Sent(m)), |ix| + 1, at, m.g, Elems(Insert(ix, at, m)[a..b]), a, b)
  {
    var q, qi := Insert(rx, at, s.Sent(m)), Insert(ix, at, m);
    InsertKeepsOrder(ix, m, at);
    InsertRepresents(s, rx, ix, m, at);
    InsertNear(s.par.Size(), s.paws, ix, m, at);
    WindowCollectsGroup(s, q, qi, at, a, b);
    var n, x := s.par.Size(), s.Sent(m).seqid;
    SettleBlock(cfg, s, qi, at, WindowWidth(n, |q|, at, x), a, b, GroupInWindow(n, q, at, x));
  }

  lemma GroupGrowsByOne(par: Params, held: set<Idx>, m: Idx)
    requires Settled(par, held)
    ensures |Group(held + {m}, m.g)| <= par.data
  {
    assert Group(held + {m}, m.g) == Group(held, m.g) + {m};
  }

  /** Removing the block removes precisely the group and leaves the rest in order. */
  lemma BlockRemoved(qi: seq<Idx>, g: nat, a: nat, b: nat)
    requires InOrder(qi) && IsBlock(qi, g, a, b)
    ensures InOrder(FreeRange(qi, a, b - a))
    ensures Elems(FreeRange(qi, a, b - a)) == Elems(qi) - Group(Elems(qi), g)
    ensures |Elems(FreeRange(qi, a, b - a))| == |qi| - (b - a)
  {
    var kept := FreeRange(qi, a, b - a);
    BlockIsGroup(qi, g, a, b);
    FreeKeepsOrder(qi, a, b - a);
    InOrderSize(kept);
    assert qi[a..a + (b - a)] == qi[a..b];
  }

  lemma NothingRemoved<T>(s: seq<T>)
    ensures FreeRange(s, 0, 0) == s
  {}

  lemma EvictedQueue(kept: seq<Idx>)
    requires InOrder(kept) && kept != []
    ensures Elems(kept) != {}
    ensures InOrder(FreeRange(kept, 0, 1)) && Elems(FreeRange(kept, 0, 1)) == Elems(kept) - {First(Elems(kept))}
  {
    assert kept[0] in Elems(kept);
    FirstInOrder(kept, Elems(kept));
    FreeKeepsOrder(kept, 0, 1);
    assert kept[0..0 + 1] == [kept[0]];
  }

  /** The queue after a group that is ready has gone. */
  lemma KeptQueue(par: Params, qi: seq<Idx>, g: nat, a: nat, b: nat, kept: seq<Idx>)
    requires InOrder(qi) && IsBlock(qi, g, a, b) && b - a <= par.data
    requires kept == if b - a < par.data then qi else FreeRange(qi, a, b - a)
    ensures InOrder(kept) && |Elems(kept)| == |kept|
    ensures |Group(Elems(qi), g)| == b - a && Group(Elems(qi), g) == Elems(qi[a..b])
    ensures Elems(kept) == Elems(qi) - (if b - a < par.data then {} else Elems(qi[a..b]))
  {
    BlockIsGroup(qi, g, a, b);
    if b - a < par.data {
      InOrderSize(qi);
    } else {
      BlockRemoved(qi, g, a, b);
    }
  }

  /** The set decoder, given the queue its packets are left in. */
  lemma ReceiveFromQueue(par: Params, limit: nat, held: set<Idx>, m: Idx, drained: set<Idx>, kept: seq<Idx>)
    requires m !in held && InOrder(kept) && |Elems(kept)| == |kept|
    requires drained == if |Group(held + {m}, m.g)| >= par.data then Group(held + {m}, m.g) else {}
    requires Elems(kept) == held + {m} - drained
    ensures var r := Receive(par, limit, held, m);
            r.drained == drained && r.held == Elems(if |kept| > limit then FreeRange(kept, 0, 1) else kept)
    ensures |kept| > limit ==> InOrder(FreeRange(kept, 0, 1))
  {
    if |kept| > limit {
      EvictedQueue(kept);
    }
  }

  /** The edit changes the queue as the set decoder changes its set. */
  ghost predicate MovesAs(ix: seq<Idx>, m: Idx, e: Edit, r: Outcome) {
    && e.Fits(|ix|) && InOrder(e.Apply(ix, m)) && Elems(e.Apply(ix, m)) == r.held
    && e.Removed() == |r.drained|
  }

  /** It hands out what the set decoder rebuilds when it takes `drained` out of group `g`. */
  ghost predicate RecoversAs(s: Sender, g: nat, e: Edit, drained: set<Idx>)
    requires s.Valid()
  {
    && AllInWholeGroups(s, Rebuilt(s.par, g, drained))
    && e.Recovered() == Shards(s, Rebuilt(s.par, g, drained))
  }

  /** What goes out with the block `[a, b)`. */
  function Goes(par: Params, qi: seq<Idx>, a: nat, b: nat): set<Idx>
    requires a <= b <= |qi|
  {
    if b - a < par.data then {} else Elems(qi[a..b])
  }

  lemma ApplyEdit(ix: seq<Idx>, m: Idx, e: Edit, qi: seq<Idx>, kept: seq<Idx>)
    requires e.Edit? && e.Fits(|ix|) && qi == Insert(ix, e.at, m) && kept == FreeRange(qi, e.first, e.count)
    ensures e.Apply(ix, m) == if e.evict then FreeRange(kept, 0, 1) else kept
  {}

  /** The set decoder's step, seen from the queue with the packet in it. */
  lemma ReceiveBlock(par: Params, limit: nat, ix: seq<Idx>, m: Idx, at: nat, qi: seq<Idx>, a: nat, b: nat, kept: seq<Idx>)
    requires par.data > 0 && InOrder(ix) && SplitsAt(ix, m, at) && qi == Insert(ix, at, m)
    requires IsBlock(qi, m.g, a, b) && b - a <= par.data
    requires kept == if b - a < par.data then qi else FreeRange(qi, a, b - a)
    ensures var r, now := Receive(par, limit, Elems(ix), m), if |kept| > limit then FreeRange(kept, 0, 1) else kept;
            && r.drained == Goes(par, qi, a, b) && |r.drained| == (if b - a < par.data then 0 else b - a)
            && InOrder(now) && r.held == Elems(now)
  {
    InsertKeepsOrder(ix, m, at);
    KeptQueue(par, qi, m.g, a, b, kept);
    ReceiveFromQueue(par, limit, Elems(ix), m, Goes(par, qi, a, b), kept);
  }

  lemma InsertionRefinesSet(par: Params, limit: nat, ix: seq<Idx>, m: Idx, qi: seq<Idx>, a: nat, b: nat, e: Edit)
    requires par.data > 0 && InOrder(ix) && e.Edit? && e.Fits(|ix|) && SplitsAt(ix, m, e.at) && qi == Insert(ix, e.at, m)
    requires IsBlock(qi, m.g, a, b) && b - a <= par.data
    requires if b - a < par.data then e.first == e.count == 0 else e.first == a && e.count == b - a
    requires e.evict == (|ix| + 1 - e.count > limit)
    ensures MovesAs(ix, m, e, Receive(par, limit, Elems(ix), m))
    ensures Receive(par, limit, Elems(ix), m).drained == Goes(par, qi, a, b)
  {
    var kept := FreeRange(qi, e.first, e.count);
    NothingRemoved(qi);
    ReceiveBlock(par, limit, ix, m, e.at, qi, a, b, kept);
    ApplyEdit(ix, m, e, qi, kept);
  }

  lemma {:induction false} BlockRecovers(cfg: Config, s: Sender, e: Edit, len: nat, at: nat, g: nat, qi: seq<Idx>, a: nat, b: nat)
    requires s.Valid() && a < b <= |qi| && b - a <= s.par.data
    requires SettlesBlock(cfg, s, e, len, at, g, Elems(qi[a..b]), a, b)
    ensures RecoversAs(s, g, e, Goes(s.par, qi, a, b))
  {
    assert qi[a..b][0] in Elems(qi[a..b]);
  }

  lemma {:induction false} InsertionRefines(cfg: Config, s: Sender, rx: seq<FecPacket>, ix: seq<Idx>, m: Idx, at: nat, e: Edit)
    requires Linked(cfg, s) && Tidy(cfg, s, rx, ix) && s.Emitted(m) && AllNear(s.par.Size(), s.paws, ix, m)
    requires Scan(rx, s.Sent(m).seqid, |rx|) == InsertAt(at) && SplitsAt(ix, m, at)
    requires e == Plan(cfg, rx, s.Sent(m))
    ensures MovesAs(ix, m, e, Receive(s.par, cfg.rxlimit, Elems(ix), m))
    ensures RecoversAs(s, m.g, e, Receive(s.par, cfg.rxlimit, Elems(ix), m).drained)
  {
    var qi := Insert(ix, at, m);
    InsertKeepsOrder(ix, m, at);
    GroupGrowsByOne(s.par, Elems(ix), m);
    var a, b := FindBlock(qi, m.g);
    BlockIsGroup(qi, m.g, a, b);
    PlanForBlock(cfg, s, rx, ix, m, at, a, b);
    InsertionRefinesSet(s.par, cfg.rxlimit, ix, m, qi, a, b, e);
    BlockRecovers(cfg, s, e, |ix| + 1, at, m.g, qi, a, b);
  }

  /** One packet: the queue decoder keeps its queue strictly in send order without repeats, no
      group of `data` packets and no more than `rxlimit` packets stay in it, and what it keeps
      and hands out is what the set decoder keeps and hands out. */
  lemma {:induction false} QueueStepRefines(cfg: Config, s: Sender, rx: seq<FecPacket>, ix: seq<Idx>, m: Idx)
    requires Linked(cfg, s) && Tidy(cfg, s, rx, ix) && s.Emitted(m) && AllNear(s.par.Size(), s.paws, ix, m)
    ensures var e, r := Plan(cfg, rx, s.Sent(m)), Receive(s.par, cfg.rxlimit, Elems(ix), m);
            && MovesAs(ix, m, e, r) && RecoversAs(s, m.g, e, r.drained)
            && Tidy(cfg, s, e.Apply(rx, s.Sent(m)), e.Apply(ix, m))
  {
    NearComparesRight(s, rx, ix, m);
    ScanFindsPlace(rx, ix, m, s.Sent(m).seqid, |ix|);
    var e, r := Plan(cfg, rx, s.Sent(m)), Receive(s.par, cfg.rxlimit, Elems(ix), m);
    match Scan(rx, s.Sent(m).seqid, |rx|)
    case Duplicate =>
    case InsertAt(at) =>
      InsertionRefines(cfg, s, rx, ix, m, at, e);
      MovesTidily(cfg, s, rx, ix, m, e);
  }

  lemma {:induction false} MovesTidily(cfg: Config, s: Sender, rx: seq<FecPacket>, ix: seq<Idx>, m: Idx, e: Edit)
    requires Linked(cfg, s) && Tidy(cfg, s, rx, ix) && s.Emitted(m)
    requires MovesAs(ix, m, e, Receive(s.par, cfg.rxlimit, Elems(ix), m))
    ensures Tidy(cfg, s, e.Apply(rx, s.Sent(m)), e.Apply(ix, m))
  {
    InOrderSize(ix);
    ReceiveSettles(s.par, cfg.rxlimit, Elems(ix), m);
    ApplyRepresents(s, rx, ix, m, e);
    InOrderSize(e.Apply(ix, m));
  }

  lemma {:induction false} ApplyRepresents(s: Sender, rx: seq<FecPacket>, ix: seq<Idx>, m: Idx, e: Edit)
    requires s.Valid() && Represents(s, rx, ix) && s.Emitted(m) && e.Fits(|rx|)
    ensures Represents(s, e.Apply(rx, s.Sent(m)), e.Apply(ix, m))
  {
    if e.Edit? {
      InsertRepresents(s, rx, ix, m, e.at);
      var q, qi := Insert(rx, e.at, s.Sent(m)), Insert(ix, e.at, m);
      FreeRepresents(s, q, qi, e.first, e.count);
      if e.evict {
        FreeRepresents(s, FreeRange(q, e.first, e.count), FreeRange(qi, e.first, e.count), 0, 1);
      }
    }
  }
}
