/** Recovery is sound for packets in any order, repeated, lost or interleaved: no order of
    arrival makes the decoder hand out a payload that was not sent. */
module Soundness {
  import opened Arith
  import opened Base
  import opened Delivery
  import opened Numbering
  import opened QueueDecoder
  import opened QueueRefinement
  import opened Recovery
  import opened Reference
  import opened Serial
  import opened Traffic

  /** The groups of `i` and `m` carry the same wire numbers. */
  ghost predicate SameOnWire(s: Sender, i: Idx, m: Idx)
    requires s.Valid()
  {
    SeqId(s.par.Size(), s.paws, Idx(i.g, 0)) == SeqId(s.par.Size(), s.paws, Idx(m.g, 0))
  }

  /** No queued packet is left over from an earlier pass through the sequence numbers that used
      the numbers of the arriving packet's group. */
  ghost predicate NoLeftover(s: Sender, ix: seq<Idx>, m: Idx)
    requires s.Valid()
  {
    forall j :: 0 <= j < |ix| && SameOnWire(s, ix[j], m) ==> ix[j].g == m.g
  }

  lemma SameBlock(a: nat, b: nat, x: nat, n: nat)
    requires n > 0 && a % n == 0 && b % n == 0 && a <= x < a + n && b <= x < b + n
    ensures a == b
  {
    DivModUnique(x, n, a / n, x - a);
    DivModUnique(x, n, b / n, x - b);
  }

  /** What passes the range test has the group's wire numbers. */
  lemma {:induction false} InRangeIsSameOnWire(s: Sender, i: Idx, m: Idx)
    requires s.Valid() && i.k < s.par.Size() && m.k < s.par.Size()
    requires Diff(SeqId(s.par.Size(), s.paws, i), GroupLast(s.par.Size(), SeqId(s.par.Size(), s.paws, m))) <= 0
    requires Diff(SeqId(s.par.Size(), s.paws, i), GroupFirst(s.par.Size(), SeqId(s.par.Size(), s.paws, m))) >= 0
    ensures SameOnWire(s, i, m)
  {
    var n := s.par.Size();
    RangeTestExact(n, s.paws, m, SeqId(n, s.paws, i));
    GroupBounds(n, s.paws, m);
    SeqIdParts(n, s.paws, i);
    SeqIdParts(n, s.paws, Idx(i.g, 0));
    SeqIdParts(n, s.paws, Idx(m.g, 0));
    SameBlock(SeqId(n, s.paws, Idx(i.g, 0)), SeqId(n, s.paws, Idx(m.g, 0)), SeqId(n, s.paws, i), n);
  }

  /** Whatever passes the range test belongs to group `g`. */
  ghost predicate TakesOnly(q: seq<FecPacket>, qi: seq<Idx>, g: nat, lo: U32, hi: U32) {
    |q| == |qi| && forall j :: 0 <= j < |q| && Diff(q[j].seqid, hi) <= 0 && Diff(q[j].seqid, lo) >= 0 ==> qi[j].g == g
  }

  lemma {:induction false} RangeTakesOnlyGroup(s: Sender, q: seq<FecPacket>, qi: seq<Idx>, m: Idx)
    requires s.Valid() && Represents(s, q, qi) && NoLeftover(s, qi, m) && s.Emitted(m)
    ensures var n, x := s.par.Size(), s.Sent(m).seqid;
            TakesOnly(q, qi, m.g, GroupFirst(n, x), GroupLast(n, x))
  {
    var n, x := s.par.Size(), s.Sent(m).seqid;
    forall j | 0 <= j < |q| && Diff(q[j].seqid, GroupLast(n, x)) <= 0 && Diff(q[j].seqid, GroupFirst(n, x)) >= 0
      ensures qi[j].g == m.g
    {
      InRangeIsSameOnWire(s, qi[j], m);
    }
  }

  /** One turn of the assembly loop. */
  function Turn(n: nat, q: seq<FecPacket>, i: nat, lo: U32, acc: Assembly): (r: Assembly)
    requires n > 0 && i < |q| && acc.Fits(n)
    ensures r.Fits(n)
  {
    if Diff(q[i].seqid, lo) >= 0 then acc.Take(n, i, q[i]) else acc
  }

  lemma {:induction false} TurnKeepsGroup(s: Sender, q: seq<FecPacket>, qi: seq<Idx>, g: nat, lo: U32, hi: U32, i: nat, acc: Assembly)
    requires s.Valid() && Represents(s, q, qi) && TakesOnly(q, qi, g, lo, hi)
    requires i < |q| && FromGroup(s, g, acc) && Diff(q[i].seqid, hi) <= 0
    ensures FromGroup(s, g, Turn(s.par.Size(), q, i, lo, acc))
  {
    if Diff(q[i].seqid, lo) >= 0 {
      TakeKeepsGroup(s, g, acc, qi[i], i);
    }
  }

  lemma {:induction false} LoopTurns(n: nat, q: seq<FecPacket>, i: nat, end: nat, lo: U32, hi: U32, acc: Assembly)
    requires n > 0 && i < end <= |q| && acc.Fits(n) && Diff(q[i].seqid, hi) <= 0
    requires acc.numShard <= i && (acc.numShard > 0 ==> acc.first + acc.numShard <= i)
    ensures var next := Turn(n, q, i, lo, acc);
            && next.numShard <= i + 1 && (next.numShard > 0 ==> next.first + next.numShard <= i + 1)
            && Assemble(n, q, i, end, lo, hi, acc) == Assemble(n, q, i + 1, end, lo, hi, next)
  {}

  /** The assembly loop takes shards of the arriving packet's group only, in whatever order the
      queue is. */
  lemma {:induction false} AssembleFromGroup(s: Sender, q: seq<FecPacket>, qi: seq<Idx>, g: nat, lo: U32, hi: U32,
                                             i: nat, end: nat, acc: Assembly)
    requires s.Valid() && Represents(s, q, qi) && TakesOnly(q, qi, g, lo, hi)
    requires i <= end <= |q| && FromGroup(s, g, acc)
    requires acc.numShard <= i && (acc.numShard > 0 ==> acc.first + acc.numShard <= i)
    ensures FromGroup(s, g, Assemble(s.par.Size(), q, i, end, lo, hi, acc))
    decreases end - i
  {
    var n := s.par.Size();
    if i == end || Diff(q[i].seqid, hi) > 0 {
      LoopStops(n, q, i, end, lo, hi, acc);
    } else {
      TurnKeepsGroup(s, q, qi, g, lo, hi, i, acc);
      LoopTurns(n, q, i, end, lo, hi, acc);
      AssembleFromGroup(s, q, qi, g, lo, hi, i + 1, end, Turn(n, q, i, lo, acc));
    }
  }

  lemma {:induction false} WindowFromGroup(s: Sender, q: seq<FecPacket>, qi: seq<Idx>, at: nat, m: Idx)
    requires s.Valid() && Represents(s, q, qi) && NoLeftover(s, qi, m) && s.Emitted(m) && at < |q|
    ensures FromGroup(s, m.g, GroupInWindow(s.par.Size(), q, at, s.Sent(m).seqid))
  {
    var n, x := s.par.Size(), s.Sent(m).seqid;
    RangeTakesOnlyGroup(s, q, qi, m);
    var begin := SearchBegin(n, at, x);
    AssembleFromGroup(s, q, qi, m.g, GroupFirst(n, x), GroupLast(n, x), begin, SearchEnd(n, begin, |q|), EmptyAssembly(n));
  }

  lemma {:induction false} InsertNoLeftover(s: Sender, ix: seq<Idx>, m: Idx, at: nat)
    requires s.Valid() && NoLeftover(s, ix, m) && at <= |ix|
    ensures NoLeftover(s, Insert(ix, at, m), m)
  {
    var qi := Insert(ix, at, m);
    assert forall j :: 0 <= j < |qi| ==> qi[j] == if j < at then ix[j] else if j == at then m else ix[j - 1];
  }

  /** The packets of group `g` whose shards were collected. */
  function HeldOf(g: nat, shards: seq<Option<Bytes>>): set<Idx> {
    set k: nat | k < |shards| && shards[k].Some? :: Idx(g, k)
  }

  /** Whatever was collected of a group, only its own missing data shards come out. */
  lemma {:induction false} RebuildSound(cfg: Config, s: Sender, g: nat, acc: Assembly) returns (rebuilt: seq<Idx>)
    requires Linked(cfg, s) && FromGroup(s, g, acc)
    ensures AllInWholeGroups(s, rebuilt) && InOrder(rebuilt) && forall j :: 0 <= j < |rebuilt| ==> rebuilt[j].g == g
    ensures Rebuild(cfg, acc) == Shards(s, rebuilt)
  {
    if |Arrived(acc.shards)| < s.par.data {
      TooFewGiveNothing(cfg, s, g, acc);
      rebuilt := [];
    } else {
      EnoughGiveMissing(cfg, s, g, acc);
      var held := HeldOf(g, acc.shards);
      AbsentAreMissing(s, g, acc.shards, held);
      rebuilt := Missing(g, held, s.par.data);
      MissingElements(g, held, s.par.data);
      assert forall j :: 0 <= j < |rebuilt| ==> rebuilt[j] in rebuilt;
    }
  }

  lemma {:induction false} SettleSound(cfg: Config, s: Sender, g: nat, len: nat, at: nat, width: nat, acc: Assembly) returns (rebuilt: seq<Idx>)
    requires Linked(cfg, s) && FromGroup(s, g, acc) && at < len
    requires acc.numShard > 0 ==> acc.first + acc.numShard <= len
    ensures AllInWholeGroups(s, rebuilt) && InOrder(rebuilt) && forall j :: 0 <= j < |rebuilt| ==> rebuilt[j].g == g
    ensures Settle(cfg, len, at, width, acc).recovered == Shards(s, rebuilt)
  {
    if Settle(cfg, len, at, width, acc).recovered == [] {
      rebuilt := [];
    } else {
      rebuilt := RebuildSound(cfg, s, g, acc);
    }
  }

  /** One packet, for any queue of genuine packets in any order. */
  lemma {:induction false} SoundStep(cfg: Config, s: Sender, rx: seq<FecPacket>, ix: seq<Idx>, m: Idx) returns (rebuilt: seq<Idx>)
    requires Linked(cfg, s) && Represents(s, rx, ix) && s.Emitted(m) && NoLeftover(s, ix, m)
    ensures AllInWholeGroups(s, rebuilt) && InOrder(rebuilt) && forall j :: 0 <= j < |rebuilt| ==> rebuilt[j].g == m.g
    ensures Plan(cfg, rx, s.Sent(m)).Recovered() == Shards(s, rebuilt)
  {
    match Scan(rx, s.Sent(m).seqid, |rx|)
    case Duplicate =>
      rebuilt := [];
    case InsertAt(at) =>
      var n, x := s.par.Size(), s.Sent(m).seqid;
      var q := Insert(rx, at, s.Sent(m));
      InsertRepresents(s, rx, ix, m, at);
      InsertNoLeftover(s, ix, m, at);
      WindowFromGroup(s, q, Insert(ix, at, m), at, m);
      rebuilt := SettleSound(cfg, s, m.g, |q|, at, WindowWidth(n, |q|, at, x), GroupInWindow(n, q, at, x));
  }

  // ----- Whole runs

  ghost function Packets(s: Sender, ix: seq<Idx>): (r: seq<FecPacket>)
    requires s.Valid() && AllSent(s, ix)
    ensures Represents(s, r, ix)
  {
    seq(|ix|, j requires 0 <= j < |ix| => s.Sent(ix[j]))
  }

  lemma {:induction false} PacketsConcat(s: Sender, a: seq<Idx>, b: seq<Idx>)
    requires s.Valid() && AllSent(s, a) && AllSent(s, b)
    ensures AllSent(s, a + b) && Packets(s, a + b) == Packets(s, a) + Packets(s, b)
  {}

  lemma {:induction false} InsertKeepsSent(s: Sender, ix: seq<Idx>, m: Idx, at: nat)
    requires AllSent(s, ix) && s.Emitted(m) && at <= |ix|
    ensures AllSent(s, Insert(ix, at, m))
  {}

  lemma {:induction false} FreeKeepsSent(s: Sender, ix: seq<Idx>, first: nat, count: nat)
    requires AllSent(s, ix) && first + count <= |ix|
    ensures AllSent(s, FreeRange(ix, first, count))
  {}

  /** Indices of the packets in the queue after `m` reaches the queue `ix`. */
  ghost function NextQueue(cfg: Config, s: Sender, ix: seq<Idx>, m: Idx): (r: seq<Idx>)
    requires Linked(cfg, s) && AllSent(s, ix) && s.Emitted(m)
    ensures AllSent(s, r)
  {
    var e := Plan(cfg, Packets(s, ix), s.Sent(m));
    if e.Drop? then ix
    else
      InsertKeepsSent(s, ix, m, e.at);
      FreeKeepsSent(s, Insert(ix, e.at, m), e.first, e.count);
      if e.evict then
        FreeKeepsSent(s, FreeRange(Insert(ix, e.at, m), e.first, e.count), 0, 1);
        e.Apply(ix, m)
      else e.Apply(ix, m)
  }

  /** Indices of the packets in the decoder's queue after `run`. */
  ghost function QueueAfter(cfg: Config, s: Sender, run: seq<Idx>): (ix: seq<Idx>)
    requires Linked(cfg, s) && AllSent(s, run)
    ensures AllSent(s, ix)
  {
    if run == [] then []
    else NextQueue(cfg, s, QueueAfter(cfg, s, run[..|run| - 1]), run[|run| - 1])
  }

  /** No arrival meets a leftover of an earlier pass in its own group. */
  ghost predicate NeverLeftover(cfg: Config, s: Sender, run: seq<Idx>)
    requires Linked(cfg, s) && AllSent(s, run)
  {
    run != [] ==>
      && NeverLeftover(cfg, s, run[..|run| - 1])
      && NoLeftover(s, QueueAfter(cfg, s, run[..|run| - 1]), run[|run| - 1])
  }

  lemma {:induction false} RepresentsUnique(s: Sender, rx: seq<FecPacket>, ix: seq<Idx>)
    requires s.Valid() && AllSent(s, ix) && Represents(s, rx, ix)
    ensures rx == Packets(s, ix)
  {}

  /** Groups of which something arrived. */
  ghost function Groups(run: seq<Idx>): set<nat> {
    if run == [] then {} else Groups(run[..|run| - 1]) + {run[|run| - 1].g}
  }

  ghost predicate AllIn(ix: seq<Idx>, groups: set<nat>) {
    forall j :: 0 <= j < |ix| ==> ix[j].g in groups
  }

  lemma AllInConcat(a: seq<Idx>, b: seq<Idx>, ga: set<nat>, gb: set<nat>)
    requires AllIn(a, ga) && AllIn(b, gb)
    ensures AllIn(a + b, ga + gb)
  {}

  lemma {:induction false} HandedInGroup(s: Sender, m: Idx, rebuilt: seq<Idx>)
    requires s.Valid() && forall j :: 0 <= j < |rebuilt| ==> rebuilt[j].g == m.g
    ensures AllIn(HandedAt(s, m, rebuilt), {m.g})
  {}

  lemma {:induction false} NextQueueHolds(cfg: Config, s: Sender, ix: seq<Idx>, m: Idx)
    requires Linked(cfg, s) && AllSent(s, ix) && s.Emitted(m)
    ensures Plan(cfg, Packets(s, ix), s.Sent(m)).Apply(Packets(s, ix), s.Sent(m)) == Packets(s, NextQueue(cfg, s, ix, m))
  {
    var rx := Packets(s, ix);
    ApplyRepresents(s, rx, ix, m, Plan(cfg, rx, s.Sent(m)));
    RepresentsUnique(s, Plan(cfg, rx, s.Sent(m)).Apply(rx, s.Sent(m)), NextQueue(cfg, s, ix, m));
  }

  lemma {:induction false} SoundFeed(cfg: Config, s: Sender, ix: seq<Idx>, m: Idx) returns (handed: seq<Idx>)
    requires Linked(cfg, s) && AllSent(s, ix) && s.Emitted(m) && NoLeftover(s, ix, m)
    ensures var fed := Feed(cfg, Packets(s, ix), Wire(s.Sent(m)));
            && fed.Fed? && fed.rx == Packets(s, NextQueue(cfg, s, ix, m))
            && AllData(s, handed) && fed.Out() == PayloadsAt(s, handed)
            && AllIn(handed, {m.g})
  {
    var rx := Packets(s, ix);
    var rebuilt := SoundStep(cfg, s, rx, ix, m);
    FeedGenuine(cfg, s, rx, m, rebuilt);
    NextQueueHolds(cfg, s, ix, m);
    HandedInGroup(s, m, rebuilt);
    handed := HandedAt(s, m, rebuilt);
  }

  /** The reader got the payloads at `order`, all from groups that arrived. */
  ghost predicate Faithful(cfg: Config, s: Sender, run: seq<Idx>, order: seq<Idx>)
    requires Linked(cfg, s) && AllSent(s, run)
  {
    && AllData(s, order) && AllIn(order, Groups(run))
    && FeedAll(cfg, Raw(s, run)) == Alive(Packets(s, QueueAfter(cfg, s, run)), PayloadsAt(s, order))
  }

  lemma {:induction false} FaithfulFurther(cfg: Config, s: Sender, run: seq<Idx>, before: seq<Idx>) returns (order: seq<Idx>)
    requires Linked(cfg, s) && AllSent(s, run) && NeverLeftover(cfg, s, run) && run != []
    requires AllSent(s, run[..|run| - 1]) && Faithful(cfg, s, run[..|run| - 1], before)
    ensures Faithful(cfg, s, run, order)
  {
    var front, m := run[..|run| - 1], run[|run| - 1];
    RawPrefix(s, run);
    var queue := QueueAfter(cfg, s, front);
    var handed := SoundFeed(cfg, s, queue, m);
    FeedLast(cfg, Raw(s, run), Packets(s, queue), PayloadsAt(s, before));
    PayloadsConcat(s, before, handed);
    AllInConcat(before, handed, Groups(front), {m.g});
    order := before + handed;
  }

  /** Under any loss, reordering, repetition and interleaving, the decoder never stops the
      program, and everything handed to the reader is, byte for byte, a payload given to the encoder
      for a packet of a group that arrived. */
  lemma {:induction false} SoundRun(cfg: Config, s: Sender, run: seq<Idx>) returns (order: seq<Idx>)
    requires Linked(cfg, s) && AllSent(s, run) && NeverLeftover(cfg, s, run)
    ensures Faithful(cfg, s, run, order)
  {
    if run == [] {
      order := [];
    } else {
      var before := SoundRun(cfg, s, run[..|run| - 1]);
      order := FaithfulFurther(cfg, s, run, before);
    }
  }

  // ----- When there is no leftover

  lemma ApplyFrom(e: Edit, ix: seq<Idx>, m: Idx, j: nat)
    requires e.Fits(|ix|) && j < |e.Apply(ix, m)|
    ensures e.Apply(ix, m)[j] == m || e.Apply(ix, m)[j] in ix
  {
    if e.Edit? {
      var q := Insert(ix, e.at, m);
      assert forall i :: 0 <= i < |q| ==> q[i] == m || q[i] in ix;
    }
  }

  /** What is queued arrived. */
  lemma {:induction false} QueueFromRun(cfg: Config, s: Sender, run: seq<Idx>, j: nat)
    requires Linked(cfg, s) && AllSent(s, run) && j < |QueueAfter(cfg, s, run)|
    ensures QueueAfter(cfg, s, run)[j] in run
  {
    if run != [] {
      var front, m := run[..|run| - 1], run[|run| - 1];
      var before := QueueAfter(cfg, s, front);
      ApplyFrom(Plan(cfg, Packets(s, before), s.Sent(m)), before, m, j);
      var x := QueueAfter(cfg, s, run)[j];
      if x in before {
        var i :| 0 <= i < |before| && before[i] == x;
        QueueFromRun(cfg, s, front, i);
      }
    }
  }

  /** Groups of less than one pass apart have different numbers. */
  lemma OnePassApart(n: nat, paws: U32, g: nat, h: nat, a: nat, b: nat)
    requires Layout(n, paws) && a == g * n && b == h * n && a <= b < a + paws
    requires StartOf(n, paws, g) == StartOf(n, paws, h)
    ensures g == h
  {
    StartIsReduced(n, paws, g, a);
    StartIsReduced(n, paws, h, b);
    SameResidue(a, b, paws);
    MulDiv(g, n);
    MulDiv(h, n);
  }

  lemma SameResidue(a: nat, b: nat, p: nat)
    requires p > 0 && a <= b < a + p && a % p == b % p
    ensures a == b
  {
    var k := b / p - a / p;
    assert k * p == b - a;
    assert k >= 1 ==> k * p >= p;
  }

  /** The groups of any two arrivals are less than one pass through the numbers apart. */
  ghost predicate WithinOnePass(s: Sender, run: seq<Idx>) {
    forall i, j :: i in run && j in run ==> GroupsClose(s, i.g, j.g)
  }

  ghost predicate GroupsClose(s: Sender, g: nat, h: nat) {
    h * s.par.Size() < g * s.par.Size() + s.paws
  }

  lemma {:induction false} CloseGroupsDiffer(s: Sender, i: Idx, m: Idx)
    requires s.Valid() && GroupsClose(s, i.g, m.g) && GroupsClose(s, m.g, i.g) && SameOnWire(s, i, m)
    ensures i.g == m.g
  {
    var n := s.par.Size();
    MulMono(0, i.g, n);
    MulMono(0, m.g, n);
    var a, b := i.g * n, m.g * n;
    if a <= b {
      OnePassApart(n, s.paws, i.g, m.g, a, b);
    } else {
      OnePassApart(n, s.paws, m.g, i.g, b, a);
    }
  }

  /** Arrivals within one pass of each other never meet a leftover: for them recovery is sound in any
      order, with any loss and repetition, without a further condition. */
  lemma {:induction false} OnePassHasNoLeftover(cfg: Config, s: Sender, run: seq<Idx>)
    requires Linked(cfg, s) && AllSent(s, run) && WithinOnePass(s, run)
    ensures NeverLeftover(cfg, s, run)
  {
    if run != [] {
      var front, m := run[..|run| - 1], run[|run| - 1];
      assert forall i :: i in front ==> i in run;
      OnePassHasNoLeftover(cfg, s, front);
      var ix := QueueAfter(cfg, s, front);
      forall j | 0 <= j < |ix| && SameOnWire(s, ix[j], m)
        ensures ix[j].g == m.g
      {
        QueueFromRun(cfg, s, front, j);
        CloseGroupsDiffer(s, ix[j], m);
      }
    }
  }
}
