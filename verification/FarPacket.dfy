/** Why the queue decoder needs its packets near: one old packet in front of the queue, behind which
    every arrival is placed rightly but which tests as beyond the end of their group, hides that group. */
module FarPacket {
  import opened Base
  import opened Codec
  import opened Delivery
  import opened Numbering
  import opened QueueDecoder
  import opened QueueRefinement
  import opened Reference
  import opened ReferenceRuns
  import opened Serial
  import opened Sets
  import opened Soundness
  import opened Traffic
  import XorCodec

  /** `run` is the old packet `i`, then the packets 1, ..., `j` of group `h`. */
  ghost predicate FarRun(run: seq<Idx>, i: Idx, h: nat, j: nat) {
    |run| == j + 1 && run[0] == i && forall k :: 0 < k <= j ==> run[k] == Idx(h, k)
  }

  lemma FarRunPrefix(run: seq<Idx>, i: Idx, h: nat, j: nat)
    requires FarRun(run, i, h, j)
    ensures j == 0 ==> run == [i]
    ensures j > 0 ==> FarRun(run[..|run| - 1], i, h, j - 1) && run[|run| - 1] == Idx(h, j)
  {}

  /** `i` was sent before group `h` and shows as earlier than its packet 1, but as later than its last
      number. */
  ghost predicate Hides(s: Sender, i: Idx, h: nat) {
    && s.Valid() && s.par.data >= 2 && s.Emitted(i) && i.g < h < |s.groups|
    && Diff(SeqId(s.par.Size(), s.paws, i), SeqId(s.par.Size(), s.paws, Idx(h, s.par.Size() - 1))) > 0
    && Diff(SeqId(s.par.Size(), s.paws, Idx(h, 1)), SeqId(s.par.Size(), s.paws, i)) > 0
  }

  /** Nothing is collected when the first packet of the window tests as beyond the group. */
  lemma NothingCollected(n: nat, q: seq<FecPacket>, at: nat, x: U32)
    requires n > 0 && at < |q| && SearchBegin(n, at, x) == 0 && Diff(q[0].seqid, GroupLast(n, x)) > 0
    ensures GroupInWindow(n, q, at, x) == EmptyAssembly(n)
  {}

  /** The packet is queued at the end, and that is all. */
  ghost predicate OnlyQueued(cfg: Config, rx: seq<FecPacket>, pkt: FecPacket) {
    cfg.Valid() && Plan(cfg, rx, pkt).Apply(rx, pkt) == rx + [pkt] && Plan(cfg, rx, pkt).Recovered() == []
  }

  lemma {:induction false} PlanOnlyInserts(cfg: Config, rx: seq<FecPacket>, pkt: FecPacket)
    requires cfg.Valid() && |rx| < cfg.rxlimit && Scan(rx, pkt.seqid, |rx|) == InsertAt(|rx|)
    requires GroupInWindow(cfg.par.Size(), Insert(rx, |rx|, pkt), |rx|, pkt.seqid) == EmptyAssembly(cfg.par.Size())
      || WindowWidth(cfg.par.Size(), |rx| + 1, |rx|, pkt.seqid) < cfg.par.data
    ensures OnlyQueued(cfg, rx, pkt)
  {}

  lemma {:induction false} FirstIsQueued(cfg: Config, s: Sender, i: Idx)
    requires Linked(cfg, s) && s.par.data >= 2 && s.Emitted(i)
    ensures OnlyQueued(cfg, [], s.Sent(i))
  {
    PlanOnlyInserts(cfg, [], s.Sent(i));
  }

  /** A packet that shows as later than the last one queued goes behind it. */
  lemma GoesLast(rx: seq<FecPacket>, x: U32)
    requires rx != [] && Diff(x, rx[|rx| - 1].seqid) > 0
    ensures Scan(rx, x, |rx|) == InsertAt(|rx|)
  {}

  lemma {:induction false} LastShowsEarlier(s: Sender, i: Idx, h: nat, j: nat, last: Idx)
    requires 0 < j < s.par.Size() && Hides(s, i, h) && last == if j == 1 then i else Idx(h, j - 1)
    ensures Diff(SeqId(s.par.Size(), s.paws, Idx(h, j)), SeqId(s.par.Size(), s.paws, last)) > 0
  {
    if j > 1 {
      SameGroupOrder(s.par.Size(), s.paws, Idx(h, j), last);
    }
  }

  lemma {:induction false} HiddenNotCollected(s: Sender, i: Idx, h: nat, j: nat, q: seq<FecPacket>, x: U32)
    requires 0 < j < s.par.Size() && Hides(s, i, h) && |q| == j + 1 && q[0] == s.Sent(i)
    requires x == SeqId(s.par.Size(), s.paws, Idx(h, j))
    ensures GroupInWindow(s.par.Size(), q, j, x) == EmptyAssembly(s.par.Size())
  {
    SeqIdParts(s.par.Size(), s.paws, Idx(h, j));
    GroupBounds(s.par.Size(), s.paws, Idx(h, j));
    NothingCollected(s.par.Size(), q, j, x);
  }

  lemma {:induction false} EndsOfQueue(s: Sender, rx: seq<FecPacket>, ix: seq<Idx>)
    requires s.Valid() && Represents(s, rx, ix) && ix != []
    ensures |rx| == |ix| && s.Emitted(ix[0]) && s.Emitted(ix[|ix| - 1])
    ensures rx[0] == s.Sent(ix[0]) && rx[|rx| - 1] == s.Sent(ix[|ix| - 1])
  {}

  /** One more packet of the hidden group is queued, and that is all. */
  lemma {:induction false} HiddenIsQueued(cfg: Config, s: Sender, i: Idx, h: nat, j: nat, rx: seq<FecPacket>, ix: seq<Idx>)
    requires Linked(cfg, s) && 0 < j < s.par.Size() && Hides(s, i, h) && FarRun(ix, i, h, j - 1) && Represents(s, rx, ix)
    ensures OnlyQueued(cfg, rx, s.Sent(Idx(h, j)))
  {
    var pkt := s.Sent(Idx(h, j));
    EndsOfQueue(s, rx, ix);
    LastShowsEarlier(s, i, h, j, ix[|ix| - 1]);
    GoesLast(rx, pkt.seqid);
    HiddenNotCollected(s, i, h, j, Insert(rx, |rx|, pkt), pkt.seqid);
    PlanOnlyInserts(cfg, rx, pkt);
  }

  /** The data packets among `run`. */
  function DataOnly(par: Params, run: seq<Idx>): seq<Idx> {
    if run == [] then []
    else DataOnly(par, run[..|run| - 1]) + (if run[|run| - 1].k < par.data then [run[|run| - 1]] else [])
  }

  lemma {:induction false} NothingRebuilt(s: Sender, m: Idx)
    requires s.Valid()
    ensures HandedAt(s, m, []) == if m.k < s.par.data then [m] else []
  {}

  /** The reader gets the payloads that arrived and nothing else, and the queue keeps everything. */
  ghost predicate OnlyArrived(cfg: Config, s: Sender, run: seq<Idx>) {
    && Linked(cfg, s) && AllSent(s, run) && AllData(s, DataOnly(s.par, run))
    && FeedAll(cfg, Raw(s, run)) == Alive(Packets(s, run), PayloadsAt(s, DataOnly(s.par, run)))
  }

  lemma {:induction false} FeedQueued(cfg: Config, s: Sender, rx: seq<FecPacket>, m: Idx)
    requires Linked(cfg, s) && s.Emitted(m) && OnlyQueued(cfg, rx, s.Sent(m))
    ensures var handed, fed := if m.k < s.par.data then [m] else [], Feed(cfg, rx, Wire(s.Sent(m)));
            AllData(s, handed) && fed.Fed? && fed.rx == rx + [s.Sent(m)] && fed.Out() == PayloadsAt(s, handed)
  {
    FeedGenuine(cfg, s, rx, m, []);
    NothingRebuilt(s, m);
  }

  lemma {:induction false} OneMoreArrived(cfg: Config, s: Sender, run: seq<Idx>)
    requires Linked(cfg, s) && AllSent(s, run) && run != [] && OnlyArrived(cfg, s, run[..|run| - 1])
    requires OnlyQueued(cfg, Packets(s, run[..|run| - 1]), s.Sent(run[|run| - 1]))
    ensures OnlyArrived(cfg, s, run)
  {
    var front, m := run[..|run| - 1], run[|run| - 1];
    RawPrefix(s, run);
    FeedQueued(cfg, s, Packets(s, front), m);
    FeedLast(cfg, Raw(s, run), Packets(s, front), PayloadsAt(s, DataOnly(s.par, front)));
    PayloadsConcat(s, DataOnly(s.par, front), if m.k < s.par.data then [m] else []);
    PacketsGrow(s, run);
  }

  lemma {:induction false} PacketsGrow(s: Sender, run: seq<Idx>)
    requires s.Valid() && AllSent(s, run) && run != [] && AllSent(s, run[..|run| - 1])
    ensures Packets(s, run) == Packets(s, run[..|run| - 1]) + [s.Sent(run[|run| - 1])]
  {}

  lemma {:induction false} NoneArrived(cfg: Config, s: Sender)
    requires Linked(cfg, s)
    ensures OnlyArrived(cfg, s, [])
  {}

  /** A first packet never completes a group of two or more. */
  lemma {:induction false} FirstArrived(cfg: Config, s: Sender, i: Idx)
    requires Linked(cfg, s) && s.par.data >= 2 && s.Emitted(i)
    ensures OnlyArrived(cfg, s, [i])
  {
    var run := [i];
    assert run[..|run| - 1] == [];
    NoneArrived(cfg, s);
    assert Packets(s, []) == [];
    FirstIsQueued(cfg, s, i);
    OneMoreArrived(cfg, s, run);
  }

  lemma {:induction false} HiddenArrives(cfg: Config, s: Sender, i: Idx, h: nat, j: nat, run: seq<Idx>)
    requires Linked(cfg, s) && 0 < j < s.par.Size() && Hides(s, i, h)
    requires FarRun(run, i, h, j) && OnlyArrived(cfg, s, run[..|run| - 1])
    ensures OnlyArrived(cfg, s, run)
  {
    var front := run[..|run| - 1];
    FarRunPrefix(run, i, h, j);
    HiddenIsQueued(cfg, s, i, h, j, Packets(s, front), front);
    OneMoreArrived(cfg, s, run);
  }

  lemma {:induction false} HiddenRun(cfg: Config, s: Sender, i: Idx, h: nat, j: nat, run: seq<Idx>)
    requires Linked(cfg, s) && j < s.par.Size() && Hides(s, i, h) && FarRun(run, i, h, j)
    ensures OnlyArrived(cfg, s, run)
    decreases j
  {
    FarRunPrefix(run, i, h, j);
    if j == 0 {
      FirstArrived(cfg, s, i);
    } else {
      HiddenRun(cfg, s, i, h, j - 1, run[..|run| - 1]);
      HiddenArrives(cfg, s, i, h, j, run);
    }
  }

  lemma {:induction false} DataOnlyArrived(par: Params, run: seq<Idx>, x: Idx)
    requires x !in run
    ensures x !in DataOnly(par, run)
  {
    if run != [] {
      DataOnlyArrived(par, run[..|run| - 1], x);
    }
  }

  lemma FarRunGroup(i: Idx, h: nat, j: nat, run: seq<Idx>)
    requires i.g < h && FarRun(run, i, h, j)
    ensures Group(Elems(run), h) == Stretch(h, 1, j) && InOrder(run)
  {
    forall x | x in Stretch(h, 1, j)
      ensures x in run
    {
      assert run[x.k] == x;
    }
  }

  lemma OwedNotArrived(par: Params, lively: set<nat>, i: Idx, h: nat, run: seq<Idx>)
    requires par.data > 0 && i.g < h && h in lively && FarRun(run, i, h, par.data)
    ensures InOrder(run) && Owed(par, lively, run, Idx(h, 0)) && Idx(h, 0) !in DataOnly(par, run)
  {
    FarRunGroup(i, h, par.data, run);
    assert Idx(h, 0) !in run;
    DataOnlyArrived(par, run, Idx(h, 0));
  }

  /** Arrivals in order, of which group `h` has as many as it has data packets: the reader is owed the
      payload at `Idx(h, 0)` and never gets it. */
  lemma {:induction false} FarPacketHidesGroup(cfg: Config, s: Sender, i: Idx, h: nat, run: seq<Idx>)
    requires Linked(cfg, s) && Hides(s, i, h) && h in Lively(s) && FarRun(run, i, h, s.par.data)
    ensures OnlyArrived(cfg, s, run) && InOrder(run)
    ensures Owed(s.par, Lively(s), run, Idx(h, 0)) && Idx(h, 0) !in DataOnly(s.par, run)
    ensures !InReach(s.par, s.paws, cfg.rxlimit, run)
  {
    HiddenRun(cfg, s, i, h, s.par.data, run);
    OwedNotArrived(s.par, Lively(s), i, h, run);
    NotInReach(cfg, s, i, h, run);
  }

  lemma {:induction false} NotNear(s: Sender, i: Idx, h: nat)
    requires Hides(s, i, h)
    ensures !Near(s.par.Size(), s.paws, Idx(h, 1), i)
  {
    NearExact(s.par.Size(), s.paws, Idx(h, 1), i);
    GroupBounds(s.par.Size(), s.paws, Idx(h, 1));
  }

  lemma {:induction false} NotInReach(cfg: Config, s: Sender, i: Idx, h: nat, run: seq<Idx>)
    requires Linked(cfg, s) && Hides(s, i, h) && FarRun(run, i, h, s.par.data)
    ensures !InReach(s.par, s.paws, cfg.rxlimit, run)
  {
    assert run[1] == Idx(h, 1) && run[..1] == [i];
    HeldFirst(s.par, cfg.rxlimit, i);
    NotNear(s, i, h);
    assert !NearHeld(s.par.Size(), s.paws, Held(s.par, cfg.rxlimit, run[..1]), run[1]);
  }

  lemma HeldFirst(par: Params, limit: nat, i: Idx)
    requires par.data >= 2 && limit >= 1
    ensures Held(par, limit, [i]) == {i}
  {
    var run := [i];
    assert run[..|run| - 1] == [];
    assert Group({} + {i}, i.g) == {i};
  }

  // ----- Such packets

  /** The number `x` past the middle hides a group of `n` that starts at number 0. */
  lemma FarDifferences(x: int, n: int)
    requires 2 <= x <= n - 2 && n <= MAX_SHARDS
    ensures Diff(TWO_31 + x, n - 1) > 0 && Diff(1, TWO_31 + x) > 0
  {}

  /** Packet `k` of the group that starts in the middle of a pass hides the first group of the next. */
  lemma {:induction false} MiddleHides(s: Sender, g: nat, k: nat, h: nat)
    requires s.Valid() && s.par.data >= 2 && 2 <= k <= s.par.Size() - 2 && g < h < |s.groups|
    requires StartOf(s.par.Size(), s.paws, g) == TWO_31 && StartOf(s.par.Size(), s.paws, h) == 0
    ensures Hides(s, Idx(g, k), h)
  {
    FarDifferences(k, s.par.Size());
  }

  lemma NumbersOfEight(paws: U32, g: nat, h: nat)
    requires paws == PawsV1(8) && g == 0x1000_0000 && h == 536870910
    ensures Layout(8, paws) && StartOf(8, paws, g) == TWO_31 && StartOf(8, paws, h) == 0
  {
    PawsLayouts(8);
    assert paws == 4294967280;
    StartIsReduced(8, paws, g, g * 8);
    StartIsReduced(8, paws, h, h * 8);
  }

  /** Even less than 2^31 - 2n sends apart: with five data and three parity shards and the live wrap
      point, packet 6 of a group in the middle of a pass and the first group of the next. */
  lemma {:induction false} FarPacketWithinTwoGroups(s: Sender, g: nat, h: nat)
    requires s.Valid() && s.par == Params(5, 3) && s.paws == PawsV1(8)
    requires g == 0x1000_0000 && h == 536870910 && h < |s.groups|
    ensures Hides(s, Idx(g, 6), h)
    ensures Flat(8, Idx(h, 5)) - Flat(8, Idx(g, 6)) < TWO_31 - 2 * 8
  {
    NumbersOfEight(s.paws, g, h);
    MiddleHides(s, g, 6, h);
  }

  lemma NumbersOfFour(paws: U32, g: nat, h: nat)
    requires paws == PawsV1(4) && g == 0x2000_0000 && h == 1073741822
    ensures Layout(4, paws) && StartOf(4, paws, g) == TWO_31 && StartOf(4, paws, h) == 0
  {
    PawsLayouts(4);
    assert paws == 4294967288;
    StartIsReduced(4, paws, g, g * 4);
    StartIsReduced(4, paws, h, h * 4);
  }

  /** A stream of the exclusive-or codec with three data shards: `count` groups of the payload `p`. */
  function XorSender(count: nat, p: Bytes): Sender {
    Sender(Params(3, 1), XorCodec.Make(3), PawsV1(4), seq(count, _ => [p, p, p]), [])
  }

  lemma XorSenderIsValid(count: nat, p: Bytes)
    requires |p| + 8 <= MTU_LIMIT
    ensures XorSender(count, p).Valid()
  {
    PawsLayouts(4);
    XorCodec.XorIsErasure(3);
    var s := XorSender(count, p);
    forall g | 0 <= g < |s.groups|
      ensures |s.groups[g]| == 3 && SizesOk(s.groups[g])
    {}
  }

  lemma {:induction false} XorSenderIsLively(s: Sender, count: nat, p: Bytes, h: nat)
    requires s == XorSender(count, p) && s.Valid() && p != [] && h < count
    ensures h in Lively(s)
  {
    LivelyMeansNonEmpty(s, h);
    assert s.groups[h][0] == p;
  }

  /** There is a stream, with a codec that meets its law, and a decoder for which all this comes true. */
  lemma FarPacketExists(p: Bytes) returns (cfg: Config, s: Sender, i: Idx, h: nat)
    requires 0 < |p| <= MTU_LIMIT - 8
    ensures Linked(cfg, s) && Hides(s, i, h) && h in Lively(s)
  {
    var g := 0x2000_0000;
    h := 1073741822;
    i := Idx(g, 2);
    s := XorSender(h + 1, p);
    cfg := Config(s.par, 12, s.codec);
    XorSenderIsValid(h + 1, p);
    XorSenderIsLively(s, h + 1, p, h);
    NumbersOfFour(s.paws, g, h);
    MiddleHides(s, g, 2, h);
  }
}
