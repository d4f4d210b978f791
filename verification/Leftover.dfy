/** Why leftovers of an earlier pass must be excluded: with the exclusive-or codec, one packet left in
    the queue from the previous pass through the sequence numbers makes the decoder see a stream that
    was never sent. */
module Leftover {
  import opened Base
  import opened Codec
  import opened Delivery
  import opened FarPacket
  import opened Numbering
  import opened QueueDecoder
  import opened QueueRefinement
  import opened Reference
  import opened ReferenceRuns
  import opened Serial
  import opened Soundness
  import opened Traffic
  import opened XorCodec

  lemma XorBack(c: Byte, x: Byte)
    ensures Xor(c, Xor(c, x)) == x
  {
    XorAssociative(c, c, x);
    XorSelf(c);
    XorCommutes(0, x);
    XorZero(x);
  }

  lemma XorThree(a: Byte, b: Byte, c: Byte)
    ensures Xor(c, Xor(a, b)) == b <==> a == c
  {
    XorAssociative(c, a, b);
    if a == c {
      XorSelf(a);
      XorCommutes(0, b);
      XorZero(b);
    }
    if Xor(Xor(c, a), b) == b {
      XorAssociative(Xor(c, a), b, b);
      XorSelf(b);
      XorZero(Xor(c, a));
      XorCancels(c, a);
    }
  }

  lemma ParityOfTwo(a: Byte, b: Byte)
    ensures Encode(2, [DataShard([a]), DataShard([b])]) == Some([[0, 0, Xor(a, b)]])
  {
    var s := [DataShard([a]), DataShard([b])];
    assert DataShard([a]) == [3, 0, a] && DataShard([b]) == [3, 0, b];
    forall i | 0 <= i < 3
      ensures Column(s, i, 2) == Xor(At(s[0], i), At(s[1], i))
    {
      assert Column(s, i, 1) == Xor(0, At(s[0], i));
      XorCommutes(0, At(s[0], i));
      XorZero(At(s[0], i));
    }
    XorSelf(3);
    XorSelf(0);
    assert XorAll(s, 3) == [0, 0, Xor(a, b)];
  }

  lemma PaddedAlready(raw: seq<Bytes>, len: nat)
    requires raw != [] && AllLen(raw, len)
    ensures Padded(raw) == raw
  {
    var top :| 0 <= top < |raw| && |raw[top]| == MaxLen(raw);
    forall k | 0 <= k < |raw|
      ensures Padded(raw)[k] == raw[k]
    {
      assert PadTo(raw[k], |raw[k]|) == raw[k] + Zeros(0);
    }
  }

  /** A stream of the exclusive-or codec with two data shards and one parity shard. */
  ghost predicate XorStream(s: Sender) {
    s.Valid() && s.par == Params(2, 1) && s.codec == Make(2)
  }

  /** The parity of two payloads of one byte each. */
  function ParityShard(a: Byte, b: Byte): Bytes {
    [0, 0, Xor(a, b)]
  }

  lemma {:induction false} ParityPacket(s: Sender, g: nat, a: Byte, b: Byte)
    requires XorStream(s) && g < |s.groups| && s.groups[g] == [[a], [b]]
    ensures s.ParityShards(g) == [ParityShard(a, b)]
  {
    s.ParityIsEncoded(g);
    ParityOfTwo(a, b);
    var raw := RawShards(s.groups[g]);
    assert raw == [DataShard([a]), DataShard([b])];
    PaddedAlready(raw, 3);
  }

  /** A stream of the exclusive-or codec in which group `k` uses the numbers of group 0 again. Group 0
      starts with the payload `c`; group `k` carries `a` and `b`. */
  ghost predicate Reuses(s: Sender, k: nat, a: Byte, b: Byte, c: Byte) {
    && XorStream(s) && 0 < k < |s.groups| && SameOnWire(s, Idx(0, 0), Idx(k, 2))
    && s.groups[0][0] == [c] && s.groups[k] == [[a], [b]]
  }

  /** The stream that would have sent the first packet of group 0 and the parity of group `k` as one
      group. */
  function Mixed(paws: U32, a: Byte, b: Byte, c: Byte): Sender {
    Sender(Params(2, 1), Make(2), paws, [[[c], [Xor(c, Xor(a, b))]]], [])
  }

  lemma MixedIsStream(paws: U32, a: Byte, b: Byte, c: Byte)
    requires Layout(3, paws)
    ensures XorStream(Mixed(paws, a, b, c))
  {
    XorIsErasure(2);
    var s := Mixed(paws, a, b, c);
    forall g | 0 <= g < |s.groups|
      ensures |s.groups[g]| == 2 && SizesOk(s.groups[g])
    {}
  }

  /** Both streams put the same two packets on the wire. */
  lemma {:induction false} SamePackets(s: Sender, t: Sender, k: nat, a: Byte, b: Byte, c: Byte)
    requires Reuses(s, k, a, b, c) && t == Mixed(s.paws, a, b, c) && XorStream(t)
    ensures s.Sent(Idx(0, 0)) == t.Sent(Idx(0, 0)) && s.Sent(Idx(k, 2)) == t.Sent(Idx(0, 2))
  {
    ParityPacket(s, k, a, b);
    ParityPacket(t, 0, c, Xor(c, Xor(a, b)));
    XorBack(c, Xor(a, b));
  }

  lemma {:induction false} RawOfTwo(s: Sender, i: Idx, m: Idx, run: seq<Idx>)
    requires s.Valid() && s.Emitted(i) && s.Emitted(m) && run == [i, m]
    ensures AllSent(s, run) && Raw(s, run) == [Wire(s.Sent(i)), Wire(s.Sent(m))]
  {}

  /** What arrives is on the wire exactly the run `seen` of the other stream. */
  lemma {:induction false} SameOnTheWire(s: Sender, t: Sender, k: nat, a: Byte, b: Byte, c: Byte, run: seq<Idx>, seen: seq<Idx>)
    requires Reuses(s, k, a, b, c) && t == Mixed(s.paws, a, b, c) && XorStream(t)
    requires run == [Idx(0, 0), Idx(k, 2)] && seen == [Idx(0, 0), Idx(0, 2)]
    ensures AllSent(s, run) && AllSent(t, seen) && Raw(s, run) == Raw(t, seen)
  {
    SamePackets(s, t, k, a, b, c);
    RawOfTwo(s, Idx(0, 0), Idx(k, 2), run);
    RawOfTwo(t, Idx(0, 0), Idx(0, 2), seen);
  }

  /** Two packets of a group with two data shards take the group out. */
  lemma PairDrained(par: Params, limit: nat, i: Idx, m: Idx, run: seq<Idx>)
    requires par == Params(2, 1) && limit >= 3 && i.g == m.g && i != m && run == [i, m]
    ensures LastDrained(par, limit, run[..1]) == {} && LastDrained(par, limit, run) == {i, m}
  {
    var one := run[..1];
    assert one == [i] && one[..|one| - 1] == [] && run[..|run| - 1] == one;
    assert Group({}, i.g) == {} && Group({i}, m.g) == {i};
    CurrentGroupEvolves(par, limit, {}, i);
    HeldFirst(par, limit, i);
    CurrentGroupEvolves(par, limit, {i}, m);
    assert {i} + {m} == {i, m};
  }

  lemma MiddleMissing(g: nat, drained: set<Idx>)
    requires drained == {Idx(g, 0), Idx(g, 2)}
    ensures Missing(g, drained, 2) == [Idx(g, 1)]
  {
    assert Missing(g, drained, 0) == [];
    assert Missing(g, drained, 1) == [];
  }

  /** The first and the last packet of a group of three: the set decoder rebuilds the one between. */
  lemma MiddleRebuilt(par: Params, limit: nat, lively: set<nat>, g: nat, run: seq<Idx>)
    requires par == Params(2, 1) && limit >= 3 && g in lively && run == [Idx(g, 0), Idx(g, 2)]
    ensures HandedOver(par, limit, lively, run) == [Idx(g, 0), Idx(g, 1)]
  {
    var one := run[..1];
    PairDrained(par, limit, Idx(g, 0), Idx(g, 2), run);
    MiddleMissing(g, {Idx(g, 0), Idx(g, 2)});
    assert LastHanded(par, limit, lively, one) == [Idx(g, 0)];
    assert LastHanded(par, limit, lively, run) == [Idx(g, 1)];
    assert HandedOver(par, limit, lively, one[..|one| - 1]) == [];
    assert HandedOver(par, limit, lively, one) == [Idx(g, 0)];
  }

  lemma {:induction false} SeenInReach(t: Sender, limit: nat, seen: seq<Idx>)
    requires XorStream(t) && seen == [Idx(0, 0), Idx(0, 2)]
    ensures InReach(t.par, t.paws, limit, seen)
  {
    NearRunInReach(t.par, t.paws, limit, seen);
  }

  lemma {:induction false} SeenIsLively(t: Sender, c: Byte)
    requires XorStream(t) && |t.groups| > 0 && t.groups[0][0] == [c]
    ensures 0 in Lively(t)
  {
    LivelyMeansNonEmpty(t, 0);
    assert t.groups[0][0] != [];
  }

  lemma {:induction false} TwoPayloads(t: Sender, order: seq<Idx>, c: Byte, v: Byte)
    requires XorStream(t) && t.groups == [[[c], [v]]] && order == [Idx(0, 0), Idx(0, 1)] && AllData(t, order)
    ensures PayloadsAt(t, order) == [[c], [v]]
  {}

  /** The other stream's reader gets both its payloads. */
  lemma {:induction false} SeenDelivers(cfg: Config, t: Sender, seen: seq<Idx>, c: Byte, v: Byte)
    requires Linked(cfg, t) && XorStream(t) && t.groups == [[[c], [v]]] && seen == [Idx(0, 0), Idx(0, 2)]
    ensures AllSent(t, seen) && FeedAll(cfg, Raw(t, seen)).Alive? && FeedAll(cfg, Raw(t, seen)).out == [[c], [v]]
  {
    SeenInReach(t, cfg.rxlimit, seen);
    var ix := RunDelivers(cfg, t, seen);
    SeenIsLively(t, c);
    var order := HandedOver(t.par, cfg.rxlimit, Lively(t), seen);
    MiddleRebuilt(t.par, cfg.rxlimit, Lively(t), 0, seen);
    TwoPayloads(t, order, c, v);
  }

  /** A packet left over from the previous pass, and of the new group only the parity: the decoder hands
      out a payload made of all three, which is `b` exactly when the leftover happens to equal the lost
      `a`. This is the condition that the soundness theorem excludes. */
  lemma {:induction false} LeftoverCorrupts(cfg: Config, s: Sender, k: nat, a: Byte, b: Byte, c: Byte, run: seq<Idx>)
    requires Linked(cfg, s) && Reuses(s, k, a, b, c) && run == [Idx(0, 0), Idx(k, 2)]
    ensures AllSent(s, run) && FeedAll(cfg, Raw(s, run)).Alive?
    ensures FeedAll(cfg, Raw(s, run)).out == [[c], [Xor(c, Xor(a, b))]]
    ensures Xor(c, Xor(a, b)) == b <==> a == c
    ensures !NeverLeftover(cfg, s, run)
  {
    var t, seen := Mixed(s.paws, a, b, c), [Idx(0, 0), Idx(0, 2)];
    MixedIsStream(s.paws, a, b, c);
    SameOnTheWire(s, t, k, a, b, c, run, seen);
    SeenDelivers(cfg, t, seen, c, Xor(c, Xor(a, b)));
    XorThree(a, b, c);
    MeetsLeftover(cfg, s, Idx(0, 0), Idx(k, 2), run);
  }

  lemma {:induction false} FirstStaysQueued(cfg: Config, s: Sender, m: Idx)
    requires Linked(cfg, s) && s.par.data >= 2 && s.Emitted(m)
    ensures QueueAfter(cfg, s, [m]) == [m]
  {
    FirstIsQueued(cfg, s, m);
    assert [m][..0] == [];
    NextQueueHolds(cfg, s, [], m);
    assert Packets(s, []) == [];
    assert |Packets(s, QueueAfter(cfg, s, [m]))| == 1;
    QueueFromRun(cfg, s, [m], 0);
  }

  lemma {:induction false} IsLeftover(s: Sender, i: Idx, m: Idx, ix: seq<Idx>)
    requires s.Valid() && SameOnWire(s, i, m) && i.g != m.g && ix == [i]
    ensures !NoLeftover(s, ix, m)
  {
    assert ix[0] == i;
  }

  lemma {:induction false} MeetsLeftover(cfg: Config, s: Sender, i: Idx, m: Idx, run: seq<Idx>)
    requires Linked(cfg, s) && s.par.data >= 2 && s.Emitted(i) && s.Emitted(m)
    requires SameOnWire(s, i, m) && i.g != m.g && run == [i, m]
    ensures AllSent(s, run) && !NeverLeftover(cfg, s, run)
  {
    var front := run[..|run| - 1];
    assert front == [i];
    FirstStaysQueued(cfg, s, i);
    IsLeftover(s, i, m, QueueAfter(cfg, s, front));
  }

  // ----- Such a stream exists

  /** After a whole pass the numbers start over. */
  lemma WholePass(n: nat, paws: U32) returns (k: nat)
    requires Layout(n, paws)
    ensures k > 0 && StartOf(n, paws, k) == 0
  {
    k := MultipleHasFactor(paws, n);
    assert paws % paws == 0;
    StartIsReduced(n, paws, k, paws);
  }

  function ReusingSender(k: nat, a: Byte, b: Byte, c: Byte): Sender {
    Sender(Params(2, 1), Make(2), PawsV1(3), seq(k + 1, g => if g == k then [[a], [b]] else [[c], [c]]), [])
  }

  lemma ReusingSenderIsValid(k: nat, a: Byte, b: Byte, c: Byte)
    ensures ReusingSender(k, a, b, c).Valid()
  {
    PawsLayouts(3);
    XorIsErasure(2);
    var s := ReusingSender(k, a, b, c);
    forall g | 0 <= g < |s.groups|
      ensures |s.groups[g]| == 2 && SizesOk(s.groups[g])
    {}
  }

  lemma ReusingSenderReuses(k: nat, a: Byte, b: Byte, c: Byte)
    requires k > 0 && Layout(3, PawsV1(3)) && StartOf(3, PawsV1(3), k) == 0
    ensures Reuses(ReusingSender(k, a, b, c), k, a, b, c)
  {
    ReusingSenderIsValid(k, a, b, c);
    var s := ReusingSender(k, a, b, c);
    assert s.groups[0] == [[c], [c]] && s.groups[k] == [[a], [b]];
  }

  lemma LeftoverExists(a: Byte, b: Byte, c: Byte) returns (cfg: Config, s: Sender, k: nat)
    ensures Linked(cfg, s) && Reuses(s, k, a, b, c)
  {
    PawsLayouts(3);
    k := WholePass(3, PawsV1(3));
    ReusingSenderReuses(k, a, b, c);
    XorIsErasure(2);
    cfg, s := Config(Params(2, 1), 9, Make(2)), ReusingSender(k, a, b, c);
  }
}
