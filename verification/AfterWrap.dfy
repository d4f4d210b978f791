/** The second decoder after the sequence numbers wrap, where it parts from the first. */
module AfterWrap {
  import opened Agreement
  import opened Arith
  import opened Base
  import opened Codec
  import opened Delivery
  import opened DrainOnce
  import opened FarPacket
  import opened Numbering
  import opened QueueDecoder
  import opened QueueRefinement
  import opened QueueRuns
  import opened Recovery
  import opened Reference
  import opened ReferenceRuns
  import opened Serial
  import opened Sets
  import opened ShardMap
  import opened ShardMapRefinement
  import opened ShardMapRuns
  import opened Soundness
  import opened Traffic

  /** Number under which the second decoder files group `g`. */
  ghost function GroupNumber(s: Sender, g: nat): nat
    requires s.Valid()
  {
    StartOf(s.par.Size(), s.paws, g) / s.par.Size()
  }

  lemma {:induction false} FiledUnder(s: Sender, i: Idx)
    requires s.Valid() && s.Emitted(i)
    ensures GroupId(s.par, s.Sent(i).seqid) == GroupNumber(s, i.g)
  {
    var n := s.par.Size();
    SeqIdParts(n, s.paws, Idx(i.g, 0));
    NextBlock(StartOf(n, s.paws, i.g), n, GroupNumber(s, i.g), i.k);
  }

  /** The second decoder does not survive the wrap as the first does: genuine packets of a later
      pass, in any order, recover nothing until they reach the group number the decoder had got
      to, which at the wrap is the last one there is. */
  lemma {:induction false} LaterPassIsLost(make: Factory, s: Sender, st: State, run: seq<Idx>)
    requires Lawful(make) && Tied(s, st) && AllSent(s, run)
    requires forall j :: 0 <= j < |run| ==> GroupNumber(s, run[j].g) < st.minShard
    ensures var r := Run(make, st, Packets(s, run));
            r.recovered == [] && r.state == st.(pulses := r.state.pulses)
  {
    forall j | 0 <= j < |run|
      ensures !Mistyped(s.par, s.Sent(run[j])) && GroupId(s.par, s.Sent(run[j]).seqid) < st.minShard
    {
      GenuineIsTyped(s, run[j]);
      FiledUnder(s, run[j]);
    }
    StaleRunIsSilent(make, st, Packets(s, run));
  }

  /** From a new decoder: after any arrivals of the first pass, packets whose group numbers lie below the
      newest seen then add nothing to what is recovered. */
  lemma {:induction false} NextPassAddsNothing(make: Factory, s: Sender, st: State, one: seq<Idx>, two: seq<Idx>)
    requires Lawful(make) && New(s, st) && AllFirstPass(s, one) && AllSent(s, two)
    requires forall j :: 0 <= j < |two| ==> GroupNumber(s, two[j].g) < WindowAfter(s.par, one).newest
    ensures AllSent(s, one + two)
    ensures Run(make, st, Packets(s, one + two)).recovered == Run(make, st, Packets(s, one)).recovered
  {
    MapRunIsExact(make, s, st, one);
    LaterPassIsLost(make, s, Run(make, st, Packets(s, one)).state, two);
    PacketsConcat(s, one, two);
    RunConcat(make, st, Packets(s, one), Packets(s, two), Packets(s, one + two));
  }

  // ----- The two decoders disagree

  /** `last` is the last group of a pass. */
  ghost predicate EndsPass(s: Sender, last: nat) {
    && s.Valid() && 0 < last && FirstPass(s.par.Size(), s.paws, last)
    && StartOf(s.par.Size(), s.paws, last + 1) == 0
  }

  lemma LastGroupOfPass(n: nat, paws: U32) returns (last: nat)
    requires Layout(n, paws)
    ensures 0 < last && FirstPass(n, paws, last) && StartOf(n, paws, last + 1) == 0
  {
    var k := MultipleHasFactor(paws, n);
    if k <= 1 {
      MulMono(k, 1, n);
      assert false;
    }
    last := k - 1;
    FirstPassIff(n, paws, last, paws);
    StartIsReduced(n, paws, k, paws);
  }

  lemma {:induction false} OnlyFirstMissing(h: nat, d: nat, k: nat)
    requires k <= d
    ensures Missing(h, Stretch(h, 1, d), k) == if k == 0 then [] else [Idx(h, 0)]
  {
    if k > 0 {
      OnlyFirstMissing(h, d, k - 1);
    }
  }

  /** The first packet of a group rebuilds nothing: if it is the only data packet, it is there. */
  lemma FirstRebuildsNothing(par: Params, i: Idx, drained: set<Idx>)
    requires i.k == 0 && (drained == {} || (drained == {i} && par.data == 1))
    ensures Rebuilt(par, i.g, drained) == []
  {
    if drained != {} {
      assert Missing(i.g, drained, 0) == [];
      assert i == Idx(i.g, 0);
    }
  }

  lemma FarRunStarts(par: Params, limit: nat, i: Idx, h: nat, run: seq<Idx>)
    requires par.Valid() && limit >= par.Size() && i.k == 0 && i.g < h && run == [i]
    ensures RebuiltAll(par, limit, run) == [] && Group(Held(par, limit, run), h) == {}
  {
    assert run[..|run| - 1] == [];
    RebuiltAllStep(par, limit, run);
    assert Group({}, i.g) == {};
    CurrentGroupEvolves(par, limit, {}, i);
    FirstRebuildsNothing(par, i, LastDrained(par, limit, run));
    assert Held(par, limit, run) <= Elems(run);
  }

  lemma FarRunGoesOn(par: Params, limit: nat, h: nat, j: nat, front: seq<Idx>, m: Idx, run: seq<Idx>)
    requires par.Valid() && limit >= par.Size() && 0 < j <= par.data && m == Idx(h, j) && run == front + [m]
    requires m !in front && (forall x :: x in front ==> x.g <= h)
    requires Group(Held(par, limit, front), h) == Stretch(h, 1, j - 1)
    ensures LastDrained(par, limit, run) == if j == par.data then Stretch(h, 1, j) else {}
    ensures j < par.data ==> Group(Held(par, limit, run), h) == Stretch(h, 1, j)
  {
    OneMore(par, limit, front, m);
    CurrentGroupEvolves(par, limit, Held(par, limit, front), m);
    assert Stretch(h, 1, j - 1) + {m} == Stretch(h, 1, j);
  }

  /** What the set decoder of the queue makes of the run: when the group is complete it rebuilds the packet
      that is missing. */
  lemma FarRunRebuilt(par: Params, limit: nat, i: Idx, h: nat, j: nat, run: seq<Idx>)
    requires par.Valid() && limit >= par.Size() && i.k == 0 && i.g < h && j <= par.data && FarRun(run, i, h, j)
    ensures RebuiltAll(par, limit, run) == if j == par.data then [Idx(h, 0)] else []
    ensures j < par.data ==> Group(Held(par, limit, run), h) == Stretch(h, 1, j)
    decreases j
  {
    FarRunPrefix(run, i, h, j);
    if j == 0 {
      FarRunStarts(par, limit, i, h, run);
    } else {
      var front, m := run[..|run| - 1], Idx(h, j);
      assert run == front + [m];
      FarRunRebuilt(par, limit, i, h, j - 1, front);
      FarRunGoesOn(par, limit, h, j, front, m, run);
      RebuiltAllStep(par, limit, run);
      if j == par.data {
        OnlyFirstMissing(h, j, j);
      }
    }
  }

  lemma {:induction false} FarRunClose(s: Sender, limit: nat, i: Idx, h: nat, run: seq<Idx>)
    requires s.Valid() && i.k == 0 && h == i.g + 1 && FarRun(run, i, h, s.par.data)
    ensures InReach(s.par, s.paws, limit, run)
  {
    var n := s.par.Size();
    assert (i.g + 1) * n == i.g * n + n;
    forall a, b | 0 <= a < |run| && 0 <= b < |run|
      ensures Flat(n, run[a]) - Flat(n, run[b]) < TWO_31 - 3 * n
    {}
    assert InGroups(s.par, run);
    CloseRunInReach(s.par, s.paws, limit, run);
  }

  lemma MapKeepsFirst(par: Params, i: Idx, one: seq<Idx>)
    requires par.data > 0 && i.k == 0 && one == [i]
    ensures WindowAfter(par, one).newest == i.g && RebuiltByMap(par, one) == []
  {
    assert one[..|one| - 1] == [];
    GroupsAfter(par, Window(0, {}), i, i.g);
    assert Group({}, i.g) + {i} == {i};
    RebuiltByMapStep(par, one);
    FirstRebuildsNothing(par, i, LastTaken(par, one));
  }

  lemma {:induction false} RestIsLate(s: Sender, last: nat, two: seq<Idx>)
    requires EndsPass(s, last) && last + 1 < |s.groups|
    requires forall j :: 0 <= j < |two| ==> two[j].g == last + 1 && two[j].k < s.par.Size()
    ensures AllSent(s, two) && forall j :: 0 <= j < |two| ==> GroupNumber(s, two[j].g) < last
  {}

  lemma {:induction false} FirstIsFirstPass(s: Sender, last: nat, one: seq<Idx>)
    requires EndsPass(s, last) && last < |s.groups| && one == [Idx(last, 0)]
    ensures AllFirstPass(s, one)
  {}

  /** The map decoder takes in the first packet of the run and refuses the rest. */
  lemma {:induction false} MapLosesGroup(make: Factory, s: Sender, st: State, last: nat, run: seq<Idx>, one: seq<Idx>, two: seq<Idx>)
    requires Lawful(make) && New(s, st) && EndsPass(s, last) && last + 1 < |s.groups|
    requires run == one + two && one == [Idx(last, 0)]
    requires forall j :: 0 <= j < |two| ==> two[j].g == last + 1 && two[j].k < s.par.Size()
    ensures AllSent(s, run) && Run(make, st, Packets(s, run)).recovered == []
  {
    FirstIsFirstPass(s, last, one);
    MapKeepsFirst(s.par, Idx(last, 0), one);
    MapRunIsExact(make, s, st, one);
    RestIsLate(s, last, two);
    NextPassAddsNothing(make, s, st, one, two);
  }

  lemma FarRunParts(run: seq<Idx>, i: Idx, h: nat, j: nat) returns (two: seq<Idx>)
    requires FarRun(run, i, h, j)
    ensures run == [i] + two && forall k :: 0 <= k < |two| ==> two[k].g == h && two[k].k <= j
  {
    two := run[1..];
  }

  lemma {:induction false} FarRunSent(s: Sender, i: Idx, h: nat, run: seq<Idx>)
    requires s.Valid() && s.Emitted(i) && h < |s.groups| && FarRun(run, i, h, s.par.data)
    ensures AllSent(s, run)
  {}

  lemma {:induction false} OneShard(s: Sender, i: Idx, ix: seq<Idx>)
    requires s.Valid() && i.g < |s.groups| && i.k < s.par.data && ix == [i] && AllInWholeGroups(s, ix)
    ensures Shards(s, ix) == [s.DataShards(i.g)[i.k]]
  {}

  lemma {:induction false} RecoversOne(cfg: Config, s: Sender, x: Idx, run: seq<Idx>)
    requires Linked(cfg, s) && AllSent(s, run) && InReach(s.par, s.paws, cfg.rxlimit, run)
    requires RebuiltAll(s.par, cfg.rxlimit, run) == [x] && x.g < |s.groups| && x.k < s.par.data
    ensures DecodeAll(cfg, Packets(s, run)).recovered == [s.DataShards(x.g)[x.k]]
  {
    var ix := QueueRunIsExact(cfg, s, run);
    OneShard(s, x, RebuiltAll(s.par, cfg.rxlimit, run));
  }

  lemma {:induction false} QueueRebuilds(cfg: Config, s: Sender, i: Idx, h: nat, run: seq<Idx>)
    requires Linked(cfg, s) && i.k == 0 && h == i.g + 1 < |s.groups| && FarRun(run, i, h, s.par.data)
    ensures AllSent(s, run) && InReach(s.par, s.paws, cfg.rxlimit, run)
    ensures DecodeAll(cfg, Packets(s, run)).recovered == [s.DataShards(h)[0]]
  {
    FarRunClose(s, cfg.rxlimit, i, h, run);
    FarRunSent(s, i, h, run);
    FarRunRebuilt(s.par, cfg.rxlimit, i, h, s.par.data, run);
    RecoversOne(cfg, s, Idx(h, 0), run);
  }

  /** For every stream that has got past the wrap: one packet of the last group of the pass, then of the
      first group of the next all that can be lost without harm. The run is in order and in reach; the
      queue decoder returns the packet that was lost, the map decoder returns nothing. */
  lemma {:induction false} DecodersDisagree(make: Factory, cfg: Config, s: Sender, st: State, last: nat, run: seq<Idx>)
    requires Lawful(make) && Linked(cfg, s) && New(s, st) && EndsPass(s, last) && last + 1 < |s.groups|
    requires FarRun(run, Idx(last, 0), last + 1, s.par.data)
    ensures AllSent(s, run) && InOrder(run) && InReach(s.par, s.paws, cfg.rxlimit, run)
    ensures DecodeAll(cfg, Packets(s, run)).recovered == [s.DataShards(last + 1)[0]]
    ensures Run(make, st, Packets(s, run)).recovered == []
  {
    FarRunGroup(Idx(last, 0), last + 1, s.par.data, run);
    QueueRebuilds(cfg, s, Idx(last, 0), last + 1, run);
    var two := FarRunParts(run, Idx(last, 0), last + 1, s.par.data);
    MapLosesGroup(make, s, st, last, run, [Idx(last, 0)], two);
  }

  function EmptyGroup(d: nat): (r: seq<Bytes>)
    ensures |r| == d && SizesOk(r)
  {
    seq(d, _ => [])
  }

  /** There is such a stream for every decoder and wrap point, and a new map decoder for it. */
  lemma {:induction false} DisagreementExists(cfg: Config, paws: U32) returns (s: Sender, last: nat, st: State)
    requires cfg.Valid() && Layout(cfg.par.Size(), paws)
    ensures Linked(cfg, s) && s.paws == paws && EndsPass(s, last) && last + 1 < |s.groups|
    ensures st == NewState(cfg.par, cfg.codec) && New(s, st)
  {
    last := LastGroupOfPass(cfg.par.Size(), paws);
    s := Sender(cfg.par, cfg.codec, paws, seq(last + 2, _ => EmptyGroup(cfg.par.data)), []);
    st := NewState(cfg.par, cfg.codec);
    assert s.Valid();
  }
}
