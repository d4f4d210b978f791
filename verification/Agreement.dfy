/** Whole runs of the second decoder on genuine packets, and its agreement with the first. */
module Agreement {
  import opened Codec
  import opened Delivery
  import opened DrainOnce
  import opened Numbering
  import opened QueueDecoder
  import opened QueueRefinement
  import opened Recovery
  import opened Reference
  import opened ReferenceRuns
  import opened Serial
  import opened Sets
  import opened ShardMap
  import opened ShardMapRefinement
  import opened ShardMapRuns
  import opened Soundness
  import opened Traffic

  /** The set decoder's window after `run`. */
  function WindowAfter(par: Params, run: seq<Idx>): (w: Window)
    ensures w.held <= Elems(run)
    ensures w.newest == 0 || exists j :: 0 <= j < |run| && run[j].g == w.newest
  {
    if run == [] then Window(0, {})
    else Arrive(par, WindowAfter(par, run[..|run| - 1]), run[|run| - 1]).window
  }

  function LastTaken(par: Params, run: seq<Idx>): set<Idx>
    requires run != []
  {
    Arrive(par, WindowAfter(par, run[..|run| - 1]), run[|run| - 1]).drained
  }

  /** The outcomes of `run` for the set decoder of the map. */
  ghost function MapTrace(par: Params, run: seq<Idx>): (tr: seq<Reference.Outcome>)
    ensures |tr| == |run| && HeldNow(tr) == WindowAfter(par, run).held
  {
    if run == [] then []
    else MapTrace(par, run[..|run| - 1]) + [Reference.Outcome(WindowAfter(par, run).held, LastTaken(par, run))]
  }

  /** Everything rebuilt during `run`. */
  ghost function RebuiltByMap(par: Params, run: seq<Idx>): seq<Idx> {
    RebuiltIn(par, run, MapTrace(par, run))
  }

  lemma RebuiltByMapStep(par: Params, run: seq<Idx>)
    requires run != []
    ensures RebuiltByMap(par, run)
            == RebuiltByMap(par, run[..|run| - 1]) + Rebuilt(par, run[|run| - 1].g, LastTaken(par, run))
  {
    var tr := MapTrace(par, run);
    assert tr[..|tr| - 1] == MapTrace(par, run[..|run| - 1]);
  }

  /** Sent before the numbers wrapped. */
  ghost predicate AllFirstPass(s: Sender, run: seq<Idx>)
    requires s.Valid()
  {
    AllSent(s, run) && forall j :: 0 <= j < |run| ==> FirstPass(s.par.Size(), s.paws, run[j].g)
  }

  /** A new decoder with the encoder's parameters. */
  ghost predicate New(s: Sender, st: State) {
    Tied(s, st) && st.sets == map[] && st.minShard == 0
  }

  lemma {:induction false} NewShowsNothing(s: Sender, st: State)
    requires New(s, st)
    ensures Shows(s, st, Window(0, {}))
  {
    forall g: nat | g < TWO_32
      ensures HeapShows(s, g, st.HeapAt(g), Group({}, g))
    {
      assert Group({}, g) == {};
    }
  }

  lemma {:induction false} PacketsPrefix(s: Sender, run: seq<Idx>)
    requires s.Valid() && AllSent(s, run) && run != []
    ensures AllSent(s, run[..|run| - 1])
    ensures Packets(s, run)[..|run| - 1] == Packets(s, run[..|run| - 1])
    ensures Packets(s, run)[|run| - 1] == s.Sent(run[|run| - 1])
  {}

  /** Packets of a first pass in any order, lost, repeated or interleaved: the decoder keeps its
      parameters, and hands out exactly the missing data shards of the groups that the set decoder
      takes out, as the encoder padded them. Nothing else is ever handed out. */
  lemma {:induction false} MapRunIsExact(make: Factory, s: Sender, st: State, run: seq<Idx>)
    requires Lawful(make) && New(s, st) && AllFirstPass(s, run)
    ensures var r := Run(make, st, Packets(s, run));
            && Shows(s, r.state, WindowAfter(s.par, run))
            && AllInWholeGroups(s, RebuiltByMap(s.par, run))
            && r.recovered == Shards(s, RebuiltByMap(s.par, run))
  {
    if run == [] {
      NewShowsNothing(s, st);
    } else {
      var front, m := run[..|run| - 1], run[|run| - 1];
      PacketsPrefix(s, run);
      MapRunIsExact(make, s, st, front);
      var before := Run(make, st, Packets(s, front));
      ShardStepRefines(make, s, before.state, WindowAfter(s.par, front), m);
      RebuiltByMapStep(s.par, run);
      ShardsConcat(s, RebuiltByMap(s.par, front), Rebuilt(s.par, m.g, LastTaken(s.par, run)));
    }
  }

  // ----- In order

  /** Both decoders hold the same of group `g`, too little to take it out, and nothing of a later one. */
  ghost predicate HoldSame(par: Params, limit: nat, run: seq<Idx>, g: nat) {
    && Group(WindowAfter(par, run).held, g) == Group(Held(par, limit, run), g)
    && |Group(Held(par, limit, run), g)| < par.data && WindowAfter(par, run).newest <= g
  }

  /** Of a group from which nothing arrived both decoders hold nothing. */
  lemma {:induction false} NothingOfLater(par: Params, limit: nat, run: seq<Idx>, g: nat)
    requires par.data > 0 && forall i :: i in run ==> i.g < g
    ensures HoldSame(par, limit, run, g)
  {
    assert Group(Elems(run), g) == {};
    assert Group(WindowAfter(par, run).held, g) == {};
    assert Group(Held(par, limit, run), g) == {};
  }

  /** For arrivals in order both decoders hold the same of the newest group. */
  lemma {:induction false} SameNewestGroup(par: Params, limit: nat, run: seq<Idx>, g: nat)
    requires par.Valid() && limit >= par.Size() && InOrder(run) && forall i :: i in run ==> i.g <= g
    ensures HoldSame(par, limit, run, g)
    decreases |run|
  {
    if run == [] || run[|run| - 1].g < g {
      NothingOfLater(par, limit, run, g);
    } else {
      SameStep(par, limit, run, g);
    }
  }

  lemma {:induction false} SameStep(par: Params, limit: nat, run: seq<Idx>, g: nat)
    requires par.Valid() && limit >= par.Size() && InOrder(run) && run != [] && g == run[|run| - 1].g
    ensures LastTaken(par, run) == LastDrained(par, limit, run)
    ensures HoldSame(par, limit, run, g)
    decreases |run|, 0
  {
    var front, m := run[..|run| - 1], run[|run| - 1];
    SameNewestGroup(par, limit, front, g);
    assert m !in Elems(front);
    CurrentGroupEvolves(par, limit, Held(par, limit, front), m);
    GroupsAfter(par, WindowAfter(par, front), m, m.g);
  }

  /** The two decoders are interchangeable for packets that arrive in order before the numbers
      wrap: at every packet both hand out the same shards. (Data and parity may be in any
      proportion.) */
  lemma {:induction false} DecodersAgree(make: Factory, cfg: Config, s: Sender, st: State, run: seq<Idx>, m: Idx)
    requires Lawful(make) && Linked(cfg, s) && New(s, st)
    requires AllFirstPass(s, run + [m]) && InOrder(run + [m]) && InReach(s.par, s.paws, cfg.rxlimit, run + [m])
    ensures AllSent(s, run) && FeedAll(cfg, Raw(s, run)).Alive? && s.Emitted(m)
    ensures Plan(cfg, FeedAll(cfg, Raw(s, run)).rx, s.Sent(m)).Recovered()
            == Step(make, Run(make, st, Packets(s, run)).state, s.Sent(m)).recovered
  {
    var all := run + [m];
    assert all[..|all| - 1] == run && all[|all| - 1] == m;
    PrefixInReach(s.par, s.paws, cfg.rxlimit, all);
    assert AllFirstPass(s, run);
    SameStep(s.par, cfg.rxlimit, all, m.g);
    QueueSide(cfg, s, run, m);
    MapSide(make, s, st, run, m);
    OneMore(s.par, cfg.rxlimit, run, m);
  }

  lemma {:induction false} FirstPassOrder(n: nat, paws: U32, g: nat, h: nat)
    requires Layout(n, paws) && FirstPass(n, paws, h) && g < h
    ensures StartOf(n, paws, g) + n <= StartOf(n, paws, h)
  {
    if g < h - 1 {
      FirstPassOrder(n, paws, g, h - 1);
    }
  }

  /** Every group of `run` lies in the first half of the numbers. */
  ghost predicate FirstHalf(s: Sender, run: seq<Idx>)
    requires s.Valid()
  {
    forall j :: 0 <= j < |run| ==> StartOf(s.par.Size(), s.paws, run[j].g) + s.par.Size() <= TWO_31
  }

  /** Below number 2^31 everything is in reach, in any order. */
  lemma {:induction false} FirstHalfInReach(s: Sender, limit: nat, run: seq<Idx>)
    requires s.Valid() && AllFirstPass(s, run) && FirstHalf(s, run)
    ensures InReach(s.par, s.paws, limit, run)
  {
    var n := s.par.Size();
    forall a, b | 0 <= a < |run| && 0 <= b < |run|
      ensures Near(n, s.paws, run[a], run[b])
    {
      assert s.Emitted(run[a]) && s.Emitted(run[b]);
      if run[a].g < run[b].g {
        FirstPassOrder(n, s.paws, run[a].g, run[b].g);
      } else if run[b].g < run[a].g {
        FirstPassOrder(n, s.paws, run[b].g, run[a].g);
      }
      LowIsNear(n, s.paws, run[a], run[b]);
    }
    NearRunInReach(s.par, s.paws, limit, run);
  }

  /** So there the decoders agree at every packet of every run in order, without a further
      condition. */
  lemma {:induction false} DecodersAgreeInFirstHalf(make: Factory, cfg: Config, s: Sender, st: State, run: seq<Idx>, m: Idx)
    requires Lawful(make) && Linked(cfg, s) && New(s, st)
    requires AllFirstPass(s, run + [m]) && FirstHalf(s, run + [m]) && InOrder(run + [m])
    ensures AllSent(s, run) && FeedAll(cfg, Raw(s, run)).Alive? && s.Emitted(m)
    ensures Plan(cfg, FeedAll(cfg, Raw(s, run)).rx, s.Sent(m)).Recovered()
            == Step(make, Run(make, st, Packets(s, run)).state, s.Sent(m)).recovered
  {
    FirstHalfInReach(s, cfg.rxlimit, run + [m]);
    DecodersAgree(make, cfg, s, st, run, m);
  }

  lemma {:induction false} QueueSide(cfg: Config, s: Sender, run: seq<Idx>, m: Idx)
    requires Linked(cfg, s) && AllSent(s, run) && s.Emitted(m) && InReach(s.par, s.paws, cfg.rxlimit, run)
    requires NearHeld(s.par.Size(), s.paws, Held(s.par, cfg.rxlimit, run), m)
    ensures FeedAll(cfg, Raw(s, run)).Alive?
    ensures var drained := Receive(s.par, cfg.rxlimit, Held(s.par, cfg.rxlimit, run), m).drained;
            && AllInWholeGroups(s, Rebuilt(s.par, m.g, drained))
            && Plan(cfg, FeedAll(cfg, Raw(s, run)).rx, s.Sent(m)).Recovered() == Shards(s, Rebuilt(s.par, m.g, drained))
  {
    var ix := RunDelivers(cfg, s, run);
    forall j | 0 <= j < |ix|
      ensures Near(s.par.Size(), s.paws, m, ix[j])
    {
      assert ix[j] in Elems(ix);
    }
    QueueStepRefines(cfg, s, FeedAll(cfg, Raw(s, run)).rx, ix, m);
  }

  lemma {:induction false} MapSide(make: Factory, s: Sender, st: State, run: seq<Idx>, m: Idx)
    requires Lawful(make) && New(s, st) && AllFirstPass(s, run + [m])
    ensures AllFirstPass(s, run)
    ensures var drained := LastTaken(s.par, run + [m]);
            && AllInWholeGroups(s, Rebuilt(s.par, m.g, drained))
            && Step(make, Run(make, st, Packets(s, run)).state, s.Sent(m)).recovered == Shards(s, Rebuilt(s.par, m.g, drained))
  {
    var all := run + [m];
    assert all[..|all| - 1] == run && all[|all| - 1] == m;
    assert AllFirstPass(s, run) by {
      assert forall j :: 0 <= j < |run| ==> run[j] == all[j];
    }
    MapRunIsExact(make, s, st, run);
    ShardStepRefines(make, s, Run(make, st, Packets(s, run)).state, WindowAfter(s.par, run), m);
  }

  // ----- At most once

  lemma {:induction false} MapTraceConserves(par: Params, run: seq<Idx>)
    requires par.data > 0
    ensures Conserves(par, run, MapTrace(par, run))
  {
    if run != [] {
      var tr := MapTrace(par, run);
      MapTraceConserves(par, run[..|run| - 1]);
      assert tr[..|tr| - 1] == MapTrace(par, run[..|run| - 1]);
    }
  }

  /** With less parity than data and no packet arriving twice, the second decoder too takes each
      group out at most once, in any order of arrival. */
  lemma MapTakesOnce(par: Params, run: seq<Idx>, g: nat)
    requires par.Valid() && par.parity < par.data && Distinct(run) && InGroups(par, run)
    ensures Drains(run, MapTrace(par, run), g) <= 1
    ensures Distinct(RebuiltByMap(par, run))
  {
    MapTraceConserves(par, run);
    TakenAtMostOnce(par, run, MapTrace(par, run), g);
    RebuiltOnce(par, run, MapTrace(par, run));
  }

  /** So the map decoder never returns the shard of the same packet twice. */
  lemma {:induction false} MapRecoversOnce(make: Factory, s: Sender, st: State, run: seq<Idx>)
    requires Lawful(make) && New(s, st) && AllFirstPass(s, run)
    requires s.par.parity < s.par.data && Distinct(run)
    ensures var ix := RebuiltByMap(s.par, run);
            AllInWholeGroups(s, ix) && Distinct(ix) && Run(make, st, Packets(s, run)).recovered == Shards(s, ix)
  {
    MapRunIsExact(make, s, st, run);
    assert InGroups(s.par, run);
    MapTakesOnce(s.par, run, 0);
  }

  /** How often the map decoder empties a complete heap on the arrival of a packet of group `g`. */
  ghost function MapDrains(make: Factory, s: Sender, st: State, run: seq<Idx>, g: nat): nat
    requires Lawful(make) && s.Valid() && st.Ready() && AllSent(s, run)
  {
    if run == [] then 0
    else
      var front, m := run[..|run| - 1], run[|run| - 1];
      var now := Sense(Run(make, st, Packets(s, front)).state, s.Sent(m));
      MapDrains(make, s, st, front, g)
      + (if m.g == g && !now.shouldTune && Completes(now, GroupId(now.par, s.Sent(m).seqid), s.Sent(m)) then 1 else 0)
  }

  lemma {:induction false} MapDrainsTraced(make: Factory, s: Sender, st: State, run: seq<Idx>, g: nat)
    requires Lawful(make) && New(s, st) && AllFirstPass(s, run)
    ensures MapDrains(make, s, st, run, g) == Drains(run, MapTrace(s.par, run), g)
  {
    if run != [] {
      var front, m := run[..|run| - 1], run[|run| - 1];
      MapDrainsTraced(make, s, st, front, g);
      MapRunIsExact(make, s, st, front);
      ShardStepRefines(make, s, Run(make, st, Packets(s, front)).state, WindowAfter(s.par, front), m);
      GenuineIsTyped(s, m);
      var tr := MapTrace(s.par, run);
      assert tr[..|tr| - 1] == MapTrace(s.par, front);
    }
  }

  /** And takes each group out at most once. */
  lemma {:induction false} MapDrainsOnce(make: Factory, s: Sender, st: State, run: seq<Idx>, g: nat)
    requires Lawful(make) && New(s, st) && AllFirstPass(s, run)
    requires s.par.parity < s.par.data && Distinct(run)
    ensures MapDrains(make, s, st, run, g) <= 1
  {
    assert InGroups(s.par, run);
    MapDrainsTraced(make, s, st, run, g);
    MapTakesOnce(s.par, run, g);
  }
}
