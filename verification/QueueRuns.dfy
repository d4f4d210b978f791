/** Whole runs of the queue decoder itself, for arrivals in any order. */
module QueueRuns {
  import opened Base
  import opened Codec
  import opened Delivery
  import opened DrainOnce
  import opened Numbering
  import opened QueueDecoder
  import opened QueueRefinement
  import opened Recovery
  import opened Reference
  import opened ReferenceRuns
  import opened Sets
  import opened Soundness
  import opened Traffic

  datatype Decoded = Decoded(rx: seq<FecPacket>, recovered: seq<Bytes>)

  /** The queue after the packets `pkts`, and everything `Decode` returned for them. */
  function DecodeAll(cfg: Config, pkts: seq<FecPacket>): Decoded
    requires cfg.Valid()
  {
    if pkts == [] then Decoded([], [])
    else
      var before, last := DecodeAll(cfg, pkts[..|pkts| - 1]), pkts[|pkts| - 1];
      var e := Plan(cfg, before.rx, last);
      Decoded(e.Apply(before.rx, last), before.recovered + e.Recovered())
  }

  /** Any run in reach: the queue holds what the set decoder holds, and what was recovered are exactly
      the shards that the set decoder rebuilds, in that order. */
  lemma {:induction false} QueueRunIsExact(cfg: Config, s: Sender, run: seq<Idx>) returns (ix: seq<Idx>)
    requires Linked(cfg, s) && AllSent(s, run) && InReach(s.par, s.paws, cfg.rxlimit, run)
    ensures var r := DecodeAll(cfg, Packets(s, run));
            && Tidy(cfg, s, r.rx, ix) && Elems(ix) == Held(s.par, cfg.rxlimit, run)
            && AllInWholeGroups(s, RebuiltAll(s.par, cfg.rxlimit, run))
            && r.recovered == Shards(s, RebuiltAll(s.par, cfg.rxlimit, run))
  {
    if run == [] {
      ix := [];
      EmptyIsTidy(cfg, s);
    } else {
      var front, m := run[..|run| - 1], run[|run| - 1];
      PrefixInReach(s.par, s.paws, cfg.rxlimit, run);
      assert Packets(s, run)[..|run| - 1] == Packets(s, front);
      var before := QueueRunIsExact(cfg, s, front);
      var rx := DecodeAll(cfg, Packets(s, front)).rx;
      ElementsNear(s, before, m);
      QueueStepRefines(cfg, s, rx, before, m);
      ix := Plan(cfg, rx, s.Sent(m)).Apply(before, m);
      RebuiltAllStep(s.par, cfg.rxlimit, run);
      ShardsConcat(s, RebuiltAll(s.par, cfg.rxlimit, front), Rebuilt(s.par, m.g, LastDrained(s.par, cfg.rxlimit, run)));
    }
  }

  lemma {:induction false} ElementsNear(s: Sender, ix: seq<Idx>, m: Idx)
    requires NearHeld(s.par.Size(), s.paws, Elems(ix), m)
    ensures AllNear(s.par.Size(), s.paws, ix, m)
  {
    forall j | 0 <= j < |ix|
      ensures Near(s.par.Size(), s.paws, m, ix[j])
    {
      assert ix[j] in Elems(ix);
    }
  }

  /** With less parity than data and every packet arriving at most once, in any order and with any
      evictions, `Decode` never returns the shard of the same packet twice. */
  lemma {:induction false} QueueRecoversOnce(cfg: Config, s: Sender, run: seq<Idx>)
    requires Linked(cfg, s) && AllSent(s, run) && InReach(s.par, s.paws, cfg.rxlimit, run)
    requires s.par.parity < s.par.data && Distinct(run)
    ensures var ix := RebuiltAll(s.par, cfg.rxlimit, run);
            AllInWholeGroups(s, ix) && Distinct(ix) && DecodeAll(cfg, Packets(s, run)).recovered == Shards(s, ix)
  {
    var queue := QueueRunIsExact(cfg, s, run);
    assert InGroups(s.par, run);
    RebuiltAtMostOnce(s.par, cfg.rxlimit, run);
  }

  /** How often `Decode` takes a block out on the arrival of a packet of group `g`. */
  ghost function QueueDrains(cfg: Config, s: Sender, run: seq<Idx>, g: nat): nat
    requires Linked(cfg, s) && AllSent(s, run)
  {
    if run == [] then 0
    else
      var front, m := run[..|run| - 1], run[|run| - 1];
      var e := Plan(cfg, DecodeAll(cfg, Packets(s, front)).rx, s.Sent(m));
      QueueDrains(cfg, s, front, g) + (if m.g == g && e.Removed() > 0 then 1 else 0)
  }

  lemma {:induction false} QueueDrainsTraced(cfg: Config, s: Sender, run: seq<Idx>, g: nat)
    requires Linked(cfg, s) && AllSent(s, run) && InReach(s.par, s.paws, cfg.rxlimit, run)
    ensures QueueDrains(cfg, s, run, g) == Drains(run, Trace(s.par, cfg.rxlimit, run), g)
  {
    if run != [] {
      var front, m := run[..|run| - 1], run[|run| - 1];
      PrefixInReach(s.par, s.paws, cfg.rxlimit, run);
      QueueDrainsTraced(cfg, s, front, g);
      var before := QueueRunIsExact(cfg, s, front);
      ElementsNear(s, before, m);
      QueueStepRefines(cfg, s, DecodeAll(cfg, Packets(s, front)).rx, before, m);
      TraceStep(s.par, cfg.rxlimit, run);
    }
  }

  /** Under the same conditions `Decode` takes each group out at most once. */
  lemma {:induction false} QueueDrainsOnce(cfg: Config, s: Sender, run: seq<Idx>, g: nat)
    requires Linked(cfg, s) && AllSent(s, run) && InReach(s.par, s.paws, cfg.rxlimit, run)
    requires s.par.parity < s.par.data && Distinct(run)
    ensures QueueDrains(cfg, s, run, g) <= 1
  {
    assert InGroups(s.par, run);
    QueueDrainsTraced(cfg, s, run, g);
    DrainedAtMostOnce(s.par, cfg.rxlimit, run, g);
  }

  // ----- How often the reader gets each payload

  /** How often `i` occurs. */
  function Count(ix: seq<Idx>, i: Idx): nat {
    if ix == [] then 0 else Count(ix[..|ix| - 1], i) + (if ix[|ix| - 1] == i then 1 else 0)
  }

  lemma CountConcat(a: seq<Idx>, b: seq<Idx>, i: Idx)
    ensures Count(a + b, i) == Count(a, i) + Count(b, i)
  {
    if b == [] {
      assert a + b == a;
    } else {
      assert (a + b)[..|a + b| - 1] == a + b[..|b| - 1];
      CountConcat(a, b[..|b| - 1], i);
    }
  }

  lemma {:induction false} CountAbsent(ix: seq<Idx>, i: Idx)
    requires i !in ix
    ensures Count(ix, i) == 0
  {
    if ix != [] {
      CountAbsent(ix[..|ix| - 1], i);
    }
  }

  lemma LastHandedCount(par: Params, limit: nat, lively: set<nat>, run: seq<Idx>, i: Idx)
    requires run != []
    ensures var m := run[|run| - 1];
            Count(LastHanded(par, limit, lively, run), i)
            == (if i == m && i.k < par.data then 1 else 0)
               + (if i.g in lively then Count(Rebuilt(par, m.g, LastDrained(par, limit, run)), i) else 0)
  {
    var m, drained := run[|run| - 1], LastDrained(par, limit, run);
    var rebuilt := Rebuilt(par, m.g, drained);
    RebuiltElements(par, m.g, drained);
    if i.g != m.g {
      CountAbsent(rebuilt, i);
    }
    var own := if m.k < par.data then [m] else [];
    assert Count(own, i) == if i == m && i.k < par.data then 1 else 0;
    CountConcat(own, if m.g in lively then rebuilt else [], i);
  }

  /** For arrivals in any order, repeated or not: a data packet is handed over as often as it arrived,
      and as often again as it was rebuilt. */
  lemma {:induction false} HandedCount(par: Params, limit: nat, lively: set<nat>, run: seq<Idx>, i: Idx)
    ensures Count(HandedOver(par, limit, lively, run), i)
            == (if i.k < par.data then Count(run, i) else 0)
               + (if i.g in lively then Count(RebuiltAll(par, limit, run), i) else 0)
  {
    if run != [] {
      var front, m := run[..|run| - 1], run[|run| - 1];
      HandedCount(par, limit, lively, front, i);
      LastHandedCount(par, limit, lively, run, i);
      CountConcat(HandedOver(par, limit, lively, front), LastHanded(par, limit, lively, run), i);
      RebuiltAllStep(par, limit, run);
      CountConcat(RebuiltAll(par, limit, front), Rebuilt(par, m.g, LastDrained(par, limit, run)), i);
    }
  }

  /** So with less parity than data and no repeats the reader gets a payload at most twice, and twice
      exactly if its packet arrived and it was rebuilt as well: that is, if it came late. */
  lemma {:induction false} DeliveredCount(cfg: Config, s: Sender, run: seq<Idx>, i: Idx)
    requires Linked(cfg, s) && AllSent(s, run) && InReach(s.par, s.paws, cfg.rxlimit, run)
    requires s.par.parity < s.par.data && Distinct(run) && i.k < s.par.data
    ensures var order := HandedOver(s.par, cfg.rxlimit, Lively(s), run);
            && AllData(s, order) && FeedAll(cfg, Raw(s, run)).Alive?
            && FeedAll(cfg, Raw(s, run)).out == PayloadsAt(s, order)
            && Count(order, i)
               == (if i in run then 1 else 0)
                  + (if i.g in Lively(s) && i in RebuiltAll(s.par, cfg.rxlimit, run) then 1 else 0)
  {
    var ix := RunDelivers(cfg, s, run);
    HandedCount(s.par, cfg.rxlimit, Lively(s), run, i);
    assert InGroups(s.par, run);
    RebuiltAtMostOnce(s.par, cfg.rxlimit, run);
    DistinctCount(run, i);
    DistinctCount(RebuiltAll(s.par, cfg.rxlimit, run), i);
  }

  lemma {:induction false} DistinctCount(ix: seq<Idx>, i: Idx)
    requires Distinct(ix)
    ensures Count(ix, i) == if i in ix then 1 else 0
  {
    if ix != [] {
      var front, last := ix[..|ix| - 1], ix[|ix| - 1];
      assert last !in front;
      DistinctCount(front, i);
    }
  }
}
