/** From the wire to the reader: one packet through the decoder, whole runs, and the end-to-end
    theorem between an encoder and a reader. */
module Delivery {
  import opened Base
  import opened Codec
  import opened Numbering
  import opened QueueDecoder
  import opened QueueRefinement
  import opened Recovery
  import opened Reference
  import opened ReferenceRuns
  import opened Serial
  import opened Sets
  import opened Traffic

  /** Payloads of recovered shards; a shard of at most two bytes is passed over, and a shard whose
      length field does not fit it stops the program. */
  function Strip(rs: seq<Bytes>): (r: Option<seq<Bytes>>)
    ensures r.Some? ==> |r.value| <= |rs|
  {
    if rs == [] then Some([])
    else
      var r, before := rs[|rs| - 1], Strip(rs[..|rs| - 1]);
      if before.None? then None
      else if |r| <= 2 then before
      else if FromLe16(r) < 2 || FromLe16(r) > |r| then None
      else Some(before.value + [r[2..FromLe16(r)]])
  }

  /** A shard longer than two bytes whose length field, in little-endian order, does not fit it. */
  predicate BadShard(r: Bytes) {
    |r| > 2 && (r[0] as int + 256 * (r[1] as int) < 2 || r[0] as int + 256 * (r[1] as int) > |r|)
  }

  /** Recovered shards stop the program exactly if one of them is bad. */
  lemma {:induction false} StripStopsIff(rs: seq<Bytes>)
    ensures Strip(rs).None? <==> exists j :: 0 <= j < |rs| && BadShard(rs[j])
  {
    if rs != [] {
      var front := rs[..|rs| - 1];
      StripStopsIff(front);
      if j :| 0 <= j < |front| && BadShard(front[j]) {
        assert BadShard(rs[j]);
      }
      if j :| 0 <= j < |rs| && BadShard(rs[j]) {
        assert j < |front| ==> BadShard(front[j]);
      }
    }
  }

  /** A packet either stops the program or leaves a queue and payloads for the reader: `direct`
      at once, `queued` behind it. */
  datatype Fed = Panic | Fed(rx: seq<FecPacket>, direct: Option<Bytes>, queued: seq<Bytes>) {
    function Out(): seq<Bytes> {
      if Panic? then [] else (if direct.Some? then [direct.value] else []) + queued
    }
  }

  /** Recovered shards go behind the packet's own payload. */
  function HandOut(rx: seq<FecPacket>, direct: Option<Bytes>, recovered: seq<Bytes>): Fed {
    var payloads := Strip(recovered);
    if payloads.None? then Panic else Fed(rx, direct, payloads.value)
  }

  function Feed(cfg: Config, rx: seq<FecPacket>, raw: Bytes): (r: Fed)
    requires cfg.Valid()
    ensures r.Fed? ==> |r.queued| <= cfg.par.data
  {
    if |raw| < HEADER_SIZE || |raw| > HEADER_SIZE + MTU_LIMIT then Panic
    else
      var pkt := Parse(raw);
      if (pkt.flag == TYPE_DATA && |raw| < HEADER_SIZE + 2) || pkt.flag !in {TYPE_DATA, TYPE_FEC} then Panic
      else
        var e := Plan(cfg, rx, pkt);
        HandOut(e.Apply(rx, pkt), if pkt.flag == TYPE_DATA then Some(raw[8..]) else None, e.Recovered())
  }

  /** Any bytes whatever from the wire: the program stops exactly if they are too short or too long for a
      packet, of neither type, data without a length, or if a recovered shard is bad. */
  lemma {:induction false} FeedStopsIff(cfg: Config, rx: seq<FecPacket>, raw: Bytes)
    requires cfg.Valid()
    ensures Feed(cfg, rx, raw).Panic? <==>
      || |raw| < 6 || |raw| > 2054 || raw[5] != 0 || !(raw[4] == 0xf1 || raw[4] == 0xf2) || (raw[4] == 0xf1 && |raw| < 8)
      || exists j :: 0 <= j < |Plan(cfg, rx, Parse(raw)).Recovered()| && BadShard(Plan(cfg, rx, Parse(raw)).Recovered()[j])
  {
    if 6 <= |raw| <= 2054 {
      assert Parse(raw).flag == raw[4] as int + 256 * (raw[5] as int);
      StripStopsIff(Plan(cfg, rx, Parse(raw)).Recovered());
    }
  }

  /** A whole run of packets: what is queued in the decoder and all payloads handed over. */
  datatype Fate = Stopped | Alive(rx: seq<FecPacket>, out: seq<Bytes>)

  function FeedAll(cfg: Config, raws: seq<Bytes>): Fate
    requires cfg.Valid()
  {
    if raws == [] then Alive([], [])
    else
      var before := FeedAll(cfg, raws[..|raws| - 1]);
      if before.Stopped? then Stopped
      else
        var fed := Feed(cfg, before.rx, raws[|raws| - 1]);
        if fed.Panic? then Stopped else Alive(fed.rx, before.out + fed.Out())
  }

  lemma {:induction false} FeedLast(cfg: Config, raws: seq<Bytes>, rx: seq<FecPacket>, out: seq<Bytes>)
    requires cfg.Valid() && raws != [] && FeedAll(cfg, raws[..|raws| - 1]) == Alive(rx, out)
    ensures var fed := Feed(cfg, rx, raws[|raws| - 1]);
            FeedAll(cfg, raws) == if fed.Panic? then Stopped else Alive(fed.rx, out + fed.Out())
  {}

  // ----- Packets that were really sent

  ghost predicate AllSent(s: Sender, run: seq<Idx>) {
    forall j :: 0 <= j < |run| ==> s.Emitted(run[j])
  }

  /** The bytes on the wire for the arrivals `run`. */
  ghost function Raw(s: Sender, run: seq<Idx>): (r: seq<Bytes>)
    requires s.Valid() && AllSent(s, run)
    ensures |r| == |run|
  {
    seq(|run|, j requires 0 <= j < |run| => Wire(s.Sent(run[j])))
  }

  ghost predicate AllData(s: Sender, ix: seq<Idx>) {
    forall j :: 0 <= j < |ix| ==> s.Emitted(ix[j]) && s.IsData(ix[j])
  }

  /** The payloads given to the encoder at the indices `ix`. */
  ghost function PayloadsAt(s: Sender, ix: seq<Idx>): (r: seq<Bytes>)
    requires s.Valid() && AllData(s, ix)
    ensures |r| == |ix|
  {
    seq(|ix|, j requires 0 <= j < |ix| => s.Payload(ix[j]))
  }

  lemma {:induction false} PayloadsConcat(s: Sender, a: seq<Idx>, b: seq<Idx>)
    requires s.Valid() && AllData(s, a) && AllData(s, b)
    ensures AllData(s, a + b) && PayloadsAt(s, a + b) == PayloadsAt(s, a) + PayloadsAt(s, b)
  {}

  /** Groups with at least one payload that is not empty. */
  ghost function Lively(s: Sender): set<nat>
    requires s.Valid()
  {
    set g: nat | g < |s.groups| && s.ShardLen(g) > 2
  }

  lemma {:induction false} LivelyMeansNonEmpty(s: Sender, g: nat)
    requires s.Valid() && g < |s.groups|
    ensures g in Lively(s) <==> exists k :: 0 <= k < s.par.data && s.groups[g][k] != []
  {
    var raw := RawShards(s.groups[g]);
    assert MaxLen(raw) == s.ShardLen(g);
    var top :| 0 <= top < |raw| && |raw[top]| == MaxLen(raw);
    if g in Lively(s) {
      assert s.groups[g][top] != [];
    }
    if k :| 0 <= k < s.par.data && s.groups[g][k] != [] {
      assert |raw[k]| <= MaxLen(raw);
    }
  }

  lemma {:induction false} StripReads(rs: seq<Bytes>, ps: seq<Bytes>)
    requires |rs| == |ps|
    requires forall j :: 0 <= j < |rs| ==>
      |rs[j]| > 2 && FromLe16(rs[j]) == |ps[j]| + 2 <= |rs[j]| && rs[j][2..FromLe16(rs[j])] == ps[j]
    ensures Strip(rs) == Some(ps)
  {
    if rs != [] {
      StripReads(rs[..|rs| - 1], ps[..|ps| - 1]);
      assert ps == ps[..|ps| - 1] + [ps[|ps| - 1]];
    }
  }

  lemma {:induction false} StripPassesOver(rs: seq<Bytes>)
    requires forall j :: 0 <= j < |rs| ==> |rs[j]| <= 2
    ensures Strip(rs) == Some([])
  {
    if rs != [] {
      StripPassesOver(rs[..|rs| - 1]);
    }
  }

  /** Rebuilt shards of one group give back its payloads, unless all of them are empty. */
  lemma {:induction false} StripShards(s: Sender, g: nat, ix: seq<Idx>)
    requires s.Valid() && AllInWholeGroups(s, ix) && g < |s.groups|
    requires forall j :: 0 <= j < |ix| ==> ix[j].g == g
    ensures AllData(s, ix)
    ensures Strip(Shards(s, ix)) == Some(if g in Lively(s) then PayloadsAt(s, ix) else [])
  {
    var rs, ps := Shards(s, ix), PayloadsAt(s, ix);
    forall j | 0 <= j < |ix|
      ensures |rs[j]| == s.ShardLen(g)
      ensures FromLe16(rs[j]) == |ps[j]| + 2 <= |rs[j]| && rs[j][2..FromLe16(rs[j])] == ps[j]
    {
      s.WordHoldsPayload(ix[j]);
      assert rs[j] == s.Word(g)[ix[j].k];
    }
    if g in Lively(s) {
      StripReads(rs, ps);
    } else {
      StripPassesOver(rs);
    }
  }

  lemma {:induction false} WireHoldsPayload(s: Sender, m: Idx)
    requires s.Valid() && s.Emitted(m) && s.IsData(m)
    ensures |Wire(s.Sent(m))| >= 8 && Wire(s.Sent(m))[8..] == s.Payload(m)
  {
    var w, data := Wire(s.Sent(m)), s.Sent(m).data;
    assert w[6..] == data;
    assert data[2..] == s.Payload(m);
    assert w[8..] == w[6..][2..];
  }

  lemma {:induction false} WireFits(s: Sender, m: Idx)
    requires s.Valid() && s.Emitted(m)
    ensures HEADER_SIZE <= |Wire(s.Sent(m))| <= HEADER_SIZE + MTU_LIMIT
  {}

  lemma {:induction false} FeedWire(cfg: Config, s: Sender, rx: seq<FecPacket>, m: Idx)
    requires Linked(cfg, s) && s.Emitted(m)
    ensures var e := Plan(cfg, rx, s.Sent(m));
            Feed(cfg, rx, Wire(s.Sent(m)))
            == HandOut(e.Apply(rx, s.Sent(m)), if s.IsData(m) then Some(s.Payload(m)) else None, e.Recovered())
  {
    ParseWire(s.Sent(m));
    WireFits(s, m);
    if s.IsData(m) {
      WireHoldsPayload(s, m);
    }
  }

  /** What the packet `m` hands over when it lets the group's packets `rebuilt` be rebuilt. */
  ghost function HandedAt(s: Sender, m: Idx, rebuilt: seq<Idx>): seq<Idx>
    requires s.Valid()
  {
    (if s.IsData(m) then [m] else []) + (if m.g in Lively(s) then rebuilt else [])
  }

  lemma {:induction false} StripRebuilt(s: Sender, m: Idx, rebuilt: seq<Idx>, later: seq<Idx>)
    requires s.Valid() && later == if m.g in Lively(s) then rebuilt else []
    requires AllInWholeGroups(s, rebuilt) && forall j :: 0 <= j < |rebuilt| ==> rebuilt[j].g == m.g
    ensures AllData(s, later) && Strip(Shards(s, rebuilt)) == Some(PayloadsAt(s, later))
  {
    if rebuilt != [] {
      assert rebuilt[0].g == m.g;
      StripShards(s, m.g, rebuilt);
    }
  }

  lemma {:induction false} HandOutPayloads(s: Sender, rx: seq<FecPacket>, m: Idx, rebuilt: seq<Idx>)
    requires s.Valid() && s.Emitted(m)
    requires AllInWholeGroups(s, rebuilt) && forall j :: 0 <= j < |rebuilt| ==> rebuilt[j].g == m.g
    ensures AllData(s, HandedAt(s, m, rebuilt))
    ensures var fed := HandOut(rx, if s.IsData(m) then Some(s.Payload(m)) else None, Shards(s, rebuilt));
            fed.Fed? && fed.rx == rx && fed.Out() == PayloadsAt(s, HandedAt(s, m, rebuilt))
  {
    var direct := if s.IsData(m) then [m] else [];
    var later := if m.g in Lively(s) then rebuilt else [];
    StripRebuilt(s, m, rebuilt, later);
    PayloadsConcat(s, direct, later);
    assert PayloadsAt(s, direct) == if s.IsData(m) then [s.Payload(m)] else [];
  }

  /** One genuine packet: never a stop, and the reader gets the packet's own payload and the
      payloads of what the set decoder rebuilds. */
  lemma {:induction false} FeedGenuine(cfg: Config, s: Sender, rx: seq<FecPacket>, m: Idx, rebuilt: seq<Idx>)
    requires Linked(cfg, s) && s.Emitted(m)
    requires AllInWholeGroups(s, rebuilt) && forall j :: 0 <= j < |rebuilt| ==> rebuilt[j].g == m.g
    requires Plan(cfg, rx, s.Sent(m)).Recovered() == Shards(s, rebuilt)
    ensures AllData(s, HandedAt(s, m, rebuilt))
    ensures var fed := Feed(cfg, rx, Wire(s.Sent(m)));
            && fed.Fed? && fed.rx == Plan(cfg, rx, s.Sent(m)).Apply(rx, s.Sent(m))
            && fed.Out() == PayloadsAt(s, HandedAt(s, m, rebuilt))
  {
    FeedWire(cfg, s, rx, m);
    HandOutPayloads(s, Plan(cfg, rx, s.Sent(m)).Apply(rx, s.Sent(m)), m, rebuilt);
  }

  // ----- Whole runs

  /** Every arrival is within reach of what is held when it comes. */
  ghost predicate InReach(par: Params, paws: U32, limit: nat, run: seq<Idx>) {
    forall j :: 0 <= j < |run| ==> NearHeld(par.Size(), paws, Held(par, limit, run[..j]), run[j])
  }

  ghost predicate NearHeld(n: nat, paws: U32, held: set<Idx>, m: Idx) {
    forall i :: i in held ==> Near(n, paws, m, i)
  }

  lemma PrefixInReach(par: Params, paws: U32, limit: nat, run: seq<Idx>)
    requires run != [] && InReach(par, paws, limit, run)
    ensures InReach(par, paws, limit, run[..|run| - 1])
    ensures NearHeld(par.Size(), paws, Held(par, limit, run[..|run| - 1]), run[|run| - 1])
  {
    var front := run[..|run| - 1];
    forall j | 0 <= j < |front|
      ensures NearHeld(par.Size(), paws, Held(par, limit, front[..j]), front[j])
    {
      assert front[..j] == run[..j];
    }
  }

  /** Arrivals that are all near each other are within reach. */
  lemma NearRunInReach(par: Params, paws: U32, limit: nat, run: seq<Idx>)
    requires forall a, b :: 0 <= a < |run| && 0 <= b < |run| ==> Near(par.Size(), paws, run[a], run[b])
    ensures InReach(par, paws, limit, run)
  {
    forall j, i | 0 <= j < |run| && i in Held(par, limit, run[..j])
      ensures Near(par.Size(), paws, run[j], i)
    {
      assert i in run[..j];
      var a :| 0 <= a < j && run[..j][a] == i;
      assert run[a] == i;
    }
  }

  /** In particular arrivals that were all sent less than 2^31 - 3n apart. */
  lemma CloseRunInReach(par: Params, paws: U32, limit: nat, run: seq<Idx>)
    requires Layout(par.Size(), paws) && InGroups(par, run)
    requires forall a, b :: 0 <= a < |run| && 0 <= b < |run| ==>
      Flat(par.Size(), run[a]) - Flat(par.Size(), run[b]) < TWO_31 - 3 * par.Size()
    ensures InReach(par, paws, limit, run)
  {
    forall a, b | 0 <= a < |run| && 0 <= b < |run|
      ensures Near(par.Size(), paws, run[a], run[b])
    {
      CloseIsNear(par.Size(), paws, run[a], run[b]);
    }
    NearRunInReach(par, paws, limit, run);
  }

  lemma {:induction false} RawPrefix(s: Sender, run: seq<Idx>)
    requires s.Valid() && AllSent(s, run) && run != []
    ensures AllSent(s, run[..|run| - 1])
    ensures Raw(s, run)[..|run| - 1] == Raw(s, run[..|run| - 1])
    ensures Raw(s, run)[|run| - 1] == Wire(s.Sent(run[|run| - 1]))
  {}

  lemma {:induction false} LastHandedIsHandedAt(s: Sender, limit: nat, run: seq<Idx>)
    requires s.Valid() && run != []
    ensures var m := run[|run| - 1];
            LastHanded(s.par, limit, Lively(s), run)
            == HandedAt(s, m, Rebuilt(s.par, m.g, LastDrained(s.par, limit, run)))
  {}

  /** Any run within reach: the decoder never stops, its queue is what the set decoder holds, and
      the reader gets, in order, the payloads at the indices the set decoder hands over. */
  lemma {:induction false} RunDelivers(cfg: Config, s: Sender, run: seq<Idx>) returns (ix: seq<Idx>)
    requires Linked(cfg, s) && AllSent(s, run) && InReach(s.par, s.paws, cfg.rxlimit, run)
    ensures FeedAll(cfg, Raw(s, run)).Alive?
    ensures Tidy(cfg, s, FeedAll(cfg, Raw(s, run)).rx, ix) && Elems(ix) == Held(s.par, cfg.rxlimit, run)
    ensures AllData(s, HandedOver(s.par, cfg.rxlimit, Lively(s), run))
    ensures FeedAll(cfg, Raw(s, run)).out == PayloadsAt(s, HandedOver(s.par, cfg.rxlimit, Lively(s), run))
  {
    if run == [] {
      ix := [];
      EmptyIsTidy(cfg, s);
    } else {
      var front, m := run[..|run| - 1], run[|run| - 1];
      RawPrefix(s, run);
      PrefixInReach(s.par, s.paws, cfg.rxlimit, run);
      var before := RunDelivers(cfg, s, front);
      var rx := FeedAll(cfg, Raw(s, front)).rx;
      ix := StepDelivers(cfg, s, rx, before, m);
      LastHandedIsHandedAt(s, cfg.rxlimit, run);
      PayloadsConcat(s, HandedOver(s.par, cfg.rxlimit, Lively(s), front), LastHanded(s.par, cfg.rxlimit, Lively(s), run));
    }
  }

  lemma {:induction false} EmptyIsTidy(cfg: Config, s: Sender)
    requires Linked(cfg, s)
    ensures Tidy(cfg, s, [], []) && Elems<Idx>([]) == {}
  {
    forall g
      ensures |Group(Elems([]), g)| < s.par.data
    {
      assert Group(Elems([]), g) == {};
    }
  }

  /** One packet, in the terms of the set decoder. */
  lemma {:induction false} StepDelivers(cfg: Config, s: Sender, rx: seq<FecPacket>, before: seq<Idx>, m: Idx) returns (ix: seq<Idx>)
    requires Linked(cfg, s) && s.Emitted(m)
    requires Tidy(cfg, s, rx, before) && NearHeld(s.par.Size(), s.paws, Elems(before), m)
    ensures var fed, r := Feed(cfg, rx, Wire(s.Sent(m))), Receive(s.par, cfg.rxlimit, Elems(before), m);
            var handed := HandedAt(s, m, Rebuilt(s.par, m.g, r.drained));
            && fed.Fed? && Tidy(cfg, s, fed.rx, ix) && Elems(ix) == r.held
            && AllData(s, handed) && fed.Out() == PayloadsAt(s, handed)
  {
    forall j | 0 <= j < |before|
      ensures Near(s.par.Size(), s.paws, m, before[j])
    {
      assert before[j] in Elems(before);
    }
    QueueStepRefines(cfg, s, rx, before, m);
    ix := Plan(cfg, rx, s.Sent(m)).Apply(before, m);
    var drained := Receive(s.par, cfg.rxlimit, Elems(before), m).drained;
    RebuiltInGroup(s.par, m.g, drained);
    FeedGenuine(cfg, s, rx, m, Rebuilt(s.par, m.g, drained));
  }

  lemma RebuiltInGroup(par: Params, g: nat, drained: set<Idx>)
    ensures var rebuilt := Rebuilt(par, g, drained);
            forall j :: 0 <= j < |rebuilt| ==> rebuilt[j].g == g
  {
    RebuiltElements(par, g, drained);
    var rebuilt := Rebuilt(par, g, drained);
    assert forall j :: 0 <= j < |rebuilt| ==> rebuilt[j] in rebuilt;
  }

  /** End to end, with less parity than data: for any payloads and any packets of the stream
      that arrive in order, the reader is handed exactly the payloads it is owed, each once and
      byte for byte: those whose packet arrived, and all payloads of every group of which at least
      `data` packets arrived. (A group of empty payloads only has nothing to rebuild.) */
  lemma {:induction false} EndToEnd(cfg: Config, s: Sender, run: seq<Idx>)
    requires Linked(cfg, s) && AllSent(s, run) && InReach(s.par, s.paws, cfg.rxlimit, run)
    requires InOrder(run) && s.par.parity < s.par.data
    ensures var order := HandedOver(s.par, cfg.rxlimit, Lively(s), run);
            && FeedAll(cfg, Raw(s, run)).Alive?
            && AllData(s, order) && FeedAll(cfg, Raw(s, run)).out == PayloadsAt(s, order)
            && Distinct(order)
            && forall i :: i in order <==> Owed(s.par, Lively(s), run, i)
  {
    var ix := RunDelivers(cfg, s, run);
    HandsOverOnce(s.par, cfg.rxlimit, Lively(s), run);
  }
}
