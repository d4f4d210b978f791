/** The second decoder: packets wait in one heap per group, found by group number, and the
    parameters are detected anew when packet types and positions disagree. */
module ShardMap {
  import opened AutoTune
  import opened Base
  import opened Codec
  import opened QueueDecoder
  import opened Serial
  import opened Traffic

  const MAX_SHARD_SETS: int := 3

  /** `Push` appends and `Pop` takes the last, without ordering by sequence number. */
  datatype Heap = Heap(elements: seq<FecPacket>, marks: set<U32>) {
    function Push(pkt: FecPacket): Heap {
      Heap(elements + [pkt], marks + {pkt.seqid})
    }

    function Top(): FecPacket
      requires elements != []
    {
      elements[|elements| - 1]
    }

    function Pop(): Heap
      requires elements != []
    {
      Heap(elements[..|elements| - 1], marks - {Top().seqid})
    }

    predicate Has(num: U32) {
      num in marks
    }

    function Emptied(): (r: Heap)
      ensures r.elements == []
      decreases |elements|
    {
      if elements == [] then this else Pop().Emptied()
    }
  }

  datatype State = State(par: Params, sets: map<U32, Heap>, minShard: U32, cacheLen: nat, codec: Codec,
                         shouldTune: bool, pulses: seq<Pulse>) {
    /** Whenever packets are stored, codec and caches belong to the parameters. */
    ghost predicate Ready() {
      && par.Valid() && |pulses| == SAMPLES
      && (shouldTune || (Erasure(codec, par) && cacheLen == par.Size()))
    }

    function Cfg(): Config {
      Config(par, par.Size(), codec)
    }

    function HeapAt(id: U32): Heap {
      if id in sets then sets[id] else Heap([], {})
    }
  }

  /** A decoder as it is constructed. */
  function NewState(par: Params, codec: Codec): State {
    State(par, map[], 0, par.Size(), codec, false, NewPulses())
  }

  // ----- Parameter detection

  predicate Mistyped(par: Params, pkt: FecPacket)
    requires par.Valid()
  {
    pkt.flag != if pkt.seqid % par.Size() < par.data then TYPE_DATA else TYPE_FEC
  }

  function Sense(st: State, pkt: FecPacket): (r: State)
    requires st.Ready()
    ensures r.Ready()
  {
    st.(pulses := Sampled(st.pulses, pkt.flag == TYPE_DATA, pkt.seqid),
        shouldTune := st.shouldTune || Mistyped(st.par, pkt))
  }

  function Detected(pulses: seq<Pulse>): (r: Option<Params>)
    requires |pulses| == SAMPLES
    ensures r.Some? ==> r.value.Valid()
  {
    var ds, ps := Period(pulses, true), Period(pulses, false);
    if 0 < ds < 256 && 0 < ps < 256 then Some(Params(ds, ps)) else None
  }

  function Adopt(make: Factory, st: State, q: Params): State {
    match make(q.data, q.parity)
    case None => st.(par := q, sets := map[])
    case Some(c) => st.(par := q, sets := map[], codec := c, cacheLen := q.Size(), shouldTune := false)
  }

  function Retune(make: Factory, st: State): (r: State)
    requires Lawful(make) && st.Ready() && st.shouldTune
    ensures r.Ready()
  {
    var q := Detected(st.pulses);
    if q.None? || q.value == st.par then st else Adopt(make, st, q.value)
  }

  // ----- Storing a packet

  /** All packets of a heap, popped one by one into the caches. */
  function Gather(n: nat, elements: seq<FecPacket>, a: Assembly): (r: Assembly)
    requires n > 0 && a.Fits(n)
    ensures r.Fits(n)
    decreases |elements|
  {
    if elements == [] then a
    else Gather(n, elements[..|elements| - 1], a.Take(n, 0, elements[|elements| - 1]))
  }

  /** What a heap with enough packets gives. */
  function Yield(cfg: Config, elements: seq<FecPacket>): (r: seq<Bytes>)
    requires cfg.Valid()
    ensures |r| <= cfg.par.data
  {
    var a := Gather(cfg.par.Size(), elements, EmptyAssembly(cfg.par.Size()));
    if a.numData == cfg.par.data then [] else Rebuild(cfg, a)
  }

  function Flushed(sets: map<U32, Heap>, minShard: U32): map<U32, Heap> {
    map id | id in sets && Diff(minShard, id) <= MAX_SHARD_SETS :: sets[id]
  }

  datatype Outcome = Outcome(state: State, recovered: seq<Bytes>)

  /** Number of the group that a packet belongs to. */
  function GroupId(par: Params, num: U32): U32
    requires par.Valid()
  {
    num / par.Size()
  }

  predicate Outdated(st: State, id: U32) {
    Diff(id, st.minShard) < 0
  }

  /** The heap of group `id` is put back; the newest group moves up, and old groups go. */
  function Put(st: State, id: U32, h: Heap): State {
    var minShard := if Diff(id, st.minShard) > 0 then id else st.minShard;
    st.(sets := Flushed(st.sets[id := h], minShard), minShard := minShard)
  }

  /** The packet is stored and completes its heap. */
  predicate Completes(st: State, id: U32, pkt: FecPacket) {
    !Outdated(st, id) && !st.HeapAt(id).Has(pkt.seqid) && |st.HeapAt(id).Push(pkt).elements| >= st.par.data
  }

  /** A packet filed under group `id`. */
  function StoreAt(st: State, id: U32, pkt: FecPacket): (r: Outcome)
    requires st.Ready() && !st.shouldTune
    ensures r.state.Ready()
  {
    if Outdated(st, id) || st.HeapAt(id).Has(pkt.seqid) then Outcome(st, [])
    else
      var full := st.HeapAt(id).Push(pkt);
      if |full.elements| >= st.par.data then Outcome(Put(st, id, full.Emptied()), Yield(st.Cfg(), full.elements))
      else Outcome(Put(st, id, full), [])
  }

  function Store(st: State, pkt: FecPacket): (r: Outcome)
    requires st.Ready() && !st.shouldTune
    ensures r.state.Ready()
  {
    StoreAt(st, GroupId(st.par, pkt.seqid), pkt)
  }

  /** One packet. */
  function Step(make: Factory, st: State, pkt: FecPacket): (r: Outcome)
    requires Lawful(make) && st.Ready()
    ensures r.state.Ready()
  {
    var sensed := Sense(st, pkt);
    if sensed.shouldTune then Outcome(Retune(make, sensed), []) else Store(sensed, pkt)
  }

  class ShardDecoder {
    const make: Factory
    const tuner: Tuner
    var par: Params
    var sets: map<U32, Heap>
    var minShard: U32
    var decodeCache: array<Option<Bytes>>
    var flagCache: array<bool>
    var codec: Codec
    var shouldTune: bool

    ghost function View(): State
      reads this, tuner.pulses
    {
      State(par, sets, minShard, decodeCache.Length, codec, shouldTune, tuner.pulses[..])
    }

    ghost predicate Valid()
      reads this, tuner.pulses
    {
      Lawful(make) && tuner.Valid() && flagCache.Length == decodeCache.Length && View().Ready()
    }

    constructor (par: Params, codec: Codec, make: Factory)
      requires Lawful(make) && par.Valid() && make(par.data, par.parity) == Some(codec)
      ensures Valid() && this.make == make && View() == NewState(par, codec)
      ensures fresh(tuner) && fresh(tuner.pulses) && fresh(decodeCache) && fresh(flagCache)
    {
      this.par, this.codec, this.make := par, codec, make;
      sets, minShard, shouldTune := map[], 0, false;
      tuner := new Tuner();
      decodeCache := new Option<Bytes>[par.Size()](_ => None);
      flagCache := new bool[par.Size()](_ => false);
    }

    method SensePacket(pkt: FecPacket)
      requires Valid()
      modifies this`shouldTune, tuner.pulses
      ensures Valid() && View() == Sense(old(View()), pkt)
    {
      tuner.Sample(pkt.flag == TYPE_DATA, pkt.seqid);
      if pkt.seqid % par.Size() < par.data {
        if pkt.flag != TYPE_DATA {
          shouldTune := true;
        }
      } else {
        if pkt.flag != TYPE_FEC {
          shouldTune := true;
        }
      }
    }

    method AdoptParameters(q: Params)
      requires Valid() && shouldTune && q.Valid()
      modifies this
      ensures Valid() && View() == Adopt(make, old(View()), q)
      ensures decodeCache == old(decodeCache) || fresh(decodeCache)
      ensures flagCache == old(flagCache) || fresh(flagCache)
    {
      par := q;
      sets := map[];
      var c := make(q.data, q.parity);
      if c.None? {
        return;
      }
      codec := c.value;
      decodeCache := new Option<Bytes>[q.Size()](_ => None);
      flagCache := new bool[q.Size()](_ => false);
      shouldTune := false;
    }

    method TuneParameters()
      requires Valid() && shouldTune
      modifies this
      ensures Valid() && View() == Retune(make, old(View()))
      ensures decodeCache == old(decodeCache) || fresh(decodeCache)
      ensures flagCache == old(flagCache) || fresh(flagCache)
    {
      var autoDS := tuner.FindPeriod(true);
      var autoPS := tuner.FindPeriod(false);
      if autoDS > 0 && autoPS > 0 && autoDS < 256 && autoPS < 256 {
        if autoDS != par.data || autoPS != par.parity {
          AdoptParameters(Params(autoDS, autoPS));
        }
      }
    }

    /** Pop the packets of a heap into the caches. */
    method PopAll(h: Heap) returns (ghost a: Assembly, numData: nat, maxLen: nat, left: Heap)
      requires Valid() && !shouldTune
      requires CachesShow(decodeCache, flagCache, EmptyAssembly(par.Size()))
      modifies decodeCache, flagCache
      ensures a == Gather(par.Size(), h.elements, EmptyAssembly(par.Size())) && left == h.Emptied()
      ensures CachesShow(decodeCache, flagCache, a)
      ensures numData == a.numData && maxLen == a.maxLen
    {
      var n := par.Size();
      numData, maxLen, left := 0, 0, h;
      a := EmptyAssembly(n);
      while left.elements != []
        invariant a.Fits(n) && CachesShow(decodeCache, flagCache, a)
        invariant numData == a.numData && maxLen == a.maxLen
        invariant Gather(n, h.elements, EmptyAssembly(n)) == Gather(n, left.elements, a)
        invariant h.Emptied() == left.Emptied()
        decreases |left.elements|
      {
        var pkt := left.Top();
        left := left.Pop();
        decodeCache[pkt.seqid % n] := Some(pkt.data);
        flagCache[pkt.seqid % n] := true;
        if pkt.flag == TYPE_DATA {
          numData := numData + 1;
        }
        if |pkt.data| > maxLen {
          maxLen := |pkt.data|;
        }
        a := a.Take(n, 0, pkt);
      }
    }

    method DrainHeap(h: Heap) returns (recovered: seq<Bytes>, left: Heap)
      requires Valid() && !shouldTune
      modifies decodeCache, flagCache
      ensures recovered == Yield(View().Cfg(), h.elements) && left == h.Emptied()
    {
      recovered := [];
      ClearCaches(decodeCache, flagCache);
      ghost var a;
      var numData, maxLen;
      a, numData, maxLen, left := PopAll(h);
      if numData != par.data {
        var shards := PadShards(decodeCache, a, maxLen);
        recovered := Recover(Config(par, par.Size(), codec), flagCache, a, shards);
      }
    }

    method FlushShards()
      modifies this`sets
      ensures sets == Flushed(old(sets), minShard)
      ensures forall id :: id in sets <==> id in old(sets) && Diff(minShard, id) <= 3
    {
      var ids := sets.Keys;
      ghost var before := sets;
      while ids != {}
        invariant ids <= sets.Keys <= before.Keys
        invariant forall id :: id in before && (id in ids || Diff(minShard, id) <= MAX_SHARD_SETS) ==>
          id in sets && sets[id] == before[id]
        invariant forall id :: id in sets && id !in ids ==> Diff(minShard, id) <= MAX_SHARD_SETS
        decreases ids
      {
        var id :| id in ids;
        ids := ids - {id};
        if Diff(minShard, id) > MAX_SHARD_SETS {
          sets := sets - {id};
        }
      }
    }

    method PutHeap(id: U32, shard: Heap)
      modifies this`sets, this`minShard
      ensures View() == Put(old(View()), id, shard)
    {
      sets := sets[id := shard];
      if Diff(id, minShard) > 0 {
        minShard := id;
      }
      FlushShards();
    }

    method StorePacket(id: U32, pkt: FecPacket) returns (recovered: seq<Bytes>)
      requires Valid() && !shouldTune
      modifies this`sets, this`minShard, decodeCache, flagCache
      ensures Valid()
      ensures Outcome(View(), recovered) == StoreAt(old(View()), id, pkt)
    {
      recovered := [];
      if Diff(id, minShard) < 0 {
        return;
      }
      var shard := if id in sets then sets[id] else Heap([], {});
      if shard.Has(pkt.seqid) {
        return;
      }
      shard := shard.Push(pkt);
      if |shard.elements| >= par.data {
        recovered, shard := DrainHeap(shard);
      }
      PutHeap(id, shard);
    }

    method Decode(pkt: FecPacket) returns (recovered: seq<Bytes>)
      requires Valid()
      modifies this, tuner.pulses, decodeCache, flagCache
      ensures Valid()
      ensures Outcome(View(), recovered) == Step(make, old(View()), pkt)
      ensures decodeCache == old(decodeCache) || fresh(decodeCache)
      ensures flagCache == old(flagCache) || fresh(flagCache)
    {
      SensePacket(pkt);
      if shouldTune {
        TuneParameters();
        return [];
      }
      recovered := StorePacket(GroupId(par, pkt.seqid), pkt);
    }
  }

  /** A new decoder, or none for shard counts that are not positive or have no codec. */
  method NewShardDecoder(dataShards: int, parityShards: int, make: Factory) returns (dec: ShardDecoder?)
    requires Lawful(make)
    ensures dec == null <==> dataShards <= 0 || parityShards <= 0 || make(dataShards, parityShards).None?
    ensures dec != null ==>
      && fresh(dec) && fresh(dec.tuner) && fresh(dec.tuner.pulses) && fresh(dec.decodeCache) && fresh(dec.flagCache)
      && dec.Valid() && dec.make == make
      && dec.View() == NewState(Params(dataShards, parityShards), make(dataShards, parityShards).value)
  {
    if dataShards <= 0 || parityShards <= 0 {
      return null;
    }
    var codec := make(dataShards, parityShards);
    if codec.None? {
      return null;
    }
    dec := new ShardDecoder(Params(dataShards, parityShards), codec.value, make);
  }
}
