/** What every run of the second decoder keeps, for packets of any content whatever. */
module ShardMapRuns {
  import opened Arith
  import opened AutoTune
  import opened Base
  import opened Codec
  import opened Serial
  import opened Sets
  import opened ShardMap
  import opened Traffic

  // ----- One heap

  function Nums(es: seq<FecPacket>): set<U32> {
    if es == [] then {} else Nums(es[..|es| - 1]) + {es[|es| - 1].seqid}
  }

  ghost predicate Apart(es: seq<FecPacket>) {
    es != [] ==> Apart(es[..|es| - 1]) && es[|es| - 1].seqid !in Nums(es[..|es| - 1])
  }

  /** A packet of group `id`, of the type that its position asks for. */
  ghost predicate Belongs(par: Params, id: U32, pkt: FecPacket)
    requires par.Valid()
  {
    GroupId(par, pkt.seqid) == id && !Mistyped(par, pkt)
  }

  ghost predicate AllBelong(par: Params, id: U32, es: seq<FecPacket>)
    requires par.Valid()
  {
    forall j :: 0 <= j < |es| ==> Belongs(par, id, es[j])
  }

  /** A heap between packets: fewer packets of its group than would complete it, no number twice,
      and the marks tell exactly which numbers. */
  ghost predicate HeapOk(par: Params, id: U32, h: Heap)
    requires par.Valid()
  {
    |h.elements| < par.data && h.marks == Nums(h.elements) && Apart(h.elements) && AllBelong(par, id, h.elements)
  }

  lemma PushApart(h: Heap, pkt: FecPacket)
    requires h.marks == Nums(h.elements) && Apart(h.elements) && !h.Has(pkt.seqid)
    ensures var r := h.Push(pkt); r.marks == Nums(r.elements) && Apart(r.elements)
  {
    assert h.Push(pkt).elements[..|h.elements|] == h.elements;
  }

  /** Popping everything leaves a heap as good as new. */
  lemma {:induction false} EmptiedIsNew(h: Heap)
    requires h.marks == Nums(h.elements) && Apart(h.elements)
    ensures h.Emptied() == Heap([], {})
    decreases |h.elements|
  {
    if h.elements != [] {
      assert h.Pop().marks == Nums(h.Pop().elements);
      EmptiedIsNew(h.Pop());
    }
  }

  // ----- The map of heaps

  lemma GroupNumberIsSmall(x: U32, n: nat)
    requires n >= 2
    ensures 0 <= x / n < TWO_31
  {
    var q := x / n;
    assert q * n <= x;
    MulMono(2, n, q);
    assert 2 * q <= n * q;
  }

  lemma PlainDiff(a: U32, b: U32)
    requires a < TWO_31 && b < TWO_31
    ensures Diff(a, b) == a - b
  {}

  /** The state between packets: at most the newest four groups, each with a good heap, and codec
      and caches that fit the parameters unless tuning is under way. */
  ghost predicate Orderly(st: State) {
    && st.Ready() && st.minShard < TWO_31
    && forall id :: id in st.sets ==>
         id <= st.minShard <= id + MAX_SHARD_SETS && HeapOk(st.par, id, st.sets[id])
  }

  /** A packet is refused as outdated exactly if its group number is below the newest seen,
      whatever its age: the comparison is never by serial order. */
  lemma {:induction false} OutdatedExact(st: State, num: U32)
    requires Orderly(st)
    ensures GroupId(st.par, num) < TWO_31
    ensures Outdated(st, GroupId(st.par, num)) <==> GroupId(st.par, num) < st.minShard
  {
    GroupNumberIsSmall(num, st.par.Size());
    PlainDiff(GroupId(st.par, num), st.minShard);
  }

  /** The heap of group `id` after a packet joined it. */
  function NewHeap(st: State, id: U32, pkt: FecPacket): Heap {
    var full := st.HeapAt(id).Push(pkt);
    if |full.elements| >= st.par.data then full.Emptied() else full
  }

  lemma {:induction false} NewHeapOk(st: State, id: U32, pkt: FecPacket)
    requires Orderly(st) && Belongs(st.par, id, pkt) && !st.HeapAt(id).Has(pkt.seqid)
    ensures HeapOk(st.par, id, NewHeap(st, id, pkt))
    ensures |st.HeapAt(id).elements| + 1 >= st.par.data ==> NewHeap(st, id, pkt) == Heap([], {})
  {
    var h := st.HeapAt(id);
    assert HeapOk(st.par, id, h);
    PushApart(h, pkt);
    EmptiedIsNew(h.Push(pkt));
  }

  lemma FlushKeepsNewest(par: Params, sets: map<U32, Heap>, minShard: U32)
    requires par.Valid() && minShard < TWO_31
    requires forall id :: id in sets ==> id <= minShard && HeapOk(par, id, sets[id])
    ensures forall id :: id in Flushed(sets, minShard) ==>
      id <= minShard <= id + MAX_SHARD_SETS && HeapOk(par, id, sets[id])
  {
    forall id | id in Flushed(sets, minShard)
      ensures id <= minShard <= id + MAX_SHARD_SETS && HeapOk(par, id, sets[id])
    {
      PlainDiff(minShard, id);
    }
  }

  lemma {:induction false} PutKeepsOrder(st: State, id: U32, h: Heap)
    requires Orderly(st) && st.minShard <= id < TWO_31 && HeapOk(st.par, id, h)
    ensures Orderly(Put(st, id, h)) && Put(st, id, h).minShard == id
  {
    PlainDiff(id, st.minShard);
    FlushKeepsNewest(st.par, st.sets[id := h], id);
  }

  lemma {:induction false} StoreKeepsOrder(st: State, id: U32, pkt: FecPacket)
    requires Orderly(st) && !st.shouldTune && id < TWO_31 && Belongs(st.par, id, pkt)
    ensures Orderly(StoreAt(st, id, pkt).state)
    ensures StoreAt(st, id, pkt).state.minShard >= st.minShard
  {
    PlainDiff(id, st.minShard);
    if !Outdated(st, id) && !st.HeapAt(id).Has(pkt.seqid) {
      NewHeapOk(st, id, pkt);
      PutKeepsOrder(st, id, NewHeap(st, id, pkt));
    }
  }

  lemma {:induction false} RetuneKeepsOrder(make: Factory, st: State)
    requires Lawful(make) && Orderly(st) && st.shouldTune
    ensures Orderly(Retune(make, st)) && Retune(make, st).minShard == st.minShard
  {}

  lemma {:induction false} StepKeepsOrder(make: Factory, st: State, pkt: FecPacket)
    requires Lawful(make) && Orderly(st)
    ensures Orderly(Step(make, st, pkt).state)
    ensures Step(make, st, pkt).state.minShard >= st.minShard
  {
    var sensed := Sense(st, pkt);
    assert Orderly(sensed);
    if sensed.shouldTune {
      RetuneKeepsOrder(make, sensed);
    } else {
      OutdatedExact(sensed, pkt.seqid);
      StoreKeepsOrder(sensed, GroupId(st.par, pkt.seqid), pkt);
    }
  }

  // ----- Whole runs

  /** State after packets of any content, and everything handed out. */
  function Run(make: Factory, st: State, pkts: seq<FecPacket>): (r: Outcome)
    requires Lawful(make) && st.Ready()
    ensures r.state.Ready()
  {
    if pkts == [] then Outcome(st, [])
    else
      var before := Run(make, st, pkts[..|pkts| - 1]);
      var last := Step(make, before.state, pkts[|pkts| - 1]);
      Outcome(last.state, before.recovered + last.recovered)
  }

  /** One more packet. */
  lemma {:induction false} RunOneMore(make: Factory, st: State, pkts: seq<FecPacket>, front: seq<FecPacket>, last: FecPacket)
    requires Lawful(make) && st.Ready() && pkts == front + [last]
    ensures Follow(Run(make, st, front), Step(make, Run(make, st, front).state, last), Run(make, st, pkts))
  {
    assert pkts[..|pkts| - 1] == front && pkts[|pkts| - 1] == last;
  }

  /** `whole` is what `second` does after `first`. */
  ghost predicate Follow(first: Outcome, second: Outcome, whole: Outcome) {
    whole == Outcome(second.state, first.recovered + second.recovered)
  }

  lemma FollowOneMore(first: Outcome, middle: Outcome, last: Outcome, second: Outcome, part: Outcome, whole: Outcome)
    requires Follow(first, middle, part) && Follow(middle, last, second) && Follow(part, last, whole)
    ensures Follow(first, second, whole)
  {
    assert (first.recovered + middle.recovered) + last.recovered == first.recovered + (middle.recovered + last.recovered);
  }

  lemma FollowNothing(first: Outcome, second: Outcome)
    requires second == Outcome(first.state, [])
    ensures Follow(first, second, first)
  {
    assert first.recovered + [] == first.recovered;
  }

  lemma {:induction false} RunFurther(make: Factory, st: State, mid: State, af: seq<FecPacket>, front: seq<FecPacket>, last: FecPacket,
                                      first: Outcome, b: seq<FecPacket>, ab: seq<FecPacket>)
    requires Lawful(make) && st.Ready() && mid.Ready() && b == front + [last] && ab == af + [last]
    requires Follow(first, Run(make, mid, front), Run(make, st, af))
    ensures Follow(first, Run(make, mid, b), Run(make, st, ab))
  {
    var middle, part := Run(make, mid, front), Run(make, st, af);
    RunOneMore(make, mid, b, front, last);
    RunOneMore(make, st, ab, af, last);
    FollowOneMore(first, middle, Step(make, middle.state, last), Run(make, mid, b), part, Run(make, st, ab));
  }

  /** A run after a run. */
  lemma {:induction false} RunConcat(make: Factory, st: State, a: seq<FecPacket>, b: seq<FecPacket>, ab: seq<FecPacket>)
    requires Lawful(make) && st.Ready() && ab == a + b
    ensures Follow(Run(make, st, a), Run(make, Run(make, st, a).state, b), Run(make, st, ab))
    decreases |b|
  {
    var first := Run(make, st, a);
    if b == [] {
      assert ab == a;
      FollowNothing(first, Run(make, first.state, b));
    } else {
      var front, last := SplitLast(b);
      var af := a + front;
      assert ab == af + [last];
      RunConcat(make, st, a, front, af);
      RunFurther(make, st, first.state, af, front, last, first, b, ab);
    }
  }

  /** Whatever arrives, including packets that make it retune and parameters for which no codec
      can be built, the decoder stays orderly and its newest group never goes back. */
  lemma {:induction false} RunKeepsOrder(make: Factory, st: State, pkts: seq<FecPacket>)
    requires Lawful(make) && Orderly(st)
    ensures Orderly(Run(make, st, pkts).state)
    ensures Run(make, st, pkts).state.minShard >= st.minShard
  {
    if pkts != [] {
      RunKeepsOrder(make, st, pkts[..|pkts| - 1]);
      StepKeepsOrder(make, Run(make, st, pkts[..|pkts| - 1]).state, pkts[|pkts| - 1]);
    }
  }

  ghost function Any(ids: set<U32>): (r: U32)
    requires ids != {}
    ensures r in ids
  {
    var id :| id in ids;
    id
  }

  /** Number of packets in the given heaps. */
  ghost function Stored(sets: map<U32, Heap>, ids: set<U32>): nat
    requires ids <= sets.Keys
  {
    if ids == {} then 0
    else
      |sets[Any(ids)].elements| + Stored(sets, ids - {Any(ids)})
  }

  lemma {:induction false} StoredBound(sets: map<U32, Heap>, ids: set<U32>, each: nat)
    requires ids <= sets.Keys
    requires forall id :: id in ids ==> |sets[id].elements| <= each
    ensures Stored(sets, ids) <= |ids| * each
    decreases ids
  {
    if ids != {} {
      var rest := ids - {Any(ids)};
      StoredBound(sets, rest, each);
      assert |ids| == |rest| + 1;
      assert (|rest| + 1) * each == |rest| * each + each;
    }
  }

  lemma {:induction false} FewNumbers(ids: set<U32>, lo: nat, count: nat)
    requires forall id :: id in ids ==> lo <= id < lo + count
    ensures |ids| <= count
  {
    if count > 0 {
      FewNumbers(ids - {lo + count - 1}, lo, count - 1);
    }
  }

  /** The decoder never stores more than four groups' worth of incomplete groups. */
  lemma {:induction false} StorageIsBounded(st: State)
    requires Orderly(st)
    ensures |st.sets| <= 4
    ensures Stored(st.sets, st.sets.Keys) <= 4 * (st.par.data - 1)
  {
    var lo: nat := if st.minShard >= MAX_SHARD_SETS then st.minShard - MAX_SHARD_SETS else 0;
    FewNumbers(st.sets.Keys, lo, MAX_SHARD_SETS + 1);
    StoredBound(st.sets, st.sets.Keys, st.par.data - 1);
    MulMono(|st.sets.Keys|, MAX_SHARD_SETS + 1, st.par.data - 1);
  }

  // ----- Refused packets

  /** A run of packets from groups below the newest leaves no trace but the samples and hands out
      nothing. After the numbers wrap this is every packet up to the last group of the new pass;
      after a change to larger groups, every packet until the group numbers have caught up. */
  lemma {:induction false} StaleRunIsSilent(make: Factory, st: State, pkts: seq<FecPacket>)
    requires Lawful(make) && Orderly(st) && !st.shouldTune
    requires forall j :: 0 <= j < |pkts| ==>
      !Mistyped(st.par, pkts[j]) && GroupId(st.par, pkts[j].seqid) < st.minShard
    ensures var r := Run(make, st, pkts);
            r.recovered == [] && r.state == st.(pulses := r.state.pulses)
  {
    if pkts != [] {
      StaleRunIsSilent(make, st, pkts[..|pkts| - 1]);
      var before := Run(make, st, pkts[..|pkts| - 1]).state;
      OutdatedExact(Sense(before, pkts[|pkts| - 1]), pkts[|pkts| - 1].seqid);
    }
  }

  // ----- Tuning

  /** Tuning ends exactly when other parameters than the present ones are detected and a codec
      for them can be built; until then nothing is handed out. */
  lemma {:induction false} TuningEnds(make: Factory, st: State, pkt: FecPacket)
    requires Lawful(make) && st.Ready() && st.shouldTune
    ensures var r, q := Step(make, st, pkt), Detected(Sense(st, pkt).pulses);
            && r.recovered == []
            && (!r.state.shouldTune <==> q.Some? && q.value != st.par && make(q.value.data, q.value.parity).Some?)
            && (!r.state.shouldTune ==> r.state.par == q.value && r.state.sets == map[])
  {}

  function SampleOf(pkt: FecPacket): Pulse {
    Pulse(pkt.flag == TYPE_DATA, pkt.seqid)
  }

  function Samples(pkts: seq<FecPacket>): (r: seq<Pulse>)
    ensures |r| == |pkts|
  {
    if pkts == [] then [] else Samples(pkts[..|pkts| - 1]) + [SampleOf(pkts[|pkts| - 1])]
  }

  /** At no point of the run are other parameters than `par` detected. */
  ghost predicate NothingElseDetected(par: Params, pulses: seq<Pulse>, pkts: seq<FecPacket>)
    requires |pulses| == SAMPLES
  {
    pkts != [] ==>
      && NothingElseDetected(par, pulses, pkts[..|pkts| - 1])
      && Detected(SampleAll(pulses, Samples(pkts))) in {None, Some(par)}
  }

  /** Once tuning, the decoder is silent for as long as detection confirms the parameters it
      already has or finds none. One packet of the wrong type is enough to get there. */
  lemma {:induction false} ConfirmedTuningNeverEnds(make: Factory, st: State, pkts: seq<FecPacket>)
    requires Lawful(make) && st.Ready() && st.shouldTune && NothingElseDetected(st.par, st.pulses, pkts)
    ensures Run(make, st, pkts) == Outcome(st.(pulses := SampleAll(st.pulses, Samples(pkts))), [])
  {
    if pkts != [] {
      ConfirmedTuningNeverEnds(make, st, pkts[..|pkts| - 1]);
      assert Samples(pkts)[..|pkts| - 1] == Samples(pkts[..|pkts| - 1]);
    }
  }

  /** The sample buffer takes in none of these packets. */
  ghost predicate PastSampling(pulses: seq<Pulse>, pkts: seq<FecPacket>)
    requires |pulses| == SAMPLES
  {
    pulses[0].num + SAMPLES < TWO_32 && forall j :: 0 <= j < |pkts| ==> pkts[j].seqid > pulses[0].num + SAMPLES
  }

  lemma {:induction false} PastIsNotSampled(st: State, pkt: FecPacket)
    requires st.Ready() && st.shouldTune && st.pulses[0].num + SAMPLES < TWO_32 && pkt.seqid > st.pulses[0].num + SAMPLES
    ensures Sense(st, pkt) == st
  {
    assert Add(st.pulses[0].num, SAMPLES) == st.pulses[0].num + SAMPLES;
  }

  /** Tuning once more on the same samples changes nothing. */
  lemma {:induction false} RetuneTwice(make: Factory, st: State)
    requires Lawful(make) && st.Ready() && st.shouldTune && Retune(make, st).shouldTune
    ensures Retune(make, Retune(make, st)) == Retune(make, st) && Retune(make, st).pulses == st.pulses
  {}

  /** Once the traffic is past the sample buffer, one look at the buffer tells for good: tuning ends at
      the next packet exactly if other parameters are detected now and their codec can be built; otherwise
      it never ends, and nothing is handed out again. */
  lemma {:induction false} TuningEndsNowOrNever(make: Factory, st: State, pkts: seq<FecPacket>)
    requires Lawful(make) && st.Ready() && st.shouldTune && pkts != [] && PastSampling(st.pulses, pkts)
    ensures var q := Detected(st.pulses);
            if q.Some? && q.value != st.par && make(q.value.data, q.value.parity).Some?
            then !Step(make, st, pkts[0]).state.shouldTune && Step(make, st, pkts[0]).recovered == []
            else Run(make, st, pkts) == Outcome(Retune(make, st), []) && Retune(make, st).shouldTune
    decreases |pkts|
  {
    PastIsNotSampled(st, pkts[0]);
    if Retune(make, st).shouldTune {
      var front, last := pkts[..|pkts| - 1], pkts[|pkts| - 1];
      RetuneTwice(make, st);
      if front == [] {
        assert Run(make, st, front) == Outcome(st, []);
      } else {
        TuningEndsNowOrNever(make, st, front);
        PastIsNotSampled(Retune(make, st), last);
      }
    }
  }

  lemma NothingDetected(pulses: seq<Pulse>)
    requires pulses == NewPulses()
    ensures Detected(pulses) == None
  {
    assert !Follows(pulses[0], pulses[1]);
    NoEdges(pulses, true, 1);
    assert RightEdge(pulses, true, 1) == -1;
  }

  lemma {:induction false} NoEdges(pulses: seq<Pulse>, bit: bool, idx: nat)
    requires pulses == NewPulses() && 1 <= idx <= |pulses|
    ensures LeftEdge(pulses, bit, idx) == 0
    decreases |pulses| - idx
  {
    if idx < |pulses| {
      NoEdges(pulses, bit, idx + 1);
    }
  }

  lemma {:induction false} WrongPacketTunes(make: Factory, st: State, pkt: FecPacket)
    requires Lawful(make) && st.Ready() && st.pulses == NewPulses() && Mistyped(st.par, pkt) && pkt.seqid > SAMPLES
    ensures Step(make, st, pkt) == Outcome(st.(shouldTune := true), [])
  {
    NothingDetected(st.pulses);
    PastIsNotSampled(st.(shouldTune := true), pkt);
  }

  /** A decoder that has sampled nothing yet, when the stream is already past the first block: one packet
      of the wrong type, and it never hands out anything again, whatever follows. */
  lemma {:induction false} OneWrongPacketSilences(make: Factory, st: State, pkt: FecPacket, pkts: seq<FecPacket>)
    requires Lawful(make) && st.Ready() && st.pulses == NewPulses()
    requires Mistyped(st.par, pkt) && pkt.seqid > SAMPLES && forall j :: 0 <= j < |pkts| ==> pkts[j].seqid > SAMPLES
    ensures Run(make, st, [pkt] + pkts).recovered == [] && Run(make, st, [pkt] + pkts).state.shouldTune
  {
    var tuning := st.(shouldTune := true);
    WrongPacketTunes(make, st, pkt);
    RunOneMore(make, st, [pkt], [], pkt);
    RunConcat(make, st, [pkt], pkts, [pkt] + pkts);
    if pkts != [] {
      NothingDetected(st.pulses);
      TuningEndsNowOrNever(make, tuning, pkts);
    }
  }

  /** A decoder that is tuning when its sample buffer holds a stretch of a stream adopts exactly the
      parameters of that stream. */
  lemma {:induction false} AdoptsStream(make: Factory, st: State, pkt: FecPacket, d: nat, p: nat, phase: nat, first: U32)
    requires Lawful(make) && st.Ready() && Sense(st, pkt).shouldTune
    requires 0 < d < 256 && 0 < p < 256 && 2 * d + p < SAMPLES && d + 2 * p < SAMPLES && phase < d + p
    requires Holds(Sense(st, pkt).pulses, d, p, phase, first)
    ensures var r := Step(make, st, pkt).state;
            && r.par == Params(d, p)
            && (st.par != Params(d, p) && make(d, p).Some? ==> !r.shouldTune && make(d, p) == Some(r.codec))
  {
    DataShardsFound(Sense(st, pkt).pulses, d, p, phase, first);
    ParityShardsFound(Sense(st, pkt).pulses, d, p, phase, first);
  }
}
