/** What parameter detection can answer on the traffic of a stream, whatever part of it arrives and in
    whatever order. */
module Detection {
  import opened Arith
  import opened AutoTune
  import opened Base
  import opened Codec
  import opened Delivery
  import opened Numbering
  import opened Serial
  import opened Sets
  import opened ShardMap
  import opened ShardMapRuns
  import opened Soundness
  import opened Traffic

  // ----- Any buffer

  /** A run with a real edge at both ends, and consecutive numbers all the way. */
  ghost predicate WholeRun(ps: seq<Pulse>, bit: bool, l: nat, len: int) {
    0 < l && RunAt(ps, bit, l, len) && Rises(ps, bit, l) && Linked(ps, l)
  }

  /** The end of a run of one level is an edge to the other. */
  lemma RunEndsInEdge(ps: seq<Pulse>, bit: bool, l: nat, len: int)
    requires RunAt(ps, bit, l, len)
    ensures Rises(ps, !bit, l + len) && Linked(ps, l + len) && LeftEdge(ps, !bit, 1) > 0
  {
    LeftEdgeIsFirst(ps, !bit, 1);
    assert ps[l + len - 1].bit == bit;
    assert Rises(ps, !bit, l + len) && Linked(ps, l + len);
  }

  /** On any buffer whatever: when both levels are answered, both answers are the lengths of whole runs. */
  lemma BothAnswersAreWhole(ps: seq<Pulse>, bit: bool)
    requires |ps| == SAMPLES && Period(ps, true) > 0 && Period(ps, false) > 0
    ensures WholeRun(ps, bit, LeftEdge(ps, bit, 1), Period(ps, bit))
  {
    PeriodIsRun(ps, bit, Period(ps, bit));
    PeriodIsRun(ps, !bit, Period(ps, !bit));
    RunEndsInEdge(ps, !bit, LeftEdge(ps, !bit, 1), Period(ps, !bit));
    LeftEdgeIsFirst(ps, bit, 1);
  }

  // ----- Samples of a stream

  /** The sample is of a packet of a stream of groups of `d` data and `p` parity shards. */
  predicate Honest(d: nat, p: nat, x: Pulse)
    requires d + p > 0
  {
    x.num < TWO_32 - 1 && x.bit == High(d, p, x.num)
  }

  /** Every entry is untouched, or an honest sample in its place. */
  ghost predicate FromStream(ps: seq<Pulse>, d: nat, p: nat) {
    && |ps| == SAMPLES && 0 < d && 0 < p
    && forall i :: 0 <= i < SAMPLES ==> ps[i] == Pulse(false, 0) || (Honest(d, p, ps[i]) && ps[i].num % SAMPLES == i)
  }

  lemma SampledFromStream(ps: seq<Pulse>, d: nat, p: nat, x: Pulse)
    requires FromStream(ps, d, p) && Honest(d, p, x)
    ensures FromStream(Sampled(ps, x.bit, x.num), d, p)
  {}

  /** Packet 0 is missing from the buffer where packet 1 shows as data. */
  predicate FirstLost(ps: seq<Pulse>)
    requires |ps| == SAMPLES
  {
    ps[0] == Pulse(false, 0) && ps[1] == Pulse(true, 1)
  }

  /** Consecutive numbers never lead to an untouched entry, and from one only at the very start. */
  lemma LinkedIsHonest(ps: seq<Pulse>, d: nat, p: nat, j: nat)
    requires FromStream(ps, d, p) && 0 < j < SAMPLES && Linked(ps, j)
    ensures Honest(d, p, ps[j]) && ps[j].num == ps[j - 1].num + 1
    ensures Honest(d, p, ps[j - 1]) || (j == 1 && ps[0] == Pulse(false, 0) && ps[1].num == 1)
  {
    assert ps[j - 1].num < TWO_32 - 1;
    assert ps[j].num == ps[j - 1].num + 1;
    if ps[j - 1] == Pulse(false, 0) {
      assert ps[j].num == 1;
    }
  }

  /** The numbers of a run count up from its start. */
  lemma RunCounts(ps: seq<Pulse>, d: nat, p: nat, bit: bool, l: nat, len: int, j: nat)
    requires FromStream(ps, d, p) && 0 < l && RunAt(ps, bit, l, len) && Linked(ps, l) && j <= len
    ensures Honest(d, p, ps[l + j]) && ps[l + j].num == ps[l].num + j
  {
    if j == 0 {
      LinkedIsHonest(ps, d, p, l);
    } else {
      RunCounts(ps, d, p, bit, l, len, j - 1);
      LinkedIsHonest(ps, d, p, l + j);
    }
  }

  lemma NextResidue(x: nat, n: nat)
    requires n > 0
    ensures (x + 1) % n == if x % n == n - 1 then 0 else x % n + 1
  {
    if x % n == n - 1 {
      assert x + 1 == (x / n + 1) * n;
      DivModUnique(x + 1, n, x / n + 1, 0);
    } else {
      DivModUnique(x + 1, n, x / n, x % n + 1);
    }
  }

  lemma {:induction false} ResidueAhead(x: nat, n: nat, j: nat)
    requires n > 0 && x % n + j <= n
    ensures (x + j) % n == if x % n + j == n then 0 else x % n + j
  {
    if j > 0 {
      ResidueAhead(x, n, j - 1);
      NextResidue(x + j - 1, n);
    }
  }

  /** `len` numbers from `x` on are of the level, and the next is not. */
  ghost predicate LevelLasts(d: nat, p: nat, bit: bool, x: nat, len: int)
    requires d + p > 0
  {
    && len > 0 && High(d, p, x + len) != bit
    && forall j :: 0 <= j < len ==> LevelOf(d, p, x, j) == bit
  }

  predicate LevelOf(d: nat, p: nat, x: nat, j: int)
    requires d + p > 0 && j >= 0
  {
    High(d, p, x + j)
  }

  lemma RunLevel(ps: seq<Pulse>, d: nat, p: nat, bit: bool, l: nat, len: int, j: nat)
    requires FromStream(ps, d, p) && 0 < l && RunAt(ps, bit, l, len) && Linked(ps, l) && j <= len
    ensures LevelOf(d, p, ps[l].num, j) == (if j < len then bit else !bit)
  {
    RunCounts(ps, d, p, bit, l, len, j);
  }

  lemma RunLasts(ps: seq<Pulse>, d: nat, p: nat, bit: bool, l: nat, len: int)
    requires FromStream(ps, d, p) && 0 < l && RunAt(ps, bit, l, len) && Linked(ps, l)
    ensures LevelLasts(d, p, bit, ps[l].num, len)
  {
    var x := ps[l].num;
    forall j | 0 <= j < len
      ensures LevelOf(d, p, x, j) == bit
    {
      RunLevel(ps, d, p, bit, l, len, j);
    }
    RunLevel(ps, d, p, bit, l, len, len);
  }

  /** A level that lasts from position `k` of a group lasts to the end of its part of the group. */
  lemma LevelLastsFrom(d: nat, p: nat, bit: bool, x: nat, len: int, k: nat)
    requires 0 < d && 0 < p && LevelLasts(d, p, bit, x, len) && x % (d + p) == k && (bit <==> k < d)
    ensures len == (if bit then d else d + p) - k
  {
    var want := (if bit then d else d + p) - k;
    ResidueAhead(x, d + p, want);
    assert want < len ==> LevelOf(d, p, x, want) == bit;
    if len < want {
      ResidueAhead(x, d + p, len);
    }
  }

  /** Where a level begins in a stream. */
  lemma LevelBegins(d: nat, p: nat, bit: bool, x: nat)
    requires 0 < d && 0 < p && High(d, p, x) != bit && High(d, p, x + 1) == bit
    ensures (x + 1) % (d + p) == if bit then 0 else d
  {
    NextResidue(x, d + p);
  }

  /** A whole run between honest samples has the length of its part of the group. */
  lemma WholeRunLength(ps: seq<Pulse>, d: nat, p: nat, bit: bool, l: nat, len: int)
    requires FromStream(ps, d, p) && WholeRun(ps, bit, l, len) && Honest(d, p, ps[l - 1])
    ensures len == if bit then d else p
  {
    LinkedIsHonest(ps, d, p, l);
    RunLasts(ps, d, p, bit, l, len);
    LevelBegins(d, p, bit, ps[l - 1].num);
    LevelLastsFrom(d, p, bit, ps[l].num, len, if bit then 0 else d);
  }

  /** At every moment, with whatever was lost, repeated or reordered, and across the wrap: if both levels
      are answered, the answers are the stream's parameters, unless packet 0 was lost and packet 1 was
      not; in that case they never are, the answer for data being one too small. */
  lemma AnswersExactly(ps: seq<Pulse>, d: nat, p: nat)
    requires FromStream(ps, d, p) && Period(ps, true) > 0 && Period(ps, false) > 0
    ensures Period(ps, false) == p
    ensures Period(ps, true) == if FirstLost(ps) then d - 1 else d
  {
    FalseAnswer(ps, d, p);
    TrueAnswer(ps, d, p);
  }

  lemma FalseAnswer(ps: seq<Pulse>, d: nat, p: nat)
    requires FromStream(ps, d, p) && Period(ps, true) > 0 && Period(ps, false) > 0
    ensures Period(ps, false) == p
  {
    var l := LeftEdge(ps, false, 1);
    BothAnswersAreWhole(ps, false);
    LinkedIsHonest(ps, d, p, l);
    WholeRunLength(ps, d, p, false, l, Period(ps, false));
  }

  lemma TrueAnswer(ps: seq<Pulse>, d: nat, p: nat)
    requires FromStream(ps, d, p) && Period(ps, true) > 0 && Period(ps, false) > 0
    ensures Period(ps, true) == if FirstLost(ps) then d - 1 else d
  {
    var l, len := LeftEdge(ps, true, 1), Period(ps, true);
    BothAnswersAreWhole(ps, true);
    LinkedIsHonest(ps, d, p, l);
    if FirstLost(ps) {
      assert Rises(ps, true, 1) && Linked(ps, 1);
      FirstRise(ps, true, 1, 1);
      RunLasts(ps, d, p, true, 1, len);
      ResidueAhead(0, d + p, 1);
      LevelLastsFrom(d, p, true, 1, len, 1);
    } else {
      WholeRunLength(ps, d, p, true, l, len);
    }
  }

  // ----- Whole runs of a decoder

  /** Sampling goes on whether the decoder stores packets or tunes. */
  lemma {:induction false} RunSamples(make: Factory, st: State, pkts: seq<FecPacket>)
    requires Lawful(make) && st.Ready()
    ensures Run(make, st, pkts).state.pulses == SampleAll(st.pulses, Samples(pkts))
  {
    if pkts != [] {
      RunSamples(make, st, pkts[..|pkts| - 1]);
      assert Samples(pkts)[..|pkts| - 1] == Samples(pkts[..|pkts| - 1]);
    }
  }

  lemma {:induction false} SentIsHonest(s: Sender, m: Idx)
    requires s.Valid() && s.Emitted(m)
    ensures Honest(s.par.data, s.par.parity, SampleOf(s.Sent(m)))
  {
    SeqIdParts(s.par.Size(), s.paws, m);
  }

  lemma NewIsFromStream(d: nat, p: nat)
    requires 0 < d && 0 < p
    ensures FromStream(NewPulses(), d, p)
  {}

  /** The buffer after the packets at `run`. */
  ghost function Buffer(s: Sender, run: seq<Idx>): (r: seq<Pulse>)
    requires s.Valid() && AllSent(s, run)
    ensures |r| == SAMPLES
  {
    SampleAll(NewPulses(), Samples(Packets(s, run)))
  }

  lemma {:induction false} BufferStep(s: Sender, run: seq<Idx>)
    requires s.Valid() && AllSent(s, run) && run != []
    ensures var x := SampleOf(s.Sent(run[|run| - 1]));
            Buffer(s, run) == Sampled(Buffer(s, run[..|run| - 1]), x.bit, x.num)
  {
    var pkts, front := Packets(s, run), Packets(s, run[..|run| - 1]);
    assert pkts[..|pkts| - 1] == front;
    assert Samples(pkts)[..|pkts| - 1] == Samples(front);
  }

  lemma {:induction false} BufferOne(s: Sender, run: seq<Idx>, front: seq<Idx>, m: Idx, x: Pulse)
    requires s.Valid() && AllSent(s, run) && AllSent(s, front) && s.Emitted(m) && run == front + [m] && x == SampleOf(s.Sent(m))
    ensures Buffer(s, run) == Sampled(Buffer(s, front), x.bit, x.num)
  {
    assert run[..|run| - 1] == front && run[|run| - 1] == m;
    BufferStep(s, run);
  }

  /** One more packet of the stream. */
  lemma {:induction false} RunSent(make: Factory, st: State, s: Sender, run: seq<Idx>, front: seq<Idx>, m: Idx)
    requires Lawful(make) && st.Ready() && s.Valid() && AllSent(s, run) && run == front + [m]
    ensures AllSent(s, front) && s.Emitted(m)
    ensures Run(make, st, Packets(s, run)).state == Step(make, Run(make, st, Packets(s, front)).state, s.Sent(m)).state
  {
    assert run[..|front|] == front && run[|front|] == m;
    assert Packets(s, run) == Packets(s, front) + [s.Sent(m)];
    RunOneMore(make, st, Packets(s, run), Packets(s, front), s.Sent(m));
  }

  /** What the decoder samples, whatever else it does. */
  lemma {:induction false} SensesBuffer(make: Factory, st: State, s: Sender, run: seq<Idx>, front: seq<Idx>, m: Idx)
    requires Lawful(make) && st.Ready() && st.pulses == NewPulses() && s.Valid() && AllSent(s, run) && run == front + [m]
    ensures AllSent(s, front) && s.Emitted(m)
    ensures Sense(Run(make, st, Packets(s, front)).state, s.Sent(m)).pulses == Buffer(s, run)
  {
    assert run[..|front|] == front && run[|front|] == m;
    RunSamples(make, st, Packets(s, front));
    BufferOne(s, run, front, m, SampleOf(s.Sent(m)));
  }

  lemma {:induction false} BufferFromStream(s: Sender, run: seq<Idx>)
    requires s.Valid() && AllSent(s, run)
    ensures FromStream(Buffer(s, run), s.par.data, s.par.parity)
  {
    if run == [] {
      NewIsFromStream(s.par.data, s.par.parity);
    } else {
      var front, m := run[..|run| - 1], run[|run| - 1];
      BufferFromStream(s, front);
      SentIsHonest(s, m);
      BufferStep(s, run);
      SampledFromStream(Buffer(s, front), s.par.data, s.par.parity, SampleOf(s.Sent(m)));
    }
  }

  /** At no point of the run is packet 0 missing where packet 1 was sampled. */
  ghost predicate FirstNeverLost(s: Sender, run: seq<Idx>)
    requires s.Valid() && AllSent(s, run)
  {
    (run != [] ==> FirstNeverLost(s, run[..|run| - 1])) && !FirstLost(Buffer(s, run))
  }

  lemma DetectsTruly(ps: seq<Pulse>, par: Params)
    requires FromStream(ps, par.data, par.parity) && !FirstLost(ps)
    ensures Detected(ps) == None || Detected(ps) == Some(par)
  {
    if Detected(ps).Some? {
      AnswersExactly(ps, par.data, par.parity);
    }
  }

  lemma {:induction false} StepTruly(make: Factory, st: State, pkt: FecPacket, par: Params)
    requires Lawful(make) && st.Ready()
    requires var ps := Sense(st, pkt).pulses; Detected(ps) == None || Detected(ps) == Some(par)
    ensures Step(make, st, pkt).state.par == st.par || Step(make, st, pkt).state.par == par
  {}

  lemma {:induction false} SenseTruly(make: Factory, s: Sender, run: seq<Idx>, before: State, m: Idx)
    requires Lawful(make) && before.Ready() && s.Valid() && AllSent(s, run) && s.Emitted(m)
    requires Sense(before, s.Sent(m)).pulses == Buffer(s, run) && !FirstLost(Buffer(s, run))
    ensures Step(make, before, s.Sent(m)).state.par in {before.par, s.par}
  {
    BufferFromStream(s, run);
    DetectsTruly(Buffer(s, run), s.par);
    StepTruly(make, before, s.Sent(m), s.par);
  }

  /** A new map decoder, with whatever parameters, on the packets of a stream: with any loss, repetition
      and reordering it only ever has its own parameters or the stream's. */
  lemma {:induction false} NeverMisled(make: Factory, st: State, s: Sender, run: seq<Idx>)
    requires Lawful(make) && st.Ready() && st.pulses == NewPulses()
    requires s.Valid() && AllSent(s, run) && FirstNeverLost(s, run)
    ensures var r := Run(make, st, Packets(s, run)).state; r.par == st.par || r.par == s.par
    decreases |run|
  {
    if run != [] {
      var front, m := SplitLast(run);
      RunSent(make, st, s, run, front, m);
      NeverMisled(make, st, s, front);
      SensesBuffer(make, st, s, run, front, m);
      SenseTruly(make, s, run, Run(make, st, Packets(s, front)).state, m);
    }
  }

  // ----- When packet 0 is lost

  /** The buffer holds packets 1, ..., `d + p` of a stream, and nothing in place of packet 0. */
  ghost predicate WithoutFirst(ps: seq<Pulse>, d: nat, p: nat) {
    && |ps| == SAMPLES && 0 < d && 0 < p && d + p < SAMPLES
    && ps[0] == Pulse(false, 0)
    && forall i :: 0 < i <= d + p ==> ps[i] == Pulse(High(d, p, i), i)
  }

  lemma EarlyLevels(ps: seq<Pulse>, d: nat, p: nat, i: nat)
    requires WithoutFirst(ps, d, p) && 0 < i <= d + p
    ensures Linked(ps, i) && ps[i].bit == (i < d || i == d + p)
  {
    ResidueAhead(0, d + p, i);
  }

  /** Then a stream with two or more data shards is taken for one with a data shard less. */
  lemma LosingFirstMisleads(ps: seq<Pulse>, d: nat, p: nat)
    requires WithoutFirst(ps, d, p) && d >= 2
    ensures Period(ps, true) == d - 1 && Period(ps, false) == p
  {
    forall i | 0 < i <= d + p
      ensures Linked(ps, i) && ps[i].bit == (i < d || i == d + p)
    {
      EarlyLevels(ps, d, p, i);
    }
    FirstRise(ps, true, 1, 1);
    PeriodIsRun(ps, true, d - 1);
    FirstRise(ps, false, 1, d);
    PeriodIsRun(ps, false, p);
  }

  lemma SampleNext(ps: seq<Pulse>, i: nat, bit: bool)
    requires |ps| == SAMPLES && ps[0].num == 0 && 0 < i < SAMPLES
    ensures Sampled(ps, bit, i) == ps[i := Pulse(bit, i)]
  {}

  /** Samples of the packets 1, ..., `k`. */
  function FromOne(d: nat, p: nat, k: nat): (r: seq<Pulse>)
    requires d + p > 0 && k < SAMPLES
    ensures |r| == k
  {
    if k == 0 then [] else FromOne(d, p, k - 1) + [Pulse(High(d, p, k), k)]
  }

  lemma {:induction false} SampleFromOne(d: nat, p: nat, k: nat)
    requires d + p > 0 && k < SAMPLES
    ensures var ps := SampleAll(NewPulses(), FromOne(d, p, k));
            ps[0] == Pulse(false, 0) && forall i :: 0 < i <= k ==> ps[i] == Pulse(High(d, p, i), i)
  {
    if k > 0 {
      SampleFromOne(d, p, k - 1);
      var all := FromOne(d, p, k);
      assert all[..|all| - 1] == FromOne(d, p, k - 1);
      SampleNext(SampleAll(NewPulses(), FromOne(d, p, k - 1)), k, High(d, p, k));
    }
  }

  /** A new detector on the first group of a stream but its first packet. */
  lemma LosingFirstReached(d: nat, p: nat)
    requires 2 <= d && 0 < p && d + p < SAMPLES
    ensures WithoutFirst(SampleAll(NewPulses(), FromOne(d, p, d + p)), d, p)
  {
    SampleFromOne(d, p, d + p);
  }

  /** A decoder that is tuning on such a buffer adopts parameters that are not the stream's. */
  lemma {:induction false} MisledDecoder(make: Factory, st: State, pkt: FecPacket, d: nat, p: nat)
    requires Lawful(make) && st.Ready() && Sense(st, pkt).shouldTune && WithoutFirst(Sense(st, pkt).pulses, d, p)
    requires 2 <= d < 256 && p < 256
    ensures Step(make, st, pkt).state.par == Params(d - 1, p)
  {
    LosingFirstMisleads(Sense(st, pkt).pulses, d, p);
  }
}
