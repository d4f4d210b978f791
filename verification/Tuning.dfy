/** The map decoder finds its way: what makes it tune, how soon it notices that its parameters are not
    those of the stream, and that it learns the right ones. */
module Tuning {
  import opened Arith
  import opened AutoTune
  import opened Base
  import opened Codec
  import opened Delivery
  import opened Detection
  import opened Numbering
  import opened Serial
  import opened Sets
  import opened ShardMap
  import opened ShardMapRefinement
  import opened ShardMapRuns
  import opened Soundness
  import opened Traffic

  /** A decoder starts to tune exactly at a packet that is not marked as data where the parameters want
      data, or not marked as parity where they want parity. Such a packet is not stored. */
  lemma {:induction false} TuningStartsIff(make: Factory, st: State, pkt: FecPacket)
    requires Lawful(make) && st.Ready() && !st.shouldTune
    ensures var k := pkt.seqid % (st.par.data + st.par.parity);
            Sense(st, pkt).shouldTune <==> (k < st.par.data && pkt.flag != 0xf1) || (k >= st.par.data && pkt.flag != 0xf2)
    ensures Sense(st, pkt).pulses == Sampled(st.pulses, pkt.flag == 0xf1, pkt.seqid)
    ensures var r := Step(make, st, pkt);
            Sense(st, pkt).shouldTune ==> r.recovered == [] && (r.state.sets == st.sets || r.state.sets == map[])
    ensures !Sense(st, pkt).shouldTune ==> !Step(make, st, pkt).state.shouldTune && Step(make, st, pkt).state.par == st.par
  {}

  /** And it stops exactly at a packet after which the buffer shows other parameters from 1 to 255 and a codec
      for them can be built. */
  lemma {:induction false} TuningStopsIff(make: Factory, st: State, pkt: FecPacket)
    requires Lawful(make) && st.Ready() && Sense(st, pkt).shouldTune
    ensures var ps, r := Sense(st, pkt).pulses, Step(make, st, pkt);
            var d, p := Period(ps, true), Period(ps, false);
            && r.recovered == []
            && (!r.state.shouldTune <==>
                  1 <= d <= 255 && 1 <= p <= 255 && Params(d, p) != st.par && make(d, p).Some?)
            && (r.state.par != st.par ==> 1 <= d <= 255 && 1 <= p <= 255 && r.state.par == Params(d, p))
  {}

  // ----- Other parameters show

  /** Both decoders of positions put a group start at `b`. */
  lemma SamePosition(b: nat, n: nat, j: nat)
    requires n > 0 && b % n == 0
    ensures j < n ==> (b + j) % n == j
    ensures j == n ==> (b + j) % n == 0
  {
    assert b == (b / n) * n;
    if j < n {
      DivModUnique(b + j, n, b / n, j);
    } else if j == n {
      assert b + n == (b / n + 1) * n;
      DivModUnique(b + n, n, b / n + 1, 0);
    }
  }

  /** From a common start of two groups on, different parameters show within the smaller group size. */
  lemma ShowsFromStart(d: nat, p: nat, e: nat, q: nat, b: nat) returns (j: nat)
    requires 0 < d && 0 < p && 0 < e && 0 < q && (d != e || p != q) && b % (d + p) == 0 && b % (e + q) == 0
    ensures j <= d + p && j <= e + q && High(d, p, b + j) != High(e, q, b + j)
  {
    if d != e {
      j := if d < e then d else e;
    } else {
      j := d + if p < q then p else q;
    }
    SamePosition(b, d + p, j);
    SamePosition(b, e + q, j);
  }

  /** The first start of a group after `x`. */
  function NextStart(x: nat, n: nat): nat
    requires n > 0
  {
    x + (n - x % n)
  }

  lemma NextStartIsStart(x: nat, n: nat)
    requires n > 0
    ensures x < NextStart(x, n) <= x + n && NextStart(x, n) % n == 0 && (NextStart(x, n) - 1) % n == n - 1
  {
    var q := x / n;
    assert NextStart(x, n) == (q + 1) * n;
    DivModUnique(NextStart(x, n), n, q + 1, 0);
    assert NextStart(x, n) - 1 == q * n + (n - 1);
    DivModUnique(NextStart(x, n) - 1, n, q, n - 1);
  }

  /** Parity followed by data is the end of a group and the start of the next. */
  lemma RiseIsStart(e: nat, q: nat, b: nat)
    requires 0 < e && 0 < q && b > 0 && !High(e, q, b - 1) && High(e, q, b)
    ensures b % (e + q) == 0
  {
    var n := e + q;
    NextResidue(b - 1, n);
  }

  lemma ShowsFromSmaller(d: nat, p: nat, e: nat, q: nat, x: nat) returns (j: nat)
    requires 0 < d && 0 < p && 0 < e && 0 < q && (d != e || p != q) && d + p <= e + q
    ensures j <= 2 * (d + p) && High(d, p, x + j) != High(e, q, x + j)
  {
    var b := NextStart(x, d + p);
    NextStartIsStart(x, d + p);
    if High(e, q, b - 1) {
      j := b - 1 - x;
    } else if !High(e, q, b) {
      j := b - x;
    } else {
      RiseIsStart(e, q, b);
      var i := ShowsFromStart(d, p, e, q, b);
      j := b - x + i;
    }
  }

  /** From any number on, packets of a stream with other parameters show a wrong type within twice the
      smaller group size. */
  lemma OtherParametersShow(d: nat, p: nat, e: nat, q: nat, x: nat) returns (j: nat)
    requires 0 < d && 0 < p && 0 < e && 0 < q && (d != e || p != q)
    ensures j <= 2 * (d + p) && j <= 2 * (e + q) && High(d, p, x + j) != High(e, q, x + j)
  {
    if d + p <= e + q {
      j := ShowsFromSmaller(d, p, e, q, x);
    } else {
      j := ShowsFromSmaller(e, q, d, p, x);
    }
  }

  // ----- Runs without loss

  /** The packets of `run` carry the numbers `x`, `x + 1`, and so on. */
  ghost predicate InSequence(s: Sender, run: seq<Idx>, x: nat) {
    s.Valid() && AllSent(s, run) && forall j :: 0 <= j < |run| ==> s.Sent(run[j]).seqid == x + j
  }

  lemma {:induction false} SequenceFront(s: Sender, run: seq<Idx>, x: nat) returns (front: seq<Idx>, m: Idx)
    requires InSequence(s, run, x) && run != []
    ensures run == front + [m] && InSequence(s, front, x) && s.Emitted(m) && s.Sent(m).seqid == x + |front|
  {
    front, m := run[..|run| - 1], run[|run| - 1];
  }

  lemma {:induction false} SequencePrefix(s: Sender, run: seq<Idx>, x: nat, j: nat) returns (front: seq<Idx>, m: Idx)
    requires InSequence(s, run, x) && j < |run|
    ensures front == run[..j] && m == run[j] && |front| == j
    ensures InSequence(s, front, x) && s.Emitted(m) && s.Sent(m).seqid == x + j
  {
    front, m := run[..j], run[j];
  }

  /** The two parameters want different types at number `y`. */
  predicate Clash(par: Params, other: Params, y: nat)
    requires par.Valid() && other.Valid()
  {
    High(par.data, par.parity, y) != High(other.data, other.parity, y)
  }

  /** No packet from number `x` up to number `y` has a type that the parameters `par` do not want there. */
  ghost predicate Alike(par: Params, s: Sender, x: nat, y: nat)
    requires par.Valid() && s.par.Valid()
  {
    forall i :: x <= i < y ==> !Clash(par, s.par, i)
  }

  lemma {:induction false} ClashIsMistyped(par: Params, s: Sender, m: Idx, y: nat)
    requires par.Valid() && s.Valid() && s.Emitted(m) && s.Sent(m).seqid == y
    ensures Mistyped(par, s.Sent(m)) <==> Clash(par, s.par, y)
  {
    SeqIdParts(s.par.Size(), s.paws, m);
  }

  /** A packet of the stream has the wrong type exactly where the two streams of types differ. */
  lemma {:induction false} WrongTypeIff(make: Factory, st: State, s: Sender, m: Idx, par: Params, y: nat)
    requires Lawful(make) && st.Ready() && !st.shouldTune && st.par == par && s.Valid() && s.Emitted(m) && s.Sent(m).seqid == y
    ensures Sense(st, s.Sent(m)).shouldTune <==> Clash(par, s.par, y)
  {
    ClashIsMistyped(par, s, m, y);
  }

  lemma {:induction false} AlikeStep(make: Factory, st: State, s: Sender, m: Idx)
    requires Lawful(make) && st.Ready() && !st.shouldTune && s.Valid() && s.Emitted(m)
    requires Alike(st.par, s, s.Sent(m).seqid, s.Sent(m).seqid + 1)
    ensures var r := Step(make, st, s.Sent(m)).state; r.par == st.par && !r.shouldTune
  {
    WrongTypeIff(make, st, s, m, st.par, s.Sent(m).seqid);
    TuningStartsIff(make, st, s.Sent(m));
  }

  /** As long as no type differs, the decoder keeps its parameters and does not tune. */
  lemma {:induction false} NotTuningYet(make: Factory, st: State, s: Sender, run: seq<Idx>, x: nat)
    requires Lawful(make) && st.Ready() && !st.shouldTune && InSequence(s, run, x) && Alike(st.par, s, x, x + |run|)
    ensures var r := Run(make, st, Packets(s, run)).state; r.par == st.par && !r.shouldTune
    decreases |run|
  {
    if run != [] {
      var front, m := SequenceFront(s, run, x);
      RunSent(make, st, s, run, front, m);
      NotTuningYet(make, st, s, front, x);
      AlikeStep(make, Run(make, st, Packets(s, front)).state, s, m);
    }
  }

  lemma {:induction false} FirstDifference(par: Params, s: Sender, x: nat, j: nat) returns (i: nat)
    requires par.Valid() && s.par.Valid()
    requires Clash(par, s.par, x + j)
    ensures i <= j && Alike(par, s, x, x + i) && Clash(par, s.par, x + i)
  {
    i := 0;
    while !Clash(par, s.par, x + i)
      invariant i <= j && Alike(par, s, x, x + i)
      decreases j - i
    {
      i := i + 1;
    }
  }

  /** After the packets at `front` the decoder is as before, and at packet `m` it starts to tune. */
  ghost predicate StartsAt(make: Factory, st: State, s: Sender, front: seq<Idx>, m: Idx)
    requires Lawful(make) && st.Ready() && s.Valid() && AllSent(s, front) && s.Emitted(m)
  {
    var r := Run(make, st, Packets(s, front)).state;
    r.par == st.par && !r.shouldTune && Sense(r, s.Sent(m)).shouldTune
  }

  lemma {:induction false} TunesAt(make: Factory, st: State, s: Sender, front: seq<Idx>, x: nat, m: Idx, y: nat)
    requires Lawful(make) && st.Ready() && !st.shouldTune && InSequence(s, front, x) && y == x + |front|
    requires Alike(st.par, s, x, y) && Clash(st.par, s.par, y) && s.Emitted(m) && s.Sent(m).seqid == y
    ensures StartsAt(make, st, s, front, m)
  {
    NotTuningYet(make, st, s, front, x);
    WrongTypeIff(make, Run(make, st, Packets(s, front)).state, s, m, st.par, y);
  }

  lemma {:induction false} FirstClash(par: Params, s: Sender, x: nat) returns (j: nat, y: nat)
    requires par.Valid() && s.par.Valid() && par != s.par
    ensures y == x + j && j <= 2 * par.Size() && j <= 2 * s.par.Size() && Alike(par, s, x, y) && Clash(par, s.par, y)
  {
    var i := OtherParametersShow(par.data, par.parity, s.par.data, s.par.parity, x);
    j := FirstDifference(par, s, x, i);
    y := x + j;
  }

  /** Any decoder that is not tuning, with parameters that are not the stream's, wherever in the stream it
      is: within twice the smaller group size of packets without loss it starts to tune. */
  lemma {:induction false} NoticesOtherParameters(make: Factory, st: State, s: Sender, run: seq<Idx>, x: nat)
    returns (j: nat, front: seq<Idx>, m: Idx)
    requires Lawful(make) && st.Ready() && !st.shouldTune && InSequence(s, run, x) && st.par != s.par
    requires |run| > 2 * st.par.Size() || |run| > 2 * s.par.Size()
    ensures j < |run| && j <= 2 * st.par.Size() && j <= 2 * s.par.Size() && front == run[..j] && m == run[j]
    ensures AllSent(s, front) && s.Emitted(m) && StartsAt(make, st, s, front, m)
  {
    var y;
    j, y := FirstClash(st.par, s, x);
    front, m := SequencePrefix(s, run, x, j);
    TunesAt(make, st, s, front, x, m, y);
  }

  // ----- The parameters are learned

  /** The decoder has the stream's parameters and a codec for them, and stores packets. */
  ghost predicate Learned(make: Factory, s: Sender, r: State) {
    r.par == s.par && !r.shouldTune && make(s.par.data, s.par.parity) == Some(r.codec)
  }

  /** Or it has the old ones still: then it is tuning, or has not met a wrong type among the first `k`
      packets. */
  ghost predicate Learning(make: Factory, had: Params, s: Sender, r: State, k: nat)
    requires had.Valid() && s.par.Valid()
  {
    Learned(make, s, r) || (r.par == had && (r.shouldTune || Alike(had, s, 0, k)))
  }

  lemma {:induction false} StaysLearned(make: Factory, s: Sender, r: State, m: Idx)
    requires Lawful(make) && r.Ready() && s.Valid() && s.Emitted(m) && Learned(make, s, r)
    ensures Learned(make, s, Step(make, r, s.Sent(m)).state)
  {
    GenuineIsTyped(s, m);
  }

  /** A tuning decoder takes over what is detected, and that is nothing or the stream's parameters. */
  lemma {:induction false} TuningStep(make: Factory, s: Sender, r: State, pkt: FecPacket, found: Option<Params>)
    requires Lawful(make) && r.Ready() && r.par != s.par && make(s.par.data, s.par.parity).Some?
    requires Sense(r, pkt).shouldTune && found == Detected(Sense(r, pkt).pulses) && found in {None, Some(s.par)}
    ensures var after := Step(make, r, pkt).state;
            if found.Some? then Learned(make, s, after) else after.par == r.par && after.shouldTune
  {}

  lemma {:induction false} LearnStep(make: Factory, had: Params, s: Sender, r: State, m: Idx, k: nat, found: Option<Params>)
    requires Lawful(make) && r.Ready() && had.Valid() && had != s.par && s.Valid() && s.Emitted(m) && s.Sent(m).seqid == k
    requires make(s.par.data, s.par.parity).Some? && Learning(make, had, s, r, k)
    requires found == Detected(Sense(r, s.Sent(m)).pulses) && found in {None, Some(s.par)}
    ensures Learning(make, had, s, Step(make, r, s.Sent(m)).state, k + 1)
    ensures found.Some? && !Alike(had, s, 0, k) ==> Learned(make, s, Step(make, r, s.Sent(m)).state)
  {
    if Learned(make, s, r) {
      StaysLearned(make, s, r, m);
    } else if Sense(r, s.Sent(m)).shouldTune {
      TuningStep(make, s, r, s.Sent(m), found);
    } else {
      TuningStartsIff(make, r, s.Sent(m));
      WrongTypeIff(make, r, s, m, had, k);
    }
  }

  lemma {:induction false} OfferOne(ps: seq<Pulse>, d: nat, p: nat, count: nat, k: nat, before: seq<Pulse>)
    requires |ps| == SAMPLES && d + p > 0 && count == k + 1 < TWO_32 && before == Offer(ps, d, p, 0, 0, k)
    ensures Offer(ps, d, p, 0, 0, count) == Sampled(before, High(d, p, k), k)
  {
    assert Add(0, k) == k;
  }

  lemma {:induction false} SampleInSequence(s: Sender, m: Idx, k: nat)
    requires s.Valid() && s.Emitted(m) && s.Sent(m).seqid == k
    ensures SampleOf(s.Sent(m)) == Pulse(High(s.par.data, s.par.parity, k), k) && k + 1 < TWO_32
  {
    SentIsHonest(s, m);
  }

  /** Without loss the sample buffer is filled as the stream offers itself. */
  lemma {:induction false} BufferIsOffer(s: Sender, run: seq<Idx>, ps: seq<Pulse>, count: nat)
    requires InSequence(s, run, 0) && ps == NewPulses() && count == |run|
    ensures Buffer(s, run) == Offer(ps, s.par.data, s.par.parity, 0, 0, count)
    decreases count
  {
    if count > 0 {
      var front, m := SequenceFront(s, run, 0);
      var k := |front|;
      BufferIsOffer(s, front, ps, k);
      SampleInSequence(s, m, k);
      BufferOne(s, run, front, m, SampleOf(s.Sent(m)));
      OfferOne(ps, s.par.data, s.par.parity, count, k, Buffer(s, front));
    }
  }

  lemma {:induction false} FirstIsThere(s: Sender, run: seq<Idx>, ps: seq<Pulse>)
    requires InSequence(s, run, 0) && 0 < |run| <= SAMPLES && ps == NewPulses()
    ensures !FirstLost(Buffer(s, run))
  {
    BufferIsOffer(s, run, ps, |run|);
    OfferFills(ps, s.par.data, s.par.parity, 0, 0, |run|);
  }

  lemma FirstBlockDetects(ps: seq<Pulse>, par: Params, size: nat, r: seq<Pulse>)
    requires |ps| == SAMPLES == size && ps[0].num == 0 && par.Valid() && r == Offer(ps, par.data, par.parity, 0, 0, size)
    requires 2 * par.data + par.parity < SAMPLES && par.data + 2 * par.parity < SAMPLES
    ensures Detected(r) == Some(par)
  {
    EveryBlockIsRecognised(ps, par.data, par.parity, 0, size, r);
  }

  /** At every packet of the first block, what is detected is nothing or the stream's parameters; at its end
      it is these. */
  lemma {:induction false} BlockDetects(s: Sender, run: seq<Idx>, ps: seq<Pulse>)
    requires InSequence(s, run, 0) && 0 < |run| <= SAMPLES && ps == NewPulses()
    requires 2 * s.par.data + s.par.parity < SAMPLES && s.par.data + 2 * s.par.parity < SAMPLES
    ensures Detected(Buffer(s, run)) in {None, Some(s.par)}
    ensures |run| == SAMPLES ==> Detected(Buffer(s, run)) == Some(s.par)
  {
    FirstIsThere(s, run, ps);
    BufferFromStream(s, run);
    DetectsTruly(Buffer(s, run), s.par);
    if |run| == SAMPLES {
      BufferIsOffer(s, run, ps, |run|);
      FirstBlockDetects(ps, s.par, |run|, Buffer(s, run));
    }
  }

  lemma {:induction false} NotAlikeForLong(had: Params, s: Sender, k: nat)
    requires had.Valid() && s.par.Valid() && had != s.par && k > s.par.Size()
    ensures !Alike(had, s, 0, k)
  {
    var j := ShowsFromStart(had.data, had.parity, s.par.data, s.par.parity, 0);
    assert Clash(had, s.par, j);
  }

  lemma {:induction false} LearnsAlong(make: Factory, st: State, s: Sender, run: seq<Idx>)
    requires Lawful(make) && st.Ready() && !st.shouldTune && st.pulses == NewPulses() && st.par != s.par
    requires InSequence(s, run, 0) && |run| <= SAMPLES && make(s.par.data, s.par.parity).Some?
    requires 2 * s.par.data + s.par.parity < SAMPLES && s.par.data + 2 * s.par.parity < SAMPLES
    ensures Learning(make, st.par, s, Run(make, st, Packets(s, run)).state, |run|)
    ensures |run| == SAMPLES ==> Learned(make, s, Run(make, st, Packets(s, run)).state)
    decreases |run|
  {
    if run != [] {
      var front, m := SequenceFront(s, run, 0);
      LearnsAlong(make, st, s, front);
      RunSent(make, st, s, run, front, m);
      SensesBuffer(make, st, s, run, front, m);
      BlockDetects(s, run, st.pulses);
      var r := Run(make, st, Packets(s, front)).state;
      LearnStep(make, st.par, s, r, m, |front|, Detected(Buffer(s, run)));
      if |run| == SAMPLES {
        NotAlikeForLong(st.par, s, |front|);
      }
    }
  }

  lemma {:induction false} LearnedForGood(make: Factory, st: State, s: Sender, run: seq<Idx>)
    requires Lawful(make) && st.Ready() && s.Valid() && AllSent(s, run) && Learned(make, s, st)
    ensures Learned(make, s, Run(make, st, Packets(s, run)).state)
    decreases |run|
  {
    if run != [] {
      var front, m := SplitLast(run);
      RunSent(make, st, s, run, front, m);
      LearnedForGood(make, st, s, front);
      StaysLearned(make, s, Run(make, st, Packets(s, front)).state, m);
    }
  }

  /** And keeps them, whatever comes after. */
  lemma {:induction false} LearnedAfter(make: Factory, st: State, s: Sender, a: seq<FecPacket>, mid: State, more: seq<Idx>, ab: seq<FecPacket>)
    requires Lawful(make) && st.Ready() && s.Valid() && AllSent(s, more) && ab == a + Packets(s, more)
    requires mid == Run(make, st, a).state && Learned(make, s, mid)
    ensures Learned(make, s, Run(make, st, ab).state)
  {
    LearnedForGood(make, mid, s, more);
    RunConcat(make, st, a, Packets(s, more), ab);
  }

  /** A new decoder, with whatever parameters, that gets the first 258 packets of a stream without loss has
      the stream's parameters then and a codec for them, and keeps them for good, whatever is lost, repeated
      or reordered afterwards. */
  lemma {:induction false} LearnsStream(make: Factory, par: Params, codec: Codec, st: State, s: Sender,
                                        run: seq<Idx>, more: seq<Idx>, all: seq<Idx>)
    requires Lawful(make) && par.Valid() && make(par.data, par.parity) == Some(codec) && st == NewState(par, codec)
    requires InSequence(s, run, 0) && |run| == 258 && AllSent(s, more) && make(s.par.data, s.par.parity).Some?
    requires 2 * s.par.data + s.par.parity < 258 && s.par.data + 2 * s.par.parity < 258
    requires all == run + more
    ensures AllSent(s, all) && Learned(make, s, Run(make, st, Packets(s, all)).state)
  {
    if st.par == s.par {
      LearnedForGood(make, st, s, run);
    } else {
      LearnsAlong(make, st, s, run);
    }
    PacketsConcat(s, run, more);
    LearnedAfter(make, st, s, Packets(s, run), Run(make, st, Packets(s, run)).state, more, Packets(s, all));
  }
}
