/** The second decoder on genuine packets: it holds and hands out what a decoder over sets of send
    indices does, in any order of arrival, as long as the sequence numbers have not wrapped. */
module ShardMapRefinement {
  import opened Arith
  import opened Codec
  import opened Numbering
  import opened QueueDecoder
  import opened Recovery
  import opened Reference
  import opened Serial
  import opened ShardMap
  import opened ShardMapRuns
  import opened Traffic

  // ----- Group numbers before the wrap

  /** The numbers have not wrapped up to group `g`. */
  ghost predicate FirstPass(n: nat, paws: U32, g: nat)
    requires Layout(n, paws)
  {
    g > 0 ==> FirstPass(n, paws, g - 1) && StartOf(n, paws, g - 1) + 2 * n <= paws
  }

  lemma NextBlock(x: nat, n: nat, q: nat, k: nat)
    requires n > 0 && x / n == q && x % n == 0 && k < n
    ensures (x + n) / n == q + 1 && (x + n) % n == 0 && (x + k) / n == q
  {
    assert (q + 1) * n == q * n + n;
    DivModUnique(x + n, n, q + 1, 0);
    DivModUnique(x + k, n, q, k);
  }

  lemma {:induction false} FirstPassStart(n: nat, paws: U32, g: nat)
    requires Layout(n, paws) && FirstPass(n, paws, g)
    ensures StartOf(n, paws, g) / n == g && StartOf(n, paws, g) % n == 0
  {
    if g > 0 {
      FirstPassStart(n, paws, g - 1);
      NextBlock(StartOf(n, paws, g - 1), n, g - 1, 0);
    }
  }

  /** Before the wrap the decoder's group number is the group's index. */
  lemma FirstPassNumber(n: nat, paws: U32, i: Idx)
    requires Layout(n, paws) && i.k < n && FirstPass(n, paws, i.g)
    ensures SeqId(n, paws, i) / n == i.g < TWO_31
  {
    FirstPassStart(n, paws, i.g);
    NextBlock(StartOf(n, paws, i.g), n, i.g, i.k);
    GroupNumberIsSmall(SeqId(n, paws, i), n);
  }

  /** How long that is: for as many groups as fit below the wrap point. */
  lemma {:induction false} FirstPassIff(n: nat, paws: U32, g: nat, end: nat)
    requires Layout(n, paws) && end == (g + 1) * n
    ensures FirstPass(n, paws, g) <==> end <= paws
  {
    if g > 0 {
      assert g * n == end - n by { assert (g + 1) * n == g * n + n; }
      MulMono(0, g, n);
      FirstPassIff(n, paws, g - 1, end - n);
      if FirstPass(n, paws, g - 1) {
        FirstPassStart(n, paws, g - 1);
        WholeBlocks(StartOf(n, paws, g - 1), n, g - 1, end);
      }
    }
  }

  lemma WholeBlocks(x: nat, n: nat, q: nat, end: nat)
    requires n > 0 && x / n == q && x % n == 0 && end == (q + 2) * n
    ensures x + 2 * n == end
  {
    assert x == q * n;
    assert (q + 2) * n == q * n + 2 * n;
  }

  // ----- Heaps of genuine packets

  function IdxOf(n: nat, g: nat, pkt: FecPacket): Idx
    requires n > 0
  {
    Idx(g, pkt.seqid % n)
  }

  function Idxs(n: nat, g: nat, es: seq<FecPacket>): set<Idx>
    requires n > 0
  {
    if es == [] then {} else Idxs(n, g, es[..|es| - 1]) + {IdxOf(n, g, es[|es| - 1])}
  }

  ghost predicate IsSent(s: Sender, g: nat, pkt: FecPacket)
    requires s.Valid()
  {
    s.Emitted(IdxOf(s.par.Size(), g, pkt)) && pkt == s.Sent(IdxOf(s.par.Size(), g, pkt))
  }

  ghost predicate Genuine(s: Sender, g: nat, es: seq<FecPacket>)
    requires s.Valid()
  {
    forall j :: 0 <= j < |es| ==> IsSent(s, g, es[j])
  }

  lemma {:induction false} SentIsGenuine(s: Sender, m: Idx)
    requires s.Valid() && s.Emitted(m)
    ensures IdxOf(s.par.Size(), m.g, s.Sent(m)) == m && IsSent(s, m.g, s.Sent(m))
  {
    SeqIdParts(s.par.Size(), s.paws, m);
  }

  /** The marks of a heap tell which packets of the group it holds. */
  lemma {:induction false} MarksTellIndices(s: Sender, g: nat, es: seq<FecPacket>, m: Idx)
    requires s.Valid() && Genuine(s, g, es) && s.Emitted(m) && m.g == g
    ensures s.Sent(m).seqid in Nums(es) <==> m in Idxs(s.par.Size(), g, es)
  {
    if es != [] {
      MarksTellIndices(s, g, es[..|es| - 1], m);
      SentIsGenuine(s, m);
      assert IsSent(s, g, es[|es| - 1]);
    }
  }

  lemma {:induction false} ApartIndices(s: Sender, g: nat, es: seq<FecPacket>)
    requires s.Valid() && Genuine(s, g, es) && Apart(es)
    ensures |Idxs(s.par.Size(), g, es)| == |es|
    ensures es != [] ==> IdxOf(s.par.Size(), g, es[|es| - 1]) !in Idxs(s.par.Size(), g, es[..|es| - 1])
  {
    if es != [] {
      ApartIndices(s, g, es[..|es| - 1]);
      assert IsSent(s, g, es[|es| - 1]);
      MarksTellIndices(s, g, es[..|es| - 1], IdxOf(s.par.Size(), g, es[|es| - 1]));
    }
  }

  lemma {:induction false} TakeGenuine(s: Sender, g: nat, acc: Assembly, held: set<Idx>, pkt: FecPacket)
    requires s.Valid() && Collected(s, g, acc, held) && IsSent(s, g, pkt)
    requires IdxOf(s.par.Size(), g, pkt) !in held
    ensures Collected(s, g, acc.Take(s.par.Size(), 0, pkt), held + {IdxOf(s.par.Size(), g, pkt)})
  {
    TakeOne(s, g, acc, held, IdxOf(s.par.Size(), g, pkt), 0);
  }

  lemma MoveAcross<T>(a: set<T>, x: T, b: set<T>)
    requires x !in a && a + {x} !! b
    ensures x !in b && a !! b + {x} && b + {x} + a == b + (a + {x})
  {}

  /** `acc` and the heap hold different packets of the group. */
  ghost predicate Splits(s: Sender, g: nat, es: seq<FecPacket>, acc: Assembly, held: set<Idx>)
    requires s.Valid()
  {
    && Genuine(s, g, es) && Apart(es) && Collected(s, g, acc, held)
    && Idxs(s.par.Size(), g, es) !! held
  }

  lemma {:induction false} PopOne(s: Sender, g: nat, es: seq<FecPacket>, acc: Assembly, held: set<Idx>)
    requires s.Valid() && Splits(s, g, es, acc, held) && es != []
    ensures var n, front, top := s.par.Size(), es[..|es| - 1], es[|es| - 1];
            var more := held + {IdxOf(n, g, top)};
            Splits(s, g, front, acc.Take(n, 0, top), more) && more + Idxs(n, g, front) == held + Idxs(n, g, es)
  {
    var n, front, top := s.par.Size(), es[..|es| - 1], es[|es| - 1];
    ApartIndices(s, g, es);
    MoveAcross(Idxs(n, g, front), IdxOf(n, g, top), held);
    assert IsSent(s, g, top);
    TakeGenuine(s, g, acc, held, top);
  }

  lemma {:induction false} GatherCollects(s: Sender, g: nat, es: seq<FecPacket>, acc: Assembly, held: set<Idx>)
    requires s.Valid() && Splits(s, g, es, acc, held)
    ensures Collected(s, g, Gather(s.par.Size(), es, acc), held + Idxs(s.par.Size(), g, es))
    decreases |es|
  {
    var n := s.par.Size();
    if es == [] {
      assert held + Idxs(n, g, es) == held;
    } else {
      var top := es[|es| - 1];
      PopOne(s, g, es, acc, held);
      GatherCollects(s, g, es[..|es| - 1], acc.Take(n, 0, top), held + {IdxOf(n, g, top)});
    }
  }

  /** A heap that is complete gives exactly the data packets of its group that it lacks. */
  lemma {:induction false} YieldIsMissing(cfg: Config, s: Sender, g: nat, es: seq<FecPacket>)
    requires cfg.Valid() && s.Valid() && cfg.par == s.par && cfg.codec == s.codec
    requires Genuine(s, g, es) && Apart(es) && |es| == s.par.data
    ensures var ix := Missing(g, Idxs(s.par.Size(), g, es), s.par.data);
            AllInWholeGroups(s, ix) && Yield(cfg, es) == Shards(s, ix)
  {
    var n := s.par.Size();
    EmptyCollected(s, g);
    GatherCollects(s, g, es, EmptyAssembly(n), {});
    assert {} + Idxs(n, g, es) == Idxs(n, g, es);
    ApartIndices(s, g, es);
    CollectedRecovers(cfg, s, g, Gather(n, es, EmptyAssembly(n)), Idxs(n, g, es));
  }

  // ----- The decoder over sets

  /** The newest group seen and the packets held. */
  datatype Window = Window(newest: nat, held: set<Idx>)

  datatype Arrival = Arrival(window: Window, drained: set<Idx>)

  /** Packets of groups older than the newest, and packets held already, are refused. Any other
      joins its group; a group of `data` packets is taken out; groups more than three behind the
      newest are forgotten. */
  function Arrive(par: Params, w: Window, m: Idx): Arrival {
    if m.g < w.newest || m in w.held then Arrival(w, {})
    else
      var all := w.held + {m};
      var group := Group(all, m.g);
      var drained := if |group| >= par.data then group else {};
      Arrival(Window(m.g, set i | i in all && i !in drained && m.g <= i.g + 3), drained)
  }

  /** The heap of group `g` holds exactly the packets `held`. */
  ghost predicate HeapShows(s: Sender, g: nat, h: Heap, held: set<Idx>)
    requires s.Valid()
  {
    Genuine(s, g, h.elements) && Idxs(s.par.Size(), g, h.elements) == held
  }

  ghost predicate Tied(s: Sender, st: State) {
    s.Valid() && Orderly(st) && !st.shouldTune && st.par == s.par && st.codec == s.codec
  }

  ghost predicate Shows(s: Sender, st: State, w: Window) {
    && Tied(s, st) && w.newest == st.minShard
    && (forall g: nat :: g < TWO_32 ==> HeapShows(s, g, st.HeapAt(g), Group(w.held, g)))
    && (forall i :: i in w.held ==> i.g <= w.newest)
  }

  /** A genuine packet never starts tuning. */
  lemma {:induction false} GenuineIsTyped(s: Sender, m: Idx)
    requires s.Valid() && s.Emitted(m)
    ensures !Mistyped(s.par, s.Sent(m))
  {
    SeqIdParts(s.par.Size(), s.paws, m);
  }

  lemma {:induction false} OneMoreShows(s: Sender, g: nat, es: seq<FecPacket>, pkt: FecPacket, more: seq<FecPacket>)
    requires s.Valid() && Genuine(s, g, es) && IsSent(s, g, pkt) && more == es + [pkt]
    ensures Genuine(s, g, more)
    ensures Idxs(s.par.Size(), g, more) == Idxs(s.par.Size(), g, es) + {IdxOf(s.par.Size(), g, pkt)}
  {
    assert more[..|more| - 1] == es;
  }

  lemma {:induction false} PushShows(s: Sender, h: Heap, held: set<Idx>, m: Idx)
    requires s.Valid() && s.Emitted(m) && HeapShows(s, m.g, h, held)
    ensures HeapShows(s, m.g, h.Push(s.Sent(m)), held + {m})
  {
    SentIsGenuine(s, m);
    OneMoreShows(s, m.g, h.elements, s.Sent(m), h.Push(s.Sent(m)).elements);
  }

  /** A packet that is not refused changes the heap of its group. */
  lemma {:induction false} StoreIsPut(st: State, id: U32, pkt: FecPacket)
    requires Orderly(st) && !st.shouldTune
    requires st.minShard <= id < TWO_31 && !st.HeapAt(id).Has(pkt.seqid)
    ensures StoreAt(st, id, pkt).state == Put(st, id, NewHeap(st, id, pkt))
  {
    PlainDiff(id, st.minShard);
  }

  /** The heaps after one was put back. */
  lemma {:induction false} HeapsAfter(st: State, id: U32, h: Heap, g: U32)
    requires Orderly(st) && st.minShard <= id < TWO_31
    ensures Put(st, id, h).HeapAt(g) ==
      if g == id then h else if id <= g + MAX_SHARD_SETS then st.HeapAt(g) else Heap([], {})
  {
    PlainDiff(id, st.minShard);
    if g in st.sets || g == id {
      PlainDiff(id, g);
    }
  }

  lemma {:induction false} StoredHeap(st: State, id: U32, pkt: FecPacket, h: Heap, g: U32)
    requires Orderly(st) && !st.shouldTune && st.minShard <= id < TWO_31 && !st.HeapAt(id).Has(pkt.seqid)
    requires h == NewHeap(st, id, pkt)
    ensures StoreAt(st, id, pkt).state.HeapAt(g) ==
      if g == id then h else if id <= g + MAX_SHARD_SETS then st.HeapAt(g) else Heap([], {})
  {
    StoreIsPut(st, id, pkt);
    HeapsAfter(st, id, h, g);
  }

  /** The same for the decoder over sets. */
  lemma GroupsAfter(par: Params, w: Window, m: Idx, g: nat)
    requires m.g >= w.newest && m !in w.held && par.data > 0
    ensures var r, group := Arrive(par, w, m), Group(w.held, m.g) + {m};
            && r.window.newest == m.g
            && r.drained == (if |group| >= par.data then group else {})
            && Group(r.window.held, g) ==
                 if g == m.g then (if |group| >= par.data then {} else group)
                 else if m.g <= g + MAX_SHARD_SETS then Group(w.held, g) else {}
  {
    assert Group(w.held + {m}, m.g) == Group(w.held, m.g) + {m};
  }

  /** A packet before the wrap belongs to the heap of its group. */
  lemma {:induction false} FiledByGroup(s: Sender, m: Idx)
    requires s.Valid() && s.Emitted(m) && FirstPass(s.par.Size(), s.paws, m.g)
    ensures m.g < TWO_31 && GroupId(s.par, s.Sent(m).seqid) == m.g && Belongs(s.par, m.g, s.Sent(m))
  {
    FirstPassNumber(s.par.Size(), s.paws, m);
    GenuineIsTyped(s, m);
  }

  ghost predicate Fresh(s: Sender, st: State, w: Window, m: Idx) {
    && Shows(s, st, w) && s.Emitted(m) && m.g < TWO_31 && Belongs(s.par, m.g, s.Sent(m))
    && m.g >= w.newest && m !in w.held
  }

  /** The heap that takes the packet in. */
  lemma {:induction false} FreshHeap(s: Sender, st: State, w: Window, m: Idx)
    requires Fresh(s, st, w, m)
    ensures !st.HeapAt(m.g).Has(s.Sent(m).seqid)
    ensures var h := st.HeapAt(m.g).Push(s.Sent(m));
            && HeapShows(s, m.g, h, Group(w.held, m.g) + {m})
            && Apart(h.elements) && |h.elements| == |Group(w.held, m.g) + {m}|
  {
    var h, held := st.HeapAt(m.g), Group(w.held, m.g);
    assert HeapShows(s, m.g, h, held);
    MarksTellIndices(s, m.g, h.elements, m);
    assert h.marks == Nums(h.elements);
    PushApart(h, s.Sent(m));
    PushShows(s, h, held, m);
    ApartIndices(s, m.g, h.Push(s.Sent(m)).elements);
  }

  lemma {:induction false} NewHeapShows(s: Sender, st: State, w: Window, m: Idx, h: Heap)
    requires Fresh(s, st, w, m) && h == NewHeap(st, m.g, s.Sent(m))
    ensures !st.HeapAt(m.g).Has(s.Sent(m).seqid)
    ensures var group := Group(w.held, m.g) + {m}; HeapShows(s, m.g, h, if |group| >= s.par.data then {} else group)
  {
    FreshHeap(s, st, w, m);
    NewHeapOk(st, m.g, s.Sent(m));
  }

  lemma {:induction false} FreshHeapsShow(s: Sender, st: State, w: Window, m: Idx, g: nat)
    requires Fresh(s, st, w, m) && g < TWO_32
    ensures HeapShows(s, g, StoreAt(st, m.g, s.Sent(m)).state.HeapAt(g), Group(Arrive(s.par, w, m).window.held, g))
  {
    var h := NewHeap(st, m.g, s.Sent(m));
    NewHeapShows(s, st, w, m, h);
    StoredHeap(st, m.g, s.Sent(m), h, g);
    GroupsAfter(s.par, w, m, g);
    assert HeapShows(s, g, st.HeapAt(g), Group(w.held, g));
  }

  lemma {:induction false} YieldAfter(st: State, id: U32, pkt: FecPacket)
    requires Orderly(st) && !st.shouldTune
    requires st.minShard <= id < TWO_31 && !st.HeapAt(id).Has(pkt.seqid)
    ensures var es := st.HeapAt(id).Push(pkt).elements;
            && StoreAt(st, id, pkt).recovered == (if |es| >= st.par.data then Yield(st.Cfg(), es) else [])
            && (Completes(st, id, pkt) <==> |es| >= st.par.data)
            && |es| <= st.par.data
  {
    PlainDiff(id, st.minShard);
    assert HeapOk(st.par, id, st.HeapAt(id));
  }

  lemma {:induction false} FreshYield(s: Sender, st: State, w: Window, m: Idx)
    requires Fresh(s, st, w, m)
    ensures var drained := Arrive(s.par, w, m).drained;
            && AllInWholeGroups(s, Rebuilt(s.par, m.g, drained))
            && StoreAt(st, m.g, s.Sent(m)).recovered == Shards(s, Rebuilt(s.par, m.g, drained))
            && (Completes(st, m.g, s.Sent(m)) <==> drained != {})
  {
    FreshHeap(s, st, w, m);
    GroupsAfter(s.par, w, m, m.g);
    YieldAfter(st, m.g, s.Sent(m));
    var h, group := st.HeapAt(m.g).Push(s.Sent(m)), Group(w.held, m.g) + {m};
    assert m in group;
    if |group| >= s.par.data {
      YieldIsMissing(st.Cfg(), s, m.g, h.elements);
    }
  }

  lemma {:induction false} RefusedTwice(s: Sender, st: State, w: Window, m: Idx)
    requires Shows(s, st, w) && s.Emitted(m) && m.g < TWO_31 && m in w.held
    ensures StoreAt(st, m.g, s.Sent(m)) == ShardMap.Outcome(st, []) && !Completes(st, m.g, s.Sent(m))
  {
    assert HeapShows(s, m.g, st.HeapAt(m.g), Group(w.held, m.g));
    MarksTellIndices(s, m.g, st.HeapAt(m.g).elements, m);
    assert m in Group(w.held, m.g);
  }

  lemma {:induction false} FreshTied(s: Sender, st: State, w: Window, m: Idx)
    requires Fresh(s, st, w, m)
    ensures Tied(s, StoreAt(st, m.g, s.Sent(m)).state)
    ensures StoreAt(st, m.g, s.Sent(m)).state.minShard == m.g
  {
    FreshHeap(s, st, w, m);
    StoreIsPut(st, m.g, s.Sent(m));
    NewHeapOk(st, m.g, s.Sent(m));
    PutKeepsOrder(st, m.g, NewHeap(st, m.g, s.Sent(m)));
  }

  lemma {:induction false} FreshShows(s: Sender, st: State, w: Window, m: Idx)
    requires Fresh(s, st, w, m)
    ensures Shows(s, StoreAt(st, m.g, s.Sent(m)).state, Arrive(s.par, w, m).window)
  {
    var r, a := StoreAt(st, m.g, s.Sent(m)).state, Arrive(s.par, w, m).window;
    FreshTied(s, st, w, m);
    forall g: nat | g < TWO_32
      ensures HeapShows(s, g, r.HeapAt(g), Group(a.held, g))
    {
      FreshHeapsShow(s, st, w, m, g);
    }
  }

  lemma {:induction false} StoreRefines(s: Sender, st: State, w: Window, m: Idx)
    requires Shows(s, st, w) && s.Emitted(m) && m.g < TWO_31 && Belongs(s.par, m.g, s.Sent(m))
    ensures var r, a := StoreAt(st, m.g, s.Sent(m)), Arrive(s.par, w, m);
            && Shows(s, r.state, a.window)
            && AllInWholeGroups(s, Rebuilt(s.par, m.g, a.drained))
            && r.recovered == Shards(s, Rebuilt(s.par, m.g, a.drained))
            && (Completes(st, m.g, s.Sent(m)) <==> a.drained != {})
  {
    if m.g < w.newest {
      PlainDiff(m.g, st.minShard);
    } else if m in w.held {
      RefusedTwice(s, st, w, m);
    } else {
      FreshYield(s, st, w, m);
      FreshShows(s, st, w, m);
    }
  }

  /** One packet of a first pass, in any order: the decoder keeps its parameters, and what it keeps
      and hands out is what the decoder over sets keeps and hands out. */
  lemma {:induction false} ShardStepRefines(make: Factory, s: Sender, st: State, w: Window, m: Idx)
    requires Lawful(make) && Shows(s, st, w) && s.Emitted(m) && FirstPass(s.par.Size(), s.paws, m.g)
    ensures var r, a := Step(make, st, s.Sent(m)), Arrive(s.par, w, m);
            && Shows(s, r.state, a.window)
            && AllInWholeGroups(s, Rebuilt(s.par, m.g, a.drained))
            && r.recovered == Shards(s, Rebuilt(s.par, m.g, a.drained))
            && (Completes(Sense(st, s.Sent(m)), m.g, s.Sent(m)) <==> a.drained != {})
            && m.g < TWO_31 && GroupId(s.par, s.Sent(m).seqid) == m.g
  {
    FiledByGroup(s, m);
    var sensed := Sense(st, s.Sent(m));
    forall g: nat | g < TWO_32
      ensures HeapShows(s, g, sensed.HeapAt(g), Group(w.held, g))
    {
      assert sensed.HeapAt(g) == st.HeapAt(g);
    }
    StoreRefines(s, sensed, w, m);
  }
}
