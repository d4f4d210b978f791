/** How often a group is taken out of a decoder over sets, for arrivals in any order. */
module DrainOnce {
  import opened Codec
  import opened Numbering
  import opened Reference
  import opened ReferenceRuns
  import opened Sets

  // ----- Any decoder that keeps what it does not take out

  /** One arrival `m`: what is held and what is taken out was there or is `m`, nothing is both, and
      what is taken out are `data` or more packets of the group of `m`. */
  ghost predicate StepConserves(par: Params, before: set<Idx>, m: Idx, o: Outcome) {
    && o.held <= before + {m} && o.drained <= before + {m} && o.held !! o.drained
    && (forall i :: i in o.drained ==> i.g == m.g)
    && (o.drained != {} ==> |o.drained| >= par.data)
  }

  /** What is held after the outcomes `tr`. */
  function HeldNow(tr: seq<Outcome>): set<Idx> {
    if tr == [] then {} else tr[|tr| - 1].held
  }

  /** `tr` are the outcomes of the arrivals `run`. */
  ghost predicate Conserves(par: Params, run: seq<Idx>, tr: seq<Outcome>) {
    && |tr| == |run|
    && (run != [] ==>
          && Conserves(par, run[..|run| - 1], tr[..|tr| - 1])
          && StepConserves(par, HeldNow(tr[..|tr| - 1]), run[|run| - 1], tr[|tr| - 1]))
  }

  /** Packets of group `g` taken out during `run`. */
  ghost function TakenOut(run: seq<Idx>, tr: seq<Outcome>, g: nat): set<Idx>
    requires |tr| == |run|
  {
    if run == [] then {}
    else
      TakenOut(run[..|run| - 1], tr[..|tr| - 1], g) + (if run[|run| - 1].g == g then tr[|tr| - 1].drained else {})
  }

  /** Number of times that group `g` is taken out during `run`. */
  ghost function Drains(run: seq<Idx>, tr: seq<Outcome>, g: nat): nat
    requires |tr| == |run|
  {
    if run == [] then 0
    else
      Drains(run[..|run| - 1], tr[..|tr| - 1], g)
      + (if run[|run| - 1].g == g && tr[|tr| - 1].drained != {} then 1 else 0)
  }

  /** Everything rebuilt during `run`, in the order handed out. */
  ghost function RebuiltIn(par: Params, run: seq<Idx>, tr: seq<Outcome>): seq<Idx>
    requires |tr| == |run|
  {
    if run == [] then []
    else
      RebuiltIn(par, run[..|run| - 1], tr[..|tr| - 1]) + Rebuilt(par, run[|run| - 1].g, tr[|tr| - 1].drained)
  }

  lemma {:induction false} HeldArrived(par: Params, run: seq<Idx>, tr: seq<Outcome>)
    requires Conserves(par, run, tr)
    ensures HeldNow(tr) <= Elems(run)
  {
    if run != [] {
      HeldArrived(par, run[..|run| - 1], tr[..|tr| - 1]);
      ElemsOfPrefix(run);
    }
  }

  /** With every packet arriving at most once, what was taken out never comes back. */
  lemma {:induction false} TakenOutStaysOut(par: Params, run: seq<Idx>, tr: seq<Outcome>, g: nat)
    requires par.data > 0 && Distinct(run) && Conserves(par, run, tr)
    ensures TakenOut(run, tr, g) <= Elems(run)
    ensures TakenOut(run, tr, g) !! HeldNow(tr)
    ensures forall i :: i in TakenOut(run, tr, g) ==> i.g == g
    ensures Drains(run, tr, g) >= 1 ==> |TakenOut(run, tr, g)| >= par.data
  {
    if run != [] {
      var front, m, ftr := run[..|run| - 1], run[|run| - 1], tr[..|tr| - 1];
      TakenOutStaysOut(par, front, ftr, g);
      HeldArrived(par, front, ftr);
      ElemsOfPrefix(run);
      assert m !in Elems(front);
      if Drains(front, ftr, g) >= 1 {
        SubsetSize(TakenOut(front, ftr, g), TakenOut(run, tr, g));
      } else if m.g == g {
        SubsetSize(tr[|tr| - 1].drained, TakenOut(run, tr, g));
      }
    }
  }

  /** Two disjoint parts of a group with `data` packets each do not fit a group with less
      parity than data. */
  lemma NoRoomForTwo(par: Params, g: nat, a: set<Idx>, b: set<Idx>)
    requires par.parity < par.data && a !! b
    requires forall i :: i in a + b ==> i.g == g && i.k < par.Size()
    ensures |a| < par.data || |b| < par.data
  {
    assert a + b <= Stretch(g, 0, par.Size());
    SubsetSize(a + b, Stretch(g, 0, par.Size()));
  }

  /** With less parity than data and no packet arriving twice, each group is taken out at most
      once, in any order of arrival and with any evictions. */
  lemma {:induction false} TakenAtMostOnce(par: Params, run: seq<Idx>, tr: seq<Outcome>, g: nat)
    requires par.Valid() && par.parity < par.data && Distinct(run) && InGroups(par, run) && Conserves(par, run, tr)
    ensures Drains(run, tr, g) <= 1
  {
    if run != [] {
      var front, m, ftr := run[..|run| - 1], run[|run| - 1], tr[..|tr| - 1];
      TakenAtMostOnce(par, front, ftr, g);
      if m.g == g && Drains(front, ftr, g) == 1 {
        TakenOutStaysOut(par, front, ftr, g);
        HeldArrived(par, front, ftr);
        ElemsOfPrefix(run);
        assert m !in Elems(front);
        assert forall i :: i in Elems(run) ==> i.k < par.Size();
        NoRoomForTwo(par, g, TakenOut(front, ftr, g), tr[|tr| - 1].drained);
      }
    }
  }

  lemma {:induction false} RebuiltWasDrained(par: Params, run: seq<Idx>, tr: seq<Outcome>, i: Idx)
    requires |tr| == |run| && i in RebuiltIn(par, run, tr)
    ensures Drains(run, tr, i.g) >= 1
  {
    var front, ftr := run[..|run| - 1], tr[..|tr| - 1];
    RebuiltElements(par, run[|run| - 1].g, tr[|tr| - 1].drained);
    if i in RebuiltIn(par, front, ftr) {
      RebuiltWasDrained(par, front, ftr, i);
    }
  }

  /** Hence no packet is rebuilt twice. */
  lemma {:induction false} RebuiltOnce(par: Params, run: seq<Idx>, tr: seq<Outcome>)
    requires par.Valid() && par.parity < par.data && Distinct(run) && InGroups(par, run) && Conserves(par, run, tr)
    ensures Distinct(RebuiltIn(par, run, tr))
  {
    if run != [] {
      var front, m, ftr := run[..|run| - 1], run[|run| - 1], tr[..|tr| - 1];
      var last := Rebuilt(par, m.g, tr[|tr| - 1].drained);
      RebuiltOnce(par, front, ftr);
      RebuiltElements(par, m.g, tr[|tr| - 1].drained);
      forall i | i in Elems(last)
        ensures i !in Elems(RebuiltIn(par, front, ftr))
      {
        TakenAtMostOnce(par, run, tr, m.g);
        if i in RebuiltIn(par, front, ftr) {
          RebuiltWasDrained(par, front, ftr, i);
        }
      }
      DistinctConcat(RebuiltIn(par, front, ftr), last);
    }
  }

  // ----- The set decoder of the queue

  /** Its outcomes during `run`. */
  ghost function Trace(par: Params, limit: nat, run: seq<Idx>): (tr: seq<Outcome>)
    ensures |tr| == |run| && HeldNow(tr) == Held(par, limit, run)
  {
    if run == [] then []
    else
      Trace(par, limit, run[..|run| - 1]) + [Receive(par, limit, Held(par, limit, run[..|run| - 1]), run[|run| - 1])]
  }

  lemma TraceStep(par: Params, limit: nat, run: seq<Idx>)
    requires run != []
    ensures var tr := Trace(par, limit, run);
            && tr[..|tr| - 1] == Trace(par, limit, run[..|run| - 1])
            && tr[|tr| - 1].drained == LastDrained(par, limit, run)
  {}

  lemma {:induction false} TraceConserves(par: Params, limit: nat, run: seq<Idx>)
    requires par.data > 0
    ensures Conserves(par, run, Trace(par, limit, run))
  {
    if run != [] {
      TraceConserves(par, limit, run[..|run| - 1]);
      TraceStep(par, limit, run);
    }
  }

  ghost function RebuiltAll(par: Params, limit: nat, run: seq<Idx>): seq<Idx> {
    RebuiltIn(par, run, Trace(par, limit, run))
  }

  lemma RebuiltAllStep(par: Params, limit: nat, run: seq<Idx>)
    requires run != []
    ensures RebuiltAll(par, limit, run)
            == RebuiltAll(par, limit, run[..|run| - 1]) + Rebuilt(par, run[|run| - 1].g, LastDrained(par, limit, run))
  {
    TraceStep(par, limit, run);
  }

  lemma DrainedAtMostOnce(par: Params, limit: nat, run: seq<Idx>, g: nat)
    requires par.Valid() && par.parity < par.data && Distinct(run) && InGroups(par, run)
    ensures Drains(run, Trace(par, limit, run), g) <= 1
  {
    TraceConserves(par, limit, run);
    TakenAtMostOnce(par, run, Trace(par, limit, run), g);
  }

  lemma RebuiltAtMostOnce(par: Params, limit: nat, run: seq<Idx>)
    requires par.Valid() && par.parity < par.data && Distinct(run) && InGroups(par, run)
    ensures Distinct(RebuiltAll(par, limit, run))
  {
    TraceConserves(par, limit, run);
    RebuiltOnce(par, run, Trace(par, limit, run));
  }

  // ----- Parity no smaller than data

  /** `run` is the first packets of group `g`, without loss and in order. */
  ghost predicate Lossless(run: seq<Idx>, g: nat) {
    forall j :: 0 <= j < |run| ==> run[j] == Idx(g, j)
  }

  /** The next packet of a lossless stretch: the `data`-th one takes the stretch out. */
  lemma StretchGrows(par: Params, limit: nat, g: nat, base: nat, j: nat)
    requires par.Valid() && limit >= par.Size() && j < par.data
    ensures var r := Receive(par, limit, Stretch(g, base, j), Idx(g, base + j));
            && (j + 1 < par.data ==> r.held == Stretch(g, base, j + 1) && r.drained == {})
            && (j + 1 == par.data ==> r.held == {} && r.drained == Stretch(g, base, j + 1))
  {
    var held, m := Stretch(g, base, j), Idx(g, base + j);
    assert held + {m} == Stretch(g, base, j + 1);
    assert Group(held + {m}, g) == held + {m};
  }

  /** What is held after `k` packets of a group that arrives without loss: the group is taken
      out after `data` packets and its next packets are collected afresh. */
  function HeldAfter(g: nat, d: nat, k: nat): set<Idx> {
    if k < d then Stretch(g, 0, k) else Stretch(g, d, k - d)
  }

  lemma NextLossless(par: Params, limit: nat, g: nat, k: nat)
    requires par.Valid() && limit >= par.Size() && k + 1 < 2 * par.data
    ensures Receive(par, limit, HeldAfter(g, par.data, k), Idx(g, k)).held == HeldAfter(g, par.data, k + 1)
  {
    if k < par.data {
      StretchGrows(par, limit, g, 0, k);
    } else {
      StretchGrows(par, limit, g, par.data, k - par.data);
    }
  }

  lemma {:induction false} LosslessHeld(par: Params, limit: nat, g: nat, run: seq<Idx>)
    requires par.Valid() && limit >= par.Size() && Lossless(run, g) && |run| < 2 * par.data
    ensures Held(par, limit, run) == HeldAfter(g, par.data, |run|)
  {
    if run != [] {
      LosslessHeld(par, limit, g, run[..|run| - 1]);
      NextLossless(par, limit, g, |run| - 1);
    }
  }

  lemma {:induction false} ArrivedIsHandedOver(par: Params, limit: nat, lively: set<nat>, run: seq<Idx>, j: nat)
    requires j < |run| && run[j].k < par.data
    ensures run[j] in HandedOver(par, limit, lively, run)
  {
    if j < |run| - 1 {
      ArrivedIsHandedOver(par, limit, lively, run[..|run| - 1], j);
    }
  }

  /** With at least as much parity as data, a group that arrives whole and in order is handed
      over a second time. */
  lemma {:induction false} HandedOverTwice(par: Params, limit: nat, lively: set<nat>, g: nat, run: seq<Idx>)
    requires par.Valid() && limit >= par.Size() && g in lively
    requires Lossless(run, g) && |run| == 2 * par.data
    ensures !Distinct(HandedOver(par, limit, lively, run))
  {
    var front, first := run[..|run| - 1], Idx(g, 0);
    LosslessHeld(par, limit, g, front);
    StretchGrows(par, limit, g, par.data, par.data - 1);
    assert Idx(g, par.data) in Stretch(g, par.data, par.data);
    LastHandedElements(par, limit, lively, run, first);
    ArrivedIsHandedOver(par, limit, lively, front, 0);
    SharedElement(HandedOver(par, limit, lively, front), LastHanded(par, limit, lively, run), first);
  }

  lemma SharedElement<T>(a: seq<T>, b: seq<T>, x: T)
    requires x in a && x in b
    ensures !Distinct(a + b)
  {
    var i :| 0 <= i < |a| && a[i] == x;
    var j :| 0 <= j < |b| && b[j] == x;
    assert (a + b)[i] == (a + b)[|a| + j];
  }
}
