/** Whole runs of the set decoder: what a sequence of arrivals leaves held, takes out and
    hands over. */
module ReferenceRuns {
  import opened Codec
  import opened Numbering
  import opened Reference
  import opened Sets

  /** What is held after the arrivals `run`. */
  ghost function Held(par: Params, limit: nat, run: seq<Idx>): (r: set<Idx>)
    ensures r <= Elems(run)
  {
    if run == [] then {}
    else Receive(par, limit, Held(par, limit, run[..|run| - 1]), run[|run| - 1]).held
  }

  /** What the last arrival of `run` takes out. */
  ghost function LastDrained(par: Params, limit: nat, run: seq<Idx>): set<Idx>
    requires run != []
  {
    Receive(par, limit, Held(par, limit, run[..|run| - 1]), run[|run| - 1]).drained
  }

  lemma OneMore(par: Params, limit: nat, run: seq<Idx>, m: Idx)
    ensures Held(par, limit, run + [m]) == Receive(par, limit, Held(par, limit, run), m).held
    ensures LastDrained(par, limit, run + [m]) == Receive(par, limit, Held(par, limit, run), m).drained
  {
    assert (run + [m])[..|run + [m]| - 1] == run;
  }

  /** Every packet of `run` has a position inside its group. */
  ghost predicate InGroups(par: Params, run: seq<Idx>) {
    forall j :: 0 <= j < |run| ==> run[j].k < par.Size()
  }

  lemma GroupFits(held: set<Idx>, g: nat, k: nat)
    requires forall i :: i in held && i.g == g ==> i.k < k
    ensures |Group(held, g)| <= k
  {
    assert Group(held, g) <= Stretch(g, 0, k);
    SubsetSize(Group(held, g), Stretch(g, 0, k));
  }

  lemma ElemsOfPrefix(run: seq<Idx>)
    requires run != []
    ensures Elems(run) == Elems(run[..|run| - 1]) + {run[|run| - 1]}
  {
    assert run == run[..|run| - 1] + [run[|run| - 1]];
    ElemsConcat(run[..|run| - 1], [run[|run| - 1]]);
  }

  // ----- Arrivals in order

  /** Eviction never touches the group being received: everything else held is older, and there
      is something else. */
  lemma EvictionSparesCurrent(rest: set<Idx>, g: nat)
    requires forall i :: i in rest ==> i.g <= g
    requires |rest| > |Group(rest, g)|
    ensures rest != {} && First(rest).g < g
  {
    if rest <= Group(rest, g) {
      SubsetSize(rest, Group(rest, g));
      assert false;
    }
    var older :| older in rest && older !in Group(rest, g);
  }

  /** The newest group collects packets until it has `data` of them and then starts over,
      whatever is evicted meanwhile. */
  lemma CurrentGroupEvolves(par: Params, limit: nat, held: set<Idx>, m: Idx)
    requires par.Valid() && limit >= par.Size() && m !in held
    requires forall i :: i in held ==> i.g <= m.g
    requires |Group(held, m.g)| < par.data
    ensures var r, group := Receive(par, limit, held, m), Group(held, m.g) + {m};
            && r.drained == (if |group| >= par.data then group else {})
            && Group(r.held, m.g) == (if |group| >= par.data then {} else group)
  {
    var all := held + {m};
    assert Group(all, m.g) == Group(held, m.g) + {m};
    var r := Receive(par, limit, held, m);
    var rest := all - r.drained;
    if r.drained == {} && |rest| > limit {
      EvictionSparesCurrent(rest, m.g);
    }
  }

  /** With less parity than data a group is ready once: while there are fewer than `data`
      arrivals they are all held; the one that makes `data` takes them all out; after that there
      are never enough again. */
  lemma CurrentGroupStep(par: Params, limit: nat, held: set<Idx>, seen: set<Idx>, m: Idx)
    requires par.Valid() && limit >= par.Size() && par.parity < par.data
    requires m !in held && m !in seen && |seen| < par.Size()
    requires forall i :: i in held ==> i.g <= m.g
    requires |seen| < par.data ==> Group(held, m.g) == seen
    requires |seen| >= par.data ==> |Group(held, m.g)| <= |seen| - par.data
    ensures var r := Receive(par, limit, held, m);
            && r.drained == (if |seen| + 1 == par.data then seen + {m} else {})
            && (|seen| + 1 < par.data ==> Group(r.held, m.g) == seen + {m})
            && (|seen| + 1 >= par.data ==> |Group(r.held, m.g)| <= |seen| + 1 - par.data)
  {
    CurrentGroupEvolves(par, limit, held, m);
  }

  /** State of the newest group after arrivals in order. */
  lemma CurrentGroup(par: Params, limit: nat, run: seq<Idx>, g: nat)
    requires par.Valid() && limit >= par.Size() && par.parity < par.data
    requires InOrder(run) && InGroups(par, run) && forall i :: i in run ==> i.g <= g
    ensures var seen := Group(Elems(run), g);
            && |seen| <= par.Size()
            && (|seen| < par.data ==> Group(Held(par, limit, run), g) == seen)
            && (|seen| >= par.data ==> |Group(Held(par, limit, run), g)| <= |seen| - par.data)
    decreases |run|
  {
    GroupFits(Elems(run), g, par.Size());
    if run != [] {
      var front, m := run[..|run| - 1], run[|run| - 1];
      ElemsOfPrefix(run);
      if m.g < g {
        assert forall i :: i in run ==> i.g <= m.g;
        assert Group(Elems(run), g) == {};
        assert Group(Held(par, limit, run), g) == {};
      } else {
        NewestStep(par, limit, run);
      }
    }
  }

  /** The last of the arrivals in order, with the state it finds. */
  lemma {:induction false} NewestStep(par: Params, limit: nat, run: seq<Idx>)
    requires par.Valid() && limit >= par.Size() && par.parity < par.data
    requires InOrder(run) && InGroups(par, run) && run != []
    ensures var m := run[|run| - 1];
            var seen := Group(Elems(run), m.g);
            && LastDrained(par, limit, run) == (if |seen| == par.data then seen else {})
            && (|seen| < par.data ==> Group(Held(par, limit, run), m.g) == seen)
            && (|seen| >= par.data ==> |Group(Held(par, limit, run), m.g)| <= |seen| - par.data)
    decreases |run|, 0
  {
    var front, m := run[..|run| - 1], run[|run| - 1];
    ElemsOfPrefix(run);
    CurrentGroup(par, limit, front, m.g);
    var seen := Group(Elems(front), m.g);
    assert Group(Elems(run), m.g) == seen + {m};
    GroupFits(Elems(run), m.g, par.Size());
    CurrentGroupStep(par, limit, Held(par, limit, front), seen, m);
  }

  // ----- What the reader gets

  /** Indices handed to the reader: each data packet as it arrives, then what its arrival lets
      the decoder rebuild. Rebuilt shards of a group whose payloads are all empty are passed
      over; `lively` tells which groups have anything in them. */
  ghost function HandedOver(par: Params, limit: nat, lively: set<nat>, run: seq<Idx>): seq<Idx> {
    if run == [] then []
    else
      HandedOver(par, limit, lively, run[..|run| - 1]) + LastHanded(par, limit, lively, run)
  }

  /** The reader is owed a data packet that arrived, and every data packet of a group of which
      enough arrived. */
  ghost predicate Owed(par: Params, lively: set<nat>, run: seq<Idx>, i: Idx) {
    i.k < par.data && (i in run || (i.g in lively && |Group(Elems(run), i.g)| >= par.data))
  }

  /** A data packet that arrives in order finds its group not yet complete. */
  lemma DataComesFirst(par: Params, run: seq<Idx>)
    requires InOrder(run) && run != [] && run[|run| - 1].k < par.data
    ensures |Group(Elems(run[..|run| - 1]), run[|run| - 1].g)| <= run[|run| - 1].k
  {
    GroupFits(Elems(run[..|run| - 1]), run[|run| - 1].g, run[|run| - 1].k);
  }

  /** Only the group of the last arrival changes. */
  lemma OwedGrows(par: Params, lively: set<nat>, run: seq<Idx>, i: Idx)
    requires run != []
    ensures var front, m := run[..|run| - 1], run[|run| - 1];
            Owed(par, lively, front, i) ==> Owed(par, lively, run, i)
    ensures var front, m := run[..|run| - 1], run[|run| - 1];
            Owed(par, lively, run, i) && i.g != m.g ==> Owed(par, lively, front, i)
  {
    var front, m := run[..|run| - 1], run[|run| - 1];
    ElemsOfPrefix(run);
    assert Group(Elems(front), i.g) <= Group(Elems(run), i.g);
    SubsetSize(Group(Elems(front), i.g), Group(Elems(run), i.g));
    if i.g != m.g {
      assert Group(Elems(front), i.g) == Group(Elems(run), i.g);
    }
  }

  /** The arrival `m` finds `before` of its group: what becomes due within the group. */
  lemma DueInGroup(d: nat, live: bool, before: set<Idx>, m: Idx, i: Idx)
    requires m !in before && d > 0 && (m.k < d ==> |before| < d)
    ensures var drained := if |before| + 1 == d then before + {m} else {};
            (i == m && m.k < d) || (live && drained != {} && i.k < d && i !in drained)
            <==>
            && i.k < d
            && (i in before + {m} || (live && |before| + 1 >= d))
            && !(i in before || (live && |before| >= d))
  {}

  /** Indices handed over at the last arrival. */
  ghost function LastHanded(par: Params, limit: nat, lively: set<nat>, run: seq<Idx>): seq<Idx>
    requires run != []
  {
    var m := run[|run| - 1];
    (if m.k < par.data then [m] else [])
    + (if m.g in lively then Rebuilt(par, m.g, LastDrained(par, limit, run)) else [])
  }

  lemma LastHandedElements(par: Params, limit: nat, lively: set<nat>, run: seq<Idx>, i: Idx)
    requires run != []
    ensures var m, drained := run[|run| - 1], LastDrained(par, limit, run);
            i in LastHanded(par, limit, lively, run)
            <==> || (i == m && m.k < par.data)
                 || (m.g in lively && drained != {} && i.g == m.g && i.k < par.data && i !in drained)
  {
    RebuiltElements(par, run[|run| - 1].g, LastDrained(par, limit, run));
  }

  /** What was owed of the group before its last arrival `m`, and what is owed now. */
  lemma OwedInGroup(par: Params, lively: set<nat>, run: seq<Idx>, before: set<Idx>, i: Idx)
    requires run != [] && i.g == run[|run| - 1].g
    requires before == Group(Elems(run[..|run| - 1]), i.g)
    requires InOrder(run)
    ensures var m := run[|run| - 1];
            && m !in before && Group(Elems(run), i.g) == before + {m}
            && (Owed(par, lively, run[..|run| - 1], i)
                <==> i.k < par.data && (i in before || (i.g in lively && |before| >= par.data)))
            && (Owed(par, lively, run, i)
                <==> i.k < par.data && (i in before + {m} || (i.g in lively && |before| + 1 >= par.data)))
  {
    ElemsOfPrefix(run);
    assert Group(Elems(run), i.g) == before + {run[|run| - 1]};
  }

  /** What the last arrival hands over is owed now and was not owed before. */
  lemma LastHandsOverExactly(par: Params, limit: nat, lively: set<nat>, run: seq<Idx>, i: Idx)
    requires par.Valid() && limit >= par.Size() && par.parity < par.data
    requires InOrder(run) && InGroups(par, run) && run != []
    ensures i in LastHanded(par, limit, lively, run)
            <==> Owed(par, lively, run, i) && !Owed(par, lively, run[..|run| - 1], i)
  {
    var m := run[|run| - 1];
    LastHandedElements(par, limit, lively, run, i);
    if i.g == m.g {
      var before := Group(Elems(run[..|run| - 1]), m.g);
      OwedInGroup(par, lively, run, before, i);
      NewestStep(par, limit, run);
      if m.k < par.data {
        DataComesFirst(par, run);
      }
      DueInGroup(par.data, m.g in lively, before, m, i);
    } else {
      OwedGrows(par, lively, run, i);
    }
  }

  lemma LastHandedDistinct(par: Params, limit: nat, lively: set<nat>, run: seq<Idx>)
    requires par.Valid() && limit >= par.Size() && par.parity < par.data
    requires InOrder(run) && InGroups(par, run) && run != []
    ensures Distinct(LastHanded(par, limit, lively, run))
  {
    var m := run[|run| - 1];
    var drained := LastDrained(par, limit, run);
    RebuiltElements(par, m.g, drained);
    NewestStep(par, limit, run);
    assert m in Elems(run);
    assert drained == {} || m in drained;
    DistinctConcat(if m.k < par.data then [m] else [], if m.g in lively then Rebuilt(par, m.g, drained) else []);
  }

  /** With less parity than data, arrivals in order hand over exactly what is owed, each packet
      once, whatever was lost and whatever the queue limit evicted. */
  lemma HandsOverOnce(par: Params, limit: nat, lively: set<nat>, run: seq<Idx>)
    requires par.Valid() && limit >= par.Size() && par.parity < par.data
    requires InOrder(run) && InGroups(par, run)
    ensures Distinct(HandedOver(par, limit, lively, run))
    ensures forall i :: i in HandedOver(par, limit, lively, run) <==> Owed(par, lively, run, i)
  {
    if run == [] {
      assert Group(Elems(run), 0) == {};
    } else {
      var front := run[..|run| - 1];
      HandsOverOnce(par, limit, lively, front);
      var before, last := HandedOver(par, limit, lively, front), LastHanded(par, limit, lively, run);
      forall i
        ensures i in before || i in last <==> Owed(par, lively, run, i)
        ensures i in last ==> i !in before
      {
        LastHandsOverExactly(par, limit, lively, run, i);
        OwedGrows(par, lively, run, i);
      }
      LastHandedDistinct(par, limit, lively, run);
      DistinctConcat(before, last);
    }
  }
}
