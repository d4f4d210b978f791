/** A decoder over sets of send indices: what the two real decoders are compared with. It has no
    queue order, no serial arithmetic, no search window and no caches. */
module Reference {
  import opened Codec
  import opened Numbering
  import opened Sets

  /** The held packets of group `g`. */
  function Group(held: set<Idx>, g: nat): set<Idx> {
    set i | i in held && i.g == g
  }

  /** `j` packets of group `g` from position `base` on. */
  function Stretch(g: nat, base: nat, j: nat): (r: set<Idx>)
    ensures forall i :: i in r <==> i.g == g && base <= i.k < base + j
    ensures |r| == j
  {
    if j == 0 then {} else Stretch(g, base, j - 1) + {Idx(g, base + j - 1)}
  }

  predicate IsFirst(i: Idx, held: set<Idx>) {
    i in held && forall j :: j in held && j != i ==> Less(i, j)
  }

  lemma FirstExists(held: set<Idx>)
    requires held != {}
    ensures exists i :: IsFirst(i, held)
    decreases held
  {
    var x :| x in held;
    var rest := held - {x};
    assert forall j :: j in held ==> j == x || j in rest;
    if rest == {} {
      assert IsFirst(x, held);
    } else {
      FirstExists(rest);
      var y :| IsFirst(y, rest);
      if Less(x, y) {
        assert IsFirst(x, held);
      } else {
        assert IsFirst(y, held);
      }
    }
  }

  /** The earliest held packet. */
  ghost function First(held: set<Idx>): (r: Idx)
    requires held != {}
    ensures IsFirst(r, held)
  {
    FirstExists(held);
    var i :| IsFirst(i, held);
    i
  }

  /** Outcome of one arrival: what is held afterwards and the group that was taken out. */
  datatype Outcome = Outcome(held: set<Idx>, drained: set<Idx>)

  /** A packet not held joins its group; a group of `data` packets is taken out; if more than
      `limit` packets remain, the earliest goes. */
  ghost function Receive(par: Params, limit: nat, held: set<Idx>, m: Idx): (r: Outcome)
    ensures r.held <= held + {m} && r.drained <= held + {m}
    ensures r.held !! r.drained
  {
    if m in held then Outcome(held, {})
    else
      var all := held + {m};
      var group := Group(all, m.g);
      var drained := if |group| >= par.data then group else {};
      var rest := all - drained;
      if |rest| > limit then Outcome(rest - {First(rest)}, drained) else Outcome(rest, drained)
  }

  /** The first `k` data positions of group `g` that are not in `drained`. */
  function Missing(g: nat, drained: set<Idx>, k: nat): seq<Idx> {
    if k == 0 then []
    else Missing(g, drained, k - 1) + (if Idx(g, k - 1) in drained then [] else [Idx(g, k - 1)])
  }

  /** The packets rebuilt when `drained` is taken out of group `g`. */
  function Rebuilt(par: Params, g: nat, drained: set<Idx>): seq<Idx> {
    if drained == {} then [] else Missing(g, drained, par.data)
  }

  lemma {:induction false} MissingElements(g: nat, drained: set<Idx>, k: nat)
    ensures forall i :: i in Missing(g, drained, k) <==> i.g == g && i.k < k && i !in drained
    ensures forall a, b :: 0 <= a < b < |Missing(g, drained, k)| ==> Less(Missing(g, drained, k)[a], Missing(g, drained, k)[b])
  {
    if k > 0 {
      MissingElements(g, drained, k - 1);
    }
  }

  lemma RebuiltElements(par: Params, g: nat, drained: set<Idx>)
    ensures forall i :: i in Rebuilt(par, g, drained) <==> drained != {} && i.g == g && i.k < par.data && i !in drained
    ensures Distinct(Rebuilt(par, g, drained))
  {
    MissingElements(g, drained, par.data);
  }

  /** Nothing gets lost but the earliest packet, and that only when a packet arrives at a full queue and
      completes nothing. */
  lemma ReceiveConserves(par: Params, limit: nat, held: set<Idx>, m: Idx)
    requires |held| <= limit
    ensures var r, all := Receive(par, limit, held, m), held + {m};
            if r.drained != {} || |all| <= limit then r.held + r.drained == all
            else exists x :: IsFirst(x, all) && r.held == all - {x}
  {
    var r, all := Receive(par, limit, held, m), held + {m};
    if m !in held {
      var rest := all - r.drained;
      if r.drained != {} {
        SmallerRest(all, r.drained);
      } else {
        assert rest == all;
        if |all| > limit {
          assert IsFirst(First(all), all) && r.held == all - {First(all)};
        }
      }
    } else {
      assert all == held;
    }
  }

  lemma SmallerRest(all: set<Idx>, part: set<Idx>)
    requires part <= all && part != {}
    ensures |all - part| < |all|
  {
    var rest := all - part;
    assert rest + part == all && rest !! part;
    assert |rest + part| == |rest| + |part|;
  }

  /** No group holds enough packets to be taken out. */
  ghost predicate Settled(par: Params, held: set<Idx>) {
    forall g :: |Group(held, g)| < par.data
  }

  lemma ReceiveSettles(par: Params, limit: nat, held: set<Idx>, m: Idx)
    requires par.data > 0 && Settled(par, held) && |held| <= limit
    ensures Settled(par, Receive(par, limit, held, m).held)
    ensures |Receive(par, limit, held, m).held| <= limit
  {
    var r := Receive(par, limit, held, m).held;
    forall g
      ensures |Group(r, g)| < par.data
    {
      if m !in held && g == m.g {
        if r * Group(held + {m}, g) == {} {
          assert Group(r, g) == {};
        } else {
          SubsetSize(Group(r, g), Group(held + {m}, g));
        }
      } else {
        assert Group(r, g) <= Group(held, g);
        SubsetSize(Group(r, g), Group(held, g));
      }
    }
    if m !in held {
      var rest := held + {m} - Receive(par, limit, held, m).drained;
      SubsetSize(rest, held + {m});
    }
  }
}
