/** Flows over time: which of them the cleaner leaves alone. Lookups, packets, bindings and clean-ups of a
    flow table in any order. */
module FlowTimes {
  import opened Base
  import opened FlowTable

  datatype Act = Look(key: Key, now: int) | Touch(id: nat, now: int) | Bind(id: nat, conn: nat) | Clean(now: int)

  predicate Possible(c: Contents, a: Act) {
    match a
    case Touch(id, _) => id in c.flows
    case Bind(id, _) => id in c.flows
    case _ => true
  }

  function Do(c: Contents, a: Act): Contents
    requires Possible(c, a)
  {
    match a
    case Look(k, now) => Locked(c, k, now)
    case Touch(id, now) => Touched(c, id, now)
    case Bind(id, conn) => Bound(c, id, conn)
    case Clean(now) => Cleaned(c, now)
  }

  function After(c: Contents, acts: seq<Act>): Option<Contents> {
    if acts == [] then Some(c)
    else
      var before := After(c, acts[..|acts| - 1]);
      if before.Some? && Possible(before.value, acts[|acts| - 1]) then Some(Do(before.value, acts[|acts| - 1])) else None
  }

  /** A packet of the flow object `id`. */
  predicate IsPacket(a: Act, id: nat) {
    a.Touch? && a.id == id
  }

  /** When the flow object last had a packet: the last of the packets in `acts`, or its time before them. */
  function LastPacket(ts: int, acts: seq<Act>, id: nat): int {
    if acts == [] then ts
    else
      var a := acts[|acts| - 1];
      if IsPacket(a, id) then a.now else LastPacket(ts, acts[..|acts| - 1], id)
  }

  lemma DoSound(c: Contents, a: Act)
    requires c.Sound() && Possible(c, a)
    ensures Do(c, a).Sound()
  {}

  /** Nothing but a packet changes the time of a flow object. */
  lemma {:induction false} TimeIsLastPacket(c: Contents, acts: seq<Act>, id: nat)
    requires c.Sound() && id in c.flows && After(c, acts).Some?
    ensures var r := After(c, acts).value;
            r.Sound() && id in r.flows && r.flows[id].ts == LastPacket(c.flows[id].ts, acts, id)
  {
    if acts != [] {
      var front, a := acts[..|acts| - 1], acts[|acts| - 1];
      TimeIsLastPacket(c, front, id);
      DoSound(After(c, front).value, a);
    }
  }

  /** Key `k` still has the flow object `id`. */
  ghost predicate Keeps(c: Contents, k: Key, id: nat) {
    k in c.all && c.all[k] == id
  }

  lemma KeepsIff(c: Contents, a: Act, k: Key, id: nat)
    requires c.Sound() && Possible(c, a) && id in c.flows
    ensures Keeps(Do(c, a), k, id) <==> Keeps(c, k, id) && (a.Clean? ==> c.flows[id].ts >= a.now - 60)
  {
    if a.Clean? {
      CleanedExactly(c, a.now);
    }
  }

  /** Every clean-up among `acts` came within 60 seconds of the flow's last packet. */
  ghost predicate InTime(ts: int, acts: seq<Act>, id: nat) {
    forall j :: 0 <= j < |acts| && acts[j].Clean? ==> LastPacket(ts, acts[..j], id) >= acts[j].now - 60
  }

  lemma {:induction false} InTimeStep(ts: int, acts: seq<Act>, id: nat, front: seq<Act>, a: Act)
    requires acts == front + [a]
    ensures InTime(ts, acts, id) <==> InTime(ts, front, id) && (a.Clean? ==> LastPacket(ts, front, id) >= a.now - 60)
  {
    assert acts[..|front|] == front && acts[|front|] == a;
    assert forall j :: 0 <= j < |front| ==> acts[..j] == front[..j] && acts[j] == front[j];
  }

  /** A key keeps its flow through any run exactly if every clean-up came within 60 seconds of the flow's last
      packet. */
  lemma {:induction false} KeptIff(c: Contents, acts: seq<Act>, k: Key, id: nat)
    requires c.Sound() && Keeps(c, k, id) && After(c, acts).Some?
    ensures Keeps(After(c, acts).value, k, id) <==> InTime(c.flows[id].ts, acts, id)
  {
    if acts != [] {
      var front, a := acts[..|acts| - 1], acts[|acts| - 1];
      KeptIff(c, front, k, id);
      TimeIsLastPacket(c, front, id);
      KeepsIff(After(c, front).value, a, k, id);
      InTimeStep(c.flows[id].ts, acts, id, front, a);
    }
  }

  // ----- With a clock that does not go back

  /** The packets of the flow come at times that do not go back. */
  ghost predicate InOrderOfTime(ts: int, acts: seq<Act>, id: nat) {
    && (forall i :: 0 <= i < |acts| && IsPacket(acts[i], id) ==> acts[i].now >= ts)
    && (forall i, j :: 0 <= i < j < |acts| && IsPacket(acts[i], id) && IsPacket(acts[j], id) ==> acts[i].now <= acts[j].now)
  }

  lemma {:induction false} LastIsLatest(ts: int, acts: seq<Act>, id: nat, i: nat)
    requires InOrderOfTime(ts, acts, id) && i < |acts| && IsPacket(acts[i], id)
    ensures LastPacket(ts, acts, id) >= acts[i].now
    decreases |acts|
  {
    if i < |acts| - 1 {
      LastIsLatest(ts, acts[..|acts| - 1], id, i);
    }
  }

  /** Some packet of the flow came at most 60 seconds before the clean-up `j`. */
  ghost predicate FreshAt(acts: seq<Act>, id: nat, j: nat)
    requires j < |acts| && acts[j].Clean?
  {
    exists i :: 0 <= i < j && IsPacket(acts[i], id) && acts[i].now >= acts[j].now - 60
  }

  /** A flow that had a packet within the 60 seconds before every clean-up is never removed. */
  lemma {:induction false} FreshFlowStays(c: Contents, acts: seq<Act>, k: Key, id: nat)
    requires c.Sound() && Keeps(c, k, id) && After(c, acts).Some? && InOrderOfTime(c.flows[id].ts, acts, id)
    requires forall j :: 0 <= j < |acts| && acts[j].Clean? ==> FreshAt(acts, id, j)
    ensures Keeps(After(c, acts).value, k, id)
  {
    forall j | 0 <= j < |acts| && acts[j].Clean?
      ensures LastPacket(c.flows[id].ts, acts[..j], id) >= acts[j].now - 60
    {
      var i :| 0 <= i < j && IsPacket(acts[i], id) && acts[i].now >= acts[j].now - 60;
      LastIsLatest(c.flows[id].ts, acts[..j], id, i);
    }
    KeptIff(c, acts, k, id);
  }
}
