/** The connections of a listener: offered to the application, registered under their address,
    closed by the application, by expiry or with the listener, and deleted at once or later. */
module ListenerTable {
  import opened Base

  type Addr = nat

  /** Registered connections by address; for every connection made, its address; the one that was
      offered and is not registered yet; those registered, closed and deleted so far; those whose
      close has begun and is to delete at once or later; and those to be deleted at a given time. */
  datatype Listener = Listener(table: map<Addr, nat>, addrs: map<nat, Addr>, offered: Option<nat>,
                               registered: set<nat>, closed: set<nat>, gone: set<nat>,
                               closing: map<nat, bool>, delayed: map<nat, int>)

  datatype Event =
    | Offer(id: nat, addr: Addr)
    | Register
    | BeginClose(conn: nat, atOnce: bool)
    | EndClose(conn: nat, deadline: int)
    | Tick(now: int)

  /** Every connection is reached through the table or the channel: closing at once comes from
      the table (expiry, or closing the listener), closing with delay from the application. */
  predicate Possible(l: Listener, e: Event) {
    match e
    case Offer(id, addr) => id !in l.addrs && l.offered.None? && addr !in l.table
    case Register => l.offered.Some?
    case BeginClose(c, atOnce) => c in l.addrs && (atOnce ==> c in l.registered)
    case EndClose(c, _) => c in l.closing
    case Tick(_) => true
  }

  function Due(delayed: map<nat, int>, now: int): set<nat> {
    set c | c in delayed && now > delayed[c]
  }

  function AddrsOf(addrs: map<nat, Addr>, conns: set<nat>): set<Addr> {
    set c | c in conns && c in addrs :: addrs[c]
  }

  /** Deletion is by address, whatever is registered there. */
  function Delete(l: Listener, conns: set<nat>): Listener {
    l.(table := l.table - AddrsOf(l.addrs, conns), gone := l.gone + conns)
  }

  function Happen(l: Listener, e: Event): Listener
    requires Possible(l, e)
  {
    match e
    case Offer(id, addr) => l.(addrs := l.addrs[id := addr], offered := Some(id))
    case Register =>
      if l.offered.value in l.addrs then
        l.(table := l.table[l.addrs[l.offered.value] := l.offered.value], registered := l.registered + {l.offered.value}, offered := None)
      else l
    case BeginClose(c, atOnce) =>
      if c in l.closed then l else l.(closed := l.closed + {c}, closing := l.closing[c := atOnce])
    case EndClose(c, deadline) =>
      var rest := l.(closing := l.closing - {c});
      if l.closing[c] then Delete(rest, {c}) else rest.(delayed := l.delayed[c := deadline])
    case Tick(now) => Delete(l.(delayed := l.delayed - Due(l.delayed, now)), Due(l.delayed, now))
  }

  ghost predicate Lists(l: Listener, a: Addr, c: nat) {
    a in l.table && l.table[a] == c
  }

  ghost predicate Ok(l: Listener) {
    && (forall a :: a in l.table ==> l.table[a] in l.registered && l.table[a] in l.addrs && l.addrs[l.table[a]] == a)
    && (forall c :: c in l.registered && c !in l.gone ==> c in l.addrs && Lists(l, l.addrs[c], c))
    && (forall c :: c in l.addrs <==> c in l.registered || l.offered == Some(c))
    && (l.offered.Some? ==> l.addrs[l.offered.value] !in l.table && l.offered.value !in l.registered)
    && l.closed <= l.addrs.Keys && l.gone <= l.closed
    && l.closing.Keys <= l.closed && l.delayed.Keys <= l.closed
    && l.closing.Keys !! l.gone && l.delayed.Keys !! l.gone && l.closing.Keys !! l.delayed.Keys
    && (forall c :: c in l.closing && l.closing[c] ==> c in l.registered)
  }

  /** Deleting by address removes exactly the connections meant: whoever is listed under the
      address of a connection that is being deleted is that connection itself. */
  lemma DeletesItself(l: Listener, conns: set<nat>, a: Addr)
    requires Ok(l) && conns !! l.gone && conns <= l.closed
    ensures a in l.table && a !in Delete(l, conns).table ==> l.table[a] in conns
    ensures a in l.table && l.table[a] in conns ==> a !in Delete(l, conns).table
  {
    if a in l.table && a in AddrsOf(l.addrs, conns) {
      var c :| c in conns && c in l.addrs && l.addrs[c] == a;
      assert c in l.registered;
    }
  }

  lemma DeleteOk(l: Listener, conns: set<nat>)
    requires Ok(l) && conns !! l.gone && conns <= l.closed
    requires conns !! l.closing.Keys && conns !! l.delayed.Keys
    ensures Ok(Delete(l, conns))
  {
    var r := Delete(l, conns);
    forall c | c in r.registered && c !in r.gone
      ensures c in r.addrs && Lists(r, r.addrs[c], c)
    {
      assert Lists(l, l.addrs[c], c);
      DeletesItself(l, conns, l.addrs[c]);
    }
  }

  lemma OfferOk(l: Listener, id: nat, addr: Addr)
    requires Ok(l) && Possible(l, Offer(id, addr))
    ensures Ok(Happen(l, Offer(id, addr)))
  {}

  lemma RegisterOk(l: Listener)
    requires Ok(l) && Possible(l, Register)
    ensures Ok(Happen(l, Register))
  {}

  lemma EndCloseOk(l: Listener, c: nat, deadline: int)
    requires Ok(l) && Possible(l, EndClose(c, deadline))
    ensures Ok(Happen(l, EndClose(c, deadline)))
  {
    if l.closing[c] {
      DeleteOk(l.(closing := l.closing - {c}), {c});
    }
  }

  /** No order of events makes a connection that is registered and not deleted unreachable under its
      address, or lets two such connections share one. */
  lemma EventOk(l: Listener, e: Event)
    requires Ok(l) && Possible(l, e)
    ensures Ok(Happen(l, e))
  {
    match e
    case Offer(id, addr) => OfferOk(l, id, addr);
    case Register => RegisterOk(l);
    case BeginClose(c, atOnce) =>
    case EndClose(c, deadline) => EndCloseOk(l, c, deadline);
    case Tick(now) =>
      DeleteOk(l.(delayed := l.delayed - Due(l.delayed, now)), Due(l.delayed, now));
  }

  /** What an event takes out of the table it deletes for good; what it leaves it leaves as it was.
      In particular a late deletion never hits a younger connection from the same address. */
  lemma RemovesOnlyDeleted(l: Listener, e: Event, a: Addr)
    requires Ok(l) && Possible(l, e) && a in l.table
    ensures var r := Happen(l, e);
            if a in r.table then r.table[a] == l.table[a]
            else l.table[a] in r.gone && l.table[a] !in l.gone && l.table[a] in l.closed
  {
    match e
    case Offer(id, addr) =>
    case Register =>
    case BeginClose(c, atOnce) =>
    case EndClose(c, deadline) =>
      if l.closing[c] {
        DeletesItself(l.(closing := l.closing - {c}), {c}, a);
      }
    case Tick(now) =>
      DeletesItself(l.(delayed := l.delayed - Due(l.delayed, now)), Due(l.delayed, now), a);
  }

  // ----- Runs

  ghost predicate AllPossible(l: Listener, es: seq<Event>) {
    es != [] ==> AllPossible(l, es[..|es| - 1]) && Possible(HappenAll(l, es[..|es| - 1]), es[|es| - 1])
  }

  ghost function HappenAll(l: Listener, es: seq<Event>): Listener {
    if es == [] then l
    else
      var before := HappenAll(l, es[..|es| - 1]);
      if Possible(before, es[|es| - 1]) then Happen(before, es[|es| - 1]) else before
  }

  lemma {:induction false} RunOk(l: Listener, es: seq<Event>)
    requires Ok(l) && AllPossible(l, es)
    ensures Ok(HappenAll(l, es))
  {
    if es != [] {
      RunOk(l, es[..|es| - 1]);
      EventOk(HappenAll(l, es[..|es| - 1]), es[|es| - 1]);
    }
  }

  // ----- Connections deleted before they were registered

  /** No deleted connection is listed. */
  ghost predicate NoneStale(l: Listener) {
    forall a :: a in l.table ==> l.table[a] !in l.gone
  }

  lemma DeleteLeavesNoneStale(l: Listener, conns: set<nat>)
    requires Ok(l) && conns !! l.gone && conns <= l.closed && NoneStale(l)
    ensures NoneStale(Delete(l, conns))
  {
    forall a | a in Delete(l, conns).table
      ensures l.table[a] !in l.gone + conns
    {
      DeletesItself(l, conns, a);
    }
  }

  /** A stale entry comes about in one way only: a connection offered and closed by the application
      is deleted by the timer before the listener gets to register it. */
  lemma StaleExactly(l: Listener, e: Event)
    requires Ok(l) && Possible(l, e) && NoneStale(l)
    ensures NoneStale(Happen(l, e)) <==> !(e.Register? && l.offered.value in l.gone)
    ensures l.offered.Some? && l.offered.value !in l.gone ==>
      (l.offered.value in Happen(l, e).gone <==> e.Tick? && l.offered.value in Due(l.delayed, e.now))
  {
    match e
    case Offer(id, addr) =>
    case Register =>
      var c := l.offered.value;
      assert Lists(Happen(l, e), l.addrs[c], c);
    case BeginClose(c, atOnce) =>
    case EndClose(c, deadline) =>
      if l.closing[c] {
        DeleteLeavesNoneStale(l.(closing := l.closing - {c}), {c});
      }
    case Tick(now) =>
      DeleteLeavesNoneStale(l.(delayed := l.delayed - Due(l.delayed, now)), Due(l.delayed, now));
  }

  /** A stale entry is never removed: the address is lost to the listener. */
  lemma {:induction false} StaleForEver(l: Listener, es: seq<Event>, a: Addr)
    requires Ok(l) && AllPossible(l, es) && a in l.table && l.table[a] in l.gone
    ensures Lists(HappenAll(l, es), a, l.table[a]) && l.table[a] in HappenAll(l, es).gone
  {
    if es != [] {
      var front := es[..|es| - 1];
      StaleForEver(l, front, a);
      RunOk(l, front);
      RemovesOnlyDeleted(HappenAll(l, front), es[|es| - 1], a);
      GoneGrows(HappenAll(l, front), es[|es| - 1]);
    }
  }

  lemma GoneGrows(l: Listener, e: Event)
    requires Possible(l, e)
    ensures l.gone <= Happen(l, e).gone
  {}

  // ----- Connections that wait to be deleted

  /** The connection is listed and waits for its deadline. */
  ghost predicate Waits(l: Listener, a: Addr, c: nat, deadline: int) {
    Lists(l, a, c) && c in l.delayed && l.delayed[c] == deadline
  }

  /** The connection was registered and deleted, and is not listed. */
  ghost predicate Deleted(l: Listener, a: Addr, c: nat) {
    c in l.registered && c in l.gone && !Lists(l, a, c)
  }

  /** Only the timer deletes a connection that waits for its deadline, and only when that has passed. */
  lemma WaitsIff(l: Listener, e: Event, a: Addr, c: nat, deadline: int)
    requires Ok(l) && Possible(l, e) && Waits(l, a, c, deadline)
    ensures if e.Tick? && e.now > deadline then Deleted(Happen(l, e), a, c) else Waits(Happen(l, e), a, c, deadline)
  {
    RemovesOnlyDeleted(l, e, a);
    if e.Tick? {
      DeletesItself(l.(delayed := l.delayed - Due(l.delayed, e.now)), Due(l.delayed, e.now), a);
    }
  }

  lemma StaysDeleted(l: Listener, e: Event, a: Addr, c: nat)
    requires Ok(l) && Possible(l, e) && Deleted(l, a, c)
    ensures Deleted(Happen(l, e), a, c)
  {
    GoneGrows(l, e);
  }

  /** No round of the timer among `es` came after `deadline`. */
  ghost predicate TimerNotPast(es: seq<Event>, deadline: int) {
    forall j :: 0 <= j < |es| && es[j].Tick? ==> es[j].now <= deadline
  }

  lemma TimerOneMore(es: seq<Event>, front: seq<Event>, e: Event, deadline: int)
    requires es == front + [e]
    ensures TimerNotPast(es, deadline) <==> TimerNotPast(front, deadline) && (e.Tick? ==> e.now <= deadline)
  {
    assert es[|front|] == e && forall j :: 0 <= j < |front| ==> es[j] == front[j];
  }

  lemma DeadlineStep(l: Listener, e: Event, a: Addr, c: nat, deadline: int, waiting: bool)
    requires Ok(l) && Possible(l, e) && if waiting then Waits(l, a, c, deadline) else Deleted(l, a, c)
    ensures if waiting && (e.Tick? ==> e.now <= deadline) then Waits(Happen(l, e), a, c, deadline) else Deleted(Happen(l, e), a, c)
  {
    if waiting {
      WaitsIff(l, e, a, c, deadline);
    } else {
      StaysDeleted(l, e, a, c);
    }
  }

  /** A listed connection that was closed with a deadline is still listed and waiting after any run exactly if
      no round of the timer came after the deadline; otherwise it is deleted for good. */
  lemma {:induction false} DeletedAfterDeadline(l: Listener, es: seq<Event>, a: Addr, c: nat, deadline: int)
    requires Ok(l) && AllPossible(l, es) && Waits(l, a, c, deadline)
    ensures if TimerNotPast(es, deadline) then Waits(HappenAll(l, es), a, c, deadline) else Deleted(HappenAll(l, es), a, c)
    decreases |es|
  {
    if es != [] {
      var front, e := es[..|es| - 1], es[|es| - 1];
      RunOk(l, front);
      DeletedAfterDeadline(l, front, a, c, deadline);
      TimerOneMore(es, front, e, deadline);
      DeadlineStep(HappenAll(l, front), e, a, c, deadline, TimerNotPast(front, deadline));
    }
  }

  // ----- Closing the listener

  /** One round: some listed connection is closed at once. */
  function Round(l: Listener, a: Addr): Listener
    requires a in l.table
  {
    var c := l.table[a];
    if c in l.closed then l else Delete(l.(closed := l.closed + {c}), {c})
  }

  /** Rounds until the picks are used up. A pick that is not listed is no round. */
  function Rounds(l: Listener, picks: seq<Addr>): Listener {
    if picks == [] then l
    else
      var before := Rounds(l, picks[..|picks| - 1]);
      if picks[|picks| - 1] in before.table then Round(before, picks[|picks| - 1]) else before
  }

  /** A round is a close begun and ended. */
  lemma RoundIsClose(l: Listener, a: Addr, deadline: int)
    requires Ok(l) && a in l.table
    ensures var c := l.table[a];
            var begun := Happen(l, BeginClose(c, true));
            Round(l, a) == if c in l.closed then begun else Happen(begun, EndClose(c, deadline))
  {
    var c := l.table[a];
    if c !in l.closed {
      var begun := Happen(l, BeginClose(c, true));
      assert begun.closing - {c} == l.closing;
    }
  }

  lemma RoundOk(l: Listener, a: Addr)
    requires Ok(l) && a in l.table
    ensures Ok(Round(l, a))
    ensures forall b :: b in l.table && l.table[b] in l.closed ==> b in Round(l, a).table && Round(l, a).table[b] == l.table[b]
    ensures l.table[a] !in l.closed ==> Round(l, a).table == l.table - {a}
    ensures l.closed <= Round(l, a).closed && Round(l, a).closed <= l.closed + {l.table[a]}
  {
    var c := l.table[a];
    if c !in l.closed {
      var begun := l.(closed := l.closed + {c});
      assert Ok(begun);
      DeleteOk(begun, {c});
      assert AddrsOf(begun.addrs, {c}) == {a};
    }
  }

  ghost predicate AllOpen(l: Listener) {
    forall a :: a in l.table ==> l.table[a] !in l.closed
  }

  ghost predicate EachListed(l: Listener, picks: seq<Addr>) {
    picks != [] ==> EachListed(l, picks[..|picks| - 1]) && picks[|picks| - 1] in Rounds(l, picks[..|picks| - 1]).table
  }

  /** Otherwise every round removes one entry, whichever is picked, and after as many rounds as there
      were entries the table is empty. */
  lemma {:induction false} OpenEntriesGo(l: Listener, picks: seq<Addr>)
    requires Ok(l) && AllOpen(l) && EachListed(l, picks)
    ensures Ok(Rounds(l, picks)) && AllOpen(Rounds(l, picks))
    ensures |Rounds(l, picks).table| == |l.table| - |picks|
  {
    if picks != [] {
      var front, a := picks[..|picks| - 1], picks[|picks| - 1];
      OpenEntriesGo(l, front);
      var before := Rounds(l, front);
      RoundOk(before, a);
      RoundKeepsOpen(before, a);
      assert (before.table - {a}).Keys == before.table.Keys - {a};
    }
  }

  lemma RoundKeepsOpen(l: Listener, a: Addr)
    requires Ok(l) && AllOpen(l) && a in l.table
    ensures AllOpen(Round(l, a))
  {
    RoundOk(l, a);
    forall b | b in Round(l, a).table
      ensures Round(l, a).table[b] !in Round(l, a).closed
    {
      assert l.table[b] != l.table[a];
    }
  }

  /** One step while the listener is being closed: a round, or anything else that happens meanwhile. */
  datatype Step = Pick(addr: Addr) | Meanwhile(event: Event)

  /** `timer` tells if a round of the timer can still run: one that was under way when closing began, or
      that the cleaner picks before it sees that the listener is done. */
  predicate CanStep(l: Listener, s: Step, timer: bool) {
    match s
    case Pick(a) => a in l.table
    case Meanwhile(e) => (e.Tick? ==> timer) && Possible(l, e)
  }

  function DoStep(l: Listener, s: Step): Listener
    requires CanStep(l, s, true)
  {
    match s
    case Pick(a) => Round(l, a)
    case Meanwhile(e) => Happen(l, e)
  }

  /** The listener after the steps `ss`, if each is possible when it comes. */
  function After(l: Listener, ss: seq<Step>, timer: bool): Option<Listener>
    decreases |ss|
  {
    if ss == [] then Some(l)
    else if CanStep(l, ss[0], timer) then After(DoStep(l, ss[0]), ss[1..], timer)
    else None
  }

  /** `ss` is a way in which closing all connections ends. */
  ghost predicate ClosesAll(l: Listener, ss: seq<Step>, timer: bool) {
    var r := After(l, ss, timer);
    r.Some? && r.value.table == map[]
  }

  lemma AfterConcat(l: Listener, ss: seq<Step>, tt: seq<Step>, timer: bool)
    requires After(l, ss, timer).Some?
    ensures After(l, ss + tt, timer) == After(After(l, ss, timer).value, tt, timer)
    decreases |ss|
  {
    if ss == [] {
      assert ss + tt == tt;
    } else {
      assert (ss + tt)[1..] == ss[1..] + tt;
      AfterConcat(DoStep(l, ss[0]), ss[1..], tt, timer);
    }
  }

  /** Every connection that was closed is deleted, or is being closed, or waits for the timer. */
  ghost predicate Accounted(l: Listener) {
    l.closed <= l.gone + l.closing.Keys + l.delayed.Keys
  }

  ghost predicate Good(l: Listener) {
    Ok(l) && Accounted(l)
  }

  lemma EventGood(l: Listener, e: Event)
    requires Good(l) && Possible(l, e)
    ensures Good(Happen(l, e))
  {
    EventOk(l, e);
  }

  lemma StepGood(l: Listener, s: Step)
    requires Good(l) && CanStep(l, s, true)
    ensures Good(DoStep(l, s))
  {
    match s
    case Pick(a) => RoundOk(l, a);
    case Meanwhile(e) => EventGood(l, e);
  }

  /** `c` is closed, no close that deletes it at once is under way, and if there is a timer, it is too late
      for it: `c` was deleted before it was registered. */
  predicate Stuck(l: Listener, c: nat, timer: bool) {
    c in l.closed && !(c in l.closing && l.closing[c]) && (timer ==> c in l.gone)
  }

  lemma StuckEntryStays(l: Listener, s: Step, a: Addr, timer: bool)
    requires Ok(l) && CanStep(l, s, timer) && a in l.table && Stuck(l, l.table[a], timer)
    ensures Lists(DoStep(l, s), a, l.table[a]) && Stuck(DoStep(l, s), l.table[a], timer)
  {
    match s
    case Pick(b) => RoundOk(l, b);
    case Meanwhile(e) =>
      RemovesOnlyDeleted(l, e, a);
      GoneGrows(l, e);
  }

  lemma {:induction false} StuckNeverFinishes(l: Listener, ss: seq<Step>, a: Addr, timer: bool)
    requires Good(l) && a in l.table && Stuck(l, l.table[a], timer)
    ensures !ClosesAll(l, ss, timer)
    decreases |ss|
  {
    if ss != [] && CanStep(l, ss[0], timer) {
      StuckEntryStays(l, ss[0], a, timer);
      StepGood(l, ss[0]);
      StuckNeverFinishes(DoStep(l, ss[0]), ss[1..], a, timer);
    }
  }

  ghost predicate NoneStuck(l: Listener, timer: bool) {
    forall a :: a in l.table ==> !Stuck(l, l.table[a], timer)
  }

  lemma EndsAtOnce(l: Listener, c: nat, a: Addr)
    requires Ok(l) && Lists(l, a, c) && c in l.closing && l.closing[c]
    ensures var r := Happen(l, EndClose(c, 0));
            r.table == l.table - {a} && r.closed == l.closed && r.closing == l.closing - {c} && r.gone == l.gone + {c}
  {
    assert AddrsOf(l.addrs, {c}) == {a};
  }

  /** A connection that is open goes with a round, and one that is being closed at once goes by itself. */
  lemma RemoveOpen(l: Listener, a: Addr, timer: bool) returns (s: Step)
    requires Good(l) && NoneStuck(l, timer) && a in l.table
    requires l.table[a] in l.closed ==> l.table[a] in l.closing && l.closing[l.table[a]]
    ensures CanStep(l, s, timer) && Good(DoStep(l, s)) && NoneStuck(DoStep(l, s), timer)
    ensures DoStep(l, s).table == l.table - {a}
  {
    var c := l.table[a];
    s := if c in l.closed then Meanwhile(EndClose(c, 0)) else Pick(a);
    StepGood(l, s);
    var r := DoStep(l, s);
    if c in l.closed {
      EndsAtOnce(l, c, a);
    } else {
      RoundOk(l, a);
      assert r.gone == l.gone + {c};
    }
    forall b | b in r.table
      ensures !Stuck(r, r.table[b], timer)
    {
      assert l.table[b] != c;
      assert !Stuck(l, l.table[b], timer);
    }
  }

  lemma StaleIsStuck(l: Listener)
    requires Ok(l)
    ensures NoneStale(l) <==> NoneStuck(l, true)
  {
    forall a | a in l.table
      ensures l.table[a] in l.gone <==> Stuck(l, l.table[a], true)
    {}
  }

  /** A connection that waits for the timer goes with it. */
  lemma TimerRemoves(l: Listener, c: nat, a: Addr) returns (s: Step)
    requires Good(l) && NoneStale(l) && Lists(l, a, c) && c in l.delayed
    ensures CanStep(l, s, true) && Good(DoStep(l, s)) && NoneStale(DoStep(l, s))
    ensures DoStep(l, s).table.Keys <= l.table.Keys - {a}
  {
    var now := l.delayed[c] + 1;
    s := Meanwhile(Tick(now));
    StepGood(l, s);
    StaleExactly(l, Tick(now));
    DeletesItself(l.(delayed := l.delayed - Due(l.delayed, now)), Due(l.delayed, now), a);
  }

  /** One that is being closed with delay comes to wait for it. */
  lemma DelayBegins(l: Listener, c: nat, a: Addr) returns (s: Step)
    requires Good(l) && NoneStale(l) && Lists(l, a, c) && c in l.closing && !l.closing[c]
    ensures CanStep(l, s, true) && Good(DoStep(l, s)) && NoneStale(DoStep(l, s))
    ensures Lists(DoStep(l, s), a, c) && c in DoStep(l, s).delayed && DoStep(l, s).table == l.table
  {
    s := Meanwhile(EndClose(c, 0));
    StepGood(l, s);
  }

  lemma AfterOne(l: Listener, s: Step, timer: bool)
    requires CanStep(l, s, timer)
    ensures After(l, [s], timer) == Some(DoStep(l, s))
  {
    var ss := [s];
    assert ss[1..] == [];
    assert After(DoStep(l, s), [], timer) == Some(DoStep(l, s));
  }

  /** With a timer, steps that remove an entry and leave none stuck. */
  lemma RemoveWithTimer(l: Listener, a: Addr) returns (ss: seq<Step>)
    requires Good(l) && NoneStuck(l, true) && a in l.table
    requires l.table[a] in l.closed && !(l.table[a] in l.closing && l.closing[l.table[a]])
    ensures var r := After(l, ss, true);
            r.Some? && Good(r.value) && NoneStuck(r.value, true) && r.value.table.Keys <= l.table.Keys - {a}
  {
    var c := l.table[a];
    StaleIsStuck(l);
    assert c !in l.gone;
    var mid, first := l, [];
    if c in l.closing {
      var s := DelayBegins(l, c, a);
      AfterOne(l, s, true);
      mid, first := DoStep(l, s), [s];
    }
    var t := TimerRemoves(mid, c, a);
    AfterOne(mid, t, true);
    AfterConcat(l, first, [t], true);
    StaleIsStuck(DoStep(mid, t));
    ss := first + [t];
  }

  /** Without a stuck connection some steps remove an entry and leave none stuck. */
  lemma RemoveOne(l: Listener, timer: bool) returns (ss: seq<Step>)
    requires Good(l) && NoneStuck(l, timer) && l.table != map[]
    ensures var r := After(l, ss, timer);
            r.Some? && Good(r.value) && NoneStuck(r.value, timer) && r.value.table.Keys < l.table.Keys
  {
    var a :| a in l.table;
    if l.table[a] in l.closed && !(l.table[a] in l.closing && l.closing[l.table[a]]) {
      assert !Stuck(l, l.table[a], timer);
      ss := RemoveWithTimer(l, a);
    } else {
      var s := RemoveOpen(l, a, timer);
      AfterOne(l, s, timer);
      ss := [s];
    }
  }

  lemma RemoveAll(l: Listener, timer: bool) returns (ss: seq<Step>)
    requires Good(l) && NoneStuck(l, timer)
    ensures ClosesAll(l, ss, timer)
    decreases l.table.Keys
  {
    if l.table == map[] {
      ss := [];
    } else {
      var first := RemoveOne(l, timer);
      var rest := RemoveAll(After(l, first, timer).value, timer);
      AfterConcat(l, first, rest, timer);
      ss := first + rest;
    }
  }

  /** Closing all connections of a listener can finish, with any other events in between, exactly if no
      listed connection is stuck. Without the timer: every one closed before is about to be deleted at
      once. With a round of the timer still to come: none was deleted before it was registered. */
  lemma CloseAllFinishesIff(l: Listener, timer: bool)
    requires Good(l)
    ensures (exists ss :: ClosesAll(l, ss, timer)) <==> NoneStuck(l, timer)
    ensures NoneStuck(l, true) <==> NoneStale(l)
  {
    StaleIsStuck(l);
    if NoneStuck(l, timer) {
      var ss := RemoveAll(l, timer);
    } else {
      var a :| a in l.table && Stuck(l, l.table[a], timer);
      forall ss
        ensures !ClosesAll(l, ss, timer)
      {
        StuckNeverFinishes(l, ss, a, timer);
      }
    }
  }

  // ----- A stale entry comes about

  function NewListener(): Listener {
    Listener(map[], map[], None, {}, {}, {}, map[], map[])
  }

  /** From an empty listener: a connection is offered, the application closes it, and its time passes
      before it is registered. */
  /** The connection is offered and closed again before it is registered. */
  lemma ClosedWhileOffered(c: nat, a: Addr, deadline: int, es: seq<Event>)
    requires es == [Offer(c, a), BeginClose(c, false), EndClose(c, deadline)]
    ensures AllPossible(NewListener(), es)
    ensures HappenAll(NewListener(), es) == Listener(map[], map[c := a], Some(c), {}, {c}, {}, map[], map[c := deadline])
  {
    var l := NewListener();
    var e1, e2, e3 := es[0], es[1], es[2];
    var es1 := [e1];
    var es2 := [e1, e2];
    assert [] + [e1] == es1 && es1 + [e2] == es2 && es2 + [e3] == es;
    RunOfOneMore(l, [], e1);
    RunOfOneMore(l, es1, e2);
    RunOfOneMore(l, es2, e3);
  }

  lemma StaleReached(c: nat, a: Addr, deadline: int, now: int)
    requires now > deadline
    ensures var es := [Offer(c, a), BeginClose(c, false), EndClose(c, deadline), Tick(now), Register];
            && Good(NewListener()) && AllPossible(NewListener(), es)
            && Lists(HappenAll(NewListener(), es), a, c) && c in HappenAll(NewListener(), es).gone
  {
    var l := NewListener();
    var e1, e2, e3, e4, e5 := Offer(c, a), BeginClose(c, false), EndClose(c, deadline), Tick(now), Register;
    var es3 := [e1, e2, e3];
    var es4 := [e1, e2, e3, e4];
    assert es3 + [e4] == es4 && es4 + [e5] == [e1, e2, e3, e4, e5];
    ClosedWhileOffered(c, a, deadline, es3);
    RunOfOneMore(l, es3, e4);
    var l4 := HappenAll(l, es4);
    assert l4 == Listener(map[], map[c := a], Some(c), {}, {c}, {c}, map[], map[]);
    RunOfOneMore(l, es4, e5);
  }

  lemma RunOfOneMore(l: Listener, es: seq<Event>, e: Event)
    requires AllPossible(l, es) && Possible(HappenAll(l, es), e)
    ensures AllPossible(l, es + [e]) && HappenAll(l, es + [e]) == Happen(HappenAll(l, es), e)
  {
    assert (es + [e])[..|es + [e]| - 1] == es;
  }

  // ----- The operations themselves

  class ConnTable {
    var connMap: map<Addr, nat>
    var delayMap: map<nat, int>
    var addrOf: map<nat, Addr>
    var closed: set<nat>
    /** History, for the view. */
    ghost var registered: set<nat>
    ghost var gone: set<nat>

    ghost function View(): Listener
      reads this
    {
      Listener(connMap, addrOf, None, registered, closed, gone, map[], delayMap)
    }

    constructor ()
      ensures Ok(View()) && connMap == map[] && delayMap == map[]
    {
      connMap, delayMap, addrOf, closed := map[], map[], map[], {};
      registered, gone := {}, {};
    }

    /** A packet from `addr`: the connection it belongs to, made and offered if there is none and
        the channel has room. */
    method Receive(addr: Addr, made: nat, room: bool) returns (c: Option<nat>)
      requires Ok(View()) && made !in addrOf
      modifies this
      ensures Ok(View())
      ensures addr in old(connMap) ==> c == Some(old(connMap)[addr]) && View() == old(View())
      ensures addr !in old(connMap) && !room ==> c == None && View() == old(View())
      ensures addr !in old(connMap) && room ==>
        c == Some(made) && View() == Happen(Happen(old(View()), Offer(made, addr)), Register)
    {
      if addr in connMap {
        return Some(connMap[addr]);
      }
      if !room {
        return None;
      }
      EventOk(View(), Offer(made, addr));
      EventOk(Happen(View(), Offer(made, addr)), Register);
      addrOf := addrOf[made := addr];
      connMap := connMap[addr := made];
      registered := registered + {made};
      c := Some(made);
    }

    /** Close a connection once; its entry goes at once or when ten seconds have passed. */
    method Close(c: nat, atOnce: bool, now: int)
      requires Ok(View()) && Possible(View(), BeginClose(c, atOnce))
      modifies this
      ensures Ok(View())
      ensures View() == if c in old(closed) then old(View())
                        else Happen(Happen(old(View()), BeginClose(c, atOnce)), EndClose(c, now + 10))
    {
      if c in closed {
        return;
      }
      ghost var begun := Happen(View(), BeginClose(c, atOnce));
      EventOk(View(), BeginClose(c, atOnce));
      EventOk(begun, EndClose(c, now + 10));
      assert begun.closing - {c} == map[];
      closed := closed + {c};
      if atOnce {
        assert AddrsOf(begun.addrs, {c}) == {addrOf[c]};
        connMap := connMap - {addrOf[c]};
        gone := gone + {c};
      } else {
        delayMap := delayMap[c := now + 10];
      }
    }

    method Sweep(now: int) returns (ghost done: set<nat>)
      requires delayMap.Keys <= addrOf.Keys
      modifies this`connMap, this`delayMap
      ensures done == Due(old(delayMap), now)
      ensures delayMap == old(delayMap) - done && connMap == old(connMap) - AddrsOf(addrOf, done)
    {
      ghost var was := delayMap;
      var conns := delayMap.Keys;
      done := {};
      while conns != {}
        invariant conns <= was.Keys && done <= was.Keys && done !! conns
        invariant forall c :: c in was && c !in conns ==> (c in done <==> now > was[c])
        invariant delayMap == was - done && connMap == old(connMap) - AddrsOf(addrOf, done)
        decreases conns
      {
        var c :| c in conns;
        conns := conns - {c};
        if now > delayMap[c] {
          assert AddrsOf(addrOf, done + {c}) == AddrsOf(addrOf, done) + {addrOf[c]};
          connMap := connMap - {addrOf[c]};
          delayMap := delayMap - {c};
          done := done + {c};
        }
      }
    }

    /** Delete the entries of the connections whose time has come. */
    method DelayTick(now: int)
      requires Ok(View())
      modifies this`connMap, this`delayMap, this`gone
      ensures Ok(View()) && View() == Happen(old(View()), Tick(now))
    {
      EventOk(View(), Tick(now));
      ghost var done := Sweep(now);
      gone := gone + done;
    }

    /** First phase of expiry: which connections have had no packet for more than 60 seconds, those that have
        had none yet included. They are closed afterwards, one by one, without the lock. */
    method CollectExpired(lastPacket: map<nat, int>, now: int) returns (cs: set<nat>)
      requires Ok(View())
      ensures forall c :: c in cs <==>
        c in connMap.Values && (c in lastPacket ==> lastPacket[c] < now - 60)
      ensures forall c :: c in cs ==> Possible(View(), BeginClose(c, true))
    {
      var addrs := connMap.Keys;
      cs := {};
      while addrs != {}
        invariant addrs <= connMap.Keys
        invariant forall c :: c in cs <==>
          (c in lastPacket ==> lastPacket[c] < now - 60) && exists a :: a in connMap && a !in addrs && connMap[a] == c
        decreases addrs
      {
        var a :| a in addrs;
        addrs := addrs - {a};
        var c := connMap[a];
        if c !in lastPacket || now - lastPacket[c] > 60 {
          cs := cs + {c};
        }
      }
    }
  }
}
