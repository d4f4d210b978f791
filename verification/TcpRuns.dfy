/** Two ends over a network that loses, repeats and reorders segments: where the numbers of one
    direction really stand. */
module TcpRuns {
  import opened Serial
  import opened TcpFlow

  /** Both ends and everything ever sent. A segment may be delivered any number of times, at any
      later point, or never. */
  datatype System = System(a: End, b: End, fromA: seq<Segment>, fromB: seq<Segment>)

  datatype Action = SendA(len: nat) | SendB(len: nat) | ToA(i: nat) | ToB(i: nat)

  function Do(s: System, x: Action): System {
    match x
    case SendA(len) => s.(a := AfterSend(s.a, len), fromA := s.fromA + [Outgoing(s.a, len)])
    case SendB(len) => s.(b := AfterSend(s.b, len), fromB := s.fromB + [Outgoing(s.b, len)])
    case ToA(i) => if i < |s.fromB| then s.(a := AfterReceive(s.a, s.fromB[i])) else s
    case ToB(i) => if i < |s.fromA| then s.(b := AfterReceive(s.b, s.fromA[i])) else s
  }

  function DoAll(s: System, xs: seq<Action>): System {
    if xs == [] then s else Do(DoAll(s, xs[..|xs| - 1]), xs[|xs| - 1])
  }

  /** True positions, not reduced to 32 bits, for the data from A to B: A's next byte, what B
      expects, the start of every segment from A, the acknowledgement in every segment from B, the
      segments that moved B on, and the end of the furthest segment sent. */
  datatype Track = Track(base: nat, next: nat, expected: nat, starts: seq<nat>, acks: seq<nat>, accepted: seq<nat>, high: nat)

  function Move(s: System, t: Track, x: Action): Track
    requires |t.starts| == |s.fromA| && |t.acks| == |s.fromB|
  {
    match x
    case SendA(len) =>
      t.(next := t.next + len, starts := t.starts + [t.next], high := if t.next + len > t.high then t.next + len else t.high)
    case SendB(_) => t.(acks := t.acks + [t.expected])
    case ToA(i) => if i < |t.acks| then t.(next := t.acks[i]) else t
    case ToB(i) =>
      if i < |t.starts| && t.starts[i] == t.expected then
        t.(expected := t.starts[i] + s.fromA[i].len, accepted := t.accepted + [i])
      else t
  }

  ghost predicate Shaped(s: System, t: Track) {
    |t.starts| == |s.fromA| && |t.acks| == |s.fromB|
  }

  /** The segments `chain` follow each other without a gap from `base` to `end`. */
  ghost predicate Unbroken(starts: seq<nat>, segs: seq<Segment>, chain: seq<nat>, base: nat, end: nat)
    requires |starts| == |segs|
  {
    if chain == [] then base == end
    else
      var i := chain[|chain| - 1];
      i < |starts| && starts[i] + segs[i].len == end && Unbroken(starts, segs, chain[..|chain| - 1], base, starts[i])
  }

  ghost predicate Bounded(s: System, t: Track)
    requires Shaped(s, t)
  {
    && t.base <= t.next <= t.high && t.base <= t.expected <= t.high
    && (forall i :: 0 <= i < |t.starts| ==> t.base <= t.starts[i] && t.starts[i] + s.fromA[i].len <= t.high)
    && (forall i :: 0 <= i < |t.acks| ==> t.base <= t.acks[i] <= t.expected)
  }

  /** The 32-bit numbers are the true positions reduced. */
  ghost predicate Reduces(s: System, t: Track)
    requires Shaped(s, t)
  {
    && s.a.num == t.next % TWO_32 && s.b.ack == t.expected % TWO_32
    && (forall i :: 0 <= i < |t.starts| ==> s.fromA[i] == Segment(t.starts[i] % TWO_32, s.fromA[i].ack, s.fromA[i].len, true, false, true))
    && (forall i :: 0 <= i < |t.acks| ==> s.fromB[i] == Segment(s.fromB[i].num, t.acks[i] % TWO_32, s.fromB[i].len, true, false, true))
  }

  ghost predicate Tracks(s: System, t: Track) {
    && Shaped(s, t) && Bounded(s, t) && Reduces(s, t)
    && Unbroken(t.starts, s.fromA, t.accepted, t.base, t.expected)
  }

  lemma SameWhenClose(x: nat, y: nat, base: nat)
    requires base <= x < base + TWO_32 && base <= y < base + TWO_32
    ensures x % TWO_32 == y % TWO_32 <==> x == y
  {
    var p, q := x / TWO_32, y / TWO_32;
    assert x % TWO_32 == y % TWO_32 ==> x - y == (p - q) * TWO_32;
  }

  lemma {:induction false} UnbrokenGrows(starts: seq<nat>, segs: seq<Segment>, chain: seq<nat>, base: nat, end: nat, start: nat, seg: Segment)
    requires |starts| == |segs| && Unbroken(starts, segs, chain, base, end)
    ensures Unbroken(starts + [start], segs + [seg], chain, base, end)
  {
    if chain != [] {
      UnbrokenGrows(starts, segs, chain[..|chain| - 1], base, starts[chain[|chain| - 1]], start, seg);
    }
  }

  lemma SendAKept(s: System, t: Track, len: nat)
    requires Tracks(s, t)
    ensures Tracks(Do(s, SendA(len)), Move(s, t, SendA(len)))
  {
    AddReduced(t.next, len);
    UnbrokenGrows(t.starts, s.fromA, t.accepted, t.base, t.expected, t.next, Outgoing(s.a, len));
  }

  lemma {:induction false} ToBKept(s: System, t: Track, i: nat)
    requires Tracks(s, t) && i < |s.fromA| && t.high < t.base + TWO_32
    ensures Tracks(Do(s, ToB(i)), Move(s, t, ToB(i)))
  {
    SameWhenClose(t.starts[i], t.expected, t.base);
    AddReduced(t.starts[i], s.fromA[i].len);
    assert (t.accepted + [i])[..|t.accepted|] == t.accepted;
  }

  /** One action: as long as less than 2^32 bytes lie between the first and the furthest position,
      the numbers are the true positions, no acknowledgement goes back, and positions sent are never
      forgotten. */
  lemma ActionKept(s: System, t: Track, x: Action)
    requires Tracks(s, t) && t.high < t.base + TWO_32
    ensures Tracks(Do(s, x), Move(s, t, x))
    ensures Move(s, t, x).expected >= t.expected && Move(s, t, x).high >= t.high
  {
    match x
    case SendA(len) => SendAKept(s, t, len);
    case SendB(len) =>
    case ToA(i) =>
    case ToB(i) =>
      if i < |s.fromA| {
        ToBKept(s, t, i);
      }
  }

  ghost function MoveAll(s: System, t: Track, xs: seq<Action>): (r: Track)
    requires Shaped(s, t)
    ensures Shaped(DoAll(s, xs), r)
  {
    if xs == [] then t
    else Move(DoAll(s, xs[..|xs| - 1]), MoveAll(s, t, xs[..|xs| - 1]), xs[|xs| - 1])
  }

  lemma {:induction false} HighGrows(s: System, t: Track, xs: seq<Action>)
    requires Shaped(s, t) && xs != []
    ensures MoveAll(s, t, xs[..|xs| - 1]).high <= MoveAll(s, t, xs).high
    ensures MoveAll(s, t, xs[..|xs| - 1]).base == MoveAll(s, t, xs).base
  {}

  /** Any run: what B expects never goes back, is the end of an unbroken chain of segments that A
      really sent, and is never past what A sent; no acknowledgement in the network is past what B
      expects; and all 32-bit numbers are the true positions reduced. */
  lemma {:induction false} RunTracks(s: System, t: Track, xs: seq<Action>)
    requires Tracks(s, t) && MoveAll(s, t, xs).high < t.base + TWO_32
    ensures Tracks(DoAll(s, xs), MoveAll(s, t, xs))
    ensures MoveAll(s, t, xs).expected >= t.expected && MoveAll(s, t, xs).base == t.base
  {
    if xs != [] {
      HighGrows(s, t, xs);
      var front := xs[..|xs| - 1];
      RunTracks(s, t, front);
      ActionKept(DoAll(s, front), MoveAll(s, t, front), xs[|xs| - 1]);
    }
  }

  /** A run starts tracked when the ends are in step and nothing is under way. */
  lemma SyncedStartTracks(a: End, b: End)
    requires Synced(a, b)
    ensures Tracks(System(a, b, [], []), Track(a.num, a.num, a.num, [], [], [], a.num))
  {}

  // ----- The other direction

  /** The same system seen from the other end. */
  function Mirror(s: System): System {
    System(s.b, s.a, s.fromB, s.fromA)
  }

  function MirrorAction(x: Action): Action {
    match x
    case SendA(len) => SendB(len)
    case SendB(len) => SendA(len)
    case ToA(i) => ToB(i)
    case ToB(i) => ToA(i)
  }

  function MirrorAll(xs: seq<Action>): (r: seq<Action>)
    ensures |r| == |xs|
  {
    seq(|xs|, i requires 0 <= i < |xs| => MirrorAction(xs[i]))
  }

  lemma {:induction false} MirrorRuns(s: System, xs: seq<Action>)
    ensures DoAll(Mirror(s), MirrorAll(xs)) == Mirror(DoAll(s, xs))
  {
    if xs != [] {
      MirrorRuns(s, xs[..|xs| - 1]);
      assert MirrorAll(xs)[..|xs| - 1] == MirrorAll(xs[..|xs| - 1]);
    }
  }

  /** Any run, both directions at once: each is tracked by its own positions. */
  lemma {:induction false} BothDirectionsTrack(s: System, t: Track, u: Track, xs: seq<Action>)
    requires Tracks(s, t) && MoveAll(s, t, xs).high < t.base + TWO_32
    requires Tracks(Mirror(s), u) && MoveAll(Mirror(s), u, MirrorAll(xs)).high < u.base + TWO_32
    ensures Tracks(DoAll(s, xs), MoveAll(s, t, xs))
    ensures Tracks(Mirror(DoAll(s, xs)), MoveAll(Mirror(s), u, MirrorAll(xs)))
  {
    RunTracks(s, t, xs);
    RunTracks(Mirror(s), u, MirrorAll(xs));
    MirrorRuns(s, xs);
  }
}
