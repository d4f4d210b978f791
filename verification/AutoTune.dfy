/** Detection of the shard parameters from the types and numbers of received packets. */
module AutoTune {
  import opened Serial

  const SAMPLES: int := 258

  datatype Pulse = Pulse(bit: bool, num: U32)

  /** Numbers that the buffer takes in at the moment. */
  predicate Accepts(ps: seq<Pulse>, num: U32)
    requires |ps| == SAMPLES
  {
    ps[0].num <= num <= Add(ps[0].num, SAMPLES)
  }

  function Sampled(ps: seq<Pulse>, bit: bool, num: U32): (r: seq<Pulse>)
    requires |ps| == SAMPLES
    ensures |r| == SAMPLES
  {
    if Accepts(ps, num) then ps[num % SAMPLES := Pulse(bit, num)] else ps
  }

  predicate Follows(a: Pulse, b: Pulse) {
    Add(a.num, 1) == b.num
  }

  /** First edge to level `bit` between consecutive numbers, at or after `idx`; 0 if none. */
  function LeftEdge(ps: seq<Pulse>, bit: bool, idx: nat): (r: nat)
    requires 1 <= idx <= |ps|
    ensures r < |ps| && (r == 0 || idx <= r)
    decreases |ps| - idx
  {
    if idx == |ps| then 0
    else if ps[idx - 1].bit != bit && ps[idx].bit == bit && Follows(ps[idx - 1], ps[idx]) then idx
    else LeftEdge(ps, bit, idx + 1)
  }

  /** First edge from level `bit` at or after `idx`; 0 if none, -1 if the numbers break first. */
  function RightEdge(ps: seq<Pulse>, bit: bool, idx: nat): (r: int)
    requires 1 <= idx <= |ps|
    ensures r == -1 || r == 0 || idx <= r < |ps|
    decreases |ps| - idx
  {
    if idx == |ps| then 0
    else if !Follows(ps[idx - 1], ps[idx]) then -1
    else if ps[idx - 1].bit == bit && ps[idx].bit != bit then idx
    else RightEdge(ps, bit, idx + 1)
  }

  function Period(ps: seq<Pulse>, bit: bool): int
    requires |ps| == SAMPLES
  {
    var left := LeftEdge(ps, bit, 1);
    var right := RightEdge(ps, bit, left + 1);
    if right == -1 then -1 else right - left
  }

  /** A buffer in which nothing was sampled yet. */
  function NewPulses(): (r: seq<Pulse>)
    ensures |r| == SAMPLES && forall i :: 0 <= i < SAMPLES ==> r[i] == Pulse(false, 0)
  {
    seq(SAMPLES, _ => Pulse(false, 0))
  }

  class Tuner {
    const pulses: array<Pulse>

    ghost predicate Valid() {
      pulses.Length == SAMPLES
    }

    constructor ()
      ensures Valid() && fresh(pulses)
      ensures pulses[..] == NewPulses()
    {
      pulses := new Pulse[SAMPLES](_ => Pulse(false, 0));
    }

    method Sample(bit: bool, num: U32)
      requires Valid()
      modifies pulses
      ensures pulses[..] == Sampled(old(pulses[..]), bit, num)
    {
      if pulses[0].num <= num && num <= Add(pulses[0].num, SAMPLES) {
        pulses[num % SAMPLES] := Pulse(bit, num);
      }
    }

    method FindPeriod(bit: bool) returns (r: int)
      requires Valid()
      ensures r == Period(pulses[..], bit)
    {
      ghost var ps := pulses[..];
      var lastPulse, idx := pulses[0], 1;
      var leftEdge := 0;
      while idx < pulses.Length
        invariant 1 <= idx <= pulses.Length && lastPulse == ps[idx - 1] && leftEdge == 0
        invariant LeftEdge(ps, bit, 1) == LeftEdge(ps, bit, idx)
      {
        if lastPulse.bit != bit && pulses[idx].bit == bit {
          if Add(lastPulse.num, 1) == pulses[idx].num {
            leftEdge := idx;
            break;
          }
        }
        lastPulse := pulses[idx];
        idx := idx + 1;
      }
      assert leftEdge == LeftEdge(ps, bit, 1);
      var rightEdge := 0;
      lastPulse := pulses[leftEdge];
      idx := leftEdge + 1;
      while idx < pulses.Length
        invariant leftEdge + 1 <= idx <= pulses.Length && lastPulse == ps[idx - 1] && rightEdge == 0
        invariant RightEdge(ps, bit, leftEdge + 1) == RightEdge(ps, bit, idx)
      {
        if Add(lastPulse.num, 1) == pulses[idx].num {
          if lastPulse.bit == bit && pulses[idx].bit != bit {
            rightEdge := idx;
            break;
          }
        } else {
          return -1;
        }
        lastPulse := pulses[idx];
        idx := idx + 1;
      }
      return rightEdge - leftEdge;
    }
  }

  // ----- What an answer means

  /** Pulse `j` has the number after that of the pulse before it. */
  predicate Linked(ps: seq<Pulse>, j: int)
    requires 1 <= j < |ps|
  {
    Follows(ps[j - 1], ps[j])
  }

  predicate Rises(ps: seq<Pulse>, bit: bool, j: int)
    requires 1 <= j < |ps|
  {
    ps[j - 1].bit != bit && ps[j].bit == bit
  }

  predicate Falls(ps: seq<Pulse>, bit: bool, j: int)
    requires 1 <= j < |ps|
  {
    ps[j - 1].bit == bit && ps[j].bit != bit
  }

  /** From `left` on there are exactly `len` pulses of level `bit` with consecutive numbers, ended
      by a pulse of the other level with the next number. */
  predicate RunAt(ps: seq<Pulse>, bit: bool, left: nat, len: int) {
    && len > 0 && left + len < |ps|
    && (forall j :: left <= j < left + len ==> ps[j].bit == bit)
    && ps[left + len].bit != bit
    && (forall j :: left < j <= left + len ==> Linked(ps, j))
  }

  /** The search for the left edge passes over no edge, and ends at one. */
  lemma {:induction false} LeftEdgeIsFirst(ps: seq<Pulse>, bit: bool, idx: nat)
    requires 1 <= idx <= |ps|
    ensures var l := LeftEdge(ps, bit, idx);
            && (l > 0 ==> Rises(ps, bit, l) && Linked(ps, l))
            && (forall j :: idx <= j < (if l == 0 then |ps| else l) ==>
                  !(Rises(ps, bit, j) && Linked(ps, j)))
    decreases |ps| - idx
  {
    if idx < |ps| && !(Rises(ps, bit, idx) && Linked(ps, idx)) {
      LeftEdgeIsFirst(ps, bit, idx + 1);
    }
  }

  /** A right edge is found exactly at the first fall that no break in the numbers precedes. */
  lemma {:induction false} RightEdgeIsFirst(ps: seq<Pulse>, bit: bool, idx: nat, r: nat)
    requires 1 <= idx <= r < |ps|
    ensures RightEdge(ps, bit, idx) == r <==>
      && (forall j :: idx <= j <= r ==> Linked(ps, j))
      && (forall j :: idx <= j < r ==> !Falls(ps, bit, j))
      && Falls(ps, bit, r)
    decreases |ps| - idx
  {
    assert Linked(ps, idx) <==> Follows(ps[idx - 1], ps[idx]);
    assert Falls(ps, bit, idx) <==> ps[idx - 1].bit == bit && ps[idx].bit != bit;
    if idx < r {
      RightEdgeIsFirst(ps, bit, idx + 1, r);
    }
  }

  /** Without a rise, pulses before one of the level are of the level too. */
  lemma {:induction false} LevelBefore(ps: seq<Pulse>, bit: bool, r: nat, j: nat)
    requires j <= r < |ps| && ps[r].bit == bit
    requires forall k :: 0 < k <= r ==> !Rises(ps, bit, k)
    ensures ps[j].bit == bit
    decreases r - j
  {
    if j < r {
      LevelBefore(ps, bit, r, j + 1);
      assert !Rises(ps, bit, j + 1);
    }
  }

  /** Without a fall, pulses after one of the level are of the level too. */
  lemma {:induction false} LevelAfter(ps: seq<Pulse>, bit: bool, left: nat, j: nat)
    requires left <= j < |ps| && ps[left].bit == bit
    requires forall k :: left < k <= j ==> !Falls(ps, bit, k)
    ensures ps[j].bit == bit
    decreases j
  {
    if left < j {
      LevelAfter(ps, bit, left, j - 1);
      assert !Falls(ps, bit, j);
    }
  }

  lemma FoundIsRun(ps: seq<Pulse>, bit: bool, l: nat, r: nat)
    requires l < r < |ps| && l == LeftEdge(ps, bit, 1)
    requires RightEdge(ps, bit, l + 1) == r
    ensures RunAt(ps, bit, l, r - l)
  {
    RightEdgeIsFirst(ps, bit, l + 1, r);
    LeftEdgeIsFirst(ps, bit, 1);
    assert Falls(ps, bit, r);
    forall j | l <= j < r
      ensures ps[j].bit == bit
    {
      if l == 0 {
        assert forall k :: 0 < k <= r - 1 ==> Linked(ps, k);
        LevelBefore(ps, bit, r - 1, j);
      } else {
        LevelAfter(ps, bit, l, j);
      }
    }
  }

  lemma RunIsFound(ps: seq<Pulse>, bit: bool, l: nat, r: nat)
    requires l < r < |ps| && RunAt(ps, bit, l, r - l)
    ensures RightEdge(ps, bit, l + 1) == r
  {
    RightEdgeIsFirst(ps, bit, l + 1, r);
  }

  /** On any buffer whatever, a positive answer is the length of a run of the asked level that
      starts at the first edge found, or at the start of the buffer if there is none; and every
      such run is found. */
  lemma {:induction false} PeriodIsRun(ps: seq<Pulse>, bit: bool, len: int)
    requires |ps| == SAMPLES && len > 0
    ensures Period(ps, bit) == len <==> RunAt(ps, bit, LeftEdge(ps, bit, 1), len)
  {
    var l := LeftEdge(ps, bit, 1);
    if RunAt(ps, bit, l, len) {
      RunIsFound(ps, bit, l, l + len);
    }
    if Period(ps, bit) == len {
      FoundIsRun(ps, bit, l, l + len);
    }
  }

  // ----- The parameters of a stream are found

  /** Type of the packet at position `x` of a stream of groups of d data and p parity shards. */
  predicate High(d: nat, p: nat, x: nat)
    requires d + p > 0
  {
    x % (d + p) < d
  }

  /** The buffer holds consecutive packets of such a stream, from position `phase` on. */
  predicate Holds(ps: seq<Pulse>, d: nat, p: nat, phase: nat, first: U32)
    requires d + p > 0
  {
    && |ps| == SAMPLES
    && forall i :: 0 <= i < SAMPLES ==> ps[i] == Pulse(High(d, p, phase + i), Add(first, i))
  }

  lemma Reduce(n: nat, x: nat)
    requires 0 < n
    ensures x < n ==> x % n == x
    ensures n <= x < 2 * n ==> x % n == x - n
    ensures x == 2 * n ==> x % n == 0
  {
    if x < n {
      Arith.DivModUnique(x, n, 0, x);
    } else if x < 2 * n {
      Arith.DivModUnique(x, n, 1, x - n);
    } else if x == 2 * n {
      Arith.DivModUnique(x, n, 2, 0);
    }
  }

  lemma AllLinked(ps: seq<Pulse>, d: nat, p: nat, phase: nat, first: U32)
    requires d + p > 0 && Holds(ps, d, p, phase, first)
    ensures forall j :: 0 < j < SAMPLES ==> Linked(ps, j)
  {
    forall j | 0 < j < SAMPLES
      ensures Linked(ps, j)
    {
      AddAdds(first, j - 1, 1);
      assert ps[j - 1].num == Add(first, j - 1) && ps[j].num == Add(first, j);
    }
  }

  /** The level at buffer place i, by position in the first, second or third group seen. */
  lemma LevelAt(ps: seq<Pulse>, d: nat, p: nat, phase: nat, first: U32, i: nat)
    requires 0 < d && 0 < p && phase < d + p && i < SAMPLES && Holds(ps, d, p, phase, first)
    ensures phase + i < d ==> ps[i].bit
    ensures d <= phase + i < d + p ==> !ps[i].bit
    ensures d + p <= phase + i < d + p + d ==> ps[i].bit
    ensures d + p + d <= phase + i < 2 * (d + p) ==> !ps[i].bit
    ensures phase + i == 2 * (d + p) ==> ps[i].bit
  {
    Reduce(d + p, phase + i);
    assert ps[i].bit == High(d, p, phase + i);
  }

  /** The answer for data shards, when the group after the first one seen lies in the buffer. */
  lemma DataShardsFound(ps: seq<Pulse>, d: nat, p: nat, phase: nat, first: U32)
    requires 0 < d && 0 < p && phase < d + p && Holds(ps, d, p, phase, first)
    requires d + p - phase + d < SAMPLES
    ensures Period(ps, true) == d
  {
    var l := d + p - phase;
    AllLinked(ps, d, p, phase, first);
    LevelAt(ps, d, p, phase, first, l - 1);
    LevelAt(ps, d, p, phase, first, l);
    LevelAt(ps, d, p, phase, first, l + d);
    forall j | 1 <= j < l
      ensures !Rises(ps, true, j)
    {
      LevelAt(ps, d, p, phase, first, j - 1);
      LevelAt(ps, d, p, phase, first, j);
    }
    FirstRise(ps, true, 1, l);
    forall j | l <= j < l + d
      ensures ps[j].bit
    {
      LevelAt(ps, d, p, phase, first, j);
    }
    PeriodIsRun(ps, true, d);
  }

  /** The first parity seen after data is at place `l`. */
  lemma ParityBegins(ps: seq<Pulse>, d: nat, p: nat, phase: nat, first: U32, l: nat)
    requires 0 < d && 0 < p && phase < d + p && Holds(ps, d, p, phase, first)
    requires l == (if phase < d then d - phase else d + p + d - phase) && l < SAMPLES
    ensures Rises(ps, false, l) && forall j :: 1 <= j < l ==> !Rises(ps, false, j)
  {
    LevelAt(ps, d, p, phase, first, l - 1);
    LevelAt(ps, d, p, phase, first, l);
    forall j | 1 <= j < l
      ensures !Rises(ps, false, j)
    {
      LevelAt(ps, d, p, phase, first, j - 1);
      LevelAt(ps, d, p, phase, first, j);
    }
  }

  /** The answer for parity shards, when the parity after the first data seen lies in the buffer. */
  lemma {:induction false} ParityShardsFound(ps: seq<Pulse>, d: nat, p: nat, phase: nat, first: U32)
    requires 0 < d && 0 < p && phase < d + p && Holds(ps, d, p, phase, first)
    requires (if phase < d then d - phase else d + p + d - phase) + p < SAMPLES
    ensures Period(ps, false) == p
  {
    var l := if phase < d then d - phase else d + p + d - phase;
    AllLinked(ps, d, p, phase, first);
    ParityBegins(ps, d, p, phase, first, l);
    FirstRise(ps, false, 1, l);
    forall j | l <= j < l + p
      ensures !ps[j].bit
    {
      LevelAt(ps, d, p, phase, first, j);
    }
    LevelAt(ps, d, p, phase, first, l + p);
    PeriodIsRun(ps, false, p);
  }

  lemma {:induction false} FirstRise(ps: seq<Pulse>, bit: bool, idx: nat, l: nat)
    requires 1 <= idx <= l < |ps| && Rises(ps, bit, l) && Linked(ps, l)
    requires forall j :: idx <= j < l ==> !Rises(ps, bit, j)
    ensures LeftEdge(ps, bit, idx) == l
    decreases l - idx
  {
    if idx < l {
      FirstRise(ps, bit, idx + 1, l);
      assert !Rises(ps, bit, idx);
    }
  }

  // ----- Filling the buffer

  /** Packets `first`, `first + 1`, ... of a stream offered one after the other. */
  function Offer(ps: seq<Pulse>, d: nat, p: nat, phase: nat, first: U32, count: nat): (r: seq<Pulse>)
    requires |ps| == SAMPLES && d + p > 0
    ensures |r| == SAMPLES
  {
    if count == 0 then ps
    else Sampled(Offer(ps, d, p, phase, first, count - 1),
                 High(d, p, phase + (count - 1)), Add(first, count - 1))
  }

  predicate Begins(ps: seq<Pulse>, d: nat, p: nat, phase: nat, first: U32, count: nat)
    requires d + p > 0 && count <= |ps|
  {
    forall i :: 0 <= i < count ==> ps[i] == Pulse(High(d, p, phase + i), Add(first, i))
  }

  /** In a block that starts at a multiple of the buffer size, sample i goes to place i. */
  lemma SamplePlace(ps: seq<Pulse>, first: U32, i: nat, bit: bool)
    requires |ps| == SAMPLES && i < SAMPLES
    requires first % SAMPLES == 0 && first + SAMPLES < TWO_32
    requires if i == 0 then ps[0].num <= first <= ps[0].num + SAMPLES else ps[0].num == first
    ensures Sampled(ps, bit, Add(first, i)) == ps[i := Pulse(bit, Add(first, i))]
  {
    assert Add(first, i) == first + i;
    assert Add(first, SAMPLES) == first + SAMPLES;
    assert (first + i) % SAMPLES == i;
  }

  lemma BeginsWithFirst(ps: seq<Pulse>, d: nat, p: nat, phase: nat, first: U32, count: nat)
    requires d + p > 0 && 0 < count <= |ps| && Begins(ps, d, p, phase, first, count)
    ensures ps[0].num == first
  {
    assert Add(first, 0) == first;
  }

  lemma BeginsFurther(ps: seq<Pulse>, d: nat, p: nat, phase: nat, first: U32, i: nat)
    requires d + p > 0 && i < |ps| && Begins(ps, d, p, phase, first, i)
    ensures Begins(ps[i := Pulse(High(d, p, phase + i), Add(first, i))], d, p, phase, first, i + 1)
  {}

  lemma {:induction false} OfferFills(ps: seq<Pulse>, d: nat, p: nat, phase: nat, first: U32, count: nat)
    requires |ps| == SAMPLES && 0 < d && 0 < p && count <= SAMPLES
    requires first % SAMPLES == 0 && first + SAMPLES < TWO_32 && ps[0].num <= first <= ps[0].num + SAMPLES
    ensures Begins(Offer(ps, d, p, phase, first, count), d, p, phase, first, count)
  {
    if count > 0 {
      OfferFills(ps, d, p, phase, first, count - 1);
      var was := Offer(ps, d, p, phase, first, count - 1);
      if count > 1 {
        BeginsWithFirst(was, d, p, phase, first, count - 1);
      }
      SamplePlace(was, first, count - 1, High(d, p, phase + (count - 1)));
      BeginsFurther(was, d, p, phase, first, count - 1);
    }
  }

  /** A receiver that gets one whole block of samples of a stream without loss learns its
      parameters, wherever in a group the block starts, if a group and a half fits. */
  lemma StreamIsRecognised(ps: seq<Pulse>, d: nat, p: nat, phase: nat, first: U32)
    requires |ps| == SAMPLES && 0 < d && 0 < p && phase < d + p
    requires first % SAMPLES == 0 && first + SAMPLES < TWO_32 && ps[0].num <= first <= ps[0].num + SAMPLES
    requires 2 * d + p < SAMPLES && d + 2 * p < SAMPLES
    ensures var r := Offer(ps, d, p, phase, first, SAMPLES);
            Period(r, true) == d && Period(r, false) == p
  {
    OfferFills(ps, d, p, phase, first, SAMPLES);
    var r := Offer(ps, d, p, phase, first, SAMPLES);
    assert Holds(r, d, p, phase, first);
    DataShardsFound(r, d, p, phase, first);
    ParityShardsFound(r, d, p, phase, first);
  }

  // ----- Block after block

  lemma {:induction false} OfferFurther(ps: seq<Pulse>, d: nat, p: nat, phase: nat, first: U32, a: nat, b: nat)
    requires |ps| == SAMPLES && d + p > 0 && first + a + b < TWO_32
    ensures Offer(ps, d, p, phase, first, a + b) == Offer(Offer(ps, d, p, phase, first, a), d, p, phase + a, first + a, b)
    decreases b
  {
    if b > 0 {
      OfferFurther(ps, d, p, phase, first, a, b - 1);
    }
  }

  lemma NextBlock(ps: seq<Pulse>, d: nat, p: nat, first: U32, count: nat, r: seq<Pulse>)
    requires |ps| == SAMPLES == count && 0 < d && 0 < p && first % SAMPLES == 0 && first + SAMPLES < TWO_32
    requires ps[0].num <= first <= ps[0].num + SAMPLES && r == Offer(ps, d, p, first, first, count)
    ensures Holds(r, d, p, first, first) && r[0].num == first
  {
    OfferFills(ps, d, p, first, first, count);
    BeginsWithFirst(r, d, p, first, first, count);
  }

  lemma {:induction false} BlocksFollow(ps: seq<Pulse>, d: nat, p: nat, first: U32, size: nat, before: seq<Pulse>, r: seq<Pulse>)
    requires |ps| == SAMPLES == size && 0 < d && 0 < p && first % SAMPLES == 0 && first + size < TWO_32
    requires before == Offer(ps, d, p, 0, 0, first) && r == Offer(ps, d, p, 0, 0, first + size)
    requires before[0].num <= first <= before[0].num + SAMPLES
    ensures Holds(r, d, p, first, first) && r[0].num == first
  {
    OfferFurther(ps, d, p, 0, 0, first, size);
    NextBlock(before, d, p, first, size, r);
  }

  lemma {:induction false} FirstBlock(ps: seq<Pulse>, d: nat, p: nat, size: nat, r: seq<Pulse>)
    requires |ps| == SAMPLES == size && ps[0].num == 0 && 0 < d && 0 < p && r == Offer(ps, d, p, 0, 0, size)
    ensures Holds(r, d, p, 0, 0) && r[0].num == 0
  {
    NextBlock(ps, d, p, 0, size, r);
  }

  lemma BlockBefore(first: nat)
    requires first > 0 && first % SAMPLES == 0
    ensures first >= SAMPLES && (first - SAMPLES) % SAMPLES == 0
  {}

  /** Packet 258 follows packet 257 into the buffer, and so on for every block: a detector that gets a
      stream from its first packet on, without loss and in order, holds each block in turn. */
  lemma {:induction false} EveryBlockIsHeld(ps: seq<Pulse>, d: nat, p: nat, first: nat, size: nat, r: seq<Pulse>)
    requires |ps| == SAMPLES == size && ps[0].num == 0 && 0 < d && 0 < p
    requires first % 258 == 0 && first + size < TWO_32 && r == Offer(ps, d, p, 0, 0, first + size)
    ensures Holds(r, d, p, first, first) && r[0].num == first
    decreases first
  {
    if first == 0 {
      FirstBlock(ps, d, p, size, r);
    } else {
      BlockBefore(first);
      var before := Offer(ps, d, p, 0, 0, first);
      EveryBlockIsHeld(ps, d, p, first - size, size, before);
      BlocksFollow(ps, d, p, first, size, before, r);
    }
  }

  lemma ResidueMoves(phase: nat, i: nat, n: nat)
    requires n > 0
    ensures (phase % n + i) % n == (phase + i) % n
  {
    var q, r := phase / n, (phase % n + i) % n;
    var t := (phase % n + i) / n;
    assert phase + i == (q + t) * n + r;
    Arith.DivModUnique(phase + i, n, q + t, r);
  }

  /** Where in a group the block starts is all that matters of its position. */
  lemma HoldsFromPhase(ps: seq<Pulse>, d: nat, p: nat, phase: nat, first: U32)
    requires d + p > 0 && Holds(ps, d, p, phase, first)
    ensures Holds(ps, d, p, phase % (d + p), first)
  {
    forall i | 0 <= i < SAMPLES
      ensures ps[i] == Pulse(High(d, p, phase % (d + p) + i), Add(first, i))
    {
      ResidueMoves(phase, i, d + p);
    }
  }

  /** And at the end of every block it knows the stream's parameters. */
  lemma EveryBlockIsRecognised(ps: seq<Pulse>, d: nat, p: nat, first: nat, size: nat, r: seq<Pulse>)
    requires |ps| == SAMPLES == size && ps[0].num == 0 && 0 < d && 0 < p && 2 * d + p < 258 && d + 2 * p < 258
    requires first % 258 == 0 && first + size < TWO_32 && r == Offer(ps, d, p, 0, 0, first + size)
    ensures Period(r, true) == d && Period(r, false) == p
  {
    EveryBlockIsHeld(ps, d, p, first, size, r);
    HoldsFromPhase(r, d, p, first, first);
    DataShardsFound(r, d, p, first % (d + p), first);
    ParityShardsFound(r, d, p, first % (d + p), first);
  }

  // ----- A stalled buffer

  /** The numbers that the buffer takes in: from its first entry to 258 further, both included; none when
      that is past the largest number. */
  predicate TakesIn(ps: seq<Pulse>, num: U32)
    requires |ps| == SAMPLES
  {
    ps[0].num <= num <= ps[0].num + 258 < 0x1_0000_0000
  }

  lemma SampleExact(ps: seq<Pulse>, bit: bool, num: U32)
    requires |ps| == SAMPLES
    ensures Sampled(ps, bit, num) != ps <==> TakesIn(ps, num) && ps[num % 258] != Pulse(bit, num)
    ensures TakesIn(ps, num) ==> Sampled(ps, bit, num)[num % 258] == Pulse(bit, num)
    ensures forall i :: 0 <= i < 258 && i != num % 258 ==> Sampled(ps, bit, num)[i] == ps[i]
  {
    assert ps[num % 258 := ps[num % 258]] == ps;
  }

  function SampleAll(ps: seq<Pulse>, offered: seq<Pulse>): (r: seq<Pulse>)
    requires |ps| == SAMPLES
    ensures |r| == SAMPLES
  {
    if offered == [] then ps
    else var rest := offered[..|offered| - 1];
         var x := offered[|offered| - 1];
         Sampled(SampleAll(ps, rest), x.bit, x.num)
  }

  /** The buffer changes only through a packet at most one block past its first entry: when that
      entry is left behind (its successor was lost, or the numbers wrapped) sampling has stopped for good. */
  lemma {:induction false} SamplingStops(ps: seq<Pulse>, offered: seq<Pulse>)
    requires |ps| == SAMPLES && forall x :: x in offered ==> !TakesIn(ps, x.num)
    ensures SampleAll(ps, offered) == ps
  {
    if offered != [] {
      var rest := offered[..|offered| - 1];
      SamplingStops(ps, rest);
      var x := offered[|offered| - 1];
      assert x in offered;
      SampleExact(ps, x.bit, x.num);
    }
  }
}
