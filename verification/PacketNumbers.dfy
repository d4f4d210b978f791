/** The numbers that the live encoder gives out, failures of the codec included. */
module PacketNumbers {
  import opened Arith
  import opened Base
  import opened Codec
  import opened Numbering
  import opened Serial
  import opened ShardCache
  import opened Traffic

  ghost predicate GroupsOk(groups: seq<seq<Bytes>>) {
    forall g :: 0 <= g < |groups| ==> SizesOk(groups[g])
  }

  ghost predicate Succeeds(codec: Codec, group: seq<Bytes>)
    requires SizesOk(group)
  {
    GroupParity(codec, group).Some?
  }

  /** The number `k` packets after `x`, unreduced. */
  function Later(x: U32, k: nat): U32 {
    if k == 0 then x else Add(Later(x, k - 1), 1)
  }

  lemma {:induction false} LaterWithin(x: U32, k: nat, paws: U32)
    requires x + k <= paws
    ensures Later(x, k) == x + k
  {
    if k > 0 {
      LaterWithin(x, k - 1, paws);
    }
  }

  /** A group advances over its data, unreduced, and over its parity if there is any. */
  function AfterGroup(par: Params, paws: U32, x: U32, ok: bool): U32
    requires paws > 0
  {
    if ok then Reduced(paws, Later(x, par.data), par.parity) else Later(x, par.data)
  }

  /** Number after the groups `groups`. */
  ghost function AfterGroups(par: Params, codec: Codec, paws: U32, groups: seq<seq<Bytes>>): U32
    requires paws > 0 && GroupsOk(groups)
  {
    if groups == [] then 0
    else
      AfterGroup(par, paws, AfterGroups(par, codec, paws, groups[..|groups| - 1]), Succeeds(codec, groups[|groups| - 1]))
  }

  /** How many of the groups the codec failed on. */
  ghost function Failures(codec: Codec, groups: seq<seq<Bytes>>): nat
    requires GroupsOk(groups)
  {
    if groups == [] then 0
    else
      Failures(codec, groups[..|groups| - 1]) + (if Succeeds(codec, groups[|groups| - 1]) then 0 else 1)
  }

  lemma {:induction false} AfterOneMore(par: Params, codec: Codec, paws: U32, groups: seq<seq<Bytes>>, group: seq<Bytes>)
    requires paws > 0 && GroupsOk(groups) && SizesOk(group)
    ensures GroupsOk(groups + [group])
    ensures AfterGroups(par, codec, paws, groups + [group])
            == AfterGroup(par, paws, AfterGroups(par, codec, paws, groups), Succeeds(codec, group))
  {
    var all := groups + [group];
    assert all[..|all| - 1] == groups;
  }

  lemma AfterGroupInStream(par: Params, paws: U32, g: nat)
    requires par.Valid() && Layout(par.Size(), paws)
    ensures AfterGroup(par, paws, StartOf(par.Size(), paws, g), true) == StartOf(par.Size(), paws, g + 1)
  {
    LaterWithin(StartOf(par.Size(), paws, g), par.data, paws);
    ReducedFollowsStream(par.Size(), paws, g, par.data, par.parity);
  }

  /** Without a failure the numbers are those of the stream. */
  lemma {:induction false} NumbersFollowStream(par: Params, codec: Codec, paws: U32, groups: seq<seq<Bytes>>)
    requires par.Valid() && Layout(par.Size(), paws) && GroupsOk(groups) && Failures(codec, groups) == 0
    ensures AfterGroups(par, codec, paws, groups) == StartOf(par.Size(), paws, |groups|)
  {
    if groups != [] {
      var g := |groups| - 1;
      NumbersFollowStream(par, codec, paws, groups[..g]);
      AfterGroupInStream(par, paws, g);
    }
  }

  // ----- After failures

  function Times(a: nat, b: nat): nat {
    if a == 0 then 0 else Times(a - 1, b) + b
  }

  lemma {:induction false} TimesIsProduct(a: nat, b: nat)
    ensures Times(a, b) == a * b
  {
    if a > 0 {
      TimesIsProduct(a - 1, b);
      assert (a - 1) * b + b == a * b;
    }
  }

  lemma {:induction false} ReducedWithin(paws: U32, x: U32, k: nat)
    requires x + k < paws
    ensures Reduced(paws, x, k) == x + k
  {
    if k > 0 {
      ReducedWithin(paws, x, k - 1);
      NoOverflow(x + k - 1, paws);
      SmallMod(x + k, paws);
    }
  }

  lemma AfterGroupWithin(par: Params, paws: U32, x: U32, ok: bool)
    requires x + par.Size() < paws
    ensures AfterGroup(par, paws, x, ok) == x + par.data + (if ok then par.parity else 0)
  {
    LaterWithin(x, par.data, paws);
    ReducedWithin(paws, x + par.data, par.parity);
  }

  /** Packets sent for groups with these outcomes. */
  function SentFor(par: Params, oks: seq<bool>): nat {
    if oks == [] then 0
    else SentFor(par, oks[..|oks| - 1]) + par.data + (if oks[|oks| - 1] then par.parity else 0)
  }

  function Falses(oks: seq<bool>): nat {
    if oks == [] then 0 else Falses(oks[..|oks| - 1]) + (if oks[|oks| - 1] then 0 else 1)
  }

  lemma {:induction false} SentAndMissing(par: Params, oks: seq<bool>)
    ensures SentFor(par, oks) + Times(Falses(oks), par.parity) == Times(|oks|, par.Size())
  {
    if oks != [] {
      var front := oks[..|oks| - 1];
      SentAndMissing(par, front);
      TimesGrows(|oks|, par.Size());
      if !oks[|oks| - 1] {
        TimesGrows(Falses(front) + 1, par.parity);
      }
    }
  }

  /** On which groups the codec succeeds. */
  ghost function Oks(codec: Codec, groups: seq<seq<Bytes>>): (r: seq<bool>)
    requires GroupsOk(groups)
    ensures |r| == |groups| && Falses(r) == Failures(codec, groups)
  {
    if groups == [] then []
    else
      var front, ok := Oks(codec, groups[..|groups| - 1]), Succeeds(codec, groups[|groups| - 1]);
      assert (front + [ok])[..|front + [ok]| - 1] == front;
      front + [ok]
  }

  lemma TimesGrows(a: nat, n: nat)
    requires a > 0
    ensures Times(a - 1, n) + n == Times(a, n)
  {}

  lemma {:induction false} NumbersAreSent(par: Params, codec: Codec, paws: U32, groups: seq<seq<Bytes>>, oks: seq<bool>)
    requires 0 < paws && GroupsOk(groups) && oks == Oks(codec, groups) && Times(|groups|, par.Size()) < paws
    ensures AfterGroups(par, codec, paws, groups) == SentFor(par, oks)
    decreases |groups|
  {
    if groups != [] {
      var front, ok := groups[..|groups| - 1], Succeeds(codec, groups[|groups| - 1]);
      var foks := Oks(codec, front);
      assert oks == foks + [ok] && oks[..|oks| - 1] == foks;
      TimesGrows(|groups|, par.Size());
      NumbersAreSent(par, codec, paws, front, foks);
      SentAndMissing(par, foks);
      AfterGroupWithin(par, paws, SentFor(par, foks), ok);
    }
  }

  /** Until the numbers reach the wrap point they count what was sent: all packets of every group but
      the parity of those that failed. */
  lemma {:induction false} NumbersCountSent(par: Params, codec: Codec, paws: U32, groups: seq<seq<Bytes>>)
    requires 0 < paws && GroupsOk(groups) && Times(|groups|, par.Size()) < paws
    ensures AfterGroups(par, codec, paws, groups) + Times(Failures(codec, groups), par.parity)
            == Times(|groups|, par.Size())
  {
    NumbersAreSent(par, codec, paws, groups, Oks(codec, groups));
    SentAndMissing(par, Oks(codec, groups));
  }

  lemma ShiftBlocks(y: int, k: int, n: nat, x: int)
    requires n > 0 && x == y + k * n
    ensures x % n == y % n
  {
    assert x == (y / n + k) * n + y % n;
    DivModUnique(x, n, y / n + k, y % n);
  }

  lemma SumsOfBlocks(x: nat, y: nat, f: nat, q: nat, r: nat, n: nat)
    requires n > 0 && x + f == q * n && f + y == r * n
    ensures x % n == y % n && (x % n == 0 <==> f % n == 0)
  {
    assert x == y + (q - r) * n;
    ShiftBlocks(y, q - r, n, x);
    if f % n == 0 {
      assert x == (q - f / n) * n;
      MulDiv(q - f / n, n);
    }
    if x % n == 0 {
      assert f == (q - x / n) * n;
      MulDiv(q - x / n, n);
    }
  }

  lemma Residues(x: nat, f: nat, g: nat, d: nat, p: nat, n: nat, fd: nat, fp: nat)
    requires n == d + p > 0 && fd == f * d && fp == f * p && x + fp == g * n
    ensures x % n == fd % n && (x % n == 0 <==> fp % n == 0)
  {
    assert fp + fd == f * n;
    SumsOfBlocks(x, fd, fp, g, f, n);
  }

  /** Where the numbers stand after `f` failures among `g` groups. */
  ghost predicate StandsAt(x: nat, f: nat, g: nat, d: nat, p: nat) {
    x + Times(f, p) == Times(g, d + p)
  }

  lemma StandsAtResidue(x: nat, f: nat, g: nat, d: nat, p: nat)
    requires d + p > 0 && StandsAt(x, f, g, d, p)
    ensures x % (d + p) == (f * d) % (d + p) && (x % (d + p) == 0 <==> (f * p) % (d + p) == 0)
  {
    TimesIsProduct(g, d + p);
    TimesIsProduct(f, p);
    TimesIsProduct(f, d);
    Residues(x, f, g, d, p, d + p, Times(f, d), Times(f, p));
  }

  /** After `f` failures, before the numbers wrap, the next group starts at position `f * data` of a
      group, so that its packets are taken for others; it starts in step again exactly if `f * parity`
      is a whole number of groups. */
  lemma {:induction false} InStepIff(par: Params, codec: Codec, paws: U32, groups: seq<seq<Bytes>>, x: U32, f: nat, n: nat)
    requires par.Valid() && 0 < paws && GroupsOk(groups) && n == par.Size() && |groups| * n < paws
    requires x == AfterGroups(par, codec, paws, groups) && f == Failures(codec, groups)
    ensures x % n == (f * par.data) % n && (x % n == 0 <==> (f * par.parity) % n == 0)
  {
    TimesIsProduct(|groups|, n);
    NumbersCountSent(par, codec, paws, groups);
    StandsAtResidue(x, f, |groups|, par.data, par.parity);
  }

  lemma WholeGroups(f: nat, e: nat, p: nat, n: nat)
    requires f == e + e && n == p + p > 0
    ensures (f * p) % n == 0
  {
    assert f * p == e * n;
    MulDiv(e, n);
  }

  /** With as much parity as data, an even number of failures brings the numbers back in step: two in
      particular, with one data and one parity shard. */
  lemma {:induction false} EvenFailuresAlign(par: Params, codec: Codec, paws: U32, groups: seq<seq<Bytes>>, x: U32, f: nat, e: nat, n: nat)
    requires par.Valid() && par.data == par.parity && 0 < paws && GroupsOk(groups) && n == par.Size() && |groups| * n < paws
    requires x == AfterGroups(par, codec, paws, groups) && f == Failures(codec, groups) && f == e + e
    ensures x % n == 0
  {
    InStepIff(par, codec, paws, groups, x, f, n);
    WholeGroups(f, e, par.parity, n);
  }
}
