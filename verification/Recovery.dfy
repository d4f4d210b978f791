/** Rebuilding one group from whatever part of it arrived. */
module Recovery {
  import opened Base
  import opened Codec
  import opened Numbering
  import opened QueueDecoder
  import opened Reference
  import opened Sets
  import opened Traffic

  /** Positions of the group that arrived. */
  function Arrived(shards: seq<Option<Bytes>>): set<nat> {
    set k: nat | k < |shards| && shards[k].Some?
  }

  /** Every collected shard is the one that group `g` sent at its position. */
  ghost predicate FromGroup(s: Sender, g: nat, a: Assembly)
    requires s.Valid()
  {
    && a.Fits(s.par.Size())
    && (forall k :: 0 <= k < s.par.Size() && a.shards[k].Some? ==>
          s.Emitted(Idx(g, k)) && a.shards[k].value == s.Sent(Idx(g, k)).data)
    && (g < |s.groups| ==> a.maxLen <= s.ShardLen(g))
  }

  /** Only a complete group can have `data` packets. */
  lemma {:induction false} EnoughMeansComplete(s: Sender, g: nat, a: Assembly)
    requires s.Valid() && FromGroup(s, g, a) && |Arrived(a.shards)| >= s.par.data
    ensures g < |s.groups|
  {
    if g >= |s.groups| {
      var sent := Span(0, |s.tail|);
      forall k | k in Arrived(a.shards)
        ensures k in sent
      {
        assert s.Emitted(Idx(g, k));
      }
      SubsetSize(Arrived(a.shards), sent);
    }
  }

  /** If a data shard is missing among `data` arrivals, a parity shard is present. */
  lemma {:induction false} ParityArrived(s: Sender, a: Assembly, missing: nat)
    requires s.Valid() && a.Fits(s.par.Size()) && |Arrived(a.shards)| >= s.par.data
    requires missing < s.par.data && a.shards[missing].None?
    ensures exists k: nat :: s.par.data <= k < s.par.Size() && a.shards[k].Some?
  {
    var others := Span(0, s.par.data) - {missing};
    if Arrived(a.shards) <= others {
      SubsetSize(Arrived(a.shards), others);
      assert false;
    }
    var k :| k in Arrived(a.shards) && k !in others;
    assert s.par.data <= k < s.par.Size() && a.shards[k].Some?;
  }

  /** A parity shard has the length the encoder padded the group to, so the decoder pads every
      shard to its place in the code word. */
  lemma {:induction false} PaddingMatches(s: Sender, g: nat, a: Assembly, parity: nat)
    requires s.Valid() && FromGroup(s, g, a) && g < |s.groups|
    requires s.par.data <= parity < s.par.Size() && a.shards[parity].Some?
    ensures a.maxLen == s.ShardLen(g)
    ensures Drawn(a.ForCodec(s.par.Size()), s.Word(g))
    ensures Present(a.ForCodec(s.par.Size())) == Arrived(a.shards)
  {
    var n := s.par.Size();
    s.SentInWord(Idx(g, parity));
    assert a.maxLen == s.ShardLen(g);
    forall k | 0 <= k < n
      ensures a.shards[k].None? ==> a.ForCodec(n)[k] == []
      ensures a.shards[k].Some? ==> a.ForCodec(n)[k] == s.Word(g)[k] && a.ForCodec(n)[k] != []
    {
      if a.shards[k].Some? {
        s.SentInWord(Idx(g, k));
      }
    }
  }

  lemma {:induction false} NoneAbsent(data: seq<Bytes>, shards: seq<Option<Bytes>>, k: nat)
    requires k <= |data| && k <= |shards|
    requires forall j :: 0 <= j < k ==> shards[j].Some?
    ensures Absent(data, shards, k) == []
  {
    if k > 0 {
      NoneAbsent(data, shards, k - 1);
    }
  }

  /** With too few shards nothing is handed out. */
  lemma {:induction false} TooFewGiveNothing(cfg: Config, s: Sender, g: nat, a: Assembly)
    requires cfg.Valid() && s.Valid() && cfg.par == s.par && FromGroup(s, g, a)
    requires |Arrived(a.shards)| < s.par.data
    ensures Rebuild(cfg, a) == []
  {
    var given := a.ForCodec(s.par.Size());
    assert Present(given) <= Arrived(a.shards);
    SubsetSize(Present(given), Arrived(a.shards));
    assert AnswersWell(cfg.codec, cfg.par, given);
  }

  /** With a data shard missing and enough others, the codec returns the encoder's shards. */
  lemma {:induction false} CodecReturnsData(cfg: Config, s: Sender, g: nat, a: Assembly, missing: nat)
    requires cfg.Valid() && s.Valid() && cfg.par == s.par && cfg.codec == s.codec && FromGroup(s, g, a)
    requires |Arrived(a.shards)| >= s.par.data && g < |s.groups|
    requires missing < s.par.data && a.shards[missing].None?
    ensures cfg.codec.reconstruct(a.ForCodec(s.par.Size())) == Some(s.DataShards(g))
  {
    ParityArrived(s, a, missing);
    var parity: nat :| s.par.data <= parity < s.par.Size() && a.shards[parity].Some?;
    PaddingMatches(s, g, a, parity);
    assert RecoversGroup(s.codec, s.par, s.DataShards(g), s.ShardLen(g), a.ForCodec(s.par.Size()));
  }

  /** With enough shards exactly the missing data shards are handed out, as the encoder padded
      them. */
  lemma {:induction false} EnoughGiveMissing(cfg: Config, s: Sender, g: nat, a: Assembly)
    requires cfg.Valid() && s.Valid() && cfg.par == s.par && cfg.codec == s.codec && FromGroup(s, g, a)
    requires |Arrived(a.shards)| >= s.par.data
    ensures g < |s.groups|
    ensures Rebuild(cfg, a) == Absent(s.DataShards(g), a.shards, s.par.data)
  {
    EnoughMeansComplete(s, g, a);
    var answer := cfg.codec.reconstruct(a.ForCodec(s.par.Size()));
    if missing: nat :| missing < s.par.data && a.shards[missing].None? {
      CodecReturnsData(cfg, s, g, a, missing);
    } else {
      NoneAbsent(s.DataShards(g), a.shards, s.par.data);
      assert AnswersWell(cfg.codec, cfg.par, a.ForCodec(s.par.Size()));
      if answer.Some? {
        NoneAbsent(answer.value, a.shards, s.par.data);
      }
    }
  }

  ghost predicate AllInWholeGroups(s: Sender, ix: seq<Idx>) {
    forall j :: 0 <= j < |ix| ==> ix[j].g < |s.groups| && ix[j].k < s.par.data
  }

  /** The padded shards at the given indices. */
  ghost function Shards(s: Sender, ix: seq<Idx>): (r: seq<Bytes>)
    requires s.Valid() && AllInWholeGroups(s, ix)
    ensures |r| == |ix|
    ensures forall j :: 0 <= j < |ix| ==> r[j] == s.DataShards(ix[j].g)[ix[j].k]
  {
    seq(|ix|, j requires 0 <= j < |ix| => s.DataShards(ix[j].g)[ix[j].k])
  }

  lemma {:induction false} ShardsConcat(s: Sender, a: seq<Idx>, b: seq<Idx>)
    requires s.Valid() && AllInWholeGroups(s, a) && AllInWholeGroups(s, b)
    ensures AllInWholeGroups(s, a + b) && Shards(s, a + b) == Shards(s, a) + Shards(s, b)
  {}

  /** Picking absent shards by position is picking missing packets by index. */
  lemma {:induction false} AbsentByIndex(data: seq<Bytes>, shards: seq<Option<Bytes>>, g: nat, held: set<Idx>, k: nat)
    requires k <= |data| && k <= |shards|
    requires forall j :: 0 <= j < k ==> (shards[j].Some? <==> Idx(g, j) in held)
    ensures var ix := Missing(g, held, k);
            && |Absent(data, shards, k)| == |ix|
            && forall j :: 0 <= j < |ix| ==> ix[j].g == g && ix[j].k < k && Absent(data, shards, k)[j] == data[ix[j].k]
  {
    if k > 0 {
      AbsentByIndex(data, shards, g, held, k - 1);
    }
  }

  lemma {:induction false} AbsentAreMissing(s: Sender, g: nat, shards: seq<Option<Bytes>>, held: set<Idx>)
    requires s.Valid() && g < |s.groups| && |shards| == s.par.Size()
    requires forall j :: 0 <= j < s.par.data ==> (shards[j].Some? <==> Idx(g, j) in held)
    ensures AllInWholeGroups(s, Missing(g, held, s.par.data))
    ensures Absent(s.DataShards(g), shards, s.par.data) == Shards(s, Missing(g, held, s.par.data))
  {
    AbsentByIndex(s.DataShards(g), shards, g, held, s.par.data);
  }

  /** `acc` is what the packets `held` of group `g` leave in the caches. */
  ghost predicate Collected(s: Sender, g: nat, acc: Assembly, held: set<Idx>)
    requires s.Valid()
  {
    && FromGroup(s, g, acc)
    && acc.numShard == |held| == |Arrived(acc.shards)|
    && (forall k :: 0 <= k < s.par.Size() ==> (acc.shards[k].Some? <==> Idx(g, k) in held))
    && (acc.numData == acc.numShard <==> forall i :: i in held ==> s.IsData(i))
  }

  lemma {:induction false} EmptyCollected(s: Sender, g: nat)
    requires s.Valid()
    ensures Collected(s, g, EmptyAssembly(s.par.Size()), {})
  {
    assert Arrived(EmptyAssembly(s.par.Size()).shards) == {};
  }

  lemma {:induction false} TakeKeepsGroup(s: Sender, g: nat, acc: Assembly, x: Idx, i: nat)
    requires s.Valid() && FromGroup(s, g, acc) && x.g == g && s.Emitted(x)
    ensures var next := acc.Take(s.par.Size(), i, s.Sent(x));
            FromGroup(s, g, next) && next.shards == acc.shards[x.k := Some(s.Sent(x).data)]
  {
    SeqIdParts(s.par.Size(), s.paws, x);
    if g < |s.groups| {
      s.SentInWord(x);
    }
  }

  lemma TakeCounts(shards: seq<Option<Bytes>>, g: nat, held: set<Idx>, x: Idx, data: Bytes)
    requires x.g == g && x.k < |shards| && x !in held && |Arrived(shards)| == |held|
    requires forall k :: 0 <= k < |shards| ==> (shards[k].Some? <==> Idx(g, k) in held)
    ensures |Arrived(shards[x.k := Some(data)])| == |held + {x}|
  {
    assert x == Idx(g, x.k);
    assert Arrived(shards[x.k := Some(data)]) == Arrived(shards) + {x.k};
  }

  /** One more packet of the group. */
  lemma {:induction false} TakeOne(s: Sender, g: nat, acc: Assembly, held: set<Idx>, x: Idx, i: nat)
    requires s.Valid() && Collected(s, g, acc, held)
    requires x.g == g && s.Emitted(x) && x !in held
    ensures Collected(s, g, acc.Take(s.par.Size(), i, s.Sent(x)), held + {x})
  {
    var next := acc.Take(s.par.Size(), i, s.Sent(x));
    TakeKeepsGroup(s, g, acc, x, i);
    TakeCounts(acc.shards, g, held, x, s.Sent(x).data);
    assert x == Idx(g, x.k);
    assert acc.numData == acc.numShard || exists j :: j in held && !s.IsData(j);
  }

  /** `d` shards among the first `d` positions fill them. */
  lemma FirstPositionsFilled(shards: seq<Option<Bytes>>, d: nat)
    requires d <= |shards| && |Arrived(shards)| == d
    requires forall k :: d <= k < |shards| ==> shards[k].None?
    ensures forall k :: 0 <= k < d ==> shards[k].Some?
  {
    SubsetSize(Arrived(shards), Span(0, d));
    forall k | 0 <= k < d
      ensures shards[k].Some?
    {
      assert k in Arrived(shards);
    }
  }

  lemma {:induction false} OnlyDataCollected(s: Sender, g: nat, acc: Assembly, held: set<Idx>, k: nat)
    requires s.Valid() && Collected(s, g, acc, held) && acc.numData == acc.numShard
    requires s.par.data <= k < s.par.Size()
    ensures acc.shards[k].None?
  {
    assert !s.IsData(Idx(g, k));
  }

  lemma {:induction false} AllDataArrived(s: Sender, g: nat, acc: Assembly, held: set<Idx>)
    requires s.Valid() && Collected(s, g, acc, held)
    requires |held| == s.par.data == acc.numData
    ensures forall k :: 0 <= k < s.par.data ==> acc.shards[k].Some?
  {
    forall k | s.par.data <= k < s.par.Size()
      ensures acc.shards[k].None?
    {
      OnlyDataCollected(s, g, acc, held, k);
    }
    FirstPositionsFilled(acc.shards, s.par.data);
  }

  /** A group of `data` packets, once collected, hands out exactly its missing data packets:
      none if all are there, and the encoder's padded shards otherwise. */
  lemma {:induction false} CollectedRecovers(cfg: Config, s: Sender, g: nat, acc: Assembly, held: set<Idx>)
    requires cfg.Valid() && s.Valid() && cfg.par == s.par && cfg.codec == s.codec
    requires Collected(s, g, acc, held) && |held| == s.par.data
    ensures AllInWholeGroups(s, Missing(g, held, s.par.data))
    ensures (if acc.numData == s.par.data then [] else Rebuild(cfg, acc)) == Shards(s, Missing(g, held, s.par.data))
  {
    EnoughGiveMissing(cfg, s, g, acc);
    AbsentAreMissing(s, g, acc.shards, held);
    if acc.numData == s.par.data {
      AllDataArrived(s, g, acc, held);
      NoneAbsent(s.DataShards(g), acc.shards, s.par.data);
    }
  }
}
