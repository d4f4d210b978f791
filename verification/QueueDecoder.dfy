/** The live decoder: packets wait in a queue ordered by serial number; a group is rebuilt and
    taken out once enough of it has arrived. */
module QueueDecoder {
  import opened Base
  import opened Codec
  import opened Numbering
  import opened Serial
  import opened Traffic

  datatype Config = Config(par: Params, rxlimit: nat, codec: Codec) {
    ghost predicate Valid() {
      par.Valid() && rxlimit >= par.Size() && Erasure(codec, par)
    }
  }

  // ----- Where a packet goes

  datatype Place = Duplicate | InsertAt(at: nat)

  /** Search from the back of the first `i` entries. */
  function Scan(rx: seq<FecPacket>, s: U32, i: nat): (r: Place)
    requires i <= |rx|
    ensures r.InsertAt? ==> r.at <= i
  {
    if i == 0 then InsertAt(0)
    else if s == rx[i - 1].seqid then Duplicate
    else if Diff(s, rx[i - 1].seqid) > 0 then InsertAt(i)
    else Scan(rx, s, i - 1)
  }

  function Insert<T>(s: seq<T>, at: nat, x: T): (r: seq<T>)
    requires at <= |s|
    ensures |r| == |s| + 1
  {
    s[..at] + [x] + s[at..]
  }

  /** `s` without the `count` elements from `first` on. */
  function FreeRange<T>(s: seq<T>, first: nat, count: nat): (r: seq<T>)
    requires first + count <= |s|
    ensures |r| == |s| - count
  {
    s[..first] + s[first + count..]
  }

  // ----- Collecting a group

  datatype Assembly = Assembly(shards: seq<Option<Bytes>>, numShard: nat, numData: nat, first: nat, maxLen: nat) {
    predicate Fits(n: nat) {
      && |shards| == n && numData <= numShard
      && forall k :: 0 <= k < n && shards[k].Some? ==> |shards[k].value| <= maxLen
    }

    /** The entry at queue position `i` joins the group. */
    function Take(n: nat, i: nat, pkt: FecPacket): (r: Assembly)
      requires n > 0 && Fits(n)
      ensures r.Fits(n)
    {
      Assembly(shards[pkt.seqid % n := Some(pkt.data)],
               numShard + 1,
               if pkt.flag == TYPE_DATA then numData + 1 else numData,
               if numShard == 0 then i else first,
               if |pkt.data| > maxLen then |pkt.data| else maxLen)
    }

    /** What the codec is given: missing shards empty, the others padded to the longest. */
    function ForCodec(n: nat): (r: seq<Bytes>)
      requires Fits(n)
      ensures |r| == n
    {
      seq(n, k requires 0 <= k < n => if shards[k].None? then [] else PadTo(shards[k].value, maxLen))
    }
  }

  /** The shards for the codec, byte by byte: what arrived, then zeros up to the longest. */
  lemma ForCodecBytes(a: Assembly, n: nat, k: nat)
    requires a.Fits(n) && k < n
    ensures var r := a.ForCodec(n)[k];
            if a.shards[k].None? then r == []
            else |r| == a.maxLen && forall j :: 0 <= j < |r| ==>
              r[j] == if j < |a.shards[k].value| then a.shards[k].value[j] else 0
  {}

  function EmptyAssembly(n: nat): (r: Assembly)
    ensures r.Fits(n)
  {
    Assembly(seq(n, _ => None), 0, 0, 0, 0)
  }

  /** Walk the queue from `i` to `end`, taking what lies between `lo` and `hi` in serial order
      and stopping at the first entry beyond `hi`. */
  function Assemble(n: nat, q: seq<FecPacket>, i: nat, end: nat, lo: U32, hi: U32, a: Assembly): (r: Assembly)
    requires n > 0 && i <= end <= |q| && a.Fits(n)
    requires a.numShard <= i && (a.numShard > 0 ==> a.first + a.numShard <= i)
    ensures r.Fits(n)
    ensures r.numShard > 0 ==> r.first + r.numShard <= end
    decreases end - i
  {
    if i == end || Diff(q[i].seqid, hi) > 0 then a
    else if Diff(q[i].seqid, lo) >= 0 then Assemble(n, q, i + 1, end, lo, hi, a.Take(n, i, q[i]))
    else Assemble(n, q, i + 1, end, lo, hi, a)
  }

  /** The first `k` data shards that had not arrived. */
  function Absent(data: seq<Bytes>, shards: seq<Option<Bytes>>, k: nat): (r: seq<Bytes>)
    requires k <= |data| && k <= |shards|
    ensures |r| <= k
  {
    if k == 0 then []
    else Absent(data, shards, k - 1) + (if shards[k - 1].None? then [data[k - 1]] else [])
  }

  function Rebuild(cfg: Config, a: Assembly): (r: seq<Bytes>)
    requires cfg.Valid() && a.Fits(cfg.par.Size())
    ensures |r| <= cfg.par.data
  {
    assert AnswersWell(cfg.codec, cfg.par, a.ForCodec(cfg.par.Size()));
    match cfg.codec.reconstruct(a.ForCodec(cfg.par.Size()))
    case None => []
    case Some(data) => Absent(data, a.shards, cfg.par.data)
  }

  // ----- The caches, used alike by both decoders

  /** The caches hold what `a` says. */
  ghost predicate CachesShow(cache: array<Option<Bytes>>, flags: array<bool>, a: Assembly)
    reads cache, flags
  {
    && cache[..] == a.shards
    && flags.Length == |a.shards|
    && forall k :: 0 <= k < flags.Length ==> flags[k] == a.shards[k].Some?
  }

  method ClearCaches(cache: array<Option<Bytes>>, flags: array<bool>)
    requires cache.Length == flags.Length
    modifies cache, flags
    ensures CachesShow(cache, flags, EmptyAssembly(cache.Length))
  {
    for k := 0 to cache.Length
      invariant forall j :: 0 <= j < k ==> cache[j] == None && !flags[j]
    {
      cache[k] := None;
      flags[k] := false;
    }
  }

  /** Give every shard that arrived the same length. */
  method PadShards(cache: array<Option<Bytes>>, ghost a: Assembly, maxLen: nat) returns (shards: seq<Bytes>)
    requires a.Fits(cache.Length) && cache[..] == a.shards && maxLen == a.maxLen
    modifies cache
    ensures shards == a.ForCodec(cache.Length)
    ensures forall k :: 0 <= k < |shards| && a.shards[k].Some? ==>
      |shards[k]| == maxLen && forall j :: |a.shards[k].value| <= j < maxLen ==> shards[k][j] == 0
  {
    var n := cache.Length;
    shards := [];
    for k := 0 to n
      invariant shards == a.ForCodec(n)[..k]
      invariant forall j :: k <= j < n ==> cache[j] == a.shards[j]
    {
      if cache[k].Some? {
        cache[k] := Some(PadTo(cache[k].value, maxLen));
      }
      shards := shards + [if cache[k].None? then [] else cache[k].value];
    }
  }

  method PickAbsent(data: seq<Bytes>, flags: array<bool>, ghost shards: seq<Option<Bytes>>) returns (recovered: seq<Bytes>)
    requires |data| <= flags.Length == |shards|
    requires forall k :: 0 <= k < flags.Length ==> flags[k] == shards[k].Some?
    ensures recovered == Absent(data, shards, |data|)
  {
    recovered := [];
    for k := 0 to |data|
      invariant recovered == Absent(data, shards, k)
    {
      if !flags[k] {
        recovered := recovered + [data[k]];
      }
    }
  }

  /** Run the codec and pick the data shards that had not arrived. */
  method Recover(cfg: Config, flags: array<bool>, ghost a: Assembly, shards: seq<Bytes>) returns (recovered: seq<Bytes>)
    requires cfg.Valid() && a.Fits(cfg.par.Size()) && shards == a.ForCodec(cfg.par.Size())
    requires flags.Length == cfg.par.Size()
    requires forall k :: 0 <= k < flags.Length ==> flags[k] == a.shards[k].Some?
    ensures recovered == Rebuild(cfg, a)
  {
    var r := cfg.codec.reconstruct(shards);
    assert AnswersWell(cfg.codec, cfg.par, shards);
    if r.Some? {
      recovered := PickAbsent(r.value, flags, a.shards);
    } else {
      recovered := [];
    }
  }

  // ----- One packet

  /** What one packet does to the queue: nothing, or an insertion, the removal of a block, the
      eviction of the front, and the shards handed out. */
  datatype Edit = Drop | Edit(at: nat, first: nat, count: nat, evict: bool, recovered: seq<Bytes>) {

    predicate Fits(len: nat) {
      Edit? ==> at <= len && first + count <= len + 1 && (evict ==> count <= len)
    }

    function Apply<T>(s: seq<T>, x: T): seq<T>
      requires Fits(|s|)
    {
      if Drop? then s
      else
        var kept := FreeRange(Insert(s, at, x), first, count);
        if evict then FreeRange(kept, 0, 1) else kept
    }

    function Recovered(): seq<Bytes> {
      if Drop? then [] else recovered
    }

    /** How many packets are taken out as a block. */
    function Removed(): nat {
      if Drop? then 0 else count
    }
  }

  function SearchBegin(n: nat, at: nat, s: U32): (r: nat)
    requires n > 0
    ensures r <= at
  {
    if at < s % n then 0 else at - s % n
  }

  function SearchEnd(n: nat, begin: nat, len: nat): (r: nat)
    requires begin <= len
    ensures begin <= r <= len
  {
    if begin + n > len then len else begin + n
  }

  /** What the collected group does to a queue of `len` packets searched over `width` of them. */
  function Settle(cfg: Config, len: nat, at: nat, width: nat, a: Assembly): (e: Edit)
    requires cfg.Valid() && a.Fits(cfg.par.Size()) && at < len
    requires a.numShard > 0 ==> a.first + a.numShard <= len
    ensures e.Fits(len - 1) && e.Edit? && e.at == at
    ensures |e.recovered| <= cfg.par.data
  {
    if width < cfg.par.data || a.numShard < cfg.par.data then
      Edit(at, 0, 0, len > cfg.rxlimit, [])
    else
      Edit(at, a.first, a.numShard, len - a.numShard > cfg.rxlimit,
           if a.numData == cfg.par.data then [] else Rebuild(cfg, a))
  }

  /** The packets of the queue `q` that belong to the group of `s`, seen from position `at`. */
  function GroupInWindow(n: nat, q: seq<FecPacket>, at: nat, s: U32): (a: Assembly)
    requires n > 0 && at < |q|
    ensures a.Fits(n) && (a.numShard > 0 ==> a.first + a.numShard <= |q|)
  {
    var begin := SearchBegin(n, at, s);
    Assemble(n, q, begin, SearchEnd(n, begin, |q|), GroupFirst(n, s), GroupLast(n, s), EmptyAssembly(n))
  }

  function WindowWidth(n: nat, len: nat, at: nat, s: U32): nat
    requires n > 0 && at < len
  {
    var begin := SearchBegin(n, at, s);
    SearchEnd(n, begin, len) - begin
  }

  function Plan(cfg: Config, rx: seq<FecPacket>, pkt: FecPacket): (e: Edit)
    requires cfg.Valid()
    ensures e.Fits(|rx|)
    ensures |e.Recovered()| <= cfg.par.data
  {
    match Scan(rx, pkt.seqid, |rx|)
    case Duplicate => Drop
    case InsertAt(at) =>
      var n, q := cfg.par.Size(), Insert(rx, at, pkt);
      Settle(cfg, |q|, at, WindowWidth(n, |q|, at, pkt.seqid), GroupInWindow(n, q, at, pkt.seqid))
  }

  class Decoder {
    const cfg: Config
    var rx: seq<FecPacket>
    const decodeCache: array<Option<Bytes>>
    const flagCache: array<bool>

    ghost predicate Valid()
      reads this
    {
      cfg.Valid() && decodeCache.Length == cfg.par.Size() && flagCache.Length == cfg.par.Size()
    }

    constructor (cfg: Config)
      requires cfg.Valid()
      ensures Valid() && this.cfg == cfg && rx == [] && fresh(decodeCache) && fresh(flagCache)
    {
      this.cfg := cfg;
      rx := [];
      decodeCache := new Option<Bytes>[cfg.par.Size()](_ => None);
      flagCache := new bool[cfg.par.Size()](_ => false);
    }

    /** Position of a new packet in the ordered queue; -1 for one that is there already. */
    method FindPlace(s: U32) returns (at: int)
      ensures match Scan(rx, s, |rx|) case Duplicate => at == -1 case InsertAt(i) => at == i
    {
      var i := |rx|;
      while i > 0
        invariant 0 <= i <= |rx|
        invariant Scan(rx, s, |rx|) == Scan(rx, s, i)
      {
        if s == rx[i - 1].seqid {
          return -1;
        } else if Diff(s, rx[i - 1].seqid) > 0 {
          return i;
        }
        i := i - 1;
      }
      return 0;
    }

    /** The shard assembly loop over `rx[begin..end]`. */
    method Collect(begin: nat, end: nat, lo: U32, hi: U32) returns (ghost a: Assembly, numShard: nat, numData: nat, first: nat, maxLen: nat)
      requires Valid() && begin <= end <= |rx|
      requires CachesShow(decodeCache, flagCache, EmptyAssembly(cfg.par.Size()))
      modifies decodeCache, flagCache
      ensures a == Assemble(cfg.par.Size(), rx, begin, end, lo, hi, EmptyAssembly(cfg.par.Size()))
      ensures CachesShow(decodeCache, flagCache, a) && a.Fits(cfg.par.Size())
      ensures numShard == a.numShard && numData == a.numData && first == a.first && maxLen == a.maxLen
    {
      var n := cfg.par.Size();
      numShard, numData, first, maxLen := 0, 0, 0, 0;
      a := EmptyAssembly(n);
      var i := begin;
      while i < end
        invariant begin <= i <= end
        invariant a.Fits(n) && a.numShard <= i && (a.numShard > 0 ==> a.first + a.numShard <= i)
        invariant CachesShow(decodeCache, flagCache, a)
        invariant numShard == a.numShard && numData == a.numData && first == a.first && maxLen == a.maxLen
        invariant Assemble(n, rx, begin, end, lo, hi, EmptyAssembly(n)) == Assemble(n, rx, i, end, lo, hi, a)
      {
        var pkt := rx[i];
        if Diff(pkt.seqid, hi) > 0 {
          break;
        } else if Diff(pkt.seqid, lo) >= 0 {
          decodeCache[pkt.seqid % n] := Some(pkt.data);
          flagCache[pkt.seqid % n] := true;
          numShard := numShard + 1;
          if pkt.flag == TYPE_DATA {
            numData := numData + 1;
          }
          if numShard == 1 {
            first := i;
          }
          if |pkt.data| > maxLen {
            maxLen := |pkt.data|;
          }
          a := a.Take(n, i, pkt);
        }
        i := i + 1;
      }
    }

    /** Collect the group of `s` around position `at` and take it out if it is ready. */
    method TryDrain(at: nat, s: U32) returns (recovered: seq<Bytes>)
      requires Valid() && at < |rx|
      modifies this`rx, decodeCache, flagCache
      ensures var n, len := cfg.par.Size(), |old(rx)|;
              var e := Settle(cfg, len, at, WindowWidth(n, len, at, s), GroupInWindow(n, old(rx), at, s));
              recovered == e.recovered && rx == FreeRange(old(rx), e.first, e.count)
    {
      recovered := [];
      var n := cfg.par.Size();
      var begin := SearchBegin(n, at, s);
      var end := SearchEnd(n, begin, |rx|);
      if end - begin >= cfg.par.data {
        ClearCaches(decodeCache, flagCache);
        ghost var a;
        var numShard, numData, first, maxLen;
        a, numShard, numData, first, maxLen := Collect(begin, end, GroupFirst(n, s), GroupLast(n, s));
        if numData == cfg.par.data {
          rx := FreeRange(rx, first, numShard);
        } else if numShard >= cfg.par.data {
          var shards := PadShards(decodeCache, a, maxLen);
          recovered := Recover(cfg, flagCache, a, shards);
          rx := FreeRange(rx, first, numShard);
        }
      }
    }

    method Decode(pkt: FecPacket) returns (recovered: seq<Bytes>)
      requires Valid()
      modifies this`rx, decodeCache, flagCache
      ensures Valid()
      ensures rx == Plan(cfg, old(rx), pkt).Apply(old(rx), pkt)
      ensures recovered == Plan(cfg, old(rx), pkt).Recovered()
    {
      recovered := [];
      var at := FindPlace(pkt.seqid);
      if at == -1 {
        return;
      }
      rx := Insert(rx, at, pkt);
      recovered := TryDrain(at, pkt.seqid);
      if |rx| > cfg.rxlimit {
        rx := FreeRange(rx, 0, 1);
      }
    }
  }

  /** A new decoder, or none for shard counts that are not positive or have no codec, or a queue that cannot
      hold a group. */
  method NewDecoder(rxlimit: int, dataShards: int, parityShards: int, make: Factory) returns (dec: Decoder?)
    requires Lawful(make)
    ensures dec == null <==>
      dataShards <= 0 || parityShards <= 0 || rxlimit < dataShards + parityShards || make(dataShards, parityShards).None?
    ensures dec != null ==>
      && fresh(dec) && fresh(dec.decodeCache) && fresh(dec.flagCache) && dec.Valid() && dec.rx == []
      && dec.cfg == Config(Params(dataShards, parityShards), rxlimit, make(dataShards, parityShards).value)
  {
    if dataShards <= 0 || parityShards <= 0 || rxlimit < dataShards + parityShards {
      return null;
    }
    var codec := make(dataShards, parityShards);
    if codec.None? {
      return null;
    }
    dec := new Decoder(Config(Params(dataShards, parityShards), rxlimit, codec.value));
  }
}
