/** The encoders' reused packet buffers: fixed-size rows that are shortened and lengthened in
    place, so bytes of earlier groups stay behind in them. */
module ShardCache {
  import opened Base
  import opened Codec
  import opened Numbering
  import opened Serial
  import opened Traffic

  /** A slice: its backing buffer and its current length. */
  datatype Row = Row(buf: Bytes, len: nat)

  ghost predicate RowsOk(rows: seq<Row>) {
    forall k :: 0 <= k < |rows| ==> |rows[k].buf| == MTU_LIMIT && rows[k].len <= MTU_LIMIT
  }

  /** The first rows hold the shards of `payloads`, each behind `po` bytes of header. */
  ghost predicate RowsHold(rows: seq<Row>, po: nat, payloads: seq<Bytes>)
    requires SizesOk(payloads)
  {
    RowsOk(rows) && |payloads| <= |rows| && forall k :: 0 <= k < |payloads| ==>
      && rows[k].len == po + |payloads[k]| + 2 <= MTU_LIMIT
      && rows[k].buf[po..rows[k].len] == DataShard(payloads[k])
  }

  /** A row with everything from its length to `max` cleared. */
  function Cleared(row: Row, max: nat): (r: Row)
    requires row.len <= max <= |row.buf|
    ensures |r.buf| == |row.buf| && r.len == row.len
  {
    row.(buf := row.buf[..row.len] + Zeros(max - row.len) + row.buf[max..])
  }

  /** Clearing the tail leaves the padded shard, whatever was behind it before. */
  lemma ClearedIsPadded(row: Row, po: nat, max: nat, shard: Bytes)
    requires po <= row.len <= max <= |row.buf| && row.buf[po..row.len] == shard
    ensures |shard| <= max - po && Cleared(row, max).buf[po..max] == PadTo(shard, max - po)
    ensures forall j :: row.len <= j < max ==> Cleared(row, max).buf[j] == 0
  {
    var r := Cleared(row, max).buf[po..max];
    forall j | 0 <= j < max - po
      ensures r[j] == PadTo(shard, max - po)[j]
    {
      if j < |shard| {
        assert r[j] == row.buf[po + j] == row.buf[po..row.len][j];
      }
    }
  }

  /** The slices handed to the codec are the group's shards zero-padded to the longest: nothing
      that earlier groups left in the rows gets in. */
  lemma SlicesArePadded(before: seq<Row>, after: seq<Row>, po: nat, max: nat, payloads: seq<Bytes>)
    requires SizesOk(payloads) && payloads != [] && RowsHold(before, po, payloads) && |after| == |before|
    requires max == po + MaxLen(RawShards(payloads)) <= MTU_LIMIT
    requires forall k :: 0 <= k < |payloads| ==> before[k].len <= max && after[k] == Cleared(before[k], max)
    ensures forall k :: 0 <= k < |payloads| ==>
      |after[k].buf| == MTU_LIMIT && after[k].buf[po..max] == Padded(RawShards(payloads))[k]
  {
    forall k | 0 <= k < |payloads|
      ensures |after[k].buf| == MTU_LIMIT && after[k].buf[po..max] == Padded(RawShards(payloads))[k]
    {
      assert RawShards(payloads)[k] == DataShard(payloads[k]);
      ClearedIsPadded(before[k], po, max, DataShard(payloads[k]));
    }
  }

  /** `packet` is `pkt` behind `ho` bytes of other header. */
  ghost predicate Carries(packet: Bytes, ho: nat, pkt: FecPacket) {
    |packet| >= ho && packet[ho..] == Wire(pkt)
  }

  /** The number `k` packets after `x`, each step reduced at the wrap point. */
  function Reduced(paws: U32, x: U32, k: nat): U32
    requires paws > 0
  {
    if k == 0 then x else Add(Reduced(paws, x, k - 1), 1) % paws
  }

  lemma NoOverflow(x: U32, paws: U32)
    requires x < paws
    ensures Add(x, 1) == x + 1
  {}

  /** Starting at position `from` of a group, reduced numbers follow the stream to its end and on
      to the next group. */
  lemma {:induction false} ReducedFollowsStream(n: nat, paws: U32, g: nat, from: nat, k: nat)
    requires Layout(n, paws) && from + k <= n && from < n
    ensures Reduced(paws, SeqId(n, paws, Idx(g, from)), k)
            == SeqId(n, paws, if from + k < n then Idx(g, from + k) else Idx(g + 1, 0))
    decreases k
  {
    if k > 0 {
      ReducedFollowsStream(n, paws, g, from, k - 1);
      NextReduced(n, paws, Idx(g, from + k - 1));
      NoOverflow(SeqId(n, paws, Idx(g, from + k - 1)), paws);
    }
  }

  /** The parity of a whole group of payloads: the codec's answer on the shards zero-padded to the
      longest, and on nothing else. */
  ghost function GroupParity(codec: Codec, payloads: seq<Bytes>): Option<seq<Bytes>>
    requires SizesOk(payloads)
  {
    codec.encode(Padded(RawShards(payloads)))
  }

  /** `ps` are the parity packets of group `g`, numbered as the stream has them. */
  ghost predicate ParityPackets(ps: seq<Bytes>, ho: nat, par: Params, paws: U32, g: nat, parity: seq<Bytes>)
    requires Layout(par.Size(), paws)
  {
    |ps| == |parity| == par.parity && forall k :: 0 <= k < |ps| ==>
      Carries(ps[k], ho, FecPacket(SeqId(par.Size(), paws, Idx(g, par.data + k)), TYPE_FEC, parity[k]))
  }

  /** Longest packet of the group so far, header included; 0 before the first. */
  function MaxSize(po: nat, payloads: seq<Bytes>): nat
    requires SizesOk(payloads)
  {
    if payloads == [] then 0 else po + MaxLen(RawShards(payloads))
  }

  lemma MaxSizeStep(po: nat, payloads: seq<Bytes>, p: Bytes)
    requires SizesOk(payloads) && SizesOk(payloads + [p])
    ensures MaxSize(po, payloads + [p])
            == if po + |p| + 2 > MaxSize(po, payloads) then po + |p| + 2 else MaxSize(po, payloads)
  {
    var raw := RawShards(payloads + [p]);
    assert raw[..|payloads|] == RawShards(payloads);
  }

  /** A data packet in a buffer of `size` bytes behind `ho` bytes of other header. */
  lemma StampedBuffer(before: Bytes, ho: nat, seqid: U32, payload: Bytes, b1: Bytes, b2: Bytes, b3: Bytes)
    requires |before| == ho + 8 + |payload| <= MTU_LIMIT && before[ho + 8..] == payload
    requires b1 == before[..ho] + Le32(seqid) + before[ho + 4..]
    requires b2 == b1[..ho + 4] + Le16(TYPE_DATA) + b1[ho + 6..]
    requires b3 == b2[..ho + 6] + Le16(|payload| + 2) + b2[ho + 8..]
    ensures b3[..ho] == before[..ho] && Carries(b3, ho, FecPacket(seqid, TYPE_DATA, DataShard(payload)))
    ensures b3[ho + 6..] == DataShard(payload)
  {
    assert b3[ho..ho + 4] == Le32(seqid);
    assert b3[ho + 4..ho + 6] == Le16(TYPE_DATA);
    assert b3[ho + 6..ho + 8] == Le16(|payload| + 2);
    assert b3[ho + 8..] == payload;
    assert b3[ho..] == b3[ho..ho + 4] + b3[ho + 4..ho + 6] + b3[ho + 6..ho + 8] + b3[ho + 8..];
  }

  /** Number and mark a data packet in place behind `ho` bytes, and fill in its length. */
  method StampData(b: array<Byte>, ho: nat, seqid: U32)
    requires ho + 8 <= b.Length <= MTU_LIMIT
    modifies b
    ensures b[..ho] == old(b[..ho])
    ensures Carries(b[..], ho, FecPacket(seqid, TYPE_DATA, DataShard(old(b[ho + 8..]))))
    ensures b[ho + HEADER_SIZE..] == DataShard(old(b[ho + 8..]))
  {
    ghost var b0 := b[..];
    CopyInto(b, ho, Le32(seqid));
    ghost var b1 := b[..];
    CopyInto(b, ho + 4, Le16(TYPE_DATA));
    ghost var b2 := b[..];
    CopyInto(b, ho + HEADER_SIZE, Le16(b.Length - ho - HEADER_SIZE));
    StampedBuffer(b0, ho, seqid, b0[ho + 8..], b1, b2, b[..]);
  }

  /** One more row filled: the rows hold one more payload. */
  lemma RowsHoldMore(before: seq<Row>, after: seq<Row>, po: nat, payloads: seq<Bytes>, p: Bytes)
    requires SizesOk(payloads) && SizesOk(payloads + [p]) && RowsHold(before, po, payloads)
    requires |after| == |before| && |payloads| < |after| && RowsOk(after)
    requires forall k :: 0 <= k < |payloads| ==> after[k] == before[k]
    requires after[|payloads|].len == po + |p| + 2 <= MTU_LIMIT
    requires after[|payloads|].buf[po..after[|payloads|].len] == DataShard(p)
    ensures RowsHold(after, po, payloads + [p])
  {}

  /** `ps` are the first parity packets, numbered from `first` on. */
  ghost predicate Marked(ps: seq<Bytes>, ho: nat, paws: U32, first: U32, parity: seq<Bytes>)
    requires paws > 0
  {
    |ps| <= |parity| && forall k :: 0 <= k < |ps| ==>
      Carries(ps[k], ho, FecPacket(Reduced(paws, first, k), TYPE_FEC, parity[k]))
  }

  lemma ParityNumbers(ps: seq<Bytes>, ho: nat, par: Params, paws: U32, g: nat, first: U32, parity: seq<Bytes>)
    requires par.Valid() && Layout(par.Size(), paws) && |ps| == |parity| == par.parity
    requires Marked(ps, ho, paws, first, parity) && first == SeqId(par.Size(), paws, Idx(g, par.data))
    ensures ParityPackets(ps, ho, par, paws, g, parity)
    ensures Reduced(paws, first, par.parity) == SeqId(par.Size(), paws, Idx(g + 1, 0))
  {
    forall k | 0 <= k < par.parity
      ensures Reduced(paws, first, k) == SeqId(par.Size(), paws, Idx(g, par.data + k))
    {
      ReducedFollowsStream(par.Size(), paws, g, par.data, k);
    }
    ReducedFollowsStream(par.Size(), paws, g, par.data, par.parity);
  }

  ghost predicate FitRows(po: nat, parity: seq<Bytes>) {
    forall k :: 0 <= k < |parity| ==> po + |parity[k]| <= MTU_LIMIT
  }

  lemma ClearedRowsHold(before: seq<Row>, after: seq<Row>, po: nat, max: nat, payloads: seq<Bytes>)
    requires SizesOk(payloads) && RowsHold(before, po, payloads) && |after| == |before| && max <= MTU_LIMIT
    requires forall k :: 0 <= k < |payloads| ==> before[k].len <= max && after[k] == Cleared(before[k], max)
    requires forall k :: |payloads| <= k < |before| ==> after[k] == before[k]
    ensures RowsHold(after, po, payloads)
  {
    forall k | 0 <= k < |payloads|
      ensures after[k].buf[po..after[k].len] == DataShard(payloads[k])
    {
      assert after[k].buf[po..after[k].len] == before[k].buf[po..before[k].len];
    }
  }

  lemma LensBelowMax(rows: seq<Row>, po: nat, payloads: seq<Bytes>)
    requires SizesOk(payloads) && payloads != [] && RowsHold(rows, po, payloads)
    ensures MaxLen(RawShards(payloads)) >= 2
    ensures forall k :: 0 <= k < |payloads| ==> rows[k].len <= MaxSize(po, payloads)
  {
    var raw := RawShards(payloads);
    assert 2 <= |raw[0]| <= MaxLen(raw);
    forall k | 0 <= k < |payloads|
      ensures rows[k].len <= MaxSize(po, payloads)
    {
      assert rows[k].len == po + |raw[k]|;
    }
  }

  // ----- Operations on the rows

  /** Shorten or lengthen row `k` to `b` and copy `b` into it from position `from` on. */
  method StoreRow(rows: array<Row>, k: nat, b: Bytes, from: nat)
    requires RowsOk(rows[..]) && k < rows.Length && from <= |b| <= MTU_LIMIT
    modifies rows
    ensures RowsOk(rows[..]) && rows[k].len == |b| && rows[k].buf[from..|b|] == b[from..]
    ensures forall j :: 0 <= j < rows.Length && j != k ==> rows[j] == old(rows[j])
  {
    assert rows[..][k] == rows[k];
    var buf := rows[k].buf;
    rows[k] := Row(buf[..from] + b[from..] + buf[|b|..], |b|);
    assert forall j :: 0 <= j < rows.Length ==> rows[..][j] == rows[j];
  }

  /** Clear the tails of the first `d` rows up to `max`. */
  method ClearTails(rows: array<Row>, d: nat, max: nat)
    requires RowsOk(rows[..]) && d <= rows.Length && max <= MTU_LIMIT
    requires forall k :: 0 <= k < d ==> rows[k].len <= max
    modifies rows
    ensures RowsOk(rows[..])
    ensures forall k :: 0 <= k < d ==> old(rows[k].len) <= max <= |old(rows[k].buf)| && rows[k] == Cleared(old(rows[k]), max)
    ensures forall k :: d <= k < rows.Length ==> rows[k] == old(rows[k])
  {
    assert forall k :: 0 <= k < rows.Length ==> rows[..][k] == rows[k];
    for i := 0 to d
      invariant forall k :: 0 <= k < i ==> rows[k] == Cleared(old(rows[k]), max)
      invariant forall k :: i <= k < rows.Length ==> rows[k] == old(rows[k])
    {
      rows[i] := Cleared(rows[i], max);
    }
    assert forall k :: 0 <= k < rows.Length ==> rows[..][k] == rows[k];
  }

  /** The bytes from `po` to `max` of every row. */
  method Slices(rows: array<Row>, po: nat, max: nat) returns (cache: seq<Bytes>)
    requires RowsOk(rows[..]) && po <= max <= MTU_LIMIT
    ensures |cache| == rows.Length
    ensures forall k :: 0 <= k < rows.Length ==> |rows[k].buf| == MTU_LIMIT && cache[k] == rows[k].buf[po..max]
  {
    assert forall k :: 0 <= k < rows.Length ==> rows[..][k] == rows[k];
    cache := [];
    for k := 0 to rows.Length
      invariant |cache| == k
      invariant forall j :: 0 <= j < k ==> cache[j] == rows[j].buf[po..max]
    {
      cache := cache + [rows[k].buf[po..max]];
    }
  }

  /** Write a packet into row `k` behind `ho` bytes, and cut the row to it. */
  method StampRow(rows: array<Row>, k: nat, ho: nat, pkt: FecPacket) returns (packet: Bytes)
    requires RowsOk(rows[..]) && k < rows.Length && ho + HEADER_SIZE + |pkt.data| <= MTU_LIMIT
    modifies rows
    ensures RowsOk(rows[..]) && Carries(packet, ho, pkt)
    ensures forall j :: 0 <= j < rows.Length && j != k ==> rows[j] == old(rows[j])
  {
    assert rows[..][k] == rows[k];
    var buf, bytes := rows[k].buf, Wire(pkt);
    var max := ho + |bytes|;
    var now := buf[..ho] + bytes + buf[max..];
    rows[k] := Row(now, max);
    packet := now[..max];
    assert packet[ho..] == bytes;
    assert forall j :: 0 <= j < rows.Length ==> rows[..][j] == rows[j];
  }

  /** Number and mark the parity packets in the rows from `d` on, starting with number `first`. */
  method MarkParity(rows: array<Row>, d: nat, ho: nat, paws: U32, first: U32, parity: seq<Bytes>) returns (ps: seq<Bytes>, next: U32)
    requires RowsOk(rows[..]) && paws > 0 && d + |parity| <= rows.Length && FitRows(ho + HEADER_SIZE, parity)
    modifies rows
    ensures RowsOk(rows[..]) && forall j :: 0 <= j < d ==> rows[j] == old(rows[j])
    ensures |ps| == |parity| && next == Reduced(paws, first, |parity|) && Marked(ps, ho, paws, first, parity)
  {
    ps, next := [], first;
    for k := 0 to |parity|
      invariant RowsOk(rows[..]) && |ps| == k && next == Reduced(paws, first, k)
      invariant forall j :: 0 <= j < d ==> rows[j] == old(rows[j])
      invariant Marked(ps, ho, paws, first, parity)
    {
      var packet := StampRow(rows, d + k, ho, FecPacket(next, TYPE_FEC, parity[k]));
      ps := ps + [packet];
      next := Add(next, 1) % paws;
    }
  }

  /** The group being collected: its rows, how many are filled, and the longest packet so far. */
  class GroupBuffer {
    const par: Params
    const po: nat
    const rows: array<Row>
    var shardCount: nat
    var maxSize: nat
    ghost var tail: seq<Bytes>

    ghost predicate Valid()
      reads this, rows
    {
      && par.Valid() && rows.Length == par.Size()
      && shardCount == |tail| <= par.data && SizesOk(tail)
      && RowsHold(rows[..], po, tail)
      && maxSize == MaxSize(po, tail) <= MTU_LIMIT
    }

    constructor (par: Params, po: nat)
      requires par.Valid()
      ensures Valid() && tail == [] && this.par == par && this.po == po && fresh(rows)
    {
      this.par, this.po := par, po;
      rows := new Row[par.Size()](_ => Row(Zeros(MTU_LIMIT), MTU_LIMIT));
      shardCount, maxSize, tail := 0, 0, [];
    }

    /** Keep a copy of the packet `b` from position `from` on, and count it in. */
    method Collect(b: Bytes, from: nat, ghost payload: Bytes)
      requires Valid() && |tail| < par.data && from <= po <= |b| == po + |payload| + 2 <= MTU_LIMIT
      requires |payload| + 8 <= MTU_LIMIT && b[po..] == DataShard(payload)
      modifies rows, this`shardCount, this`maxSize, this`tail
      ensures Valid() && tail == old(tail) + [payload]
    {
      ghost var before := rows[..];
      StoreRow(rows, shardCount, b, from);
      assert rows[shardCount].buf[po..|b|] == rows[shardCount].buf[from..|b|][po - from..] == b[po..];
      RowsHoldMore(before, rows[..], po, tail, payload);
      MaxSizeStep(po, tail, payload);
      shardCount := shardCount + 1;
      if |b| > maxSize {
        maxSize := |b|;
      }
      tail := tail + [payload];
    }

    /** Encode the whole group. */
    method Encode(codec: Codec) returns (parity: Option<seq<Bytes>>)
      requires Valid() && |tail| == par.data && Shaped(codec, par)
      modifies rows
      ensures Valid() && parity == GroupParity(codec, tail) == codec.encode(ShardBytes(tail))
      ensures parity.Some? ==> |parity.value| == par.parity && FitRows(po, parity.value)
    {
      ghost var raw, before := RawShards(tail), rows[..];
      LensBelowMax(before, po, tail);
      ClearTails(rows, par.data, maxSize);
      ClearedRowsHold(before, rows[..], po, maxSize, tail);
      SlicesArePadded(before, rows[..], po, maxSize, tail);
      var slices := Slices(rows, po, maxSize);
      assert slices[..par.data] == Padded(raw);
      parity := codec.encode(slices[..par.data]);
      PaddedIsShardBytes(tail);
      assert ParityShape(codec, par, Padded(raw), MaxLen(raw));
    }

    /** Encode the whole group, number and mark its parity packets from `first` on, and start over.
        If `first` is where the parity of group `g` begins, they are the parity packets of `g`. */
    method Emit(codec: Codec, ho: nat, paws: U32, first: U32, ghost g: nat) returns (ps: seq<Bytes>, next: U32, ok: bool)
      requires Valid() && |tail| == par.data && Shaped(codec, par) && Layout(par.Size(), paws) && po == ho + HEADER_SIZE
      modifies rows, this`shardCount, this`maxSize, this`tail
      ensures Valid() && tail == [] && ok == GroupParity(codec, old(tail)).Some?
      ensures !ok ==> ps == [] && next == first
      ensures ok ==>
        && |ps| == |GroupParity(codec, old(tail)).value| == par.parity && next == Reduced(paws, first, par.parity)
        && Marked(ps, ho, paws, first, GroupParity(codec, old(tail)).value)
      ensures ok && first == SeqId(par.Size(), paws, Idx(g, par.data)) ==>
        && ParityPackets(ps, ho, par, paws, g, GroupParity(codec, old(tail)).value)
        && next == SeqId(par.Size(), paws, Idx(g + 1, 0))
    {
      var parity := Encode(codec);
      ps, next, ok := [], first, parity.Some?;
      if ok {
        ps, next := MarkParity(rows, par.data, ho, paws, first, parity.value);
        if first == SeqId(par.Size(), paws, Idx(g, par.data)) {
          ParityNumbers(ps, ho, par, paws, g, first, parity.value);
        }
      }
      Restart();
    }

    /** Forget the group; the rows keep their bytes. */
    method Restart()
      requires par.Valid() && rows.Length == par.Size() && RowsOk(rows[..])
      modifies this`shardCount, this`maxSize, this`tail
      ensures Valid() && tail == []
    {
      shardCount, maxSize, tail := 0, 0, [];
    }
  }
}
