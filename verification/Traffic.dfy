/** What a sender puts on the wire: the packet format, and the packet at every send index as a
    function of the payloads alone. */
module Traffic {
  import opened Base
  import opened Codec
  import opened Numbering
  import opened Serial

  const TYPE_DATA: int := 0xf1
  const TYPE_FEC: int := 0xf2
  const HEADER_SIZE: int := 6
  const MTU_LIMIT: int := 2048

  type U16 = x: int | 0 <= x < 0x1_0000

  /** A packet after its six-byte header is taken off. */
  datatype FecPacket = FecPacket(seqid: U32, flag: U16, data: Bytes)

  function Wire(pkt: FecPacket): (r: Bytes)
    ensures |r| == HEADER_SIZE + |pkt.data|
  {
    Le32(pkt.seqid) + (Le16(pkt.flag) + pkt.data)
  }

  function Parse(b: Bytes): FecPacket
    requires |b| >= HEADER_SIZE
  {
    FecPacket(FromLe32(b), FromLe16(b[4..]), b[6..])
  }

  lemma ParseWire(pkt: FecPacket)
    ensures Parse(Wire(pkt)) == pkt
  {
    Le32RoundTrip(pkt.seqid, Le16(pkt.flag) + pkt.data);
    Le16RoundTrip(pkt.flag, pkt.data);
    assert Wire(pkt)[4..] == Le16(pkt.flag) + pkt.data;
    assert Wire(pkt)[6..] == pkt.data;
  }

  lemma WireParse(b: Bytes)
    requires |b| >= HEADER_SIZE
    ensures Wire(Parse(b)) == b
  {
    Le32Inverse(b);
    Le16Inverse(b[4..]);
    assert b == b[..4] + (b[4..][..2] + b[6..]);
  }

  /** The packet on the wire, byte by byte: number and type in little-endian order, then the data. */
  lemma WireBytes(pkt: FecPacket, j: nat)
    requires j < HEADER_SIZE + |pkt.data|
    ensures Wire(pkt)[j] ==
            if j == 0 then pkt.seqid % 256
            else if j == 1 then pkt.seqid / 256 % 256
            else if j == 2 then pkt.seqid / 65536 % 256
            else if j == 3 then pkt.seqid / 16777216
            else if j == 4 then pkt.flag % 256
            else if j == 5 then pkt.flag / 256
            else pkt.data[j - 6]
  {
    var head, rest := Le32(pkt.seqid), Le16(pkt.flag) + pkt.data;
    assert Wire(pkt)[j] == if j < 4 then head[j] else rest[j - 4];
    Le32Bytes(pkt.seqid);
  }

  /** A payload with its own length, itself included, in front. */
  function DataShard(payload: Bytes): (r: Bytes)
    requires |payload| + 2 < 0x1_0000
    ensures |r| == |payload| + 2
  {
    Le16(|payload| + 2) + payload
  }

  /** The shards of a group, each zero-padded to the longest. */
  function Padded(raw: seq<Bytes>): (r: seq<Bytes>)
    ensures |r| == |raw| && AllLen(r, MaxLen(raw))
    ensures forall k :: 0 <= k < |raw| ==> r[k] == PadTo(raw[k], MaxLen(raw))
  {
    seq(|raw|, k requires 0 <= k < |raw| => PadTo(raw[k], MaxLen(raw)))
  }

  /** A padded shard gives its payload after the length in front is read back. */
  lemma PaddedShardHoldsPayload(p: Bytes, len: nat)
    requires |p| + 2 < 0x1_0000 && |p| + 2 <= len
    ensures var r := PadTo(DataShard(p), len);
            FromLe16(r) == |p| + 2 && r[2..FromLe16(r)] == p
  {
    var r := PadTo(DataShard(p), len);
    Le16RoundTrip(|p| + 2, p + Zeros(len - |p| - 2));
    assert r == Le16(|p| + 2) + (p + Zeros(len - |p| - 2));
    assert r[2..|p| + 2] == p;
  }

  /** Payloads that fit a packet buffer with their eight-byte header. */
  predicate SizesOk(payloads: seq<Bytes>) {
    forall j :: 0 <= j < |payloads| ==> |payloads[j]| + 8 <= MTU_LIMIT
  }

  function RawShards(payloads: seq<Bytes>): (r: seq<Bytes>)
    requires SizesOk(payloads)
    ensures |r| == |payloads|
    ensures forall k :: 0 <= k < |r| ==> r[k] == DataShard(payloads[k])
    ensures forall k :: 0 <= k < |r| ==> 2 <= |r[k]| <= MTU_LIMIT - HEADER_SIZE
  {
    seq(|payloads|, k requires 0 <= k < |payloads| => DataShard(payloads[k]))
  }

  /** Byte `j` of the shard of a payload: the length in little-endian order, the payload, and zeros. */
  function ShardByte(p: Bytes, j: nat): Byte
    requires |p| + 2 < 0x1_0000
  {
    if j == 0 then (|p| + 2) % 256
    else if j == 1 then (|p| + 2) / 256
    else if j < |p| + 2 then p[j - 2]
    else 0
  }

  /** The shards of a group of payloads, byte by byte. */
  function ShardBytes(payloads: seq<Bytes>): seq<Bytes>
    requires SizesOk(payloads)
  {
    seq(|payloads|, k requires 0 <= k < |payloads| =>
      seq(MaxLen(payloads) + 2, j requires 0 <= j < MaxLen(payloads) + 2 => ShardByte(payloads[k], j)))
  }

  lemma LongestShard(payloads: seq<Bytes>)
    requires SizesOk(payloads) && payloads != []
    ensures MaxLen(RawShards(payloads)) == MaxLen(payloads) + 2
  {
    var raw := RawShards(payloads);
    var i :| 0 <= i < |raw| && |raw[i]| == MaxLen(raw);
    var j :| 0 <= j < |payloads| && |payloads[j]| == MaxLen(payloads);
    assert |raw[j]| <= MaxLen(raw) && |payloads[i]| <= MaxLen(payloads);
  }

  lemma PaddedByte(p: Bytes, len: nat, j: nat)
    requires |p| + 2 < 0x1_0000 && |p| + 2 <= len && j < len
    ensures PadTo(DataShard(p), len)[j] == ShardByte(p, j)
  {}

  /** What the codec is given holds the payloads, their lengths in front, and nothing but zeros up to
      the end of the longest. */
  lemma PaddedIsShardBytes(payloads: seq<Bytes>)
    requires SizesOk(payloads)
    ensures Padded(RawShards(payloads)) == ShardBytes(payloads)
  {
    if payloads != [] {
      LongestShard(payloads);
      forall k | 0 <= k < |payloads|
        ensures Padded(RawShards(payloads))[k] == ShardBytes(payloads)[k]
      {
        forall j | 0 <= j < MaxLen(payloads) + 2
          ensures Padded(RawShards(payloads))[k][j] == ShardBytes(payloads)[k][j]
        {
          PaddedByte(payloads[k], MaxLen(payloads) + 2, j);
        }
      }
    }
  }

  /** Everything one encoder is given: its parameters, the payloads of the groups that are
      complete, and the payloads of the group still being collected. */
  datatype Sender = Sender(par: Params, codec: Codec, paws: U32, groups: seq<seq<Bytes>>, tail: seq<Bytes>) {

    ghost predicate Valid() {
      && par.Valid()
      && Layout(par.Size(), paws)
      && Erasure(codec, par)
      && (forall g :: 0 <= g < |groups| ==> |groups[g]| == par.data && SizesOk(groups[g]))
      && |tail| < par.data && SizesOk(tail)
    }

    /** The packet at this index has been sent. */
    predicate Emitted(i: Idx) {
      if i.g < |groups| then i.k < par.Size() else i.g == |groups| && i.k < |tail|
    }

    predicate IsData(i: Idx) {
      i.k < par.data
    }

    /** Length that every shard of group `g` is padded to. */
    ghost function ShardLen(g: nat): (r: nat)
      requires Valid() && g < |groups|
      ensures 2 <= r <= MTU_LIMIT - HEADER_SIZE
    {
      var raw := RawShards(groups[g]);
      assert |raw[0]| <= MaxLen(raw);
      MaxLen(raw)
    }

    ghost function DataShards(g: nat): (r: seq<Bytes>)
      requires Valid() && g < |groups|
      ensures |r| == par.data && AllLen(r, ShardLen(g))
    {
      Padded(RawShards(groups[g]))
    }

    ghost function ParityShards(g: nat): (r: seq<Bytes>)
      requires Valid() && g < |groups|
      ensures codec.encode(DataShards(g)) == Some(r)
      ensures |r| == par.parity && AllLen(r, ShardLen(g))
    {
      assert EncodesGroup(codec, par, DataShards(g), ShardLen(g));
      codec.encode(DataShards(g)).value
    }

    lemma {:induction false} ParityIsEncoded(g: nat)
      requires Valid() && g < |groups|
      ensures codec.encode(Padded(RawShards(groups[g]))) == Some(ParityShards(g))
    {}

    /** The code word of group `g`. */
    ghost function Word(g: nat): (r: seq<Bytes>)
      requires Valid() && g < |groups|
      ensures |r| == par.Size() && AllLen(r, ShardLen(g))
    {
      DataShards(g) + ParityShards(g)
    }

    ghost function Payload(i: Idx): Bytes
      requires Valid() && Emitted(i) && IsData(i)
    {
      if i.g < |groups| then groups[i.g][i.k] else tail[i.k]
    }

    /** The packet at send index `i`. */
    ghost function Sent(i: Idx): (r: FecPacket)
      requires Valid() && Emitted(i)
      ensures r.seqid == SeqId(par.Size(), paws, i)
      ensures r.flag == if IsData(i) then TYPE_DATA else TYPE_FEC
    {
      if IsData(i) then
        FecPacket(SeqId(par.Size(), paws, i), TYPE_DATA, DataShard(Payload(i)))
      else
        FecPacket(SeqId(par.Size(), paws, i), TYPE_FEC, ParityShards(i.g)[i.k - par.data])
    }

    /** A data packet on the wire: its type in bytes 4 and 5, then the length of the payload with itself, then
        the payload. A parity packet differs in byte 4. */
    lemma {:induction false} SentBytes(i: Idx)
      requires Valid() && Emitted(i)
      ensures var w := Wire(Sent(i));
              && w[4] == (if i.k < par.data then 0xf1 else 0xf2) && w[5] == 0
              && (i.k < par.data ==>
                    && |w| == 8 + |Payload(i)| && w[6] == (|Payload(i)| + 2) % 256 && w[7] == (|Payload(i)| + 2) / 256
                    && w[8..] == Payload(i))
    {
      var w := Wire(Sent(i));
      WireBytes(Sent(i), 4);
      WireBytes(Sent(i), 5);
      if i.k < par.data {
        assert w[6..] == DataShard(Payload(i));
        assert w[8..] == w[6..][2..];
      }
    }

    /** Padding a packet's data to the group's length gives its position in the code word;
        a parity packet has that length already. */
    lemma {:induction false} SentInWord(i: Idx)
      requires Valid() && Emitted(i) && i.g < |groups|
      ensures 0 < |Sent(i).data| <= ShardLen(i.g)
      ensures PadTo(Sent(i).data, ShardLen(i.g)) == Word(i.g)[i.k]
      ensures !IsData(i) ==> |Sent(i).data| == ShardLen(i.g)
    {
      if IsData(i) {
        assert RawShards(groups[i.g])[i.k] == Sent(i).data;
        assert Word(i.g)[i.k] == DataShards(i.g)[i.k];
      } else {
        assert Word(i.g)[i.k] == ParityShards(i.g)[i.k - par.data];
      }
    }

    /** A data shard of the code word gives its payload back. */
    lemma {:induction false} WordHoldsPayload(i: Idx)
      requires Valid() && i.g < |groups| && i.k < par.data
      ensures var r := Word(i.g)[i.k];
              |r| >= 2 && FromLe16(r) == |groups[i.g][i.k]| + 2 <= |r| && r[2..FromLe16(r)] == groups[i.g][i.k]
    {
      SentInWord(i);
      PaddedShardHoldsPayload(groups[i.g][i.k], ShardLen(i.g));
    }

    /** The encoder's bookkeeping after one more payload. */
    function Next(p: Bytes): Sender {
      if |tail| + 1 == par.data then this.(groups := groups + [tail + [p]], tail := [])
      else this.(tail := tail + [p])
    }

    lemma {:induction false} NextIsValid(p: Bytes)
      requires Valid() && |p| + 8 <= MTU_LIMIT
      ensures Next(p).Valid()
    {}

    /** Later payloads do not change packets already sent. */
    lemma {:induction false} SentIsStable(p: Bytes, i: Idx)
      requires Valid() && |p| + 8 <= MTU_LIMIT && Emitted(i)
      ensures Next(p).Valid() && Next(p).Emitted(i) && Next(p).Sent(i) == Sent(i)
    {
      var t := Next(p);
      assert i.g < |groups| ==> t.groups[i.g] == groups[i.g];
    }
  }
}
