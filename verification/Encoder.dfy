/** The live encoder: numbers packets, collects a group and emits its parity. */
module Encoder {
  import opened Base
  import opened Codec
  import opened Numbering
  import opened PacketNumbers
  import opened Serial
  import opened ShardCache
  import opened Traffic

  class FecEncoder {
    const par: Params
    const codec: Codec
    const paws: U32
    const headerOffset: nat
    const buffer: GroupBuffer
    var next: U32

    /** Payloads of the groups finished so far. */
    ghost var groups: seq<seq<Bytes>>

    ghost predicate Configured()
      reads this
    {
      && par.Valid() && Layout(par.Size(), paws) && Shaped(codec, par)
      && buffer.par == par && buffer.po == headerOffset + HEADER_SIZE && GroupsOk(groups)
    }

    /** The next number is the one after the finished groups and `k` more packets. */
    ghost predicate Counts(k: nat)
      reads this
      requires Configured()
    {
      next == Later(AfterGroups(par, codec, paws, groups), k)
    }

    /** No group has ended with a failure of the codec. */
    ghost predicate Aligned()
      reads this
      requires Configured()
    {
      Failures(codec, groups) == 0
    }

    ghost predicate Valid()
      reads this, buffer, buffer.rows
    {
      Configured() && buffer.Valid() && |buffer.tail| < par.data && Counts(|buffer.tail|)
    }

    constructor (par: Params, codec: Codec, offset: nat)
      requires par.Valid() && Shaped(codec, par)
      ensures Valid() && Aligned() && groups == [] && buffer.tail == [] && headerOffset == offset && next == 0
      ensures this.par == par && this.codec == codec && paws == PawsV1(par.Size())
      ensures fresh(buffer) && fresh(buffer.rows)
    {
      this.par := par;
      this.codec := codec;
      paws := PawsV1(par.Size());
      headerOffset := offset;
      buffer := new GroupBuffer(par, offset + HEADER_SIZE);
      next, groups := 0, [];
      new;
      PawsLayouts(par.Size());
    }

    /** Everything given to the encoder so far. */
    ghost function Stream(): Sender
      reads this, buffer
    {
      Sender(par, codec, paws, groups, buffer.tail)
    }

    /** Number the packet in `b` and collect it. */
    method Collect(b: array<Byte>)
      requires Configured() && buffer.Valid() && |buffer.tail| < par.data
      requires headerOffset + 8 <= b.Length <= MTU_LIMIT
      modifies b, buffer.rows, buffer, this`next
      ensures buffer.Valid() && buffer.tail == old(buffer.tail) + [old(b[headerOffset + 8..])]
      ensures b[..headerOffset] == old(b[..headerOffset])
      ensures Carries(b[..], headerOffset, FecPacket(old(next), TYPE_DATA, DataShard(old(b[headerOffset + 8..]))))
      ensures next == Add(old(next), 1)
    {
      ghost var payload := b[headerOffset + 8..];
      StampData(b, headerOffset, next);
      next := Add(next, 1);
      assert b[..][buffer.po..] == b[buffer.po..];
      buffer.Collect(b[..], 0, payload);
    }

    /** Encode, mark the parity rows, and start over. */
    method EmitGroup() returns (ps: seq<Bytes>)
      requires Configured() && buffer.Valid() && |buffer.tail| == par.data
      modifies buffer.rows, buffer, this`next, this`groups
      ensures Configured() && buffer.Valid() && buffer.tail == [] && groups == old(groups) + [old(buffer.tail)]
      ensures ParityOut(GroupParity(codec, old(buffer.tail)), headerOffset, par, paws, old(next), ps, next)
    {
      ghost var group := buffer.tail;
      var ok;
      ps, next, ok := buffer.Emit(codec, headerOffset, paws, next, |groups|);
      groups := groups + [group];
    }

    /** The payload `p` completes the group. */
    method FinishGroup(ghost s: Sender, ghost p: Bytes, ghost first: U32) returns (ps: seq<Bytes>)
      requires Configured() && buffer.Valid() && |buffer.tail| == par.data && Counts(par.data) && next == first
      requires Stream() == s.(tail := s.tail + [p])
      modifies buffer.rows, buffer, this`next, this`groups
      ensures Valid() && Stream() == s.Next(p)
      ensures Numbered(s, p, headerOffset, first, ps)
    {
      ghost var front, group := groups, buffer.tail;
      ps := EmitGroup();
      GroupNumbers(par, codec, paws, front, group, ps, headerOffset, next);
    }

    /** The payload `p` was collected: the group goes out if it is complete. */
    method Advance(ghost s: Sender, ghost p: Bytes) returns (ps: seq<Bytes>)
      requires Configured() && buffer.Valid() && 0 < |buffer.tail| && Counts(|buffer.tail|)
      requires Stream() == s.(tail := s.tail + [p])
      modifies buffer.rows, buffer, this`next, this`groups
      ensures Valid() && Stream() == s.Next(p) && Followed(s, p, headerOffset, old(next), ps)
    {
      ps := [];
      if buffer.shardCount == par.data {
        ps := FinishGroup(s, p, next);
      }
    }

    /** One payload, in `b` behind its headers: `b` becomes the data packet with the next number, and the
        payload that completes a group also yields the group's parity packets with the numbers that
        follow. The next number is determined by the payloads given so far and the failures of the codec;
        as long as there was none, the packets are those of the stream. */
    method Encode(b: array<Byte>) returns (ps: seq<Bytes>)
      requires Valid() && headerOffset + 8 <= b.Length <= MTU_LIMIT
      modifies b, buffer.rows, buffer, this`next, this`groups
      ensures Valid() && Stream() == old(Stream()).Next(old(b[headerOffset + 8..]))
      ensures b[..headerOffset] == old(b[..headerOffset])
      ensures Encoded(old(Stream()), old(b[headerOffset + 8..]), headerOffset, old(next), b[..], ps)
    {
      ghost var s, p := Stream(), b[headerOffset + 8..];
      Collect(b);
      ps := Advance(s, p);
    }

    /** What `EncodeData` sends for one payload: with a codec that meets its law, the data packet
        of the stream at the position reached, and at the end of a group its parity packets. */
    method EncodeData(payload: Bytes) returns (out: seq<Bytes>)
      requires Valid() && Aligned() && Stream().Valid() && headerOffset == 0 && |payload| + 8 <= MTU_LIMIT
      modifies buffer.rows, buffer, this`next, this`groups
      ensures Valid() && Aligned() && Stream() == old(Stream()).Next(payload) && Stream().Valid()
      ensures Emissions(old(Stream()), Stream(), out)
    {
      ghost var before, first := Stream(), next;
      var b := new Byte[8 + |payload|](_ => 0);
      CopyInto(b, 8, payload);
      assert b[8..] == payload;
      var ps := Encode(b);
      out := [b[..]] + ps;
      EncodedIsSent(before, payload, first, b[..], ps);
    }
  }

  /** A new encoder, or none for shard counts that are not positive or have no codec. */
  method NewEncoder(dataShards: int, parityShards: int, offset: nat, make: Factory) returns (enc: FecEncoder?)
    requires Lawful(make)
    ensures enc == null <==> dataShards <= 0 || parityShards <= 0 || make(dataShards, parityShards).None?
    ensures enc != null ==>
      && fresh(enc) && fresh(enc.buffer) && fresh(enc.buffer.rows) && enc.Valid() && enc.Aligned() && enc.next == 0
      && enc.headerOffset == offset && enc.paws == PawsV1(dataShards + parityShards)
      && enc.Stream().Valid() && enc.Stream().groups == [] && enc.Stream().tail == []
  {
    if dataShards <= 0 || parityShards <= 0 {
      return null;
    }
    var codec := make(dataShards, parityShards);
    if codec.None? {
      return null;
    }
    var par := Params(dataShards, parityShards);
    ErasureIsShaped(codec.value, par);
    enc := new FecEncoder(par, codec.value, offset);
  }

  /** What the end of a group yields: its parity packets, numbered from `first` on, or nothing. */
  ghost predicate ParityOut(parity: Option<seq<Bytes>>, ho: nat, par: Params, paws: U32, first: U32, ps: seq<Bytes>, next: U32)
    requires paws > 0
  {
    if parity.None? then ps == [] && next == first
    else |ps| == |parity.value| == par.parity && Marked(ps, ho, paws, first, parity.value) && next == Reduced(paws, first, par.parity)
  }

  /** The parity packets of the group that `p` completes, numbered from `first` on. */
  ghost predicate Numbered(s: Sender, p: Bytes, ho: nat, first: U32, ps: seq<Bytes>)
    requires s.paws > 0 && SizesOk(s.tail + [p])
  {
    var parity := GroupParity(s.codec, s.tail + [p]);
    if parity.None? then ps == []
    else |ps| == |parity.value| == s.par.parity && Marked(ps, ho, s.paws, first, parity.value)
  }

  ghost predicate Followed(s: Sender, p: Bytes, ho: nat, first: U32, ps: seq<Bytes>)
    requires s.paws > 0 && SizesOk(s.tail + [p])
  {
    if |s.tail| + 1 == s.par.data then Numbered(s, p, ho, first, ps) else ps == []
  }

  /** What the payload `p` yields when the next number is `first`: a data packet with that number, and
      at the end of a group its parity packets with the numbers that follow. */
  ghost predicate Encoded(s: Sender, p: Bytes, ho: nat, first: U32, packet: Bytes, ps: seq<Bytes>)
    requires s.paws > 0 && SizesOk(s.tail + [p]) && |p| + 8 <= MTU_LIMIT
  {
    Carries(packet, ho, FecPacket(first, TYPE_DATA, DataShard(p))) && Followed(s, p, ho, Add(first, 1), ps)
  }

  /** A finished group moves the count on. */
  lemma {:induction false} GroupNumbers(par: Params, codec: Codec, paws: U32, front: seq<seq<Bytes>>, group: seq<Bytes>,
                                        ps: seq<Bytes>, ho: nat, next: U32)
    requires paws > 0 && GroupsOk(front) && SizesOk(group)
    requires ParityOut(GroupParity(codec, group), ho, par, paws, Later(AfterGroups(par, codec, paws, front), par.data), ps, next)
    ensures GroupsOk(front + [group]) && next == Later(AfterGroups(par, codec, paws, front + [group]), 0)
  {
    AfterOneMore(par, codec, paws, front, group);
  }

  /** A codec that meets its law never fails on the groups of a stream. */
  lemma {:induction false} NeverFails(s: Sender)
    requires s.Valid()
    ensures GroupsOk(s.groups) && Failures(s.codec, s.groups) == 0
    decreases |s.groups|
  {
    if s.groups != [] {
      var t := s.(groups := s.groups[..|s.groups| - 1]);
      NeverFails(t);
      s.ParityIsEncoded(|s.groups| - 1);
    }
  }

  lemma {:induction false} StreamNumber(s: Sender)
    requires s.Valid()
    ensures GroupsOk(s.groups)
    ensures Later(AfterGroups(s.par, s.codec, s.paws, s.groups), |s.tail|) == SeqId(s.par.Size(), s.paws, Idx(|s.groups|, |s.tail|))
  {
    NeverFails(s);
    NumbersFollowStream(s.par, s.codec, s.paws, s.groups);
    LaterWithin(StartOf(s.par.Size(), s.paws, |s.groups|), |s.tail|, s.paws);
  }

  /** Packets with the next numbers are the stream's packets when the next number is the stream's. */
  lemma {:induction false} PacketsOfStream(s: Sender, p: Bytes, first: U32, packet: Bytes, ps: seq<Bytes>)
    requires s.Valid() && |p| + 8 <= MTU_LIMIT && first == SeqId(s.par.Size(), s.paws, Idx(|s.groups|, |s.tail|))
    requires Encoded(s, p, 0, first, packet, ps)
    ensures IsDataPacket(s, p, 0, packet) && ParityStep(s, p, 0, ps)
  {
    if |s.tail| + 1 == s.par.data {
      s.NextIsValid(p);
      CodecSucceeds(s, p);
      NextInGroup(s.par.Size(), s.paws, Idx(|s.groups|, |s.tail|));
      ParityNumbers(ps, 0, s.par, s.paws, |s.groups|, Add(first, 1), GroupParity(s.codec, s.tail + [p]).value);
    }
  }

  /** `packet` is the next data packet of the stream `s`, carrying `p`. */
  ghost predicate IsDataPacket(s: Sender, p: Bytes, ho: nat, packet: Bytes)
    requires s.par.Valid() && Layout(s.par.Size(), s.paws) && |s.tail| < s.par.data && |p| + 8 <= MTU_LIMIT
  {
    Carries(packet, ho, FecPacket(SeqId(s.par.Size(), s.paws, Idx(|s.groups|, |s.tail|)), TYPE_DATA, DataShard(p)))
  }

  /** What the payload `p` yields beside its data packet: nothing inside a group; at its end the
      parity packets of the group, numbered as the stream has them. */
  ghost predicate ParityStep(s: Sender, p: Bytes, ho: nat, ps: seq<Bytes>)
    requires s.par.Valid() && Layout(s.par.Size(), s.paws) && SizesOk(s.tail + [p])
  {
    if |s.tail| + 1 < s.par.data then ps == []
    else
      var parity := GroupParity(s.codec, s.tail + [p]);
      parity.Some? && ParityPackets(ps, ho, s.par, s.paws, |s.groups|, parity.value)
  }

  /** `ps` are the packets of the stream `t` at the parity positions of group `g`. */
  ghost predicate ParitySent(t: Sender, g: nat, ps: seq<Bytes>)
    requires t.Valid() && g < |t.groups|
  {
    |ps| == t.par.parity && forall k :: 0 <= k < |ps| ==> ps[k] == Wire(t.Sent(Idx(g, t.par.data + k)))
  }

  /** `out` is what one more payload puts on the wire when it takes the stream from `s` to `t`: its
      data packet, then at the end of a group the parity packets. */
  ghost predicate Emissions(s: Sender, t: Sender, out: seq<Bytes>)
    requires s.Valid() && t.Valid() && t.Emitted(Idx(|s.groups|, |s.tail|))
    requires |s.tail| + 1 == s.par.data ==> |s.groups| < |t.groups|
  {
    && |out| > 0 && out[0] == Wire(t.Sent(Idx(|s.groups|, |s.tail|)))
    && (if |s.tail| + 1 == s.par.data then ParitySent(t, |s.groups|, out[1..]) else |out| == 1)
  }

  lemma {:induction false} DataIsSent(s: Sender, p: Bytes, packet: Bytes)
    requires s.Valid() && |p| + 8 <= MTU_LIMIT && s.Next(p).Valid() && IsDataPacket(s, p, 0, packet)
    ensures packet == Wire(s.Next(p).Sent(Idx(|s.groups|, |s.tail|)))
  {
    assert packet[0..] == packet;
    assert s.Next(p).Payload(Idx(|s.groups|, |s.tail|)) == p;
  }

  lemma {:induction false} ParityIsSent(s: Sender, t: Sender, p: Bytes, ps: seq<Bytes>, k: nat)
    requires s.Valid() && |p| + 8 <= MTU_LIMIT && t == s.Next(p) && t.Valid()
    requires |s.tail| + 1 == s.par.data && ParityStep(s, p, 0, ps) && k < s.par.parity
    ensures |ps| == t.par.parity && ps[k] == Wire(t.Sent(Idx(|s.groups|, t.par.data + k)))
  {
    assert t.groups[|s.groups|] == s.tail + [p];
    t.ParityIsEncoded(|s.groups|);
    assert ps[k][0..] == ps[k];
  }

  lemma {:induction false} CodecSucceeds(s: Sender, p: Bytes)
    requires s.Valid() && |p| + 8 <= MTU_LIMIT && s.Next(p).Valid() && |s.tail| + 1 == s.par.data
    ensures GroupParity(s.codec, s.tail + [p]).Some?
  {
    var t := s.Next(p);
    assert t.groups[|s.groups|] == s.tail + [p];
    t.ParityIsEncoded(|s.groups|);
  }

  lemma {:induction false} ParityFollows(s: Sender, t: Sender, p: Bytes, ps: seq<Bytes>)
    requires s.Valid() && |p| + 8 <= MTU_LIMIT && t == s.Next(p) && t.Valid()
    requires |s.tail| + 1 == s.par.data && ParityStep(s, p, 0, ps)
    ensures |s.groups| < |t.groups| && ParitySent(t, |s.groups|, ps)
  {
    forall k | 0 <= k < |ps|
      ensures ps[k] == Wire(t.Sent(Idx(|s.groups|, t.par.data + k)))
    {
      ParityIsSent(s, t, p, ps, k);
    }
  }

  lemma {:induction false} EmissionsAre(s: Sender, t: Sender, p: Bytes, packet: Bytes, ps: seq<Bytes>)
    requires s.Valid() && |p| + 8 <= MTU_LIMIT && t == s.Next(p) && t.Valid()
    requires IsDataPacket(s, p, 0, packet) && ParityStep(s, p, 0, ps)
    ensures Emissions(s, t, [packet] + ps)
  {
    DataIsSent(s, p, packet);
    if |s.tail| + 1 == s.par.data {
      CodecSucceeds(s, p);
      ParityFollows(s, t, p, ps);
      assert ([packet] + ps)[1..] == ps;
    }
  }

  /** With a codec that meets its law, what is encoded with the next number is what the stream sends. */
  lemma {:induction false} EncodedIsSent(s: Sender, p: Bytes, first: U32, packet: Bytes, ps: seq<Bytes>)
    requires s.Valid() && GroupsOk(s.groups) && |p| + 8 <= MTU_LIMIT
    requires first == Later(AfterGroups(s.par, s.codec, s.paws, s.groups), |s.tail|) && Encoded(s, p, 0, first, packet, ps)
    ensures s.Next(p).Valid() && GroupsOk(s.Next(p).groups) && Failures(s.codec, s.Next(p).groups) == 0
    ensures Emissions(s, s.Next(p), [packet] + ps)
  {
    s.NextIsValid(p);
    NeverFails(s.Next(p));
    StreamNumber(s);
    PacketsOfStream(s, p, first, packet, ps);
    EmissionsAre(s, s.Next(p), p, packet, ps);
  }
}
