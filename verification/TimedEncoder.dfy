/** The second encoder: like the live one, but it withholds the parity of a group whose packets
    did not follow each other closely, and steps over the numbers of parity it does not send. */
module TimedEncoder {
  import opened Base
  import opened Codec
  import opened Encoder
  import opened Numbering
  import opened Serial
  import opened ShardCache
  import opened Traffic

  /** Largest packet of this version. */
  const SMALL_MTU: int := 1500

  class TimedFecEncoder {
    const par: Params
    const codec: Codec
    const paws: U32
    const headerOffset: nat
    const buffer: GroupBuffer
    var next: U32

    /** Payloads of the groups finished so far. */
    ghost var groups: seq<seq<Bytes>>

    ghost predicate Configured()
      reads this
    {
      && par.Valid() && Layout(par.Size(), paws) && Shaped(codec, par)
      && buffer.par == par && buffer.po == headerOffset + HEADER_SIZE
    }

    ghost predicate At(k: nat)
      reads this
      requires Configured() && k < par.Size()
    {
      next == SeqId(par.Size(), paws, Idx(|groups|, k))
    }

    /** In every state the next number is that of the position reached: below the wrap point and
        congruent to the number of packets collected. */
    ghost predicate Valid()
      reads this, buffer, buffer.rows
    {
      Configured() && buffer.Valid() && |buffer.tail| < par.data && At(|buffer.tail|)
    }

    ghost function Stream(): Sender
      reads this, buffer
    {
      Sender(par, codec, paws, groups, buffer.tail)
    }

    constructor (par: Params, codec: Codec, offset: nat)
      requires par.Valid() && Shaped(codec, par)
      ensures Valid() && groups == [] && buffer.tail == [] && headerOffset == offset && next == 0
      ensures this.par == par && this.codec == codec && paws == PawsV2(par.Size())
      ensures fresh(buffer) && fresh(buffer.rows)
    {
      this.par := par;
      this.codec := codec;
      paws := PawsV2(par.Size());
      headerOffset := offset;
      buffer := new GroupBuffer(par, offset + HEADER_SIZE);
      next, groups := 0, [];
      new;
      PawsLayouts(par.Size());
    }

    /** Number the packet in `b` and collect its payload part. */
    method Collect(b: array<Byte>)
      requires Valid() && headerOffset + 8 <= b.Length <= SMALL_MTU
      modifies b, buffer.rows, buffer, this`next
      ensures buffer.Valid() && buffer.tail == old(buffer.tail) + [old(b[headerOffset + 8..])]
      ensures b[..headerOffset] == old(b[..headerOffset])
      ensures IsDataPacket(old(Stream()), old(b[headerOffset + 8..]), headerOffset, b[..])
      ensures At(|buffer.tail|)
    {
      ghost var payload := b[headerOffset + 8..];
      NextInGroupReduced(par.Size(), paws, Idx(|groups|, |buffer.tail|));
      StampData(b, headerOffset, next);
      next := Add(next, 1) % paws;
      assert b[..][buffer.po..] == b[buffer.po..];
      buffer.Collect(b[..], buffer.po, payload);
    }

    /** Encode the full group if its parity is wanted, and start over; else, or when the codec fails,
        step over the parity numbers. Either way the next number is that of group `g + 1`. */
    method EmitOrSkip(continuous: bool, ghost g: nat) returns (ps: seq<Bytes>)
      requires Configured() && buffer.Valid() && |buffer.tail| == par.data
      requires next == SeqId(par.Size(), paws, Idx(g, par.data))
      requires Add(next, par.parity) % paws == SeqId(par.Size(), paws, Idx(g + 1, 0))
      modifies buffer.rows, buffer, this`next
      ensures buffer.Valid() && buffer.tail == [] && next == SeqId(par.Size(), paws, Idx(g + 1, 0))
      ensures var parity := GroupParity(codec, old(buffer.tail));
              if continuous && parity.Some? then ParityPackets(ps, headerOffset, par, paws, g, parity.value)
              else ps == []
    {
      ps := [];
      var ok := false;
      if continuous {
        ps, next, ok := buffer.Emit(codec, headerOffset, paws, next, g);
      } else {
        buffer.Restart();
      }
      if !ok {
        next := Add(next, par.parity) % paws;
      }
    }

    /** The group is full: it ends, with its parity or without. */
    method FinishGroup(continuous: bool) returns (ps: seq<Bytes>)
      requires Configured() && buffer.Valid() && |buffer.tail| == par.data && At(par.data)
      modifies buffer.rows, buffer, this`next, this`groups
      ensures Valid() && buffer.tail == [] && groups == old(groups) + [old(buffer.tail)]
      ensures var parity := GroupParity(codec, old(buffer.tail));
              if continuous && parity.Some? then ParityPackets(ps, headerOffset, par, paws, |old(groups)|, parity.value)
              else ps == []
    {
      ghost var group := buffer.tail;
      SkipToNextGroup(par.Size(), paws, Idx(|groups|, par.data));
      ps := EmitOrSkip(continuous, |groups|);
      groups := groups + [group];
    }

    /** One payload. Whether parity is sent, the codec fails or the packets came too far apart, the
        numbers stay in step with the stream. */
    method Encode(b: array<Byte>, continuous: bool) returns (ps: seq<Bytes>)
      requires Valid() && headerOffset + 8 <= b.Length <= SMALL_MTU
      modifies b, buffer.rows, buffer, this`next, this`groups
      ensures Valid() && Stream() == old(Stream()).Next(old(b[headerOffset + 8..]))
      ensures b[..headerOffset] == old(b[..headerOffset])
      ensures IsDataPacket(old(Stream()), old(b[headerOffset + 8..]), headerOffset, b[..])
      ensures TimedParity(old(Stream()), old(b[headerOffset + 8..]), headerOffset, continuous, ps)
    {
      ghost var s, p := Stream(), b[headerOffset + 8..];
      Collect(b);
      ps := [];
      if buffer.shardCount == par.data {
        ps := FinishGroup(continuous);
        assert groups == s.groups + [s.tail + [p]];
      }
    }
  }

  /** A new encoder, or none for shard counts that are not positive or have no codec. */
  method NewTimedEncoder(dataShards: int, parityShards: int, offset: nat, make: Factory) returns (enc: TimedFecEncoder?)
    requires Lawful(make)
    ensures enc == null <==> dataShards <= 0 || parityShards <= 0 || make(dataShards, parityShards).None?
    ensures enc != null ==>
      && fresh(enc) && fresh(enc.buffer) && fresh(enc.buffer.rows) && enc.Valid() && enc.next == 0
      && enc.headerOffset == offset && enc.paws == PawsV2(dataShards + parityShards)
      && enc.Stream().Valid() && enc.Stream().groups == [] && enc.Stream().tail == []
  {
    if dataShards <= 0 || parityShards <= 0 {
      return null;
    }
    var codec := make(dataShards, parityShards);
    if codec.None? {
      return null;
    }
    var par := Params(dataShards, parityShards);
    ErasureIsShaped(codec.value, par);
    enc := new TimedFecEncoder(par, codec.value, offset);
  }

  /** What the payload `p` yields beside its data packet: the parity of the group it completes, if
      the group is continuous and the codec succeeds. */
  ghost predicate TimedParity(s: Sender, p: Bytes, ho: nat, continuous: bool, ps: seq<Bytes>)
    requires s.par.Valid() && Layout(s.par.Size(), s.paws) && SizesOk(s.tail + [p])
  {
    if |s.tail| + 1 == s.par.data && continuous && GroupParity(s.codec, s.tail + [p]).Some?
    then ParityPackets(ps, ho, s.par, s.paws, |s.groups|, GroupParity(s.codec, s.tail + [p]).value)
    else ps == []
  }
}
