/** The Reed-Solomon library as the forward error correction layer uses it: two opaque
    operations and the one law that the layer relies on. */
module Codec {
  import opened Base
  import opened Serial

  /** Shards per group: `data` payload shards followed by `parity` redundant ones. */
  datatype Params = Params(data: nat, parity: nat) {
    predicate Valid() {
      data > 0 && parity > 0 && data + parity <= MAX_SHARDS
    }

    function Size(): nat {
      data + parity
    }
  }

  /** `encode` gives the parity of a group's data shards; `reconstruct` gives the data shards
      back. In `reconstruct` an empty shard stands for a missing one. `None` is an error. */
  datatype Codec = Codec(
    encode: seq<Bytes> -> Option<seq<Bytes>>,
    reconstruct: seq<Bytes> -> Option<seq<Bytes>>)

  predicate AllLen(shards: seq<Bytes>, len: nat) {
    forall k :: 0 <= k < |shards| ==> |shards[k]| == len
  }

  /** Positions that hold a shard. */
  function Present(shards: seq<Bytes>): set<nat> {
    set k: nat | k < |shards| && shards[k] != []
  }

  /** What arrived of a code word: every position is the word's or missing. */
  ghost predicate Drawn(shards: seq<Bytes>, word: seq<Bytes>) {
    |shards| == |word| && forall k :: 0 <= k < |shards| ==> shards[k] == [] || shards[k] == word[k]
  }

  ghost predicate EncodesGroup(c: Codec, par: Params, data: seq<Bytes>, len: nat) {
    |data| == par.data && AllLen(data, len) && len > 0 ==>
      c.encode(data).Some? && |c.encode(data).value| == par.parity && AllLen(c.encode(data).value, len)
  }

  ghost predicate RecoversGroup(c: Codec, par: Params, data: seq<Bytes>, len: nat, shards: seq<Bytes>) {
    |data| == par.data && AllLen(data, len) && len > 0 && c.encode(data).Some?
    && Drawn(shards, data + c.encode(data).value) && |Present(shards)| >= par.data ==>
      c.reconstruct(shards) == Some(data)
  }

  /** `reconstruct` answers with all data shards, and refuses when too few shards are present. */
  ghost predicate AnswersWell(c: Codec, par: Params, shards: seq<Bytes>) {
    && (c.reconstruct(shards).Some? ==> |c.reconstruct(shards).value| == par.data)
    && (|shards| == par.Size() && |Present(shards)| < par.data ==> c.reconstruct(shards) == None)
  }

  /** The law of the library: equal-length, non-empty data shards always encode, and any
      `data` shards of the code word determine the data shards. */
  ghost predicate Erasure(c: Codec, par: Params) {
    && (forall data, len: nat :: EncodesGroup(c, par, data, len))
    && (forall data, len: nat, shards :: RecoversGroup(c, par, data, len, shards))
    && (forall shards :: AnswersWell(c, par, shards))
  }

  /** When encoding succeeds, the parity has the shape of the data. */
  ghost predicate ParityShape(c: Codec, par: Params, data: seq<Bytes>, len: nat) {
    |data| == par.data && AllLen(data, len) && len > 0 && c.encode(data).Some? ==>
      |c.encode(data).value| == par.parity && AllLen(c.encode(data).value, len)
  }

  /** What an encoder needs of a codec that may also fail. */
  ghost predicate Shaped(c: Codec, par: Params) {
    forall data, len: nat :: ParityShape(c, par, data, len)
  }

  lemma {:induction false} ErasureIsShaped(c: Codec, par: Params)
    requires Erasure(c, par)
    ensures Shaped(c, par)
  {
    forall data: seq<Bytes>, len: nat
      ensures ParityShape(c, par, data, len)
    {
      assert EncodesGroup(c, par, data, len);
    }
  }

  /** Builds the codec for given parameters, or fails. */
  type Factory = (nat, nat) -> Option<Codec>

  /** A factory never builds a codec for parameters out of range, and what it builds meets the law. */
  ghost predicate Lawful(make: Factory) {
    forall d: nat, p: nat :: make(d, p).Some? ==> Params(d, p).Valid() && Erasure(make(d, p).value, Params(d, p))
  }
}
