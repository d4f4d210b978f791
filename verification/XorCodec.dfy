/** Single-parity exclusive-or code: a codec that meets the law of `Codec.Erasure`. */
module XorCodec {
  import opened Base
  import opened Codec
  import opened Sets

  function Pow2(k: nat): nat {
    if k == 0 then 1 else 2 * Pow2(k - 1)
  }

  /** Exclusive or of two bits. */
  function Flip(a: nat, b: nat): (r: nat)
    ensures r < 2
  {
    if a == b then 0 else 1
  }

  /** Exclusive or of the lowest `k` bits. */
  function XorBits(a: nat, b: nat, k: nat): (r: nat)
    ensures r < Pow2(k)
  {
    if k == 0 then 0 else 2 * XorBits(a / 2, b / 2, k - 1) + Flip(a % 2, b % 2)
  }

  function Xor(a: Byte, b: Byte): Byte {
    XorBits(a, b, 8)
  }

  lemma {:induction false} BitsCommute(a: nat, b: nat, k: nat)
    ensures XorBits(a, b, k) == XorBits(b, a, k)
  {
    if k > 0 {
      BitsCommute(a / 2, b / 2, k - 1);
    }
  }

  lemma {:induction false} BitsOfSelf(a: nat, k: nat)
    ensures XorBits(a, a, k) == 0
  {
    if k > 0 {
      BitsOfSelf(a / 2, k - 1);
    }
  }

  lemma {:induction false} BitsOfZero(a: nat, k: nat)
    requires a < Pow2(k)
    ensures XorBits(a, 0, k) == a
  {
    if k > 0 {
      BitsOfZero(a / 2, k - 1);
    }
  }

  lemma FlipAssociates(a: nat, b: nat, c: nat)
    requires a < 2 && b < 2 && c < 2
    ensures Flip(Flip(a, b), c) == Flip(a, Flip(b, c))
  {}

  lemma BitsOfSum(x: nat, u: nat, r: nat, k: nat, c: nat)
    requires x == 2 * u + r && r < 2 && k > 0
    ensures XorBits(x, c, k) == 2 * XorBits(u, c / 2, k - 1) + Flip(r, c % 2)
    ensures XorBits(c, x, k) == 2 * XorBits(c / 2, u, k - 1) + Flip(c % 2, r)
  {
    assert x / 2 == u && x % 2 == r;
  }

  lemma {:induction false} BitsAssociate(a: nat, b: nat, c: nat, k: nat)
    ensures XorBits(XorBits(a, b, k), c, k) == XorBits(a, XorBits(b, c, k), k)
  {
    if k > 0 {
      var u, v := XorBits(a / 2, b / 2, k - 1), XorBits(b / 2, c / 2, k - 1);
      BitsAssociate(a / 2, b / 2, c / 2, k - 1);
      BitsOfSum(XorBits(a, b, k), u, Flip(a % 2, b % 2), k, c);
      BitsOfSum(XorBits(b, c, k), v, Flip(b % 2, c % 2), k, a);
      FlipAssociates(a % 2, b % 2, c % 2);
    }
  }

  lemma XorCommutes(a: Byte, b: Byte)
    ensures Xor(a, b) == Xor(b, a)
  {
    BitsCommute(a, b, 8);
  }

  lemma XorSelf(a: Byte)
    ensures Xor(a, a) == 0
  {
    BitsOfSelf(a, 8);
  }

  lemma XorZero(a: Byte)
    ensures Xor(a, 0) == a
  {
    BitsOfZero(a, 8);
  }

  lemma XorAssociative(a: Byte, b: Byte, c: Byte)
    ensures Xor(Xor(a, b), c) == Xor(a, Xor(b, c))
  {
    BitsAssociate(a, b, c, 8);
  }

  lemma XorSwapLast(a: Byte, b: Byte, c: Byte)
    ensures Xor(Xor(a, b), c) == Xor(Xor(a, c), b)
  {
    XorAssociative(a, b, c);
    XorCommutes(b, c);
    XorAssociative(a, c, b);
  }

  lemma XorCancels(a: Byte, b: Byte)
    requires Xor(a, b) == 0
    ensures a == b
  {
    XorAssociative(a, b, b);
    XorSelf(b);
    XorZero(b);
    XorZero(a);
    XorCommutes(0, b);
  }

  /** Byte `i` of a shard, 0 for a missing one. */
  function At(s: Bytes, i: nat): Byte {
    if i < |s| then s[i] else 0
  }

  /** Exclusive or of column `i` over the first `k` shards. */
  function Column(shards: seq<Bytes>, i: nat, k: nat): Byte
    requires k <= |shards|
  {
    if k == 0 then 0 else Xor(Column(shards, i, k - 1), At(shards[k - 1], i))
  }

  function XorAll(shards: seq<Bytes>, len: nat): (r: Bytes)
    ensures |r| == len
  {
    seq(len, i requires i >= 0 => Column(shards, i, |shards|))
  }

  /** Removing one shard removes its contribution. */
  lemma ColumnWithout(shards: seq<Bytes>, out: seq<Bytes>, i: nat, k: nat, j: nat)
    requires j < k <= |shards| && out == shards[j := []]
    ensures Column(shards, i, k) == Xor(Column(out, i, k), At(shards[j], i))
    decreases k
  {
    if k - 1 == j {
      assert shards[..j] == out[..j];
      ColumnPrefix(shards, out, i, j);
      XorZero(Column(out, i, j));
    } else {
      assert out[k - 1] == shards[k - 1];
      ColumnWithout(shards, out, i, k - 1, j);
      XorSwapLast(Column(out, i, k - 1), At(shards[j], i), At(shards[k - 1], i));
    }
  }

  lemma {:induction false} ColumnPrefix(s: seq<Bytes>, t: seq<Bytes>, i: nat, k: nat)
    requires k <= |s| && k <= |t| && s[..k] == t[..k]
    ensures Column(s, i, k) == Column(t, i, k)
    decreases k
  {
    if k > 0 {
      assert s[..k - 1] == s[..k][..k - 1] && t[..k - 1] == t[..k][..k - 1];
      assert s[k - 1] == s[..k][k - 1] && t[k - 1] == t[..k][k - 1];
      ColumnPrefix(s, t, i, k - 1);
    }
  }

  function Encode(d: nat, data: seq<Bytes>): Option<seq<Bytes>> {
    if |data| == d && d > 0 && AllLen(data, |data[0]|) && |data[0]| > 0
    then Some([XorAll(data, |data[0]|)]) else None
  }

  /** The one missing data shard, if any, is the exclusive or of all the others. */
  function Reconstruct(d: nat, shards: seq<Bytes>): Option<seq<Bytes>> {
    if |shards| != d + 1 || |Present(shards)| < d || d == 0 then None
    else
      var len := MaxLen(shards);
      Some(seq(d, k requires 0 <= k < d => if shards[k] == [] then XorAll(shards, len) else shards[k]))
  }

  function Make(d: nat): Codec {
    Codec(data => Encode(d, data), shards => Reconstruct(d, shards))
  }

  /** A code word sums to zero in every column. */
  lemma WordSumsToZero(data: seq<Bytes>, len: nat, i: nat)
    requires i < len && AllLen(data, len)
    ensures Column(data + [XorAll(data, len)], i, |data| + 1) == 0
  {
    var word := data + [XorAll(data, len)];
    assert word[..|data|] == data[..|data|];
    ColumnPrefix(word, data, i, |data|);
    XorSelf(Column(data, i, |data|));
  }

  lemma MissingByte(word: seq<Bytes>, out: seq<Bytes>, i: nat, k: nat)
    requires k < |word| && out == word[k := []] && Column(word, i, |word|) == 0
    ensures Column(out, i, |word|) == At(word[k], i)
  {
    ColumnWithout(word, out, i, |word|, k);
    XorCancels(Column(out, i, |word|), At(word[k], i));
  }

  lemma MissingIsXorOfOthers(data: seq<Bytes>, len: nat, k: nat, word: seq<Bytes>, out: seq<Bytes>)
    requires AllLen(data, len) && k < |data| && word == data + [XorAll(data, len)] && out == word[k := []]
    ensures XorAll(out, len) == data[k]
  {
    forall i | 0 <= i < len
      ensures XorAll(out, len)[i] == data[k][i]
    {
      WordSumsToZero(data, len, i);
      MissingByte(word, out, i, k);
    }
  }

  /** With room for one absentee, a missing position is the only one. */
  lemma OnlyOneMissing(shards: seq<Bytes>, k: nat)
    requires k < |shards| && shards[k] == [] && |Present(shards)| >= |shards| - 1
    ensures forall j :: 0 <= j < |shards| && j != k ==> shards[j] != []
  {
    forall j | 0 <= j < |shards| && j != k
      ensures shards[j] != []
    {
      if shards[j] == [] {
        var all := Span(0, |shards|);
        assert Present(shards) <= all - {j, k};
        SubsetSize(Present(shards), all - {j, k});
      }
    }
  }

  lemma Recovers(d: nat, data: seq<Bytes>, len: nat, shards: seq<Bytes>)
    requires d > 0
    ensures RecoversGroup(Make(d), Params(d, 1), data, len, shards)
  {
    var c := Make(d);
    if |data| == d && AllLen(data, len) && len > 0 && c.encode(data).Some?
       && Drawn(shards, data + c.encode(data).value) && |Present(shards)| >= d {
      var word := data + [XorAll(data, len)];
      assert c.encode(data) == Some([XorAll(data, len)]);
      var r := Reconstruct(d, shards).value;
      forall k | 0 <= k < d
        ensures r[k] == data[k]
      {
        if shards[k] == [] {
          OnlyOneMissing(shards, k);
          assert shards == word[k := []];
          assert shards[d] == word[d] && |shards[d]| == len;
          MissingIsXorOfOthers(data, len, k, word, word[k := []]);
        }
      }
      assert r == data;
    }
  }

  /** The hypothesis on codecs is met for every number of data shards and one parity shard. */
  lemma XorIsErasure(d: nat)
    requires d > 0
    ensures Erasure(Make(d), Params(d, 1))
  {
    forall data: seq<Bytes>, len: nat, shards: seq<Bytes>
      ensures RecoversGroup(Make(d), Params(d, 1), data, len, shards)
    {
      Recovers(d, data, len, shards);
    }
  }
}
