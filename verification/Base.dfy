/** Bytes, optional values and zero padding, shared by every component. */
module Base {

  type Byte = b: int | 0 <= b < 256
  type Bytes = seq<Byte>

  datatype Option<+T> = None | Some(value: T)

  function Zeros(k: nat): Bytes {
    seq(k, _ => 0)
  }

  /** `b` followed by zero bytes up to length `len`. */
  function PadTo(b: Bytes, len: nat): (r: Bytes)
    requires |b| <= len
    ensures |r| == len && r[..|b|] == b
  {
    b + Zeros(len - |b|)
  }

  /** Length of the longest element, 0 for none. */
  function MaxLen(s: seq<Bytes>): (r: nat)
    ensures forall k :: 0 <= k < |s| ==> |s[k]| <= r
    ensures s == [] || exists k :: 0 <= k < |s| && |s[k]| == r
  {
    if s == [] then 0
    else
      var front := s[..|s| - 1];
      var last, rest := |s[|s| - 1]|, MaxLen(front);
      assert front == [] || (exists k :: 0 <= k < |front| && |front[k]| == rest && front[k] == s[k]);
      if last > rest then last else rest
  }

  /** Little-endian byte order, as `binary.LittleEndian` writes and reads it. */
  function Le16(x: int): (r: Bytes)
    requires 0 <= x < 0x1_0000
    ensures |r| == 2
  {
    [x % 256, x / 256]
  }

  function Le32(x: int): (r: Bytes)
    requires 0 <= x < 0x1_0000_0000
    ensures |r| == 4
  {
    Le16(x % 0x1_0000) + Le16(x / 0x1_0000)
  }

  function FromLe16(b: Bytes): (x: int)
    requires |b| >= 2
    ensures 0 <= x < 0x1_0000
  {
    b[0] as int + 256 * (b[1] as int)
  }

  function FromLe32(b: Bytes): (x: int)
    requires |b| >= 4
    ensures 0 <= x < 0x1_0000_0000
  {
    FromLe16(b) + 0x1_0000 * FromLe16(b[2..])
  }

  /** The lowest byte first. */
  lemma Le32Bytes(x: int)
    requires 0 <= x < 0x1_0000_0000
    ensures Le32(x)[0] == x % 256 && Le32(x)[1] == x / 256 % 256
    ensures Le32(x)[2] == x / 65536 % 256 && Le32(x)[3] == x / 16777216
  {
    var lo, hi := x % 65536, x / 65536;
    LowBytes(x, hi, lo);
    assert Le32(x)[0] == Le16(lo)[0] && Le32(x)[1] == Le16(lo)[1];
    assert Le32(x)[2] == Le16(hi)[0] && Le32(x)[3] == Le16(hi)[1];
  }

  lemma LowBytes(x: int, hi: int, lo: int)
    requires x == 65536 * hi + lo && 0 <= lo < 65536
    ensures lo % 256 == x % 256 && lo / 256 == x / 256 % 256 && hi / 256 == x / 16777216
  {}

  lemma Le16RoundTrip(x: int, rest: Bytes)
    requires 0 <= x < 0x1_0000
    ensures FromLe16(Le16(x) + rest) == x
  {}

  lemma Le16Inverse(b: Bytes)
    requires |b| >= 2
    ensures Le16(FromLe16(b)) == b[..2]
  {}

  lemma Le32RoundTrip(x: int, rest: Bytes)
    requires 0 <= x < 0x1_0000_0000
    ensures FromLe32(Le32(x) + rest) == x
  {
    var lo, hi := x % 0x1_0000, x / 0x1_0000;
    assert Le32(x) + rest == Le16(lo) + (Le16(hi) + rest);
    assert (Le32(x) + rest)[2..] == Le16(hi) + rest;
    Le16RoundTrip(lo, Le16(hi) + rest);
    Le16RoundTrip(hi, rest);
  }

  lemma SplitWord(lo: int, hi: int)
    requires 0 <= lo < 0x1_0000
    ensures (lo + 0x1_0000 * hi) % 0x1_0000 == lo && (lo + 0x1_0000 * hi) / 0x1_0000 == hi
  {}

  lemma Le32Inverse(b: Bytes)
    requires |b| >= 4
    ensures Le32(FromLe32(b)) == b[..4]
  {
    Le16Inverse(b);
    Le16Inverse(b[2..]);
    SplitWord(FromLe16(b), FromLe16(b[2..]));
    assert b[..4] == b[..2] + b[2..][..2];
  }

  /** `copy` into a buffer. */
  method CopyInto(a: array<Byte>, at: nat, src: Bytes)
    requires at + |src| <= a.Length
    modifies a
    ensures a[..] == old(a[..at]) + src + old(a[at + |src|..])
  {
    for i := 0 to |src|
      invariant a[..at] == old(a[..at]) && a[at..at + i] == src[..i] && a[at + i..] == old(a[at + i..])
    {
      a[at + i] := src[i];
    }
  }
}
