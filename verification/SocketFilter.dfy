/** The packet filter program that the raw socket is given, run by a small interpreter of classic
    BPF, and the checks a received packet meets afterwards. */
module SocketFilter {
  import opened Base

  datatype Instr =
    | LdByte(k: nat)               // 0x30
    | LdHalf(k: nat)               // 0x28
    | LdHalfInd(k: nat)            // 0x48
    | LdxHeaderLen(k: nat)         // 0xb1
    | Jeq(jt: nat, jf: nat, k: nat)  // 0x15
    | JsetLow(jt: nat, jf: nat, k: nat)  // 0x45 with a mask of low bits, k + 1 a power of two
    | Ret(k: nat)                  // 0x06

  function Half(b: Bytes, at: nat): nat
    requires at + 2 <= |b|
  {
    b[at] as nat * 256 + b[at + 1] as nat
  }

  /** Number of bytes the filter lets through; a load outside the packet rejects it, and so does
      running off the program. */
  function Exec(prog: seq<Instr>, b: Bytes, pc: nat, a: nat, x: nat): nat
    decreases |prog| - pc
  {
    if pc >= |prog| then 0
    else
      match prog[pc]
      case LdByte(k) => if k < |b| then Exec(prog, b, pc + 1, b[k] as nat, x) else 0
      case LdHalf(k) => if k + 2 <= |b| then Exec(prog, b, pc + 1, Half(b, k), x) else 0
      case LdHalfInd(k) => if x + k + 2 <= |b| then Exec(prog, b, pc + 1, Half(b, x + k), x) else 0
      case LdxHeaderLen(k) => if k < |b| then Exec(prog, b, pc + 1, a, 4 * (b[k] as nat % 16)) else 0
      case Jeq(jt, jf, k) => Exec(prog, b, pc + 1 + (if a == k then jt else jf), a, x)
      case JsetLow(jt, jf, k) => Exec(prog, b, pc + 1 + (if a % (k + 1) != 0 then jt else jf), a, x)
      case Ret(k) => k
  }

  const ACCEPT: nat := 0x40000

  function Program(port: nat): seq<Instr> {
    [LdByte(9),
     Jeq(0, 6, 6),
     LdHalf(6),
     JsetLow(4, 0, 0x1fff),
     LdxHeaderLen(0),
     LdHalfInd(2),
     Jeq(0, 1, port),
     Ret(ACCEPT),
     Ret(0)]
  }

  /** The four low bits of the first byte count the words of an IPv4 header. */
  function HeaderLen(b: Bytes): nat
    requires |b| > 0
  {
    4 * (b[0] as nat % 16)
  }

  /** The two bytes at `at` are the port in network order. */
  predicate PortAt(b: Bytes, at: nat, port: nat) {
    at + 2 <= |b| && b[at] as nat == port / 256 && b[at + 1] as nat == port % 256
  }

  /** TCP, with a fragment offset of zero in the low 13 bits of bytes 6 and 7, and with the port as
      destination in the TCP header. */
  predicate Wanted(b: Bytes, port: nat) {
    && |b| > 9 && b[9] as nat == 6
    && b[6] as nat % 32 == 0 && b[7] as nat == 0
    && PortAt(b, 4 * (b[0] as nat % 16) + 2, port)
  }

  lemma HalfIsPort(b: Bytes, at: nat, port: nat)
    requires at + 2 <= |b|
    ensures Half(b, at) == port <==> PortAt(b, at, port)
  {}

  lemma LowThirteen(hi: nat, lo: nat, q: nat, r: nat)
    requires lo < 256 && hi == 32 * q + r && r < 32
    ensures (hi * 256 + lo) % 0x2000 == 256 * r + lo
  {}

  lemma NoOffset(b: Bytes)
    requires |b| > 7
    ensures Half(b, 6) % 0x2000 == 0 <==> b[6] as nat % 32 == 0 && b[7] as nat == 0
  {
    LowThirteen(b[6] as nat, b[7] as nat, b[6] as nat / 32, b[6] as nat % 32);
  }

  lemma PortTest(b: Bytes, port: nat, a: nat)
    requires |b| > 9
    ensures Exec(Program(port), b, 4, a, 0) == if PortAt(b, HeaderLen(b) + 2, port) then ACCEPT else 0
  {
    var p, x := Program(port), HeaderLen(b);
    assert Exec(p, b, 4, a, 0) == Exec(p, b, 5, a, x);
    if x + 4 <= |b| {
      var h := Half(b, x + 2);
      HalfIsPort(b, x + 2, port);
      assert Exec(p, b, 5, a, x) == Exec(p, b, 6, h, x);
      assert Exec(p, b, 7, h, x) == ACCEPT && Exec(p, b, 8, h, x) == 0;
    }
  }

  /** The program lets through exactly the wanted packets, for packets of any length and content. */
  lemma FilterIsExact(b: Bytes, port: nat)
    ensures Exec(Program(port), b, 0, 0, 0) == if Wanted(b, port) then 0x40000 else 0
  {
    var p := Program(port);
    if |b| > 9 {
      var proto, frag := b[9] as nat, Half(b, 6);
      assert Exec(p, b, 0, 0, 0) == Exec(p, b, 1, proto, 0);
      assert Exec(p, b, 8, proto, 0) == 0 && Exec(p, b, 8, frag, 0) == 0;
      assert Exec(p, b, 1, proto, 0) == if proto == 6 then Exec(p, b, 2, proto, 0) else Exec(p, b, 8, proto, 0);
      assert Exec(p, b, 2, proto, 0) == Exec(p, b, 3, frag, 0);
      NoOffset(b);
      PortTest(b, port, frag);
    }
  }

  /** Length of the IPv4 header in front of a packet in a buffer; 0 for anything else. */
  function IPv4HeaderLen(buf: Bytes): (r: nat)
    ensures r <= |buf|
  {
    if |buf| < 20 || buf[0] as nat / 16 != 4 || HeaderLen(buf) < 20 || HeaderLen(buf) > |buf| then 0
    else HeaderLen(buf)
  }

  /** A buffer whose first byte is that of an IPv4 header of `words` words, which all lie in the buffer. */
  predicate StartsIPv4(buf: Bytes, words: nat) {
    5 <= words < 16 && 4 * words <= |buf| && buf[0] as nat == 0x40 + words
  }

  lemma HeaderLenExact(buf: Bytes, words: nat)
    ensures IPv4HeaderLen(buf) == 4 * words > 0 <==> StartsIPv4(buf, words)
  {}

  /** A packet of `n` bytes that the filter let into a larger buffer: if its header is accepted, the
      cut from the header to `n` is within the packet and the port check that follows passes. The
      header test alone would not do: it compares with the buffer, not with `n`. */
  lemma FilteredPacketsPass(buf: Bytes, n: nat, port: nat, words: nat)
    requires n <= |buf| && Exec(Program(port), buf[..n], 0, 0, 0) != 0 && StartsIPv4(buf, words)
    ensures IPv4HeaderLen(buf) == 4 * words && 4 * words + 4 <= n && PortAt(buf[4 * words..n], 2, port)
  {
    FilterIsExact(buf[..n], port);
    HeaderLenExact(buf, words);
    var l := 4 * words;
    assert buf[..n][0] == buf[0] && buf[0] as nat % 16 == words;
    assert buf[l..n][2] == buf[..n][l + 2] && buf[l..n][3] == buf[..n][l + 3];
  }

  /** A packet shorter than its header claims, on which the cut would fail, is never let through. */
  lemma ShortPacketsAreFiltered(buf: Bytes, n: nat, port: nat, words: nat)
    requires n <= |buf| && StartsIPv4(buf, words) && n < 4 * words
    ensures Exec(Program(port), buf[..n], 0, 0, 0) == 0
  {
    FilterIsExact(buf[..n], port);
    if n > 0 {
      assert buf[..n][0] == buf[0] && buf[0] as nat % 16 == words;
    }
  }
}
