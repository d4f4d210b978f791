/** Sequence and acknowledgement numbers of one simulated TCP connection. */
module TcpFlow {
  import opened Serial

  /** The parts of a segment that move the numbers; `len` is the payload length. */
  datatype Segment = Segment(num: U32, ack: U32, len: nat, hasAck: bool, syn: bool, psh: bool)

  /** One end: the number of its next byte and the next number it expects. */
  datatype End = End(num: U32, ack: U32)

  /** A data segment as written by `e`. */
  function Outgoing(e: End, len: nat): Segment {
    Segment(e.num, e.ack, len, true, false, true)
  }

  function AfterSend(e: End, len: nat): End {
    e.(num := Add(e.num, len))
  }

  function AfterReceive(e: End, s: Segment): End {
    var num := if s.hasAck then s.ack else e.num;
    var ack := if s.syn then Add(s.num, 1) else e.ack;
    End(num, if s.psh && ack == s.num then Add(s.num, s.len) else ack)
  }

  class Flow {
    var num: U32
    var ack: U32

    ghost function View(): End
      reads this
    {
      End(num, ack)
    }

    method Receive(s: Segment)
      modifies this
      ensures View() == AfterReceive(old(View()), s)
    {
      if s.hasAck {
        num := s.ack;
      }
      if s.syn {
        ack := Add(s.num, 1);
      }
      if s.psh {
        if ack == s.num {
          ack := Add(s.num, s.len);
        }
      }
    }

    /** Write a payload of `len` bytes; a failed write leaves the flow as it was. */
    method Send(len: nat, written: bool) returns (s: Segment)
      modifies this
      ensures s == Outgoing(old(View()), len)
      ensures View() == if written then AfterSend(old(View()), len) else old(View())
    {
      s := Segment(num, ack, len, true, false, true);
      if written {
        num := Add(num, len);
      }
    }
  }

  /** Each end expects what the other will send. */
  predicate Synced(a: End, b: End) {
    a.num == b.ack && b.num == a.ack
  }

  /** Only an acknowledgement moves the number of an end, and only a SYN or the data it expects moves what it
      expects; data that comes with a SYN does not count. */
  lemma MovesExactly(e: End, s: Segment)
    ensures var r := AfterReceive(e, s);
            && r.num == (if s.hasAck then s.ack else e.num)
            && (r.ack != e.ack ==> s.syn || (s.psh && s.num == e.ack))
            && (s.syn ==> r.ack == (s.num + 1) % 0x1_0000_0000)
            && (!s.syn && s.psh && s.num == e.ack ==> r.ack == (s.num + s.len) % 0x1_0000_0000)
  {}

  /** The three segments of a handshake leave the ends synchronised, whatever they held before. */
  lemma HandshakeSyncs(a: End, b: End, x: U32, y: U32)
    ensures var syn := Segment(x, 0, 0, false, true, false);
            var b1 := AfterReceive(b, syn);
            var synAck := Segment(y, b1.ack, 0, true, true, false);
            var a1 := AfterReceive(a, synAck);
            var b2 := AfterReceive(b1, Segment(a1.num, a1.ack, 0, true, false, false));
            Synced(a1, b2) && a1 == End(Add(x, 1), Add(y, 1))
  {}

  /** A segment that arrives at once keeps synchronised ends synchronised. */
  lemma DeliveryKeepsSync(a: End, b: End, len: nat)
    requires Synced(a, b)
    ensures Synced(AfterSend(a, len), AfterReceive(b, Outgoing(a, len)))
  {}

  /** From any numbers whatever on either side, one segment in each direction, each arriving
      before the next is written, brings both directions back in step. */
  lemma ExchangeResyncs(a: End, b: End, fromB: nat, fromA: nat)
    ensures var a1 := AfterReceive(a, Outgoing(b, fromB));
            var b1 := AfterSend(b, fromB);
            Synced(AfterSend(a1, fromA), AfterReceive(b1, Outgoing(a1, fromA)))
  {}

  /** One segment alone is not enough: it brings the direction of its receiver's data back in step,
      and the direction of its own data exactly if the receiver expected it. */
  lemma OneWayResyncs(a: End, b: End, fromB: nat)
    ensures var a1 := AfterReceive(a, Outgoing(b, fromB));
            var b1 := AfterSend(b, fromB);
            a1.num == b1.ack && (Synced(a1, b1) <==> (a.ack == b.num || a.ack == b1.num))
  {}

  // ----- Loss within a burst

  function Total(lens: seq<nat>): nat {
    if lens == [] then 0 else lens[0] + Total(lens[1..])
  }

  /** A burst of segments from `a` of which those marked `arrives` reach `b`, in order. */
  function Burst(a: End, b: End, lens: seq<nat>, arrives: seq<bool>): (End, End)
    requires |arrives| == |lens|
    decreases |lens|
  {
    if lens == [] then (a, b)
    else
      Burst(AfterSend(a, lens[0]), if arrives[0] then AfterReceive(b, Outgoing(a, lens[0])) else b, lens[1..], arrives[1..])
  }

  /** How many segments arrive before the first that is lost. */
  function Leading(arrives: seq<bool>): (r: nat)
    ensures r <= |arrives|
  {
    if arrives == [] || !arrives[0] then 0 else 1 + Leading(arrives[1..])
  }

  lemma {:induction false} BurstEnds(a: End, b: End, lens: seq<nat>, arrives: seq<bool>)
    requires |arrives| == |lens|
    ensures Burst(a, b, lens, arrives).0 == a.(num := Add(a.num, Total(lens)))
    decreases |lens|
  {
    if lens != [] {
      BurstEnds(AfterSend(a, lens[0]), if arrives[0] then AfterReceive(b, Outgoing(a, lens[0])) else b, lens[1..], arrives[1..]);
      AddAdds(a.num, lens[0], Total(lens[1..]));
    }
  }

  /** Behind a gap nothing is acknowledged. */
  lemma {:induction false} GapStops(a: End, b: End, lens: seq<nat>, arrives: seq<bool>, gap: nat)
    requires |arrives| == |lens| && 0 < gap && gap + Total(lens) < TWO_32 && a.num == Add(b.ack, gap)
    ensures Burst(a, b, lens, arrives).1.ack == b.ack
    decreases |lens|
  {
    if lens != [] {
      AddAdds(b.ack, gap, lens[0]);
      var b1 := if arrives[0] then AfterReceive(b, Outgoing(a, lens[0])) else b;
      assert b1.ack == b.ack;
      GapStops(AfterSend(a, lens[0]), b1, lens[1..], arrives[1..], gap + lens[0]);
    }
  }

  /** From ends in step, a burst of non-empty segments with any losses leaves the receiver expecting
      exactly the end of the segments before the first loss; the next segment it writes takes the
      sender back to that point. */
  lemma LossTakesSenderBack(a: End, b: End, lens: seq<nat>, arrives: seq<bool>, reply: nat)
    requires |arrives| == |lens| && a.num == b.ack && Total(lens) < TWO_32
    requires forall i :: 0 <= i < |lens| ==> lens[i] > 0
    ensures var (a1, b1) := Burst(a, b, lens, arrives);
            && a1.num == Add(a.num, Total(lens))
            && b1.ack == Add(a.num, Total(lens[..Leading(arrives)]))
            && AfterReceive(a1, Outgoing(b1, reply)).num == Add(a.num, Total(lens[..Leading(arrives)]))
  {
    BurstEnds(a, b, lens, arrives);
    AckedPrefix(a, b, lens, arrives);
  }

  lemma {:induction false} AckedPrefix(a: End, b: End, lens: seq<nat>, arrives: seq<bool>)
    requires |arrives| == |lens| && a.num == b.ack && Total(lens) < TWO_32
    requires forall i :: 0 <= i < |lens| ==> lens[i] > 0
    ensures Burst(a, b, lens, arrives).1.ack == Add(a.num, Total(lens[..Leading(arrives)]))
    decreases |lens|
  {
    if lens != [] {
      var a1 := AfterSend(a, lens[0]);
      if arrives[0] {
        var k := Leading(arrives[1..]);
        AckedPrefix(a1, AfterReceive(b, Outgoing(a, lens[0])), lens[1..], arrives[1..]);
        assert lens[..k + 1][1..] == lens[1..][..k];
        AddAdds(a.num, lens[0], Total(lens[1..][..k]));
      } else {
        GapStops(a1, b, lens[1..], arrives[1..], lens[0]);
      }
    }
  }
}
