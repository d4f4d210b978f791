/** A connection's read side: received packets wait in a channel, are decoded when the reader
    asks and nothing recovered is waiting, and reach the reader's buffers piece by piece. */
module Reader {
  import opened Base
  import opened Delivery
  import opened Numbering
  import opened QueueDecoder
  import opened QueueRefinement
  import opened ReferenceRuns
  import opened Sets
  import opened Traffic

  function Flatten(ps: seq<Bytes>): Bytes {
    if ps == [] then [] else Flatten(ps[..|ps| - 1]) + ps[|ps| - 1]
  }

  lemma FlattenConcat(a: seq<Bytes>, b: seq<Bytes>)
    ensures Flatten(a + b) == Flatten(a) + Flatten(b)
  {
    if b == [] {
      assert a + b == a;
    } else {
      assert (a + b)[..|a + b| - 1] == a + b[..|b| - 1];
      FlattenConcat(a, b[..|b| - 1]);
    }
  }

  function NonEmpty(ps: seq<Bytes>): seq<Bytes> {
    if ps == [] then []
    else NonEmpty(ps[..|ps| - 1]) + (if ps[|ps| - 1] == [] then [] else [ps[|ps| - 1]])
  }

  /** Empty packets are passed over, and nothing else is. */
  lemma {:induction false} NonEmptyOneMore(ps: seq<Bytes>, p: Bytes)
    ensures [] !in NonEmpty(ps)
    ensures NonEmpty(ps + [p]) == if p == [] then NonEmpty(ps) else NonEmpty(ps) + [p]
  {
    assert (ps + [p])[..|ps|] == ps;
    if ps != [] {
      var front := ps[..|ps| - 1];
      NonEmptyOneMore(front, ps[|ps| - 1]);
      assert front + [ps[|ps| - 1]] == ps;
    }
  }

  /** The books of a connection: the packets decoded so far gave `delivered`, already taken by
      the reader, and `waiting`, and every byte of what was delivered was returned or is left. */
  ghost predicate Balanced(cfg: Config, consumed: seq<Bytes>, rx: seq<FecPacket>, waiting: seq<Bytes>,
                           delivered: seq<Bytes>, returned: Bytes, left: Bytes)
    requires cfg.Valid()
  {
    && FeedAll(cfg, consumed) == Alive(rx, delivered + waiting)
    && returned + left == Flatten(delivered)
  }

  /** The packets `taken` were received from the channel `was`, and the non-empty ones decoded. */
  ghost predicate Received(was: seq<Bytes>, before: seq<Bytes>, taken: seq<Bytes>, now: seq<Bytes>, consumed: seq<Bytes>) {
    was == taken + now && consumed == before + NonEmpty(taken)
  }

  lemma ReceivedOne(was: seq<Bytes>, before: seq<Bytes>, taken: seq<Bytes>, now: seq<Bytes>, consumed: seq<Bytes>)
    requires Received(was, before, taken, now, consumed) && now != []
    ensures var raw := now[0];
            Received(was, before, taken + [raw], now[1..], if raw == [] then consumed else consumed + [raw])
  {
    var raw := now[0];
    assert (taken + [raw])[..|taken + [raw]| - 1] == taken;
  }

  datatype Got = Got(data: Bytes) | NoMore | Waiting | Panicked

  function Direct(d: Option<Bytes>): seq<Bytes> {
    if d.Some? then [d.value] else []
  }

  lemma OutInParts(delivered: seq<Bytes>, fed: Fed)
    requires fed.Fed?
    ensures delivered + fed.Out() == delivered + Direct(fed.direct) + fed.queued
  {
    assert fed.Out() == Direct(fed.direct) + fed.queued;
  }

  lemma {:induction false} ConsumeOne(cfg: Config, consumed: seq<Bytes>, rx: seq<FecPacket>, delivered: seq<Bytes>, raw: Bytes, fed: Fed)
    requires cfg.Valid() && FeedAll(cfg, consumed) == Alive(rx, delivered) && fed == Feed(cfg, rx, raw)
    ensures FeedAll(cfg, consumed + [raw]) ==
            if fed.Panic? then Stopped else Alive(fed.rx, delivered + Direct(fed.direct) + fed.queued)
  {
    var all := consumed + [raw];
    assert all[..|all| - 1] == consumed && all[|all| - 1] == raw;
    FeedLast(cfg, all, rx, delivered);
    if fed.Fed? {
      OutInParts(delivered, fed);
    }
  }

  class FecConn {
    const cfg: Config
    const decoder: Decoder
    const dataChCap: nat
    const recvChCap: nat
    var dataCh: seq<Bytes>
    var recvCh: seq<Bytes>
    var closed: bool
    var recvLeft: Bytes
    var dropped: nat
    /** When the last packet was queued. */
    var ts: int
    /** Packets decoded, payloads handed to the reader and bytes returned, so far. */
    ghost var consumed: seq<Bytes>
    ghost var delivered: seq<Bytes>
    ghost var returned: Bytes

    ghost predicate Sound()
      reads this, decoder
    {
      decoder.Valid() && decoder.cfg == cfg && cfg.Valid() && dataChCap == cfg.par.Size()
    }

    ghost predicate Valid()
      reads this, decoder
    {
      Sound() && Balanced(cfg, consumed, decoder.rx, dataCh, delivered, returned, recvLeft)
    }

    constructor (cfg: Config)
      requires cfg.Valid()
      ensures Valid() && this.cfg == cfg && recvCh == [] && !closed && consumed == [] && returned == []
      ensures recvChCap == 2048 && dropped == 0
      ensures fresh(decoder) && fresh(decoder.decodeCache) && fresh(decoder.flagCache)
    {
      this.cfg := cfg;
      decoder := new Decoder(cfg);
      dataChCap, recvChCap := cfg.par.Size(), 2048;
      dataCh, recvCh, closed, recvLeft, dropped, ts := [], [], false, [], 0, 0;
      consumed, delivered, returned := [], [], [];
    }

    /** A packet from the listener; if the channel is full it is dropped and only counted. */
    method Push(b: Bytes, now: int)
      requires Valid()
      modifies this`recvCh, this`dropped, this`ts
      ensures Valid()
      ensures if |old(recvCh)| < recvChCap then recvCh == old(recvCh) + [b] && ts == now && dropped == old(dropped)
              else recvCh == old(recvCh) && ts == old(ts) && dropped == old(dropped) + |b|
    {
      if |recvCh| < recvChCap {
        recvCh := recvCh + [b];
        ts := now;
      } else {
        dropped := dropped + |b|;
      }
    }

    /** Put recovered payloads into the channel; false if the program stops on a bad shard or
        on a full channel. */
    method QueueRecovered(recovered: seq<Bytes>) returns (ok: bool)
      requires |recovered| <= dataChCap && dataCh == []
      modifies this`dataCh
      ensures ok <==> Strip(recovered).Some?
      ensures ok ==> dataCh == Strip(recovered).value
    {
      for i := 0 to |recovered|
        invariant Strip(recovered[..i]) == Some(dataCh)
      {
        assert recovered[..i + 1][..i] == recovered[..i];
        var r := recovered[i];
        if |r| > 2 {
          var sz := FromLe16(r);
          if sz < 2 || sz > |r| {
            BadStrip(recovered, i + 1);
            return false;
          }
          if |dataCh| == dataChCap {
            assert false;
          }
          dataCh := dataCh + [r[2..sz]];
        }
      }
      assert recovered[..|recovered|] == recovered;
      return true;
    }

    /** Decode one packet while no recovered payload is waiting. */
    method DecodePacket(raw: Bytes) returns (direct: Option<Bytes>, ok: bool)
      requires Sound() && dataCh == []
      modifies this`dataCh, decoder`rx, decoder.decodeCache, decoder.flagCache
      ensures Sound()
      ensures var fed := Feed(cfg, old(decoder.rx), raw);
              && (ok <==> fed.Fed?)
              && (ok ==> decoder.rx == fed.rx && direct == fed.direct && dataCh == fed.queued)
    {
      direct := None;
      if |raw| < HEADER_SIZE || |raw| > HEADER_SIZE + MTU_LIMIT {
        return None, false;
      }
      var pkt := Parse(raw);
      if pkt.flag == TYPE_DATA {
        if |raw| < HEADER_SIZE + 2 {
          return None, false;
        }
        direct := Some(raw[8..]);
      } else if pkt.flag != TYPE_FEC {
        return None, false;
      }
      var recovered := decoder.Decode(pkt);
      ok := QueueRecovered(recovered);
    }

    /** What the packets decoded so far gave is what was delivered and what waits. */
    ghost predicate InStep()
      reads this, decoder
    {
      Sound() && FeedAll(cfg, consumed) == Alive(decoder.rx, delivered + dataCh)
    }

    /** The same for one packet, with its payload delivered. */
    method Consume(raw: Bytes) returns (direct: Option<Bytes>, ok: bool)
      requires InStep() && dataCh == []
      modifies this`dataCh, this`consumed, this`delivered
      modifies decoder`rx, decoder.decodeCache, decoder.flagCache
      ensures Sound() && consumed == old(consumed) + [raw]
      ensures if ok then InStep() else FeedAll(cfg, consumed).Stopped?
      ensures delivered == old(delivered) + (if ok then Direct(direct) else [])
    {
      assert delivered + dataCh == delivered;
      ConsumeOne(cfg, consumed, decoder.rx, delivered, raw, Feed(cfg, decoder.rx, raw));
      consumed := consumed + [raw];
      direct, ok := DecodePacket(raw);
      if ok {
        delivered := delivered + Direct(direct);
      }
    }

    method TakeWaiting() returns (data: Bytes)
      requires InStep() && dataCh != []
      modifies this`dataCh, this`delivered
      ensures InStep() && delivered == old(delivered) + [data] && dataCh == old(dataCh)[1..] && data == old(dataCh)[0]
    {
      data := dataCh[0];
      MoveFirst(delivered, dataCh);
      delivered := delivered + [data];
      dataCh := dataCh[1..];
    }

    /** The next payload for the reader. `taken` are the packets received meanwhile. */
    method DecodeData() returns (r: Got, ghost taken: seq<Bytes>)
      requires InStep()
      modifies this`dataCh, this`recvCh, this`consumed, this`delivered
      modifies decoder`rx, decoder.decodeCache, decoder.flagCache
      ensures Sound() && Received(old(recvCh), old(consumed), taken, recvCh, consumed)
      ensures if r.Panicked? then FeedAll(cfg, consumed).Stopped? else InStep()
      ensures delivered == old(delivered) + (if r.Got? then [r.data] else [])
      ensures r.NoMore? || r.Waiting? ==> recvCh == [] && dataCh == [] && (r.NoMore? <==> closed)
    {
      taken := [];
      while true
        invariant InStep() && delivered == old(delivered)
        invariant Received(old(recvCh), old(consumed), taken, recvCh, consumed)
        decreases |recvCh|
      {
        if dataCh != [] {
          var data := TakeWaiting();
          r := Got(data);
          return;
        }
        if recvCh == [] {
          r := if closed then NoMore else Waiting;
          return;
        }
        var raw := recvCh[0];
        ReceivedOne(old(recvCh), old(consumed), taken, recvCh, consumed);
        recvCh, taken := recvCh[1..], taken + [raw];
        if raw != [] {
          var direct, ok := Consume(raw);
          if !ok {
            return Panicked, taken;
          }
          if direct.Some? {
            return Got(direct.value), taken;
          }
        }
      }
    }

    /** Fill the reader's buffer: first what an earlier payload left over, then the next payload. */
    method Read(b: array<Byte>) returns (n: nat, r: Got, ghost taken: seq<Bytes>)
      requires Valid()
      modifies b, this`dataCh, this`recvCh, this`recvLeft, this`consumed, this`delivered, this`returned
      modifies decoder`rx, decoder.decodeCache, decoder.flagCache
      ensures if r.Panicked? then FeedAll(cfg, consumed).Stopped? else Valid()
      ensures Received(old(recvCh), old(consumed), taken, recvCh, consumed)
      ensures r.Got? ==> n <= b.Length && returned == old(returned) + b[..n] && b[n..] == old(b[n..])
      ensures r.Got? ==> n == b.Length || recvLeft == []
      ensures !r.Got? ==> n == 0 && returned == old(returned)
      ensures old(recvLeft) != [] ==> r.Got? && consumed == old(consumed)
    {
      if |recvLeft| > 0 {
        n := CopyOut(b, recvLeft);
        SplitAt(returned, recvLeft, n);
        returned := returned + b[..n];
        recvLeft := recvLeft[n..];
        return n, Got([]), [];
      }
      r, taken := DecodeData();
      n := 0;
      if r.Got? {
        assert returned + recvLeft == returned;
        FlattenConcat(old(delivered), [r.data]);
        assert Flatten([r.data]) == r.data;
        n := CopyOut(b, r.data);
        SplitAt(returned, r.data, n);
        returned := returned + b[..n];
        recvLeft := r.data[n..];
        assert returned + recvLeft == Flatten(delivered);
        assert InStep();
      } else if !r.Panicked? {
        assert delivered == old(delivered);
        assert returned + recvLeft == Flatten(delivered);
        assert InStep();
      }
    }
  }

  lemma MoveFirst(a: seq<Bytes>, b: seq<Bytes>)
    requires b != []
    ensures (a + [b[0]]) + b[1..] == a + b
  {}

  lemma SplitAt(a: Bytes, b: Bytes, n: nat)
    requires n <= |b|
    ensures (a + b[..n]) + b[n..] == a + b
  {}

  /** Copy as much as fits. */
  method CopyOut(b: array<Byte>, data: Bytes) returns (n: nat)
    modifies b
    ensures n == (if b.Length < |data| then b.Length else |data|)
    ensures b[..n] == data[..n] && b[n..] == old(b[n..])
  {
    n := if b.Length < |data| then b.Length else |data|;
    for i := 0 to n
      invariant b[..i] == data[..i] && b[n..] == old(b[n..])
    {
      b[i] := data[i];
    }
  }

  lemma {:induction false} BadStrip(rs: seq<Bytes>, k: nat)
    requires k <= |rs| && Strip(rs[..k]).None?
    ensures Strip(rs).None?
    decreases |rs| - k
  {
    if k == |rs| {
      assert rs[..k] == rs;
    } else {
      assert rs[..k + 1][..k] == rs[..k];
      BadStrip(rs, k + 1);
    }
  }

  lemma FlattenThree(a: seq<Bytes>, b: seq<Bytes>, returned: Bytes, left: Bytes)
    requires returned + left == Flatten(a)
    ensures returned + left + Flatten(b) == Flatten(a + b)
  {
    FlattenConcat(a, b);
  }

  /** A connection whose decoded packets are packets of one encoder's stream, in order: the bytes
      its reader has got, with those left over and those waiting, are exactly the payloads the
      reader is owed, each once, byte for byte and in the order handed over. */
  lemma {:induction false} ReaderGetsStream(cfg: Config, s: Sender, run: seq<Idx>, rx: seq<FecPacket>, waiting: seq<Bytes>,
                                            delivered: seq<Bytes>, returned: Bytes, left: Bytes) returns (order: seq<Idx>)
    requires Linked(cfg, s) && AllSent(s, run) && InReach(s.par, s.paws, cfg.rxlimit, run)
    requires InOrder(run) && s.par.parity < s.par.data
    requires Balanced(cfg, Raw(s, run), rx, waiting, delivered, returned, left)
    ensures AllData(s, order) && Distinct(order)
    ensures forall i :: i in order <==> Owed(s.par, Lively(s), run, i)
    ensures delivered + waiting == PayloadsAt(s, order)
    ensures returned + left + Flatten(waiting) == Flatten(PayloadsAt(s, order))
  {
    EndToEnd(cfg, s, run);
    order := HandedOver(s.par, cfg.rxlimit, Lively(s), run);
    FlattenThree(delivered, waiting, returned, left);
  }
}
