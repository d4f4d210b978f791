/** The table of flows of a raw connection, split into shards by address. */
module FlowTable {
  import opened Base

  /** Peer address. */
  datatype Key = Key(ip: bv32, port: nat)

  function Hash(k: Key): nat {
    var a := k.ip ^ (k.ip >> 20);
    var b := a ^ (a >> 14);
    var c := b ^ (b >> 9);
    c as nat + k.port
  }

  /** Shard of a key; shard counts are powers of two, so masking is taking the remainder. */
  function Slot(shards: nat, k: Key): (r: nat)
    requires shards > 0
    ensures r < shards
  {
    Hash(k) % shards
  }

  /** Seconds after which a flow without packets is removed. */
  const EXPIRE: int := 60

  /** When a flow last got a packet, and the system connection bound to it. */
  datatype Flow = Flow(ts: int, conn: Option<nat>)

  type Flows = map<nat, Flow>

  predicate Expired(flows: Flows, id: nat, now: int) {
    id in flows && now - flows[id].ts > EXPIRE
  }

  /** System connections of the given flows. */
  function Conns(flows: Flows, ids: set<nat>): set<nat> {
    set id | id in ids && id in flows && flows[id].conn.Some? :: flows[id].conn.value
  }

  /** `shard` is the part of `all` that belongs into shard `i`. */
  ghost predicate IsShard(shard: map<Key, nat>, all: map<Key, nat>, shards: nat, i: nat)
    requires shards > 0
  {
    && (forall k :: k in shard <==> k in all && Slot(shards, k) == i)
    && (forall k :: k in shard ==> shard[k] == all[k])
  }

  /** What a table holds: the flow of every key, all flow objects ever made, and the connections closed. */
  datatype Contents = Contents(all: map<Key, nat>, flows: Flows, next: nat, closed: set<nat>) {
    ghost predicate Sound() {
      (forall k :: k in all ==> all[k] in flows) && (forall id :: id in flows ==> id < next)
    }
  }

  function Locked(c: Contents, k: Key, now: int): Contents {
    if k in c.all then c
    else c.(all := c.all[k := c.next], flows := c.flows[c.next := Flow(now, None)], next := c.next + 1)
  }

  function Touched(c: Contents, id: nat, now: int): Contents
    requires id in c.flows
  {
    c.(flows := c.flows[id := c.flows[id].(ts := now)])
  }

  function Bound(c: Contents, id: nat, conn: nat): Contents
    requires id in c.flows
  {
    c.(flows := c.flows[id := c.flows[id].(conn := Some(conn))])
  }

  function Cleaned(c: Contents, now: int): Contents {
    c.(all := Unexpired(c.all, c.flows, now), closed := c.closed + Conns(c.flows, ExpiredIds(c.all, c.flows, now)))
  }

  /** The connection is bound to the flow of some key of `all`. */
  ghost predicate BoundIn(all: map<Key, nat>, flows: Flows, conn: nat) {
    exists k :: k in all && all[k] in flows && flows[all[k]].conn == Some(conn)
  }

  /** The connection is bound to the flow of some key of `all` that had its last packet before `since`. */
  ghost predicate SilentIn(all: map<Key, nat>, flows: Flows, conn: nat, since: int) {
    exists k :: k in all && all[k] in flows && flows[all[k]].conn == Some(conn) && flows[all[k]].ts < since
  }

  lemma ConnsOfAll(all: map<Key, nat>, flows: Flows, conn: nat)
    ensures conn in Conns(flows, AllIds(all)) <==> BoundIn(all, flows, conn)
  {
    if k :| k in all && all[k] in flows && flows[all[k]].conn == Some(conn) {
      assert all[k] in AllIds(all);
    }
  }

  lemma ConnsOfExpired(all: map<Key, nat>, flows: Flows, conn: nat, now: int)
    ensures conn in Conns(flows, ExpiredIds(all, flows, now)) <==> SilentIn(all, flows, conn, now - 60)
  {
    if k :| k in all && all[k] in flows && flows[all[k]].conn == Some(conn) && flows[all[k]].ts < now - 60 {
      assert all[k] in ExpiredIds(all, flows, now);
    }
  }

  /** A cleaning keeps exactly the keys whose flow had a packet in the last 60 seconds, and closes exactly the
      connections bound to a flow that had none. */
  lemma CleanedExactly(c: Contents, now: int)
    requires c.Sound()
    ensures var r := Cleaned(c, now);
            && (forall k :: k in r.all <==> k in c.all && c.flows[c.all[k]].ts >= now - 60)
            && (forall k :: k in r.all ==> r.all[k] == c.all[k])
            && (forall conn :: conn in r.closed <==> conn in c.closed || SilentIn(c.all, c.flows, conn, now - 60))
  {
    forall conn
      ensures conn in Conns(c.flows, ExpiredIds(c.all, c.flows, now)) <==> SilentIn(c.all, c.flows, conn, now - 60)
    {
      ConnsOfExpired(c.all, c.flows, conn, now);
    }
  }

  /** What is left of `m` after the expired entries are removed. */
  function Unexpired(m: map<Key, nat>, flows: Flows, now: int): map<Key, nat> {
    map k | k in m && !Expired(flows, m[k], now) :: m[k]
  }

  function AllIds(m: map<Key, nat>): set<nat> {
    set k | k in m :: m[k]
  }

  function ExpiredIds(m: map<Key, nat>, flows: Flows, now: int): set<nat> {
    set k | k in m && Expired(flows, m[k], now) :: m[k]
  }

  class Table {
    const tables: array<map<Key, nat>>
    var flows: Flows
    var next: nat
    /** System connections closed by the cleaner or by closing the table. */
    var closed: set<nat>
    /** The table as if it were not split. */
    ghost var all: map<Key, nat>

    ghost function View(): Contents
      reads this
    {
      Contents(all, flows, next, closed)
    }

    ghost predicate Valid()
      reads this, tables
    {
      && tables.Length > 0 && View().Sound()
      && (forall i :: 0 <= i < tables.Length ==> IsShard(tables[i], all, tables.Length, i))
    }

    constructor (shards: nat)
      requires shards > 0
      ensures Valid() && fresh(tables) && tables.Length == shards && all == map[] && closed == {}
    {
      tables := new map<Key, nat>[shards](_ => map[]);
      flows, next, closed, all := map[], 0, {}, map[];
    }

    method GetFlow(k: Key) returns (r: Option<nat>)
      requires Valid()
      ensures r == if k in all then Some(all[k]) else None
    {
      var i := Slot(tables.Length, k);
      r := if k in tables[i] then Some(tables[i][k]) else None;
    }

    /** The flow of a key, made if there is none. */
    method LockFlow(k: Key, now: int) returns (id: nat)
      requires Valid()
      modifies this, tables
      ensures Valid() && View() == Locked(old(View()), k, now) && k in all && id == all[k]
      ensures k in old(all) ==> id == old(all)[k]
      ensures k !in old(all) ==> id !in old(flows) && flows[id] == Flow(now, None)
    {
      ghost var before := View();
      var i := Slot(tables.Length, k);
      if k in tables[i] {
        id := tables[i][k];
      } else {
        id := next;
        next := next + 1;
        flows := flows[id := Flow(now, None)];
      }
      forall j | 0 <= j < tables.Length
        ensures IsShard(if j == i then tables[j][k := id] else tables[j], all[k := id], tables.Length, j)
      {
        PutInShard(tables[j], all, tables.Length, j, k, id);
      }
      tables[i] := tables[i][k := id];
      all := all[k := id];
      assert k in before.all ==> before.all[k := id] == before.all;
    }

    /** A packet was received on the flow. */
    method Touch(id: nat, now: int)
      requires Valid() && id in flows
      modifies this`flows
      ensures Valid() && View() == Touched(old(View()), id, now)
      ensures flows == old(flows)[id := Flow(now, old(flows)[id].conn)]
    {
      flows := flows[id := flows[id].(ts := now)];
    }

    /** The system connection of the flow was dialled or accepted. */
    method Bind(id: nat, conn: nat)
      requires Valid() && id in flows
      modifies this`flows
      ensures Valid() && View() == Bound(old(View()), id, conn)
      ensures flows == old(flows)[id := Flow(old(flows)[id].ts, Some(conn))]
    {
      flows := flows[id := flows[id].(conn := Some(conn))];
    }

    /** Remove the expired entries of one shard and close their connections. */
    method CleanShard(i: nat, now: int)
      requires i < tables.Length
      modifies this`closed, tables
      ensures tables[i] == Unexpired(old(tables[i]), flows, now)
      ensures forall j :: 0 <= j < tables.Length && j != i ==> tables[j] == old(tables[j])
      ensures closed == old(closed) + Conns(flows, ExpiredIds(old(tables[i]), flows, now))
    {
      var was := tables[i];
      var keys := was.Keys;
      ghost var gone: set<Key> := {};
      while keys != {}
        invariant keys <= was.Keys && gone !! keys
        invariant forall k :: k in was && k !in keys ==> (k in gone <==> Expired(flows, was[k], now))
        invariant gone <= was.Keys && tables[i] == was - gone
        invariant forall j :: 0 <= j < tables.Length && j != i ==> tables[j] == old(tables[j])
        invariant closed == old(closed) + Conns(flows, (set k | k in gone :: was[k]))
        decreases keys
      {
        var k :| k in keys;
        keys := keys - {k};
        if Expired(flows, was[k], now) {
          var conn := flows[was[k]].conn;
          if conn.Some? {
            closed := closed + {conn.value};
          }
          tables[i] := tables[i] - {k};
          ConnsGrow(flows, was, gone, k);
          gone := gone + {k};
        }
      }
      assert gone == set k | k in was && Expired(flows, was[k], now);
      assert ExpiredIds(was, flows, now) == set k | k in gone :: was[k];
    }

    /** One round of the cleaner: exactly the flows without a packet for more than 60 seconds go, from every
        shard, and exactly their connections are closed. */
    method Clean(now: int)
      requires Valid()
      modifies this`closed, this`all, tables
      ensures Valid() && View() == Cleaned(old(View()), now)
      ensures forall k :: k in all <==> k in old(all) && flows[old(all)[k]].ts >= now - 60
      ensures forall conn :: conn in closed <==> conn in old(closed) || SilentIn(old(all), flows, conn, now - 60)
    {
      CleanedExactly(View(), now);
      ghost var n, was, shards := tables.Length, all, tables[..];
      for i := 0 to tables.Length
        invariant forall j :: 0 <= j < i ==> tables[j] == Unexpired(shards[j], flows, now)
        invariant forall j :: i <= j < n ==> tables[j] == shards[j]
        invariant closed == old(closed) + Conns(flows, ExpiredIds(Below(was, n, i), flows, now))
      {
        BelowGrows(was, shards[i], flows, now, n, i);
        CleanShard(i, now);
      }
      assert Below(was, n, n) == was;
      forall j | 0 <= j < n
        ensures IsShard(tables[j], Unexpired(was, flows, now), n, j)
      {
        CleanInShard(shards[j], was, flows, now, n, j);
      }
      all := Unexpired(was, flows, now);
    }

    method CloseShard(i: nat)
      requires i < tables.Length
      modifies this`closed, tables
      ensures tables[i] == map[]
      ensures forall j :: 0 <= j < tables.Length && j != i ==> tables[j] == old(tables[j])
      ensures closed == old(closed) + Conns(flows, AllIds(old(tables[i])))
    {
      closed := closed + Conns(flows, AllIds(tables[i]));
      tables[i] := map[];
    }

    method CloseShards()
      requires Valid()
      modifies this`closed, tables
      ensures forall j :: 0 <= j < tables.Length ==> tables[j] == map[]
      ensures closed == old(closed) + Conns(flows, AllIds(all))
    {
      ghost var n, was, shards := tables.Length, all, tables[..];
      for i := 0 to tables.Length
        invariant forall j :: 0 <= j < i ==> tables[j] == map[]
        invariant forall j :: i <= j < n ==> tables[j] == shards[j]
        invariant closed == old(closed) + Conns(flows, AllIds(Below(was, n, i)))
      {
        IdsGrow(was, shards[i], flows, n, i);
        CloseShard(i);
      }
      assert Below(was, n, n) == was;
    }

    /** Closing a listener empties every shard. */
    method CloseAll()
      requires Valid()
      modifies this`all, this`closed, tables
      ensures Valid() && all == map[]
      ensures forall conn :: conn in closed <==> conn in old(closed) || BoundIn(old(all), flows, conn)
    {
      ghost var was := all;
      CloseShards();
      all := map[];
      forall conn
        ensures conn in Conns(flows, AllIds(was)) <==> BoundIn(was, flows, conn)
      {
        ConnsOfAll(was, flows, conn);
      }
    }
  }

  lemma PutInShard(shard: map<Key, nat>, all: map<Key, nat>, shards: nat, j: nat, k: Key, id: nat)
    requires shards > 0 && IsShard(shard, all, shards, j)
    ensures IsShard(if j == Slot(shards, k) then shard[k := id] else shard, all[k := id], shards, j)
  {}

  lemma CleanInShard(shard: map<Key, nat>, all: map<Key, nat>, flows: Flows, now: int, shards: nat, j: nat)
    requires shards > 0 && IsShard(shard, all, shards, j)
    ensures IsShard(Unexpired(shard, flows, now), Unexpired(all, flows, now), shards, j)
  {}

  /** The entries of the shards before `i`. */
  function Below(all: map<Key, nat>, shards: nat, i: nat): map<Key, nat>
    requires shards > 0
  {
    map k | k in all && Slot(shards, k) < i :: all[k]
  }

  lemma BelowGrows(all: map<Key, nat>, shard: map<Key, nat>, flows: Flows, now: int, shards: nat, i: nat)
    requires shards > 0 && IsShard(shard, all, shards, i)
    ensures Conns(flows, ExpiredIds(Below(all, shards, i + 1), flows, now))
            == Conns(flows, ExpiredIds(Below(all, shards, i), flows, now)) + Conns(flows, ExpiredIds(shard, flows, now))
  {
    var a, b, c := Below(all, shards, i + 1), Below(all, shards, i), shard;
    assert forall k :: k in a <==> k in b || k in c;
    assert ExpiredIds(a, flows, now) == ExpiredIds(b, flows, now) + ExpiredIds(c, flows, now);
    ConnsUnion(flows, ExpiredIds(b, flows, now), ExpiredIds(c, flows, now));
  }

  lemma ConnsUnion(flows: Flows, a: set<nat>, b: set<nat>)
    ensures Conns(flows, a + b) == Conns(flows, a) + Conns(flows, b)
  {}

  lemma IdsGrow(all: map<Key, nat>, shard: map<Key, nat>, flows: Flows, shards: nat, i: nat)
    requires shards > 0 && IsShard(shard, all, shards, i)
    ensures Conns(flows, AllIds(Below(all, shards, i + 1)))
            == Conns(flows, AllIds(Below(all, shards, i))) + Conns(flows, AllIds(shard))
  {
    var a, b, c := Below(all, shards, i + 1), Below(all, shards, i), shard;
    assert forall k :: k in a <==> k in b || k in c;
    assert AllIds(a) == AllIds(b) + AllIds(c);
    ConnsUnion(flows, AllIds(b), AllIds(c));
  }

  lemma ConnsGrow(flows: Flows, was: map<Key, nat>, gone: set<Key>, k: Key)
    requires gone <= was.Keys && k in was && was[k] in flows
    ensures Conns(flows, (set x | x in gone + {k} :: was[x]))
            == Conns(flows, (set x | x in gone :: was[x])) + (if flows[was[k]].conn.Some? then {flows[was[k]].conn.value} else {})
  {
    var a, b := (set x | x in gone :: was[x]), (set x | x in gone + {k} :: was[x]);
    assert b == a + {was[k]};
  }
}
