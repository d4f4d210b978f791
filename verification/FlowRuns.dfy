/** Packets, accepted connections and the cleaner working on the flow table at the same time. A
    flow is looked up under the table's lock, and used later without it. */
module FlowRuns {
  import opened Base
  import opened FlowTable

  /** What is done with a flow once it was looked up. */
  datatype Use = Bind(conn: nat) | Packet(psh: bool, payload: Bytes)

  /** A task between its lookup and its use of the flow object. */
  datatype Task = Task(key: Key, id: nat, use: Use)

  datatype Message = Message(key: Key, id: nat, task: nat, payload: Bytes)

  /** A system connection was recorded in flow object `id`, looked up for `key`. */
  datatype Binding = Binding(key: Key, id: nat, conn: nat)

  /** The table; the connection of every flow object ever made and the key it was made for;
      unfinished tasks; the payloads queued for the application; and the bindings made so far. */
  datatype Machine = Machine(table: map<Key, nat>, conns: map<nat, Option<nat>>, owner: map<nat, Key>, next: nat,
                             tasks: map<nat, Task>, nextTask: nat, queue: seq<Message>, bindings: set<Binding>)

  datatype Event = Lookup(key: Key, use: Use) | Finish(task: nat) | Remove(keys: set<Key>)

  function Looked(m: Machine, k: Key): Machine {
    if k in m.table then m
    else m.(table := m.table[k := m.next], conns := m.conns[m.next := None], owner := m.owner[m.next := k], next := m.next + 1)
  }

  function Happen(m: Machine, e: Event): Machine {
    match e
    case Lookup(k, use) =>
      var found := Looked(m, k);
      found.(tasks := found.tasks[m.nextTask := Task(k, found.table[k], use)], nextTask := m.nextTask + 1)
    case Finish(t) => if t in m.tasks then Finished(m, t) else m
    case Remove(keys) => m.(table := m.table - keys)
  }

  function Finished(m: Machine, t: nat): Machine
    requires t in m.tasks
  {
    var task, rest := m.tasks[t], m.(tasks := m.tasks - {t});
    match task.use
    case Bind(c) =>
      rest.(conns := m.conns[task.id := Some(c)], bindings := m.bindings + {Binding(task.key, task.id, c)})
    case Packet(psh, payload) =>
      if psh && task.id in m.conns && m.conns[task.id].Some? then
        rest.(queue := m.queue + [Message(task.key, task.id, t, payload)])
      else rest
  }

  function HappenAll(m: Machine, es: seq<Event>): Machine {
    if es == [] then m else Happen(HappenAll(m, es[..|es| - 1]), es[|es| - 1])
  }

  ghost predicate OwnedBy(m: Machine, id: nat, k: Key) {
    id in m.owner && m.owner[id] == k
  }

  /** A flow object serves one key for ever, in the table or out of it. */
  ghost predicate Coherent(m: Machine) {
    && m.conns.Keys == m.owner.Keys
    && (forall id :: id in m.owner ==> id < m.next)
    && (forall k :: k in m.table ==> OwnedBy(m, m.table[k], k))
    && (forall t :: t in m.tasks ==> t < m.nextTask && OwnedBy(m, m.tasks[t].id, m.tasks[t].key))
    && (forall b :: b in m.bindings ==> OwnedBy(m, b.id, b.key))
    && (forall i :: 0 <= i < |m.queue| ==> m.queue[i].task < m.nextTask)
  }

  ghost predicate HasBinding(bindings: set<Binding>, k: Key, id: nat) {
    exists c :: Binding(k, id, c) in bindings
  }

  /** A flow object with a connection got it from a binding, and so did every flow whose payload
      was queued. */
  ghost predicate Warranted(m: Machine)
    requires Coherent(m)
  {
    && (forall id :: id in m.conns && m.conns[id].Some? ==> HasBinding(m.bindings, m.owner[id], id))
    && (forall i :: 0 <= i < |m.queue| ==> HasBinding(m.bindings, m.queue[i].key, m.queue[i].id))
  }

  ghost predicate Safe(m: Machine) {
    Coherent(m) && Warranted(m)
  }

  lemma LookedCoherent(m: Machine, k: Key)
    requires Coherent(m)
    ensures Coherent(Looked(m, k)) && k in Looked(m, k).table && OwnedBy(Looked(m, k), Looked(m, k).table[k], k)
  {}

  lemma LookedSafe(m: Machine, k: Key)
    requires Safe(m)
    ensures Safe(Looked(m, k)) && k in Looked(m, k).table && OwnedBy(Looked(m, k), Looked(m, k).table[k], k)
  {
    LookedCoherent(m, k);
  }

  lemma TaskSafe(m: Machine, task: Task)
    requires Safe(m) && OwnedBy(m, task.id, task.key)
    ensures Safe(m.(tasks := m.tasks[m.nextTask := task], nextTask := m.nextTask + 1))
  {
    assert Coherent(m.(tasks := m.tasks[m.nextTask := task], nextTask := m.nextTask + 1));
  }

  lemma LookupSafe(m: Machine, k: Key, use: Use)
    requires Safe(m)
    ensures Safe(Happen(m, Lookup(k, use)))
  {
    LookedSafe(m, k);
    TaskSafe(Looked(m, k), Task(k, Looked(m, k).table[k], use));
  }

  lemma BindSafe(m: Machine, t: nat)
    requires Safe(m) && t in m.tasks && m.tasks[t].use.Bind?
    ensures Safe(Finished(m, t))
  {
    var task, r := m.tasks[t], Finished(m, t);
    assert Coherent(r);
    assert Binding(task.key, task.id, task.use.conn) in r.bindings;
    forall k, id | HasBinding(m.bindings, k, id)
      ensures HasBinding(r.bindings, k, id)
    {
      var c :| Binding(k, id, c) in m.bindings;
      assert Binding(k, id, c) in r.bindings;
    }
  }

  lemma PacketSafe(m: Machine, t: nat)
    requires Safe(m) && t in m.tasks && m.tasks[t].use.Packet?
    ensures Safe(Finished(m, t))
  {
    assert Coherent(Finished(m, t));
  }

  /** Under every interleaving of packets, accepted connections and clean-ups, a payload is queued
      for the application only if a system connection was recorded before for that very peer, in
      the flow object the packet found. */
  lemma EventSafe(m: Machine, e: Event)
    requires Safe(m)
    ensures Safe(Happen(m, e))
  {
    match e
    case Lookup(k, use) => LookupSafe(m, k, use);
    case Finish(t) =>
      if t in m.tasks {
        if m.tasks[t].use.Bind? {
          BindSafe(m, t);
        } else {
          PacketSafe(m, t);
        }
      }
    case Remove(keys) =>
      assert Coherent(Happen(m, e));
  }

  lemma {:induction false} RunSafe(m: Machine, es: seq<Event>)
    requires Safe(m)
    ensures Safe(HappenAll(m, es))
  {
    if es != [] {
      RunSafe(m, es[..|es| - 1]);
      EventSafe(HappenAll(m, es[..|es| - 1]), es[|es| - 1]);
    }
  }

  // ----- What becomes of a packet

  /** The payloads queued for the task `t`. */
  function Queued(queue: seq<Message>, t: nat): seq<Message> {
    if queue == [] then []
    else
      var last := queue[|queue| - 1];
      Queued(queue[..|queue| - 1], t) + (if last.task == t then [last] else [])
  }

  lemma QueuedOneMore(queue: seq<Message>, last: Message, t: nat)
    ensures Queued(queue + [last], t) == Queued(queue, t) + (if last.task == t then [last] else [])
  {
    assert (queue + [last])[..|queue|] == queue;
  }

  lemma {:induction false} NothingQueuedYet(queue: seq<Message>, t: nat)
    requires forall i :: 0 <= i < |queue| ==> queue[i].task < t
    ensures Queued(queue, t) == []
  {
    if queue != [] {
      NothingQueuedYet(queue[..|queue| - 1], t);
    }
  }

  /** What happens to other tasks leaves task `t` and its payloads as they are. */
  ghost predicate LeavesTask(m: Machine, r: Machine, t: nat) {
    && m.nextTask <= r.nextTask && (t in r.tasks <==> t in m.tasks) && (t in m.tasks ==> r.tasks[t] == m.tasks[t])
    && Queued(r.queue, t) == Queued(m.queue, t)
  }

  lemma OtherTask(m: Machine, e: Event, t: nat)
    requires t < m.nextTask && (e == Finish(t) ==> t !in m.tasks)
    ensures LeavesTask(m, Happen(m, e), t)
  {
    if e.Finish? && e.task in m.tasks && m.tasks[e.task].use.Packet? {
      var task := m.tasks[e.task];
      QueuedOneMore(m.queue, Message(task.key, task.id, e.task, task.use.payload), t);
    }
  }

  lemma {:induction false} OtherTasks(m: Machine, es: seq<Event>, t: nat)
    requires t < m.nextTask && (t in m.tasks ==> Finish(t) !in es)
    ensures LeavesTask(m, HappenAll(m, es), t)
  {
    if es != [] {
      OtherTasks(m, es[..|es| - 1], t);
      OtherTask(HappenAll(m, es[..|es| - 1]), es[|es| - 1], t);
    }
  }

  /** Finishing the task of a packet queues its payload once if the packet has PSH set and the flow it found
      has a connection by then. */
  lemma FinishQueues(m: Machine, t: nat, task: Task)
    requires t in m.tasks && m.tasks[t] == task && task.use.Packet? && Queued(m.queue, t) == []
    ensures var r := Happen(m, Finish(t));
            && r.nextTask == m.nextTask && t !in r.tasks
            && Queued(r.queue, t) == if task.use.psh && task.id in m.conns && m.conns[task.id].Some?
                                     then [Message(task.key, task.id, t, task.use.payload)] else []
  {
    QueuedOneMore(m.queue, Message(task.key, task.id, t, task.use.payload), t);
  }

  /** A packet among anything else that happens: looked up after `m`, then `fs`, then its task finishes, then
      `gs`. Its payload is queued exactly once, under the key and flow it was looked up with, if it has PSH set
      and that flow has a connection when the task finishes; otherwise never. */
  lemma {:induction false} PacketQueuedIff(m: Machine, k: Key, psh: bool, payload: Bytes, fs: seq<Event>, gs: seq<Event>, m1: Machine, m2: Machine)
    requires Safe(m) && Finish(m.nextTask) !in fs
    requires m1 == HappenAll(Happen(m, Lookup(k, Packet(psh, payload))), fs)
    requires m2 == HappenAll(Happen(m1, Finish(m.nextTask)), gs)
    ensures var t, id := m.nextTask, Looked(m, k).table[k];
            Queued(m2.queue, t) == if psh && id in m1.conns && m1.conns[id].Some? then [Message(k, id, t, payload)] else []
  {
    var t, found := m.nextTask, Happen(m, Lookup(k, Packet(psh, payload)));
    NothingQueuedYet(found.queue, t);
    OtherTasks(found, fs, t);
    FinishQueues(m1, t, Task(k, Looked(m, k).table[k], Packet(psh, payload)));
    OtherTasks(Happen(m1, Finish(t)), gs, t);
  }

  // ----- After a flow was removed

  /** Tasks and messages for `k` that were looked up since `m0`, when `k` was not in the table, use
      flow objects made since. */
  ghost predicate Renewed(m0: Machine, m: Machine, k: Key) {
    && m0.next <= m.next && m0.nextTask <= m.nextTask
    && (k in m.table ==> m.table[k] >= m0.next)
    && (forall t :: t in m.tasks && t >= m0.nextTask && m.tasks[t].key == k ==> m.tasks[t].id >= m0.next)
    && (forall i :: 0 <= i < |m.queue| && m.queue[i].task >= m0.nextTask && m.queue[i].key == k ==> m.queue[i].id >= m0.next)
  }

  lemma StaysRenewed(m0: Machine, m: Machine, k: Key, e: Event)
    requires Renewed(m0, m, k)
    ensures Renewed(m0, Happen(m, e), k)
  {}

  lemma {:induction false} RunRenewed(m0: Machine, es: seq<Event>, k: Key)
    requires Safe(m0) && k !in m0.table
    ensures Renewed(m0, HappenAll(m0, es), k)
  {
    if es != [] {
      RunRenewed(m0, es[..|es| - 1], k);
      StaysRenewed(m0, HappenAll(m0, es[..|es| - 1]), k, es[|es| - 1]);
    }
  }

  /** Once a peer's flow is removed, no later packet of that peer is queued on the strength of an
      old connection: it takes a binding made after the removal. */
  lemma {:induction false} RemovalRevokes(m0: Machine, es: seq<Event>, k: Key, i: nat)
    requires Safe(m0) && k !in m0.table
    requires i < |HappenAll(m0, es).queue|
    requires HappenAll(m0, es).queue[i].key == k && HappenAll(m0, es).queue[i].task >= m0.nextTask
    ensures var id := HappenAll(m0, es).queue[i].id;
            HasBinding(HappenAll(m0, es).bindings, k, id) && !HasBinding(m0.bindings, k, id)
  {
    RunSafe(m0, es);
    RunRenewed(m0, es, k);
    var id := HappenAll(m0, es).queue[i].id;
    forall c
      ensures Binding(k, id, c) !in m0.bindings
    {
      assert id >= m0.next;
      assert forall b :: b in m0.bindings ==> b.id < m0.next;
    }
  }

  // ----- The events are what the table's operations do

  /** The machine's table, flow objects and counter are those of a flow table. */
  ghost predicate Shows(m: Machine, all: map<Key, nat>, flows: Flows, next: nat) {
    && m.table == all && m.next == next && m.conns.Keys == flows.Keys
    && forall id :: id in flows ==> m.conns[id] == flows[id].conn
  }

  /** A lookup is `LockFlow`. */
  lemma LookupIsLockFlow(m: Machine, all: map<Key, nat>, flows: Flows, next: nat, k: Key, use: Use, now: int)
    requires Shows(m, all, flows, next)
    ensures var r := Happen(m, Lookup(k, use));
            && k in r.table && r.tasks[m.nextTask] == Task(k, r.table[k], use)
            && (if k in all then Shows(r, all[k := all[k]], flows, next) && r.table[k] == all[k]
                else Shows(r, all[k := next], flows[next := Flow(now, None)], next + 1) && r.table[k] == next)
  {
    if k in all {
      assert all[k := all[k]] == all;
    }
  }

  /** Finishing a task that records a connection is `Bind`; finishing one for a packet is `Touch`. */
  lemma FinishIsBindOrTouch(m: Machine, all: map<Key, nat>, flows: Flows, next: nat, t: nat, now: int)
    requires Shows(m, all, flows, next) && t in m.tasks && m.tasks[t].id in flows
    ensures var r, task := Happen(m, Finish(t)), m.tasks[t];
            match task.use
            case Bind(c) => Shows(r, all, flows[task.id := flows[task.id].(conn := Some(c))], next)
            case Packet(_, _) => Shows(r, all, flows[task.id := flows[task.id].(ts := now)], next)
  {}

  /** A removal of the expired keys is `Clean`, and of all keys `CloseAll`. */
  lemma RemoveIsClean(m: Machine, all: map<Key, nat>, flows: Flows, next: nat, now: int)
    requires Shows(m, all, flows, next)
    ensures Shows(Happen(m, Remove(set k | k in all && all[k] in flows && flows[all[k]].ts < now - 60)),
                  Cleaned(Contents(all, flows, next, {}), now).all, flows, next)
    ensures Shows(Happen(m, Remove(all.Keys)), map[], flows, next)
  {
    var gone := set k | k in all && all[k] in flows && flows[all[k]].ts < now - 60;
    assert all - gone == Unexpired(all, flows, now);
    assert all - all.Keys == map[];
  }
}
