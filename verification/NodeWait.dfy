/** Callbacks that wait for a connection: ensureConnForAddress of rediscluster/mapping.go, while
    updateMappings of rediscluster/slotrange.go replaces the map of promises under way. */
module NodeWait {

  type Addr = string

  /** A callback is between the look at the configuration and the lock, in a queue, or has run. */
  datatype Home = Locking(addr: Addr) | Queued(q: nat) | Ran

  /** The goroutine of a queue: connecting; past delete(promises, addr) and running callbacks from `next` on. */
  datatype Stage = Connecting | Running(next: nat)

  /** A queue of callbacks, the map (by its generation) and the address it was stored under. */
  datatype Queue = Queue(gen: nat, addr: Addr, callbacks: seq<nat>, stage: Stage)

  datatype Key = Key(gen: nat, addr: Addr)

  /** `gen` numbers the map that c.nodeWait.promises refers to. Older maps live on in the goroutines that
      captured them. `homes` has an entry for every call made, and `ran` lists the callbacks run. */
  datatype Wait = Wait(known: set<Addr>, gen: nat, promises: map<Key, nat>, queues: seq<Queue>, homes: seq<Home>,
      ran: seq<nat>)

  datatype Step =
    | Call(addr: Addr)              // ensureConnForAddress, up to the lock
    | Enqueue(id: nat)              // its critical section
    | AddNode(q: nat)               // the goroutine connects
    | Delete(q: nat)                // and deletes its promise, under the lock
    | Run(q: nat)                   // and runs one callback
    | Swap(known: set<Addr>)        // updateMappings

  function Init(known: set<Addr>): Wait {
    Wait(known, 0, map[], [], [], [])
  }

  predicate Enabled(s: Wait, st: Step) {
    match st
    case Call(_) => true
    case Enqueue(id) => id < |s.homes| && s.homes[id].Locking?
    case AddNode(q) => q < |s.queues| && s.queues[q].stage.Connecting?
    case Delete(q) => q < |s.queues| && s.queues[q].stage.Connecting?
    case Run(q) => q < |s.queues| && s.queues[q].stage.Running? && s.queues[q].stage.next < |s.queues[q].callbacks|
    case Swap(_) => true
  }

  /** The critical section: join the queue that waits for the address, or start one. */
  function Join(s: Wait, id: nat): Wait
    requires Enabled(s, Enqueue(id))
  {
    var addr := s.homes[id].addr;
    var key := Key(s.gen, addr);
    if key in s.promises && s.promises[key] < |s.queues| then
      var q := s.promises[key];
      s.(queues := s.queues[q := s.queues[q].(callbacks := s.queues[q].callbacks + [id])],
        homes := s.homes[id := Queued(q)])
    else
      s.(promises := s.promises[key := |s.queues|],
         queues := s.queues + [Queue(s.gen, addr, [id], Connecting)],
         homes := s.homes[id := Queued(|s.queues|)])
  }

  function Next(s: Wait, st: Step): Wait
    requires Enabled(s, st)
  {
    match st
    case Call(addr) =>
      if addr in s.known then s.(homes := s.homes + [Ran], ran := s.ran + [|s.homes|])
      else s.(homes := s.homes + [Locking(addr)])
    case Enqueue(id) => Join(s, id)
    case AddNode(q) => s.(known := s.known + {s.queues[q].addr})
    case Delete(q) =>
      s.(promises := s.promises - {Key(s.queues[q].gen, s.queues[q].addr)},
         queues := s.queues[q := s.queues[q].(stage := Running(0))])
    case Run(q) =>
      var queue := s.queues[q];
      var id := queue.callbacks[queue.stage.next];
      s.(queues := s.queues[q := queue.(stage := Running(queue.stage.next + 1))],
         homes := if id < |s.homes| then s.homes[id := Ran] else s.homes,
         ran := s.ran + [id])
    case Swap(known) => s.(known := known, gen := s.gen + 1)
  }

  predicate Legal(s: Wait, steps: seq<Step>)
    decreases |steps|
  {
    steps == [] || (Enabled(s, steps[0]) && Legal(Next(s, steps[0]), steps[1..]))
  }

  function After(s: Wait, steps: seq<Step>): Wait
    requires Legal(s, steps)
    decreases |steps|
  {
    if steps == [] then s else After(Next(s, steps[0]), steps[1..])
  }

  // --------------------------------------------------------------- invariant

  function Done(queue: Queue): nat {
    if queue.stage.Connecting? then 0 else queue.stage.next
  }

  predicate Distinct(ids: seq<nat>) {
    forall i, j :: 0 <= i < j < |ids| ==> ids[i] != ids[j]
  }

  /** A queue holds callbacks that were called, each once; those not run yet live in it. */
  predicate QueueInv(s: Wait, q: nat)
    requires q < |s.queues|
  {
    var queue := s.queues[q];
    && queue.gen <= s.gen && Done(queue) <= |queue.callbacks| && Distinct(queue.callbacks)
    && (forall k :: 0 <= k < |queue.callbacks| ==>
          queue.callbacks[k] < |s.homes| && s.homes[queue.callbacks[k]] == if k < Done(queue) then Ran else Queued(q))
  }

  /** A promise leads to the one queue of its map and address that is still connecting. */
  predicate PromiseInv(s: Wait) {
    && (forall key :: key in s.promises ==>
          var q := s.promises[key];
          q < |s.queues| && s.queues[q].stage.Connecting? && s.queues[q].gen == key.gen && s.queues[q].addr == key.addr)
    && (forall q :: 0 <= q < |s.queues| && s.queues[q].stage.Connecting? ==>
          Key(s.queues[q].gen, s.queues[q].addr) in s.promises
              && s.promises[Key(s.queues[q].gen, s.queues[q].addr)] == q)
  }

  /** The callback is in the queue and has not run. */
  predicate WaitsIn(queue: Queue, id: nat) {
    exists k :: Done(queue) <= k < |queue.callbacks| && queue.callbacks[k] == id
  }

  predicate HomeInv(s: Wait, id: nat)
    requires id < |s.homes|
  {
    match s.homes[id]
    case Locking(_) => true
    case Queued(q) => q < |s.queues| && WaitsIn(s.queues[q], id)
    case Ran => id in s.ran
  }

  predicate RanInv(s: Wait) {
    Distinct(s.ran) && forall i :: 0 <= i < |s.ran| ==> s.ran[i] < |s.homes| && s.homes[s.ran[i]].Ran?
  }

  predicate Inv(s: Wait) {
    && (forall q :: 0 <= q < |s.queues| ==> QueueInv(s, q))
    && (forall id :: 0 <= id < |s.homes| ==> HomeInv(s, id))
    && PromiseInv(s) && RanInv(s)
  }

  lemma CallKeeps(s: Wait, addr: Addr)
    requires Inv(s)
    ensures Inv(Next(s, Call(addr)))
  {
    var t := Next(s, Call(addr));
    forall q | 0 <= q < |t.queues| ensures QueueInv(t, q) { assert QueueInv(s, q); }
    forall id | 0 <= id < |t.homes| ensures HomeInv(t, id) {
      if id < |s.homes| { assert HomeInv(s, id); } else if addr in s.known { assert t.ran[|s.ran|] == id; }
    }
  }

  lemma JoinKeepsQueue(s: Wait, id: nat, q: nat)
    requires Inv(s) && Enabled(s, Enqueue(id)) && q < |Join(s, id).queues|
    ensures QueueInv(Join(s, id), q)
  {
    assert q < |s.queues| ==> QueueInv(s, q);
  }

  lemma JoinKeepsHome(s: Wait, id: nat, x: nat)
    requires Inv(s) && Enabled(s, Enqueue(id)) && x < |s.homes|
    ensures HomeInv(Join(s, id), x)
  {
    var t := Join(s, id);
    assert HomeInv(s, x);
    if x == id {
      var joined := t.queues[t.homes[id].q];
      assert joined.callbacks[|joined.callbacks| - 1] == id;
    } else if s.homes[x].Queued? {
      var queue := s.queues[s.homes[x].q];
      var k :| Done(queue) <= k < |queue.callbacks| && queue.callbacks[k] == x;
      assert t.queues[s.homes[x].q].callbacks[k] == x;
    }
  }

  lemma JoinKeepsPromises(s: Wait, id: nat)
    requires Inv(s) && Enabled(s, Enqueue(id))
    ensures PromiseInv(Join(s, id)) && RanInv(Join(s, id))
  {}

  lemma JoinKeeps(s: Wait, id: nat)
    requires Inv(s) && Enabled(s, Enqueue(id))
    ensures Inv(Next(s, Enqueue(id)))
  {
    var t := Join(s, id);
    forall q | 0 <= q < |t.queues| ensures QueueInv(t, q) { JoinKeepsQueue(s, id, q); }
    forall x | 0 <= x < |t.homes| ensures HomeInv(t, x) { JoinKeepsHome(s, id, x); }
    JoinKeepsPromises(s, id);
  }

  lemma DeleteKeeps(s: Wait, q: nat)
    requires Inv(s) && Enabled(s, Delete(q))
    ensures Inv(Next(s, Delete(q)))
  {
    var t := Next(s, Delete(q));
    forall p | 0 <= p < |t.queues| ensures QueueInv(t, p) { assert QueueInv(s, p); }
    forall x | 0 <= x < |t.homes| ensures HomeInv(t, x) { assert HomeInv(s, x); }
  }

  lemma RunKeepsQueue(s: Wait, q: nat, p: nat)
    requires Inv(s) && Enabled(s, Run(q)) && p < |s.queues|
    ensures QueueInv(Next(s, Run(q)), p)
  {
    var n := s.queues[q].stage.next;
    var id := s.queues[q].callbacks[n];
    assert QueueInv(s, q) && QueueInv(s, p) && s.homes[id] == Queued(q);
    assert forall k :: 0 <= k < |s.queues[p].callbacks| && s.queues[p].callbacks[k] == id ==> p == q && k == n;
  }

  lemma RunKeepsHome(s: Wait, q: nat, x: nat)
    requires Inv(s) && Enabled(s, Run(q)) && x < |s.homes|
    ensures HomeInv(Next(s, Run(q)), x)
  {
    var t := Next(s, Run(q));
    var id := s.queues[q].callbacks[s.queues[q].stage.next];
    assert QueueInv(s, q) && HomeInv(s, x);
    if x == id {
      assert t.ran[|s.ran|] == id;
    } else if s.homes[x].Queued? {
      var queue := s.queues[s.homes[x].q];
      var k :| Done(queue) <= k < |queue.callbacks| && queue.callbacks[k] == x;
      assert t.queues[s.homes[x].q].callbacks[k] == x;
    } else if s.homes[x].Ran? {
      var k :| 0 <= k < |s.ran| && s.ran[k] == x;
      assert t.ran[k] == x;
    }
  }

  lemma RunKeeps(s: Wait, q: nat)
    requires Inv(s) && Enabled(s, Run(q))
    ensures Inv(Next(s, Run(q)))
  {
    var t := Next(s, Run(q));
    assert QueueInv(s, q);
    forall p | 0 <= p < |t.queues| ensures QueueInv(t, p) { RunKeepsQueue(s, q, p); }
    forall x | 0 <= x < |t.homes| ensures HomeInv(t, x) { RunKeepsHome(s, q, x); }
  }

  lemma SwapKeeps(s: Wait, st: Step)
    requires Inv(s) && Enabled(s, st) && (st.Swap? || st.AddNode?)
    ensures Inv(Next(s, st))
  {
    var t := Next(s, st);
    forall p | 0 <= p < |t.queues| ensures QueueInv(t, p) { assert QueueInv(s, p); }
    forall x | 0 <= x < |t.homes| ensures HomeInv(t, x) { assert HomeInv(s, x); }
  }

  lemma StepKeepsInv(s: Wait, st: Step)
    requires Inv(s) && Enabled(s, st)
    ensures Inv(Next(s, st))
  {
    match st {
      case Call(addr) => CallKeeps(s, addr);
      case Enqueue(id) => JoinKeeps(s, id);
      case Delete(q) => DeleteKeeps(s, q);
      case Run(q) => RunKeeps(s, q);
      case _ => SwapKeeps(s, st);
    }
  }

  lemma {:induction false} RunKeepsInv(s: Wait, steps: seq<Step>)
    requires Inv(s) && Legal(s, steps)
    ensures Inv(After(s, steps))
    decreases |steps|
  {
    if steps != [] {
      StepKeepsInv(s, steps[0]);
      RunKeepsInv(Next(s, steps[0]), steps[1..]);
    }
  }

  // ---------------------------------------------------------------- theorems

  /** No callback runs twice, and only callbacks that were passed run. */
  lemma CallbacksRunAtMostOnce(known: set<Addr>, steps: seq<Step>)
    requires Legal(Init(known), steps)
    ensures var s := After(Init(known), steps);
      Distinct(s.ran) && forall i :: 0 <= i < |s.ran| ==> s.ran[i] < |s.homes|
  {
    RunKeepsInv(Init(known), steps);
  }

  /** No call is before its lock, and every goroutine is through its queue. */
  predicate Quiet(s: Wait) {
    && (forall id :: 0 <= id < |s.homes| ==> !s.homes[id].Locking?)
    && (forall q :: 0 <= q < |s.queues| ==>
          s.queues[q].stage.Running? && s.queues[q].stage.next >= |s.queues[q].callbacks|)
  }

  /** When all is quiet, every callback has run exactly once, whatever maps were swapped meanwhile. */
  lemma CallbacksRunExactlyOnce(known: set<Addr>, steps: seq<Step>, id: nat)
    requires Legal(Init(known), steps) && Quiet(After(Init(known), steps)) && id < |After(Init(known), steps).homes|
    ensures multiset(After(Init(known), steps).ran)[id] == 1
  {
    RunKeepsInv(Init(known), steps);
    var s := After(Init(known), steps);
    assert HomeInv(s, id);
    assert s.homes[id].Ran?;
    DistinctCounts(s.ran, id);
  }

  lemma {:induction false} DistinctCounts(ids: seq<nat>, id: nat)
    requires Distinct(ids)
    ensures multiset(ids)[id] == if id in ids then 1 else 0
  {
    if ids != [] {
      var n := |ids| - 1;
      assert ids == ids[..n] + [ids[n]];
      DistinctCounts(ids[..n], id);
    }
  }

  /** Once a goroutine runs callbacks its queue no longer grows, so none is left behind. */
  lemma RunningQueueIsFixed(s: Wait, st: Step, q: nat)
    requires Inv(s) && Enabled(s, st) && q < |s.queues| && s.queues[q].stage.Running?
    ensures q < |Next(s, st).queues| && Next(s, st).queues[q].callbacks == s.queues[q].callbacks
  {
    if st.Enqueue? {
      var key := Key(s.gen, s.homes[st.id].addr);
      assert key in s.promises ==> s.promises[key] != q;
    }
  }

  /** After its promise is deleted and i of its callbacks have run, but for the histories. */
  function Served(s: Wait, q: nat, i: nat): Wait
    requires q < |s.queues| && i <= |s.queues[q].callbacks|
  {
    s.(promises := s.promises - {Key(s.queues[q].gen, s.queues[q].addr)},
       queues := s.queues[q := s.queues[q].(stage := Running(i))],
       ran := s.ran + s.queues[q].callbacks[..i])
  }

  lemma NothingServed(s: Wait, q: nat)
    requires q < |s.queues| && s.queues[q].stage.Connecting?
    ensures Next(s, Delete(q)) == Served(s, q, 0)
  {
    assert s.ran + s.queues[q].callbacks[..0] == s.ran;
  }

  lemma ServedOneMore(s: Wait, q: nat, i: nat, homes: seq<Home>)
    requires q < |s.queues| && i < |s.queues[q].callbacks|
    ensures var t := Served(s, q, i).(homes := homes);
      Enabled(t, Step.Run(q)) && Next(t, Step.Run(q)) == Served(s, q, i + 1).(homes := Next(t, Step.Run(q)).homes)
  {
    var callbacks := s.queues[q].callbacks;
    assert callbacks[..i + 1] == callbacks[..i] + [callbacks[i]];
    assert s.queues[q := s.queues[q].(stage := Running(i))][q := s.queues[q].(stage := Running(i + 1))]
        == s.queues[q := s.queues[q].(stage := Running(i + 1))];
  }

  lemma PromisesOfPast(s: Wait)
    requires Inv(s)
    ensures forall key :: key in s.promises ==> key.gen <= s.gen
  {
    forall key | key in s.promises ensures key.gen <= s.gen {
      assert QueueInv(s, s.promises[key]);
    }
  }

  // --------------------------------------------------------------- the object

  /** The part of Cluster these calls use; `homes` is the history of the model. */
  class Waiters {
    var known: set<Addr>
    var gen: nat
    var promises: map<Key, nat>
    var queues: seq<Queue>
    var ran: seq<nat>
    ghost var homes: seq<Home>

    ghost function View(): Wait
      reads this
    {
      Wait(known, gen, promises, queues, homes, ran)
    }

    ghost predicate Valid()
      reads this
    {
      Inv(View())
    }

    constructor (known: set<Addr>)
      ensures View() == Init(known) && Valid()
    {
      this.known, gen, promises, queues, ran, homes := known, 0, map[], [], [], [];
    }

    /** ensureConnForAddress before its lock: with a node for the address the callback `id` runs now. */
    method Look(addr: Addr, id: nat) returns (found: bool)
      requires Valid() && id == |homes|
      modifies this
      ensures Valid() && View() == Next(old(View()), Call(addr)) && found == (addr in known)
      ensures ran == old(ran) + (if found then [id] else []) && queues == old(queues)
    {
      CallKeeps(View(), addr);
      found := addr in known;
      if found {
        ran := ran + [id];
        homes := homes + [Ran];
      } else {
        homes := homes + [Locking(addr)];
      }
    }

    /** Its critical section; `started` tells that a goroutine is to be started. */
    method JoinQueue(addr: Addr, id: nat) returns (started: bool)
      requires Valid() && id < |homes| && homes[id] == Locking(addr)
      modifies this
      ensures Valid() && View() == Next(old(View()), Enqueue(id))
      ensures started <==> Key(gen, addr) !in old(promises)
      ensures ran == old(ran) && Key(gen, addr) in promises && promises[Key(gen, addr)] < |queues|
      ensures var callbacks := queues[promises[Key(gen, addr)]].callbacks;
        if started then callbacks == [id] else callbacks == old(queues)[promises[Key(gen, addr)]].callbacks + [id]
    {
      JoinKeeps(View(), id);
      var key := Key(gen, addr);
      if key in promises {
        var q := promises[key];
        queues := queues[q := queues[q].(callbacks := queues[q].callbacks + [id])];
        homes := homes[id := Queued(q)];
        return false;
      }
      promises := promises[key := |queues|];
      homes := homes[id := Queued(|queues|)];
      queues := queues + [Queue(gen, addr, [id], Connecting)];
      return true;
    }

    /** The goroutine once it has its node: the promise is deleted from the map it captured, then the
        callbacks run, each once and in the order of the calls. */
    method Serve(q: nat)
      requires Valid() && q < |queues| && queues[q].stage.Connecting?
      modifies this
      ensures Valid() && View() == Served(old(View()), q, |old(queues)[q].callbacks|).(homes := homes)
      ensures ran == old(ran) + old(queues)[q].callbacks
      ensures promises == old(promises) - {Key(old(queues)[q].gen, old(queues)[q].addr)}
    {
      ghost var before := View();
      DeleteKeeps(before, q);
      promises := promises - {Key(queues[q].gen, queues[q].addr)};
      queues := queues[q := queues[q].(stage := Running(0))];
      var callbacks := queues[q].callbacks;
      NothingServed(before, q);
      for i := 0 to |callbacks|
        invariant Valid() && View() == Served(before, q, i).(homes := homes)
      {
        ServedOneMore(before, q, i, homes);
        RunOne(q, callbacks[i]);
      }
    }

    /** cb(conn, err) */
    method RunOne(q: nat, id: nat)
      requires Valid() && Enabled(View(), Step.Run(q)) && queues[q].callbacks[queues[q].stage.next] == id
      modifies this
      ensures Valid() && View() == Next(old(View()), Step.Run(q))
    {
      RunKeeps(View(), q);
      assert QueueInv(View(), q);
      queues := queues[q := queues[q].(stage := Running(queues[q].stage.next + 1))];
      homes := homes[id := Ran];
      ran := ran + [id];
    }

    /** updateMappings: new nodes and an empty map of promises. */
    method ReplacePromises(nodes: set<Addr>)
      requires Valid()
      modifies this
      ensures Valid() && View() == Next(old(View()), Swap(nodes))
      ensures known == nodes && queues == old(queues) && ran == old(ran) && promises == old(promises)
      ensures forall key :: key in promises ==> key.gen < gen
    {
      SwapKeeps(View(), Swap(nodes));
      PromisesOfPast(View());
      known, gen := nodes, gen + 1;
    }
  }
}
