/** Reference counting of nodes across configuration generations: rediscluster/slotrange.go and
    addNode of rediscluster/mapping.go. */
module Nodes {

  /** `serial` tells apart nodes made for one address at different times. */
  datatype Node = Node(addr: string, serial: nat)

  type NodeMap = map<string, Node>

  /** The current and previous node maps, what is left of the maps whose delayed release is pending, and
      the counts. */
  datatype Registry = Registry(
    current: NodeMap, prev: NodeMap, pending: seq<NodeMap>,
    refcnt: map<Node, nat>, closed: set<Node>, serial: nat)

  // ------------------------------------------------------------------ steps

  /** The node updateMappings installs for an address: the current one, the previous one, or a new one. */
  function NodeFor(r: Registry, addr: string): Node {
    if addr in r.current then r.current[addr]
    else if addr in r.prev then r.prev[addr]
    else Node(addr, r.serial)
  }

  function Reloaded(r: Registry, addrs: set<string>): NodeMap {
    map a | a in addrs :: NodeFor(r, a)
  }

  /** One more holder for every node of `held`, some of which may be new. */
  function Retain(refcnt: map<Node, nat>, held: set<Node>): map<Node, nat> {
    map n | n in refcnt.Keys + held ::
      (if n in refcnt then refcnt[n] else 0) + (if n in held then 1 else 0)
  }

  function Reload(r: Registry, addrs: set<string>): Registry {
    var nodes := Reloaded(r, addrs);
    Registry(nodes, r.current, r.pending + [r.prev], Retain(r.refcnt, nodes.Values), r.closed, r.serial + 1)
  }

  function AddNode(r: Registry, addr: string): Registry {
    if addr in r.current then r
    else
      var node := if addr in r.prev then r.prev[addr] else Node(addr, r.serial);
      r.(current := r.current[addr := node], refcnt := Retain(r.refcnt, {node}), serial := r.serial + 1)
  }

  /** atomic.AddUint32(&refcnt, ^uint32(0)) */
  function Decrement(count: nat): nat {
    if count == 0 then 0xffff_ffff else count - 1
  }

  /** One turn of the delayed release of the map `pending[i]`: one holder less, close at zero. A map is
      released node by node, outside the cluster's mutex, so other steps may come between. */
  function Release(r: Registry, i: nat, addr: string): Registry
    requires i < |r.pending| && addr in r.pending[i]
  {
    var node := r.pending[i][addr];
    var count := Decrement(if node in r.refcnt then r.refcnt[node] else 0);
    r.(pending := r.pending[i := r.pending[i] - {addr}],
       refcnt := r.refcnt[node := count],
       closed := if count == 0 then r.closed + {node} else r.closed)
  }

  datatype Step = DoReload(addrs: set<string>) | DoAdd(addr: string) | DoRelease(i: nat, addr: string)

  predicate Enabled(r: Registry, st: Step) {
    st.DoRelease? ==> st.i < |r.pending| && st.addr in r.pending[st.i]
  }

  // -------------------------------------------------------------- invariant

  function Has(m: NodeMap, n: Node): nat {
    if n in m.Values then 1 else 0
  }

  function HeldBy(ms: seq<NodeMap>, n: Node): nat {
    if ms == [] then 0 else Has(ms[0], n) + HeldBy(ms[1..], n)
  }

  /** The number of generations that hold the node. */
  function Holders(r: Registry, n: Node): nat {
    Has(r.current, n) + Has(r.prev, n) + HeldBy(r.pending, n)
  }

  predicate WellKeyed(m: NodeMap, refcnt: map<Node, nat>) {
    (forall a :: a in m ==> m[a].addr == a) && m.Values <= refcnt.Keys
  }

  /** Two maps never have different nodes for one address. */
  predicate Agree(a: NodeMap, b: NodeMap) {
    forall x :: x in a && x in b ==> a[x] == b[x]
  }

  ghost predicate Inv(r: Registry) {
    && WellKeyed(r.current, r.refcnt)
    && WellKeyed(r.prev, r.refcnt)
    && (forall i :: 0 <= i < |r.pending| ==> WellKeyed(r.pending[i], r.refcnt))
    && (forall n :: n in r.refcnt ==> r.refcnt[n] == Holders(r, n) && n.serial < r.serial)
    && (forall n :: n in r.closed <==> n in r.refcnt && r.refcnt[n] == 0)
    && Agree(r.current, r.prev)
  }

  lemma {:induction false} HeldAppend(ms: seq<NodeMap>, m: NodeMap, n: Node)
    ensures HeldBy(ms + [m], n) == HeldBy(ms, n) + Has(m, n)
  {
    if ms == [] {
      assert ms + [m] == [m];
      assert HeldBy([m], n) == Has(m, n) + HeldBy([], n);
    } else {
      assert (ms + [m])[1..] == ms[1..] + [m];
      HeldAppend(ms[1..], m, n);
    }
  }

  lemma {:induction false} HeldUpdate(ms: seq<NodeMap>, i: nat, m: NodeMap, n: Node)
    requires i < |ms|
    ensures HeldBy(ms[i := m], n) == HeldBy(ms, n) - Has(ms[i], n) + Has(m, n)
    ensures HeldBy(ms, n) >= Has(ms[i], n)
  {
    if i == 0 {
      assert ms[i := m][1..] == ms[1..];
    } else {
      assert ms[i := m][1..] == ms[1..][i - 1 := m];
      HeldUpdate(ms[1..], i - 1, m, n);
    }
  }

  lemma {:induction false} HeldNone(ms: seq<NodeMap>, n: Node)
    requires forall i :: 0 <= i < |ms| ==> n !in ms[i].Values
    ensures HeldBy(ms, n) == 0
  {
    if ms != [] { HeldNone(ms[1..], n); }
  }

  /** A node that was never counted is held nowhere. */
  lemma UnknownUnheld(r: Registry, n: Node)
    requires Inv(r) && n !in r.refcnt
    ensures Holders(r, n) == 0
  {
    HeldNone(r.pending, n);
  }

  lemma ReloadedKeys(r: Registry, addrs: set<string>)
    requires Inv(r)
    ensures var m := Reloaded(r, addrs);
      && (forall a :: a in m ==> m[a].addr == a)
      && (forall n :: n in m.Values ==> n.serial <= r.serial)
      && Agree(m, r.current)
  {
    var m := Reloaded(r, addrs);
    forall a | a in m ensures m[a].addr == a && m[a].serial <= r.serial {
      if a in r.current { assert r.current[a] in r.current.Values; }
      else if a in r.prev { assert r.prev[a] in r.prev.Values; }
    }
  }

  lemma ReloadCount(r: Registry, addrs: set<string>, n: Node)
    requires Inv(r) && n in Reload(r, addrs).refcnt
    ensures Reload(r, addrs).refcnt[n] == Holders(Reload(r, addrs), n)
  {
    HeldAppend(r.pending, r.prev, n);
    if n !in r.refcnt { UnknownUnheld(r, n); }
  }

  lemma RetainKeeps(m: NodeMap, refcnt: map<Node, nat>, held: set<Node>)
    requires WellKeyed(m, refcnt)
    ensures WellKeyed(m, Retain(refcnt, held))
  {}

  lemma ReloadKeepsInv(r: Registry, addrs: set<string>)
    requires Inv(r)
    ensures Inv(Reload(r, addrs))
  {
    var t := Reload(r, addrs);
    var held := Reloaded(r, addrs).Values;
    ReloadedKeys(r, addrs);
    RetainKeeps(r.current, r.refcnt, held);
    RetainKeeps(r.prev, r.refcnt, held);
    forall i | 0 <= i < |r.pending| ensures WellKeyed(r.pending[i], t.refcnt) {
      RetainKeeps(r.pending[i], r.refcnt, held);
    }
    forall n | n in t.refcnt ensures t.refcnt[n] == Holders(t, n) { ReloadCount(r, addrs, n); }
    forall n | n in r.closed ensures n !in held { ReloadSkipsClosed(r, addrs, n); }
  }

  /** A closed node is in no map that a lookup reads, so it is never installed again. */
  lemma ReloadSkipsClosed(r: Registry, addrs: set<string>, n: Node)
    requires Inv(r) && n in r.closed
    ensures n !in Reloaded(r, addrs).Values
  {
    assert n !in r.current.Values && n !in r.prev.Values;
    assert n.serial < r.serial;
    forall a | a in addrs ensures NodeFor(r, a) != n {
      if a in r.current { assert r.current[a] in r.current.Values; }
      else if a in r.prev { assert r.prev[a] in r.prev.Values; }
    }
  }

  /** The node addNode puts in. */
  function Added(r: Registry, addr: string): Node {
    if addr in r.prev then r.prev[addr] else Node(addr, r.serial)
  }

  lemma AddedKnown(r: Registry, addr: string)
    requires Inv(r)
    ensures Added(r, addr).addr == addr
    ensures Added(r, addr) in r.prev.Values || Added(r, addr).serial == r.serial
    ensures Added(r, addr).serial <= r.serial
  {
    if addr in r.prev { assert r.prev[addr] in r.prev.Values; }
  }

  lemma AddPlaces(r: Registry, addr: string)
    requires Inv(r) && addr !in r.current
    ensures var t := AddNode(r, addr);
      && WellKeyed(t.current, t.refcnt) && WellKeyed(t.prev, t.refcnt)
      && (forall i :: 0 <= i < |t.pending| ==> WellKeyed(t.pending[i], t.refcnt))
      && Agree(t.current, t.prev)
  {
    var node := Added(r, addr);
    AddedKnown(r, addr);
    AddedValues(r, addr, node);
    RetainKeeps(r.current, r.refcnt, {node});
    RetainKeeps(r.prev, r.refcnt, {node});
    forall i | 0 <= i < |r.pending| ensures WellKeyed(r.pending[i], Retain(r.refcnt, {node})) {
      RetainKeeps(r.pending[i], r.refcnt, {node});
    }
  }

  lemma AddKeepsInv(r: Registry, addr: string)
    requires Inv(r)
    ensures Inv(AddNode(r, addr))
  {
    if addr !in r.current {
      var t := AddNode(r, addr);
      AddPlaces(r, addr);
      AddedKnown(r, addr);
      AddedOpen(r, Added(r, addr));
      assert t.refcnt == Retain(r.refcnt, {Added(r, addr)});
      forall n | n in t.refcnt ensures t.refcnt[n] == Holders(t, n) && n.serial < t.serial { AddCount(r, addr, n); }
    }
  }

  /** A node found in the previous map, or made just now, is not closed. */
  lemma AddedOpen(r: Registry, node: Node)
    requires Inv(r) && (node in r.prev.Values || node.serial == r.serial)
    ensures node !in r.closed
    ensures forall n :: n in r.closed ==> Retain(r.refcnt, {node})[n] == 0
    ensures forall n :: n in Retain(r.refcnt, {node}) && Retain(r.refcnt, {node})[n] == 0 ==> n in r.closed
  {}

  lemma AddCount(r: Registry, addr: string, n: Node)
    requires Inv(r) && addr !in r.current && n in AddNode(r, addr).refcnt
    ensures AddNode(r, addr).refcnt[n] == Holders(AddNode(r, addr), n)
  {
    var node := AddNode(r, addr).current[addr];
    assert addr in r.prev ==> node in r.prev.Values;
    AddedValues(r, addr, node);
    if n !in r.refcnt { UnknownUnheld(r, n); }
  }

  lemma AddedValues(r: Registry, addr: string, node: Node)
    requires WellKeyed(r.current, r.refcnt) && addr !in r.current && node.addr == addr
    ensures r.current[addr := node].Values == r.current.Values + {node}
    ensures node !in r.current.Values
  {
    NewKeyValues(r.current, addr, node);
  }

  /** Taking an address out of a map takes out its node and no other. */
  lemma WithoutAddress(m: NodeMap, refcnt: map<Node, nat>, addr: string)
    requires WellKeyed(m, refcnt) && addr in m
    ensures m[addr] in m.Values && m[addr] in refcnt
    ensures (m - {addr}).Values == m.Values - {m[addr]}
  {
    var w := m - {addr};
    assert m[addr] in m.Values;
    forall n | n in m.Values && n != m[addr] ensures n in w.Values {
      var a :| a in m && m[a] == n;
      assert w[a] == n;
    }
    forall a | a in w ensures w[a] != m[addr] { assert m[a].addr == a; }
  }

  lemma ReleaseReady(r: Registry, i: nat, addr: string)
    requires Inv(r) && i < |r.pending| && addr in r.pending[i]
    ensures r.pending[i][addr] in r.refcnt && r.refcnt[r.pending[i][addr]] > 0
  {
    WithoutAddress(r.pending[i], r.refcnt, addr);
    HeldUpdate(r.pending, i, map[], r.pending[i][addr]);
  }

  lemma ReleaseCount(r: Registry, i: nat, addr: string, n: Node)
    requires Inv(r) && i < |r.pending| && addr in r.pending[i] && n in r.refcnt
    ensures Release(r, i, addr).refcnt[n] == Holders(Release(r, i, addr), n)
  {
    ReleaseReady(r, i, addr);
    WithoutAddress(r.pending[i], r.refcnt, addr);
    HeldUpdate(r.pending, i, r.pending[i] - {addr}, n);
  }

  lemma ReleaseKeepsInv(r: Registry, i: nat, addr: string)
    requires Inv(r) && i < |r.pending| && addr in r.pending[i]
    ensures Inv(Release(r, i, addr))
  {
    var t := Release(r, i, addr);
    ReleaseReady(r, i, addr);
    WithoutAddress(r.pending[i], r.refcnt, addr);
    assert t.refcnt.Keys == r.refcnt.Keys;
    forall n | n in t.refcnt ensures t.refcnt[n] == Holders(t, n) {
      ReleaseCount(r, i, addr, n);
    }
  }

  // ------------------------------------------------------------------- runs

  function Next(r: Registry, st: Step): Registry
    requires Enabled(r, st)
  {
    match st
    case DoReload(addrs) => Reload(r, addrs)
    case DoAdd(addr) => AddNode(r, addr)
    case DoRelease(i, addr) => Release(r, i, addr)
  }

  predicate Legal(r: Registry, steps: seq<Step>)
    decreases |steps|
  {
    steps != [] ==> Enabled(r, steps[0]) && Legal(Next(r, steps[0]), steps[1..])
  }

  function After(r: Registry, steps: seq<Step>): Registry
    requires Legal(r, steps)
    decreases |steps|
  {
    if steps == [] then r else After(Next(r, steps[0]), steps[1..])
  }

  /** What NewCluster starts from: one node for each initial address. */
  function Start(addrs: set<string>): Registry {
    var nodes := map a | a in addrs :: Node(a, 0);
    Registry(nodes, map[], [], map n | n in nodes.Values :: 1, {}, 1)
  }

  lemma StartInv(addrs: set<string>)
    ensures Inv(Start(addrs))
  {}

  lemma {:induction false} RunKeepsInv(r: Registry, steps: seq<Step>)
    requires Inv(r) && Legal(r, steps)
    ensures Inv(After(r, steps))
    decreases |steps|
  {
    if steps != [] {
      match steps[0] {
        case DoReload(addrs) => ReloadKeepsInv(r, addrs);
        case DoAdd(addr) => AddKeepsInv(r, addr);
        case DoRelease(i, addr) => ReleaseKeepsInv(r, i, addr);
      }
      RunKeepsInv(Next(r, steps[0]), steps[1..]);
    }
  }

  /** After any run of reloads, additions and delayed releases each count is the number of generations
      holding the node; nodes are closed exactly when none does; so none of the current or previous map
      is closed; and those two maps agree. */
  lemma CountsAreHolders(addrs: set<string>, steps: seq<Step>, n: Node)
    requires Legal(Start(addrs), steps)
    ensures var r := After(Start(addrs), steps);
      && (n in r.refcnt ==> r.refcnt[n] == Holders(r, n))
      && (n in r.closed <==> n in r.refcnt && Holders(r, n) == 0)
      && (n in r.current.Values || n in r.prev.Values ==> n in r.refcnt && n !in r.closed)
      && Agree(r.current, r.prev)
  {
    StartInv(addrs);
    RunKeepsInv(Start(addrs), steps);
  }

  /** Releasing never finds a count at zero: the uint32 decrement cannot wrap, in any order of timers. */
  lemma ReleaseNeverUnderflows(addrs: set<string>, steps: seq<Step>, i: nat, addr: string)
    requires Legal(Start(addrs), steps) && i < |After(Start(addrs), steps).pending|
    requires addr in After(Start(addrs), steps).pending[i]
    ensures var r := After(Start(addrs), steps);
      r.pending[i][addr] in r.refcnt && r.refcnt[r.pending[i][addr]] > 0
  {
    StartInv(addrs);
    RunKeepsInv(Start(addrs), steps);
    ReleaseReady(After(Start(addrs), steps), i, addr);
  }

  // ------------------------------------------------------------ who gets what

  /** The node an address gets: its own one if the current or, failing that, the previous map has one, and
      otherwise one that was never counted before. */
  predicate GetsNode(r: Registry, addr: string, node: Node) {
    && node.addr == addr
    && (addr in r.current ==> node == r.current[addr])
    && (addr !in r.current && addr in r.prev ==> node == r.prev[addr])
    && (addr !in r.current && addr !in r.prev ==> node !in r.refcnt)
  }

  lemma ReloadGets(r: Registry, addrs: set<string>)
    requires Inv(r)
    ensures Reloaded(r, addrs).Keys == addrs
    ensures forall a :: a in addrs ==> GetsNode(r, a, Reloaded(r, addrs)[a])
  {
    forall a | a in addrs ensures GetsNode(r, a, Reloaded(r, addrs)[a]) { NodeForKnown(r, a); }
  }

  lemma AddGets(r: Registry, addr: string)
    requires Inv(r)
    ensures var m := AddNode(r, addr).current;
      && m.Keys == r.current.Keys + {addr} && GetsNode(r, addr, m[addr])
      && forall a :: a in r.current && a != addr ==> m[a] == r.current[a]
  {
    NodeForKnown(r, addr);
  }

  // ---------------------------------------------------- the code's own form

  lemma NewKeyValues(m: NodeMap, addr: string, node: Node)
    requires addr !in m
    ensures m[addr := node].Values == m.Values + {node}
  {
    var w := m[addr := node];
    forall n | n in m.Values ensures n in w.Values {
      var a :| a in m && m[a] == n;
      assert w[a] == n;
    }
    assert w[addr] == node;
  }

  lemma ReloadedOneMore(r: Registry, done: set<string>, addr: string)
    requires addr !in done
    ensures Reloaded(r, done)[addr := NodeFor(r, addr)] == Reloaded(r, done + {addr})
  {}

  lemma NodeForKnown(r: Registry, addr: string)
    requires Inv(r)
    ensures NodeFor(r, addr).addr == addr
    ensures NodeFor(r, addr) in r.refcnt <==> addr in r.current || addr in r.prev
  {
    if addr in r.current { assert r.current[addr] in r.current.Values; }
    else if addr in r.prev { assert r.prev[addr] in r.prev.Values; }
  }

  lemma ReloadedStep(r: Registry, done: set<string>, addr: string)
    requires Inv(r) && addr !in done
    ensures var m := Reloaded(r, done); var node := NodeFor(r, addr);
      && m[addr := node] == Reloaded(r, done + {addr})
      && m[addr := node].Values == m.Values + {node}
      && node !in m.Values
      && (addr in r.current || addr in r.prev ==> node in r.refcnt)
      && (addr !in r.current && addr !in r.prev ==> node !in r.refcnt)
  {
    ReloadedKeys(r, done);
    ReloadedOneMore(r, done, addr);
    NewKeyValues(Reloaded(r, done), addr, NodeFor(r, addr));
    NodeForKnown(r, addr);
  }

  /** atomic.AddUint32(&node.refcnt, 1), or 1 for a new node. */
  method Bump(refcnt: map<Node, nat>, node: Node) returns (counts: map<Node, nat>)
    ensures counts == Retain(refcnt, {node})
  {
    if node in refcnt {
      counts := refcnt[node := refcnt[node] + 1];
    } else {
      counts := refcnt[node := 1];
    }
  }

  lemma RetainOneMore(refcnt: map<Node, nat>, held: set<Node>, node: Node)
    requires node !in held
    ensures Retain(Retain(refcnt, held), {node}) == Retain(refcnt, held + {node})
  {}

  /** One turn of the loop below. */
  method InstallNode(r: Registry, nodes: NodeMap, counts: map<Node, nat>, addr: string, ghost done: set<string>)
    returns (nodes': NodeMap, counts': map<Node, nat>)
    requires Inv(r) && addr !in done
    requires nodes == Reloaded(r, done) && counts == Retain(r.refcnt, nodes.Values)
    ensures nodes' == Reloaded(r, done + {addr}) && counts' == Retain(r.refcnt, nodes'.Values)
  {
    ReloadedStep(r, done, addr);
    var node: Node;
    if addr in r.current {
      node := r.current[addr];
    } else if addr in r.prev {
      node := r.prev[addr];
    } else {
      node := Node(addr, r.serial);
    }
    RetainOneMore(r.refcnt, nodes.Values, node);
    counts' := Bump(counts, node);
    nodes' := nodes[addr := node];
  }

  /** The loop of updateMappings over the addresses of the new configuration. */
  method GatherNodes(r: Registry, addrs: set<string>) returns (nodes: NodeMap, counts: map<Node, nat>)
    requires Inv(r)
    ensures nodes == Reloaded(r, addrs) && counts == Retain(r.refcnt, nodes.Values)
  {
    nodes, counts := map[], r.refcnt;
    var left := addrs;
    while left != {}
      invariant left <= addrs
      invariant nodes == Reloaded(r, addrs - left) && counts == Retain(r.refcnt, nodes.Values)
      decreases left
    {
      var addr :| addr in left;
      nodes, counts := InstallNode(r, nodes, counts, addr, addrs - left);
      assert addrs - (left - {addr}) == (addrs - left) + {addr};
      left := left - {addr};
    }
    assert addrs - {} == addrs;
  }

  function Lowered(refcnt: map<Node, nat>, released: set<Node>): map<Node, nat> {
    map n | n in refcnt :: if n in released then Decrement(refcnt[n]) else refcnt[n]
  }

  function NewlyClosed(refcnt: map<Node, nat>, released: set<Node>): set<Node> {
    set n | n in released && n in refcnt && Decrement(refcnt[n]) == 0
  }

  lemma LowerOneMore(refcnt: map<Node, nat>, done: set<Node>, node: Node)
    requires node !in done && node in refcnt
    ensures Lowered(refcnt, done)[node] == refcnt[node]
    ensures Lowered(refcnt, done + {node}) == Lowered(refcnt, done)[node := Decrement(refcnt[node])]
    ensures NewlyClosed(refcnt, done + {node})
            == NewlyClosed(refcnt, done) + if Decrement(refcnt[node]) == 0 then {node} else {}
  {}

  /** What the whole delayed release of the map `pending[i]` comes to. */
  function Released(r: Registry, i: nat): Registry
    requires i < |r.pending|
  {
    var nodes := r.pending[i].Values;
    r.(pending := r.pending[i := map[]], refcnt := Lowered(r.refcnt, nodes),
        closed := r.closed + NewlyClosed(r.refcnt, nodes))
  }

  /** From `before` to `now` the nodes `done` of the map were released. */
  ghost predicate Partly(before: Registry, now: Registry, i: nat, done: set<Node>) {
    && i < |before.pending| && i < |now.pending|
    && now == before.(pending := before.pending[i := now.pending[i]], refcnt := Lowered(before.refcnt, done),
                      closed := before.closed + NewlyClosed(before.refcnt, done))
    && done !! now.pending[i].Values && done + now.pending[i].Values == before.pending[i].Values
  }

  lemma NothingReleased(r: Registry, i: nat)
    requires i < |r.pending|
    ensures Partly(r, r, i, {})
  {
    assert Lowered(r.refcnt, {}) == r.refcnt && NewlyClosed(r.refcnt, {}) == {};
  }

  lemma FewerLeft(m: NodeMap, addr: string)
    requires addr in m
    ensures |m - {addr}| < |m|
  {
    var w := m - {addr};
    assert w.Keys == m.Keys - {addr};
    assert |w| == |w.Keys| && |m| == |m.Keys|;
  }

  lemma NodesOneMore(all: set<Node>, left: set<Node>, done: set<Node>, node: Node)
    requires done !! left && done + left == all && node in left
    ensures (done + {node}) !! (left - {node}) && (done + {node}) + (left - {node}) == all
    ensures node !in done
  {}

  lemma PendingOneMore(before: seq<NodeMap>, now: seq<NodeMap>, i: nat, m: NodeMap)
    requires i < |before| && i < |now| && now == before[i := now[i]]
    ensures now[i := m] == before[i := m]
  {}

  lemma ReleasedOneMore(before: Registry, now: Registry, i: nat, addr: string, done: set<Node>, node: Node)
    requires i < |now.pending| && addr in now.pending[i] && node == now.pending[i][addr]
    requires node !in done && node in before.refcnt
    requires now.refcnt == Lowered(before.refcnt, done)
             && now.closed == before.closed + NewlyClosed(before.refcnt, done)
    ensures Release(now, i, addr).refcnt == Lowered(before.refcnt, done + {node})
    ensures Release(now, i, addr).closed == before.closed + NewlyClosed(before.refcnt, done + {node})
  {
    LowerOneMore(before.refcnt, done, node);
  }

  lemma PartlyOneMore(before: Registry, now: Registry, i: nat, addr: string, done: set<Node>)
    requires Inv(now) && Partly(before, now, i, done) && addr in now.pending[i]
    ensures Partly(before, Release(now, i, addr), i, done + {now.pending[i][addr]})
    ensures |now.pending[i] - {addr}| < |now.pending[i]|
  {
    var node := now.pending[i][addr];
    var rest := now.pending[i] - {addr};
    WithoutAddress(now.pending[i], now.refcnt, addr);
    NodesOneMore(before.pending[i].Values, now.pending[i].Values, done, node);
    PendingOneMore(before.pending, now.pending, i, rest);
    ReleasedOneMore(before, now, i, addr, done, node);
    FewerLeft(now.pending[i], addr);
    var t := Release(now, i, addr);
    assert t.pending[i] == rest;
    assert t == before.(pending := t.pending, refcnt := t.refcnt, closed := t.closed);
  }

  lemma AllReleased(before: Registry, now: Registry, i: nat, done: set<Node>)
    requires Partly(before, now, i, done) && now.pending[i] == map[]
    ensures now == Released(before, i)
  {
    assert done == before.pending[i].Values;
  }

  class NodeRegistry {
    var current: NodeMap
    var prev: NodeMap
    var pending: seq<NodeMap>
    var refcnt: map<Node, nat>
    var closed: set<Node>
    var serial: nat

    function View(): Registry
      reads this
    {
      Registry(current, prev, pending, refcnt, closed, serial)
    }

    ghost predicate Valid()
      reads this
    {
      Inv(View())
    }

    constructor (addrs: set<string>)
      ensures Valid() && View() == Start(addrs)
    {
      var nodes := map a | a in addrs :: Node(a, 0);
      current, prev, pending := nodes, map[], [];
      refcnt := map n | n in nodes.Values :: 1;
      closed, serial := {}, 1;
      new;
      StartInv(addrs);
    }

    /** The node part of updateMappings. */
    method UpdateNodes(addrs: set<string>)
      requires Valid()
      modifies this
      ensures Valid() && View() == Reload(old(View()), addrs)
      ensures current.Keys == addrs && forall a :: a in addrs ==> GetsNode(old(View()), a, current[a])
      ensures prev == old(current) && pending == old(pending) + [old(prev)]
    {
      ReloadKeepsInv(View(), addrs);
      ReloadGets(View(), addrs);
      var nodes, counts := GatherNodes(View(), addrs);
      pending := pending + [prev];
      prev := current;
      current, refcnt, serial := nodes, counts, serial + 1;
    }

    method AddAddress(addr: string)
      requires Valid()
      modifies this
      ensures Valid() && View() == AddNode(old(View()), addr)
      ensures current.Keys == old(current).Keys + {addr} && GetsNode(old(View()), addr, current[addr])
      ensures forall a :: a in old(current) && a != addr ==> current[a] == old(current)[a]
      ensures prev == old(prev) && pending == old(pending)
    {
      ghost var before := View();
      if addr !in current {
        var node := Added(View(), addr);
        var counts := Bump(refcnt, node);
        current := current[addr := node];
        refcnt, serial := counts, serial + 1;
      }
      assert View() == AddNode(before, addr);
      AddKeepsInv(before, addr);
      AddGets(before, addr);
    }

    /** One turn of the delayed loop: the atomic decrement, and the close at zero. */
    method ReleaseNode(i: nat, addr: string)
      requires Valid() && i < |pending| && addr in pending[i]
      modifies this
      ensures Valid() && View() == Release(old(View()), i, addr)
    {
      ReleaseKeepsInv(View(), i, addr);
      ReleaseReady(View(), i, addr);
      ghost var next := Release(View(), i, addr);
      var node := pending[i][addr];
      refcnt := refcnt[node := Decrement(refcnt[node])];
      pending := pending[i := pending[i] - {addr}];
      if refcnt[node] == 0 {
        closed := closed + {node};
      }
      assert View() == next;
    }

    /** The loop run by time.AfterFunc over an old node map, when nothing comes between. */
    method ReleaseOld(i: nat)
      requires Valid() && i < |pending|
      modifies this
      ensures Valid() && View() == Released(old(View()), i)
    {
      ghost var before := View();
      ghost var done: set<Node> := {};
      NothingReleased(before, i);
      while pending[i] != map[]
        invariant Valid() && Partly(before, View(), i, done)
        decreases |pending[i]|
      {
        var addr :| addr in pending[i];
        PartlyOneMore(before, View(), i, addr, done);
        done := done + {pending[i][addr]};
        ReleaseNode(i, addr);
      }
      AllReleased(before, View(), i, done);
    }
  }
}
