/** Connection selection of rediscluster/mapping.go on a snapshot of connection health. */
module Selection {
  import opened Errors
  import opened Bits
  import opened Rng
  import Retry

  type ConnId = Retry.ConnId

  datatype HostPolicy = PreferFirst | RoundRobin
  datatype Liveness = NeedConnected | MayBeConnected | PreferConnected

  /** Which connections are connected, and which are connecting, at the moment. */
  datatype Health = Health(connected: set<ConnId>, connecting: set<ConnId>)

  /** connHealthy */
  predicate Healthy(h: Health, liveness: Liveness, c: ConnId) {
    c in h.connected || (!liveness.NeedConnected? && c in h.connecting)
  }

  predicate Usable(h: Health, liveness: Liveness, seen: seq<ConnId>, c: ConnId) {
    c !in seen && Healthy(h, liveness, c)
  }

  // ------------------------------------------------------------------- node

  class Node {
    var rr: nat
    const conns: seq<ConnId>

    constructor (conns: seq<ConnId>)
      ensures this.conns == conns && rr == 0
    {
      this.conns := conns;
      rr := 0;
    }

    /** The connections getConn looks at: a round-robin scan keeps them in a 32-bit mask. */
    function Considered(policy: HostPolicy): seq<ConnId> {
      if policy.PreferFirst? || |conns| <= 32 then conns else conns[..32]
    }

    /** getConnConcreteNeed with ConnHostPreferFirst: the first usable connection. */
    method FirstUsable(liveness: Liveness, h: Health, seen: seq<ConnId>) returns (conn: Option<ConnId>)
      ensures conn.Some? ==>
                exists i :: 0 <= i < |conns| && conns[i] == conn.value && Usable(h, liveness, seen, conns[i])
                            && forall j :: 0 <= j < i ==> !Usable(h, liveness, seen, conns[j])
      ensures conn.None? ==> forall c :: c in conns ==> !Usable(h, liveness, seen, c)
    {
      for i := 0 to |conns|
        invariant forall j :: 0 <= j < i ==> !Usable(h, liveness, seen, conns[j])
      {
        var c := conns[i];
        if c in seen {
          continue;
        }
        if Healthy(h, liveness, c) {
          return Some(c);
        }
      }
      return None;
    }

    /** Connection `k` is the one that is used, if it is considered and can be used. */
    ghost predicate TurnOf(k: nat, liveness: Liveness, h: Health, seen: seq<ConnId>, conn: Option<ConnId>) {
      k < |Considered(RoundRobin)| && Usable(h, liveness, seen, conns[k]) ==> conn == Some(conns[k])
    }

    /** getConnConcreteNeed with ConnHostRoundRobin. The loop ends because the generator visits every
        residue; it finds a usable connection among the considered ones if there is any. */
    method RoundRobinUsable(liveness: Liveness, h: Health, seen: seq<ConnId>) returns (conn: Option<ConnId>)
      requires |conns| < 0x1_0000_0000
      modifies this`rr
      ensures conn.Some? ==> conn.value in Considered(RoundRobin) && Usable(h, liveness, seen, conn.value)
      ensures conn.None? ==> forall c :: c in Considered(RoundRobin) ==> !Usable(h, liveness, seen, c)
      ensures rr == (old(rr) + 1) % 0x1_0000_0000
      ensures |conns| > 0 ==> TurnOf(Residue(rr, |conns|), liveness, h, seen, conn)
    {
      rr := (rr + 1) % 0x1_0000_0000;
      var off := rr;
      ghost var start := rr;
      var l := |conns|;
      var mask := LowMask32(l);
      LowBits(l);
      ghost var turn := if l > 0 then Residue(off, l) else 0;
      ghost var target, dist := 0, 0;
      if mask != 0 {
        target, dist := NextConn(l, mask, off);
      }
      while mask != 0
        invariant rr == start && off < 0x1_0000_0000
        invariant forall k: nat :: Bit(mask, k) ==> k < l && k < 32
        invariant forall k :: 0 <= k < |Considered(RoundRobin)| && !Bit(mask, k) ==>
                    !Usable(h, liveness, seen, conns[k])
        invariant mask != 0 ==> Bit(mask, target) && Residue(Iterate(dist, off), l) == target
        invariant (off == start && mask == LowMask32(l)) || !Bit(mask, turn)
        decreases mask, dist
      {
        var k := Residue(off, l);
        if !Bit(mask, k) {
          IterateFirst(dist, off);
          dist := dist - 1;
          off := NextState(off);
          continue;
        }
        off := NextState(off);
        ClearBits(mask, k);
        mask := Clear(mask, k);
        if conns[k] !in seen && Healthy(h, liveness, conns[k]) {
          return Some(conns[k]);
        }
        if mask != 0 {
          target, dist := NextConn(l, mask, off);
        }
      }
      NoBitsLeft();
      return None;
    }

    method ConcreteNeed(policy: HostPolicy, liveness: Liveness, h: Health, seen: seq<ConnId>)
        returns (conn: Option<ConnId>)
      requires |conns| < 0x1_0000_0000
      modifies this`rr
      ensures conn.Some? ==> conn.value in Considered(policy) && Usable(h, liveness, seen, conn.value)
      ensures conn.None? ==> forall c :: c in Considered(policy) ==> !Usable(h, liveness, seen, c)
    {
      if policy.PreferFirst? {
        conn := FirstUsable(liveness, h, seen);
      } else {
        conn := RoundRobinUsable(liveness, h, seen);
      }
    }

    /** getConn: sound, complete on the considered connections, and connected if preferred so. */
    method GetConn(policy: HostPolicy, liveness: Liveness, h: Health, seen: seq<ConnId>) returns (conn: Option<ConnId>)
      requires |conns| < 0x1_0000_0000
      modifies this`rr
      ensures conn.Some? ==> conn.value in Considered(policy) && Usable(h, liveness, seen, conn.value)
      ensures conn.None? ==> forall c :: c in Considered(policy) ==> !Usable(h, liveness, seen, c)
      ensures conn.Some? && liveness.PreferConnected? && conn.value !in h.connected
              ==> forall c :: c in Considered(policy) ==> !Usable(h, NeedConnected, seen, c)
    {
      if |conns| == 1 {
        if conns[0] in seen {
          return None;
        }
        if Healthy(h, liveness, conns[0]) {
          return Some(conns[0]);
        }
        return None;
      }
      if liveness.PreferConnected? {
        conn := ConcreteNeed(policy, NeedConnected, h, seen);
        if conn.None? {
          conn := ConcreteNeed(policy, MayBeConnected, h, seen);
        }
        return;
      }
      conn := ConcreteNeed(policy, liveness, h, seen);
    }
  }

  lemma LowBits(l: nat)
    ensures forall k: nat :: Bit(LowMask32(l), k) <==> k < l && k < 32
  {
    forall k: nat ensures Bit(LowMask32(l), k) <==> k < l && k < 32 {
      BitOfLow(if l < 32 then l else 32, k);
    }
  }

  /** Some connection left in the mask, and how far away its residue is. */
  lemma NextConn(l: nat, mask: nat, off: nat) returns (target: nat, dist: nat)
    requires mask != 0 && off < 0x1_0000_0000 && forall k: nat :: Bit(mask, k) ==> k < l && k < 32
    ensures target < l && Bit(mask, target) && Residue(Iterate(dist, off), l) == target
  {
    target := SomeBit(mask);
    dist := EveryResidueComesUp(off, l, target);
  }

  lemma ClearBits(mask: nat, k: nat)
    requires Bit(mask, k)
    ensures Clear(mask, k) < mask
    ensures forall j: nat :: Bit(Clear(mask, k), j) <==> j != k && Bit(mask, j)
  {
    ClearShrinks(mask, k);
    forall j: nat ensures Bit(Clear(mask, k), j) <==> j != k && Bit(mask, j) { BitAfterClear(mask, k, j); }
  }

  lemma NoBitsLeft()
    ensures forall k: nat :: !Bit(0, k)
  {
    forall k: nat ensures !Bit(0, k) { ZeroHasNoBit(k); }
  }

  /** For this health and these seen connections, finding none means that there is none. */
  predicate NoneMeansNone(n: Node, liveness: Liveness, h: Health, seen: seq<ConnId>) {
    (forall c :: c in n.Considered(RoundRobin) ==> !Usable(h, liveness, seen, c))
    ==> forall c :: c in n.conns ==> !Usable(h, liveness, seen, c)
  }

  /** A health for which the one usable connection is not considered. */
  lemma Overlooked(n: Node) returns (h: Health)
    requires Retry.Distinct(n.conns) && |n.conns| > 32
    ensures h == Health({n.conns[32]}, {})
    ensures Usable(h, NeedConnected, [], n.conns[32]) && n.conns[32] in n.conns
    ensures forall c :: c in n.Considered(RoundRobin) ==> !Usable(h, NeedConnected, [], c)
  {
    h := Health({n.conns[32]}, {});
    assert n.conns[32] in n.conns;
    forall c | c in n.Considered(RoundRobin) ensures c != n.conns[32] {
      var i :| 0 <= i < 32 && n.conns[i] == c;
    }
  }

  /** Round robin is complete for every health and every list of seen connections exactly when a host has
      at most 32 connections. */
  lemma RoundRobinCompleteIff(n: Node)
    requires Retry.Distinct(n.conns)
    ensures (forall liveness, h, seen :: NoneMeansNone(n, liveness, h, seen)) <==> |n.conns| <= 32
  {
    if |n.conns| > 32 {
      var h := Overlooked(n);
      assert !NoneMeansNone(n, NeedConnected, h, []);
    }
  }

  /** A search that fails although a connection is usable: the one that is connected is the 33rd. */
  method OverlookingSearch(n: Node) returns (conn: Option<ConnId>, h: Health)
    requires Retry.Distinct(n.conns) && 32 < |n.conns| < 0x1_0000_0000
    modifies n`rr
    ensures h == Health({n.conns[32]}, {}) && Usable(h, NeedConnected, [], n.conns[32])
    ensures conn.None?
  {
    h := Health({n.conns[32]}, {});
    ghost var same := Overlooked(n);
    conn := n.RoundRobinUsable(NeedConnected, h, []);
  }

  // ------------------------------------------------------------------ shard

  /** A shard's address list, master first, and its health mask. */
  datatype Shard = Shard(addr: seq<string>, good: nat)

  /** What updateMappings sets up and setReplicaInfo keeps. */
  ghost predicate WellFormed(s: Shard) {
    0 < |s.addr| < 0x4000_0000 && Bit(s.good, 0) && forall k: nat :: Bit(s.good, k) ==> k < |s.addr| && k < 32
  }

  /** Number of residues and shift of the replica choice. */
  function Residues(policy: Retry.Policy, replicas: nat): nat
    requires replicas > 0
  {
    if policy.PreferSlaves? then 3 * replicas - 2 else 3 * replicas
  }

  function Replica(policy: Retry.Policy, residue: nat): nat {
    (residue + if policy.PreferSlaves? then 2 else 0) / 3
  }

  lemma ResidueOf(policy: Retry.Policy, replicas: nat, k: nat, r: nat)
    requires k < replicas && r < Residues(policy, replicas)
    ensures Replica(policy, r) < replicas
    ensures Replica(policy, r) == k <==> Chooses(policy, k, r)
  {
    var x := r + if policy.PreferSlaves? then 2 else 0;
    assert x / 3 == k <==> 3 * k <= x <= 3 * k + 2;
  }

  /** Residues that choose replica k. */
  predicate Chooses(policy: Retry.Policy, k: nat, r: nat) {
    if !policy.PreferSlaves? then 3 * k <= r <= 3 * k + 2 else if k == 0 then r == 0 else 3 * k - 2 <= r <= 3 * k
  }

  /** Each replica is chosen by three residues; under PreferSlaves the master by one only. */
  lemma ReplicaWeights(policy: Retry.Policy, replicas: nat, k: nat)
    requires k < replicas
    ensures forall r: nat :: r < Residues(policy, replicas) ==>
              Replica(policy, r) < replicas && (Replica(policy, r) == k <==> Chooses(policy, k, r))
    ensures forall r: nat :: Chooses(policy, k, r) ==> r < Residues(policy, replicas)
  {
    forall r: nat | r < Residues(policy, replicas)
      ensures Replica(policy, r) < replicas && (Replica(policy, r) == k <==> Chooses(policy, k, r))
    {
      ResidueOf(policy, replicas, k, r);
    }
  }

  function FirstResidue(policy: Retry.Policy, k: nat): nat {
    if policy.PreferSlaves? then (if k == 0 then 0 else 3 * k - 2) else 3 * k
  }

  /** Replica `k` may be chosen and its node has the connection. */
  predicate Offers(s: Shard, nodes: map<string, Node>, hp: HostPolicy, policy: Retry.Policy, k: nat, c: ConnId) {
    && k < |s.addr|
    && (if policy.MasterOnly? then k == 0 else Bit(s.good, k))
    && s.addr[k] in nodes
    && c in nodes[s.addr[k]].Considered(hp)
  }

  /** The replica that the seed chooses is the one that is used, if it is healthy and has a usable
      connection. */
  ghost predicate SeedDecides(s: Shard, nodes: map<string, Node>, hp: HostPolicy, policy: Retry.Policy, seed: nat,
      liveness: Liveness, h: Health, seen: seq<ConnId>, conn: Option<ConnId>)
    requires s.addr != []
  {
    var k := Replica(policy, Residue(seed, Residues(policy, |s.addr|)));
    Spent(s, nodes, hp, policy, k, liveness, h, seen)
    || (conn.Some? && Offers(s, nodes, hp, policy, k, conn.value))
  }

  /** Replica `k` has no usable connection to offer. */
  ghost predicate Spent(s: Shard, nodes: map<string, Node>, hp: HostPolicy, policy: Retry.Policy, k: nat,
      liveness: Liveness, h: Health, seen: seq<ConnId>)
  {
    forall c :: Offers(s, nodes, hp, policy, k, c) ==> !Usable(h, liveness, seen, c)
  }

  /** One pass of the replica loop of connForSlot. */
  method PickReplica(s: Shard, nodes: map<string, Node>, hp: HostPolicy, policy: Retry.Policy,
                     off0: nat, liveness: Liveness, h: Health, seen: seq<ConnId>)
    returns (conn: Option<ConnId>, off: nat)
    requires WellFormed(s) && !policy.MasterOnly? && off0 < 0x1_0000_0000
    requires forall a :: a in nodes ==> |nodes[a].conns| < 0x1_0000_0000
    modifies nodes.Values
    ensures off < 0x1_0000_0000
    ensures conn.Some? ==>
              exists k :: Offers(s, nodes, hp, policy, k, conn.value) && Usable(h, liveness, seen, conn.value)
    ensures conn.None? ==> forall k, c :: Offers(s, nodes, hp, policy, k, c) ==> !Usable(h, liveness, seen, c)
    ensures SeedDecides(s, nodes, hp, policy, off0, liveness, h, seen, conn)
  {
    var n := Residues(policy, |s.addr|);
    var mask := s.good;
    conn, off := None, off0;
    ghost var first := Replica(policy, Residue(off0, n));
    ghost var target, dist, at := 0, 0, 0;
    if mask != 0 {
      target, dist := NextHit(s, policy, mask, off);
    }
    while mask != 0 && conn == None
      invariant off < 0x1_0000_0000
      invariant forall k: nat :: Bit(mask, k) ==> Bit(s.good, k)
      invariant conn.Some? ==> Offers(s, nodes, hp, policy, at, conn.value) && Usable(h, liveness, seen, conn.value)
      invariant conn.None? ==> RestSpent(s, nodes, hp, policy, mask, liveness, h, seen)
      invariant conn.None? ==> (off == off0 && mask == s.good) || !Bit(mask, first)
      invariant conn.Some? ==> at == first || Spent(s, nodes, hp, policy, first, liveness, h, seen)
      invariant mask != 0 ==> Bit(mask, target) && Replica(policy, Residue(Iterate(dist, off), n)) == target
      decreases mask, dist
    {
      var k := Replica(policy, Residue(off, n));
      if !Bit(mask, k) {
        IterateFirst(dist, off);
        dist := dist - 1;
        off := NextState(off);
        continue;
      }
      off := NextState(off);
      conn, mask := Visit(s, nodes, hp, policy, mask, k, liveness, h, seen);
      at := k;
      if mask != 0 {
        target, dist := NextHit(s, policy, mask, off);
      }
    }
    NoBitsLeft();
    AllSpent(s, nodes, hp, policy, liveness, h, seen, conn);
  }

  lemma AllSpent(s: Shard, nodes: map<string, Node>, hp: HostPolicy, policy: Retry.Policy, liveness: Liveness,
      h: Health, seen: seq<ConnId>, conn: Option<ConnId>)
    requires conn.None? ==> forall k: nat :: Spent(s, nodes, hp, policy, k, liveness, h, seen)
    ensures conn.None? ==> forall k, c :: Offers(s, nodes, hp, policy, k, c) ==> !Usable(h, liveness, seen, c)
  {
    forall k, c | conn.None? && Offers(s, nodes, hp, policy, k, c) ensures !Usable(h, liveness, seen, c) {
      assert Spent(s, nodes, hp, policy, k, liveness, h, seen);
    }
  }

  lemma AllSpentNow(s: Shard, nodes: map<string, Node>, hp: HostPolicy, policy: Retry.Policy, liveness: Liveness,
      h: Health, seen: seq<ConnId>)
    requires forall k, c :: Offers(s, nodes, hp, policy, k, c) ==> !Usable(h, liveness, seen, c)
    ensures forall k: nat :: Spent(s, nodes, hp, policy, k, liveness, h, seen)
  {}

  /** The replicas that are no longer in the mask have nothing to offer. */
  ghost predicate RestSpent(s: Shard, nodes: map<string, Node>, hp: HostPolicy, policy: Retry.Policy, mask: nat,
      liveness: Liveness, h: Health, seen: seq<ConnId>)
  {
    forall k: nat :: !Bit(mask, k) ==> Spent(s, nodes, hp, policy, k, liveness, h, seen)
  }

  /** One replica of the loop above, which leaves the mask. */
  method Visit(s: Shard, nodes: map<string, Node>, hp: HostPolicy, policy: Retry.Policy, mask: nat, k: nat,
               liveness: Liveness, h: Health, seen: seq<ConnId>)
    returns (conn: Option<ConnId>, left: nat)
    requires !policy.MasterOnly? && k < |s.addr| && Bit(mask, k) && Bit(s.good, k)
    requires RestSpent(s, nodes, hp, policy, mask, liveness, h, seen)
    requires forall a :: a in nodes ==> |nodes[a].conns| < 0x1_0000_0000
    modifies nodes.Values
    ensures left < mask && forall j: nat :: Bit(left, j) <==> j != k && Bit(mask, j)
    ensures conn.Some? ==> Offers(s, nodes, hp, policy, k, conn.value) && Usable(h, liveness, seen, conn.value)
    ensures conn.None? ==> RestSpent(s, nodes, hp, policy, left, liveness, h, seen)
  {
    ClearBits(mask, k);
    left := Clear(mask, k);
    conn := None;
    var addr := s.addr[k];
    if addr in nodes {
      conn := nodes[addr].GetConn(hp, liveness, h, seen);
    }
  }

  /** Some set bit of the mask, and how far away a residue that selects it is. */
  lemma NextHit(s: Shard, policy: Retry.Policy, mask: nat, off: nat) returns (target: nat, dist: nat)
    requires WellFormed(s) && mask != 0 && off < 0x1_0000_0000
    requires forall k: nat :: Bit(mask, k) ==> Bit(s.good, k)
    ensures Bit(mask, target)
    ensures Replica(policy, Residue(Iterate(dist, off), Residues(policy, |s.addr|))) == target
  {
    target := SomeBit(mask);
    assert target < 32 && target < |s.addr|;
    var r := FirstResidue(policy, target);
    dist := EveryResidueComesUp(off, Residues(policy, |s.addr|), r);
  }

  /** connForSlot: the result is unseen, may be connected, and offered by a healthy replica of the
      slot's shard (by its master, under MasterOnly); an error means there is no such connection.
      An established connection is preferred. */
  method ConnForSlot(shard: Option<Shard>, nodes: map<string, Node>, hp: HostPolicy, policy: Retry.Policy,
                     seed: nat, h: Health, seen: seq<ConnId>)
    returns (conn: Option<ConnId>, err: Option<Kind>)
    requires shard.Some? ==> WellFormed(shard.value)
    requires seed < 0x1_0000_0000 && (policy.MasterOnly? || policy.MasterAndSlaves? || policy.PreferSlaves?)
    requires forall a :: a in nodes ==> |nodes[a].conns| < 0x1_0000_0000
    modifies nodes.Values
    ensures conn.Some? <==> err.None?
    ensures shard.None? <==> err == Some(ConfigEmpty)
    ensures conn.Some? ==> exists k :: Offers(shard.value, nodes, hp, policy, k, conn.value)
                                       && Usable(h, MayBeConnected, seen, conn.value)
    ensures err == Some(NoAliveConnection) ==> forall k, c :: Offers(shard.value, nodes, hp, policy, k, c)
                                                              ==> !Usable(h, MayBeConnected, seen, c)
    ensures conn.Some? && conn.value !in h.connected
            ==> forall k, c :: Offers(shard.value, nodes, hp, policy, k, c) ==> !Usable(h, NeedConnected, seen, c)
    ensures err.Some? ==> err.value.ConfigEmpty? || err.value.NoAliveConnection?
    ensures shard.Some? && !policy.MasterOnly? ==>
              SeedDecides(shard.value, nodes, hp, policy, seed, NeedConnected, h, seen, conn)
  {
    if shard.None? {
      return None, Some(ConfigEmpty);
    }
    var s := shard.value;
    conn := None;
    if policy.MasterOnly? {
      var addr := s.addr[0];
      if addr in nodes {
        conn := nodes[addr].GetConn(hp, PreferConnected, h, seen);
        if conn.Some? { assert Offers(s, nodes, hp, policy, 0, conn.value); }
      }
    } else {
      var off := seed;
      conn, off := PickReplica(s, nodes, hp, policy, off, NeedConnected, h, seen);
      if conn.None? {
        AllSpentNow(s, nodes, hp, policy, NeedConnected, h, seen);
        conn, off := PickReplica(s, nodes, hp, policy, off, MayBeConnected, h, seen);
      }
    }
    if conn.None? {
      return None, Some(NoAliveConnection);
    }
    return conn, None;
  }

  /** Replicas may be asked: the slot is not being migrated, and the caller forced it or the command is
      safe. */
  predicate ReplicasAllowed(slotAsking: bool, replicaSafe: bool, policy: Retry.Policy) {
    !slotAsking && (policy.ForceMasterAndSlaves? || policy.ForcePreferSlaves? || (replicaSafe && !policy.MasterOnly?))
  }

  /** The connection is one of the node at this place of the address list. */
  predicate OfReplica(s: Shard, nodes: map<string, Node>, k: nat, c: ConnId) {
    k < |s.addr| && s.addr[k] in nodes && c in nodes[s.addr[k]].conns
  }

  /** A considered connection of the master or, if replicas are allowed, of any address held healthy. */
  predicate Eligible(s: Shard, nodes: map<string, Node>, hp: HostPolicy, replicas: bool, k: nat, c: ConnId) {
    && OfReplica(s, nodes, k, c) && c in nodes[s.addr[k]].Considered(hp)
    && if replicas then Bit(s.good, k) else k == 0
  }

  lemma NoneOffered(s: Shard, nodes: map<string, Node>, hp: HostPolicy, policy: Retry.Policy, replicas: bool, h: Health)
    requires replicas == !policy.MasterOnly?
    requires forall k, c :: Offers(s, nodes, hp, policy, k, c) ==> !Usable(h, MayBeConnected, [], c)
    ensures forall k: nat, c :: Eligible(s, nodes, hp, replicas, k, c) ==>
              c !in h.connected && c !in h.connecting
  {
    forall k: nat, c | Eligible(s, nodes, hp, replicas, k, c)
      ensures c !in h.connected && c !in h.connecting
    {
      assert Offers(s, nodes, hp, policy, k, c);
    }
  }

  /** The choices SendWithPolicy makes for a command: it goes to the master of its slot unless replicas may
      be asked, then to the master or to a replica held healthy; and it may be repeated after an I/O error
      only if it is replica-safe or goes by a forced policy. */
  method Route(slotAsking: bool, replicaSafe: bool, policy: Retry.Policy, shard: Option<Shard>,
               nodes: map<string, Node>, hp: HostPolicy, seed: nat, h: Health)
    returns (conn: Option<ConnId>, err: Option<Kind>, mayRetry: bool)
    requires shard.Some? ==> WellFormed(shard.value)
    requires seed < 0x1_0000_0000
    requires forall a :: a in nodes ==> |nodes[a].conns| < 0x1_0000_0000
    modifies nodes.Values
    ensures conn.Some? <==> err.None?
    ensures conn.Some? ==> conn.value in h.connected || conn.value in h.connecting
    ensures conn.Some? && !ReplicasAllowed(slotAsking, replicaSafe, policy) ==>
              shard.Some? && OfReplica(shard.value, nodes, 0, conn.value)
    ensures conn.Some? ==>
              shard.Some? && exists k :: OfReplica(shard.value, nodes, k, conn.value) && Bit(shard.value.good, k)
    ensures err == Some(NoAliveConnection) ==> shard.Some? && forall k: nat, c ::
              Eligible(shard.value, nodes, hp, ReplicasAllowed(slotAsking, replicaSafe, policy), k, c) ==>
                c !in h.connected && c !in h.connecting
    ensures mayRetry <==> replicaSafe || (!slotAsking && (policy.ForceMasterAndSlaves? || policy.ForcePreferSlaves?))
  {
    var fixed := Retry.FixPolicy(slotAsking, replicaSafe, policy);
    Retry.ReplicaPolicyIff(slotAsking, replicaSafe, policy);
    conn, err := ConnForSlot(shard, nodes, hp, fixed, seed, h, []);
    if err == Some(NoAliveConnection) {
      NoneOffered(shard.value, nodes, hp, fixed, ReplicasAllowed(slotAsking, replicaSafe, policy), h);
    }
    mayRetry := fixed != Retry.MasterOnly || replicaSafe;
  }

  // --------------------------------------------------------- health updates

  /** One call of setReplicaInfo between its first load and its end: replica number, whether the
      answer was bad, and the value loaded last. */
  datatype Updater = Updater(replica: nat, haserr: bool, loaded: Option<nat>, finished: bool)

  datatype Mask = Mask(good: nat, updaters: seq<Updater>)

  function NewState(u: Updater, word: nat): nat {
    if u.replica >= 32 then word   // the shifted-out bit of a uint32
    else if u.haserr then Clear(word, u.replica) else Set(word, u.replica)
  }

  datatype Update = Begin(replica: nat, haserr: bool) | Load(u: nat) | Swap(u: nat)

  /** setConnRoles asks replicas only, never the master at index 0, and only listed ones. */
  predicate CanUpdate(replicas: nat, m: Mask, up: Update) {
    match up
    case Begin(r, _) => 0 < r < replicas
    case Load(u) => u < |m.updaters| && m.updaters[u].loaded.None? && !m.updaters[u].finished
    case Swap(u) => u < |m.updaters| && m.updaters[u].loaded.Some? && !m.updaters[u].finished
  }

  function UpdateMask(replicas: nat, m: Mask, up: Update): Mask
    requires CanUpdate(replicas, m, up)
  {
    match up
    case Begin(r, e) => m.(updaters := m.updaters + [Updater(r, e, None, false)])
    case Load(i) =>
      var u := m.updaters[i];
      if NewState(u, m.good) == m.good then m.(updaters := m.updaters[i := u.(finished := true)])
      else m.(updaters := m.updaters[i := u.(loaded := Some(m.good))])
    case Swap(i) =>
      var u := m.updaters[i];
      if m.good == u.loaded.value
      then Mask(NewState(u, m.good), m.updaters[i := u.(finished := true)])
      else m.(updaters := m.updaters[i := u.(loaded := None)])
  }

  ghost predicate MaskInv(replicas: nat, m: Mask) {
    && Bit(m.good, 0)
    && (forall k: nat :: Bit(m.good, k) ==> k < replicas && k < 32)
    && (forall i :: 0 <= i < |m.updaters| ==> 0 < m.updaters[i].replica < replicas)
  }

  predicate LegalUpdates(replicas: nat, m: Mask, ups: seq<Update>)
    decreases |ups|
  {
    ups != [] ==> CanUpdate(replicas, m, ups[0]) && LegalUpdates(replicas, UpdateMask(replicas, m, ups[0]), ups[1..])
  }

  function AfterUpdates(replicas: nat, m: Mask, ups: seq<Update>): Mask
    requires LegalUpdates(replicas, m, ups)
    decreases |ups|
  {
    if ups == [] then m else AfterUpdates(replicas, UpdateMask(replicas, m, ups[0]), ups[1..])
  }

  lemma NewStateBits(u: Updater, word: nat, k: nat)
    requires u.replica < 32
    ensures Bit(NewState(u, word), k) <==> if k == u.replica then !u.haserr else Bit(word, k)
  {
    BitAfterClear(word, u.replica, k);
    BitAfterSet(word, u.replica, k);
  }

  lemma UpdateKeepsMask(replicas: nat, m: Mask, up: Update)
    requires MaskInv(replicas, m) && CanUpdate(replicas, m, up)
    ensures MaskInv(replicas, UpdateMask(replicas, m, up))
  {
    if up.Swap? && m.updaters[up.u].replica < 32 {
      forall k: nat ensures Bit(NewState(m.updaters[up.u], m.good), k)
                       <==> if k == m.updaters[up.u].replica then !m.updaters[up.u].haserr else Bit(m.good, k) {
        NewStateBits(m.updaters[up.u], m.good, k);
      }
    }
  }

  /** Whatever way concurrent health updates interleave, the master's bit stays set and no bit appears
      beyond the address list, so the selection loops stay well-founded. */
  lemma {:induction false} UpdatesKeepMask(replicas: nat, m: Mask, ups: seq<Update>)
    requires MaskInv(replicas, m) && LegalUpdates(replicas, m, ups)
    ensures MaskInv(replicas, AfterUpdates(replicas, m, ups))
    decreases |ups|
  {
    if ups != [] {
      UpdateKeepsMask(replicas, m, ups[0]);
      UpdatesKeepMask(replicas, UpdateMask(replicas, m, ups[0]), ups[1..]);
    }
  }

  /** The step that ends an update leaves its replica's bit, if it has one, telling what the answer said, and
      leaves every other bit as it is at that moment: no update is lost to a stale load. */
  lemma UpdateTakesEffect(replicas: nat, m: Mask, up: Update, i: nat, k: nat)
    requires CanUpdate(replicas, m, up) && i < |m.updaters| && !m.updaters[i].finished
    requires UpdateMask(replicas, m, up).updaters[i].finished
    ensures var u := m.updaters[i];
      Bit(UpdateMask(replicas, m, up).good, k) <==> if k == u.replica && k < 32 then !u.haserr else Bit(m.good, k)
  {
    if m.updaters[i].replica < 32 { NewStateBits(m.updaters[i], m.good, k); }
  }

  /** The mask a new shard starts with has exactly the bits of the listed replicas, up to 32. */
  lemma InitialMask(replicas: nat)
    requires replicas > 0
    ensures forall k: nat :: Bit(LowMask32(replicas), k) <==> k < replicas && k < 32
    ensures MaskInv(replicas, Mask(LowMask32(replicas), []))
  {
    LowBits(replicas);
  }
}
