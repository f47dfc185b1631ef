/** The cluster configuration built by updateMappings of rediscluster/slotrange.go and changed by
    execCommand and addNode: shards, masters and the slot table stay consistent. */
module Mapping {
  import opened Bits
  import opened SlotTable
  import opened Selection

  datatype SlotsRange = SlotsRange(from: nat, to: nat, addrs: seq<string>)

  predicate Covers(r: SlotsRange, slot: nat) {
    r.from <= slot <= r.to
  }

  /** What ParseSlotsInfo returns for a healthy cluster: sorted, disjoint, within bounds. */
  predicate GoodRanges(rs: seq<SlotsRange>) {
    && (forall i :: 0 <= i < |rs| ==> rs[i].from <= rs[i].to < NUM_SLOTS && 0 < |rs[i].addrs| < 0x4000_0000)
    && (forall i, j :: 0 <= i < j < |rs| ==> rs[i].to < rs[j].from)
  }

  // ----------------------------------------------------------------- shards

  /** The address list of each master: of several ranges with one master the last one counts. */
  function AddressLists(rs: seq<SlotsRange>): map<string, seq<string>>
    requires forall i :: 0 <= i < |rs| ==> |rs[i].addrs| > 0
  {
    if rs == [] then map[]
    else
      var last := rs[|rs| - 1].addrs;
      AddressLists(rs[..|rs| - 1])[last[0] := last]
  }

  predicate ListOfRange(rs: seq<SlotsRange>, addrs: seq<string>, master: string) {
    exists i :: 0 <= i < |rs| && rs[i].addrs == addrs && addrs != [] && addrs[0] == master
  }

  lemma ListStillOfRange(rs: seq<SlotsRange>, last: SlotsRange, addrs: seq<string>, master: string)
    requires ListOfRange(rs, addrs, master)
    ensures ListOfRange(rs + [last], addrs, master)
  {
    var i :| 0 <= i < |rs| && rs[i].addrs == addrs && addrs != [] && addrs[0] == master;
    assert (rs + [last])[i] == rs[i];
  }

  /** Each list is that of a range and starts with its key; each range's master has one. */
  lemma {:induction false} ListsAreRanges(rs: seq<SlotsRange>)
    requires forall i :: 0 <= i < |rs| ==> |rs[i].addrs| > 0
    ensures forall a :: a in AddressLists(rs) ==> ListOfRange(rs, AddressLists(rs)[a], a)
    ensures forall i :: 0 <= i < |rs| ==> rs[i].addrs[0] in AddressLists(rs)
    ensures |AddressLists(rs)| <= |rs|
  {
    if rs != [] {
      var n := |rs| - 1;
      var pre, last := rs[..n], rs[n];
      ListsAreRanges(pre);
      assert rs == pre + [last];
      var m := AddressLists(pre);
      OneMoreKey(m, last.addrs);
      forall a | a in AddressLists(rs) ensures ListOfRange(rs, AddressLists(rs)[a], a) {
        if a == last.addrs[0] {
          assert rs[n].addrs == last.addrs;
        } else {
          ListStillOfRange(pre, last, m[a], a);
        }
      }
      forall i | 0 <= i < |rs| ensures rs[i].addrs[0] in AddressLists(rs) {
        if i < n { assert pre[i] == rs[i]; }
      }
    }
  }

  /** The last range of its master. */
  predicate IsLast(rs: seq<SlotsRange>, i: int) {
    && 0 <= i < |rs| && rs[i].addrs != []
    && forall j :: i < j < |rs| && rs[j].addrs != [] ==> rs[j].addrs[0] != rs[i].addrs[0]
  }

  /** Of several ranges with one master the last one gives the list. */
  lemma {:induction false} LastListCounts(rs: seq<SlotsRange>, i: nat)
    requires (forall j :: 0 <= j < |rs| ==> |rs[j].addrs| > 0) && IsLast(rs, i)
    ensures rs[i].addrs[0] in AddressLists(rs) && AddressLists(rs)[rs[i].addrs[0]] == rs[i].addrs
  {
    var n := |rs| - 1;
    if i < n {
      assert IsLast(rs[..n], i);
      LastListCounts(rs[..n], i);
    }
  }

  lemma OneMoreKey(m: map<string, seq<string>>, addrs: seq<string>)
    requires addrs != []
    ensures m[addrs[0] := addrs].Keys == m.Keys + {addrs[0]} && |m[addrs[0] := addrs]| <= |m| + 1
  {
    var w := m[addrs[0] := addrs];
    assert w.Keys == m.Keys + {addrs[0]};
    assert |w| == |w.Keys| && |m| == |m.Keys|;
  }

  /** Disjoint ranges leave room for at most one per slot. */
  lemma {:induction false} RangesStartLate(rs: seq<SlotsRange>, i: nat)
    requires GoodRanges(rs) && i < |rs|
    ensures i <= rs[i].from
  {
    if i > 0 { RangesStartLate(rs, i - 1); }
  }

  lemma ShardNumbersFit(rs: seq<SlotsRange>)
    requires GoodRanges(rs)
    ensures |AddressLists(rs)| <= |rs| <= NUM_SLOTS
  {
    ListsAreRanges(rs);
    if rs != [] { RangesStartLate(rs, |rs| - 1); }
  }

  /** All that updateMappings needs of its ranges to build a sane configuration, overlapping or not: a
      master in each, and no more masters than the shard field of a slot can number. */
  predicate Installable(rs: seq<SlotsRange>) {
    && (forall i :: 0 <= i < |rs| ==> 0 < |rs[i].addrs| < 0x4000_0000)
    && |AddressLists(rs)| <= 0x4000
  }

  lemma GoodInstallable(rs: seq<SlotsRange>)
    requires GoodRanges(rs)
    ensures Installable(rs)
  {
    ShardNumbersFit(rs);
  }

  /** Shards are numbered 0..n-1 and `masters` is the inverse of "address of the master". */
  predicate Consistent(shards: seq<Shard>, masters: map<string, nat>) {
    && (forall a :: a in masters ==>
          masters[a] < |shards| && shards[masters[a]].addr != [] && shards[masters[a]].addr[0] == a)
    && (forall i :: 0 <= i < |shards| ==>
          shards[i].addr != [] && shards[i].addr[0] in masters && masters[shards[i].addr[0]] == i)
    && |shards| == |masters|
  }

  ghost predicate HealthKept(shards: seq<Shard>) {
    forall i :: 0 <= i < |shards| ==> WellFormed(shards[i])
  }

  /** An unchanged shard keeps its object, and with it what is known about its replicas. */
  function ShardFor(oldShards: seq<Shard>, oldMasters: map<string, nat>, addrs: seq<string>): Shard
    requires addrs != []
  {
    if addrs[0] in oldMasters && oldMasters[addrs[0]] < |oldShards| && oldShards[oldMasters[addrs[0]]].addr == addrs
    then oldShards[oldMasters[addrs[0]]]
    else Shard(addrs, LowMask32(|addrs|))
  }

  /** The previous configuration has a shard with this master and this very address list. */
  predicate Unchanged(oldShards: seq<Shard>, oldMasters: map<string, nat>, addrs: seq<string>) {
    addrs != [] && addrs[0] in oldMasters && oldMasters[addrs[0]] < |oldShards|
        && oldShards[oldMasters[addrs[0]]].addr == addrs
  }

  /** All listed replicas, up to 32, are presumed healthy. */
  ghost predicate StartsFull(s: Shard) {
    forall k: nat :: Bit(s.good, k) <==> k < |s.addr| && k < 32
  }

  /** The shard is that of the previous configuration, health included, or starts full. */
  ghost predicate Inherits(oldShards: seq<Shard>, oldMasters: map<string, nat>, s: Shard) {
    s.addr != [] && if Unchanged(oldShards, oldMasters, s.addr) then s == oldShards[oldMasters[s.addr[0]]]
                    else StartsFull(s)
  }

  lemma ShardForInherits(oldShards: seq<Shard>, oldMasters: map<string, nat>, addrs: seq<string>)
    requires HealthKept(oldShards) && 0 < |addrs| < 0x4000_0000
    ensures var s := ShardFor(oldShards, oldMasters, addrs);
      WellFormed(s) && s.addr == addrs && Inherits(oldShards, oldMasters, s)
  {
    LowBits(|addrs|);
  }

  ghost predicate CarriedOver(oldShards: seq<Shard>, oldMasters: map<string, nat>, shards: seq<Shard>) {
    forall i :: 0 <= i < |shards| ==> Inherits(oldShards, oldMasters, shards[i])
  }

  lemma CarryOne(oldShards: seq<Shard>, oldMasters: map<string, nat>, shards: seq<Shard>, s: Shard)
    requires CarriedOver(oldShards, oldMasters, shards) && Inherits(oldShards, oldMasters, s)
    ensures CarriedOver(oldShards, oldMasters, shards + [s])
  {}

  /** A shard with an address list of the previous configuration keeps that shard's health, and any other
      starts full. */
  ghost predicate HealthFrom(oldShards: seq<Shard>, s: Shard) {
    && (forall j :: 0 <= j < |oldShards| && oldShards[j].addr == s.addr ==> s.good == oldShards[j].good)
    && ((forall j :: 0 <= j < |oldShards| ==> oldShards[j].addr != s.addr) ==> StartsFull(s))
  }

  ghost predicate HealthInherited(oldShards: seq<Shard>, shards: seq<Shard>) {
    forall i :: 0 <= i < |shards| ==> HealthFrom(oldShards, shards[i])
  }

  lemma CarriedHealth(oldShards: seq<Shard>, oldMasters: map<string, nat>, shards: seq<Shard>)
    requires Consistent(oldShards, oldMasters) && CarriedOver(oldShards, oldMasters, shards)
    ensures HealthInherited(oldShards, shards)
  {
    forall i | 0 <= i < |shards| ensures HealthFrom(oldShards, shards[i]) {
      assert Inherits(oldShards, oldMasters, shards[i]);
    }
  }

  /** State of the loop below: the masters not in `left` are installed. */
  ghost predicate Installed(lists: map<string, seq<string>>, left: set<string>, shards: seq<Shard>,
      masters: map<string, nat>) {
    && left <= lists.Keys && masters.Keys == lists.Keys - left
    && Consistent(shards, masters) && HealthKept(shards)
    && (forall i :: 0 <= i < |shards| ==> shards[i].addr[0] in lists && shards[i].addr == lists[shards[i].addr[0]])
  }

  lemma InstallOne(lists: map<string, seq<string>>, left: set<string>, shards: seq<Shard>, masters: map<string, nat>,
                   master: string, s: Shard)
    requires Installed(lists, left, shards, masters) && master in left
    requires WellFormed(s) && s.addr == lists[master] && s.addr[0] == master
    ensures Installed(lists, left - {master}, shards + [s], masters[master := |shards|])
  {
    ConsistentPush(shards, masters, s);
  }

  predicate GoodLists(lists: map<string, seq<string>>) {
    forall a :: a in lists ==> 0 < |lists[a]| < 0x4000_0000 && lists[a][0] == a
  }

  lemma ListsGood(rs: seq<SlotsRange>)
    requires Installable(rs)
    ensures GoodLists(AddressLists(rs))
  {
    ListsAreRanges(rs);
  }

  /** The loop over the masters, in whatever order the map yields them. */
  method InstallMasters(lists: map<string, seq<string>>, oldShards: seq<Shard>, oldMasters: map<string, nat>)
    returns (shards: seq<Shard>, masters: map<string, nat>, random: nat)
    requires GoodLists(lists) && HealthKept(oldShards)
    ensures Installed(lists, {}, shards, masters) && CarriedOver(oldShards, oldMasters, shards)
    ensures lists.Keys != {} ==> random < |shards|
  {
    shards, masters, random := [], map[], 0;
    var left := lists.Keys;
    while left != {}
      invariant Installed(lists, left, shards, masters) && CarriedOver(oldShards, oldMasters, shards)
      invariant left != lists.Keys ==> random < |shards|
      decreases left
    {
      var master :| master in left;
      var s := ShardFor(oldShards, oldMasters, lists[master]);
      ShardForInherits(oldShards, oldMasters, lists[master]);
      InstallOne(lists, left, shards, masters, master, s);
      CarryOne(oldShards, oldMasters, shards, s);
      random := |shards|;
      masters := masters[master := |shards|];
      shards := shards + [s];
      left := left - {master};
    }
  }

  /** The shard part of updateMappings. */
  method BuildShards(rs: seq<SlotsRange>, oldShards: seq<Shard>, oldMasters: map<string, nat>)
    returns (shards: seq<Shard>, masters: map<string, nat>, random: nat)
    requires Installable(rs) && HealthKept(oldShards)
    ensures Installed(AddressLists(rs), {}, shards, masters) && CarriedOver(oldShards, oldMasters, shards)
    ensures |shards| <= 0x4000
    ensures rs != [] ==> random < |shards|
  {
    ListsAreRanges(rs);
    ListsGood(rs);
    shards, masters, random := InstallMasters(AddressLists(rs), oldShards, oldMasters);
    assert |masters| == |AddressLists(rs)| by { assert masters.Keys == AddressLists(rs).Keys; }
    if rs != [] { assert rs[0].addrs[0] in AddressLists(rs); }
  }

  lemma ConsistentPush(shards: seq<Shard>, masters: map<string, nat>, s: Shard)
    requires Consistent(shards, masters) && s.addr != [] && s.addr[0] !in masters
    ensures Consistent(shards + [s], masters[s.addr[0] := |shards|])
  {
    assert masters[s.addr[0] := |shards|].Keys == masters.Keys + {s.addr[0]};
  }

  // -------------------------------------------------------------- slot fill

  /** `e` is what updateMappings owes slot `i`: the shard of the range that covers it, any installed
      shard if none does, and the asking mark exactly if the slot is forced to the master. */
  ghost predicate Owed(rs: seq<SlotsRange>, masters: map<string, nat>, random: nat, forced: set<nat>, i: nat,
      e: Entry) {
    && (forall j :: 0 <= j < |rs| && Covers(rs[j], i) && rs[j].addrs != [] && rs[j].addrs[0] in masters ==>
          e.shard == masters[rs[j].addrs[0]])
    && ((forall j :: 0 <= j < |rs| ==> !Covers(rs[j], i)) ==> e.shard == random)
    && (e.asking <==> i in forced)
  }

  ghost predicate AllOwed(rs: seq<SlotsRange>, masters: map<string, nat>, random: nat, forced: set<nat>,
      es: seq<Entry>) {
    forall i :: 0 <= i < |es| ==> Owed(rs, masters, random, forced, i, es[i])
  }

  predicate Ready(rs: seq<SlotsRange>, masters: map<string, nat>, random: nat) {
    && random < 0x4000
    && (forall j :: 0 <= j < |rs| ==> rs[j].addrs != [] && rs[j].addrs[0] in masters)
    && (forall a :: a in masters ==> masters[a] < 0x4000)
  }

  /** The shard number of the loop for slot `i` when the ranges before `at` have been dropped. */
  function Number(rs: seq<SlotsRange>, masters: map<string, nat>, random: nat, i: nat, at: nat): (n: nat)
    requires Ready(rs, masters, random) && at <= |rs|
    ensures n < 0x4000
  {
    if at == |rs| || i < rs[at].from then random else masters[rs[at].addrs[0]]
  }

  /** True even of overlapping ranges: the slot gets an installed shard and the right mark. */
  predicate InstalledEntry(masters: map<string, nat>, random: nat, forced: set<nat>, i: nat, e: Entry) {
    (e.shard == random || e.shard in masters.Values) && (e.asking <==> i in forced)
  }

  predicate AllInstalled(masters: map<string, nat>, random: nat, forced: set<nat>, es: seq<Entry>) {
    forall i :: 0 <= i < |es| ==> InstalledEntry(masters, random, forced, i, es[i])
  }

  /** What the loop has settled about a slot. */
  ghost predicate Settled(rs: seq<SlotsRange>, masters: map<string, nat>, random: nat, forced: set<nat>, i: nat,
      e: Entry) {
    InstalledEntry(masters, random, forced, i, e) && (GoodRanges(rs) ==> Owed(rs, masters, random, forced, i, e))
  }

  lemma NumberSettled(rs: seq<SlotsRange>, masters: map<string, nat>, random: nat, forced: set<nat>, i: nat, at: nat)
    requires Ready(rs, masters, random) && at <= |rs|
    requires GoodRanges(rs) ==> forall j :: 0 <= j < at ==> rs[j].to < i
    requires GoodRanges(rs) && at < |rs| ==> i <= rs[at].to
    ensures Settled(rs, masters, random, forced, i, Entry(Number(rs, masters, random, i, at), i in forced))
  {
    if at < |rs| { assert masters[rs[at].addrs[0]] in masters.Values; }
    assert GoodRanges(rs) ==> forall j :: at < j < |rs| ==> rs[at].to < rs[j].from;
  }

  lemma PlainBits(a: bv16, cur: bv32)
    requires a < 0x4000 && cur == a as bv32
    ensures cur < 0x8000 && (cur & 0x3fff) as bv16 == a && cur & 0x4000 == 0
  {}

  lemma ForcedBits(a: bv16, cur: bv32)
    requires a < 0x4000 && cur == (a as bv32) | 0x4000
    ensures cur < 0x8000 && (cur & 0x3fff) as bv16 == a && cur & 0x4000 != 0
  {}

  lemma PlainReads(a: bv16)
    requires a < 0x4000
    ensures (a as bv32) < 0x8000 && EntryOf(a as bv32, false) == Entry(a as nat, false)
  {
    PlainBits(a, a as bv32);
  }

  lemma ForcedReads(a: bv16)
    requires a < 0x4000
    ensures (a as bv32) | 0x4000 < 0x8000 && EntryOf((a as bv32) | 0x4000, false) == Entry(a as nat, true)
  {
    ForcedBits(a, (a as bv32) | 0x4000);
  }

  /** cur: the number, and the flag of a forced slot. */
  method Cur(n: nat, forced: bool) returns (cur: bv32)
    requires n < 0x4000
    ensures cur < 0x8000 && EntryOf(cur, false) == Entry(n, forced)
  {
    var number := Uint16(n);
    FitsField(number);
    cur := CurOf(number, forced);
  }

  method CurOf(number: bv16, forced: bool) returns (cur: bv32)
    requires number < 0x4000
    ensures cur < 0x8000 && EntryOf(cur, false) == Entry(number as nat, forced)
  {
    if forced {
      ForcedReads(number);
      return (number as bv32) | 0x4000;
    }
    PlainReads(number);
    return number as bv32;
  }

  lemma PackedLow(lo: bv32, hi: bv32, word: bv32)
    requires lo < 0x8000 && word == lo | (hi << 16)
    ensures word & 0x3fff == lo & 0x3fff && word & 0x4000 == lo & 0x4000
  {}

  lemma PackedHigh(lo: bv32, hi: bv32, word: bv32)
    requires lo < 0x8000 && hi < 0x8000 && word == lo | (hi << 16)
    ensures (word >> 16) & 0x3fff == hi & 0x3fff && (word & (0x4000 << 16) != 0 <==> hi & 0x4000 != 0)
  {}

  /** sh |= cur << 16: the word reads as its two halves. */
  method PackedIn(lo: bv32, hi: bv32) returns (word: bv32)
    requires lo < 0x8000 && hi < 0x8000
    ensures EntryOf(word, false) == EntryOf(lo, false) && EntryOf(word, true) == EntryOf(hi, false)
  {
    word := lo | (hi << 16);
    PackedLow(lo, hi, word);
    PackedHigh(lo, hi, word);
  }

  /** The packing loop of updateMappings. */
  method FillSlots(t: Table, rs: seq<SlotsRange>, masters: map<string, nat>, random: nat, forced: set<nat>)
    requires t.Valid() && Ready(rs, masters, random)
    modifies t.slots
    ensures AllInstalled(masters, random, forced, t.Entries())
    ensures GoodRanges(rs) ==> AllOwed(rs, masters, random, forced, t.Entries())
  {
    var at := 0;
    var sh: bv32 := 0;
    ghost var done: seq<Entry> := [];
    var i := 0;
    while i < NUM_SLOTS
      invariant i <= NUM_SLOTS && at <= |rs| && |done| == i / 2 * 2
      invariant Passed(rs, at, i)
      invariant sh < 0x8000 && (i % 2 == 1 ==> Settled(rs, masters, random, forced, i - 1, EntryOf(sh, false)))
      invariant AllSettled(rs, masters, random, forced, done)
      invariant forall k :: 0 <= k < |done| ==> done[k] == EntryOf(t.slots[k / 2], k % 2 == 1)
    {
      if at < |rs| && i > rs[at].to {
        at := at + 1;
      }
      var n := Number(rs, masters, random, i, at);
      var cur := Cur(n, i in forced);
      NumberSettled(rs, masters, random, forced, i, at);
      if i % 2 == 0 {
        sh := cur;
      } else {
        var word := PackedIn(sh, cur);
        SettleTwo(rs, masters, random, forced, done, EntryOf(sh, false), EntryOf(cur, false));
        done := done + [EntryOf(word, false), EntryOf(word, true)];
        t.slots[i / 2] := word;
      }
      i := i + 1;
    }
    assert t.Entries() == done;
    SettledIsDue(rs, masters, random, forced, done);
  }

  lemma SettledIsDue(rs: seq<SlotsRange>, masters: map<string, nat>, random: nat, forced: set<nat>, es: seq<Entry>)
    requires AllSettled(rs, masters, random, forced, es)
    ensures AllInstalled(masters, random, forced, es) && (GoodRanges(rs) ==> AllOwed(rs, masters, random, forced, es))
  {}

  ghost predicate AllSettled(rs: seq<SlotsRange>, masters: map<string, nat>, random: nat, forced: set<nat>,
      es: seq<Entry>) {
    forall i :: 0 <= i < |es| ==> Settled(rs, masters, random, forced, i, es[i])
  }

  lemma SettleTwo(rs: seq<SlotsRange>, masters: map<string, nat>, random: nat, forced: set<nat>, es: seq<Entry>,
      e: Entry, f: Entry)
    requires AllSettled(rs, masters, random, forced, es)
    requires Settled(rs, masters, random, forced, |es|, e) && Settled(rs, masters, random, forced, |es| + 1, f)
    ensures AllSettled(rs, masters, random, forced, es + [e, f])
  {}

  /** The ranges before `at` end before slot i, and no later one does. */
  predicate Passed(rs: seq<SlotsRange>, at: nat, i: nat) {
    GoodRanges(rs) ==> at <= |rs| && (forall j :: 0 <= j < at ==> rs[j].to < i) && (at < |rs| ==> i <= rs[at].to + 1)
  }

  method BuildTable(rs: seq<SlotsRange>, masters: map<string, nat>, random: nat, forced: set<nat>) returns (t: Table)
    requires Ready(rs, masters, random)
    ensures fresh(t) && fresh(t.slots) && t.Valid() && AllInstalled(masters, random, forced, t.Entries())
    ensures GoodRanges(rs) ==> AllOwed(rs, masters, random, forced, t.Entries())
  {
    t := new Table();
    FillSlots(t, rs, masters, random, forced);
  }

  // ---------------------------------------------------------- configuration

  /** Every slot has an installed shard, masters are numbered by their shards and the other way
      round, every shard address has a node, and the health masks are sane. */
  ghost predicate ConfigOk(shards: seq<Shard>, masters: map<string, nat>, nodes: set<string>, es: seq<Entry>) {
    && Consistent(shards, masters) && HealthKept(shards) && |shards| <= 0x4000
    && (forall i, a :: 0 <= i < |shards| && a in shards[i].addr ==> a in nodes)
    && (shards != [] ==> forall s :: 0 <= s < |es| ==> es[s].shard < |shards|)
  }

  function AddressesOf(rs: seq<SlotsRange>): set<string> {
    set r, a | r in rs && a in r.addrs :: a
  }

  lemma InstalledReady(rs: seq<SlotsRange>, shards: seq<Shard>, masters: map<string, nat>, random: nat)
    requires Installable(rs) && Installed(AddressLists(rs), {}, shards, masters)
    requires |shards| <= 0x4000 && random < |shards|
    ensures Ready(rs, masters, random)
  {
    ListsAreRanges(rs);
  }

  lemma InstalledNodes(rs: seq<SlotsRange>, shards: seq<Shard>, masters: map<string, nat>, i: nat, a: string)
    requires Installable(rs) && Installed(AddressLists(rs), {}, shards, masters)
    requires i < |shards| && a in shards[i].addr
    ensures a in AddressesOf(rs)
  {
    ListsAreRanges(rs);
    var key := shards[i].addr[0];
    var j :| 0 <= j < |rs| && rs[j].addrs == AddressLists(rs)[key];
    assert rs[j] in rs && a in rs[j].addrs;
  }

  /** What updateMappings builds from non-empty ranges is a well-formed configuration. */
  lemma NewConfigOk(rs: seq<SlotsRange>, shards: seq<Shard>, masters: map<string, nat>, random: nat,
      forced: set<nat>, es: seq<Entry>)
    requires Installable(rs) && Installed(AddressLists(rs), {}, shards, masters)
    requires |shards| <= 0x4000 && random < |shards| && AllInstalled(masters, random, forced, es)
    ensures ConfigOk(shards, masters, AddressesOf(rs), es)
  {
    InstalledReady(rs, shards, masters, random);
    forall i, a | 0 <= i < |shards| && a in shards[i].addr ensures a in AddressesOf(rs) {
      InstalledNodes(rs, shards, masters, i, a);
    }
    forall s | 0 <= s < |es| ensures es[s].shard < |shards| {
      assert InstalledEntry(masters, random, forced, s, es[s]);
    }
  }

  predicate SameMaster(s: Shard, r: SlotsRange) {
    s.addr != [] && r.addrs != [] && s.addr[0] == r.addrs[0]
  }

  /** Every shard has the address list of its master's last range. */
  predicate ListOfLast(rs: seq<SlotsRange>, s: Shard) {
    forall j :: 0 <= j < |rs| && IsLast(rs, j) && SameMaster(s, rs[j]) ==> s.addr == rs[j].addrs
  }

  predicate LastListed(rs: seq<SlotsRange>, shards: seq<Shard>) {
    forall i :: 0 <= i < |shards| ==> ListOfLast(rs, shards[i])
  }

  function MastersOf(rs: seq<SlotsRange>): set<string> {
    set r | r in rs && r.addrs != [] :: r.addrs[0]
  }

  lemma InstalledMasters(rs: seq<SlotsRange>)
    requires Installable(rs)
    ensures AddressLists(rs).Keys == MastersOf(rs)
  {
    ListsAreRanges(rs);
    forall a | a in AddressLists(rs) ensures a in MastersOf(rs) {
      var i :| 0 <= i < |rs| && rs[i].addrs == AddressLists(rs)[a] && rs[i].addrs[0] == a;
      assert rs[i] in rs;
    }
  }

  lemma InstalledListed(rs: seq<SlotsRange>, shards: seq<Shard>, masters: map<string, nat>)
    requires Installable(rs) && Installed(AddressLists(rs), {}, shards, masters)
    ensures LastListed(rs, shards)
  {
    forall j | 0 <= j < |rs| && IsLast(rs, j)
      ensures rs[j].addrs[0] in AddressLists(rs) && AddressLists(rs)[rs[j].addrs[0]] == rs[j].addrs
    {
      LastListCounts(rs, j);
    }
  }

  /** The masters are those of the ranges, each shard has the address list of its master's last range, and
      a list that the previous configuration had keeps its health. */
  ghost predicate ShardsBuilt(rs: seq<SlotsRange>, oldShards: seq<Shard>, shards: seq<Shard>,
      masters: map<string, nat>) {
    masters.Keys == MastersOf(rs) && LastListed(rs, shards) && HealthInherited(oldShards, shards)
  }

  /** Each slot has an installed shard and the right mark; sorted disjoint ranges get what they are owed. */
  ghost predicate TableBuilt(rs: seq<SlotsRange>, masters: map<string, nat>, random: nat, forced: set<nat>,
      es: seq<Entry>) {
    AllInstalled(masters, random, forced, es) && (GoodRanges(rs) ==> AllOwed(rs, masters, random, forced, es))
  }

  /** The whole of updateMappings but the nodes. */
  method BuildConfig(rs: seq<SlotsRange>, oldShards: seq<Shard>, oldMasters: map<string, nat>, forced: set<nat>)
    returns (shards: seq<Shard>, masters: map<string, nat>, random: nat, t: Table)
    requires Installable(rs) && rs != [] && Consistent(oldShards, oldMasters) && HealthKept(oldShards)
    ensures fresh(t) && fresh(t.slots) && t.Valid()
    ensures ConfigOk(shards, masters, AddressesOf(rs), t.Entries())
    ensures ShardsBuilt(rs, oldShards, shards, masters)
    ensures random < |shards| && TableBuilt(rs, masters, random, forced, t.Entries())
  {
    shards, masters, random := BuildShards(rs, oldShards, oldMasters);
    InstalledReady(rs, shards, masters, random);
    InstalledListed(rs, shards, masters);
    InstalledMasters(rs);
    CarriedHealth(oldShards, oldMasters, shards);
    t := BuildTable(rs, masters, random, forced);
    NewConfigOk(rs, shards, masters, random, forced, t.Entries());
  }

  class Config {
    var shards: seq<Shard>
    var masters: map<string, nat>
    var nodes: set<string>
    var table: Table

    ghost predicate Valid()
      reads this, table.slots
    {
      table.Valid() && ConfigOk(shards, masters, nodes, table.Entries())
    }

    constructor (initial: set<string>)
      ensures Valid() && shards == [] && nodes == initial && fresh(table) && fresh(table.slots)
    {
      shards, masters, nodes := [], map[], initial;
      table := new Table();
    }

    /** updateMappings: a fresh table; sorted disjoint ranges owe each slot its range's master, and other
        slots `random`. */
    method UpdateMappings(rs: seq<SlotsRange>, forced: set<nat>) returns (random: nat)
      requires Valid() && Installable(rs) && rs != []
      modifies this
      ensures Valid() && fresh(table) && fresh(table.slots)
      ensures nodes == AddressesOf(rs) && ShardsBuilt(rs, old(shards), shards, masters)
      ensures random < |shards| && TableBuilt(rs, masters, random, forced, table.Entries())
    {
      var newShards, newMasters, number, t := BuildConfig(rs, shards, masters, forced);
      ghost var es := t.Entries();
      shards, masters, nodes, table, random := newShards, newMasters, AddressesOf(rs), t, number;
      assert table.Entries() == es;
    }

    /** execCommand "moved": from now on the slot reads the shard whose master has the address, if there
        is one; a mark survives only if it read that shard before. */
    method Moved(slot: nat, addr: string)
      requires Valid() && slot < NUM_SLOTS
      modifies table.slots
      ensures Valid()
      ensures addr !in masters ==> table.Entries() == old(table.Entries())
      ensures addr in masters ==> var e := table.Entries()[slot];
                && e.shard == masters[addr] < |shards| && shards[e.shard].addr[0] == addr
                && (e.asking <==> old(table.Entries())[slot].asking && old(table.Entries())[slot].shard == e.shard)
      ensures OnlySlot(old(table.Entries()), table.Entries(), slot)
    {
      if addr !in masters {
        return;
      }
      var addrshard := masters[addr];
      var slotshard := table.ShardOf(slot);
      if addrshard == slotshard {
        return;
      }
      table.SetShard(slot, addrshard);
    }

    /** execCommand "asking". */
    method Asking(slot: nat)
      requires Valid() && slot < NUM_SLOTS
      modifies table.slots
      ensures Valid()
      ensures table.Entries() == old(table.Entries())[slot := old(table.Entries())[slot].(asking := true)]
    {
      table.MarkAsking(slot);
    }

    /** addNode as far as the configuration is concerned. */
    method AddNode(addr: string)
      requires Valid()
      modifies this`nodes
      ensures Valid() && nodes == old(nodes) + {addr}
    {
      nodes := nodes + {addr};
    }
  }
}
