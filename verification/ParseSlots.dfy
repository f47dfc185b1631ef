/** ParseSlotsInfo of rediscluster/redisclusterutil/cluster.go: the reply to CLUSTER SLOTS becomes the
    ranges that updateMappings builds a configuration from. */
module ParseSlots {
  import opened Errors
  import opened Decimal
  import opened Resp
  import opened Mapping

  const SLOTS: int := 16384

  // ----------------------------------------------------------------- sorting

  predicate Sorted<T>(le: (T, T) -> bool, s: seq<T>) {
    forall i, j :: 0 <= i < j < |s| ==> le(s[i], s[j])
  }

  ghost predicate IsOrder<T(!new)>(le: (T, T) -> bool) {
    && (forall a, b :: le(a, b) || le(b, a))
    && (forall a, b, c :: le(a, b) && le(b, c) ==> le(a, c))
  }

  function Insert<T>(le: (T, T) -> bool, x: T, s: seq<T>): seq<T> {
    if s == [] || le(x, s[0]) then [x] + s else [s[0]] + Insert(le, x, s[1..])
  }

  /** Stands for the library's sort. */
  function Sort<T>(le: (T, T) -> bool, s: seq<T>): seq<T> {
    if s == [] then [] else Insert(le, s[0], Sort(le, s[1..]))
  }

  lemma {:induction false} InsertAdds<T>(le: (T, T) -> bool, x: T, s: seq<T>)
    ensures multiset(Insert(le, x, s)) == multiset{x} + multiset(s)
    ensures forall y :: y in Insert(le, x, s) ==> y == x || y in s
  {
    if s != [] && !le(x, s[0]) {
      InsertAdds(le, x, s[1..]);
      assert s == [s[0]] + s[1..];
    }
  }

  lemma {:induction false} InsertSorts<T(!new)>(le: (T, T) -> bool, x: T, s: seq<T>)
    requires IsOrder(le) && Sorted(le, s)
    ensures Sorted(le, Insert(le, x, s))
  {
    if s != [] && !le(x, s[0]) {
      InsertSorts(le, x, s[1..]);
      InsertAdds(le, x, s[1..]);
      ConsSorts(le, s[0], s[1..], x, Insert(le, x, s[1..]));
    }
  }

  lemma ConsSorts<T(!new)>(le: (T, T) -> bool, first: T, s: seq<T>, x: T, tail: seq<T>)
    requires le(first, x) && (forall i :: 0 <= i < |s| ==> le(first, s[i])) && Sorted(le, tail)
    requires forall y :: y in tail ==> y == x || y in s
    ensures Sorted(le, [first] + tail)
  {
    forall j | 0 <= j < |tail| ensures le(first, tail[j]) {
      assert tail[j] in tail;
    }
  }

  lemma {:induction false} SortSorts<T(!new)>(le: (T, T) -> bool, s: seq<T>)
    requires IsOrder(le)
    ensures Sorted(le, Sort(le, s)) && multiset(Sort(le, s)) == multiset(s)
  {
    if s != [] {
      SortSorts(le, s[1..]);
      InsertSorts(le, s[0], Sort(le, s[1..]));
      InsertAdds(le, s[0], Sort(le, s[1..]));
      assert s == [s[0]] + s[1..];
    }
  }

  /** The order of Go strings. */
  predicate TextLE(a: string, b: string) {
    a == [] || (b != [] && (a[0] < b[0] || (a[0] == b[0] && TextLE(a[1..], b[1..]))))
  }

  lemma {:induction false} TextTotal(a: string, b: string)
    ensures TextLE(a, b) || TextLE(b, a)
  {
    if a != [] && b != [] { TextTotal(a[1..], b[1..]); }
  }

  lemma {:induction false} TextTransitive(a: string, b: string, c: string)
    requires TextLE(a, b) && TextLE(b, c)
    ensures TextLE(a, c)
  {
    if a != [] && a[0] == b[0] == c[0] { TextTransitive(a[1..], b[1..], c[1..]); }
  }

  lemma TextOrder()
    ensures IsOrder(TextLE)
  {
    forall a: string, b: string ensures TextLE(a, b) || TextLE(b, a) { TextTotal(a, b); }
    forall a: string, b: string, c: string | TextLE(a, b) && TextLE(b, c) ensures TextLE(a, c) {
      TextTransitive(a, b, c);
    }
  }

  /** It is the dictionary order: a text comes before its continuations, and otherwise the first character
      that differs decides. */
  lemma {:induction false} TextLEIff(a: string, b: string)
    ensures TextLE(a, b)
            <==> a <= b || exists k :: 0 <= k < |a| && k < |b| && a[..k] == b[..k] && a[k] < b[k]
  {
    if a != [] && b != [] && a[0] == b[0] {
      TextLEIff(a[1..], b[1..]);
      FirstSame(a, b);
    }
    if a != [] && b != [] && a[0] < b[0] { assert a[..0] == b[..0]; }
  }

  /** Below a first character in common. */
  lemma FirstSame(a: string, b: string)
    requires a != [] && b != [] && a[0] == b[0]
    ensures a <= b <==> a[1..] <= b[1..]
    ensures (exists k :: 0 <= k < |a| && k < |b| && a[..k] == b[..k] && a[k] < b[k])
            <==> exists k :: 0 <= k < |a[1..]| && k < |b[1..]| && a[1..][..k] == b[1..][..k] && a[1..][k] < b[1..][k]
  {
    forall k | 0 < k < |a| && k < |b| ensures a[..k] == b[..k] <==> a[1..][..k - 1] == b[1..][..k - 1] {
      assert a[..k] == [a[0]] + a[1..][..k - 1] && b[..k] == [b[0]] + b[1..][..k - 1];
    }
  }

  predicate FromLE(a: SlotsRange, b: SlotsRange) { a.from <= b.from }

  // ------------------------------------------------------------------- reply

  function AsText(s: Bytes): string {
    seq(|s|, i requires 0 <= i < |s| => s[i] as char)
  }

  /** The port check, in int64 arithmetic. */
  predicate PortPasses(port: int) {
    port > 0 && Wrap64(port + 10000) <= 65535
  }

  /** The check admits the ports whose cluster bus port fits 16 bits, and the last 10000 int64 values,
      for which the sum wraps around. */
  lemma PortPassesIff(port: int)
    requires IsInt64(port)
    ensures PortPasses(port) <==> 1 <= port <= 55535 || port >= 0x8000_0000_0000_0000 - 10000
  {}

  predicate GoodAddr(v: Value) {
    v.List? && |v.items| >= 2 && v.items[0].Blob? && v.items[1].Number? && PortPasses(v.items[1].i)
  }

  /** host:port */
  function AddrOf(v: Value): string
    requires GoodAddr(v)
  {
    AsText(v.items[0].bytes) + ":" + AsText(IntText(v.items[1].i))
  }

  predicate GoodSlot(v: Value) {
    v.Number? && 0 <= v.i < SLOTS
  }

  predicate GoodElem(v: Value) {
    && v.List? && |v.items| >= 3 && GoodSlot(v.items[0]) && GoodSlot(v.items[1]) && v.items[0].i <= v.items[1].i
    && forall j :: 2 <= j < |v.items| ==> GoodAddr(v.items[j])
  }

  predicate GoodReply(v: Value) {
    v.List? && v.items != [] && forall i :: 0 <= i < |v.items| ==> GoodElem(v.items[i])
  }

  /** An element is accepted exactly if it has two slots in order, both below 16384, and after them one or more
      addresses, each a host and a port that the check admits, whatever follows them. */
  lemma GoodElemIff(items: seq<Value>)
    requires forall j :: 2 <= j < |items| && items[j].List? && |items[j].items| >= 2 && items[j].items[1].Number? ==>
               IsInt64(items[j].items[1].i)
    ensures GoodElem(List(items)) <==>
            && |items| >= 3 && items[0].Number? && items[1].Number? && 0 <= items[0].i <= items[1].i <= 16383
            && forall j :: 2 <= j < |items| ==>
                 && items[j].List? && |items[j].items| >= 2 && items[j].items[0].Blob? && items[j].items[1].Number?
                 && (1 <= items[j].items[1].i <= 55535 || items[j].items[1].i >= 0x8000_0000_0000_0000 - 10000)
  {
    forall j | 2 <= j < |items| && items[j].List? && |items[j].items| >= 2 && items[j].items[1].Number?
      ensures PortPasses(items[j].items[1].i)
              <==> 1 <= items[j].items[1].i <= 55535 || items[j].items[1].i >= 0x8000_0000_0000_0000 - 10000
    {
      PortPassesIff(items[j].items[1].i);
    }
  }

  /** The addresses of an element, in the order of the reply. */
  function AddrsOf(v: Value): (addrs: seq<string>)
    requires GoodElem(v)
    ensures |addrs| == |v.items| - 2
  {
    seq(|v.items| - 2, j requires 0 <= j < |v.items| - 2 => AddrOf(v.items[j + 2]))
  }

  /** The range keeps the bounds and the addresses; the master stays first and the replicas are sorted. */
  ghost predicate RangeFrom(v: Value, r: SlotsRange) {
    && GoodElem(v)
    && r.from == v.items[0].i && r.to == v.items[1].i
    && |r.addrs| == |v.items| - 2 && r.addrs[0] == AddrsOf(v)[0]
    && multiset(r.addrs) == multiset(AddrsOf(v)) && Sorted(TextLE, r.addrs[1..])
  }

  /** One element of the reply; None stands for its error. */
  method ParseElem(v: Value) returns (r: Option<SlotsRange>)
    ensures r.None? <==> !GoodElem(v)
    ensures r.Some? ==> RangeFrom(v, r.value)
  {
    if !v.List? || |v.items| < 3 || !GoodSlot(v.items[0]) || !GoodSlot(v.items[1]) || v.items[0].i > v.items[1].i {
      return None;
    }
    var addrs: seq<string> := [];
    for j := 2 to |v.items|
      invariant |addrs| == j - 2
      invariant forall k :: 2 <= k < j ==> GoodAddr(v.items[k]) && addrs[k - 2] == AddrOf(v.items[k])
    {
      if !GoodAddr(v.items[j]) {
        return None;
      }
      addrs := addrs + [AddrOf(v.items[j])];
    }
    assert addrs == AddrsOf(v);
    MasterFirst(addrs);
    return Some(SlotsRange(v.items[0].i, v.items[1].i, [addrs[0]] + Sort(TextLE, addrs[1..])));
  }

  lemma MasterFirst(addrs: seq<string>)
    requires addrs != []
    ensures var s := [addrs[0]] + Sort(TextLE, addrs[1..]);
      |s| == |addrs| && multiset(s) == multiset(addrs) && Sorted(TextLE, s[1..])
  {
    TextOrder();
    SortSorts(TextLE, addrs[1..]);
    assert addrs == [addrs[0]] + addrs[1..];
    var s := [addrs[0]] + Sort(TextLE, addrs[1..]);
    assert |multiset(s)| == |s| && |multiset(addrs)| == |addrs|;
    assert s[1..] == Sort(TextLE, addrs[1..]);
  }

  ghost predicate RangesFrom(items: seq<Value>, raw: seq<SlotsRange>) {
    |raw| == |items| && forall i :: 0 <= i < |items| ==> RangeFrom(items[i], raw[i])
  }

  /** ParseSlotsInfo: it accepts exactly the well-formed replies, and returns their ranges by first slot. */
  method ParseSlotsInfo(res: Value) returns (r: Option<seq<SlotsRange>>, ghost raw: seq<SlotsRange>)
    ensures r.Some? <==> GoodReply(res)
    ensures r.Some? ==> RangesFrom(res.items, raw) && multiset(r.value) == multiset(raw) && Sorted(FromLE, r.value)
  {
    raw := [];
    if !res.List? || res.items == [] {
      return None, raw;
    }
    var ranges: seq<SlotsRange> := [];
    for i := 0 to |res.items|
      invariant |ranges| == i
      invariant forall k :: 0 <= k < i ==> RangeFrom(res.items[k], ranges[k])
    {
      var range := ParseElem(res.items[i]);
      if range.None? {
        return None, raw;
      }
      ranges := ranges + [range.value];
    }
    SortSorts(FromLE, ranges);
    return Some(Sort(FromLE, ranges)), ranges;
  }

  // ---------------------------------------------------------- overlapping ranges

  predicate Share(a: SlotsRange, b: SlotsRange) {
    a.from <= b.to && b.from <= a.to
  }

  predicate Apart(s: seq<SlotsRange>) {
    forall i, j :: 0 <= i < j < |s| ==> !Share(s[i], s[j])
  }

  predicate Bounded(s: seq<SlotsRange>) {
    forall i :: 0 <= i < |s| ==> s[i].from <= s[i].to < SLOTS && 0 < |s[i].addrs| < 0x4000_0000
  }

  predicate ApartInBag(m: multiset<SlotsRange>) {
    (forall a, b :: a in m && b in m && a != b ==> !Share(a, b)) && (forall a :: a in m ==> m[a] == 1)
  }

  lemma {:induction false} TwoPlaces(s: seq<SlotsRange>, a: SlotsRange) returns (i: nat, j: nat)
    requires multiset(s)[a] >= 2
    ensures i < j < |s| && s[i] == a && s[j] == a
  {
    assert s == [s[0]] + s[1..];
    if s[0] == a {
      assert a in multiset(s[1..]);
      i := 0;
      j :| 0 < j < |s| && s[j] == a;
    } else {
      i, j := TwoPlaces(s[1..], a);
      i, j := i + 1, j + 1;
    }
  }

  lemma TwiceInBag(s: seq<SlotsRange>, i: nat, j: nat)
    requires i < j < |s| && s[i] == s[j]
    ensures multiset(s)[s[i]] >= 2
  {
    assert s == s[..j] + s[j..];
    assert s[i] in s[..j] && s[j] in s[j..];
  }

  lemma ApartIff(s: seq<SlotsRange>)
    requires forall i :: 0 <= i < |s| ==> s[i].from <= s[i].to
    ensures Apart(s) <==> ApartInBag(multiset(s))
  {
    if Apart(s) {
      forall a, b | a in multiset(s) && b in multiset(s) && a != b ensures !Share(a, b) {
        var i :| 0 <= i < |s| && s[i] == a;
        var j :| 0 <= j < |s| && s[j] == b;
        assert i < j || j < i;
      }
      forall a | a in multiset(s) ensures multiset(s)[a] == 1 {
        if multiset(s)[a] >= 2 {
          var i, j := TwoPlaces(s, a);
          assert false;
        }
      }
    }
    if ApartInBag(multiset(s)) {
      forall i, j | 0 <= i < j < |s| ensures !Share(s[i], s[j]) {
        assert s[i] in multiset(s) && s[j] in multiset(s);
        if s[i] == s[j] {
          TwiceInBag(s, i, j);
          assert false;
        }
      }
    }
  }

  /** The ranges are what updateMappings relies on exactly when no two elements of the reply share a slot,
      which ParseSlotsInfo does not check. */
  lemma ParsedGoodIff(items: seq<Value>, raw: seq<SlotsRange>, rs: seq<SlotsRange>)
    requires RangesFrom(items, raw) && multiset(rs) == multiset(raw) && Sorted(FromLE, rs)
    requires forall i :: 0 <= i < |items| ==> |items[i].items| < 0x4000_0000
    ensures GoodRanges(rs) <==> Apart(raw)
  {
    assert Bounded(raw);
    forall i | 0 <= i < |rs| ensures rs[i].from <= rs[i].to < SLOTS && 0 < |rs[i].addrs| < 0x4000_0000 {
      assert rs[i] in multiset(raw);
      var k :| 0 <= k < |raw| && raw[k] == rs[i];
    }
    ApartIff(raw);
    ApartIff(rs);
    SortedApartIff(rs);
  }

  lemma SortedApartIff(rs: seq<SlotsRange>)
    requires Bounded(rs) && Sorted(FromLE, rs)
    ensures GoodRanges(rs) <==> Apart(rs)
  {
    if Apart(rs) {
      forall i, j | 0 <= i < j < |rs| ensures rs[i].to < rs[j].from {
        assert FromLE(rs[i], rs[j]) && !Share(rs[i], rs[j]);
      }
    }
  }

  /** A reply whose elements share no slot can be installed as it is. */
  lemma ParsedInstalls(items: seq<Value>, raw: seq<SlotsRange>, rs: seq<SlotsRange>)
    requires RangesFrom(items, raw) && multiset(rs) == multiset(raw) && Sorted(FromLE, rs)
    requires (forall i :: 0 <= i < |items| ==> |items[i].items| < 0x4000_0000) && Apart(raw)
    ensures Installable(rs)
  {
    ParsedGoodIff(items, raw, rs);
    GoodInstallable(rs);
  }

  /** An element with one address. */
  function Elem(from: nat, to: nat, host: Bytes): Value {
    List([Number(from), Number(to), List([Blob(host), Number(6379)])])
  }

  function ElemRange(from: nat, to: nat, host: Bytes): SlotsRange {
    SlotsRange(from, to, [AsText(host) + ":" + AsText(IntText(6379))])
  }

  lemma ElemParses(from: nat, to: nat, host: Bytes)
    requires from <= to < SLOTS
    ensures RangeFrom(Elem(from, to, host), ElemRange(from, to, host))
  {
    var v, r := Elem(from, to, host), ElemRange(from, to, host);
    assert GoodAddr(v.items[2]);
    assert AddrOf(v.items[2]) == r.addrs[0];
    assert |AddrsOf(v)| == 1 && AddrsOf(v)[0] == AddrOf(v.items[2]);
    assert AddrsOf(v) == r.addrs;
  }

  lemma HostPort(host: Byte, addr: string)
    requires |addr| == 6 && addr[0] == host as char && addr[1..] == ":6379"
    ensures AsText([host]) + ":" + AsText(IntText(6379)) == addr
  {
    assert IntText(6379) == [54, 51, 55, 57];
    assert AsText(IntText(6379)) == "6379";
  }

  /** An accepted reply whose ranges overlap: slots 0..100 and 50..150 of two masters. */
  lemma OverlapAccepted() returns (res: Value, raw: seq<SlotsRange>)
    ensures GoodReply(res) && RangesFrom(res.items, raw) && Sorted(FromLE, raw)
    ensures !Apart(raw) && !GoodRanges(raw) && Covers(raw[0], 75) && Covers(raw[1], 75)
            && raw[0].addrs == ["a:6379"] && raw[1].addrs == ["b:6379"]
  {
    var a: Bytes, b: Bytes := [97], [98];
    res := List([Elem(0, 100, a), Elem(50, 150, b)]);
    raw := [ElemRange(0, 100, a), ElemRange(50, 150, b)];
    ElemParses(0, 100, a);
    ElemParses(50, 150, b);
    assert Share(raw[0], raw[1]);
    HostPort(97, "a:6379");
    HostPort(98, "b:6379");
  }
}
