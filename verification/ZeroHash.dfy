/** A name whose fnv1a64NoCase hash (redis/command_type.go) is zero, the value that marks empty cells. */
module ZeroHash {
  import opened Bits
  import opened Decimal
  import opened CommandSet

  // ------------------------------------------------------------ xor bit by bit

  function Differ(b: nat, c: nat): nat { if b == c then 0 else 1 }

  lemma NextHalves(x: nat, y: nat, b: nat, c: nat)
    requires b < 2 && c < 2
    ensures (2 * x + b) / 2 == x && (2 * y + c) / 2 == y && (2 * x + b + (2 * y + c)) % 2 == Differ(b, c)
  {}

  lemma FromHalves(z: nat, r: nat, d: nat)
    requires z / 2 == r && z % 2 == d
    ensures z == 2 * r + d
  {}

  /** One more bit on both sides. */
  lemma XorNext(x: nat, y: nat, r: nat, b: nat, c: nat)
    requires Xor(x, y) == r && b < 2 && c < 2
    ensures Xor(2 * x + b, 2 * y + c) == 2 * r + Differ(b, c)
  {
    NextHalves(x, y, b, c);
    XorHalf(2 * x + b, 2 * y + c);
    FromHalves(Xor(2 * x + b, 2 * y + c), r, Differ(b, c));
  }

  /** x with four more bits, highest first. */
  function Four(x: nat, a: nat, b: nat, c: nat, d: nat): nat {
    2 * (2 * (2 * (2 * x + a) + b) + c) + d
  }

  lemma XorFour(x: nat, y: nat, r: nat, a: nat, b: nat, c: nat, d: nat, i: nat, j: nat, k: nat, l: nat)
    requires Xor(x, y) == r && a < 2 && b < 2 && c < 2 && d < 2 && i < 2 && j < 2 && k < 2 && l < 2
    ensures Xor(Four(x, a, b, c, d), Four(y, i, j, k, l))
         == Four(r, Differ(a, i), Differ(b, j), Differ(c, k), Differ(d, l))
  {
    var x1, y1, r1 := 2 * x + a, 2 * y + i, 2 * r + Differ(a, i);
    var x2, y2, r2 := 2 * x1 + b, 2 * y1 + j, 2 * r1 + Differ(b, j);
    var x3, y3, r3 := 2 * x2 + c, 2 * y2 + k, 2 * r2 + Differ(c, k);
    XorNext(x, y, r, a, i);
    XorNext(x1, y1, r1, b, j);
    XorNext(x2, y2, r2, c, k);
    XorNext(x3, y3, r3, d, l);
  }

  /** The byte with these bits, highest first. */
  function Eight(a: nat, b: nat, c: nat, d: nat, e: nat, f: nat, g: nat, h: nat): nat {
    Four(Four(0, a, b, c, d), e, f, g, h)
  }

  lemma XorEight(a: nat, b: nat, c: nat, d: nat, e: nat, f: nat, g: nat, h: nat,
                 i: nat, j: nat, k: nat, l: nat, m: nat, n: nat, o: nat, p: nat)
    requires a < 2 && b < 2 && c < 2 && d < 2 && e < 2 && f < 2 && g < 2 && h < 2
    requires i < 2 && j < 2 && k < 2 && l < 2 && m < 2 && n < 2 && o < 2 && p < 2
    ensures Xor(Eight(a, b, c, d, e, f, g, h), Eight(i, j, k, l, m, n, o, p))
         == Eight(Differ(a, i), Differ(b, j), Differ(c, k), Differ(d, l),
                  Differ(e, m), Differ(f, n), Differ(g, o), Differ(h, p))
  {
    assert Xor(0, 0) == 0;
    XorFour(0, 0, 0, a, b, c, d, i, j, k, l);
    var r := Four(0, Differ(a, i), Differ(b, j), Differ(c, k), Differ(d, l));
    XorFour(Four(0, a, b, c, d), Four(0, i, j, k, l), r, e, f, g, h, m, n, o, p);
  }

  /** a << k */
  function Shl(a: nat, k: nat): nat {
    if k == 0 then a else 2 * Shl(a, k - 1)
  }

  lemma HalfBelow(l: nat, p: nat)
    requires l < 2 * p
    ensures l / 2 < p
  {}

  /** A number of k bits changes the low k bits only. */
  lemma {:induction false} XorLow(a: nat, l: nat, f: nat, k: nat)
    requires l < Shl(1, k) && f < Shl(1, k)
    ensures Xor(Shl(a, k) + l, f) == Shl(a, k) + Xor(l, f)
    decreases k
  {
    if k == 0 {
      XorZero(a);
      assert Xor(0, 0) == 0;
    } else {
      HalfBelow(l, Shl(1, k - 1));
      HalfBelow(f, Shl(1, k - 1));
      XorLow(a, l / 2, f / 2, k - 1);
      XorLowBit(Shl(a, k - 1), l / 2, f / 2, l % 2, f % 2, l, f);
    }
  }

  lemma XorLowBit(m: nat, x: nat, y: nat, b: nat, c: nat, l: nat, f: nat)
    requires Xor(m + x, y) == m + Xor(x, y) && b < 2 && c < 2 && l == 2 * x + b && f == 2 * y + c
    ensures Xor(2 * m + l, f) == 2 * m + Xor(l, f)
  {
    XorNext(m + x, y, m + Xor(x, y), b, c);
    XorNext(x, y, Xor(x, y), b, c);
  }

  lemma Shl8(a: nat)
    ensures Shl(a, 8) == 256 * a
  {
    assert Shl(a, 1) == 2 * Shl(a, 0) && Shl(a, 2) == 2 * Shl(a, 1) && Shl(a, 3) == 2 * Shl(a, 2);
    assert Shl(a, 4) == 2 * Shl(a, 3) && Shl(a, 5) == 2 * Shl(a, 4) && Shl(a, 6) == 2 * Shl(a, 5);
    assert Shl(a, 7) == 2 * Shl(a, 6) && Shl(a, 8) == 2 * Shl(a, 7);
  }

  // ------------------------------------------------------------------- traces

  /** One byte of the hash without division: from the state 256*high + low, with the folded byte f, which
      turns low into x, to the state `next`, where the product is q * 2^64 + next. */
  datatype Trace = Trace(high: nat, low: nat, f: nat, x: nat, q: nat, next: nat)

  predicate LowByte(c: Byte, t: Trace) {
    t.low < 256 && t.f < 256 && Fold(c) == t.f && Xor(t.low, t.f) == t.x
  }

  predicate Product(t: Trace) {
    && (256 * t.high + t.x) * 1099511628211 == t.q * 0x1_0000_0000_0000_0000 + t.next
    && t.next < 0x1_0000_0000_0000_0000
  }

  lemma TraceIsStep(c: Byte, t: Trace)
    requires LowByte(c, t) && Product(t)
    ensures HashStep(256 * t.high + t.low, c) == t.next
  {
    Shl8(1);
    Shl8(t.high);
    XorLow(t.high, t.low, t.f, 8);
    RemainderIs((256 * t.high + t.x) * 1099511628211, 0x1_0000_0000_0000_0000, t.q, t.next);
  }

  predicate Linked(ts: seq<Trace>) {
    && (|ts| > 0 ==> 256 * ts[0].high + ts[0].low == 14695981039346656037)
    && forall i :: 0 < i < |ts| ==> 256 * ts[i].high + ts[i].low == ts[i - 1].next
  }

  lemma {:induction false} TracedHash(s: Bytes, ts: seq<Trace>)
    requires 0 < |s| == |ts| && Linked(ts)
    requires forall i :: 0 <= i < |s| ==> LowByte(s[i], ts[i]) && Product(ts[i])
    ensures Hash(s) == ts[|s| - 1].next
  {
    var n := |s| - 1;
    TraceIsStep(s[n], ts[n]);
    if n > 0 { TracedHash(s[..n], ts[..n]); }
  }

  // ----------------------------------------------------------------- the name

  lemma Low0(c: Byte, low: nat, f: nat)
    requires c == 49 && low == 37 && f == 17
    ensures Fold(c) == f && Xor(low, f) == 52
  {
    assert Fold(49) == 17;
    XorEight(0, 0, 1, 0, 0, 1, 0, 1, 0, 0, 0, 1, 0, 0, 0, 1);
  }

  lemma Low1(c: Byte, low: nat, f: nat)
    requires c == 72 && low == 92 && f == 72
    ensures Fold(c) == f && Xor(low, f) == 20
  {
    assert Fold(72) == 72;
    XorEight(0, 1, 0, 1, 1, 1, 0, 0, 0, 1, 0, 0, 1, 0, 0, 0);
  }

  lemma Low2(c: Byte, low: nat, f: nat)
    requires c == 44 && low == 252 && f == 12
    ensures Fold(c) == f && Xor(low, f) == 240
  {
    assert Fold(44) == 12;
    XorEight(1, 1, 1, 1, 1, 1, 0, 0, 0, 0, 0, 0, 1, 1, 0, 0);
  }

  lemma Low3(c: Byte, low: nat, f: nat)
    requires c == 44 && low == 208 && f == 12
    ensures Fold(c) == f && Xor(low, f) == 220
  {
    assert Fold(44) == 12;
    XorEight(1, 1, 0, 1, 0, 0, 0, 0, 0, 0, 0, 0, 1, 1, 0, 0);
  }

  lemma Low4(c: Byte, low: nat, f: nat)
    requires c == 67 && low == 212 && f == 67
    ensures Fold(c) == f && Xor(low, f) == 151
  {
    assert Fold(67) == 67;
    XorEight(1, 1, 0, 1, 0, 1, 0, 0, 0, 1, 0, 0, 0, 0, 1, 1);
  }

  lemma Low5(c: Byte, low: nat, f: nat)
    requires c == 79 && low == 149 && f == 79
    ensures Fold(c) == f && Xor(low, f) == 218
  {
    assert Fold(79) == 79;
    XorEight(1, 0, 0, 1, 0, 1, 0, 1, 0, 1, 0, 0, 1, 1, 1, 1);
  }

  lemma Low6(c: Byte, low: nat, f: nat)
    requires c == 34 && low == 110 && f == 2
    ensures Fold(c) == f && Xor(low, f) == 108
  {
    assert Fold(34) == 2;
    XorEight(0, 1, 1, 0, 1, 1, 1, 0, 0, 0, 0, 0, 0, 0, 1, 0);
  }

  lemma Low7(c: Byte, low: nat, f: nat)
    requires c == 65 && low == 132 && f == 65
    ensures Fold(c) == f && Xor(low, f) == 197
  {
    assert Fold(65) == 65;
    XorEight(1, 0, 0, 0, 0, 1, 0, 0, 0, 1, 0, 0, 0, 0, 0, 1);
  }

  lemma Low8(c: Byte, low: nat, f: nat)
    requires c == 38 && low == 191 && f == 6
    ensures Fold(c) == f && Xor(low, f) == 185
  {
    assert Fold(38) == 6;
    XorEight(1, 0, 1, 1, 1, 1, 1, 1, 0, 0, 0, 0, 0, 1, 1, 0);
  }

  lemma Low9(c: Byte, low: nat, f: nat)
    requires c == 76 && low == 91 && f == 76
    ensures Fold(c) == f && Xor(low, f) == 23
  {
    assert Fold(76) == 76;
    XorEight(0, 1, 0, 1, 1, 0, 1, 1, 0, 1, 0, 0, 1, 1, 0, 0);
  }

  lemma Low10(c: Byte, low: nat, f: nat)
    requires c == 53 && low == 21 && f == 21
    ensures Fold(c) == f && Xor(low, f) == 0
  {
    assert Fold(53) == 21;
    XorEight(0, 0, 0, 1, 0, 1, 0, 1, 0, 0, 0, 1, 0, 1, 0, 1);
  }

  /** `1H,,CO"A&L5` */
  const ZERO_NAME: Bytes := [49, 72, 44, 44, 67, 79, 34, 65, 38, 76, 53]

  /** Its bytes' traces. */
  function ZeroTraces(): seq<Trace> {
    [Trace(57406175934947875, 37, 17, 52, 875948729822, 12638169608369590620),
     Trace(49367850032693713, 92, 72, 20, 753293610416, 604953529728517372),
     Trace(2363099725502020, 252, 12, 240, 36058040259, 6505039650012734416),
     Trace(25410311132862243, 208, 12, 220, 387730577742, 4396136639166017236),
     Trace(17172408746742254, 212, 67, 151, 262030162865, 4373562577636584085),
     Trace(17084228818892906, 149, 79, 218, 260684643946, 1938696968593051758),
     Trace(7573035033566608, 110, 2, 108, 115555344185, 15360019392049735556),
     Trace(60000075750194279, 132, 65, 197, 915528499968, 8239745027444855743),
     Trace(32186504013456467, 191, 6, 185, 491127075594, 17461747893797536603),
     Trace(68209952710146627, 91, 76, 23, 1040801280779, 21),
     Trace(0, 21, 21, 0, 0, 0)]
  }

  lemma ZeroNameProducts(ts: seq<Trace>)
    requires ts == ZeroTraces()
    ensures |ts| == 11 && forall i :: 0 <= i < |ts| ==> Product(ts[i])
  {}

  lemma ZeroNameLinked(ts: seq<Trace>)
    requires ts == ZeroTraces()
    ensures Linked(ts)
  {}

  lemma ZeroNameLowBytes(s: Bytes, ts: seq<Trace>)
    requires s == ZERO_NAME && ts == ZeroTraces()
    ensures forall i :: 0 <= i < |s| ==> LowByte(s[i], ts[i])
  {
    Low0(s[0], ts[0].low, ts[0].f);
    Low1(s[1], ts[1].low, ts[1].f);
    Low2(s[2], ts[2].low, ts[2].f);
    Low3(s[3], ts[3].low, ts[3].f);
    Low4(s[4], ts[4].low, ts[4].f);
    Low5(s[5], ts[5].low, ts[5].f);
    Low6(s[6], ts[6].low, ts[6].f);
    Low7(s[7], ts[7].low, ts[7].f);
    Low8(s[8], ts[8].low, ts[8].f);
    Low9(s[9], ts[9].low, ts[9].f);
    Low10(s[10], ts[10].low, ts[10].f);
  }

  /** The name hashes to zero, so checkSet finds it in every set. */
  lemma ZeroNameIsEverywhere(s: Bytes, names: seq<Bytes>)
    requires s == ZERO_NAME
    ensures Hash(s) == 0 && Member(s, names)
  {
    var ts := ZeroTraces();
    ZeroNameProducts(ts);
    ZeroNameLinked(ts);
    ZeroNameLowBytes(s, ts);
    TracedHash(s, ts);
  }
}
