/** The key hash of rediscluster/redisclusterutil/crc16.go: the table-driven loop against long division
    by x^16 + x^12 + x^5 + 1 over GF(2). */
module Crc16 {

  // ------------------------------------------------------------- the division

  /** Multiply by x and reduce: 0x1021 is the polynomial without its leading term. */
  function Shift(c: bv16): bv16 {
    if c & 0x8000 != 0 then (c << 1) ^ 0x1021 else c << 1
  }

  function ShiftN(n: nat, c: bv16): bv16 {
    if n == 0 then c else ShiftN(n - 1, Shift(c))
  }

  /** Sum of polynomials. */
  function Plus(a: bv16, b: bv16): bv16 { a ^ b }

  function Constant(bit: bool): bv16 { if bit then 1 else 0 }

  /** Long division: the remainder after bringing down the message bits one by one. */
  function Remainder(bits: seq<bool>): bv16 {
    if bits == [] then 0
    else Plus(Shift(Remainder(bits[..|bits| - 1])), Constant(bits[|bits| - 1]))
  }

  /** The bits of a byte, most significant first. */
  function ByteBits(b: bv8): seq<bool> {
    [b & 0x80 != 0, b & 0x40 != 0, b & 0x20 != 0, b & 0x10 != 0, b & 8 != 0, b & 4 != 0, b & 2 != 0, b & 1 != 0]
  }

  function MessageBits(buf: seq<bv8>): seq<bool> {
    if buf == [] then [] else MessageBits(buf[..|buf| - 1]) + ByteBits(buf[|buf| - 1])
  }

  function Zeros(n: nat): seq<bool> {
    if n == 0 then [] else Zeros(n - 1) + [false]
  }

  /** The checksum: the remainder of the message times x^16. */
  function Crc(buf: seq<bv8>): bv16 {
    Remainder(MessageBits(buf) + Zeros(16))
  }

  // --------------------------------------------------------- shifting is linear

  lemma BothLead(x: bv16, y: bv16)
    requires x & 0x8000 != 0 && y & 0x8000 != 0
    ensures Shift(x ^ y) == Shift(x) ^ Shift(y)
  {
    assert (x ^ y) & 0x8000 == 0;
  }

  lemma FirstLeads(x: bv16, y: bv16)
    requires x & 0x8000 != 0 && y & 0x8000 == 0
    ensures Shift(x ^ y) == Shift(x) ^ Shift(y)
  {
    assert (x ^ y) & 0x8000 != 0;
  }

  lemma SecondLeads(x: bv16, y: bv16)
    requires x & 0x8000 == 0 && y & 0x8000 != 0
    ensures Shift(x ^ y) == Shift(x) ^ Shift(y)
  {
    assert (x ^ y) & 0x8000 != 0;
  }

  lemma NoneLeads(x: bv16, y: bv16)
    requires x & 0x8000 == 0 && y & 0x8000 == 0
    ensures Shift(x ^ y) == Shift(x) ^ Shift(y)
  {
    assert (x ^ y) & 0x8000 == 0;
  }

  lemma Linear(x: bv16, y: bv16)
    ensures Shift(x ^ y) == Shift(x) ^ Shift(y)
  {
    if x & 0x8000 != 0 {
      if y & 0x8000 != 0 { BothLead(x, y); } else { FirstLeads(x, y); }
    } else {
      if y & 0x8000 != 0 { SecondLeads(x, y); } else { NoneLeads(x, y); }
    }
  }

  lemma ShiftPlus(x: bv16, y: bv16)
    ensures Shift(Plus(x, y)) == Plus(Shift(x), Shift(y))
  {
    Linear(x, y);
  }

  lemma {:induction false} ShiftNPlus(n: nat, x: bv16, y: bv16)
    ensures ShiftN(n, Plus(x, y)) == Plus(ShiftN(n, x), ShiftN(n, y))
  {
    if n > 0 {
      ShiftPlus(x, y);
      ShiftNPlus(n - 1, Shift(x), Shift(y));
    }
  }

  lemma {:induction false} ShiftNLast(n: nat, c: bv16)
    ensures ShiftN(n + 1, c) == Shift(ShiftN(n, c))
  {
    if n > 0 { ShiftNLast(n - 1, Shift(c)); }
  }

  lemma PlusZero(c: bv16)
    ensures Plus(c, 0) == c
  {}

  lemma PlusAgain(a: bv16, b: bv16, c: bv16)
    ensures Plus(Plus(a, b), c) == Plus(a, Plus(b, c))
  {}

  // ------------------------------------------------- division, from the top bit

  lemma {:induction false} DivideZeros(bits: seq<bool>, n: nat)
    ensures Remainder(bits + Zeros(n)) == ShiftN(n, Remainder(bits))
  {
    if n == 0 {
      assert bits + Zeros(0) == bits;
    } else {
      DivideZeros(bits, n - 1);
      var all := bits + Zeros(n);
      assert all[..|all| - 1] == bits + Zeros(n - 1);
      PlusZero(Shift(Remainder(bits + Zeros(n - 1))));
      ShiftNLast(n - 1, Remainder(bits));
    }
  }

  function Top(bit: bool): bv16 { if bit then 0x8000 else 0 }

  lemma ConstantRises(bit: bool)
    ensures ShiftN(15, Constant(bit)) == Top(bit)
  {
    assert ShiftN(15, 1) == ShiftN(10, 0x20) == ShiftN(5, 0x400) == ShiftN(0, 0x8000);
    assert ShiftN(15, 0) == ShiftN(10, 0) == ShiftN(5, 0) == ShiftN(0, 0);
  }

  /** Bringing down a bit and adding 16 zeros is adding the bit at the top and shifting. */
  lemma BringDown(bits: seq<bool>, bit: bool)
    ensures ShiftN(16, Remainder(bits + [bit])) == Shift(Plus(ShiftN(16, Remainder(bits)), Top(bit)))
  {
    var r := Remainder(bits);
    assert (bits + [bit])[..|bits|] == bits;
    assert Remainder(bits + [bit]) == Plus(Shift(r), Constant(bit));
    ShiftNPlus(16, Shift(r), Constant(bit));
    assert ShiftN(16, Shift(r)) == ShiftN(17, r);
    ShiftNLast(16, r);
    ShiftNLast(15, Constant(bit));
    ConstantRises(bit);
    ShiftPlus(ShiftN(16, r), Top(bit));
  }

  /** bs are the leading bits of w, and the rest of w is zero. */
  predicate Spells(bs: seq<bool>, w: bv16) {
    if bs == [] then w == 0 else bs[0] == (w & 0x8000 != 0) && Spells(bs[1..], w << 1)
  }

  lemma TakeTop(a: bv16, w: bv16, bit: bool)
    requires bit == (w & 0x8000 != 0)
    ensures Shift(Plus(a, w)) == Plus(Shift(Plus(a, Top(bit))), w << 1)
  {
    TopApart(w, bit);
    PlusAgain(a, Top(bit), w & 0x7fff);
    ShiftPlus(Plus(a, Top(bit)), w & 0x7fff);
    RestShifts(w);
  }

  lemma TopApart(w: bv16, bit: bool)
    requires bit == (w & 0x8000 != 0)
    ensures w == Plus(Top(bit), w & 0x7fff)
  {}

  lemma RestShifts(w: bv16)
    ensures Shift(w & 0x7fff) == w << 1
  {}

  lemma {:induction false} Feed(bits: seq<bool>, bs: seq<bool>, w: bv16)
    requires Spells(bs, w)
    ensures ShiftN(16, Remainder(bits + bs)) == ShiftN(|bs|, Plus(ShiftN(16, Remainder(bits)), w))
    decreases |bs|
  {
    var a := ShiftN(16, Remainder(bits));
    if bs == [] {
      assert bits + bs == bits;
      PlusZero(a);
    } else {
      BringDown(bits, bs[0]);
      TakeTop(a, w, bs[0]);
      Feed(bits + [bs[0]], bs[1..], w << 1);
      assert bits + [bs[0]] + bs[1..] == bits + bs;
    }
  }

  lemma SpellsCons(bs: seq<bool>, w: bv16, w': bv16)
    requires bs != [] && bs[0] == (w & 0x8000 != 0) && w' == w << 1 && Spells(bs[1..], w')
    ensures Spells(bs, w)
  {}

  lemma ByteSpells(b: bv8)
    ensures Spells(ByteBits(b), (b as bv16) << 8)
  {
    var bs, w := ByteBits(b), (b as bv16) << 8;
    LowTops(b, w);
    HighTops(b, w);
    LowSpells(bs[4..], w << 4, w << 5, w << 6, w << 7, w << 8);
    HighSpells(bs, w, w << 1, w << 2, w << 3, w << 4);
  }

  lemma HighSpells(bs: seq<bool>, w0: bv16, w1: bv16, w2: bv16, w3: bv16, w4: bv16)
    requires |bs| == 8 && w1 == w0 << 1 && w2 == w1 << 1 && w3 == w2 << 1 && w4 == w3 << 1 && Spells(bs[4..], w4)
    requires bs[0] == (w0 & 0x8000 != 0) && bs[1] == (w1 & 0x8000 != 0) && bs[2] == (w2 & 0x8000 != 0)
             && bs[3] == (w3 & 0x8000 != 0)
    ensures Spells(bs, w0)
  {
    assert bs[3..][1..] == bs[4..] && bs[2..][1..] == bs[3..] && bs[1..][1..] == bs[2..];
    SpellsCons(bs[3..], w3, w4);
    SpellsCons(bs[2..], w2, w3);
    SpellsCons(bs[1..], w1, w2);
    SpellsCons(bs, w0, w1);
  }

  lemma LowSpells(bs: seq<bool>, w4: bv16, w5: bv16, w6: bv16, w7: bv16, w8: bv16)
    requires |bs| == 4 && w5 == w4 << 1 && w6 == w5 << 1 && w7 == w6 << 1 && w8 == w7 << 1 && w8 == 0
    requires bs[0] == (w4 & 0x8000 != 0) && bs[1] == (w5 & 0x8000 != 0) && bs[2] == (w6 & 0x8000 != 0)
             && bs[3] == (w7 & 0x8000 != 0)
    ensures Spells(bs, w4)
  {
    assert bs[3..][1..] == [] && bs[2..][1..] == bs[3..] && bs[1..][1..] == bs[2..];
    SpellsCons(bs[3..], w7, w8);
    SpellsCons(bs[2..], w6, w7);
    SpellsCons(bs[1..], w5, w6);
    SpellsCons(bs, w4, w5);
  }

  lemma LowTops(b: bv8, w: bv16)
    requires w == (b as bv16) << 8
    ensures (w << 7) << 1 == w << 8 == 0
    ensures (b & 0x01 != 0) == ((w << 7) & 0x8000 != 0) && (w << 6) << 1 == w << 7
    ensures (b & 0x02 != 0) == ((w << 6) & 0x8000 != 0) && (w << 5) << 1 == w << 6
    ensures (b & 0x04 != 0) == ((w << 5) & 0x8000 != 0) && (w << 4) << 1 == w << 5
    ensures (b & 0x08 != 0) == ((w << 4) & 0x8000 != 0)
  {}

  lemma HighTops(b: bv8, w: bv16)
    requires w == (b as bv16) << 8
    ensures (w << 3) << 1 == w << 4
    ensures (b & 0x10 != 0) == ((w << 3) & 0x8000 != 0) && (w << 2) << 1 == w << 3
    ensures (b & 0x20 != 0) == ((w << 2) & 0x8000 != 0) && (w << 1) << 1 == w << 2
    ensures (b & 0x40 != 0) == ((w << 1) & 0x8000 != 0) && (b & 0x80 != 0) == (w & 0x8000 != 0)
  {}

  /** One byte of the message, eight bits at a time. */
  lemma CrcByte(buf: seq<bv8>, b: bv8)
    ensures Crc(buf + [b]) == ShiftN(8, Plus(Crc(buf), (b as bv16) << 8))
  {
    assert (buf + [b])[..|buf|] == buf;
    DivideZeros(MessageBits(buf), 16);
    DivideZeros(MessageBits(buf + [b]), 16);
    ByteSpells(b);
    Feed(MessageBits(buf), ByteBits(b), (b as bv16) << 8);
  }

  // ------------------------------------------------------------------ the table

  /** The table of 256 entries, in rows of sixteen. */
  function Row(r: bv8): (row: seq<bv16>)
    ensures |row| == 16
  {
    if r < 8 then LowRow(r) else HighRow(r)
  }

  function LowRow(r: bv8): (row: seq<bv16>)
    ensures |row| == 16
  {
    if r == 0 then [0x0000, 0x1021, 0x2042, 0x3063, 0x4084, 0x50a5, 0x60c6, 0x70e7,
      0x8108, 0x9129, 0xa14a, 0xb16b, 0xc18c, 0xd1ad, 0xe1ce, 0xf1ef]
    else if r == 1 then [0x1231, 0x0210, 0x3273, 0x2252, 0x52b5, 0x4294, 0x72f7, 0x62d6,
      0x9339, 0x8318, 0xb37b, 0xa35a, 0xd3bd, 0xc39c, 0xf3ff, 0xe3de]
    else if r == 2 then [0x2462, 0x3443, 0x0420, 0x1401, 0x64e6, 0x74c7, 0x44a4, 0x5485,
      0xa56a, 0xb54b, 0x8528, 0x9509, 0xe5ee, 0xf5cf, 0xc5ac, 0xd58d]
    else if r == 3 then [0x3653, 0x2672, 0x1611, 0x0630, 0x76d7, 0x66f6, 0x5695, 0x46b4,
      0xb75b, 0xa77a, 0x9719, 0x8738, 0xf7df, 0xe7fe, 0xd79d, 0xc7bc]
    else if r == 4 then [0x48c4, 0x58e5, 0x6886, 0x78a7, 0x0840, 0x1861, 0x2802, 0x3823,
      0xc9cc, 0xd9ed, 0xe98e, 0xf9af, 0x8948, 0x9969, 0xa90a, 0xb92b]
    else if r == 5 then [0x5af5, 0x4ad4, 0x7ab7, 0x6a96, 0x1a71, 0x0a50, 0x3a33, 0x2a12,
      0xdbfd, 0xcbdc, 0xfbbf, 0xeb9e, 0x9b79, 0x8b58, 0xbb3b, 0xab1a]
    else if r == 6 then [0x6ca6, 0x7c87, 0x4ce4, 0x5cc5, 0x2c22, 0x3c03, 0x0c60, 0x1c41,
      0xedae, 0xfd8f, 0xcdec, 0xddcd, 0xad2a, 0xbd0b, 0x8d68, 0x9d49]
    else [0x7e97, 0x6eb6, 0x5ed5, 0x4ef4, 0x3e13, 0x2e32, 0x1e51, 0x0e70,
      0xff9f, 0xefbe, 0xdfdd, 0xcffc, 0xbf1b, 0xaf3a, 0x9f59, 0x8f78]
  }

  function HighRow(r: bv8): (row: seq<bv16>)
    ensures |row| == 16
  {
    if r == 8 then [0x9188, 0x81a9, 0xb1ca, 0xa1eb, 0xd10c, 0xc12d, 0xf14e, 0xe16f,
      0x1080, 0x00a1, 0x30c2, 0x20e3, 0x5004, 0x4025, 0x7046, 0x6067]
    else if r == 9 then [0x83b9, 0x9398, 0xa3fb, 0xb3da, 0xc33d, 0xd31c, 0xe37f, 0xf35e,
      0x02b1, 0x1290, 0x22f3, 0x32d2, 0x4235, 0x5214, 0x6277, 0x7256]
    else if r == 10 then [0xb5ea, 0xa5cb, 0x95a8, 0x8589, 0xf56e, 0xe54f, 0xd52c, 0xc50d,
      0x34e2, 0x24c3, 0x14a0, 0x0481, 0x7466, 0x6447, 0x5424, 0x4405]
    else if r == 11 then [0xa7db, 0xb7fa, 0x8799, 0x97b8, 0xe75f, 0xf77e, 0xc71d, 0xd73c,
      0x26d3, 0x36f2, 0x0691, 0x16b0, 0x6657, 0x7676, 0x4615, 0x5634]
    else if r == 12 then [0xd94c, 0xc96d, 0xf90e, 0xe92f, 0x99c8, 0x89e9, 0xb98a, 0xa9ab,
      0x5844, 0x4865, 0x7806, 0x6827, 0x18c0, 0x08e1, 0x3882, 0x28a3]
    else if r == 13 then [0xcb7d, 0xdb5c, 0xeb3f, 0xfb1e, 0x8bf9, 0x9bd8, 0xabbb, 0xbb9a,
      0x4a75, 0x5a54, 0x6a37, 0x7a16, 0x0af1, 0x1ad0, 0x2ab3, 0x3a92]
    else if r == 14 then [0xfd2e, 0xed0f, 0xdd6c, 0xcd4d, 0xbdaa, 0xad8b, 0x9de8, 0x8dc9,
      0x7c26, 0x6c07, 0x5c64, 0x4c45, 0x3ca2, 0x2c83, 0x1ce0, 0x0cc1]
    else [0xef1f, 0xff3e, 0xcf5d, 0xdf7c, 0xaf9b, 0xbfba, 0x8fd9, 0x9ff8,
      0x6e17, 0x7e36, 0x4e55, 0x5e74, 0x2e93, 0x3eb2, 0x0ed1, 0x1ef0]
  }

  /** row[j] */
  function Entry(row: seq<bv16>, j: bv8): bv16
    requires |row| == 16
  {
    if j < 8 then
      if j == 0 then row[0] else if j == 1 then row[1] else if j == 2 then row[2] else if j == 3 then row[3]
      else if j == 4 then row[4] else if j == 5 then row[5] else if j == 6 then row[6] else row[7]
    else
      if j == 8 then row[8] else if j == 9 then row[9] else if j == 10 then row[10] else if j == 11 then row[11]
      else if j == 12 then row[12] else if j == 13 then row[13] else if j == 14 then row[14] else row[15]
  }

  /** tab[i]: the high half of a byte chooses the row, the low half the entry. */
  function Tab(i: bv8): bv16 {
    Entry(Row(i >> 4), i & 15)
  }

  function Shift8(c: bv16): bv16 {
    Shift(Shift(Shift(Shift(Shift(Shift(Shift(Shift(c))))))))
  }

  /** What a row must hold. */
  function Expected(f: bv16 -> bv16, c: bv16): seq<bv16> {
    [f(c), f(c | 0x100), f(c | 0x200), f(c | 0x300), f(c | 0x400), f(c | 0x500), f(c | 0x600), f(c | 0x700),
     f(c | 0x800), f(c | 0x900), f(c | 0xa00), f(c | 0xb00), f(c | 0xc00), f(c | 0xd00), f(c | 0xe00), f(c | 0xf00)]
  }

  lemma Rows0()
    ensures Row(0) == Expected(Shift8, 0x0000) && Row(1) == Expected(Shift8, 0x1000)
    ensures Row(2) == Expected(Shift8, 0x2000) && Row(3) == Expected(Shift8, 0x3000)
  {}

  lemma Rows4()
    ensures Row(4) == Expected(Shift8, 0x4000) && Row(5) == Expected(Shift8, 0x5000)
    ensures Row(6) == Expected(Shift8, 0x6000) && Row(7) == Expected(Shift8, 0x7000)
  {}

  lemma Rows8()
    ensures Row(8) == Expected(Shift8, 0x8000) && Row(9) == Expected(Shift8, 0x9000)
    ensures Row(10) == Expected(Shift8, 0xa000) && Row(11) == Expected(Shift8, 0xb000)
  {}

  lemma Rows12()
    ensures Row(12) == Expected(Shift8, 0xc000) && Row(13) == Expected(Shift8, 0xd000)
    ensures Row(14) == Expected(Shift8, 0xe000) && Row(15) == Expected(Shift8, 0xf000)
  {}

  lemma RowRight(r: bv8)
    requires r < 16
    ensures Row(r) == Expected(Shift8, (r as bv16) << 12)
  {
    if r < 4 {
      Rows0();
    } else if r < 8 {
      Rows4();
    } else if r < 12 {
      Rows8();
    } else {
      Rows12();
    }
  }

  lemma LowEntry(f: bv16 -> bv16, c: bv16, j: bv8, x: bv16)
    requires j < 8 && x == (j as bv16) << 8
    ensures Entry(Expected(f, c), j) == f(c | x)
  {
    if j == 0 { assert x == 0; }
    else if j == 1 { assert x == 0x100; }
    else if j == 2 { assert x == 0x200; }
    else if j == 3 { assert x == 0x300; }
    else if j == 4 { assert x == 0x400; }
    else if j == 5 { assert x == 0x500; }
    else if j == 6 { assert x == 0x600; }
    else if j == 7 { assert x == 0x700; }
  }

  lemma HighEntry(f: bv16 -> bv16, c: bv16, j: bv8, x: bv16)
    requires 8 <= j < 16 && x == (j as bv16) << 8
    ensures Entry(Expected(f, c), j) == f(c | x)
  {
    if j == 8 { assert x == 0x800; }
    else if j == 9 { assert x == 0x900; }
    else if j == 10 { assert x == 0xa00; }
    else if j == 11 { assert x == 0xb00; }
    else if j == 12 { assert x == 0xc00; }
    else if j == 13 { assert x == 0xd00; }
    else if j == 14 { assert x == 0xe00; }
    else if j == 15 { assert x == 0xf00; }
  }

  lemma EntryRight(f: bv16 -> bv16, c: bv16, j: bv8, x: bv16)
    requires j < 16 && x == (j as bv16) << 8
    ensures Entry(Expected(f, c), j) == f(c | x)
  {
    if j < 8 {
      LowEntry(f, c, j, x);
    } else {
      HighEntry(f, c, j, x);
    }
  }

  lemma Halves(i: bv8)
    ensures i >> 4 < 16 && i & 15 < 16
    ensures (i as bv16) << 8 == (((i >> 4) as bv16) << 12) | (((i & 15) as bv16) << 8)
  {}

  /** Every entry is its byte, carried through eight shifts. */
  lemma TabRight(i: bv8)
    ensures Tab(i) == ShiftN(8, (i as bv16) << 8)
  {
    Halves(i);
    var c, x := ((i >> 4) as bv16) << 12, ((i & 15) as bv16) << 8;
    RowRight(i >> 4);
    EntryRight(Shift8, c, i & 15, x);
    EightShifts(c | x);
  }

  lemma EightShifts(c: bv16)
    ensures ShiftN(8, c) == Shift8(c)
  {
    var d := Shift(Shift(Shift(Shift(c))));
    assert ShiftN(8, c) == ShiftN(7, Shift(c)) == ShiftN(6, Shift(Shift(c)))
        == ShiftN(5, Shift(Shift(Shift(c)))) == ShiftN(4, d);
    assert ShiftN(4, d) == ShiftN(3, Shift(d)) == ShiftN(2, Shift(Shift(d)))
        == ShiftN(1, Shift(Shift(Shift(d)))) == ShiftN(0, Shift(Shift(Shift(Shift(d)))));
  }

  // ------------------------------------------------------------------- the loop

  lemma WidenXor(a: bv8, b: bv8)
    ensures ((a ^ b) as bv16) << 8 == ((a as bv16) << 8) ^ ((b as bv16) << 8)
  {}

  lemma HighHalf(crc: bv16)
    ensures crc == (crc & 0xff) ^ ((((crc >> 8) as bv8) as bv16) << 8)
  {}

  lemma IndexApart(crc: bv16, b: bv8, index: bv8)
    requires index == ((crc >> 8) as bv8) ^ b
    ensures Plus(crc, (b as bv16) << 8) == Plus(crc & 0xff, (index as bv16) << 8)
  {
    var h := (crc >> 8) as bv8;
    HighHalf(crc);
    WidenXor(h, b);
    PlusAgain(crc & 0xff, (h as bv16) << 8, (b as bv16) << 8);
  }

  lemma LowShifts(crc: bv16)
    ensures ShiftN(8, crc & 0xff) == crc << 8
  {
    EightShifts(crc & 0xff);
  }

  lemma TableStep(crc: bv16, b: bv8, index: bv8)
    requires index == ((crc >> 8) as bv8) ^ b
    ensures ShiftN(8, Plus(crc, (b as bv16) << 8)) == Plus(crc << 8, Tab(index))
  {
    IndexApart(crc, b, index);
    ShiftNPlus(8, crc & 0xff, (index as bv16) << 8);
    LowShifts(crc);
    TabRight(index);
  }

  lemma CrcEmpty()
    ensures Crc([]) == 0
  {
    DivideZeros([], 16);
    assert MessageBits([]) == [];
    assert ShiftN(16, 0) == ShiftN(8, 0) == ShiftN(0, 0);
  }

  lemma CrcNext(buf: seq<bv8>, b: bv8, c: bv16, index: bv8)
    requires c == Crc(buf) && index == ((c >> 8) as bv8) ^ b
    ensures Crc(buf + [b]) == Plus(c << 8, Tab(index))
  {
    CrcByte(buf, b);
    TableStep(c, b, index);
  }

  /** One turn of the loop below. */
  method Turn(ghost buf: seq<bv8>, crc: bv16, b: bv8) returns (next: bv16)
    requires crc == Crc(buf)
    ensures next == Crc(buf + [b])
  {
    var index := ((crc >> 8) as bv8) ^ b;
    CrcNext(buf, b, crc, index);
    next := Plus(crc << 8, Tab(index));
  }

  /** CRC16: the table-driven loop computes the remainder, for every message. */
  method Crc16(buf: seq<bv8>) returns (crc: bv16)
    ensures crc == Crc(buf)
  {
    crc := 0;
    CrcEmpty();
    for n := 0 to |buf|
      invariant crc == Crc(buf[..n])
    {
      crc := Turn(buf[..n], crc, buf[n]);
      assert buf[..n + 1] == buf[..n] + [buf[n]];
    }
    assert buf[..|buf|] == buf;
  }
}
