/** Bits of machine words, on natural numbers. */
module Bits {

  function Pow2(k: nat): (p: nat)
    ensures p > 0
  {
    if k == 0 then 1 else 2 * Pow2(k - 1)
  }

  /** m & (1<<k) != 0 */
  predicate Bit(m: nat, k: nat) {
    if k == 0 then m % 2 == 1 else Bit(m / 2, k - 1)
  }

  /** m &^ (1<<k) */
  function Clear(m: nat, k: nat): nat {
    if k == 0 then m - m % 2 else 2 * Clear(m / 2, k - 1) + m % 2
  }

  /** m | (1<<k) */
  function Set(m: nat, k: nat): nat {
    if k == 0 then m - m % 2 + 1 else 2 * Set(m / 2, k - 1) + m % 2
  }

  lemma {:induction false} BitAfterClear(m: nat, k: nat, j: nat)
    ensures Bit(Clear(m, k), j) <==> j != k && Bit(m, j)
  {
    if k > 0 && j > 0 { BitAfterClear(m / 2, k - 1, j - 1); }
  }

  lemma {:induction false} BitAfterSet(m: nat, k: nat, j: nat)
    ensures Bit(Set(m, k), j) <==> j == k || Bit(m, j)
  {
    if k > 0 && j > 0 { BitAfterSet(m / 2, k - 1, j - 1); }
  }

  lemma {:induction false} ClearShrinks(m: nat, k: nat)
    ensures Clear(m, k) <= m && (Bit(m, k) ==> Clear(m, k) < m)
  {
    if k > 0 { ClearShrinks(m / 2, k - 1); }
  }

  lemma {:induction false} SomeBit(m: nat) returns (k: nat)
    requires m > 0
    ensures Bit(m, k)
    decreases m
  {
    if m % 2 == 1 {
      k := 0;
    } else {
      var j := SomeBit(m / 2);
      k := j + 1;
    }
  }

  lemma {:induction false} ZeroHasNoBit(k: nat)
    ensures !Bit(0, k)
  {
    if k > 0 { ZeroHasNoBit(k - 1); }
  }

  lemma {:induction false} BitBelow(m: nat, k: nat, n: nat)
    requires m < Pow2(n) && Bit(m, k)
    ensures k < n
    decreases n
  {
    if n == 0 {
      ZeroHasNoBit(k);
    } else if k > 0 {
      BitBelow(m / 2, k - 1, n - 1);
    }
  }

  /** uint32(1)<<l - 1, which is all ones when the shift overflows. */
  function LowMask32(l: nat): nat {
    Pow2(if l < 32 then l else 32) - 1
  }

  lemma {:induction false} BitOfLow(l: nat, k: nat)
    ensures Bit(Pow2(l) - 1, k) <==> k < l
  {
    if l == 0 {
      ZeroHasNoBit(k);
    } else {
      assert (Pow2(l) - 1) / 2 == Pow2(l - 1) - 1;
      if k > 0 { BitOfLow(l - 1, k - 1); }
    }
  }

  /** x ^ y */
  function Xor(x: nat, y: nat): nat {
    if x == 0 && y == 0 then 0 else 2 * Xor(x / 2, y / 2) + (x + y) % 2
  }

  lemma {:induction false} XorHalf(x: nat, y: nat)
    ensures Xor(x, y) / 2 == Xor(x / 2, y / 2) && Xor(x, y) % 2 == (x + y) % 2
  {
    if x == 0 && y == 0 { assert Xor(0, 0) == 0; }
  }

  lemma {:induction false} XorZero(x: nat)
    ensures Xor(x, 0) == x
    decreases x
  {
    if x > 0 { XorZero(x / 2); }
  }

  lemma SameHalves(a: nat, b: nat)
    requires a / 2 == b / 2 && a % 2 == b % 2
    ensures a == b
  {}

  lemma XorParityTwice(x: nat, y: nat, z: nat)
    requires z % 2 == (x + y) % 2
    ensures (z + y) % 2 == x % 2
  {}

  lemma {:induction false} XorTwice(x: nat, y: nat)
    ensures Xor(Xor(x, y), y) == x
    decreases x + y
  {
    var z := Xor(x, y);
    XorHalf(x, y);
    XorHalf(z, y);
    XorParityTwice(x, y, z);
    if x > 0 || y > 0 { XorTwice(x / 2, y / 2); }
    SameHalves(Xor(z, y), x);
  }

  /** x >> k */
  function Shr(x: nat, k: nat): nat {
    if k == 0 then x else Shr(x / 2, k - 1)
  }

  lemma {:induction false} XorShr(x: nat, y: nat, k: nat)
    ensures Shr(Xor(x, y), k) == Xor(Shr(x, k), Shr(y, k))
    decreases k
  {
    if k > 0 {
      XorHalf(x, y);
      XorShr(x / 2, y / 2, k - 1);
    }
  }

  lemma {:induction false} ShrTwice(x: nat, j: nat, k: nat)
    ensures Shr(x, j + k) == Shr(Shr(x, j), k)
    decreases j
  {
    if j > 0 { ShrTwice(x / 2, j - 1, k); }
  }

  lemma Shr4(x: nat)
    ensures Shr(x, 4) == x / 16
  {
    assert Shr(x, 4) == Shr(x / 2, 3) == Shr(x / 2 / 2, 2) == Shr(x / 2 / 2 / 2, 1) == Shr(x / 2 / 2 / 2 / 2, 0);
  }

  lemma Shr16(x: nat)
    ensures Shr(x, 16) == x / 0x10000
  {
    ShrTwice(x, 4, 12);
    ShrTwice(x / 16, 4, 8);
    ShrTwice(x / 16 / 16, 4, 4);
    Shr4(x);
    Shr4(x / 16);
    Shr4(x / 16 / 16);
    Shr4(x / 16 / 16 / 16);
  }

  /** x & y */
  function And(x: nat, y: nat): nat {
    if x == 0 || y == 0 then 0 else 2 * And(x / 2, y / 2) + (x % 2) * (y % 2)
  }

  /** x & (2^k - 1) is x mod 2^k. */
  lemma {:induction false} AndLow(x: nat, k: nat)
    ensures And(x, Pow2(k) - 1) == x % Pow2(k)
    decreases k
  {
    if k > 0 {
      var p := Pow2(k - 1);
      AndOdd(x, p - 1);
      AndLow(x / 2, k - 1);
      ModDouble(x, p);
    }
  }

  lemma AndOdd(x: nat, m: nat)
    ensures And(x, 2 * m + 1) == 2 * And(x / 2, m) + x % 2
  {
    assert (2 * m + 1) / 2 == m && (2 * m + 1) % 2 == 1;
    if x == 0 { assert And(0, m) == 0; }
  }

  lemma ModDouble(x: nat, p: nat)
    requires p > 0
    ensures x % (2 * p) == 2 * (x / 2 % p) + x % 2
  {
    var q, r := x / 2 / p, x / 2 % p;
    assert x == 2 * (q * p + r) + x % 2;
    assert 2 * (q * p) == q * (2 * p);
    RemainderIs(x, 2 * p, q, 2 * r + x % 2);
  }

  lemma RemainderIs(x: int, n: nat, q: int, r: nat)
    requires r < n && x == q * n + r
    ensures x % n == r
  {
    var d := x / n - q;
    assert x == n * (x / n) + x % n;
    assert r - x % n == n * d by {
      assert n * (x / n) - q * n == n * d;
    }
    MultipleAway(n, d);
  }

  lemma MultipleAway(n: nat, d: int)
    ensures d >= 1 ==> n * d >= n
    ensures d <= -1 ==> n * d + n <= 0
  {
    if d >= 1 {
      assert n * (d - 1) >= 0;
    } else if d <= -1 {
      assert n * (-1 - d) >= 0;
    }
  }

  /** Reducing modulo a multiple first changes nothing. */
  lemma ModOfMultiple(x: nat, l: nat, m: nat)
    requires l > 0 && m > 0
    ensures l * m > 0 && x % (l * m) % l == x % l
  {
    assert l * m > 0;
    var n := l * m;
    var q, r := x / n, x % n;
    assert x == n * q + r;
    assert n * q == (m * q) * l;
    assert r == l * (r / l) + r % l;
    assert (m * q + r / l) * l == (m * q) * l + (r / l) * l;
    RemainderIs(x, l, m * q + r / l, r % l);
  }

  /** Clearing a set bit subtracts its weight. */
  lemma {:induction false} ClearIs(m: nat, k: nat)
    ensures Clear(m, k) == m - if Bit(m, k) then Pow2(k) else 0
  {
    if k > 0 { ClearIs(m / 2, k - 1); }
  }

  lemma {:induction false} PowersMultiply(j: nat, k: nat)
    ensures Pow2(j + k) == Pow2(j) * Pow2(k)
    decreases j
  {
    if j > 0 {
      PowersMultiply(j - 1, k);
      assert j - 1 + k == j + k - 1;
      DoubleProduct(Pow2(j - 1), Pow2(k));
    }
  }

  lemma DoubleProduct(a: nat, b: nat)
    ensures 2 * (a * b) == (2 * a) * b
  {}
}
