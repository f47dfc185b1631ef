/** The generator behind the selection loops of rediscluster/mapping.go: v -> v*0x12345 + 1 on
    uint32 visits every state from every state, so each residue eventually comes up. */
module Rng {
  import opened Bits

  function NextState(v: nat): nat {
    (v * 0x12345 + 1) % 0x1_0000_0000
  }

  /** v ^ v>>16 */
  function Mix(v: nat): nat {
    Xor(v, v / 0x10000)
  }

  /** nextRng returns this residue and advances the state. */
  function Residue(v: nat, mod: nat): nat
    requires mod > 0
  {
    Mix(v) % mod
  }

  /** The state after n calls. */
  function Iterate(n: nat, v: nat): nat {
    if n == 0 then v else NextState(Iterate(n - 1, v))
  }

  // The same iteration without reduction, and its affine form over 2^k steps.

  function Unreduced(n: nat, v: int): int {
    if n == 0 then v else Unreduced(n - 1, v) * 0x12345 + 1
  }

  lemma {:induction false} IterateIsUnreduced(n: nat, v: nat)
    requires v < 0x1_0000_0000
    ensures Iterate(n, v) == Unreduced(n, v) % 0x1_0000_0000
  {
    if n > 0 {
      IterateIsUnreduced(n - 1, v);
      ModStep(Unreduced(n - 1, v));
    }
  }

  lemma ModStep(x: int)
    ensures ((x % 0x1_0000_0000) * 0x12345 + 1) % 0x1_0000_0000 == (x * 0x12345 + 1) % 0x1_0000_0000
  {
    var q, r := x / 0x1_0000_0000, x % 0x1_0000_0000;
    var z := r * 0x12345 + 1;
    assert x * 0x12345 + 1 == z + 0x1_0000_0000 * (q * 0x12345);
    ModIs(x * 0x12345 + 1, z % 0x1_0000_0000, q * 0x12345 + z / 0x1_0000_0000);
  }

  lemma {:induction false} UnreducedAdd(m: nat, n: nat, v: int)
    ensures Unreduced(m + n, v) == Unreduced(n, Unreduced(m, v))
  {
    if n > 0 { UnreducedAdd(m, n - 1, v); }
  }

  /** 2^k steps multiply by 1 + 4*2^k*T(k) and add 2^k*(2*S(k)+1). */
  function T(k: nat): nat {
    if k == 0 then 18641 else T(k - 1) + 2 * Pow2(k - 1) * T(k - 1) * T(k - 1)
  }

  function S(k: nat): nat {
    if k == 0 then 0 else Pow2(k - 1) * T(k - 1) * (2 * S(k - 1) + 1) + S(k - 1)
  }

  function Factor(k: nat): nat { 1 + 4 * Pow2(k) * T(k) }

  function Summand(k: nat): nat { Pow2(k) * (2 * S(k) + 1) }

  lemma FactorSquare(p: nat, t: nat)
    ensures (1 + 4 * p * t) * (1 + 4 * p * t) == 1 + 4 * (2 * p) * (t + 2 * p * t * t)
  {
    var u := p * t;
    assert 4 * p * t == 4 * u;
    assert (1 + 4 * u) * (1 + 4 * u) == 1 + 8 * u + 16 * (u * u);
    assert 4 * (2 * p) * (t + 2 * p * t * t) == 8 * (p * t) + 16 * (p * p * t * t) by {
      assert 2 * p * t * t == 2 * (u * t);
      assert p * (2 * (u * t)) == 2 * (u * u);
    }
    assert p * p * t * t == u * u;
  }

  lemma SummandDouble(p: nat, t: nat, s: nat)
    ensures (1 + 4 * p * t + 1) * (p * (2 * s + 1)) == (2 * p) * (2 * (p * t * (2 * s + 1) + s) + 1)
  {
    var u := p * t;
    var w := 2 * s + 1;
    assert 4 * p * t == 4 * u;
    assert (2 + 4 * u) * (p * w) == 2 * (p * w) + 4 * (u * (p * w));
    assert (2 * p) * (2 * (u * w + s) + 1) == 4 * (p * (u * w)) + 2 * (p * w) by {
      assert 2 * (u * w + s) + 1 == 2 * (u * w) + w;
    }
    assert u * (p * w) == p * (u * w);
  }

  lemma {:induction false} PowerSteps(k: nat, v: int)
    ensures Unreduced(Pow2(k), v) == Factor(k) * v + Summand(k)
    decreases k
  {
    if k == 0 {
      assert Unreduced(1, v) == Unreduced(0, v) * 0x12345 + 1;
    } else {
      var half := Pow2(k - 1);
      var a, c := Factor(k - 1), Summand(k - 1);
      UnreducedAdd(half, half, v);
      PowerSteps(k - 1, v);
      PowerSteps(k - 1, a * v + c);
      FactorSquare(half, T(k - 1));
      SummandDouble(half, T(k - 1), S(k - 1));
      Compose(a, c, v);
    }
  }

  lemma Compose(a: int, c: int, v: int)
    ensures a * (a * v + c) + c == (a * a) * v + (a + 1) * c
  {
    assert a * (a * v + c) == a * (a * v) + a * c;
    assert a * (a * v) == (a * a) * v;
  }

  /** 2^k steps move a state by 2^k, up to a multiple of 2^(k+1). */
  lemma PowerStepsShift(k: nat, v: int) returns (w: int)
    ensures Unreduced(Pow2(k), v) == v + Pow2(k) + 2 * Pow2(k) * w
  {
    PowerSteps(k, v);
    w := 2 * (T(k) * v) + S(k);
    ShiftAlgebra(Pow2(k), T(k), S(k), v);
  }

  lemma ShiftAlgebra(p: int, t: int, s: int, v: int)
    ensures (1 + 4 * p * t) * v + p * (2 * s + 1) == v + p + 2 * p * (2 * (t * v) + s)
  {
    var x := t * v;
    assert (1 + 4 * p * t) * v == v + (4 * p) * x by {
      assert 4 * p * t == (4 * p) * t;
      assert ((4 * p) * t) * v == (4 * p) * (t * v);
    }
    assert p * (2 * s + 1) == 2 * (p * s) + p;
    assert 2 * p * (2 * x + s) == 4 * (p * x) + 2 * (p * s);
    assert (4 * p) * x == 4 * (p * x);
  }

  /** From any state a state equal to y modulo 2^k is at most 2^k - 1 steps away. */
  lemma {:induction false} ReachModulo(k: nat, v: int, y: int) returns (n: nat, q: int)
    ensures n < Pow2(k) && Unreduced(n, v) - y == Pow2(k) * q
    decreases k
  {
    if k == 0 {
      n, q := 0, v - y;
    } else {
      var n0, q0 := ReachModulo(k - 1, v, y);
      var half := Pow2(k - 1);
      if q0 % 2 == 0 {
        n, q := n0, q0 / 2;
        assert half * q0 == (2 * half) * (q0 / 2);
      } else {
        var w := PowerStepsShift(k - 1, Unreduced(n0, v));
        UnreducedAdd(n0, half, v);
        n, q := n0 + half, (q0 + 1) / 2 + w;
        OddStep(half, q0, w);
      }
    }
  }

  lemma OddStep(half: int, q: int, w: int)
    requires q % 2 == 1
    ensures half * q + half + 2 * half * w == (2 * half) * ((q + 1) / 2 + w)
  {
    var h := (q + 1) / 2;
    assert q == 2 * h - 1;
    assert half * (2 * h - 1) == 2 * (half * h) - half;
    assert (2 * half) * (h + w) == 2 * (half * h) + 2 * (half * w);
  }

  lemma Pow32()
    ensures Pow2(32) == 0x1_0000_0000
  {
    assert Pow2(8) == 0x100;
    assert Pow2(16) == 0x1_0000;
    assert Pow2(24) == 0x100_0000;
  }

  /** Full period: every state reaches every state within 2^32 - 1 steps. */
  lemma EveryStateVisited(v: nat, y: nat) returns (n: nat)
    requires v < 0x1_0000_0000 && y < 0x1_0000_0000
    ensures n < 0x1_0000_0000 && Iterate(n, v) == y
  {
    var q;
    n, q := ReachModulo(32, v, y);
    Pow32();
    IterateIsUnreduced(n, v);
    ModIs(Unreduced(n, v), y, q);
  }

  lemma ModIs(u: int, y: int, q: int)
    requires 0 <= y < 0x1_0000_0000 && u - y == 0x1_0000_0000 * q
    ensures u % 0x1_0000_0000 == y
  {}

  /** v ^ v>>16 is its own inverse on uint32, so no residue is lost by mixing. */
  lemma MixInvolutive(v: nat)
    requires v < 0x1_0000_0000
    ensures Mix(Mix(v)) == v
  {
    var h := v / 0x10000;
    XorShr(v, h, 16);
    Shr16(v);
    Shr16(h);
    Shr16(Xor(v, h));
    XorZero(h);
    XorTwice(v, h);
  }

  lemma XorBelow(x: nat, y: nat, k: nat)
    requires x < Pow2(k) && y < Pow2(k)
    ensures Xor(x, y) < Pow2(k)
    decreases k
  {
    if k > 0 { XorBelow(x / 2, y / 2, k - 1); }
  }

  lemma MixBelow(v: nat)
    requires v < 0x1_0000_0000
    ensures Mix(v) < 0x1_0000_0000
  {
    Pow32();
    XorBelow(v, v / 0x10000, 32);
  }

  /** The loops ask for a residue again and again: every one that is a uint32 comes up. */
  lemma EveryResidueComesUp(v: nat, mod: nat, r: nat) returns (n: nat)
    requires v < 0x1_0000_0000 && r < mod && r < 0x1_0000_0000
    ensures n < 0x1_0000_0000 && Residue(Iterate(n, v), mod) == r
  {
    MixBelow(r);
    n := EveryStateVisited(v, Mix(r));
    MixInvolutive(r);
    ModSmall(r, mod);
  }

  lemma ModSmall(r: nat, mod: nat)
    requires r < mod
    ensures r % mod == r
  {}

  lemma {:induction false} IterateFirst(n: nat, v: nat)
    requires n > 0
    ensures Iterate(n, v) == Iterate(n - 1, NextState(v))
  {
    if n > 1 { IterateFirst(n - 1, v); }
  }
}
