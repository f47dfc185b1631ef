/** Decimal text of machine integers: appendInt and appendUint of redis/request_writer.go against
    parseInt of redis/reader.go. */
module Decimal {
  import opened Errors

  type Byte = b: int | 0 <= b < 256
  type Bytes = seq<Byte>

  const ZERO: Byte := 48
  const MINUS: Byte := 45

  /** The bytes of a text in ASCII. */
  function Ascii(text: string): Bytes
    requires forall i :: 0 <= i < |text| ==> text[i] as int < 128
  {
    seq(|text|, i requires 0 <= i < |text| => text[i] as int)
  }

  predicate IsInt64(i: int) { -0x8000_0000_0000_0000 <= i < 0x8000_0000_0000_0000 }
  predicate IsUint64(u: int) { 0 <= u < 0x1_0000_0000_0000_0000 }

  /** Two's complement wrap-around to int64. */
  function Wrap64(x: int): int {
    (x + 0x8000_0000_0000_0000) % 0x1_0000_0000_0000_0000 - 0x8000_0000_0000_0000
  }

  /** Canonical decimal digits. */
  function Digits(u: nat): Bytes {
    if u < 10 then [ZERO + u] else Digits(u / 10) + [ZERO + u % 10]
  }

  function IntText(i: int): Bytes {
    if i < 0 then [MINUS] + Digits(-i) else Digits(i)
  }

  predicate IsDigit(b: Byte) { 48 <= b <= 57 }

  lemma {:induction false} DigitsAreDigits(u: nat)
    ensures Digits(u) != [] && forall k :: 0 <= k < |Digits(u)| ==> IsDigit(Digits(u)[k])
  {
    if u >= 10 { DigitsAreDigits(u / 10); }
  }

  function Pow10(k: nat): (p: nat)
    ensures p > 0
  {
    if k == 0 then 1 else 10 * Pow10(k - 1)
  }

  lemma {:induction false} DigitsLength(u: nat, k: nat)
    requires k > 0
    ensures |Digits(u)| <= k <==> u < Pow10(k)
    decreases k
  {
    if k == 1 {
      assert Pow10(1) == 10 * Pow10(0);
      if u >= 10 { DigitsAreDigits(u / 10); }
    } else if u >= 10 {
      DigitsLength(u / 10, k - 1);
    }
  }

  lemma PowersOfTen()
    ensures Pow10(8) == 100_000_000 && Pow10(9) == 1_000_000_000 && Pow10(20) == 100_000_000_000_000_000_000
  {
    assert Pow10(4) == 10_000;
    assert Pow10(12) == 1_000_000_000_000;
    assert Pow10(16) == 10_000_000_000_000_000;
  }

  // ---------------------------------------------------------------- parsing

  /** The accumulation of parseInt over digits, in int64 arithmetic; None on any other byte. */
  function Accumulate(buf: Bytes): Option<int> {
    if buf == [] then Some(0)
    else
      var n := |buf| - 1;
      match Accumulate(buf[..n])
      case None => None
      case Some(v) =>
        if IsDigit(buf[n]) then Some(Wrap64(Wrap64(v * 10) + (buf[n] - ZERO))) else None
  }

  /** parseInt; None stands for its two errors. */
  function ParseInt(buf: Bytes): Option<int> {
    if buf == [] then None
    else if buf[0] == MINUS then
      match Accumulate(buf[1..])
      case None => None
      case Some(v) => Some(Wrap64(-v))
    else Accumulate(buf)
  }

  /** Digits, after a minus sign or not; a minus sign alone passes, as in the code. */
  predicate IsNumber(buf: Bytes) {
    buf != [] && forall k :: (if buf[0] == 45 then 1 else 0) <= k < |buf| ==> IsDigit(buf[k])
  }

  lemma {:induction false} AccumulateNoneIff(buf: Bytes)
    ensures Accumulate(buf).None? <==> exists k :: 0 <= k < |buf| && !IsDigit(buf[k])
  {
    if buf != [] {
      var n := |buf| - 1;
      AccumulateNoneIff(buf[..n]);
      assert forall k :: 0 <= k < n ==> buf[..n][k] == buf[k];
    }
  }

  /** parseInt fails exactly on what is no number. */
  lemma ParseNoneIff(buf: Bytes)
    ensures ParseInt(buf).None? <==> !IsNumber(buf)
  {
    AccumulateNoneIff(buf);
    if buf != [] {
      AccumulateNoneIff(buf[1..]);
      assert forall k :: 1 <= k < |buf| ==> buf[1..][k - 1] == buf[k];
    }
  }

  lemma {:induction false} AccumulateStops(buf: Bytes, i: nat)
    requires i <= |buf| && Accumulate(buf[..i]).None?
    ensures Accumulate(buf).None?
    decreases |buf| - i
  {
    if i == |buf| {
      assert buf[..i] == buf;
    } else {
      assert buf[..i + 1][..i] == buf[..i];
      AccumulateStops(buf, i + 1);
    }
  }

  /** parseInt as a loop. */
  method ParseIntLoop(buf: Bytes) returns (r: Option<int>)
    ensures r == ParseInt(buf)
  {
    if |buf| == 0 {
      return None;
    }
    var neg := buf[0] == MINUS;
    var digits := if neg then buf[1..] else buf;
    var v := 0;
    for i := 0 to |digits|
      invariant Accumulate(digits[..i]) == Some(v)
    {
      var b := digits[i];
      assert digits[..i + 1][..i] == digits[..i];
      if b < 48 || b > 57 {
        AccumulateStops(digits, i + 1);
        return None;
      }
      v := Wrap64(v * 10);
      v := Wrap64(v + (b - 48));
    }
    assert digits[..|digits|] == digits;
    if neg {
      v := Wrap64(-v);
    }
    return Some(v);
  }

  lemma WrapTimesTen(x: int)
    ensures Wrap64(Wrap64(x) * 10) == Wrap64(x * 10)
  {
    var q := (x + 0x8000_0000_0000_0000) / 0x1_0000_0000_0000_0000;
    assert Wrap64(x) == x - 0x1_0000_0000_0000_0000 * q;
    WrapShift(x * 10, -10 * q);
  }

  lemma WrapPlus(x: int, d: int)
    ensures Wrap64(Wrap64(x) + d) == Wrap64(x + d)
  {
    var q := (x + 0x8000_0000_0000_0000) / 0x1_0000_0000_0000_0000;
    assert Wrap64(x) == x - 0x1_0000_0000_0000_0000 * q;
    WrapShift(x + d, -q);
  }

  lemma WrapNegate(x: int)
    ensures Wrap64(-Wrap64(x)) == Wrap64(-x)
  {
    var q := (x + 0x8000_0000_0000_0000) / 0x1_0000_0000_0000_0000;
    assert Wrap64(x) == x - 0x1_0000_0000_0000_0000 * q;
    WrapShift(-x, q);
  }

  lemma WrapShift(x: int, q: int)
    ensures Wrap64(x + 0x1_0000_0000_0000_0000 * q) == Wrap64(x)
  {
    ModShift(x + 0x8000_0000_0000_0000, q);
  }

  lemma ModShift(x: int, q: int)
    ensures (x + 0x1_0000_0000_0000_0000 * q) % 0x1_0000_0000_0000_0000 == x % 0x1_0000_0000_0000_0000
  {}

  lemma {:induction false} AccumulateDigits(u: nat)
    ensures Accumulate(Digits(u)) == Some(Wrap64(u))
  {
    if u < 10 {
      assert Digits(u)[..0] == [];
    } else {
      AccumulateDigits(u / 10);
      assert Digits(u)[..|Digits(u)| - 1] == Digits(u / 10);
      WrapTimesTen(u / 10);
      WrapPlus(u / 10 * 10, u % 10);
    }
  }

  /** parseInt(appendInt(i)) = i for every int64, the minimum included, where both negations wrap. */
  lemma ParseIntText(i: int)
    requires IsInt64(i)
    ensures ParseInt(IntText(i)) == Some(i)
  {
    WrapKeeps(i);
    if i < 0 {
      AccumulateDigits(-i);
      assert IntText(i)[1..] == Digits(-i);
      WrapNegate(-i);
    } else {
      DigitsAreDigits(i);
      AccumulateDigits(i);
    }
  }

  lemma WrapKeeps(i: int)
    requires IsInt64(i)
    ensures Wrap64(i) == i
  {}

  // --------------------------------------------------------------- printing

  lemma Uint64Fits(u: nat)
    requires IsUint64(u)
    ensures u < Pow10(20)
  {
    PowersOfTen();
  }

  lemma OneDigitLess(left: nat, p: nat)
    requires 0 < left < Pow10(p)
    ensures p > 0 && left / 10 < Pow10(p - 1)
  {}

  lemma ShiftDigit(left: nat, rest: Bytes, goal: Bytes)
    requires left > 0 && Digits(left) + rest == goal
    ensures left / 10 > 0 ==> Digits(left / 10) + ([ZERO + left % 10] + rest) == goal
    ensures left / 10 == 0 ==> [ZERO + left % 10] + rest == goal
  {
    if left >= 10 {
      assert Digits(left / 10) + ([ZERO + left % 10] + rest) == Digits(left / 10) + [ZERO + left % 10] + rest;
    }
  }

  /** appendUint: digits are filled from the end of a buffer, of which 20 bytes are enough for every uint64. */
  method AppendUint(b: Bytes, u: nat) returns (r: Bytes)
    requires IsUint64(u)
    ensures r == b + Digits(u)
  {
    if u <= 9 {
      return b + [ZERO + u];
    }
    Uint64Fits(u);
    var digits := new Byte[20](_ => 0);
    var p := FillDigits(digits, u);
    return b + digits[p..];
  }

  method FillDigits(digits: array<Byte>, u: nat) returns (p: nat)
    requires 0 < u < Pow10(digits.Length)
    modifies digits
    ensures p <= digits.Length && digits[p..] == Digits(u)
  {
    p := digits.Length;
    var left := u;
    ghost var goal, filled := Digits(u), digits[p..];
    assert filled == [];
    while left > 0
      invariant p <= digits.Length && filled == digits[p..]
      invariant 0 <= left < Pow10(p)
      invariant if left > 0 then Digits(left) + filled == goal else filled == goal
    {
      OneDigitLess(left, p);
      ShiftDigit(left, filled, goal);
      var n := left / 10;
      p := p - 1;
      digits[p] := ZERO + (left - n * 10);
      filled := [ZERO + left % 10] + filled;
      assert digits[p..] == filled;
      left := n;
    }
  }

  /** uint64(x) of an int64. */
  function AsUint64(x: int): nat {
    x % 0x1_0000_0000_0000_0000
  }

  lemma NegatedAsUint64(i: int)
    requires IsInt64(i) && i < 0
    ensures AsUint64(Wrap64(-i)) == -i
  {
    if i == -0x8000_0000_0000_0000 {
      assert Wrap64(-i) == -0x8000_0000_0000_0000;
    } else {
      assert Wrap64(-i) == -i;
    }
  }

  /** appendInt. */
  method AppendInt(b: Bytes, i: int) returns (r: Bytes)
    requires IsInt64(i)
    ensures r == b + IntText(i)
  {
    if 0 <= i <= 9 {
      return b + [ZERO + i];
    }
    if i > 0 {
      r := AppendUint(b, i);
    } else {
      NegatedAsUint64(i);
      r := AppendUint(b + [MINUS], AsUint64(Wrap64(-i)));
      assert b + [MINUS] + Digits(-i) == b + IntText(i);
    }
  }
}
