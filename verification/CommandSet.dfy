/** The command sets of redis/command_type.go: a linear-probing table of name hashes. */
module CommandSet {
  import opened Bits
  import opened Decimal

  // -------------------------------------------------------------------- hash

  /** c &^ 0x20 */
  function Fold(c: Byte): nat {
    Clear(c, 5)
  }

  /** One byte of the hash, in uint64 arithmetic. */
  function HashStep(h: nat, c: Byte): nat {
    Xor(h, Fold(c)) * 1099511628211 % 0x1_0000_0000_0000_0000
  }

  /** fnv1a64NoCase. */
  function Hash(s: Bytes): nat {
    if s == [] then 14695981039346656037 else HashStep(Hash(s[..|s| - 1]), s[|s| - 1])
  }

  method HashLoop(s: Bytes) returns (h: nat)
    ensures h == Hash(s) && IsUint64(h)
  {
    h := 14695981039346656037;
    for i := 0 to |s|
      invariant h == Hash(s[..i]) && IsUint64(h)
    {
      assert s[..i + 1][..i] == s[..i];
      h := Xor(h, Fold(s[i]));
      h := h * 1099511628211 % 0x1_0000_0000_0000_0000;
    }
    assert s[..|s|] == s;
  }

  lemma FoldIs(c: Byte)
    ensures Fold(c) == c - if Bit(c, 5) then 32 else 0
    ensures !Bit(Fold(c), 5)
  {
    ClearIs(c, 5);
    BitAfterClear(c, 5, 5);
  }

  /** Equal up to bit 5, which is what tells the two cases of an ASCII letter apart. */
  predicate SameLetter(c: Byte, d: Byte) {
    c == d || (Bit(c, 5) && c == d + 32) || (Bit(d, 5) && d == c + 32)
  }

  lemma FoldedIff(c: Byte, d: Byte)
    ensures Fold(c) == Fold(d) <==> SameLetter(c, d)
  {
    FoldIs(c);
    FoldIs(d);
  }

  lemma LettersMatch(c: Byte)
    requires 65 <= c <= 90
    ensures SameLetter(c, c + 32)
  {
    var n := (c + 32) / 2;
    assert n / 2 / 2 / 2 / 2 == 3;
    assert Bit(3, 0) && Bit(n / 2 / 2 / 2, 1) && Bit(n / 2 / 2, 2) && Bit(n / 2, 3) && Bit(n, 4);
  }

  /** The hash does not depend on letter case. */
  lemma {:induction false} HashIgnoresCase(s: Bytes, t: Bytes)
    requires |s| == |t| && forall i :: 0 <= i < |s| ==> SameLetter(s[i], t[i])
    ensures Hash(s) == Hash(t)
  {
    if s != [] {
      var n := |s| - 1;
      HashIgnoresCase(s[..n], t[..n]);
      FoldedIff(s[n], t[n]);
    }
  }

  predicate IsUpper(c: Byte) { 65 <= c <= 90 }

  function ToLower(s: Bytes): (t: Bytes)
    ensures |t| == |s|
  {
    seq(|s|, i requires 0 <= i < |s| => if IsUpper(s[i]) then s[i] + 32 else s[i])
  }

  /** Any two spellings of a name in ASCII letters, whatever their cases, have one hash. */
  lemma SpellingsHashAlike(s: Bytes, t: Bytes)
    requires ToLower(s) == ToLower(t)
    ensures Hash(s) == Hash(t)
  {
    LowerHashes(s);
    LowerHashes(t);
  }

  lemma LowerHashes(s: Bytes)
    ensures Hash(ToLower(s)) == Hash(s)
  {
    forall i | 0 <= i < |s| ensures SameLetter(ToLower(s)[i], s[i]) {
      if IsUpper(s[i]) { LettersMatch(s[i]); }
    }
    HashIgnoresCase(ToLower(s), s);
  }

  // ------------------------------------------------------------------- table

  /** The d-th cell probed for h in a table of l cells. */
  function Probe(h: nat, d: nat, l: nat): nat
    requires l > 0
  {
    (h + d) % l
  }

  /** Probing for h meets h before any empty cell. */
  predicate Found(t: seq<nat>, h: nat, d: nat)
    requires |t| > 0
  {
    t[Probe(h, d, |t|)] == h && forall e :: 0 <= e < d ==> t[Probe(h, e, |t|)] != 0
  }

  ghost predicate Reachable(t: seq<nat>, h: nat)
    requires |t| > 0
  {
    exists d: nat :: Found(t, h, d)
  }

  predicate HasHash(names: seq<Bytes>, h: nat) {
    exists i :: 0 <= i < |names| && Hash(names[i]) == h
  }

  function Empties(t: seq<nat>): nat {
    if t == [] then 0 else Empties(t[1..]) + if t[0] == 0 then 1 else 0
  }

  /** Every cell holds the hash of a name, and every name's hash is found from its home cell. */
  ghost predicate Holds(t: seq<nat>, names: seq<Bytes>) {
    && |t| > 0
    && (forall p :: 0 <= p < |t| && t[p] != 0 ==> HasHash(names, t[p]))
    && (forall i :: 0 <= i < |names| && Hash(names[i]) != 0 ==> Reachable(t, Hash(names[i])))
  }

  /** A finished table: a power-of-two size that an int can hold, and at least half of it empty. */
  ghost predicate TableOf(t: seq<nat>, names: seq<Bytes>) {
    && Holds(t, names)
    && (exists k: nat :: k < 64 && |t| == Pow2(k))
    && 2 * Empties(t) >= |t|
  }

  lemma {:induction false} EmptiesUpdate(t: seq<nat>, p: nat, h: nat)
    requires p < |t|
    ensures Empties(t[p := h]) >= Empties(t) - 1
  {
    if p > 0 {
      assert t[p := h][1..] == t[1..][p - 1 := h];
      EmptiesUpdate(t[1..], p - 1, h);
    } else {
      assert t[p := h][1..] == t[1..];
    }
  }

  lemma {:induction false} EmptyCell(t: seq<nat>) returns (p: nat)
    requires Empties(t) > 0
    ensures p < |t| && t[p] == 0
  {
    if t[0] == 0 {
      p := 0;
    } else {
      p := EmptyCell(t[1..]);
      p := p + 1;
    }
  }

  lemma {:induction false} AllEmpty(t: seq<nat>)
    requires forall p :: 0 <= p < |t| ==> t[p] == 0
    ensures Empties(t) == |t|
  {
    if t != [] { AllEmpty(t[1..]); }
  }

  lemma NewTable(t: seq<nat>)
    requires |t| > 0 && forall p :: 0 <= p < |t| ==> t[p] == 0
    ensures Holds(t, []) && Empties(t) == |t|
  {
    AllEmpty(t);
  }

  lemma Division(a: nat, l: nat)
    requires l > 0
    ensures a == a / l * l + a % l && a % l < l
  {}

  lemma NextMultiple(q: nat, l: nat)
    ensures q * l + l == (q + 1) * l
  {}

  lemma NextRemainder(a: nat, l: nat, q: nat, r: nat)
    requires r < l && a == q * l + r
    ensures (a + 1) % l == if r + 1 < l then r + 1 else 0
  {
    if r + 1 < l {
      RemainderIs(a + 1, l, q, r + 1);
    } else {
      NextMultiple(q, l);
      RemainderIs(a + 1, l, q + 1, 0);
    }
  }

  lemma ProbeNext(h: nat, d: nat, l: nat)
    requires l > 0
    ensures (Probe(h, d, l) + 1) % l == Probe(h, d + 1, l)
  {
    var a := h + d;
    Division(a, l);
    NextRemainder(a, l, a / l, a % l);
    NextRemainder(a % l, l, 0, a % l);
  }

  /** Probing from any home reaches every cell. */
  lemma ProbeReaches(h: nat, p: nat, l: nat) returns (d: nat)
    requires p < l
    ensures Probe(h, d, l) == p
  {
    var q, r := h / l, h % l;
    if r <= p {
      d := p - r;
      RemainderIs(h + d, l, q, p);
    } else {
      d := p + l - r;
      NextMultiple(q, l);
      RemainderIs(h + d, l, q + 1, p);
    }
  }

  /** Filling the first empty cell found for h keeps what was found and makes h found. */
  lemma InsertKeeps(t: seq<nat>, names: seq<Bytes>, name: Bytes, d: nat)
    requires Holds(t, names) && t[Probe(Hash(name), d, |t|)] == 0
    requires forall e :: 0 <= e < d ==> t[Probe(Hash(name), e, |t|)] != 0
    ensures Holds(t[Probe(Hash(name), d, |t|) := Hash(name)], names + [name])
  {
    var h := Hash(name);
    var p := Probe(h, d, |t|);
    var u := t[p := h];
    var all := names + [name];
    forall c | 0 <= c < |u| && u[c] != 0 ensures HasHash(all, u[c]) {
      if c == p {
        assert all[|names|] == name;
      } else {
        var i :| 0 <= i < |names| && Hash(names[i]) == t[c];
        assert all[i] == names[i];
      }
    }
    forall i | 0 <= i < |all| && Hash(all[i]) != 0 ensures Reachable(u, Hash(all[i])) {
      if i < |names| {
        var d' : nat :| Found(t, Hash(names[i]), d');
        assert Found(u, Hash(names[i]), d');
      } else {
        assert Found(u, h, d);
      }
    }
  }

  /** The inner loop of makeSet. */
  method FirstEmpty(hsh: array<nat>, h: nat, ghost k: nat) returns (pos: nat, ghost d: nat)
    requires hsh.Length == Pow2(k) && Empties(hsh[..]) > 0
    ensures pos == Probe(h, d, hsh.Length) && hsh[pos] == 0
    ensures forall e :: 0 <= e < d ==> hsh[Probe(h, e, hsh.Length)] != 0
  {
    ghost var free := EmptyCell(hsh[..]);
    ghost var stop := ProbeReaches(h, free, hsh.Length);
    AndLow(h, k);
    pos, d := And(h, hsh.Length - 1), 0;
    while hsh[pos] != 0
      invariant pos == Probe(h, d, hsh.Length) && d <= stop
      invariant forall e :: 0 <= e < d ==> hsh[Probe(h, e, hsh.Length)] != 0
      decreases stop - d
    {
      AndLow(pos + 1, k);
      ProbeNext(h, d, hsh.Length);
      pos, d := And(pos + 1, hsh.Length - 1), d + 1;
    }
  }

  /** The size loop: the least power of two that is twice the number of names. */
  method TableSize(n: nat) returns (l: nat, ghost k: nat)
    requires n <= 0x2000_0000_0000_0000
    ensures k < 64 && l == Pow2(k) && l >= 2 * n
  {
    l, k := 1, 0;
    while l < n * 2
      invariant l == Pow2(k) && (k > 0 ==> Pow2(k - 1) < 2 * n)
      decreases 2 * n - l
    {
      l, k := l * 2, k + 1;
    }
    if k >= 64 {
      PowersMultiply(62, k - 63);
      Pow62();
      assert false;
    }
  }

  lemma Pow62()
    ensures Pow2(62) == 0x4000_0000_0000_0000
  {
    PowersMultiply(31, 31);
    assert Pow2(31) == 0x8000_0000 by {
      PowersMultiply(15, 16);
      assert Pow2(15) == 0x8000;
      assert Pow2(16) == 0x1_0000;
    }
  }

  /** One turn of makeSet's loop. */
  method Insert(hsh: array<nat>, name: Bytes, ghost names: seq<Bytes>, ghost k: nat)
    requires hsh.Length == Pow2(k) && Holds(hsh[..], names) && Empties(hsh[..]) > 0
    modifies hsh
    ensures Holds(hsh[..], names + [name])
    ensures Empties(hsh[..]) >= old(Empties(hsh[..])) - 1
  {
    var h := HashLoop(name);
    var pos;
    ghost var d;
    pos, d := FirstEmpty(hsh, h, k);
    InsertKeeps(hsh[..], names, name, d);
    EmptiesUpdate(hsh[..], pos, h);
    ghost var was := hsh[..];
    hsh[pos] := h;
    assert hsh[..] == was[pos := h];
  }

  /** makeSet. */
  method MakeSet(names: seq<Bytes>) returns (hsh: array<nat>)
    requires |names| <= 0x2000_0000_0000_0000
    ensures TableOf(hsh[..], names)
  {
    var l: nat;
    ghost var k: nat;
    l, k := TableSize(|names|);
    hsh := new nat[l](_ => 0);
    NewTable(hsh[..]);
    ghost var done: seq<Bytes> := [];
    for i := 0 to |names|
      invariant hsh.Length == l && done == names[..i]
      invariant Holds(hsh[..], done) && Empties(hsh[..]) >= l - i
    {
      Insert(hsh, names[i], done, k);
      done := done + [names[i]];
    }
    Finished(hsh[..], done, k);
  }

  lemma Finished(t: seq<nat>, names: seq<Bytes>, k: nat)
    requires Holds(t, names) && k < 64 && |t| == Pow2(k) && 2 * Empties(t) >= |t|
    ensures TableOf(t, names)
  {}

  // ------------------------------------------------------------------ lookup

  /** What checkSet answers: membership of the hash, and true for the hash that marks empty cells. */
  predicate Member(name: Bytes, names: seq<Bytes>) {
    Hash(name) == 0 || HasHash(names, Hash(name))
  }

  lemma Pow64(k: nat)
    requires k < 64
    ensures Pow2(k) * Pow2(64 - k) == 0x1_0000_0000_0000_0000
  {
    PowersMultiply(k, 64 - k);
    PowersMultiply(62, 2);
    Pow62();
    assert Pow2(2) == 4;
  }

  lemma MaskedCounter(h: nat, d: nat, k: nat, pos: nat)
    requires k < 64 && pos == (h + d) % 0x1_0000_0000_0000_0000
    ensures And(pos, Pow2(k) - 1) == Probe(h, d, Pow2(k))
  {
    AndLow(pos, k);
    Pow64(k);
    ModOfMultiple(h + d, Pow2(k), Pow2(64 - k));
  }

  lemma CounterNext(h: nat, d: nat)
    ensures ((h + d) % 0x1_0000_0000_0000_0000 + 1) % 0x1_0000_0000_0000_0000 == (h + (d + 1)) % 0x1_0000_0000_0000_0000
  {}

  /** The loop of checkSet. The counter is an int that may start negative and wrap, which its mask does
      not notice. */
  method Lookup(h: nat, hsh: array<nat>, ghost k: nat, ghost stop: nat) returns (found: bool, ghost d: nat)
    requires IsUint64(h) && k < 64 && hsh.Length == Pow2(k) && hsh[Probe(h, stop, hsh.Length)] == 0
    ensures Missed(hsh[..], h, d)
    ensures hsh[Probe(h, d, hsh.Length)] == if found then h else 0
    ensures !found ==> h != 0
  {
    d := 0;
    ghost var t := hsh[..];
    var pos := h;
    while true
      invariant pos == (h + d) % 0x1_0000_0000_0000_0000 && d <= stop
      invariant Missed(t, h, d)
      decreases stop - d
    {
      MaskedCounter(h, d, k, pos);
      var cell := hsh[And(pos, hsh.Length - 1)];
      assert cell == t[Probe(h, d, |t|)];
      if cell == h {
        return true, d;
      }
      if cell == 0 {
        return false, d;
      }
      CounterNext(h, d);
      pos, d := (pos + 1) % 0x1_0000_0000_0000_0000, d + 1;
    }
  }

  /** checkSet: it ends on every table that makeSet built, and answers exactly by hash. */
  method CheckSet(name: Bytes, hsh: array<nat>, ghost names: seq<Bytes>) returns (found: bool)
    requires TableOf(hsh[..], names)
    ensures found == Member(name, names)
  {
    var h := HashLoop(name);
    ghost var k: nat :| k < 64 && |hsh[..]| == Pow2(k);
    ghost var free := EmptyCell(hsh[..]);
    ghost var stop := ProbeReaches(h, free, hsh.Length);
    ghost var d;
    found, d := Lookup(h, hsh, k, stop);
    LookupDecides(hsh[..], names, h, d, found);
  }

  lemma LookupDecides(t: seq<nat>, names: seq<Bytes>, h: nat, d: nat, found: bool)
    requires Holds(t, names) && Missed(t, h, d) && (!found ==> h != 0)
    requires t[Probe(h, d, |t|)] == if found then h else 0
    ensures found <==> h == 0 || HasHash(names, h)
  {
    if !found { NotFound(t, names, h, d); }
  }

  /** The first d probes met neither h nor an empty cell. */
  predicate Missed(t: seq<nat>, h: nat, d: nat)
    requires |t| > 0
  {
    forall e :: 0 <= e < d ==> t[Probe(h, e, |t|)] != 0 && t[Probe(h, e, |t|)] != h
  }

  lemma NotFound(t: seq<nat>, names: seq<Bytes>, h: nat, d: nat)
    requires Holds(t, names) && h != 0 && t[Probe(h, d, |t|)] == 0
    requires Missed(t, h, d)
    ensures !HasHash(names, h)
  {
    forall d': nat ensures !Found(t, h, d') {}
    assert !Reachable(t, h);
  }

  /** The answer is set membership of the hash except for a name that hashes to zero, when no name of the
      set does; `ZeroHash.ZeroNameIsEverywhere` shows such a name. */
  lemma MemberIsHashIff(name: Bytes, names: seq<Bytes>)
    ensures (Member(name, names) <==> HasHash(names, Hash(name))) <==> Hash(name) != 0 || HasHash(names, 0)
  {}

  // ------------------------------------------------------- forbidden commands

  const SUBSCRIBE: Bytes := [83, 85, 66, 83, 67, 82, 73, 66, 69]
  const PSUBSCRIBE: Bytes := [80, 83, 85, 66, 83, 67, 82, 73, 66, 69]

  /** What ForbiddenCommand refuses; `blocking` are the names of the blocking commands. */
  predicate Forbidden(name: Bytes, singleThreaded: bool, blocking: seq<Bytes>) {
    || Hash(name) == Hash(SUBSCRIBE) || Hash(name) == Hash(PSUBSCRIBE)
    || (!singleThreaded && Member(name, blocking))
  }

  /** ForbiddenCommand: the two subscribe commands are refused in every mode, a member of the blocking set
      only outside the single-threaded mode, and nothing else ever. */
  method ForbiddenCommand(name: Bytes, singleThreaded: bool, hsh: array<nat>, ghost blocking: seq<Bytes>)
      returns (refused: bool)
    requires TableOf(hsh[..], blocking)
    ensures refused == Forbidden(name, singleThreaded, blocking)
    ensures singleThreaded ==> (refused <==> Subscribes(name))
    ensures !singleThreaded ==> (refused <==> Subscribes(name) || Hash(name) == 0 || HasHash(blocking, Hash(name)))
  {
    var h := HashLoop(name);
    var sub := HashLoop(SUBSCRIBE);
    var psub := HashLoop(PSUBSCRIBE);
    SubscribeNames();
    if h == sub || h == psub {
      return true;
    }
    if !singleThreaded {
      refused := CheckSet(name, hsh, blocking);
    } else {
      refused := false;
    }
  }

  /** The name has the hash of one of the two commands that turn a connection around. */
  predicate Subscribes(name: Bytes) {
    Hash(name) == Hash(Ascii("SUBSCRIBE")) || Hash(name) == Hash(Ascii("PSUBSCRIBE"))
  }

  lemma SubscribeNames()
    ensures SUBSCRIBE == Ascii("SUBSCRIBE") && PSUBSCRIBE == Ascii("PSUBSCRIBE")
  {}

  /** They are refused however they are cased, single threaded or not. */
  lemma SubscribeRefused(name: Bytes, singleThreaded: bool, blocking: seq<Bytes>)
    requires ToLower(name) == Ascii("subscribe") || ToLower(name) == Ascii("psubscribe")
    ensures Subscribes(name) && Forbidden(name, singleThreaded, blocking)
  {
    SubscribeNames();
    assert ToLower(SUBSCRIBE) == Ascii("subscribe") && ToLower(PSUBSCRIBE) == Ascii("psubscribe");
    if ToLower(name) == Ascii("subscribe") {
      SpellingsHashAlike(name, SUBSCRIBE);
    } else {
      SpellingsHashAlike(name, PSUBSCRIBE);
    }
  }

  /** A blocking command is refused however its letters are cased. */
  lemma BlockingRefused(name: Bytes, blocking: seq<Bytes>, i: nat)
    requires i < |blocking| && ToLower(name) == ToLower(blocking[i])
    ensures Forbidden(name, false, blocking)
  {
    SpellingsHashAlike(name, blocking[i]);
  }
}
