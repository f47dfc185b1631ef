/** The lock-free result collector of redis/sync_context.go: any number of calls of ctxBatch.Resolve, the
    cancel loop's among them, interleaved at their atomic operations. */
module CtxBatch {
  import opened Errors

  /** Where a call of Resolve stands: before the CAS, after winning it, after storing the result, at
      close(ch), or returned. */
  datatype Pc = Start | Claimed | Stored | Closing | Returned

  datatype Call<V> = Call(slot: nat, value: V, pc: Pc)

  /** `r`, `o` and `cnt` are the fields of ctxBatch and `closes` counts close(ch). `winner` and `stores`
      are histories: the call that won a slot, and how often the slot was written. */
  datatype Batch<V> = Batch(
    r: seq<Option<V>>, o: seq<bool>, cnt: nat, closes: nat, calls: seq<Call<V>>,
    winner: seq<Option<nat>>, stores: seq<nat>)

  datatype Step<V> =
    | Enter(slot: nat, value: V)
    | Cas(c: nat)
    | Store(c: nat)
    | Add(c: nat)
    | Close(c: nat)

  function Init<V>(n: nat): Batch<V> {
    Batch(seq(n, _ => None), seq(n, _ => false), 0, 0, [], seq(n, _ => None), seq(n, _ => 0))
  }

  predicate Shape<V>(s: Batch<V>) {
    |s.o| == |s.r| && |s.winner| == |s.r| && |s.stores| == |s.r|
        && forall c :: 0 <= c < |s.calls| ==> s.calls[c].slot < |s.r|
  }

  predicate Enabled<V>(s: Batch<V>, st: Step<V>) {
    match st
    case Enter(slot, _) => slot < |s.r|
    case Cas(c) => c < |s.calls| && s.calls[c].pc.Start?
    case Store(c) => c < |s.calls| && s.calls[c].pc.Claimed?
    case Add(c) => c < |s.calls| && s.calls[c].pc.Stored?
    case Close(c) => c < |s.calls| && s.calls[c].pc.Closing?
  }

  function Goto<V>(calls: seq<Call<V>>, c: nat, pc: Pc): (r: seq<Call<V>>)
    requires c < |calls|
    ensures |r| == |calls| && r[c] == calls[c].(pc := pc) && forall d :: 0 <= d < |calls| && d != c ==> r[d] == calls[d]
  {
    calls[c := calls[c].(pc := pc)]
  }

  function Next<V>(s: Batch<V>, st: Step<V>): Batch<V>
    requires Shape(s) && Enabled(s, st)
  {
    match st
    case Enter(slot, value) => s.(calls := s.calls + [Call(slot, value, Start)])
    case Cas(c) =>
      var i := s.calls[c].slot;
      if s.o[i] then s.(calls := Goto(s.calls, c, Returned))
      else s.(o := s.o[i := true], winner := s.winner[i := Some(c)], calls := Goto(s.calls, c, Claimed))
    case Store(c) =>
      var i := s.calls[c].slot;
      s.(r := s.r[i := Some(s.calls[c].value)], stores := s.stores[i := s.stores[i] + 1],
        calls := Goto(s.calls, c, Stored))
    case Add(c) =>
      var cnt := (s.cnt + 1) % 0x1_0000_0000;
      s.(cnt := cnt, calls := Goto(s.calls, c, if cnt == |s.r| then Closing else Returned))
    case Close(c) => s.(closes := s.closes + 1, calls := Goto(s.calls, c, Returned))
  }

  predicate Legal<V>(s: Batch<V>, steps: seq<Step<V>>)
    requires Shape(s)
    decreases |steps|
  {
    steps == [] || (Enabled(s, steps[0]) && (StepKeepsShape(s, steps[0]); Legal(Next(s, steps[0]), steps[1..])))
  }

  function After<V>(s: Batch<V>, steps: seq<Step<V>>): (t: Batch<V>)
    requires Shape(s) && Legal(s, steps)
    ensures Shape(t)
    decreases |steps|
  {
    if steps == [] then s else StepKeepsShape(s, steps[0]); After(Next(s, steps[0]), steps[1..])
  }

  lemma StepKeepsShape<V>(s: Batch<V>, st: Step<V>)
    requires Shape(s) && Enabled(s, st)
    ensures Shape(Next(s, st))
  {}

  // --------------------------------------------------------------- invariant

  /** The winner of slot i has passed its add. */
  predicate Added<V>(s: Batch<V>, i: nat)
    requires Shape(s) && i < |s.r|
  {
    && s.winner[i].Some? && s.winner[i].value < |s.calls|
    && (s.calls[s.winner[i].value].pc.Closing? || s.calls[s.winner[i].value].pc.Returned?)
  }

  function Adds<V>(s: Batch<V>, k: nat): nat
    requires Shape(s) && k <= |s.r|
  {
    if k == 0 then 0 else Adds(s, k - 1) + if Added(s, k - 1) then 1 else 0
  }

  /** A slot is claimed by one call, which is the one to store into it. */
  ghost predicate SlotInv<V>(s: Batch<V>, i: nat)
    requires Shape(s) && i < |s.r|
  {
    match s.winner[i]
    case None => !s.o[i] && s.stores[i] == 0 && s.r[i] == None
    case Some(c) =>
      && s.o[i] && c < |s.calls| && s.calls[c].slot == i && !s.calls[c].pc.Start?
      && (if s.calls[c].pc.Claimed? then s.stores[i] == 0 && s.r[i] == None
          else s.stores[i] == 1 && s.r[i] == Some(s.calls[c].value))
  }

  /** Only the winner of a slot is between its CAS and its return. */
  predicate CallInv<V>(s: Batch<V>, c: nat)
    requires Shape(s) && c < |s.calls|
  {
    s.calls[c].pc.Claimed? || s.calls[c].pc.Stored? || s.calls[c].pc.Closing? ==> s.winner[s.calls[c].slot] == Some(c)
  }

  /** A call is about to close the channel. */
  predicate SomeoneCloses<V>(s: Batch<V>) {
    exists c :: 0 <= c < |s.calls| && s.calls[c].pc.Closing?
  }

  predicate CloseInv<V>(s: Batch<V>)
    requires Shape(s)
  {
    && s.cnt == Adds(s, |s.r|) % 0x1_0000_0000
    && s.closes <= 1
    && (forall c, d :: 0 <= c < d < |s.calls| ==> !(s.calls[c].pc.Closing? && s.calls[d].pc.Closing?))
    && (SomeoneCloses(s) ==> s.closes == 0)
    && (s.closes == 1 || SomeoneCloses(s) <==> Adds(s, |s.r|) == |s.r| && 0 < |s.r| < 0x1_0000_0000)
  }

  ghost predicate Inv<V>(s: Batch<V>) {
    && Shape(s)
    && (forall i :: 0 <= i < |s.r| ==> SlotInv(s, i))
    && (forall c :: 0 <= c < |s.calls| ==> CallInv(s, c))
    && CloseInv(s)
  }

  lemma {:induction false} AddsBounded<V>(s: Batch<V>, k: nat)
    requires Shape(s) && k <= |s.r|
    ensures Adds(s, k) <= k
    ensures Adds(s, k) == k <==> forall i :: 0 <= i < k ==> Added(s, i)
  {
    if k > 0 { AddsBounded(s, k - 1); }
  }

  lemma {:induction false} AddsSame<V>(s: Batch<V>, t: Batch<V>, k: nat)
    requires Shape(s) && Shape(t) && k <= |s.r| == |t.r|
    requires forall i :: 0 <= i < k ==> Added(t, i) == Added(s, i)
    ensures Adds(t, k) == Adds(s, k)
  {
    if k > 0 { AddsSame(s, t, k - 1); }
  }

  lemma {:induction false} AddsOneMore<V>(s: Batch<V>, t: Batch<V>, k: nat, j: nat)
    requires Shape(s) && Shape(t) && j < k <= |s.r| == |t.r|
    requires forall i :: 0 <= i < |s.r| && i != j ==> Added(t, i) == Added(s, i)
    requires Added(t, j) && !Added(s, j)
    ensures Adds(t, k) == Adds(s, k) + 1
  {
    if k - 1 == j { AddsSame(s, t, j); } else { AddsOneMore(s, t, k - 1, j); }
  }

  lemma EnterKeeps<V>(s: Batch<V>, slot: nat, value: V)
    requires Inv(s) && slot < |s.r|
    ensures Inv(Next(s, Enter(slot, value)))
  {
    var t := Next(s, Enter(slot, value));
    assert forall c :: 0 <= c < |s.calls| ==> t.calls[c] == s.calls[c];
    forall i | 0 <= i < |s.r| ensures SlotInv(t, i) && Added(t, i) == Added(s, i) { assert SlotInv(s, i); }
    forall c | 0 <= c < |t.calls| ensures CallInv(t, c) { assert c < |s.calls| ==> CallInv(s, c); }
    AddsSame(s, t, |s.r|);
    assert SomeoneCloses(t) == SomeoneCloses(s);
  }

  lemma CasKeeps<V>(s: Batch<V>, c: nat)
    requires Inv(s) && Enabled(s, Cas(c))
    ensures Inv(Next(s, Cas(c)))
  {
    var t := Next(s, Cas(c));
    assert SlotInv(s, s.calls[c].slot);
    forall i | 0 <= i < |s.r| ensures SlotInv(t, i) && Added(t, i) == Added(s, i) { assert SlotInv(s, i); }
    forall d | 0 <= d < |t.calls| ensures CallInv(t, d) { assert CallInv(s, d) && SlotInv(s, s.calls[d].slot); }
    AddsSame(s, t, |s.r|);
    SameClosers(s, t, c);
  }

  lemma SameClosers<V>(s: Batch<V>, t: Batch<V>, c: nat)
    requires |s.calls| == |t.calls| && c < |s.calls| && !s.calls[c].pc.Closing? && !t.calls[c].pc.Closing?
    requires forall d :: 0 <= d < |s.calls| && d != c ==> t.calls[d] == s.calls[d]
    ensures SomeoneCloses(t) == SomeoneCloses(s)
  {
    if SomeoneCloses(s) {
      var d :| 0 <= d < |s.calls| && s.calls[d].pc.Closing?;
      assert t.calls[d].pc.Closing?;
    }
    if SomeoneCloses(t) {
      var d :| 0 <= d < |t.calls| && t.calls[d].pc.Closing?;
      assert s.calls[d].pc.Closing?;
    }
  }

  lemma StoreKeeps<V>(s: Batch<V>, c: nat)
    requires Inv(s) && Enabled(s, Store(c))
    ensures Inv(Next(s, Store(c)))
  {
    var t := Next(s, Store(c));
    assert CallInv(s, c);
    forall i | 0 <= i < |s.r| ensures SlotInv(t, i) && Added(t, i) == Added(s, i) { assert SlotInv(s, i); }
    forall d | 0 <= d < |t.calls| ensures CallInv(t, d) { assert CallInv(s, d); }
    AddsSame(s, t, |s.r|);
    SameClosers(s, t, c);
  }

  lemma AddKeeps<V>(s: Batch<V>, c: nat)
    requires Inv(s) && Enabled(s, Add(c))
    ensures Inv(Next(s, Add(c)))
  {
    var t := Next(s, Add(c));
    var j := s.calls[c].slot;
    assert CallInv(s, c);
    forall i | 0 <= i < |s.r| ensures SlotInv(t, i) && (i != j ==> Added(t, i) == Added(s, i)) { assert SlotInv(s, i); }
    forall d | 0 <= d < |t.calls| ensures CallInv(t, d) { assert CallInv(s, d); }
    AddsOneMore(s, t, |s.r|, j);
    AddsBounded(t, |s.r|);
    assert s.closes == 0 && !SomeoneCloses(s);
    forall d | 0 <= d < |t.calls| && d != c ensures !t.calls[d].pc.Closing? { assert t.calls[d] == s.calls[d]; }
    CountedIff(Adds(s, |s.r|), |s.r|);
  }

  /** The uint32 counter shows the batch size exactly when all have added and the size fits. */
  lemma CountedIff(adds: nat, n: nat)
    requires adds < n
    ensures (adds % 0x1_0000_0000 + 1) % 0x1_0000_0000 == (adds + 1) % 0x1_0000_0000
    ensures (adds + 1) % 0x1_0000_0000 == n <==> adds + 1 == n && n < 0x1_0000_0000
  {}

  lemma CloseKeeps<V>(s: Batch<V>, c: nat)
    requires Inv(s) && Enabled(s, Close(c))
    ensures Inv(Next(s, Close(c)))
  {
    var t := Next(s, Close(c));
    assert SomeoneCloses(s);
    forall i | 0 <= i < |s.r| ensures SlotInv(t, i) && Added(t, i) == Added(s, i) { assert SlotInv(s, i); }
    forall d | 0 <= d < |t.calls| ensures CallInv(t, d) { assert CallInv(s, d); }
    AddsSame(s, t, |s.r|);
    forall d | 0 <= d < |t.calls| ensures !t.calls[d].pc.Closing? { assert d != c ==> t.calls[d] == s.calls[d]; }
  }

  lemma StepKeepsInv<V>(s: Batch<V>, st: Step<V>)
    requires Inv(s) && Enabled(s, st)
    ensures Inv(Next(s, st))
  {
    match st {
      case Enter(slot, value) => EnterKeeps(s, slot, value);
      case Cas(c) => CasKeeps(s, c);
      case Store(c) => StoreKeeps(s, c);
      case Add(c) => AddKeeps(s, c);
      case Close(c) => CloseKeeps(s, c);
    }
  }

  lemma {:induction false} InitAdds<V>(n: nat, k: nat)
    requires k <= n
    ensures Shape(Init<V>(n)) && Adds(Init<V>(n), k) == 0
  {
    if k > 0 { InitAdds<V>(n, k - 1); }
  }

  lemma InitInv<V>(n: nat)
    ensures Inv(Init<V>(n))
  {
    InitAdds<V>(n, n);
  }

  lemma {:induction false} RunKeepsInv<V>(s: Batch<V>, steps: seq<Step<V>>)
    requires Inv(s) && Legal(s, steps)
    ensures Inv(After(s, steps))
    decreases |steps|
  {
    if steps != [] {
      StepKeepsInv(s, steps[0]);
      RunKeepsInv(Next(s, steps[0]), steps[1..]);
    }
  }

  // ---------------------------------------------------------------- theorems

  /** In every run the channel is closed at most once, and by the time a call reaches the close every
      slot has been stored into exactly once, with the value of the call that claimed it. */
  lemma ClosedOnceWhenComplete<V>(n: nat, steps: seq<Step<V>>)
    requires Legal(Init<V>(n), steps)
    ensures var s := After(Init<V>(n), steps);
      && s.closes <= 1 && |s.r| == n
      && (s.closes == 1 || SomeoneCloses(s) ==> forall i :: 0 <= i < |s.r| ==> StoredByItsClaimer(s, i))
  {
    InitInv<V>(n);
    RunKeepsInv(Init<V>(n), steps);
    var s := After(Init<V>(n), steps);
    RunKeepsSize(Init<V>(n), steps);
    AddsBounded(s, n);
    forall i | 0 <= i < n && Added(s, i) ensures StoredByItsClaimer(s, i) { assert SlotInv(s, i); }
  }

  /** One store, of the value of the call that won the slot's CAS. */
  ghost predicate StoredByItsClaimer<V>(s: Batch<V>, i: nat)
    requires Shape(s) && i < |s.r|
  {
    && s.stores[i] == 1 && s.winner[i].Some? && s.winner[i].value < |s.calls|
    && s.calls[s.winner[i].value].slot == i && s.r[i] == Some(s.calls[s.winner[i].value].value)
  }

  lemma {:induction false} RunKeepsSize<V>(s: Batch<V>, steps: seq<Step<V>>)
    requires Shape(s) && Legal(s, steps)
    ensures |After(s, steps).r| == |s.r|
    decreases |steps|
  {
    if steps != [] {
      StepKeepsShape(s, steps[0]);
      RunKeepsSize(Next(s, steps[0]), steps[1..]);
    }
  }

  lemma NoStoreAfterClose<V>(s: Batch<V>)
    requires Inv(s) && s.closes == 1
    ensures forall c :: 0 <= c < |s.calls| ==> !s.calls[c].pc.Claimed? && !s.calls[c].pc.Closing?
  {
    AddsBounded(s, |s.r|);
    forall c | 0 <= c < |s.calls| ensures !s.calls[c].pc.Claimed? {
      assert CallInv(s, c) && Added(s, s.calls[c].slot);
    }
  }

  /** Once the channel is closed, no later step changes a result: the reader of the channel may use them. */
  lemma {:induction false} ClosedIsFinal<V>(s: Batch<V>, steps: seq<Step<V>>)
    requires Inv(s) && s.closes == 1 && Legal(s, steps)
    ensures After(s, steps).r == s.r && After(s, steps).closes == 1
    decreases |steps|
  {
    if steps != [] {
      StepKeepsInv(s, steps[0]);
      AddsBounded(s, |s.r|);
      NoStoreAfterClose(s);
      var t := Next(s, steps[0]);
      assert t.closes == 1;
      ClosedIsFinal(t, steps[1..]);
    }
  }

  /** All calls have returned, and each slot was resolved by one at least. */
  predicate AllResolved<V>(s: Batch<V>)
    requires Shape(s)
  {
    && (forall c :: 0 <= c < |s.calls| ==> s.calls[c].pc.Returned?)
    && (forall i :: 0 <= i < |s.r| ==> s.o[i])
  }

  /** Once every slot was resolved and all calls have returned, the channel is closed exactly when the size
      of the batch fits the 32-bit counter and is not zero. */
  lemma ClosedInTheEndIff<V>(n: nat, steps: seq<Step<V>>)
    requires Legal(Init<V>(n), steps) && AllResolved(After(Init<V>(n), steps))
    ensures After(Init<V>(n), steps).closes == 1 <==> 0 < n < 0x1_0000_0000
  {
    InitInv<V>(n);
    RunKeepsInv(Init<V>(n), steps);
    RunKeepsSize(Init<V>(n), steps);
    var s := After(Init<V>(n), steps);
    forall i | 0 <= i < n ensures Added(s, i) { assert SlotInv(s, i); }
    AddsBounded(s, n);
    assert !SomeoneCloses(s);
  }

  // A run to the end, for every size.

  lemma {:induction false} JoinRuns<V>(s: Batch<V>, a: seq<Step<V>>, b: seq<Step<V>>)
    requires Shape(s) && Legal(s, a) && Legal(After(s, a), b)
    ensures Legal(s, a + b) && After(s, a + b) == After(After(s, a), b)
    decreases |a|
  {
    if a == [] {
      assert a + b == b;
    } else {
      StepKeepsShape(s, a[0]);
      JoinRuns(Next(s, a[0]), a[1..], b);
      assert (a + b)[1..] == a[1..] + b;
    }
  }

  lemma OneStep<V>(s: Batch<V>, st: Step<V>)
    requires Shape(s) && Enabled(s, st)
    ensures Legal(s, [st]) && After(s, [st]) == Next(s, st)
  {
    StepKeepsShape(s, st);
    assert [st][1..] == [];
    assert Legal(Next(s, st), []) && After(Next(s, st), []) == Next(s, st);
  }

  lemma ThenStep<V>(s: Batch<V>, a: seq<Step<V>>, st: Step<V>) returns (b: seq<Step<V>>)
    requires Shape(s) && Legal(s, a) && Enabled(After(s, a), st)
    ensures Legal(s, b) && After(s, b) == Next(After(s, a), st)
  {
    OneStep(After(s, a), st);
    JoinRuns(s, a, [st]);
    b := a + [st];
  }

  /** The first k slots are taken, and nothing is under way. */
  predicate TakenUpTo<V>(s: Batch<V>, k: nat)
    requires Shape(s)
  {
    && k <= |s.r| && (forall c :: 0 <= c < |s.calls| ==> s.calls[c].pc.Returned?)
    && forall i :: 0 <= i < |s.r| ==> (s.o[i] <==> i < k)
  }

  /** One undisturbed call of Resolve takes the next slot. */
  lemma TakeNext<V>(s: Batch<V>, a: seq<Step<V>>, k: nat, v: V) returns (b: seq<Step<V>>)
    requires Shape(s) && Legal(s, a) && TakenUpTo(After(s, a), k) && k < |After(s, a).r|
    ensures Legal(s, b) && TakenUpTo(After(s, b), k + 1)
  {
    var c := |After(s, a).calls|;
    b := ThenStep(s, a, Enter(k, v));
    b := ThenStep(s, b, Cas(c));
    b := ThenStep(s, b, Store(c));
    b := ThenStep(s, b, Add(c));
    if After(s, b).calls[c].pc.Closing? {
      b := ThenStep(s, b, Close(c));
    }
  }

  /** For every size, 2^32 and more included, some run resolves every slot and ends. */
  lemma SomeRunResolvesAll<V>(n: nat, v: V) returns (steps: seq<Step<V>>)
    ensures Legal(Init<V>(n), steps) && AllResolved(After(Init<V>(n), steps))
  {
    steps := [];
    RunKeepsSize(Init<V>(n), steps);
    for k := 0 to n
      invariant Legal(Init<V>(n), steps) && |After(Init<V>(n), steps).r| == n && TakenUpTo(After(Init<V>(n), steps), k)
    {
      steps := TakeNext(Init<V>(n), steps, k, v);
      RunKeepsSize(Init<V>(n), steps);
    }
  }

  /** So a batch of 2^32 slots has a finished run that never closes its channel. */
  lemma LargeBatchNeverClosed<V>(v: V) returns (steps: seq<Step<V>>)
    ensures Legal(Init<V>(0x1_0000_0000), steps)
    ensures AllResolved(After(Init<V>(0x1_0000_0000), steps)) && After(Init<V>(0x1_0000_0000), steps).closes == 0
  {
    steps := SomeRunResolvesAll(0x1_0000_0000, v);
    ClosedInTheEndIff(0x1_0000_0000, steps);
    ClosedOnceWhenComplete(0x1_0000_0000, steps);
  }

  // --------------------------------------------------------------- the object

  /** ctxBatch. The ghost fields are the histories of the model. */
  class Collector<V> {
    const r: array<Option<V>>
    const o: array<bool>
    var cnt: nat
    var closes: nat
    ghost var calls: seq<Call<V>>
    ghost var winner: seq<Option<nat>>
    ghost var stores: seq<nat>

    ghost function View(): Batch<V>
      reads this, r, o
    {
      Batch(r[..], o[..], cnt, closes, calls, winner, stores)
    }

    ghost predicate Valid()
      reads this, r, o
    {
      Inv(View())
    }

    constructor (n: nat)
      ensures View() == Init(n) && Valid() && fresh(r) && fresh(o)
    {
      r := new Option<V>[n](_ => None);
      o := new bool[n](_ => false);
      cnt, closes := 0, 0;
      calls, winner, stores := [], Init<V>(n).winner, Init<V>(n).stores;
      new;
      assert r[..] == Init<V>(n).r && o[..] == Init<V>(n).o;
      InitInv<V>(n);
    }

    /** atomic.CompareAndSwapUint32(&s.o[i], 0, 1) */
    method CompareAndSwap(i: nat, ghost c: nat) returns (won: bool)
      requires Valid() && Enabled(View(), Cas(c)) && calls[c].slot == i
      modifies this, o
      ensures Valid() && View() == Next(old(View()), Cas(c)) && won == !old(o[i])
    {
      StepKeepsInv(View(), Cas(c));
      won := !o[i];
      if won {
        ghost var was := o[..];
        o[i] := true;
        assert o[..] == was[i := true];
        winner := winner[i := Some(c)];
        calls := Goto(calls, c, Claimed);
      } else {
        calls := Goto(calls, c, Returned);
      }
    }

    /** s.r[i] = res */
    method StoreResult(res: V, i: nat, ghost c: nat)
      requires Valid() && Enabled(View(), Store(c)) && calls[c].slot == i && calls[c].value == res
      modifies this, r
      ensures Valid() && View() == Next(old(View()), Store(c))
    {
      StepKeepsInv(View(), Store(c));
      ghost var was := r[..];
      r[i] := Some(res);
      assert r[..] == was[i := Some(res)];
      stores := stores[i := stores[i] + 1];
      calls := Goto(calls, c, Stored);
    }

    /** int(atomic.AddUint32(&s.cnt, 1)) == len(s.r) */
    method AddOne(ghost c: nat) returns (last: bool)
      requires Valid() && Enabled(View(), Add(c))
      modifies this
      ensures Valid() && View() == Next(old(View()), Add(c))
      ensures last <==> calls[c].pc.Closing?
    {
      StepKeepsInv(View(), Add(c));
      cnt := (cnt + 1) % 0x1_0000_0000;
      last := cnt == r.Length;
      calls := Goto(calls, c, if last then Closing else Returned);
    }

    /** close(c.ch) */
    method CloseChannel(ghost c: nat)
      requires Valid() && Enabled(View(), Close(c))
      modifies this
      ensures Valid() && View() == Next(old(View()), Close(c)) && old(closes) == 0 && closes == 1
    {
      StepKeepsInv(View(), Close(c));
      closes := closes + 1;
      calls := Goto(calls, c, Returned);
    }

    /** Resolve, when nothing comes between its steps: the first result for a slot stays. */
    method Resolve(res: V, i: nat)
      requires Valid() && i < r.Length
      modifies this, r, o
      ensures Valid()
      ensures o[..] == old(o[..])[i := true]
      ensures r[..] == if old(o[i]) then old(r[..]) else old(r[..])[i := Some(res)]
      ensures |calls| == old(|calls|) + 1 && calls == old(calls) + [Call(i, res, Returned)]
    {
      EnterKeeps(View(), i, res);
      ghost var c := |calls|;
      calls := calls + [Call(i, res, Start)];
      var won := CompareAndSwap(i, c);
      if won {
        StoreResult(res, i, c);
        var last := AddOne(c);
        if last {
          CloseChannel(c);
        }
      }
      assert calls == old(calls) + [Call(i, res, Returned)];
    }

    /** The cancel loop of SendMany: every slot not yet taken gets the error, and none is left. */
    method CancelAll(err: V)
      requires Valid()
      modifies this, r, o
      ensures Valid()
      ensures forall k :: 0 <= k < r.Length ==> o[k] && r[k] == if old(o[k]) then old(r[k]) else Some(err)
      ensures old(calls) <= calls && forall c :: old(|calls|) <= c < |calls| ==> calls[c].pc.Returned?
    {
      for i := 0 to r.Length
        invariant Valid()
        invariant forall k :: 0 <= k < i ==> o[k] && r[k] == if old(o[k]) then old(r[k]) else Some(err)
        invariant forall k :: i <= k < r.Length ==> o[k] == old(o[k]) && r[k] == old(r[k])
        invariant old(calls) <= calls && forall c :: old(|calls|) <= c < |calls| ==> calls[c].pc.Returned?
      {
        ghost var was, taken := r[..], o[..];
        Resolve(err, i);
        assert forall k :: 0 <= k < r.Length ==> o[k] == taken[i := true][k];
        assert forall k :: 0 <= k < r.Length && k != i ==> r[k] == was[k];
      }
    }
  }
}
