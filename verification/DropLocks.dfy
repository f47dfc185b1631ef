/** Why retrying inside dropFutures cannot deadlock. The goroutine that drops the queue of a connection
    holds that connection's `futmtx` while it resolves futures; a cluster request so resolved is sent to
    another connection and needs that one's `futmtx`. (redisconn/conn.go with rediscluster/cluster.go.) */
module DropLocks {

  datatype Phase = Disconnected | Connecting | Connected | Closed

  /** MayBeConnected */
  predicate Healthy(p: Phase) { p.Connecting? || p.Connected? }

  /** What a retry under the lock is doing: nothing, waiting for the lock of the connection `on` that was
      selected at time `at`, or inside that connection's short critical section. */
  datatype Visit = Away | Wants(on: nat, at: nat) | Inside(on: nat)

  /** The dropping goroutine of a connection: not at work, past the store to `state` but not yet the
      holder of `futmtx`, or holding it. */
  datatype Dropper = Quiet | Published | Active(visit: Visit)

  /** `since` is the time of the last store of an unhealthy phase. */
  datatype Conn = Conn(phase: Phase, since: nat, dropper: Dropper)

  /** Holder of a `futmtx`: nobody, the connection's dropper, a retry of another connection's dropper, or
      some other goroutine (a sender, a writer, a reader's retry), none of which waits while it holds it. */
  datatype Holder = Free | ByDropper | ByVisitor(c: nat) | ByOther(k: nat)

  datatype Other = Elsewhere | Waits(d: nat) | Holds(d: nat)

  datatype World = World(clock: nat, conns: seq<Conn>, locks: seq<Holder>, others: seq<Other>)

  datatype Step =
    | Dial(c: nat)                        // state := connecting
    | Up(c: nat)                          // state := connected
    | Fall(c: nat, forever: bool)         // state := disconnected or closed, before Lock
    | Lock(c: nat)                        // the dropper gets its futmtx
    | Select(c: nat, d: nat)              // a dropped request is retried on d
    | Enter(c: nat)                       // doSend gets the futmtx of the selected connection
    | Exit(c: nat)                        // and releases it
    | Finish(c: nat)                      // the queue is dropped
    | Arrive(k: nat, d: nat) | Acquire(k: nat) | Release(k: nat)

  predicate Shape(w: World) { |w.locks| == |w.conns| }

  predicate Enabled(w: World, st: Step)
    requires Shape(w)
  {
    match st
    case Dial(c) => c < |w.conns| && w.conns[c].dropper.Quiet? && w.conns[c].phase.Disconnected?
    case Up(c) => c < |w.conns| && w.conns[c].dropper.Quiet? && w.conns[c].phase.Connecting?
    case Fall(c, _) => c < |w.conns| && w.conns[c].dropper.Quiet? && !w.conns[c].phase.Closed?
    case Lock(c) => c < |w.conns| && w.conns[c].dropper.Published? && w.locks[c].Free?
    case Select(c, d) => c < |w.conns| && d < |w.conns| && w.conns[c].dropper == Active(Away)
        && Healthy(w.conns[d].phase)
    case Enter(c) => c < |w.conns| && w.conns[c].dropper.Active? && w.conns[c].dropper.visit.Wants?
                     && w.conns[c].dropper.visit.on < |w.conns| && w.locks[w.conns[c].dropper.visit.on].Free?
    case Exit(c) => c < |w.conns| && w.conns[c].dropper.Active? && w.conns[c].dropper.visit.Inside?
                    && w.conns[c].dropper.visit.on < |w.conns|
    case Finish(c) => c < |w.conns| && w.conns[c].dropper == Active(Away)
    case Arrive(k, d) => k < |w.others| && d < |w.conns| && w.others[k].Elsewhere?
    case Acquire(k) => k < |w.others| && w.others[k].Waits? && w.others[k].d < |w.conns| && w.locks[w.others[k].d].Free?
    case Release(k) => k < |w.others| && w.others[k].Holds? && w.others[k].d < |w.conns|
  }

  function SetConn(w: World, c: nat, x: Conn): World
    requires c < |w.conns|
  {
    w.(clock := w.clock + 1, conns := w.conns[c := x])
  }

  function Next(w: World, st: Step): (t: World)
    requires Shape(w) && Enabled(w, st)
    ensures Shape(t) && |t.conns| == |w.conns| && |t.others| == |w.others| && t.clock == w.clock + 1
  {
    match st
    case Dial(c) => SetConn(w, c, w.conns[c].(phase := Connecting))
    case Up(c) => SetConn(w, c, w.conns[c].(phase := Connected))
    case Fall(c, forever) => SetConn(w, c, Conn(if forever then Closed else Disconnected, w.clock, Published))
    case Lock(c) => SetConn(w.(locks := w.locks[c := ByDropper]), c, w.conns[c].(dropper := Active(Away)))
    case Select(c, d) => SetConn(w, c, w.conns[c].(dropper := Active(Wants(d, w.clock))))
    case Enter(c) =>
      var d := w.conns[c].dropper.visit.on;
      SetConn(w.(locks := w.locks[d := ByVisitor(c)]), c, w.conns[c].(dropper := Active(Inside(d))))
    case Exit(c) =>
      var d := w.conns[c].dropper.visit.on;
      SetConn(w.(locks := w.locks[d := Free]), c, w.conns[c].(dropper := Active(Away)))
    case Finish(c) => SetConn(w.(locks := w.locks[c := Free]), c, w.conns[c].(dropper := Quiet))
    case Arrive(k, d) => w.(clock := w.clock + 1, others := w.others[k := Waits(d)])
    case Acquire(k) =>
      var d := w.others[k].d;
      w.(clock := w.clock + 1, locks := w.locks[d := ByOther(k)], others := w.others[k := Holds(d)])
    case Release(k) =>
      var d := w.others[k].d;
      w.(clock := w.clock + 1, locks := w.locks[d := Free], others := w.others[k := Elsewhere])
  }

  predicate Initial(w: World) {
    && Shape(w)
    && (forall c :: 0 <= c < |w.conns| ==> w.conns[c].dropper.Quiet? && w.locks[c].Free?)
    && (forall k :: 0 <= k < |w.others| ==> w.others[k].Elsewhere?)
  }

  predicate Legal(w: World, steps: seq<Step>)
    requires Shape(w)
    decreases |steps|
  {
    steps == [] || (Enabled(w, steps[0]) && Legal(Next(w, steps[0]), steps[1..]))
  }

  function After(w: World, steps: seq<Step>): (t: World)
    requires Shape(w) && Legal(w, steps)
    ensures Shape(t) && |t.conns| == |w.conns|
    decreases |steps|
  {
    if steps == [] then w else After(Next(w, steps[0]), steps[1..])
  }

  ghost predicate Reachable(w: World) {
    exists w0, steps :: Initial(w0) && Legal(w0, steps) && w == After(w0, steps)
  }

  // --------------------------------------------------------------- invariant

  /** The lock of d is held by whom the holder says, and only by them. */
  predicate LockInv(w: World, d: nat)
    requires Shape(w) && d < |w.conns|
  {
    && (w.locks[d].ByDropper? <==> w.conns[d].dropper.Active?)
    && (w.locks[d].ByVisitor? ==> w.locks[d].c < |w.conns| && w.conns[w.locks[d].c].dropper == Active(Inside(d)))
    && (w.locks[d].ByOther? ==> w.locks[d].k < |w.others| && w.others[w.locks[d].k] == Holds(d))
  }

  predicate VisitInv(w: World, c: nat)
    requires Shape(w) && c < |w.conns|
  {
    w.conns[c].dropper.Active? ==>
      match w.conns[c].dropper.visit
      case Away => true
      case Inside(d) => d < |w.conns| && w.locks[d] == ByVisitor(c)
      case Wants(d, at) =>
        && d < |w.conns| && w.conns[c].since < at < w.clock
        && (w.conns[d].dropper.Quiet? || at < w.conns[d].since)
  }

  predicate OtherInv(w: World, k: nat)
    requires Shape(w) && k < |w.others|
  {
    match w.others[k]
    case Elsewhere => true
    case Waits(d) => d < |w.conns|
    case Holds(d) => d < |w.conns| && w.locks[d] == ByOther(k)
  }

  /** A dropper at work has published before, and its connection stays unhealthy. */
  predicate PhaseInv(w: World, c: nat)
    requires c < |w.conns|
  {
    !w.conns[c].dropper.Quiet? ==> !Healthy(w.conns[c].phase) && w.conns[c].since < w.clock
  }

  predicate Inv(w: World) {
    && Shape(w)
    && (forall c :: 0 <= c < |w.conns| ==> LockInv(w, c) && VisitInv(w, c) && PhaseInv(w, c))
    && (forall k :: 0 <= k < |w.others| ==> OtherInv(w, k))
  }

  lemma ConnStepKeeps(w: World, st: Step)
    requires Inv(w) && Enabled(w, st) && (st.Dial? || st.Up? || st.Fall? || st.Lock? || st.Select?)
    ensures Inv(Next(w, st))
  {
    var t := Next(w, st);
    if st.Select? { assert PhaseInv(w, st.d); }
    forall c | 0 <= c < |w.conns| ensures LockInv(t, c) { assert LockInv(w, c); }
    forall c | 0 <= c < |w.conns| ensures VisitInv(t, c) { assert VisitInv(w, c) && PhaseInv(w, c) && LockInv(w, c); }
    forall c | 0 <= c < |w.conns| ensures PhaseInv(t, c) { assert PhaseInv(w, c); }
    forall k | 0 <= k < |w.others| ensures OtherInv(t, k) { assert OtherInv(w, k); }
  }

  lemma VisitStepKeeps(w: World, st: Step)
    requires Inv(w) && Enabled(w, st) && (st.Enter? || st.Exit? || st.Finish?)
    ensures Inv(Next(w, st))
  {
    var t := Next(w, st);
    assert VisitInv(w, st.c) && LockInv(w, st.c);
    forall c | 0 <= c < |w.conns| ensures LockInv(t, c) { assert LockInv(w, c); }
    forall c | 0 <= c < |w.conns| ensures VisitInv(t, c) { assert VisitInv(w, c); }
    forall c | 0 <= c < |w.conns| ensures PhaseInv(t, c) { assert PhaseInv(w, c); }
    forall k | 0 <= k < |w.others| ensures OtherInv(t, k) { assert OtherInv(w, k); }
  }

  lemma OtherStepKeeps(w: World, st: Step)
    requires Inv(w) && Enabled(w, st) && (st.Arrive? || st.Acquire? || st.Release?)
    ensures Inv(Next(w, st))
  {
    var t := Next(w, st);
    assert OtherInv(w, st.k);
    forall c | 0 <= c < |w.conns| ensures LockInv(t, c) { assert LockInv(w, c); }
    forall c | 0 <= c < |w.conns| ensures VisitInv(t, c) { assert VisitInv(w, c); }
    forall c | 0 <= c < |w.conns| ensures PhaseInv(t, c) { assert PhaseInv(w, c); }
    forall k | 0 <= k < |w.others| ensures OtherInv(t, k) { assert OtherInv(w, k); }
  }

  lemma StepKeepsInv(w: World, st: Step)
    requires Inv(w) && Enabled(w, st)
    ensures Inv(Next(w, st))
  {
    match st {
      case Arrive(_, _) => OtherStepKeeps(w, st);
      case Acquire(_) => OtherStepKeeps(w, st);
      case Release(_) => OtherStepKeeps(w, st);
      case Enter(_) => VisitStepKeeps(w, st);
      case Exit(_) => VisitStepKeeps(w, st);
      case Finish(_) => VisitStepKeeps(w, st);
      case _ => ConnStepKeeps(w, st);
    }
  }

  lemma {:induction false} RunKeepsInv(w: World, steps: seq<Step>)
    requires Inv(w) && Legal(w, steps)
    ensures Inv(After(w, steps))
    decreases |steps|
  {
    if steps != [] {
      StepKeepsInv(w, steps[0]);
      RunKeepsInv(Next(w, steps[0]), steps[1..]);
    }
  }

  lemma ReachableInv(w: World)
    requires Reachable(w)
    ensures Inv(w)
  {
    var w0, steps :| Initial(w0) && Legal(w0, steps) && w == After(w0, steps);
    RunKeepsInv(w0, steps);
  }

  // ---------------------------------------------------------------- theorems

  /** The dropper of c holds its queue and waits for the queue that the dropper of d holds. */
  predicate WaitsFor(w: World, c: nat, d: nat)
    requires Shape(w)
  {
    && c < |w.conns| && d < |w.conns| && w.locks[d].ByDropper?
    && w.conns[c].dropper.Active? && w.conns[c].dropper.visit.Wants? && w.conns[c].dropper.visit.on == d
  }

  predicate WaitPath(w: World, path: seq<nat>)
    requires Shape(w)
  {
    forall i :: 0 < i < |path| ==> WaitsFor(w, path[i - 1], path[i])
  }

  /** Along a wait the later dropper published later. */
  lemma WaitsForLater(w: World, c: nat, d: nat)
    requires Inv(w) && WaitsFor(w, c, d)
    ensures w.conns[c].since < w.conns[d].since
  {
    assert VisitInv(w, c) && LockInv(w, d);
  }

  lemma {:induction false} WaitPathLater(w: World, path: seq<nat>, i: nat)
    requires Inv(w) && WaitPath(w, path) && 0 < i < |path|
    ensures path[0] < |w.conns| && path[i] < |w.conns| && w.conns[path[0]].since < w.conns[path[i]].since
  {
    assert WaitsFor(w, path[i - 1], path[i]);
    WaitsForLater(w, path[i - 1], path[i]);
    if i > 1 { WaitPathLater(w, path, i - 1); }
  }

  /** In every reachable state the wait-for relation among queue holders has no cycle. */
  lemma NoWaitCycle(w: World, path: seq<nat>)
    requires Reachable(w) && WaitPath(w, path) && |path| > 1
    ensures path[0] != path[|path| - 1]
  {
    ReachableInv(w);
    WaitPathLater(w, path, |path| - 1);
  }

  /** The steps by which present holders move on; none of them lets a new goroutine in. */
  predicate Onward(st: Step) {
    st.Enter? || st.Exit? || st.Finish? || st.Release?
  }

  /** Steps of a run towards a free lock leave those alone that wait and published before `bound`. */
  predicate Undisturbed(w: World, t: World, bound: nat) {
    |t.conns| == |w.conns| && forall x :: 0 <= x < |w.conns| && StillWaits(w, x, bound) ==> t.conns[x] == w.conns[x]
  }

  predicate StillWaits(w: World, x: nat, bound: nat)
    requires x < |w.conns|
  {
    w.conns[x].dropper.Active? && w.conns[x].dropper.visit.Wants? && w.conns[x].since < bound
  }

  lemma {:induction false} JoinRuns(w: World, a: seq<Step>, b: seq<Step>)
    requires Shape(w) && Legal(w, a) && Legal(After(w, a), b)
    ensures Legal(w, a + b) && After(w, a + b) == After(After(w, a), b)
    decreases |a|
  {
    if a == [] {
      assert a + b == b;
    } else {
      JoinRuns(Next(w, a[0]), a[1..], b);
      assert (a + b)[1..] == a[1..] + b;
    }
  }

  lemma OneStep(w: World, st: Step)
    requires Shape(w) && Enabled(w, st)
    ensures Legal(w, [st]) && After(w, [st]) == Next(w, st)
  {
    assert [st][1..] == [];
    assert Legal(Next(w, st), []) && After(Next(w, st), []) == Next(w, st);
  }

  ghost predicate Frees(w: World, steps: seq<Step>, d: nat, bound: nat)
    requires Shape(w) && d < |w.conns|
  {
    && Legal(w, steps) && (forall st :: st in steps ==> Onward(st))
    && After(w, steps).locks[d].Free? && Undisturbed(w, After(w, steps), bound)
  }

  /** A lock in a short critical section is one step away from free. */
  lemma ShortHolderLeaves(w: World, d: nat, bound: nat) returns (steps: seq<Step>)
    requires Inv(w) && d < |w.conns| && (w.locks[d].ByVisitor? || w.locks[d].ByOther?)
    ensures Frees(w, steps, d, bound)
  {
    assert LockInv(w, d);
    var st := if w.locks[d].ByVisitor? then Exit(w.locks[d].c) else Release(w.locks[d].k);
    steps := [st];
    OneStep(w, st);
  }

  /** The holder of d ends its drop from a state in which it is not waiting. */
  lemma DropEnds(w: World, d: nat) returns (steps: seq<Step>)
    requires Inv(w) && d < |w.conns| && w.conns[d].dropper.Active? && !w.conns[d].dropper.visit.Wants?
    ensures Frees(w, steps, d, w.conns[d].since)
  {
    assert VisitInv(w, d);
    if w.conns[d].dropper.visit.Away? {
      steps := [Finish(d)];
      OneStep(w, Finish(d));
    } else {
      var t := Next(w, Exit(d));
      OneStep(w, Exit(d));
      OneStep(t, Finish(d));
      JoinRuns(w, [Exit(d)], [Finish(d)]);
      steps := [Exit(d)] + [Finish(d)];
    }
  }

  lemma EnterAndEnd(w: World, d: nat) returns (steps: seq<Step>)
    requires Inv(w) && d < |w.conns| && Enabled(w, Enter(d))
    ensures Frees(w, steps, d, w.conns[d].since)
  {
    var t := Next(w, Enter(d));
    StepKeepsInv(w, Enter(d));
    var more := DropEnds(t, d);
    OneStep(w, Enter(d));
    JoinRuns(w, [Enter(d)], more);
    steps := [Enter(d)] + more;
    assert t.conns[d].since == w.conns[d].since;
  }

  /** From every reachable state each queue mutex can be brought free by letting present holders go on,
      whatever else waits: nobody is stuck. */
  lemma {:induction false} EveryLockComesFree(w: World, d: nat) returns (steps: seq<Step>)
    requires Inv(w) && d < |w.conns|
    ensures Frees(w, steps, d, w.conns[d].since)
    decreases if w.conns[d].dropper.Quiet? then 0 else w.clock - w.conns[d].since
  {
    assert LockInv(w, d) && PhaseInv(w, d) && VisitInv(w, d);
    if w.locks[d].Free? {
      steps := [];
    } else if !w.locks[d].ByDropper? {
      steps := ShortHolderLeaves(w, d, w.conns[d].since);
    } else if !w.conns[d].dropper.visit.Wants? {
      steps := DropEnds(w, d);
    } else {
      var e := w.conns[d].dropper.visit.on;
      var first := FreeWanted(w, d, e);
      var t := After(w, first);
      RunKeepsInv(w, first);
      assert StillWaits(w, d, w.conns[d].since + 1);
      var more := EnterAndEnd(t, d);
      JoinRuns(w, first, more);
      steps := first + more;
      UndisturbedTwice(w, t, After(t, more), w.conns[d].since);
    }
  }

  lemma FreeWanted(w: World, d: nat, e: nat) returns (steps: seq<Step>)
    requires Inv(w) && d < |w.conns| && w.conns[d].dropper.Active? && w.conns[d].dropper.visit.Wants?
             && w.conns[d].dropper.visit.on == e
    ensures e < |w.conns| && Frees(w, steps, e, w.conns[d].since + 1)
    decreases w.clock - w.conns[d].since, 0
  {
    assert VisitInv(w, d) && LockInv(w, e) && PhaseInv(w, e);
    if w.locks[e].Free? {
      steps := [];
    } else if !w.locks[e].ByDropper? {
      steps := ShortHolderLeaves(w, e, w.conns[d].since + 1);
    } else {
      WaitsForLater(w, d, e);
      steps := EveryLockComesFree(w, e);
      Narrower(w, After(w, steps), w.conns[e].since, w.conns[d].since + 1);
    }
  }

  lemma Narrower(w: World, t: World, bound: nat, less: nat)
    requires Undisturbed(w, t, bound) && less <= bound
    ensures Undisturbed(w, t, less)
  {
    forall x | 0 <= x < |w.conns| && StillWaits(w, x, less) ensures t.conns[x] == w.conns[x] {
      assert StillWaits(w, x, bound);
    }
  }

  lemma UndisturbedTwice(w: World, t: World, u: World, bound: nat)
    requires Undisturbed(w, t, bound + 1) && Undisturbed(t, u, bound)
    ensures Undisturbed(w, u, bound)
  {
    forall x | 0 <= x < |w.conns| && StillWaits(w, x, bound) ensures u.conns[x] == w.conns[x] {
      assert StillWaits(w, x, bound + 1);
      assert StillWaits(t, x, bound);
    }
  }

  /** No deadlock: in every reachable state every queue mutex can come free by the present holders' steps. */
  lemma NoDeadlock(w: World, d: nat)
    requires Reachable(w) && d < |w.conns|
    ensures Shape(w) && exists steps :: Frees(w, steps, d, w.conns[d].since)
  {
    ReachableInv(w);
    var steps := EveryLockComesFree(w, d);
  }
}
