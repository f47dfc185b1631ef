/** From every state the pipelined connection can be brought to rest without new submissions, so that every
    future submitted so far can still be resolved. */
module PipelineProgress {
  import opened Errors
  import opened Pipeline
  import opened PipelineInvariant
  import opened PipelineTheorems

  // -------------------------------------------------------------------- runs

  predicate NoSubmit(steps: seq<Step>) {
    forall st :: st in steps ==> !st.Submit?
  }

  lemma {:induction false} JoinRuns(s: Conn, a: seq<Step>, b: seq<Step>)
    requires Legal(s, a) && Legal(After(s, a), b)
    ensures Legal(s, a + b) && After(s, a + b) == After(After(s, a), b)
    decreases |a|
  {
    if a == [] {
      assert a + b == b;
    } else {
      JoinRuns(Next(s, a[0]), a[1..], b);
      assert (a + b)[1..] == a[1..] + b;
    }
  }

  lemma OneStep(s: Conn, st: Step)
    requires Enabled(s, st)
    ensures Legal(s, [st]) && After(s, [st]) == Next(s, st)
  {
    assert [st][1..] == [];
    assert Legal(Next(s, st), []) && After(Next(s, st), []) == Next(s, st);
  }

  lemma StepThen(s: Conn, st: Step, more: seq<Step>)
    requires Enabled(s, st) && Legal(Next(s, st), more)
    ensures Legal(s, [st] + more) && After(s, [st] + more) == After(Next(s, st), more)
  {
    OneStep(s, st);
    JoinRuns(s, [st], more);
  }

  lemma ReachableFurther(s: Conn, steps: seq<Step>)
    requires Reachable(s) && Legal(s, steps)
    ensures Reachable(After(s, steps))
  {
    var before :| Legal(Init(), before) && After(Init(), before) == s;
    JoinRuns(Init(), before, steps);
  }

  // ----------------------------------------------------------------- closing

  /** A closed connection has closed its signal, or its dropper is about to. */
  predicate ClosedInv(s: Conn) {
    s.phase.Closed? ==> s.signalClosed || s.control.Dropping?
  }

  lemma StepKeepsClosedInv(s: Conn, st: Step)
    requires ClosedInv(s) && Enabled(s, st)
    ensures ClosedInv(Next(s, st))
  {}

  lemma {:induction false} RunKeepsClosedInv(s: Conn, steps: seq<Step>)
    requires ClosedInv(s) && Legal(s, steps)
    ensures ClosedInv(After(s, steps))
    decreases |steps|
  {
    if steps != [] {
      StepKeepsClosedInv(s, steps[0]);
      RunKeepsClosedInv(Next(s, steps[0]), steps[1..]);
    }
  }

  lemma ReachableClosedInv(s: Conn)
    requires Reachable(s)
    ensures ClosedInv(s)
  {
    var steps :| Legal(Init(), steps) && After(Init(), steps) == s;
    RunKeepsClosedInv(Init(), steps);
  }

  /** How far the holder of `conn.mutex` is from having closed the connection. */
  function ToClose(s: Conn): nat {
    if s.signalClosed then 0
    else if s.control.Dropping? then (if s.phase.Closed? then 1 else 3)
    else if s.control.Idle? then 2
    else if s.control.Dialed? then 3
    else 4
  }

  function CloseStep(s: Conn): Step {
    if s.control.Dropping? then Drop
    else if s.control.Idle? then Shutdown
    else if s.control.Dialed? then Publish
    else DialFail
  }

  lemma CloseStepWorks(s: Conn)
    requires ControlInv(s) && ClosedInv(s) && !s.signalClosed
    ensures Enabled(s, CloseStep(s)) && ToClose(Next(s, CloseStep(s))) < ToClose(s)
    ensures Next(s, CloseStep(s)).subs == s.subs
  {}

  /** The context can always be brought down. */
  lemma {:induction false} CanClose(s: Conn) returns (steps: seq<Step>)
    requires Inv(s) && ClosedInv(s)
    ensures Legal(s, steps) && NoSubmit(steps)
    ensures After(s, steps).signalClosed && After(s, steps).subs == s.subs && Inv(After(s, steps))
    decreases ToClose(s)
  {
    if s.signalClosed {
      steps := [];
    } else {
      var st := CloseStep(s);
      CloseStepWorks(s);
      StepKeepsInv(s, st);
      StepKeepsClosedInv(s, st);
      var more := CanClose(Next(s, st));
      StepThen(s, st, more);
      steps := [st] + more;
    }
  }

  // ------------------------------------------------------------ ending a pair

  function WriterLeft(w: Writer): nat {
    match w
    case Holding => 4
    case Wrote => 3
    case Woken => 3
    case Waiting => 2
    case Leaving => 1
    case Gone => 0
  }

  function ReaderLeft(r: Reader): nat {
    match r
    case Reading => 3
    case HasReply(_) => 2
    case Draining => 1
    case _ => 0
  }

  /** Work left for a pair: what its goroutines have before them, batches, and futures. */
  function PairLeft(p: Pair): nat {
    2 * WriterLeft(p.writer) + ReaderLeft(p.reader) + |p.chan| + |p.rest| + |Flatten(p.chan)| + |p.batch|
  }

  /** The next step of the writer of a pair on a closed connection. */
  function WriterStep(p: Pair, k: nat): Step {
    match p.writer
    case Waiting => Step.Stop(k)
    case Woken => Step.Take(k)
    case Holding => Step.Write(k, true)
    case Wrote => Step.Push(k)
    case _ => Step.Leave(k)
  }

  /** The next step of a pair on a closed connection: its socket is closed, so a read fails. */
  function PairStepFor(p: Pair, k: nat): Step {
    if p.reader.Reading? then Step.Read(k, Error(IO))
    else if p.reader.HasReply? && (p.chan != [] || p.writer.Gone?) then Step.Fetch(k)
    else if p.reader.Draining? && (p.rest != [] || p.chan != [] || p.writer.Gone?) then Step.Drain(k)
    else WriterStep(p, k)
  }

  /** The step changes pair k and the log, and nothing else but futures on their way. */
  predicate OnlyPair(s: Conn, t: Conn, k: nat) {
    && t.subs == s.subs && t.signalClosed == s.signalClosed && |t.pairs| == |s.pairs|
    && forall m :: 0 <= m < |s.pairs| && m != k ==> t.pairs[m] == s.pairs[m]
  }

  /** What the writer's next step leaves of its pair. */
  function AfterWriter(p: Pair): Pair {
    match p.writer
    case Waiting => p.(writer := Leaving)
    case Woken => p.(writer := Waiting)
    case Holding => DoWrite(p, true)
    case Wrote => p.(writer := Waiting, batch := [], chan := p.chan + [p.batch])
    case _ => DoLeave(p)
  }

  lemma WriterStepEnabled(s: Conn, k: nat)
    requires k < |s.pairs| && s.signalClosed && s.queue == []
    requires s.pairs[k].chan == [] && !s.pairs[k].writer.Gone?
    ensures var st := WriterStep(s.pairs[k], k);
      Enabled(s, st) && Next(s, st) == s.(pairs := s.pairs[k := AfterWriter(s.pairs[k])])
  {}

  lemma WriterStepLess(p: Pair)
    requires p.chan == [] && !p.writer.Gone?
    ensures PairLeft(AfterWriter(p)) < PairLeft(p)
  {
    FlattenAppend(p.chan, p.batch);
  }

  lemma WriterStepWorks(s: Conn, k: nat)
    requires k < |s.pairs| && s.signalClosed && s.queue == []
    requires s.pairs[k].chan == [] && !s.pairs[k].writer.Gone?
    ensures var st := WriterStep(s.pairs[k], k);
      Enabled(s, st) && OnlyPair(s, Next(s, st), k) && PairLeft(Next(s, st).pairs[k]) < PairLeft(s.pairs[k])
  {
    WriterStepEnabled(s, k);
    WriterStepLess(s.pairs[k]);
  }

  lemma ReadFails(s: Conn, k: nat)
    requires k < |s.pairs| && s.pairs[k].reader.Reading?
    ensures var st := Step.Read(k, Error(IO));
      Enabled(s, st) && OnlyPair(s, Next(s, st), k) && PairLeft(Next(s, st).pairs[k]) < PairLeft(s.pairs[k])
  {}

  lemma FetchWorks(s: Conn, k: nat)
    requires k < |s.pairs| && Shape(s.pairs[k]) && Enabled(s, Step.Fetch(k))
    ensures var st := Step.Fetch(k);
      OnlyPair(s, Next(s, st), k) && PairLeft(Next(s, st).pairs[k]) < PairLeft(s.pairs[k])
  {
    var p := s.pairs[k];
    if p.chan != [] {
      assert p.chan[0] != [];
      assert |Flatten(p.chan)| == |p.chan[0]| + |Flatten(p.chan[1..])|;
    }
  }

  lemma DrainWorks(s: Conn, k: nat)
    requires k < |s.pairs| && Enabled(s, Step.Drain(k))
    ensures var st := Step.Drain(k);
      OnlyPair(s, Next(s, st), k) && PairLeft(Next(s, st).pairs[k]) < PairLeft(s.pairs[k])
  {
    var p := s.pairs[k];
    if p.chan != [] {
      assert |Flatten(p.chan)| == |p.chan[0]| + |Flatten(p.chan[1..])|;
    }
  }

  lemma PairStepWorks(s: Conn, k: nat)
    requires k < |s.pairs| && Shape(s.pairs[k]) && s.signalClosed && s.queue == [] && !s.pairs[k].reader.Finished?
    ensures var st := PairStepFor(s.pairs[k], k);
      && Enabled(s, st) && !st.Submit?
      && OnlyPair(s, Next(s, st), k) && PairLeft(Next(s, st).pairs[k]) < PairLeft(s.pairs[k])
  {
    var p := s.pairs[k];
    if p.reader.Reading? {
      ReadFails(s, k);
    } else if p.reader.HasReply? && (p.chan != [] || p.writer.Gone?) {
      FetchWorks(s, k);
    } else if p.reader.Draining? && (p.rest != [] || p.chan != [] || p.writer.Gone?) {
      DrainWorks(s, k);
    } else {
      WriterStepWorks(s, k);
    }
  }

  /** On a closed connection every pair can be brought to its end, and the others need not move. */
  lemma {:induction false} CanEndPair(s: Conn, k: nat) returns (steps: seq<Step>)
    requires Inv(s) && s.signalClosed && k < |s.pairs|
    ensures Legal(s, steps) && NoSubmit(steps) && Inv(After(s, steps))
    ensures OnlyPair(s, After(s, steps), k) && After(s, steps).pairs[k].reader.Finished?
    decreases PairLeft(s.pairs[k])
  {
    if s.pairs[k].reader.Finished? {
      steps := [];
    } else {
      var st := PairStepFor(s.pairs[k], k);
      PairStepWorks(s, k);
      StepKeepsInv(s, st);
      var t := Next(s, st);
      var more := CanEndPair(t, k);
      StepThen(s, st, more);
      steps := [st] + more;
    }
  }

  /** The first n pairs have ended. */
  predicate EndedUpTo(s: Conn, n: nat) {
    n <= |s.pairs| && forall k :: 0 <= k < n ==> s.pairs[k].reader.Finished?
  }

  lemma {:induction false} CanEndPairs(s: Conn, n: nat) returns (steps: seq<Step>)
    requires Inv(s) && s.signalClosed && n <= |s.pairs|
    ensures Legal(s, steps) && NoSubmit(steps) && Inv(After(s, steps))
    ensures After(s, steps).signalClosed && After(s, steps).subs == s.subs
    ensures |After(s, steps).pairs| == |s.pairs| && EndedUpTo(After(s, steps), n)
  {
    if n == 0 {
      steps := [];
    } else {
      var first := CanEndPairs(s, n - 1);
      var more := CanEndPair(After(s, first), n - 1);
      JoinRuns(s, first, more);
      steps := first + more;
    }
  }

  // ---------------------------------------------------------------- theorem

  /** From every reachable state some run without submissions brings the connection to rest, and then every
      future submitted so far has been resolved, once by `ResolvedAtMostOnce`, and nothing else has. */
  lemma CanQuiesce(s: Conn) returns (steps: seq<Step>)
    requires Reachable(s)
    ensures Legal(s, steps) && NoSubmit(steps) && Quiescent(After(s, steps))
    ensures forall e :: IsFuture(s.subs, e) <==> InLog(After(s, steps).log, e)
  {
    ReachableInv(s);
    ReachableClosedInv(s);
    var first := CanClose(s);
    var closed := After(s, first);
    var more := CanEndPairs(closed, |closed.pairs|);
    JoinRuns(s, first, more);
    steps := first + more;
    ReachableFurther(s, steps);
    var t := After(s, steps);
    assert t.queue == [] && Quiescent(t);
    forall e ensures IsFuture(s.subs, e) <==> InLog(t.log, e) { QuiescentResolvedAll(t, e); }
  }
}
