/** Causes and effects over the runs of a connection: what a broken pair, a published phase, a dropped queue
    and a wake-up go back to. */
module PipelineCauses {
  import opened Errors
  import opened Pipeline
  import opened PipelineTheorems

  // ------------------------------------------------------------ broken pairs

  /** A step that breaks pair k, and the error it breaks it with: a failed write, or anything else than an
      answer where a reply should be. */
  function BreakOf(st: Step, k: nat): Option<Kind> {
    if st == Step.Write(k, false) then Some(IO)
    else if st.Read? && st.k == k && st.res.Error? && (st.res.kind.IO? || st.res.kind.BadResponse?) then
      Some(st.res.kind)
    else None
  }

  function FirstBreak(steps: seq<Step>, k: nat): Option<Kind> {
    if steps == [] then None
    else if BreakOf(steps[0], k).Some? then BreakOf(steps[0], k)
    else FirstBreak(steps[1..], k)
  }

  function FailureOf(pairs: seq<Pair>, k: nat): Option<Kind> {
    if k < |pairs| then pairs[k].failure else None
  }

  /** The failure of pair k after a step that does not break it again. */
  function FailureAfter(s: Conn, st: Step, k: nat): Option<Kind> {
    if FailureOf(s.pairs, k).Some? then FailureOf(s.pairs, k) else BreakOf(st, k)
  }

  lemma FailureUpdate(pairs: seq<Pair>, m: nat, q: Pair, k: nat)
    requires m < |pairs|
    ensures FailureOf(pairs[m := q], k) == if k == m then q.failure else FailureOf(pairs, k)
  {}

  lemma ReaderFails(s: Conn, st: Step, k: nat)
    requires Enabled(s, st) && OfReader(st)
    ensures FailureOf(Next(s, st).pairs, k) == FailureAfter(s, st, k)
  {
    var t := Next(s, st);
    assert t.pairs == s.pairs[st.k := t.pairs[st.k]];
    FailureUpdate(s.pairs, st.k, t.pairs[st.k], k);
  }

  lemma WriterFails(s: Conn, st: Step, k: nat)
    requires Enabled(s, st) && OfWriter(st)
    ensures FailureOf(Next(s, st).pairs, k) == FailureAfter(s, st, k)
  {
    var t := Next(s, st);
    assert t.pairs == s.pairs[st.k := t.pairs[st.k]];
    FailureUpdate(s.pairs, st.k, t.pairs[st.k], k);
  }

  lemma StepFails(s: Conn, st: Step, k: nat)
    requires Enabled(s, st)
    ensures FailureOf(Next(s, st).pairs, k) == FailureAfter(s, st, k)
  {
    if OfReader(st) {
      ReaderFails(s, st, k);
    } else if OfWriter(st) {
      WriterFails(s, st, k);
    }
  }

  /** The error of a pair is that of the first step of the run that broke it, for ever. */
  lemma {:induction false} FailureIsFirstBreak(s: Conn, steps: seq<Step>, k: nat)
    requires Legal(s, steps)
    ensures FailureOf(After(s, steps).pairs, k)
            == if FailureOf(s.pairs, k).Some? then FailureOf(s.pairs, k) else FirstBreak(steps, k)
    decreases |steps|
  {
    if steps != [] {
      StepFails(s, steps[0], k);
      FailureIsFirstBreak(Next(s, steps[0]), steps[1..], k);
    }
  }

  predicate Leaves(p: Pair) {
    p.writer.Leaving? || p.writer.Gone?
  }

  /** The pair still leaves and has written nothing more. */
  predicate Silent(p: Pair, q: Pair) {
    Leaves(q) && q.written == p.written
  }

  lemma OwnStepSilent(s: Conn, st: Step)
    requires Enabled(s, st) && (OfReader(st) || OfWriter(st)) && Leaves(s.pairs[st.k])
    ensures Next(s, st).pairs == s.pairs[st.k := Next(s, st).pairs[st.k]]
    ensures Silent(s.pairs[st.k], Next(s, st).pairs[st.k])
  {}

  lemma OthersStep(s: Conn, st: Step, k: nat)
    requires Enabled(s, st) && (OfReader(st) || OfWriter(st)) && k < |s.pairs| && k != st.k
    ensures k < |Next(s, st).pairs| && Next(s, st).pairs[k] == s.pairs[k]
  {}

  lemma LeavingWritesNothing(s: Conn, st: Step, k: nat)
    requires k < |s.pairs| && Leaves(s.pairs[k]) && Enabled(s, st)
    ensures k < |Next(s, st).pairs| && Silent(s.pairs[k], Next(s, st).pairs[k])
  {
    if OfReader(st) || OfWriter(st) {
      if st.k == k { OwnStepSilent(s, st); } else { OthersStep(s, st, k); }
    }
  }

  lemma {:induction false} LeavingForGood(s: Conn, more: seq<Step>, k: nat)
    requires k < |s.pairs| && Leaves(s.pairs[k]) && Legal(s, more)
    ensures k < |After(s, more).pairs| && After(s, more).pairs[k].written == s.pairs[k].written
    decreases |more|
  {
    if more != [] {
      LeavingWritesNothing(s, more[0], k);
      LeavingForGood(Next(s, more[0]), more[1..], k);
    }
  }

  /** A failed write is the last of its socket, and its batch counts as written: nobody knows how much of
      it went out. */
  lemma FailedWriteIsLast(s: Conn, k: nat, more: seq<Step>)
    requires Enabled(s, Step.Write(k, false)) && Legal(Next(s, Step.Write(k, false)), more)
    ensures k < |After(Next(s, Step.Write(k, false)), more).pairs|
    ensures After(Next(s, Step.Write(k, false)), more).pairs[k].written == s.pairs[k].written + s.pairs[k].batch
  {
    LeavingForGood(Next(s, Step.Write(k, false)), more, k);
  }

  // --------------------------------------------------------- published phases

  function Published(phase: Phase, st: Step): Phase {
    if st.StartDial? then Connecting
    else if st.Publish? then Connected
    else if st.DialFail? || st.Lost? then Disconnected
    else if st.Shutdown? then Closed
    else phase
  }

  function LastPublished(phase: Phase, steps: seq<Step>): Phase
    decreases |steps|
  {
    if steps == [] then phase else LastPublished(Published(phase, steps[0]), steps[1..])
  }

  lemma StepPublishes(s: Conn, st: Step)
    requires Enabled(s, st)
    ensures Next(s, st).phase == Published(s.phase, st)
  {}

  /** The phase that senders look at is the one published last. */
  lemma {:induction false} PhaseIsLastPublished(s: Conn, steps: seq<Step>)
    requires Legal(s, steps)
    ensures After(s, steps).phase == LastPublished(s.phase, steps)
    decreases |steps|
  {
    if steps != [] {
      StepPublishes(s, steps[0]);
      PhaseIsLastPublished(Next(s, steps[0]), steps[1..]);
    }
  }

  // ----------------------------------------------------------- dropped queues

  /** The steps that turn senders away, after which the queue is dropped. */
  predicate TurnsAway(st: Step) {
    st.DialFail? || st.Lost? || st.Shutdown?
  }

  function CauseOf(s: Conn, st: Step): Kind
    requires Enabled(s, st) && TurnsAway(st)
  {
    match st
    case DialFail => DialFailed
    case Lost(k) => s.pairs[k].failure.value
    case _ => ContextClosed
  }

  /** Between the publication and the drop. */
  predicate Waits(s: Conn, cause: Kind) {
    s.control == Dropping(cause) && (s.phase.Disconnected? || s.phase.Closed?)
  }

  lemma WaitingStep(s: Conn, st: Step, cause: Kind)
    requires Waits(s, cause) && Enabled(s, st) && !st.Drop?
    ensures Waits(Next(s, st), cause) && Next(s, st).phase == s.phase
    ensures Next(s, st).queue == s.queue || Next(s, st).queue == []
  {}

  lemma {:induction false} WaitingRun(s: Conn, more: seq<Step>, cause: Kind)
    requires Waits(s, cause) && Legal(s, more) && Drop !in more
    ensures var t := After(s, more);
      Waits(t, cause) && t.phase == s.phase && (t.queue == s.queue || t.queue == [])
    decreases |more|
  {
    if more != [] {
      WaitingStep(s, more[0], cause);
      WaitingRun(Next(s, more[0]), more[1..], cause);
    }
  }

  /** All of the queue, in order, is told the cause. */
  predicate AllTold(rs: seq<Resolution>, queue: seq<Future>, cause: Kind) {
    |rs| == |queue| && forall i :: 0 <= i < |rs| ==> rs[i] == Resolution(queue[i], Error(cause))
  }

  /** From the moment a failed dial, a lost socket or a shutdown is published, whatever else goes on, nothing
      joins the queue until it is dropped; and what is left of it is told that cause, each future once. */
  lemma DropTellsCause(s: Conn, st: Step, more: seq<Step>)
    requires Enabled(s, st) && TurnsAway(st) && Legal(Next(s, st), more) && Drop !in more
    ensures var t := After(Next(s, st), more);
      && (t.queue == s.queue || t.queue == []) && Enabled(t, Drop)
      && var u := Next(t, Drop);
         && u.queue == [] && !u.token && (u.signalClosed <==> t.signalClosed || st.Shutdown?)
         && t.log <= u.log && AllTold(u.log[|t.log|..], t.queue, CauseOf(s, st))
  {
    WaitingRun(Next(s, st), more, CauseOf(s, st));
  }

  // ---------------------------------------------------------------- wake-ups

  lemma {:induction false} OnlyCallsArm(s: Conn, more: seq<Step>)
    requires Legal(s, more) && !s.token && forall i :: 0 <= i < |more| ==> !more[i].Submit?
    ensures !After(s, more).token
    decreases |more|
  {
    if more != [] {
      assert !more[0].Submit?;
      OnlyCallsArm(Next(s, more[0]), more[1..]);
    }
  }

  /** One token wakes one writer: after a wake-up no writer gets another before a new call. */
  lemma OneWakePerArming(s: Conn, k: nat, more: seq<Step>, m: nat)
    requires Enabled(s, Wake(k)) && Legal(Next(s, Wake(k)), more)
    requires forall i :: 0 <= i < |more| ==> !more[i].Submit?
    ensures !Enabled(After(Next(s, Wake(k)), more), Wake(m))
  {
    OnlyCallsArm(Next(s, Wake(k)), more);
  }
}
