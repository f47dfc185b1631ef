/** What a state of the connection owes to the run that led to it: how each call stands in line and on the
    wire, why a pair broke, what was published last, and what a dropped queue is told. */
module PipelineHistory {
  import opened Errors
  import opened Pipeline
  import opened PipelineInvariant
  import opened PipelineTheorems

  // --------------------------------------------------------- one call, in line

  function Headers(asking: bool, tx: bool): nat {
    (if asking then 1 else 0) + if tx then 1 else 0
  }

  /** ASKING, then MULTI, then the requests, then EXEC; each header only if its flag is on. */
  predicate LaidOut(fs: seq<Future>, batch: nat, n: nat, asking: bool, tx: bool) {
    var h := Headers(asking, tx);
    && |fs| == h + n + (if tx then 1 else 0)
    && (asking ==> fs[0] == Future(batch, 0, Asking))
    && (tx ==> fs[h - 1] == Future(batch, h - 1, Multi) && fs[h + n] == Future(batch, h + n, Exec(n)))
    && (forall p :: h <= p < h + n ==> fs[p] == Future(batch, p, Req(p - h)))
  }

  /** Why a call with requests is refused. */
  function Reason(phase: Phase, check: Check): Kind {
    match check
    case Malformed(_) => BatchFormat
    case Cancelled => RequestCancelled
    case Fine => if phase.Closed? then ContextClosed else NotConnected
  }

  /** Each request in order is told the reason, a malformed one its own fault, and last EXEC; an empty
      transaction is answered. */
  predicate ToldOff(rs: seq<Resolution>, batch: nat, n: nat, tx: bool, phase: Phase, check: Check) {
    && |rs| == n + (if tx then 1 else 0)
    && (forall q :: 0 <= q < n ==> rs[q] == Resolution(Future(batch, q, Req(q)),
          Error(if check == Malformed(q) then BadRequest else Reason(phase, check))))
    && (tx ==> rs[n] == Resolution(Future(batch, n, Exec(n)),
          if n == 0 && check.Fine? then Value(0) else Error(Reason(phase, check))))
  }

  predicate Welcome(s: Conn, n: nat, check: Check) {
    check.Fine? && n > 0 && (s.phase.Connecting? || s.phase.Connected?)
  }

  /** A call leads from s to t: all of it joins the queue, which needs a wake-up if it was empty, or all of
      it is refused at once. Nothing else changes. */
  predicate Submitted(s: Conn, t: Conn, n: nat, asking: bool, tx: bool, check: Check) {
    if Welcome(s, n, check) then
      && s.queue <= t.queue && LaidOut(t.queue[|s.queue|..], |s.subs|, n, asking, tx)
      && (t.token <==> s.token || s.queue == [])
      && t == s.(queue := t.queue, token := t.token, subs := s.subs + [Sub(n, asking, tx, tx)],
                 home := s.home + [Queued])
    else
      && s.log <= t.log && ToldOff(t.log[|s.log|..], |s.subs|, n, tx, s.phase, check)
      && t == s.(log := t.log, subs := s.subs + [Sub(n, false, false, tx)], home := s.home + [Rejected])
  }

  lemma FuturesLaidOut(batch: nat, n: nat, asking: bool, tx: bool)
    ensures LaidOut(Futures(batch, Sub(n, asking, tx, tx)), batch, n, asking, tx)
  {
    var sub := Sub(n, asking, tx, tx);
    var h := Headers(asking, tx);
    assert |Whats(sub)| == h + n + (if tx then 1 else 0);
    forall p | h <= p < h + n ensures Whats(sub)[p] == Req(p - h) {}
  }

  lemma RefusedToldOff(s: Conn, n: nat, tx: bool, check: Check)
    requires !Welcome(s, n, check) && (check.Malformed? ==> check.pos < n)
    ensures ToldOff(ResolveAll(Futures(|s.subs|, Sub(n, false, false, tx)),
                               f => RefusalResult(f, Refusal(s, n, check), check)), |s.subs|, n, tx, s.phase, check)
  {
    var fs := Futures(|s.subs|, Sub(n, false, false, tx));
    assert |fs| == n + (if tx then 1 else 0);
    forall q | 0 <= q < n ensures fs[q] == Future(|s.subs|, q, Req(q)) {}
  }

  lemma SubmitEffect(s: Conn, n: nat, asking: bool, tx: bool, check: Check)
    requires Enabled(s, Submit(n, asking, tx, check))
    ensures Submitted(s, Next(s, Submit(n, asking, tx, check)), n, asking, tx, check)
  {
    if Welcome(s, n, check) {
      FuturesLaidOut(|s.subs|, n, asking, tx);
    } else {
      RefusedToldOff(s, n, tx, check);
    }
  }

  // ------------------------------------------------------ the calls of a run

  /** The calls of a run, in order. */
  function Calls(steps: seq<Step>): seq<Step> {
    if steps == [] then []
    else CallOf(steps[0]) + Calls(steps[1..])
  }

  function CallOf(st: Step): seq<Step> {
    if st.Submit? then [st] else []
  }

  /** How a call is recorded: with its flags, unless it was refused. */
  predicate Recorded(call: Step, sub: Sub, place: Place) {
    call.Submit? && (sub == Sub(call.n, call.asking, call.tx, call.tx)
                     || (place == Rejected && sub == Sub(call.n, false, false, call.tx)))
  }

  /** The submissions are the calls, one for one. */
  predicate OneForOne(s: Conn, calls: seq<Step>) {
    && |s.subs| == |calls| == |s.home|
    && forall b :: 0 <= b < |calls| ==> Recorded(calls[b], s.subs[b], s.home[b])
  }

  /** No other step adds a submission, and a refused one stays refused. */
  lemma StepPlaces(s: Conn, st: Step)
    requires |s.home| == |s.subs| && Enabled(s, st) && !st.Submit?
    ensures Next(s, st).subs == s.subs && |Next(s, st).home| == |s.home|
    ensures forall b :: 0 <= b < |s.home| && s.home[b] == Rejected ==> Next(s, st).home[b] == Rejected
  {}

  lemma CallRecorded(s: Conn, t: Conn, call: Step, calls: seq<Step>)
    requires OneForOne(s, calls) && call.Submit? && Submitted(s, t, call.n, call.asking, call.tx, call.check)
    ensures OneForOne(t, calls + [call])
  {}

  lemma StepRecords(s: Conn, st: Step, calls: seq<Step>)
    requires OneForOne(s, calls) && Enabled(s, st)
    ensures OneForOne(Next(s, st), calls + CallOf(st))
  {
    if st.Submit? {
      SubmitEffect(s, st.n, st.asking, st.tx, st.check);
      CallRecorded(s, Next(s, st), st, calls);
    } else {
      StepPlaces(s, st);
      assert calls + [] == calls;
    }
  }

  lemma {:induction false} RunRecords(s: Conn, steps: seq<Step>, calls: seq<Step>)
    requires OneForOne(s, calls) && Legal(s, steps)
    ensures OneForOne(After(s, steps), calls + Calls(steps))
    decreases |steps|
  {
    if steps == [] {
      assert calls + [] == calls;
    } else {
      StepRecords(s, steps[0], calls);
      RunRecords(Next(s, steps[0]), steps[1..], calls + CallOf(steps[0]));
      Joined(calls, CallOf(steps[0]), Calls(steps[1..]));
    }
  }

  lemma Joined(a: seq<Step>, b: seq<Step>, c: seq<Step>)
    ensures a + b + c == a + (b + c)
  {}

  // -------------------------------------------------------- one call, on the wire

  /** The whole call stands around its first request, at index `first` of the wire, and nothing of it stands
      anywhere else: MULTI directly before the first request, ASKING directly before MULTI or, without MULTI,
      before the first request, and EXEC directly after the last; each only if its flag is on. */
  predicate Framed(w: seq<Future>, first: int, batch: nat, n: nat, asking: bool, tx: bool) {
    var from, to := first - Headers(asking, tx), first + n + if tx then 1 else 0;
    && 0 <= from && to <= |w|
    && (forall x :: 0 <= x < |w| ==> (w[x].batch == batch <==> from <= x < to))
    && (forall x :: first <= x < first + n ==> w[x].what == Req(x - first))
    && (tx ==> w[first - 1].what == Multi && w[first + n].what == Exec(n))
    && (asking ==> w[from].what == Asking)
  }

  lemma LaidOutPlaces(fs: seq<Future>, batch: nat, n: nat, asking: bool, tx: bool)
    requires LaidOut(fs, batch, n, asking, tx)
    ensures forall p :: 0 <= p < |fs| ==> fs[p].batch == batch && fs[p].pos == p
  {}

  /** In an increasing sequence that holds a whole submission, all of its batch is there. */
  lemma OnlyThere(w: seq<Future>, start: nat, fs: seq<Future>, batch: nat, x: nat)
    requires Matches(w, start, fs) && Increasing(w) && x < |w| && w[x].batch == batch && w[x].pos < |fs|
    requires forall p :: 0 <= p < |fs| ==> fs[p].batch == batch && fs[p].pos == p
    ensures x == start + w[x].pos
  {
    var p := w[x].pos;
    assert fs[p].pos == p && w[start + p] == fs[p];
    assert !Before(w[x], w[start + p]) && !Before(w[start + p], w[x]);
  }

  /** From `start` on the sequence holds `fs`. */
  predicate Matches(w: seq<Future>, start: nat, fs: seq<Future>) {
    start + |fs| <= |w| && forall p :: 0 <= p < |fs| ==> fs[p] == w[start + p]
  }

  lemma StandsMatches(w: seq<Future>, start: nat, fs: seq<Future>)
    requires StandsAt(w, start, fs)
    ensures Matches(w, start, fs)
  {
    forall p | 0 <= p < |fs| ensures fs[p] == w[start + p] {
      assert w[start..start + |fs|][p] == w[start + p];
    }
  }

  lemma BatchBounds(w: seq<Future>, start: nat, fs: seq<Future>, batch: nat)
    requires Matches(w, start, fs) && Increasing(w)
    requires forall p :: 0 <= p < |fs| ==> fs[p].batch == batch && fs[p].pos == p
    requires forall x :: 0 <= x < |w| && w[x].batch == batch ==> w[x].pos < |fs|
    ensures forall x :: 0 <= x < |w| ==> (w[x].batch == batch <==> start <= x < start + |fs|)
  {
    forall x | 0 <= x < |w| ensures w[x].batch == batch <==> start <= x < start + |fs| {
      if w[x].batch == batch { OnlyThere(w, start, fs, batch, x); }
      if start <= x < start + |fs| { assert fs[x - start] == w[x]; }
    }
  }

  lemma RequestPlace(fs: seq<Future>, batch: nat, n: nat, asking: bool, tx: bool, p: nat)
    requires LaidOut(fs, batch, n, asking, tx) && p < |fs| && fs[p].what.Req?
    ensures Headers(asking, tx) <= p < Headers(asking, tx) + n && fs[p].what.i == p - Headers(asking, tx)
  {}

  lemma LaidOutFrames(w: seq<Future>, start: nat, fs: seq<Future>, batch: nat, n: nat, asking: bool, tx: bool)
    requires LaidOut(fs, batch, n, asking, tx) && Matches(w, start, fs)
    requires forall x :: 0 <= x < |w| ==> (w[x].batch == batch <==> start <= x < start + |fs|)
    ensures Framed(w, start + Headers(asking, tx), batch, n, asking, tx)
  {
    var h := Headers(asking, tx);
    forall x | start + h <= x < start + h + n ensures w[x].what == Req(x - (start + h)) {
      assert fs[x - start].what == Req(x - start - h);
    }
    if tx { assert fs[h - 1].what == Multi && fs[h + n].what == Exec(n); }
    if asking { assert fs[0].what == Asking; }
  }

  lemma RequestIndex(w: seq<Future>, start: nat, i: nat, fs: seq<Future>, batch: nat, n: nat, asking: bool, tx: bool)
    requires LaidOut(fs, batch, n, asking, tx) && Matches(w, start, fs)
    requires start <= i < start + |fs| && w[i].what.Req?
    ensures w[i].what.i < n && i - w[i].what.i == start + Headers(asking, tx)
  {
    assert fs[i - start] == w[i];
    RequestPlace(fs, batch, n, asking, tx, i - start);
  }

  lemma CallOnWire(w: seq<Future>, start: nat, i: nat, fs: seq<Future>, batch: nat, n: nat, asking: bool, tx: bool)
    requires LaidOut(fs, batch, n, asking, tx) && Matches(w, start, fs) && Increasing(w)
    requires i < |w| && w[i].batch == batch && w[i].what.Req?
    requires forall x :: 0 <= x < |w| && w[x].batch == batch ==> w[x].pos < |fs|
    ensures w[i].what.i < n && Framed(w, i - w[i].what.i, batch, n, asking, tx)
  {
    LaidOutPlaces(fs, batch, n, asking, tx);
    BatchBounds(w, start, fs, batch);
    LaidOutFrames(w, start, fs, batch, n, asking, tx);
    RequestIndex(w, start, i, fs, batch, n, asking, tx);
  }

  lemma StartIncreases(fs: seq<Future>, gs: seq<Future>)
    requires Increasing(fs + gs)
    ensures Increasing(fs)
  {
    forall i, j | 0 <= i < j < |fs| ensures Before(fs[i], fs[j]) {
      assert Before((fs + gs)[i], (fs + gs)[j]);
    }
  }

  lemma WrittenOf(s: Conn, k: nat, e: Future)
    requires PairsInv(s) && k < |s.pairs| && e in s.pairs[k].written
    ensures IsFuture(s.subs, e) && s.home[e.batch] == OnPair(k)
  {
    assert e in Taken(s.pairs[k]);
  }

  /** The request at index i of the wire is one of the given call, and that call is whole. */
  predicate WholeCall(w: seq<Future>, i: nat, call: Step)
    requires i < |w| && w[i].what.Req?
  {
    call.Submit? && w[i].what.i < call.n && Framed(w, i - w[i].what.i, w[i].batch, call.n, call.asking, call.tx)
  }

  lemma WrittenIncreases(s: Conn, k: nat)
    requires PairsInv(s) && k < |s.pairs|
    ensures Increasing(s.pairs[k].written)
  {
    var p := s.pairs[k];
    assert Increasing(Taken(p));
    StartIncreases(p.written, if p.writer.Holding? then p.batch else []);
  }

  lemma PositionsFit(s: Conn, k: nat, b: nat)
    requires PairsInv(s) && k < |s.pairs| && b < |s.subs|
    ensures var w := s.pairs[k].written;
      forall x :: 0 <= x < |w| && w[x].batch == b ==> w[x].pos < |Futures(b, s.subs[b])|
  {
    var w := s.pairs[k].written;
    forall x | 0 <= x < |w| && w[x].batch == b ensures w[x].pos < |Futures(b, s.subs[b])| {
      WrittenOf(s, k, w[x]);
    }
  }

  /** After any run, a request on any wire belongs to the call of the run that its batch numbers, and stands
      there with that whole call around it: ASKING, MULTI, the requests and EXEC, as the flags demand. */
  lemma WireHoldsWholeCalls(steps: seq<Step>, k: nat, i: nat)
    requires Legal(Init(), steps) && k < |After(Init(), steps).pairs|
    requires i < |After(Init(), steps).pairs[k].written| && After(Init(), steps).pairs[k].written[i].what.Req?
    ensures var w := After(Init(), steps).pairs[k].written;
      w[i].batch < |Calls(steps)| && WholeCall(w, i, Calls(steps)[w[i].batch])
  {
    var s := After(Init(), steps);
    RunRecords(Init(), steps, []);
    assert [] + Calls(steps) == Calls(steps);
    assert Reachable(s);
    ReachableInv(s);
    WrittenOf(s, k, s.pairs[k].written[i]);
    CallIsWhole(s, k, i, Calls(steps)[s.pairs[k].written[i].batch]);
  }

  /** The call as it stands on the wire. */
  lemma StandingCall(s: Conn, k: nat, e: Future, call: Step) returns (start: nat, fs: seq<Future>)
    requires Reachable(s) && k < |s.pairs| && e in s.pairs[k].written && e.batch < |s.subs| && call.Submit?
    requires s.subs[e.batch] == Sub(call.n, call.asking, call.tx, call.tx)
    ensures Matches(s.pairs[k].written, start, fs) && LaidOut(fs, e.batch, call.n, call.asking, call.tx)
    ensures var w := s.pairs[k].written; forall x :: 0 <= x < |w| && w[x].batch == e.batch ==> w[x].pos < |fs|
  {
    fs := Futures(e.batch, s.subs[e.batch]);
    SubmissionWholeOnWire(s, k, e);
    start :| StandsAt(s.pairs[k].written, start, fs);
    StandsMatches(s.pairs[k].written, start, fs);
    ReachableInv(s);
    PositionsFit(s, k, e.batch);
    FuturesLaidOut(e.batch, call.n, call.asking, call.tx);
  }

  lemma CallIsWhole(s: Conn, k: nat, i: nat, call: Step)
    requires Reachable(s) && k < |s.pairs| && i < |s.pairs[k].written| && s.pairs[k].written[i].what.Req?
    requires call.Submit?
    requires var b := s.pairs[k].written[i].batch;
      b < |s.subs| && s.subs[b] == Sub(call.n, call.asking, call.tx, call.tx)
    ensures WholeCall(s.pairs[k].written, i, call)
  {
    var w := s.pairs[k].written;
    var start, fs := StandingCall(s, k, w[i], call);
    WireIncreases(s, k);
    CallOnWire(w, start, i, fs, w[i].batch, call.n, call.asking, call.tx);
  }

  lemma WireIncreases(s: Conn, k: nat)
    requires Reachable(s) && k < |s.pairs|
    ensures Increasing(s.pairs[k].written)
  {
    ReachableInv(s);
    WrittenIncreases(s, k);
  }
}
