/** The inductive invariant of the pipelined connection, and its preservation by every step. */
module PipelineInvariant {
  import opened Errors
  import opened Pipeline

  // -------------------------------------------------------------- placement

  predicate IsFuture(subs: seq<Sub>, e: Future) {
    && e.batch < |subs|
    && e.pos < |Whats(subs[e.batch])|
    && e.what == Whats(subs[e.batch])[e.pos]
  }

  /** `fs` holds exactly the futures of the submissions at `place`, in submission order. */
  ghost predicate Holds(subs: seq<Sub>, home: seq<Place>, place: Place, fs: seq<Future>)
    requires |home| == |subs|
  {
    && Increasing(fs)
    && (forall e {:trigger e in fs} :: e in fs ==> IsFuture(subs, e) && home[e.batch] == place)
    && (forall e {:trigger IsFuture(subs, e)} :: IsFuture(subs, e) && home[e.batch] == place ==> e in fs)
  }

  /** What left the queue for a socket was submitted before what is still queued. */
  predicate TakenFirst(home: seq<Place>) {
    forall a, b :: 0 <= a < |home| && 0 <= b < |home| && home[a].OnPair? && home[b].Queued? ==> a < b
  }

  // ------------------------------------------------------------------ pairs

  function Flatten(chan: seq<seq<Future>>): seq<Future> {
    if chan == [] then [] else chan[0] + Flatten(chan[1..])
  }

  /** What is due to the future at index `j` of `done`: the j-th answer read, or the end of the pair. */
  function Outcome(p: Pair, j: nat): Result {
    if j < |p.read| then p.read[j] else PairError(p)
  }

  /** What is due to the futures that `p` resolved is the same in `q`. */
  predicate SameOutcomes(p: Pair, q: Pair) {
    forall j :: 0 <= j < |p.done| ==> Outcome(q, j) == Outcome(p, j)
  }

  /** No submission has futures in both. */
  predicate Unsplit(written: seq<Future>, batch: seq<Future>) {
    forall i, j :: 0 <= i < |written| && 0 <= j < |batch| ==> written[i].batch != batch[j].batch
  }

  predicate WriterShape(p: Pair) {
    && (p.writer.Waiting? || p.writer.Woken? || p.writer.Gone? ==> p.batch == [])
    && (p.writer.Holding? || p.writer.Wrote? ==> p.batch != [])
    && (p.writer.Holding? ==> Unsplit(p.written, p.batch))
    && (forall i :: 0 <= i < |p.chan| ==> p.chan[i] != [])
  }

  /** The last answer came when every future was resolved and no writer was left to send another. */
  predicate LastUnpaired(p: Pair) {
    |p.read| == |p.done| + 1 && p.writer.Gone? && p.rest == [] && p.chan == []
  }

  predicate ReaderShape(p: Pair) {
    && (forall j :: 0 <= j < |p.read| ==> IsAnswer(p.read[j]))
    && (|p.read| < |p.done| ==> p.failure.Some?)
    && (p.failure.Some? ==> p.failure.value.IO? || p.failure.value.BadResponse?)
    && match p.reader
       case Reading => |p.read| == |p.done|
       case HasReply(res) => p.rest == [] && |p.read| == |p.done| + 1 && p.read[|p.done|] == res
       case Draining => if |p.read| <= |p.done| then p.failure.Some? else LastUnpaired(p)
       case Finished => p.writer.Gone? && p.rest == [] && p.chan == [] && |p.read| <= |p.done| + 1
       case Crashed => false
  }

  /** The wire order is the order of resolution: resolved, in hand, in the channel, being handed over. */
  predicate Shape(p: Pair) {
    && WriterShape(p)
    && ReaderShape(p)
    && p.written == p.done + p.rest + Flatten(p.chan) + Inflight(p)
  }

  ghost predicate PairsInv(s: Conn) {
    && |s.home| == |s.subs|
    && (forall k :: 0 <= k < |s.pairs| ==> Shape(s.pairs[k]))
    && (forall k :: 0 <= k < |s.pairs| ==> Holds(s.subs, s.home, OnPair(k), Taken(s.pairs[k])))
    && (forall b :: 0 <= b < |s.home| && s.home[b].OnPair? ==> s.home[b].k < |s.pairs|)
    && TakenFirst(s.home)
  }

  // -------------------------------------------------------------------- log

  /** What a refused future may be told. */
  predicate RefusalKind(r: Result) {
    r == Value(0) || (r.Error? && (r.kind.BatchFormat? || r.kind.BadRequest? || r.kind.RequestCancelled?
                                   || r.kind.ContextClosed? || r.kind.NotConnected?))
  }

  predicate DropKind(k: Kind) {
    k.IO? || k.BadResponse? || k.DialFailed? || k.ContextClosed?
  }

  /** The resolution `r` is the one due to its future. */
  predicate Due(s: Conn, r: Resolution)
    requires |s.home| == |s.subs|
  {
    && IsFuture(s.subs, r.fut)
    && match s.home[r.fut.batch]
       case Queued => false
       case Rejected => RefusalKind(r.res) && (r.res.Value? ==> s.subs[r.fut.batch].n == 0)
       case Dropped => r.res.Error? && DropKind(r.res.kind)
       case OnPair(k) => k < |s.pairs|
                         && exists j :: 0 <= j < |s.pairs[k].done| && s.pairs[k].done[j] == r.fut
                                        && r.res == Outcome(s.pairs[k], j)
  }

  predicate Settled(s: Conn, e: Future)
    requires |s.home| == |s.subs| && IsFuture(s.subs, e)
  {
    match s.home[e.batch]
    case Queued => false
    case Rejected => true
    case Dropped => true
    case OnPair(k) => k < |s.pairs| && e in s.pairs[k].done
  }

  predicate InLog(log: seq<Resolution>, e: Future) {
    exists i :: 0 <= i < |log| && log[i].fut == e
  }

  /** Futures of one submission are resolved in their order; so none is resolved twice. */
  predicate Ordered(log: seq<Resolution>) {
    forall i, j :: 0 <= i < j < |log| && log[i].fut.batch == log[j].fut.batch
                   ==> log[i].fut.pos < log[j].fut.pos
  }

  ghost predicate LogInv(s: Conn)
    requires |s.home| == |s.subs|
  {
    && (forall i :: 0 <= i < |s.log| ==> Due(s, s.log[i]))
    && (forall e {:trigger IsFuture(s.subs, e)} :: IsFuture(s.subs, e) && Settled(s, e) ==> InLog(s.log, e))
    && Ordered(s.log)
  }

  // ---------------------------------------------------------------- control

  predicate ControlInv(s: Conn) {
    && (s.phase.Connecting? <==> s.control.Dialing? || s.control.Dialed?)
    && (s.control.Dropping? ==> (s.phase.Disconnected? || s.phase.Closed?) && DropKind(s.control.err))
    && (s.signalClosed ==> s.phase.Closed? && s.control.Idle?)
    && ((s.phase.Disconnected? || s.phase.Closed?) && !s.control.Dropping? ==> s.queue == [])
    && (s.control.Dialing? ==> s.current.None?)
    && (s.phase.Connected? || s.control.Dialed? ==> s.current.Some?)
    && (s.current.Some? ==> s.current.value < |s.pairs|)
  }

  /** No wake-up is lost: queued futures have a token waiting or a writer on its way. */
  predicate TokenInv(s: Conn) {
    s.queue != [] ==> s.token || exists k :: 0 <= k < |s.pairs| && s.pairs[k].writer.Woken?
  }

  ghost predicate Inv(s: Conn) {
    && PairsInv(s)
    && Holds(s.subs, s.home, Queued, s.queue)
    && LogInv(s)
    && ControlInv(s)
    && TokenInv(s)
  }

  // ----------------------------------------------------------- preservation

  lemma {:induction false} FlattenAppend(chan: seq<seq<Future>>, b: seq<Future>)
    ensures Flatten(chan + [b]) == Flatten(chan) + b
  {
    if chan == [] {
      assert chan + [b] == [b];
      assert Flatten([b]) == b + Flatten([]);
    } else {
      assert (chan + [b])[1..] == chan[1..] + [b];
      FlattenAppend(chan[1..], b);
    }
  }

  lemma FuturesHold(subs: seq<Sub>, sub: Sub)
    ensures var fs := Futures(|subs|, sub);
      Increasing(fs) && (forall e :: e in fs <==> IsFuture(subs + [sub], e) && e.batch == |subs|)
  {
    var fs := Futures(|subs|, sub);
    forall e | IsFuture(subs + [sub], e) && e.batch == |subs| ensures e in fs {
      assert fs[e.pos] == e;
    }
  }

  /** Adding a submission elsewhere leaves a place as it is. */
  lemma HoldsSubmit(subs: seq<Sub>, home: seq<Place>, place: Place, fs: seq<Future>, sub: Sub, at: Place)
    requires |home| == |subs| && Holds(subs, home, place, fs) && at != place
    ensures Holds(subs + [sub], home + [at], place, fs)
  {
    forall e | e in fs ensures IsFuture(subs + [sub], e) && (home + [at])[e.batch] == place {
      assert IsFuture(subs, e);
    }
    forall e | IsFuture(subs + [sub], e) && (home + [at])[e.batch] == place ensures e in fs {
      assert IsFuture(subs, e);
    }
  }

  /** Adding a submission at a place appends its futures. */
  lemma HoldsAppend(subs: seq<Sub>, home: seq<Place>, place: Place, fs: seq<Future>, sub: Sub)
    requires |home| == |subs| && Holds(subs, home, place, fs)
    ensures Holds(subs + [sub], home + [place], place, fs + Futures(|subs|, sub))
  {
    FuturesHold(subs, sub);
    var gs := Futures(|subs|, sub);
    forall i, j | 0 <= i < j < |fs + gs| ensures Before((fs + gs)[i], (fs + gs)[j]) {
      if i < |fs| <= j {
        assert fs[i] in fs && gs[j - |fs|] in gs;
      }
    }
    forall e | e in fs + gs ensures IsFuture(subs + [sub], e) && (home + [place])[e.batch] == place {
      if e in fs { assert IsFuture(subs, e); }
    }
    forall e | IsFuture(subs + [sub], e) && (home + [place])[e.batch] == place ensures e in fs + gs {
      if e.batch < |subs| { assert IsFuture(subs, e); }
    }
  }

  /** Moving the queue to `to` leaves every third place as it is. */
  lemma HoldsMoveElsewhere(subs: seq<Sub>, home: seq<Place>, place: Place, fs: seq<Future>, to: Place)
    requires |home| == |subs| && Holds(subs, home, place, fs) && place != Queued && place != to
    ensures Holds(subs, MoveQueued(home, to), place, fs)
  {
    var home' := MoveQueued(home, to);
    forall e | e in fs ensures IsFuture(subs, e) && home'[e.batch] == place {}
    forall e | IsFuture(subs, e) && home'[e.batch] == place ensures e in fs {}
  }

  /** Moving the queue to a socket appends the queue to what that socket took. */
  lemma HoldsMoveTo(subs: seq<Sub>, home: seq<Place>, k: nat, fs: seq<Future>, queue: seq<Future>)
    requires |home| == |subs| && Holds(subs, home, OnPair(k), fs) && Holds(subs, home, Queued, queue)
    requires TakenFirst(home)
    ensures Holds(subs, MoveQueued(home, OnPair(k)), OnPair(k), fs + queue)
    ensures Holds(subs, MoveQueued(home, OnPair(k)), Queued, [])
    ensures TakenFirst(MoveQueued(home, OnPair(k)))
  {
    var home' := MoveQueued(home, OnPair(k));
    var all := fs + queue;
    forall i, j | 0 <= i < j < |all| ensures Before(all[i], all[j]) {
      if i < |fs| <= j {
        assert fs[i] in fs && queue[j - |fs|] in queue;
      }
    }
    forall e | e in all ensures IsFuture(subs, e) && home'[e.batch] == OnPair(k) {
      if e in fs {} else { assert e in queue; }
    }
    forall e | IsFuture(subs, e) && home'[e.batch] == OnPair(k) ensures e in all {
      if home[e.batch] == Queued { assert e in queue; } else { assert e in fs; }
    }
  }

  /** A pair that changes neither what it took nor what it resolved keeps the log settled. */
  lemma LogFrame(s: Conn, t: Conn)
    requires |s.home| == |s.subs| && LogInv(s)
    requires t.subs == s.subs && t.home == s.home && t.log == s.log
    requires |t.pairs| >= |s.pairs|
    requires forall k :: 0 <= k < |s.pairs| ==>
                           t.pairs[k].done == s.pairs[k].done
                           && SameOutcomes(s.pairs[k], t.pairs[k])
    requires forall k :: |s.pairs| <= k < |t.pairs| ==> t.pairs[k].done == []
    ensures LogInv(t)
  {
    forall i | 0 <= i < |t.log| ensures Due(t, t.log[i]) {
      DueFrame(s, t, s.log[i]);
    }
    forall e | IsFuture(t.subs, e) && Settled(t, e) ensures InLog(t.log, e) {
      assert IsFuture(s.subs, e) && Settled(s, e);
    }
  }

  lemma DueFrame(s: Conn, t: Conn, r: Resolution)
    requires |s.home| == |s.subs| && |t.home| == |t.subs| && Due(s, r)
    requires IsFuture(t.subs, r.fut)
    requires t.subs[r.fut.batch] == s.subs[r.fut.batch] && t.home[r.fut.batch] == s.home[r.fut.batch]
    requires |t.pairs| >= |s.pairs|
    requires forall k :: 0 <= k < |s.pairs| ==>
                           s.pairs[k].done <= t.pairs[k].done
                           && SameOutcomes(s.pairs[k], t.pairs[k])
    ensures Due(t, r)
  {
    match s.home[r.fut.batch] {
      case OnPair(k) =>
        var j :| 0 <= j < |s.pairs[k].done| && s.pairs[k].done[j] == r.fut && r.res == Outcome(s.pairs[k], j);
        assert t.pairs[k].done[j] == r.fut;
      case _ =>
    }
  }

  lemma SubmitPlaces(s: Conn, n: nat, asking: bool, tx: bool, check: Check)
    requires PairsInv(s) && Holds(s.subs, s.home, Queued, s.queue)
    ensures var t := DoSubmit(s, n, asking, tx, check);
      PairsInv(t) && Holds(t.subs, t.home, Queued, t.queue)
  {
    var t := DoSubmit(s, n, asking, tx, check);
    var sub := t.subs[|s.subs|];
    var at := t.home[|s.home|];
    PairsSubmit(s, sub, at, t);
    if at == Queued {
      HoldsAppend(s.subs, s.home, Queued, s.queue, sub);
    } else {
      HoldsSubmit(s.subs, s.home, Queued, s.queue, sub, at);
    }
  }

  lemma PairsSubmit(s: Conn, sub: Sub, at: Place, t: Conn)
    requires PairsInv(s) && !at.OnPair?
    requires t.subs == s.subs + [sub] && t.home == s.home + [at] && t.pairs == s.pairs
    ensures PairsInv(t)
  {
    forall k | 0 <= k < |s.pairs| ensures Holds(t.subs, t.home, OnPair(k), Taken(t.pairs[k])) {
      HoldsSubmit(s.subs, s.home, OnPair(k), Taken(s.pairs[k]), sub, at);
    }
    assert TakenFirst(t.home) by {
      assert forall b :: 0 <= b < |s.home| ==> t.home[b] == s.home[b];
    }
  }

  /** Resolving, in order, futures of submissions that were not in the log keeps it ordered. */
  lemma OrderedAppend(log: seq<Resolution>, more: seq<Resolution>)
    requires Ordered(log)
    requires forall i, j :: 0 <= i < j < |more| ==> Before(more[i].fut, more[j].fut)
    requires forall i, j :: 0 <= i < |log| && 0 <= j < |more| && log[i].fut.batch == more[j].fut.batch
                            ==> log[i].fut.pos < more[j].fut.pos
    ensures Ordered(log + more)
  {
    var all := log + more;
    forall i, j | 0 <= i < j < |all| && all[i].fut.batch == all[j].fut.batch
      ensures all[i].fut.pos < all[j].fut.pos
    {
      if i < |log| <= j { assert all[j] == more[j - |log|]; }
      if |log| <= i { assert Before(more[i - |log|].fut, more[j - |log|].fut); }
    }
  }

  lemma InLogLater(log: seq<Resolution>, more: seq<Resolution>, e: Future)
    requires InLog(log, e) || InLog(more, e)
    ensures InLog(log + more, e)
  {
    if i :| 0 <= i < |log| && log[i].fut == e {
      assert (log + more)[i].fut == e;
    } else {
      var i :| 0 <= i < |more| && more[i].fut == e;
      assert (log + more)[|log| + i].fut == e;
    }
  }

  lemma AllDue(t: Conn, log: seq<Resolution>, more: seq<Resolution>)
    requires |t.home| == |t.subs| && t.log == log + more
    requires forall i :: 0 <= i < |log| ==> Due(t, log[i])
    requires forall i :: 0 <= i < |more| ==> Due(t, more[i])
    ensures forall i :: 0 <= i < |t.log| ==> Due(t, t.log[i])
  {
    forall i | 0 <= i < |t.log| ensures Due(t, t.log[i]) {
      if i < |log| { assert t.log[i] == log[i]; } else { assert t.log[i] == more[i - |log|]; }
    }
  }

  /** The log invariant after `more` was resolved. */
  lemma LogGrow(s: Conn, t: Conn, more: seq<Resolution>)
    requires |s.home| == |s.subs| && |t.home| == |t.subs| && LogInv(s)
    requires t.log == s.log + more
    requires forall i :: 0 <= i < |s.log| ==> Due(t, s.log[i])
    requires forall i :: 0 <= i < |more| ==> Due(t, more[i])
    requires forall e {:trigger IsFuture(t.subs, e)} :: IsFuture(t.subs, e) && Settled(t, e)
                        ==> InLog(more, e) || (IsFuture(s.subs, e) && Settled(s, e))
    requires forall i, j :: 0 <= i < j < |more| ==> Before(more[i].fut, more[j].fut)
    requires forall i, j :: 0 <= i < |s.log| && 0 <= j < |more| && s.log[i].fut.batch == more[j].fut.batch
                            ==> s.log[i].fut.pos < more[j].fut.pos
    ensures LogInv(t)
  {
    OrderedAppend(s.log, more);
    AllDue(t, s.log, more);
    forall e | IsFuture(t.subs, e) && Settled(t, e) ensures InLog(t.log, e) {
      InLogLater(s.log, more, e);
    }
  }

  /** Old resolutions stay due while submissions and pairs are only added to. */
  lemma SubmitDue(s: Conn, sub: Sub, at: Place, t: Conn)
    requires |s.home| == |s.subs| && LogInv(s)
    requires t.subs == s.subs + [sub] && t.home == s.home + [at] && t.pairs == s.pairs
    ensures forall i :: 0 <= i < |s.log| ==> Due(t, s.log[i])
  {
    forall i | 0 <= i < |s.log| ensures Due(t, s.log[i]) {
      DueFrame(s, t, s.log[i]);
    }
  }

  lemma RejectLog(s: Conn, sub: Sub, r: Future -> Result, t: Conn)
    requires |s.home| == |s.subs| && LogInv(s)
    requires forall f :: RefusalKind(r(f)) && (r(f).Value? ==> sub.n == 0)
    requires t.subs == s.subs + [sub] && t.home == s.home + [Rejected] && t.pairs == s.pairs
    requires t.log == s.log + ResolveAll(Futures(|s.subs|, sub), r)
    ensures LogInv(t)
  {
    var fs := Futures(|s.subs|, sub);
    var more := ResolveAll(fs, r);
    FuturesHold(s.subs, sub);
    SubmitDue(s, sub, Rejected, t);
    forall i | 0 <= i < |more| ensures Due(t, more[i]) {
      assert fs[i] in fs;
    }
    forall e | IsFuture(t.subs, e) && Settled(t, e)
      ensures InLog(more, e) || (IsFuture(s.subs, e) && Settled(s, e))
    {
      if e.batch == |s.subs| {
        assert more[e.pos].fut == e;
      }
    }
    LogGrow(s, t, more);
  }

  lemma SubmitLog(s: Conn, n: nat, asking: bool, tx: bool, check: Check)
    requires |s.home| == |s.subs| && LogInv(s)
    ensures var t := DoSubmit(s, n, asking, tx, check);
      |t.home| == |t.subs| && LogInv(t)
  {
    var t := DoSubmit(s, n, asking, tx, check);
    var refusal := Refusal(s, n, check);
    if refusal.Some? || n == 0 {
      RejectLog(s, Sub(n, false, false, tx), f => RefusalResult(f, refusal, check), t);
    } else {
      SubmitDue(s, Sub(n, asking, tx, tx), Queued, t);
      LogGrow(s, t, []);
    }
  }

  lemma SubmitKeepsInv(s: Conn, n: nat, asking: bool, tx: bool, check: Check)
    requires Inv(s)
    ensures Inv(DoSubmit(s, n, asking, tx, check))
  {
    SubmitPlaces(s, n, asking, tx, check);
    SubmitLog(s, n, asking, tx, check);
  }

  // Steps of one pair.

  /** A pair that neither takes nor resolves anything. */
  lemma PairStep(s: Conn, k: nat, q: Pair)
    requires PairsInv(s) && Holds(s.subs, s.home, Queued, s.queue) && LogInv(s)
    requires k < |s.pairs| && Shape(q) && SameProgress(s.pairs[k], q)
    ensures var t := s.(pairs := s.pairs[k := q]);
      PairsInv(t) && Holds(t.subs, t.home, Queued, t.queue) && LogInv(t)
  {
    var t := s.(pairs := s.pairs[k := q]);
    LogFrame(s, t);
  }

  /** `q` is `p` after resolving `e`, its next future in wire order, with `res`. */
  predicate Resolves(p: Pair, q: Pair, e: Future, res: Result) {
    && Shape(q)
    && Taken(q) == Taken(p)
    && q.done == p.done + [e]
    && SameOutcomes(p, q)
    && Outcome(q, |p.done|) == res
  }

  lemma ResolvedIsNext(p: Pair, q: Pair, e: Future, res: Result)
    requires Resolves(p, q, e, res)
    ensures |p.done| < |Taken(p)| && Taken(p)[|p.done|] == e
  {
    assert q.done[|p.done|] == e;
    assert q.written[|p.done|] == e;
    assert Taken(q)[|p.done|] == e;
  }

  lemma ResolveDue(s: Conn, k: nat, q: Pair, e: Future, res: Result, t: Conn)
    requires PairsInv(s) && LogInv(s)
    requires k < |s.pairs| && Resolves(s.pairs[k], q, e, res)
    requires t.subs == s.subs && t.home == s.home && t.pairs == s.pairs[k := q]
    ensures forall i :: 0 <= i < |s.log| ==> Due(t, s.log[i])
    ensures Due(t, Resolution(e, res))
  {
    var p := s.pairs[k];
    forall i | 0 <= i < |s.log| ensures Due(t, s.log[i]) {
      DueFrame(s, t, s.log[i]);
    }
    ResolvedIsNext(p, q, e, res);
    assert e in Taken(p);
    assert t.pairs[k].done[|p.done|] == e;
  }

  lemma ResolveSettles(s: Conn, k: nat, q: Pair, e: Future, res: Result, t: Conn, f: Future)
    requires PairsInv(s)
    requires k < |s.pairs| && Resolves(s.pairs[k], q, e, res)
    requires t.subs == s.subs && t.home == s.home && t.pairs == s.pairs[k := q]
    requires IsFuture(t.subs, f) && Settled(t, f)
    ensures f == e || Settled(s, f)
  {
  }

  lemma ResolveLog(s: Conn, k: nat, q: Pair, e: Future, res: Result, t: Conn)
    requires PairsInv(s) && LogInv(s)
    requires k < |s.pairs| && Resolves(s.pairs[k], q, e, res)
    requires t.subs == s.subs && t.home == s.home && t.pairs == s.pairs[k := q]
    requires t.log == s.log + [Resolution(e, res)]
    ensures LogInv(t)
  {
    var more := [Resolution(e, res)];
    ResolvedIsNext(s.pairs[k], q, e, res);
    ResolveDue(s, k, q, e, res, t);
    assert InLog(more, e) by { assert more[0].fut == e; }
    forall f | IsFuture(t.subs, f) && Settled(t, f)
      ensures InLog(more, f) || (IsFuture(s.subs, f) && Settled(s, f))
    {
      ResolveSettles(s, k, q, e, res, t, f);
    }
    forall i | 0 <= i < |s.log| && s.log[i].fut.batch == e.batch ensures s.log[i].fut.pos < e.pos {
      DoneBefore(s, k, s.log[i], e);
    }
    LogGrow(s, t, more);
  }

  /** A pair that resolves the next future in wire order. */
  lemma ResolveStep(s: Conn, k: nat, q: Pair, e: Future, res: Result)
    requires Inv(s) && k < |s.pairs| && Resolves(s.pairs[k], q, e, res)
    requires q.writer == s.pairs[k].writer
    ensures Inv(s.(pairs := s.pairs[k := q], log := s.log + [Resolution(e, res)]))
  {
    var t := s.(pairs := s.pairs[k := q], log := s.log + [Resolution(e, res)]);
    ResolveLog(s, k, q, e, res, t);
    WokenFrame(s, t);
  }

  lemma WokenFrame(s: Conn, t: Conn)
    requires TokenInv(s) && t.queue == s.queue && t.token == s.token && |t.pairs| >= |s.pairs|
    requires forall k :: 0 <= k < |s.pairs| ==> t.pairs[k].writer.Woken? == s.pairs[k].writer.Woken?
    ensures TokenInv(t)
  {
    if k :| 0 <= k < |s.pairs| && s.pairs[k].writer.Woken? {
      assert t.pairs[k].writer.Woken?;
    }
  }

  /** A future of the same submission that is already resolved stands before `e` on the wire. */
  lemma DoneBefore(s: Conn, k: nat, r: Resolution, e: Future)
    requires PairsInv(s) && k < |s.pairs| && Due(s, r)
    requires var p := s.pairs[k]; |p.done| < |Taken(p)| && Taken(p)[|p.done|] == e
    requires r.fut.batch == e.batch
    ensures r.fut.pos < e.pos
  {
    var p := s.pairs[k];
    assert e in Taken(p);
    assert s.home[e.batch] == OnPair(k);
    var j :| 0 <= j < |p.done| && p.done[j] == r.fut;
    assert Taken(p)[j] == r.fut;
    assert Before(Taken(p)[j], Taken(p)[|p.done|]);
  }

  lemma TakePlaces(s: Conn, k: nat)
    requires PairsInv(s) && Holds(s.subs, s.home, Queued, s.queue)
    requires Enabled(s, Step.Take(k)) && s.queue != []
    ensures var t := DoTake(s, k);
      PairsInv(t) && Holds(t.subs, t.home, Queued, t.queue)
  {
    var p := s.pairs[k];
    var t := DoTake(s, k);
    HoldsMoveTo(s.subs, s.home, k, Taken(p), s.queue);
    assert Taken(t.pairs[k]) == Taken(p) + s.queue;
    QueueUnsplit(s, k);
    forall m | 0 <= m < |t.pairs| ensures Holds(t.subs, t.home, OnPair(m), Taken(t.pairs[m])) {
      if m != k { HoldsMoveElsewhere(s.subs, s.home, OnPair(m), Taken(s.pairs[m]), OnPair(k)); }
    }
  }

  lemma QueueUnsplit(s: Conn, k: nat)
    requires PairsInv(s) && Holds(s.subs, s.home, Queued, s.queue) && k < |s.pairs|
    ensures Unsplit(s.pairs[k].written, s.queue)
  {
    var p := s.pairs[k];
    forall i, j | 0 <= i < |p.written| && 0 <= j < |s.queue| ensures p.written[i].batch != s.queue[j].batch {
      assert Taken(p)[i] in Taken(p) && s.queue[j] in s.queue;
    }
  }

  lemma TakeKeepsInv(s: Conn, k: nat)
    requires Inv(s) && Enabled(s, Step.Take(k))
    ensures Inv(DoTake(s, k))
  {
    if s.queue == [] {
      PairStep(s, k, s.pairs[k].(writer := Waiting));
    } else {
      TakePlaces(s, k);
      MoveLog(s, OnPair(k), DoTake(s, k), []);
    }
  }

  /** Moving the queue keeps old resolutions due; nothing queued was resolved. */
  lemma MoveLog(s: Conn, to: Place, t: Conn, more: seq<Resolution>)
    requires PairsInv(s) && Holds(s.subs, s.home, Queued, s.queue) && LogInv(s)
    requires t.subs == s.subs && t.home == MoveQueued(s.home, to) && t.log == s.log + more
    requires |t.pairs| == |s.pairs|
    requires forall m :: 0 <= m < |s.pairs| ==>
                           && t.pairs[m].done == s.pairs[m].done
                           && t.pairs[m].read == s.pairs[m].read
                           && t.pairs[m].failure == s.pairs[m].failure
    requires to.OnPair? ==> more == [] && to.k < |s.pairs|
    requires to.Dropped? || to.OnPair?
    requires to.Dropped? ==> |more| == |s.queue|
    requires forall i :: 0 <= i < |more| ==>
                           i < |s.queue| && more[i].fut == s.queue[i] && more[i].res.Error?
                               && DropKind(more[i].res.kind)
    ensures LogInv(t)
  {
    forall i | 0 <= i < |s.log| ensures Due(t, s.log[i]) {
      DueFrame(s, t, s.log[i]);
    }
    forall i | 0 <= i < |more| ensures Due(t, more[i]) {
      assert s.queue[i] in s.queue;
    }
    forall e | IsFuture(t.subs, e) && Settled(t, e)
      ensures InLog(more, e) || (IsFuture(s.subs, e) && Settled(s, e))
    {
      if s.home[e.batch] == Queued {
        assert !to.OnPair? by { if to.OnPair? { DoneHome(s, to.k); } }
        assert e in s.queue;
        var i :| 0 <= i < |s.queue| && s.queue[i] == e;
        assert more[i].fut == e;
      }
    }
    assert forall i :: 0 <= i < |s.log| ==> Due(s, s.log[i]);
    assert forall j :: 0 <= j < |more| ==> s.queue[j] in s.queue;
    LogGrow(s, t, more);
  }

  lemma DoneHome(s: Conn, k: nat)
    requires PairsInv(s) && k < |s.pairs|
    ensures forall e :: e in s.pairs[k].done ==> IsFuture(s.subs, e) && s.home[e.batch] == OnPair(k)
  {
    var p := s.pairs[k];
    forall e | e in p.done ensures IsFuture(s.subs, e) && s.home[e.batch] == OnPair(k) {
      var j :| 0 <= j < |p.done| && p.done[j] == e;
      assert Taken(p)[j] == e;
      assert e in Taken(p);
    }
  }

  lemma DropKeepsInv(s: Conn)
    requires Inv(s) && s.control.Dropping?
    ensures Inv(DoDrop(s))
  {
    var t := DoDrop(s);
    var err := s.control.err;
    forall m | 0 <= m < |t.pairs| ensures Holds(t.subs, t.home, OnPair(m), Taken(t.pairs[m])) {
      HoldsMoveElsewhere(s.subs, s.home, OnPair(m), Taken(s.pairs[m]), Dropped);
    }
    MoveLog(s, Dropped, t, ErrorAll(s.queue, err));
  }

  /** What the writer does to its pair, other than taking the queue. */
  function WriterMove(p: Pair, st: Step): Pair
    requires st.Wake? || st.Stray? || st.Write? || st.Push? || st.Stop? || st.Leave?
  {
    match st
    case Wake(_) => p.(writer := Woken)
    case Stray(_) => p.(writer := Woken)
    case Write(_, ok) => DoWrite(p, ok)
    case Push(_) => p.(writer := Waiting, batch := [], chan := p.chan + [p.batch])
    case Stop(_) => p.(writer := Leaving)
    case Leave(_) => DoLeave(p)
  }

  /** `q` took and resolved what `p` did. */
  predicate SameProgress(p: Pair, q: Pair) {
    && Taken(q) == Taken(p) && q.done == p.done && SameOutcomes(p, q)
  }

  lemma PushShape(p: Pair)
    requires Shape(p) && (p.writer.Wrote? || p.writer.Leaving?) && p.batch != []
    ensures var q := p.(writer := Waiting, batch := [], chan := p.chan + [p.batch]);
      WriterShape(q) && q.written == q.done + q.rest + Flatten(q.chan) + Inflight(q)
  {
    FlattenAppend(p.chan, p.batch);
    var q := p.(writer := Waiting, batch := [], chan := p.chan + [p.batch]);
    assert p.done + p.rest + Flatten(p.chan) + p.batch == p.done + p.rest + Flatten(q.chan) + [];
  }

  lemma WriteShape(p: Pair, ok: bool)
    requires Shape(p) && p.writer.Holding?
    ensures Shape(DoWrite(p, ok)) && SameProgress(p, DoWrite(p, ok))
  {
    var q := DoWrite(p, ok);
    assert q.written == p.done + p.rest + Flatten(p.chan) + [] + p.batch;
    assert q.written == q.done + q.rest + Flatten(q.chan) + Inflight(q);
  }

  lemma WriterMoveShape(s: Conn, st: Step)
    requires st.Wake? || st.Stray? || st.Write? || st.Push? || st.Stop? || st.Leave?
    requires Enabled(s, st) && Shape(s.pairs[st.k])
    ensures var p, q := s.pairs[st.k], WriterMove(s.pairs[st.k], st); Shape(q) && SameProgress(p, q)
  {
    var p := s.pairs[st.k];
    if st.Write? {
      WriteShape(p, st.ok);
    } else if st.Push? || (st.Leave? && p.batch != []) {
      PushShape(p);
    }
  }

  /** `t` differs from `s` by one pair and, perhaps, the token. */
  lemma PairAndToken(s: Conn, k: nat, q: Pair, t: Conn)
    requires Inv(s) && k < |s.pairs| && Shape(q) && SameProgress(s.pairs[k], q)
    requires t == s.(pairs := s.pairs[k := q], token := t.token)
    requires q.writer.Woken? || (t.token == s.token && !s.pairs[k].writer.Woken?)
    ensures Inv(t)
  {
    var u := s.(pairs := s.pairs[k := q]);
    PairStep(s, k, q);
    LogFrame(u, t);
    WakeFrame(s, k, q, t);
  }

  lemma WakeFrame(s: Conn, k: nat, q: Pair, t: Conn)
    requires TokenInv(s) && k < |s.pairs|
    requires t == s.(pairs := s.pairs[k := q], token := t.token)
    requires q.writer.Woken? || (t.token == s.token && !s.pairs[k].writer.Woken?)
    ensures TokenInv(t)
  {
    assert t.pairs[k] == q;
    if m :| 0 <= m < |s.pairs| && s.pairs[m].writer.Woken? && m != k {
      assert t.pairs[m].writer.Woken?;
    }
  }

  lemma WriterKeepsInv(s: Conn, st: Step)
    requires Inv(s) && Enabled(s, st)
    requires st.Wake? || st.Stray? || st.Write? || st.Push? || st.Stop? || st.Leave?
    ensures Inv(Next(s, st))
  {
    WriterMoveShape(s, st);
    PairAndToken(s, st.k, WriterMove(s.pairs[st.k], st), Next(s, st));
  }

  lemma AnswerResolves(p: Pair, res: Result)
    requires Shape(p) && p.reader.Reading? && p.rest != [] && IsAnswer(res)
    ensures Resolves(p, Answered(p.(read := p.read + [res])), p.rest[0], res)
  {
    var q := Answered(p.(read := p.read + [res]));
    assert q.done + q.rest == p.done + p.rest;
  }

  lemma FetchResolves(p: Pair)
    requires Shape(p) && p.reader.HasReply? && p.chan != []
    ensures p.chan[0] != []
    ensures Resolves(p, Answered(p.(rest := p.chan[0], chan := p.chan[1..])), p.chan[0][0], p.reader.res)
  {
    var q := Answered(p.(rest := p.chan[0], chan := p.chan[1..]));
    assert p.chan[0] != [];
    assert q.done + q.rest == p.done + p.chan[0];
    assert Flatten(p.chan) == p.chan[0] + Flatten(q.chan);
    assert q.written == q.done + q.rest + Flatten(q.chan) + Inflight(q);
  }

  lemma DrainResolves(p: Pair)
    requires Shape(p) && p.reader.Draining? && p.rest != []
    ensures Resolves(p, p.(rest := p.rest[1..], done := p.done + [p.rest[0]]), p.rest[0], PairError(p))
  {
    var q := p.(rest := p.rest[1..], done := p.done + [p.rest[0]]);
    assert q.done + q.rest == p.done + p.rest;
  }

  /** A reader that changes only its own state. */
  lemma ReaderStep(s: Conn, k: nat, q: Pair)
    requires Inv(s) && k < |s.pairs| && Shape(q)
    requires q.writer == s.pairs[k].writer && SameProgress(s.pairs[k], q)
    ensures Inv(s.(pairs := s.pairs[k := q]))
  {
    PairStep(s, k, q);
    WokenFrame(s, s.(pairs := s.pairs[k := q]));
  }

  lemma ReadShape(p: Pair, res: Result)
    requires Shape(p) && p.reader.Reading?
    requires IsAnswer(res) || res.kind.IO? || res.kind.BadResponse?
    ensures !IsAnswer(res) ==> Shape(Fail(p, res.kind).(reader := Draining))
    ensures IsAnswer(res) && p.rest == [] ==> Shape(p.(reader := HasReply(res), read := p.read + [res]))
  {}

  lemma ReadKeepsInv(s: Conn, k: nat, res: Result)
    requires Inv(s) && Enabled(s, Step.Read(k, res))
    ensures Inv(DoRead(s, k, res))
  {
    var p := s.pairs[k];
    ReadShape(p, res);
    if !IsAnswer(res) {
      ReaderStep(s, k, Fail(p, res.kind).(reader := Draining));
    } else if p.rest == [] {
      ReaderStep(s, k, p.(reader := HasReply(res), read := p.read + [res]));
    } else {
      AnswerResolves(p, res);
      ResolveStep(s, k, Answered(p.(read := p.read + [res])), p.rest[0], res);
    }
  }

  lemma FetchKeepsInv(s: Conn, k: nat)
    requires Inv(s) && Enabled(s, Step.Fetch(k))
    ensures Inv(DoFetch(s, k))
  {
    var p := s.pairs[k];
    if p.chan == [] {
      ReaderStep(s, k, p.(reader := Draining));
    } else {
      FetchResolves(p);
      ResolveStep(s, k, Answered(p.(rest := p.chan[0], chan := p.chan[1..])), p.chan[0][0], p.reader.res);
    }
  }

  lemma DrainShape(p: Pair)
    requires Shape(p) && p.reader.Draining? && p.rest == [] && (p.chan != [] || p.writer.Gone?)
    ensures p.chan != [] ==> Shape(p.(rest := p.chan[0], chan := p.chan[1..]))
    ensures p.chan == [] ==> Shape(p.(reader := Finished))
  {
    if p.chan != [] {
      var q := p.(rest := p.chan[0], chan := p.chan[1..]);
      assert q.written == q.done + q.rest + Flatten(q.chan) + Inflight(q);
    }
  }

  lemma DrainKeepsInv(s: Conn, k: nat)
    requires Inv(s) && Enabled(s, Step.Drain(k))
    ensures Inv(DoDrain(s, k))
  {
    var p := s.pairs[k];
    if p.rest != [] {
      DrainResolves(p);
      ResolveStep(s, k, p.(rest := p.rest[1..], done := p.done + [p.rest[0]]), p.rest[0], PairError(p));
    } else {
      DrainShape(p);
      if p.chan != [] {
        ReaderStep(s, k, p.(rest := p.chan[0], chan := p.chan[1..]));
      } else {
        ReaderStep(s, k, p.(reader := Finished));
      }
    }
  }

  lemma NewPairHolds(subs: seq<Sub>, home: seq<Place>, k: nat)
    requires |home| == |subs| && forall b :: 0 <= b < |home| ==> home[b] != OnPair(k)
    ensures Shape(NewPair()) && Holds(subs, home, OnPair(k), Taken(NewPair()))
  {
    assert Taken(NewPair()) == [];
  }

  lemma DialOkPlaces(s: Conn)
    requires PairsInv(s) && s.control.Dialing?
    ensures PairsInv(Next(s, DialOk))
  {
    var t := Next(s, DialOk);
    assert forall k :: 0 <= k < |s.pairs| ==> t.pairs[k] == s.pairs[k];
    NewPairHolds(s.subs, s.home, |s.pairs|);
    forall k | 0 <= k < |t.pairs|
      ensures Shape(t.pairs[k]) && Holds(t.subs, t.home, OnPair(k), Taken(t.pairs[k]))
    {
      assert k == |s.pairs| || t.pairs[k] == s.pairs[k];
    }
  }

  lemma DialOkKeepsInv(s: Conn)
    requires Inv(s) && s.control.Dialing?
    ensures Inv(Next(s, DialOk))
  {
    DialOkPlaces(s);
    LogFrame(s, Next(s, DialOk));
    WokenFrame(s, Next(s, DialOk));
  }

  /** Every step keeps the invariant. */
  lemma StepKeepsInv(s: Conn, st: Step)
    requires Inv(s) && Enabled(s, st)
    ensures Inv(Next(s, st))
  {
    match st
    case Submit(n, asking, tx, check) => SubmitKeepsInv(s, n, asking, tx, check);
    case Take(k) => TakeKeepsInv(s, k);
    case Read(k, res) => ReadKeepsInv(s, k, res);
    case Fetch(k) => FetchKeepsInv(s, k);
    case Drain(k) => DrainKeepsInv(s, k);
    case DialOk => DialOkKeepsInv(s);
    case Drop => DropKeepsInv(s);
    case StartDial => LogFrame(s, Next(s, st));
    case DialFail => LogFrame(s, Next(s, st));
    case Publish => LogFrame(s, Next(s, st));
    case Lost(k) => LogFrame(s, Next(s, st));
    case Shutdown => LogFrame(s, Next(s, st));
    case _ => WriterKeepsInv(s, st);
  }

  /** The invariant survives every legal run, whatever the interleaving. */
  lemma {:induction false} RunKeepsInv(s: Conn, steps: seq<Step>)
    requires Inv(s) && Legal(s, steps)
    ensures Inv(After(s, steps))
    decreases |steps|
  {
    if steps != [] {
      StepKeepsInv(s, steps[0]);
      RunKeepsInv(Next(s, steps[0]), steps[1..]);
    }
  }

  lemma ReachableInv(s: Conn)
    requires Reachable(s)
    ensures Inv(s)
  {
    var steps :| Legal(Init(), steps) && After(Init(), steps) == s;
    RunKeepsInv(Init(), steps);
  }
}
