/** The retry logic on top of the pipelined connections: what the handles of the cluster may rely on. */
module Composition {
  import opened Errors
  import opened Retry
  import Pipeline
  import PipelineInvariant
  import PipelineTheorems
  import Handles

  predicate WasWritten(s: Pipeline.Conn, f: Pipeline.Future) {
    exists k :: 0 <= k < |s.pairs| && f in s.pairs[k].written
  }

  /** One try as it shows in the log of a connection: `index` is the resolution the handle reacts to. */
  datatype Trial = Trial(state: Pipeline.Conn, index: nat, executed: bool, partial: seq<Result>, env: Env)

  predicate WellPlaced(t: Trial) {
    t.index < |t.state.log|
  }

  function AttemptOf(t: Trial): Attempt
    requires WellPlaced(t)
  {
    var r := t.state.log[t.index];
    Attempt(r.res, WasWritten(t.state, r.fut), t.executed)
  }

  /** Every reachable state of a connection keeps the promise the retry logic is built on. */
  lemma ConnectionKeepsPromise(t: Trial)
    requires WellPlaced(t) && Pipeline.Reachable(t.state)
    ensures ConnPromise(AttemptOf(t))
  {
    var s := t.state;
    var r := s.log[t.index];
    if r.res.Error? && NotSent(r.res.kind) && !r.res.kind.Loading? {
      forall k | 0 <= k < |s.pairs| ensures r.fut !in s.pairs[k].written {
        if r.fut in s.pairs[k].written {
          PipelineTheorems.NotSentNeverWritten(s, t.index, k, r.fut);
        }
      }
    }
  }

  function EventsOf(trials: seq<Trial>): (evs: seq<Event>)
    requires forall i :: 0 <= i < |trials| ==> WellPlaced(trials[i])
    ensures |evs| == |trials|
  {
    seq(|trials|, i requires 0 <= i < |trials| => Event(AttemptOf(trials[i]), trials[i].partial, trials[i].env))
  }

  /** End to end: a write, or a transaction, that goes through any legal run of retries and redirects
      over connections in any reachable states is executed at most once, and then by its last try. */
  lemma WriteExecutedAtMostOnce(c: Command, conn: ConnId, trials: seq<Trial>, i: nat, j: nat)
    requires forall k :: 0 <= k < |trials| ==> WellPlaced(trials[k]) && Pipeline.Reachable(trials[k].state)
    requires forall k :: 0 <= k < |trials| ==> ServerPromise(AttemptOf(trials[k]))
    requires NeverTwice(c) && LegalRun(c, Start(conn), false, EventsOf(trials))
    requires i < |trials| && j < |trials| && trials[i].executed && trials[j].executed
    ensures i == j == |trials| - 1
  {
    forall k | 0 <= k < |trials| ensures ConnPromise(EventsOf(trials)[k].attempt) {
      ConnectionKeepsPromise(trials[k]);
    }
    ExecutedAtMostOnce(c, Start(conn), false, EventsOf(trials), i, j);
  }

  // ----------------------------------------------------------- transactions

  /** `res` is what request `q` of the same submission got, before entry `i` of the log. */
  predicate GotBefore(s: Pipeline.Conn, i: nat, q: nat, res: Result)
    requires i < |s.log|
  {
    exists j :: 0 <= j < i && s.log[j].fut.batch == s.log[i].fut.batch
                && s.log[j].fut.what == Pipeline.Req(q) && s.log[j].res == res
  }

  lemma ExecIsLast(sub: Pipeline.Sub, p: nat)
    requires p < |Pipeline.Whats(sub)| && Pipeline.Whats(sub)[p].Exec?
    ensures p == |Pipeline.Whats(sub)| - 1 && Pipeline.Whats(sub)[p].n == sub.n
    ensures forall q :: 0 <= q < sub.n ==>
              var pos := p - sub.n + q; 0 <= pos < p && Pipeline.Whats(sub)[pos] == Pipeline.Req(q)
  {}

  lemma RequestOf(subs: seq<Pipeline.Sub>, e: Pipeline.Future, q: nat) returns (f: Pipeline.Future)
    requires PipelineInvariant.IsFuture(subs, e) && e.what.Exec? && q < e.what.n
    ensures PipelineInvariant.IsFuture(subs, f) && f.batch == e.batch && f.pos < e.pos && f.what == Pipeline.Req(q)
  {
    ExecIsLast(subs[e.batch], e.pos);
    f := Pipeline.Future(e.batch, e.pos - subs[e.batch].n + q, Pipeline.Req(q));
  }

  lemma LogHoldsFutures(s: Pipeline.Conn, i: nat)
    requires Pipeline.Reachable(s) && i < |s.log|
    ensures PipelineInvariant.IsFuture(s.subs, s.log[i].fut)
  {
    PipelineInvariant.ReachableInv(s);
    assert PipelineInvariant.Due(s, s.log[i]);
  }

  lemma RequestBeforeExec(s: Pipeline.Conn, i: nat, q: nat) returns (res: Result)
    requires Pipeline.Reachable(s) && i < |s.log| && s.log[i].fut.what.Exec? && q < s.log[i].fut.what.n
    ensures GotBefore(s, i, q, res)
  {
    LogHoldsFutures(s, i);
    var f := RequestOf(s.subs, s.log[i].fut, q);
    PipelineTheorems.EarlierResolvedBefore(s, i, f);
    var j :| 0 <= j < i && s.log[j].fut == f;
    res := s.log[j].res;
  }

  /** When EXEC's outcome arrives, every request of the transaction has an outcome of the same try. */
  lemma TransactionSeesAllReplies(s: Pipeline.Conn, i: nat) returns (partial: seq<Result>)
    requires Pipeline.Reachable(s) && i < |s.log| && s.log[i].fut.what.Exec?
    ensures |partial| == s.log[i].fut.what.n
    ensures forall q :: 0 <= q < |partial| ==> GotBefore(s, i, q, partial[q])
  {
    var n := s.log[i].fut.what.n;
    partial := [];
    for q := 0 to n
      invariant |partial| == q
      invariant forall k :: 0 <= k < q ==> GotBefore(s, i, k, partial[k])
    {
      var res := RequestBeforeExec(s, i, q);
      partial := partial + [res];
    }
  }

  lemma RequestIndexSmall(s: Pipeline.Conn, i: nat, j: nat)
    requires Pipeline.Reachable(s) && i < |s.log| && s.log[i].fut.what.Exec?
    requires j < |s.log| && s.log[j].fut.batch == s.log[i].fut.batch && s.log[j].fut.what.Req?
    ensures s.log[j].fut.what.i < s.log[i].fut.what.n
  {
    LogHoldsFutures(s, i);
    LogHoldsFutures(s, j);
    ExecIsLast(s.subs[s.log[i].fut.batch], s.log[i].fut.pos);
  }

  /** Every request whose outcome is among the first j resolutions of the submission has one in `got`. */
  predicate Heard(s: Pipeline.Conn, i: nat, j: nat, got: map<nat, Result>)
    requires i < |s.log| && j <= |s.log|
  {
    forall x :: 0 <= x < j && s.log[x].fut.batch == s.log[i].fut.batch && s.log[x].fut.what.Req? ==>
      s.log[x].fut.what.i in got
  }

  lemma HeardAll(s: Pipeline.Conn, i: nat, got: map<nat, Result>)
    requires Pipeline.Reachable(s) && i < |s.log| && s.log[i].fut.what.Exec? && Heard(s, i, i, got)
    ensures forall q: nat :: q < s.log[i].fut.what.n ==> q in got
  {
    forall q: nat | q < s.log[i].fut.what.n ensures q in got {
      var res := RequestBeforeExec(s, i, q);
    }
  }

  /** The outcomes of all requests of the try, as the connection resolved them before entry i. */
  ghost predicate OutcomesOfTry(s: Pipeline.Conn, i: nat, partial: seq<Result>)
    requires i < |s.log|
  {
    forall q :: 0 <= q < |partial| ==> GotBefore(s, i, q, partial[q])
  }

  /** One attempt of a transaction, as the connection calls its handle: when EXEC's outcome arrives the
      handle decides on the outcomes of all requests of this very try. */
  method DeliverAttempt(s: Pipeline.Conn, i: nat, h: Handles.TransactionHandle, env: Env)
      returns (m: Move, ghost partial: seq<Result>)
    requires Pipeline.Reachable(s) && i < |s.log| && s.log[i].fut.what.Exec? && s.log[i].fut.what.n == h.n
    requires h.Valid() && h.got == map[] && GoodEnv(h.View(), env)
    modifies h
    ensures |partial| == h.n && OutcomesOfTry(s, i, partial)
    ensures m == TransactionMove(h.Config(), old(h.View()), old(h.asked), partial, s.log[i].res, env) && h.Moved(m)
  {
    for j := 0 to i
      invariant h.Valid() && h.View() == old(h.View()) && h.asked == old(h.asked) && h.delivered == old(h.delivered)
      invariant Heard(s, i, j, h.got)
      invariant forall q :: q in h.got ==> GotBefore(s, i, q, h.got[q])
    {
      var r := s.log[j];
      if r.fut.batch == s.log[i].fut.batch && r.fut.what.Req? {
        RequestIndexSmall(s, i, j);
        assert GotBefore(s, i, r.fut.what.i, r.res);
        h.ResolvePartial(r.res, r.fut.what.i);
      }
    }
    HeardAll(s, i, h.got);
    partial := Handles.OfAttempt(h.got, h.n);
    m := h.ResolveExec(s.log[i].res, env);
  }

  /** Nothing of a submission is resolved after its EXEC: a transaction handle that went back to the
      pool then is never called again for that try. */
  lemma NothingAfterExec(s: Pipeline.Conn, i: nat, j: nat)
    requires Pipeline.Reachable(s) && i < |s.log| && s.log[i].fut.what.Exec?
    requires j < |s.log| && s.log[j].fut.batch == s.log[i].fut.batch
    ensures j <= i
  {
    PipelineInvariant.ReachableInv(s);
    LogHoldsFutures(s, i);
    LogHoldsFutures(s, j);
    ExecIsLast(s.subs[s.log[i].fut.batch], s.log[i].fut.pos);
  }

  /** A single request is one future, resolved once: its handle is called once for each try. */
  lemma SingleRequestResolvedOnce(s: Pipeline.Conn, i: nat, j: nat, n: nat)
    requires Pipeline.Reachable(s) && i < |s.log| && j < |s.log|
    requires s.log[i].fut.batch == s.log[j].fut.batch
    requires s.log[i].fut.what == Pipeline.Req(n) == s.log[j].fut.what
    ensures i == j
  {
    LogHoldsFutures(s, i);
    LogHoldsFutures(s, j);
    RequestPositionUnique(s.subs[s.log[i].fut.batch], s.log[i].fut.pos, s.log[j].fut.pos);
    PipelineTheorems.ResolvedAtMostOnce(s, i, j);
  }

  lemma RequestPositionUnique(sub: Pipeline.Sub, a: nat, b: nat)
    requires a < |Pipeline.Whats(sub)| && b < |Pipeline.Whats(sub)|
    requires Pipeline.Whats(sub)[a].Req? && Pipeline.Whats(sub)[a] == Pipeline.Whats(sub)[b]
    ensures a == b
  {}
}
