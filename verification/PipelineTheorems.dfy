/** What the pipelined connection guarantees after every legal run. */
module PipelineTheorems {
  import opened Errors
  import opened Pipeline
  import opened PipelineInvariant

  // ------------------------------------------ conservation and exactly-once

  /** A place where a future can be: an index of the queue, of the batch a writer holds, of a batch in
      a channel, of what a reader has left of its batch, or of the log of resolutions. */
  datatype Spot = AtQueue(i: nat) | AtWriter(k: nat, i: nat) | AtChannel(k: nat, i: nat, j: nat)
                | AtReader(k: nat, i: nat) | Resolved(i: nat)

  predicate IsAt(s: Conn, e: Future, spot: Spot) {
    match spot
    case AtQueue(i) => i < |s.queue| && s.queue[i] == e
    case AtWriter(k, i) => k < |s.pairs| && i < |s.pairs[k].batch| && s.pairs[k].batch[i] == e
    case AtChannel(k, i, j) => k < |s.pairs| && i < |s.pairs[k].chan| && j < |s.pairs[k].chan[i]|
        && s.pairs[k].chan[i][j] == e
    case AtReader(k, i) => k < |s.pairs| && i < |s.pairs[k].rest| && s.pairs[k].rest[i] == e
    case Resolved(i) => i < |s.log| && s.log[i].fut == e
  }

  predicate OnAPair(spot: Spot) {
    spot.AtWriter? || spot.AtChannel? || spot.AtReader?
  }

  // What a pair took lies, in wire order, in: resolved, reader, channel, writer.

  /** Futures in the channel before batch i. */
  function Offset(chan: seq<seq<Future>>, i: nat): nat
    requires i <= |chan|
  {
    if i == 0 then 0 else Offset(chan, i - 1) + |chan[i - 1]|
  }

  lemma {:induction false} OffsetGrows(chan: seq<seq<Future>>, i: nat, j: nat)
    requires i < j <= |chan|
    ensures Offset(chan, i) + |chan[i]| <= Offset(chan, j)
    decreases j
  {
    if i < j - 1 { OffsetGrows(chan, i, j - 1); }
  }

  lemma {:induction false} OffsetTail(chan: seq<seq<Future>>, i: nat)
    requires 0 < i <= |chan|
    ensures Offset(chan, i) == |chan[0]| + Offset(chan[1..], i - 1)
  {
    if i > 1 { OffsetTail(chan, i - 1); }
  }

  lemma {:induction false} FlattenAt(chan: seq<seq<Future>>, i: nat, j: nat)
    requires i < |chan| && j < |chan[i]|
    ensures Offset(chan, i) + j < |Flatten(chan)| && Flatten(chan)[Offset(chan, i) + j] == chan[i][j]
  {
    if i > 0 {
      OffsetTail(chan, i);
      FlattenAt(chan[1..], i - 1, j);
    }
  }

  lemma {:induction false} FlattenFrom(chan: seq<seq<Future>>, x: nat) returns (i: nat, j: nat)
    requires x < |Flatten(chan)|
    ensures i < |chan| && j < |chan[i]| && chan[i][j] == Flatten(chan)[x]
  {
    if x < |chan[0]| {
      i, j := 0, x;
    } else {
      i, j := FlattenFrom(chan[1..], x - |chan[0]|);
      i := i + 1;
    }
  }

  /** The place of a spot of pair `p` in the order in which the pair took its futures. */
  function Rank(p: Pair, spot: Spot): int
    requires OnAPair(spot) && (spot.AtChannel? ==> spot.i <= |p.chan|)
  {
    match spot
    case AtReader(_, i) => |p.done| + i
    case AtChannel(_, i, j) => |p.done| + |p.rest| + Offset(p.chan, i) + j
    case AtWriter(_, i) => |Taken(p)| - |p.batch| + i
    case _ => 0
  }

  lemma TakenSplits(p: Pair)
    requires Shape(p)
    ensures Taken(p) == p.done + p.rest + Flatten(p.chan) + p.batch
  {}

  lemma RankIsPlace(s: Conn, e: Future, spot: Spot)
    requires OnAPair(spot) && IsAt(s, e, spot) && Shape(s.pairs[spot.k])
    ensures var p := s.pairs[spot.k]; |p.done| <= Rank(p, spot) < |Taken(p)| && Taken(p)[Rank(p, spot)] == e
  {
    var p := s.pairs[spot.k];
    TakenSplits(p);
    if spot.AtChannel? { FlattenAt(p.chan, spot.i, spot.j); }
  }

  lemma SameRankSameSpot(s: Conn, e: Future, a: Spot, b: Spot)
    requires OnAPair(a) && OnAPair(b) && a.k == b.k && IsAt(s, e, a) && IsAt(s, e, b) && Shape(s.pairs[a.k])
    requires Rank(s.pairs[a.k], a) == Rank(s.pairs[a.k], b)
    ensures a == b
  {
    var p := s.pairs[a.k];
    TakenSplits(p);
    if a.AtChannel? { FlattenAt(p.chan, a.i, a.j); }
    if b.AtChannel? { FlattenAt(p.chan, b.i, b.j); }
    if a.AtChannel? && b.AtChannel? {
      if a.i < b.i { OffsetGrows(p.chan, a.i, b.i); }
      if b.i < a.i { OffsetGrows(p.chan, b.i, a.i); }
    }
  }

  lemma SpotHome(s: Conn, e: Future, spot: Spot)
    requires Inv(s) && IsAt(s, e, spot)
    ensures IsFuture(s.subs, e)
    ensures spot.AtQueue? <==> s.home[e.batch].Queued?
    ensures OnAPair(spot) ==> s.home[e.batch] == OnPair(spot.k)
    ensures spot.Resolved? ==> Settled(s, e)
  {
    match spot {
      case AtQueue(i) => assert e in s.queue;
      case Resolved(i) => assert Due(s, s.log[i]);
      case _ =>
        RankIsPlace(s, e, spot);
        assert e in Taken(s.pairs[spot.k]);
    }
  }

  lemma PairSpotExists(s: Conn, k: nat, e: Future) returns (spot: Spot)
    requires PairsInv(s) && LogInv(s) && k < |s.pairs| && e in Taken(s.pairs[k])
    ensures IsAt(s, e, spot)
  {
    var p := s.pairs[k];
    TakenSplits(p);
    if e in p.done {
      DoneHome(s, k);
      assert Settled(s, e);
      var i :| 0 <= i < |s.log| && s.log[i].fut == e;
      spot := Resolved(i);
    } else if e in p.rest {
      var i :| 0 <= i < |p.rest| && p.rest[i] == e;
      spot := AtReader(k, i);
    } else if e in p.batch {
      var i :| 0 <= i < |p.batch| && p.batch[i] == e;
      spot := AtWriter(k, i);
    } else {
      assert e in Flatten(p.chan);
      var x :| 0 <= x < |Flatten(p.chan)| && Flatten(p.chan)[x] == e;
      var i, j := FlattenFrom(p.chan, x);
      spot := AtChannel(k, i, j);
    }
  }

  lemma SpotExists(s: Conn, e: Future) returns (spot: Spot)
    requires Inv(s) && IsFuture(s.subs, e)
    ensures IsAt(s, e, spot)
  {
    match s.home[e.batch] {
      case Queued =>
        assert e in s.queue;
        var i :| 0 <= i < |s.queue| && s.queue[i] == e;
        spot := AtQueue(i);
      case OnPair(k) =>
        assert e in Taken(s.pairs[k]);
        spot := PairSpotExists(s, k, e);
      case _ =>
        assert Settled(s, e);
        var i :| 0 <= i < |s.log| && s.log[i].fut == e;
        spot := Resolved(i);
    }
  }

  lemma IncreasingDistinct(fs: seq<Future>, i: nat, j: nat)
    requires Increasing(fs) && i < |fs| && j < |fs| && fs[i] == fs[j]
    ensures i == j
  {}

  lemma IndexOrder(fs: seq<Future>, i: nat, j: nat)
    requires Increasing(fs) && i < |fs| && j < |fs| && Before(fs[i], fs[j])
    ensures i < j
  {}

  lemma OrderedDistinct(log: seq<Resolution>, i: nat, j: nat)
    requires Ordered(log) && i < |log| && j < |log| && log[i].fut == log[j].fut
    ensures i == j
  {}

  /** What stands after the resolved part of an increasing sequence is not in it. */
  lemma BeyondIsNew(taken: seq<Future>, done: seq<Future>, r: nat)
    requires Increasing(taken) && done <= taken && |done| <= r < |taken|
    ensures taken[r] !in done
  {
    forall j | 0 <= j < |done| ensures done[j] != taken[r] {
      assert done[j] == taken[j] && Before(taken[j], taken[r]);
    }
  }

  lemma NotDoneNotInLog(s: Conn, e: Future, k: nat)
    requires |s.home| == |s.subs| && LogInv(s) && IsFuture(s.subs, e) && k < |s.pairs|
    requires s.home[e.batch] == OnPair(k) && e !in s.pairs[k].done
    ensures !InLog(s.log, e)
  {
    forall i | 0 <= i < |s.log| ensures s.log[i].fut != e {
      assert Due(s, s.log[i]);
    }
  }

  lemma DoneIsTaken(p: Pair)
    requires Shape(p)
    ensures p.done <= Taken(p)
  {
    TakenSplits(p);
    assert p.done + p.rest + Flatten(p.chan) + p.batch == p.done + (p.rest + Flatten(p.chan) + p.batch);
  }

  /** A future that a pair still has is not resolved. */
  lemma HeldNotResolved(s: Conn, e: Future, spot: Spot)
    requires Inv(s) && OnAPair(spot) && IsAt(s, e, spot)
    ensures !InLog(s.log, e)
  {
    SpotHome(s, e, spot);
    RankIsPlace(s, e, spot);
    var p := s.pairs[spot.k];
    DoneIsTaken(p);
    BeyondIsNew(Taken(p), p.done, Rank(p, spot));
    NotDoneNotInLog(s, e, spot.k);
  }

  lemma SpotUnique(s: Conn, e: Future, a: Spot, b: Spot)
    requires Inv(s) && IsAt(s, e, a) && IsAt(s, e, b)
    ensures a == b
  {
    SpotHome(s, e, a);
    SpotHome(s, e, b);
    if OnAPair(a) { HeldNotResolved(s, e, a); }
    if OnAPair(b) { HeldNotResolved(s, e, b); }
    if a.AtQueue? {
      IncreasingDistinct(s.queue, a.i, b.i);
    } else if OnAPair(a) {
      RankIsPlace(s, e, a);
      RankIsPlace(s, e, b);
      IncreasingDistinct(Taken(s.pairs[a.k]), Rank(s.pairs[a.k], a), Rank(s.pairs[a.k], b));
      SameRankSameSpot(s, e, a, b);
    } else {
      OrderedDistinct(s.log, a.i, b.i);
    }
  }

  /** Conservation: after any run every submitted future is at exactly one place - in the queue, with a
      writer, in a channel, with a reader, or resolved - and only submitted futures are anywhere. */
  lemma EveryFutureAtOnePlace(s: Conn, e: Future)
    requires Reachable(s)
    ensures IsFuture(s.subs, e) <==> exists spot :: IsAt(s, e, spot)
    ensures forall a, b :: IsAt(s, e, a) && IsAt(s, e, b) ==> a == b
  {
    ReachableInv(s);
    if IsFuture(s.subs, e) {
      var spot := SpotExists(s, e);
    }
    forall spot | IsAt(s, e, spot) ensures IsFuture(s.subs, e) { SpotHome(s, e, spot); }
    forall a, b | IsAt(s, e, a) && IsAt(s, e, b) ensures a == b { SpotUnique(s, e, a, b); }
  }

  /** No future is ever resolved twice. */
  lemma ResolvedAtMostOnce(s: Conn, i: nat, j: nat)
    requires Reachable(s)
    requires i < |s.log| && j < |s.log| && s.log[i].fut == s.log[j].fut
    ensures i == j
  {
    ReachableInv(s);
    OrderedDistinct(s.log, i, j);
  }

  predicate Quiescent(s: Conn) {
    s.queue == [] && forall k :: 0 <= k < |s.pairs| ==> s.pairs[k].reader.Finished?
  }

  /** When the queue is empty and every pair has ended, each submitted future has been
      resolved, exactly once, and nothing else has. */
  lemma QuiescentResolvedAll(s: Conn, e: Future)
    requires Reachable(s) && Quiescent(s)
    ensures
      IsFuture(s.subs, e) <==> exists i :: 0 <= i < |s.log| && s.log[i].fut == e
  {
    ReachableInv(s);
    if IsFuture(s.subs, e) {
      var spot := SpotExists(s, e);
      assert forall k :: 0 <= k < |s.pairs| ==> Shape(s.pairs[k]);
      assert spot.Resolved?;
    }
    if i :| 0 <= i < |s.log| && s.log[i].fut == e { assert Due(s, s.log[i]); }
  }

  lemma FinishedTaken(p: Pair)
    requires Shape(p) && p.reader.Finished?
    ensures Taken(p) == p.done
  {
    assert Flatten(p.chan) == [] && p.rest == [] && p.batch == [];
  }

  /** Once a pair's reader is done nothing that pair took is left unresolved. */
  lemma FinishedPairResolvedAll(s: Conn, k: nat, e: Future)
    requires Reachable(s) && k < |s.pairs| && s.pairs[k].reader.Finished?
    requires e in Taken(s.pairs[k])
    ensures InLog(s.log, e)
  {
    ReachableInv(s);
    FinishedTaken(s.pairs[k]);
    DoneHome(s, k);
    var j :| 0 <= j < |s.pairs[k].done| && s.pairs[k].done[j] == e;
    var i := DoneInLog(s, k, j);
  }

  // ------------------------------------------------------ pipeline matching

  lemma DoneInLog(s: Conn, k: nat, j: nat) returns (i: nat)
    requires PairsInv(s) && LogInv(s) && k < |s.pairs| && j < |s.pairs[k].done|
    ensures i < |s.log| && s.log[i] == Resolution(s.pairs[k].done[j], Outcome(s.pairs[k], j))
  {
    var p := s.pairs[k];
    var e := p.done[j];
    DoneHome(s, k);
    assert e in p.done;
    assert Settled(s, e);
    i :| 0 <= i < |s.log| && s.log[i].fut == e;
    assert Due(s, s.log[i]);
    var m :| 0 <= m < |p.done| && p.done[m] == e && s.log[i].res == Outcome(p, m);
    assert Taken(p)[m] == e && Taken(p)[j] == e;
    IncreasingDistinct(Taken(p), j, m);
  }

  /** What the socket of pair k delivered in the run: the answers among the reads, in order. */
  function Delivered(steps: seq<Step>, k: nat): seq<Result> {
    if steps == [] then []
    else DeliveredBy(steps[0], k) + Delivered(steps[1..], k)
  }

  function DeliveredBy(st: Step, k: nat): seq<Result> {
    if st.Read? && st.k == k && IsAnswer(st.res) then [st.res] else []
  }

  function ReadOf(pairs: seq<Pair>, k: nat): seq<Result> {
    if k < |pairs| then pairs[k].read else []
  }

  lemma ReadOfUpdate(pairs: seq<Pair>, m: nat, q: Pair, k: nat)
    requires m < |pairs|
    ensures ReadOf(pairs[m := q], k) == if k == m then q.read else ReadOf(pairs, k)
  {}

  lemma ReadByReader(s: Conn, st: Step, k: nat)
    requires Enabled(s, st) && OfReader(st)
    ensures ReadOf(Next(s, st).pairs, k) == ReadOf(s.pairs, k) + DeliveredBy(st, k)
  {
    var t := Next(s, st);
    assert t.pairs == s.pairs[st.k := t.pairs[st.k]];
    ReadOfUpdate(s.pairs, st.k, t.pairs[st.k], k);
  }

  lemma ReadByWriter(s: Conn, st: Step, k: nat)
    requires Enabled(s, st) && OfWriter(st)
    ensures ReadOf(Next(s, st).pairs, k) == ReadOf(s.pairs, k)
  {
    var t := Next(s, st);
    assert t.pairs == s.pairs[st.k := t.pairs[st.k]];
    ReadOfUpdate(s.pairs, st.k, t.pairs[st.k], k);
  }

  lemma ReadByStep(s: Conn, st: Step, k: nat)
    requires Enabled(s, st)
    ensures ReadOf(Next(s, st).pairs, k) == ReadOf(s.pairs, k) + DeliveredBy(st, k)
  {
    if OfReader(st) {
      ReadByReader(s, st, k);
    } else if OfWriter(st) {
      ReadByWriter(s, st, k);
    }
  }

  lemma {:induction false} ReadIsDelivered(s: Conn, steps: seq<Step>, k: nat)
    requires Legal(s, steps)
    ensures ReadOf(After(s, steps).pairs, k) == ReadOf(s.pairs, k) + Delivered(steps, k)
    decreases |steps|
  {
    if steps != [] {
      ReadIsDelivered(Next(s, steps[0]), steps[1..], k);
      ReadByStep(s, steps[0], k);
    }
  }

  /** The j-th future passed to Write on a socket that is resolved gets the j-th answer read from that
      socket; past the last answer, the error that broke it. At most one answer is read and not yet, or
      never, handed to a future. */
  lemma WireOrderMatchesAnswers(s: Conn, k: nat, j: nat)
    requires Reachable(s) && k < |s.pairs|
    requires j < |s.pairs[k].done|
    ensures var p := s.pairs[k];
      && j < |p.written| && p.done[j] == p.written[j] && |p.read| <= |p.done| + 1
      && (|p.read| <= j ==> p.failure.Some?)
      && InLogAs(s.log, p.written[j], if j < |p.read| then p.read[j] else Error(p.failure.value))
  {
    ReachableInv(s);
    var p := s.pairs[k];
    assert Shape(p);
    var i := DoneInLog(s, k, j);
    assert p.written[j] == p.done[j];
  }

  predicate InLogAs(log: seq<Resolution>, e: Future, res: Result) {
    exists i :: 0 <= i < |log| && log[i] == Resolution(e, res)
  }

  /** The same, told by the run alone: the j-th resolved future of the wire got the j-th answer that the
      socket delivered. */
  lemma DeliveredAnswersMatch(steps: seq<Step>, k: nat, j: nat)
    requires Legal(Init(), steps) && k < |After(Init(), steps).pairs|
    requires j < |After(Init(), steps).pairs[k].done| && j < |Delivered(steps, k)|
    ensures var s := After(Init(), steps);
      j < |s.pairs[k].written| && InLogAs(s.log, s.pairs[k].written[j], Delivered(steps, k)[j])
  {
    ReadIsDelivered(Init(), steps, k);
    WireOrderMatchesAnswers(After(Init(), steps), k, j);
  }

  /** Conversely a future that holds an answer of the server got the one read at its own wire position,
      except for the empty transaction, which is answered on the spot. */
  lemma AnswersComeFromTheWire(s: Conn, i: nat)
    requires Reachable(s) && i < |s.log| && IsAnswer(s.log[i].res)
    ensures var r := s.log[i];
      || (r.fut.batch < |s.subs| && s.subs[r.fut.batch].n == 0)
      || exists k, j :: 0 <= k < |s.pairs| && 0 <= j < |s.pairs[k].read| && j < |s.pairs[k].written|
                        && s.pairs[k].written[j] == r.fut && s.pairs[k].read[j] == r.res
  {
    ReachableInv(s);
    var r := s.log[i];
    assert Due(s, r);
    if s.home[r.fut.batch].OnPair? {
      var k := s.home[r.fut.batch].k;
      var p := s.pairs[k];
      assert Shape(p);
      var j :| 0 <= j < |p.done| && p.done[j] == r.fut && r.res == Outcome(p, j);
      assert p.written[j] == r.fut && p.read[j] == r.res;
    }
  }

  // Contiguity on the wire.

  /** In a sequence that holds whole submissions in order, the next position of a submission
      follows directly. */
  lemma NextFollows(s: Conn, place: Place, fs: seq<Future>, i: nat, next: Future)
    requires |s.home| == |s.subs| && Holds(s.subs, s.home, place, fs)
    requires i < |fs| && IsFuture(s.subs, next) && next.batch == fs[i].batch && next.pos == fs[i].pos + 1
    ensures i + 1 < |fs| && fs[i + 1] == next
  {
    assert fs[i] in fs;
    assert next in fs;
    var j :| 0 <= j < |fs| && fs[j] == next;
    IndexOrder(fs, i, j);
    assert Before(fs[i], fs[i + 1]);
    assert i + 1 == j;
  }

  lemma {:induction false} SubmissionContiguous(s: Conn, place: Place, fs: seq<Future>, i: nat, m: nat)
    requires |s.home| == |s.subs| && Holds(s.subs, s.home, place, fs)
    requires i < |fs| && fs[i].pos == 0 && fs[i].batch < |s.subs|
    requires m <= |Whats(s.subs[fs[i].batch])|
    ensures i + m <= |fs| && fs[i..i + m] == Futures(fs[i].batch, s.subs[fs[i].batch])[..m]
  {
    assert fs[i] in fs;
    var all := Futures(fs[i].batch, s.subs[fs[i].batch]);
    if m > 0 {
      SubmissionContiguous(s, place, fs, i, m - 1);
      if m == 1 {
        assert fs[i] == all[0];
      } else {
        assert fs[i + m - 2] == fs[i..i + m - 1][m - 2] == all[m - 2];
        NextFollows(s, place, fs, i + m - 2, all[m - 1]);
      }
      assert fs[i..i + m] == fs[i..i + m - 1] + [fs[i + m - 1]];
    }
  }

  predicate StandsAt(w: seq<Future>, i: nat, fs: seq<Future>) {
    i + |fs| <= |w| && w[i..i + |fs|] == fs
  }

  lemma WholeInTaken(s: Conn, k: nat, e: Future) returns (i: nat)
    requires |s.home| == |s.subs| && k < |s.pairs| && Holds(s.subs, s.home, OnPair(k), Taken(s.pairs[k]))
    requires e in Taken(s.pairs[k])
    ensures IsFuture(s.subs, e) && StandsAt(Taken(s.pairs[k]), i, Futures(e.batch, s.subs[e.batch]))
  {
    var t := Taken(s.pairs[k]);
    var all := Futures(e.batch, s.subs[e.batch]);
    assert IsFuture(s.subs, all[0]);
    assert all[0] in t;
    i :| 0 <= i < |t| && t[i] == all[0];
    SubmissionContiguous(s, OnPair(k), t, i, |all|);
    assert all == all[..|all|];
  }

  lemma NoStraddling(p: Pair, all: seq<Future>, i: nat, a: nat)
    requires WriterShape(p) && StandsAt(Taken(p), i, all) && a < |p.written|
    requires |all| > 0 && forall x :: 0 <= x < |all| ==> all[x].batch == p.written[a].batch
    ensures i + |all| <= |p.written|
  {
    var last := i + |all| - 1;
    assert Taken(p)[last] == Taken(p)[i..i + |all|][|all| - 1] == all[|all| - 1];
    assert forall x :: |p.written| <= x < |Taken(p)| ==> Taken(p)[x] == p.batch[x - |p.written|];
  }

  /** A submission with any future on the wire stands there whole and unbroken: ASKING, MULTI, the
      requests and EXEC in that order with nothing between them. */
  lemma SubmissionWholeOnWire(s: Conn, k: nat, e: Future)
    requires Reachable(s) && k < |s.pairs| && e in s.pairs[k].written
    ensures IsFuture(s.subs, e)
    ensures exists i :: StandsAt(s.pairs[k].written, i, Futures(e.batch, s.subs[e.batch]))
  {
    ReachableInv(s);
    var p := s.pairs[k];
    assert Shape(p);
    var a :| 0 <= a < |p.written| && p.written[a] == e;
    assert Taken(p)[a] == e;
    var i := WholeInTaken(s, k, e);
    var all := Futures(e.batch, s.subs[e.batch]);
    NoStraddling(p, all, i, a);
    assert p.written[i..i + |all|] == Taken(p)[i..i + |all|];
    assert StandsAt(p.written, i, all);
  }

  // ----------------------------------------------------- order within a batch

  lemma EarlierSettled(s: Conn, e: Future, f: Future)
    requires PairsInv(s) && IsFuture(s.subs, e) && Settled(s, e)
    requires IsFuture(s.subs, f) && f.batch == e.batch && f.pos < e.pos
    ensures Settled(s, f)
  {
    if s.home[e.batch].OnPair? {
      var k := s.home[e.batch].k;
      var p := s.pairs[k];
      var m :| 0 <= m < |p.done| && p.done[m] == e;
      assert f in Taken(p);
      var a :| 0 <= a < |Taken(p)| && Taken(p)[a] == f;
      assert Taken(p)[m] == e;
      IndexOrder(Taken(p), a, m);
      assert p.done[a] == f;
    }
  }

  lemma DueSettled(s: Conn, r: Resolution)
    requires |s.home| == |s.subs| && Due(s, r)
    ensures Settled(s, r.fut)
  {}

  /** When a future is resolved, all earlier ones of its submission have been: EXEC comes last, and
      its requests have their outcomes by then. */
  lemma EarlierResolvedBefore(s: Conn, i: nat, f: Future)
    requires Reachable(s) && i < |s.log|
    requires IsFuture(s.subs, f)
    requires f.batch == s.log[i].fut.batch && f.pos < s.log[i].fut.pos
    ensures exists j :: 0 <= j < i && s.log[j].fut == f
  {
    ReachableInv(s);
    var j := EarlierInLog(s, i, f);
  }

  lemma EarlierInLog(s: Conn, i: nat, f: Future) returns (j: nat)
    requires PairsInv(s) && LogInv(s) && i < |s.log|
    requires IsFuture(s.subs, f) && f.batch == s.log[i].fut.batch && f.pos < s.log[i].fut.pos
    ensures j < i && s.log[j].fut == f
  {
    DueSettled(s, s.log[i]);
    EarlierSettled(s, s.log[i].fut, f);
    j :| 0 <= j < |s.log| && s.log[j].fut == f;
    LaterComesLater(s.log, i, j);
  }

  lemma LaterComesLater(log: seq<Resolution>, i: nat, j: nat)
    requires Ordered(log) && i < |log| && j < |log|
    requires log[j].fut.batch == log[i].fut.batch && log[j].fut.pos < log[i].fut.pos
    ensures j < i
  {}

  // ------------------------------------------------------------ not-sent

  lemma NotSentUnwritten(s: Conn, i: nat, k: nat, f: Future)
    requires PairsInv(s) && LogInv(s) && i < |s.log| && k < |s.pairs|
    requires var r := s.log[i].res; r.Error? && NotSent(r.kind) && !r.kind.Loading?
    requires f in s.pairs[k].written
    ensures f.batch != s.log[i].fut.batch
  {
    assert Shape(s.pairs[k]);
    assert Due(s, s.log[i]);
    NotSentHome(s, s.log[i]);
    assert f in Taken(s.pairs[k]);
  }

  /** Sockets never report the not-sent trait, except for a LOADING answer. */
  lemma NotSentHome(s: Conn, r: Resolution)
    requires PairsInv(s) && Due(s, r)
    requires r.res.Error? && NotSent(r.res.kind) && !r.res.kind.Loading?
    ensures !s.home[r.fut.batch].OnPair?
  {
    forall k, j | 0 <= k < |s.pairs| && 0 <= j < |s.pairs[k].done|
      ensures AnswerOrBreak(Outcome(s.pairs[k], j))
    {
      assert Shape(s.pairs[k]);
    }
  }

  predicate AnswerOrBreak(r: Result) {
    IsAnswer(r) || r.kind.IO? || r.kind.BadResponse?
  }

  /** An error with the not-sent trait, other than a LOADING reply, reaches only submissions none
      of whose bytes were passed to Write on any socket. */
  lemma NotSentNeverWritten(s: Conn, i: nat, k: nat, f: Future)
    requires Reachable(s) && i < |s.log| && k < |s.pairs|
    requires var r := s.log[i].res; r.Error? && NotSent(r.kind) && !r.kind.Loading?
    requires f in s.pairs[k].written
    ensures f.batch != s.log[i].fut.batch
  {
    ReachableInv(s);
    NotSentUnwritten(s, i, k, f);
  }

  /** Resolutions are never taken back or changed. */
  lemma LogOnlyGrows(s: Conn, st: Step)
    requires Enabled(s, st)
    ensures s.log <= Next(s, st).log
  {}

  lemma {:induction false} LogOnlyGrowsRun(s: Conn, more: seq<Step>)
    requires Legal(s, more)
    ensures s.log <= After(s, more).log
    decreases |more|
  {
    if more != [] {
      LogOnlyGrows(s, more[0]);
      LogOnlyGrowsRun(Next(s, more[0]), more[1..]);
    }
  }

  /** The verdict is final: no continuation of the run writes such a submission either. */
  lemma NotSentForever(s: Conn, more: seq<Step>, i: nat, k: nat, f: Future)
    requires Reachable(s) && Legal(s, more) && i < |s.log|
    requires var r := s.log[i].res; r.Error? && NotSent(r.kind) && !r.kind.Loading?
    requires k < |After(s, more).pairs| && f in After(s, more).pairs[k].written
    ensures f.batch != s.log[i].fut.batch
  {
    ReachableInv(s);
    RunKeepsInv(s, more);
    LogOnlyGrowsRun(s, more);
    assert After(s, more).log[i] == s.log[i];
    NotSentUnwritten(After(s, more), i, k, f);
  }

  // -------------------------------------------------------------- wake-ups

  /** Queued futures always have a wake token or a woken writer; the signal channel is closed only
      once the queue is refused and empty, so no sender ever uses it closed. */
  lemma NoLostWakeup(s: Conn)
    requires Reachable(s)
    ensures
      && (s.queue != [] ==> s.token || exists k :: 0 <= k < |s.pairs| && s.pairs[k].writer.Woken?)
      && (s.signalClosed ==> s.phase.Closed? && s.queue == [])
  {
    ReachableInv(s);
  }

  /** A writer leaves only after a failure of its pair or once the signal is closed. */
  predicate LeavesForCause(p: Pair, signalClosed: bool) {
    && (p.writer.Leaving? || p.writer.Gone? ==> p.failure.Some? || signalClosed)
    && |p.chan| <= CHANNEL_CAPACITY
  }

  predicate LeaveInv(s: Conn) {
    forall k :: 0 <= k < |s.pairs| ==> LeavesForCause(s.pairs[k], s.signalClosed)
  }

  predicate OfWriter(st: Step) {
    st.Wake? || st.Stray? || st.Take? || st.Write? || st.Push? || st.Stop? || st.Leave?
  }

  predicate OfReader(st: Step) {
    st.Read? || st.Fetch? || st.Drain?
  }

  lemma WriterLeaves(s: Conn, st: Step)
    requires LeaveInv(s) && Enabled(s, st) && OfWriter(st)
    ensures LeavesForCause(Next(s, st).pairs[st.k], Next(s, st).signalClosed)
    ensures Next(s, st).pairs == s.pairs[st.k := Next(s, st).pairs[st.k]] && Next(s, st).signalClosed == s.signalClosed
  {
    assert LeavesForCause(s.pairs[st.k], s.signalClosed);
  }

  lemma ReaderLeaves(s: Conn, st: Step)
    requires LeaveInv(s) && Enabled(s, st) && OfReader(st)
    ensures LeavesForCause(Next(s, st).pairs[st.k], Next(s, st).signalClosed)
    ensures Next(s, st).pairs == s.pairs[st.k := Next(s, st).pairs[st.k]] && Next(s, st).signalClosed == s.signalClosed
  {
    assert LeavesForCause(s.pairs[st.k], s.signalClosed);
  }

  lemma StepKeepsLeaveInv(s: Conn, st: Step)
    requires LeaveInv(s) && Enabled(s, st)
    ensures LeaveInv(Next(s, st))
  {
    if OfWriter(st) {
      WriterLeaves(s, st);
    } else if OfReader(st) {
      ReaderLeaves(s, st);
    } else {
      forall k | 0 <= k < |Next(s, st).pairs| ensures LeavesForCause(Next(s, st).pairs[k], Next(s, st).signalClosed) {
        assert k < |s.pairs| ==> LeavesForCause(s.pairs[k], s.signalClosed);
      }
    }
  }

  lemma {:induction false} RunKeepsLeaveInv(s: Conn, steps: seq<Step>)
    requires LeaveInv(s) && Legal(s, steps)
    ensures LeaveInv(After(s, steps))
    decreases |steps|
  {
    if steps != [] {
      StepKeepsLeaveInv(s, steps[0]);
      RunKeepsLeaveInv(Next(s, steps[0]), steps[1..]);
    }
  }

  lemma ReachableLeaveInv(s: Conn)
    requires Reachable(s)
    ensures LeaveInv(s)
  {
    var steps :| Legal(Init(), steps) && After(Init(), steps) == s;
    RunKeepsLeaveInv(Init(), steps);
  }

  /** With a connected, unbroken current pair a queued future is never stranded: a woken writer can take
      the queue, or the current writer can consume the wake token or go on with its batch; only a full
      channel holds it up, and then the reader can go on or waits for the socket. */
  lemma QueueMovesOn(s: Conn, k: nat) returns (st: Step)
    requires Reachable(s) && s.queue != []
    requires s.phase.Connected? && s.current == Some(k) && k < |s.pairs| && s.pairs[k].failure.None?
    ensures Enabled(s, st)
    ensures || (st.Take? && s.pairs[st.k].writer.Woken?)
            || st in {Step.Wake(k), Step.Write(k, true), Step.Push(k)}
            || (|s.pairs[k].chan| == CHANNEL_CAPACITY && (st == Step.Fetch(k) || st.Read?) && st.k == k)
  {
    ReachableInv(s);
    ReachableLeaveInv(s);
    var p := s.pairs[k];
    assert Shape(p) && LeavesForCause(p, s.signalClosed);
    if m :| 0 <= m < |s.pairs| && s.pairs[m].writer.Woken? {
      st := Step.Take(m);
    } else if p.writer.Waiting? {
      st := Step.Wake(k);
    } else if p.writer.Holding? {
      st := Step.Write(k, true);
    } else if |p.chan| < CHANNEL_CAPACITY {
      st := Step.Push(k);
    } else if p.reader.HasReply? {
      st := Step.Fetch(k);
    } else {
      st := Step.Read(k, Value(0));
    }
  }

  /** A broken pair is never stuck: until its reader ends, its writer or its reader can move, so the
      bounded channel cannot block them against each other. */
  lemma BrokenPairCanMove(s: Conn, k: nat) returns (st: Step)
    requires Reachable(s) && k < |s.pairs|
    requires s.pairs[k].failure.Some? && !s.pairs[k].reader.Finished?
    requires !s.pairs[k].reader.Reading?
    ensures Enabled(s, st)
    ensures st in {Step.Take(k), Step.Write(k, true), Step.Push(k), Step.Stop(k), Step.Leave(k), Step.Fetch(k),
            Step.Drain(k)}
  {
    ReachableInv(s);
    var p := s.pairs[k];
    assert Shape(p);
    if p.reader.HasReply? && (p.chan != [] || p.writer.Gone?) {
      st := Step.Fetch(k);
    } else if p.reader.Draining? && (p.rest != [] || p.chan != [] || p.writer.Gone?) {
      st := Step.Drain(k);
    } else {
      st := match p.writer
        case Waiting => Step.Stop(k)
        case Woken => Step.Take(k)
        case Holding => Step.Write(k, true)
        case Wrote => Step.Push(k)
        case _ => Step.Leave(k);
    }
  }
}
