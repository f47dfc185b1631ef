/** The pooled handles of rediscluster/cluster.go: `request` and `transaction` with their fields
    updated in place on every Resolve. */
module Handles {
  import opened Errors
  import opened Retry

  class RequestHandle {
    const connsPerHost: nat
    const movedRetries: nat
    const mayRetry: bool
    const off: int
    var hardErrs: nat
    var redir: nat
    var seen: seq<ConnId>
    var lastconn: ConnId
    /** The handle is out of its pool; `delivered` lists the calls of the user's callback. */
    var live: bool
    var delivered: seq<Result>

    ghost function View(): Budget
      reads this
    {
      Budget(hardErrs, redir, seen, lastconn)
    }

    ghost function Config(): Request {
      Request(connsPerHost, movedRetries, mayRetry, off)
    }

    constructor (connsPerHost: nat, movedRetries: nat, mayRetry: bool, off: int, conn: ConnId)
      ensures View() == Start(conn) && Config() == Request(connsPerHost, movedRetries, mayRetry, off)
      ensures live && delivered == []
    {
      this.connsPerHost, this.movedRetries, this.mayRetry, this.off := connsPerHost, movedRetries, mayRetry, off;
      hardErrs, redir, seen, lastconn := 0, 0, [], conn;
      live, delivered := true, [];
    }

    /** request.resolve: the user's callback, then back to the pool with all fields cleared. */
    method Finish(res: Result) returns (m: Move)
      requires live
      modifies this
      ensures m == Deliver(res) && delivered == old(delivered) + [res]
      ensures !live && hardErrs == 0 && redir == 0 && seen == []
    {
      delivered := delivered + [res];
      hardErrs, redir, seen, live := 0, 0, [], false;
      return Deliver(res);
    }

    /** Handles the outcome of the latest send: either the handle goes on with the budget of the move, or
        the callback is called, once, and the handle is given back. */
    method Resolve(res: Result, env: Env) returns (m: Move)
      requires live && GoodEnv(View(), env)
      modifies this
      ensures live <==> !m.Deliver?
      ensures delivered == old(delivered) + if m.Deliver? then [m.res] else []
      ensures m == RequestMove(Config(), old(View()), res, env) && RequestRule(Config(), old(View()), res, env, m)
      ensures Allowed(RequestLimits(Config()), old(View()), m)
      ensures !m.Deliver? ==> View() == Apply(old(View()), m)
    {
      MovesAllowed(Config(), Transaction(0, 0, 0), View(), false, [], res, env);
      RequestDecides(Config(), View(), res, env);
      if res.Value? {
        m := Finish(res);
        return;
      }
      if env.closed {
        m := Finish(Value(off));
        return;
      }
      if env.cancelled {
        m := Finish(Error(RequestCancelled));
        return;
      }
      var err := res.kind;
      if err.IO? && !mayRetry {
        m := Finish(res);
        return;
      }
      if err.IO? || NotSent(err) {
        var retries := connsPerHost;
        if mayRetry {
          retries := retries * 2;
        }
        if hardErrs >= retries {
          m := Finish(res);
          return;
        }
        hardErrs := IncUint8(hardErrs);
        seen := seen + [lastconn];
        match env.pick {
          case None =>
            m := Finish(Error(NoAliveConnection));
            return;
          case Some(conn) =>
            lastconn := conn;
            return Again(conn);
        }
      }
      if ClusterMove(err) && redir < movedRetries {
        redir := IncUint8(redir);
        hardErrs := 0;
        seen := [];
        match env.target {
          case None =>
            m := Finish(Error(NoAliveConnection));
            return;
          case Some(conn) =>
            lastconn := conn;
            return Redirect(err.addr, conn, err.Ask?, false);
        }
      }
      m := Finish(res);
    }
  }

  /** The loop over the partial replies of an aborted transaction. */
  method ScanReplies(responses: seq<Result>) returns (scan: Scan)
    ensures scan == ScanOf(responses)
  {
    var moved, allmoved, moving, asking := "", true, false, false;
    var i := 0;
    while i < |responses|
      invariant i <= |responses|
      invariant forall k :: 0 <= k < i ==> IsMove(responses[k])
      invariant allmoved
      invariant moved == if i == 0 then "" else MovedTo(responses[i - 1])
      invariant moving == AnyMoved(responses[..i])
      invariant asking == AnyAsk(responses[..i])
    {
      var r := responses[i];
      if !IsMove(r) {
        allmoved := false;
        break;
      }
      moved := MovedTo(r);
      assert responses[..i + 1] == responses[..i] + [r];
      assert responses[..i + 1][i] == r;
      KindsGrow(responses[..i], r);
      if r.kind.Moved? {
        moving := true;
      } else {
        asking := true;
      }
      i := i + 1;
    }
    assert i == |responses| ==> responses[..i] == responses;
    MovePrefixIs(responses, i);
    return Scan(moved, allmoved, moving, asking);
  }

  lemma KindsGrow(rs: seq<Result>, r: Result)
    requires IsMove(r)
    ensures AnyMoved(rs + [r]) <==> AnyMoved(rs) || r.kind.Moved?
    ensures AnyAsk(rs + [r]) <==> AnyAsk(rs) || r.kind.Ask?
  {
    var all := rs + [r];
    assert all[|rs|] == r;
    assert forall i :: 0 <= i < |rs| ==> all[i] == rs[i];
  }

  /** The outcomes of the requests, in order. */
  ghost function OfAttempt(got: map<nat, Result>, n: nat): (rs: seq<Result>)
    requires forall i: nat :: i < n ==> i in got
    ensures |rs| == n && forall i :: 0 <= i < n ==> rs[i] == got[i]
  {
    seq(n, i requires 0 <= i < n => got[i])
  }

  class TransactionHandle {
    const n: nat
    const connsPerHost: nat
    const movedRetries: nat
    var res: seq<Result>
    var hardErrs: nat
    var redir: nat
    var seen: seq<ConnId>
    var lastconn: ConnId
    var asked: bool
    /** The handle is out of its pool; `delivered` lists the calls of the user's callback. */
    var live: bool
    var delivered: seq<Result>
    /** The latest outcome of each index since the last send. */
    ghost var got: map<nat, Result>

    /** The reply array holds the outcomes of this attempt and nothing else. */
    ghost predicate Valid()
      reads this
    {
      && live && |res| == n + 1
      && forall i: nat :: i <= n ==> res[i] == if i in got then got[i] else Value(0)
    }

    ghost function View(): Budget
      reads this
    {
      Budget(hardErrs, redir, seen, lastconn)
    }

    ghost function Config(): Transaction {
      Transaction(n, connsPerHost, movedRetries)
    }

    constructor (n: nat, connsPerHost: nat, movedRetries: nat, conn: ConnId)
      ensures View() == Start(conn) && Config() == Transaction(n, connsPerHost, movedRetries)
      ensures Valid() && got == map[] && !asked && delivered == []
    {
      this.n, this.connsPerHost, this.movedRetries := n, connsPerHost, movedRetries;
      res := seq(n + 1, _ => Value(0));
      hardErrs, redir, seen, lastconn, asked := 0, 0, [], conn, false;
      live, delivered, got := true, [], map[];
    }

    /** transaction.resolve: the user's callback, then back to the pool with all fields cleared. */
    method Finish(r: Result) returns (m: Move)
      requires live
      modifies this
      ensures m == Deliver(r) && delivered == old(delivered) + [r]
      ensures !live && hardErrs == 0 && redir == 0 && seen == [] && !asked && res == []
    {
      delivered := delivered + [r];
      hardErrs, redir, seen, asked, res, live := 0, 0, [], false, [], false;
      return Deliver(r);
    }

    /** A reply to one of the requests joins those of this attempt and decides nothing. */
    method ResolvePartial(r: Result, i: nat)
      requires Valid() && i < n
      modifies this`res, this`got
      ensures Valid() && got == old(got)[i := r]
    {
      res := res[i := r];
      got := got[i := r];
    }

    /** Every request of this attempt has its outcome. */
    ghost predicate Complete()
      reads this
    {
      forall i: nat :: i < n ==> i in got
    }

    /** What holds after a move: the next attempt starts with no outcome, or the callback was called. */
    twostate predicate Moved(m: Move)
      reads this
    {
      && (live <==> !m.Deliver?)
      && delivered == old(delivered) + (if m.Deliver? then [m.res] else [])
      && (!m.Deliver? ==> Valid() && got == map[] && View() == Apply(old(View()), m)
                          && asked == (old(asked) || (m.Redirect? && m.asking)))
    }

    /** The branch for an error that was not sent: another connection of the shard, if any is left. */
    method RetryElsewhere(r: Result, env: Env) returns (m: Move)
      requires Valid() && r.Error?
      modifies this
      ensures m == TryAgainMove(TransactionLimits(Config()), old(View()), r.kind, env) && Moved(m)
    {
      if hardErrs >= connsPerHost {
        m := Finish(r);
        return;
      }
      hardErrs := IncUint8(hardErrs);
      seen := seen + [lastconn];
      match env.pick {
        case None =>
          m := Finish(Error(NoAliveConnection));
        case Some(conn) =>
          lastconn := conn;
          Send(false);
          return Again(conn);
      }
    }

    /** The branch for redirects: follow what the scan found, if it agrees and redirects are left. */
    method FollowScan(r: Result, scan: Scan, env: Env) returns (m: Move)
      requires Valid()
      modifies this
      ensures Moved(m)
      ensures m == if ScanFollows(scan) && old(redir) < movedRetries
                   then RedirectMove(scan.moved, env, scan.asking, !scan.allmoved) else Deliver(r)
    {
      if scan.moved != "" && scan.moving != scan.asking && redir < movedRetries {
        Forget();
        if !scan.allmoved && !scan.asking {
          m := Finish(r);
          return;
        }
        match env.target {
          case None =>
            m := Finish(Error(NoAliveConnection));
          case Some(conn) =>
            lastconn := conn;
            Send(scan.asking);
            m := Redirect(scan.moved, conn, scan.asking, !scan.allmoved);
        }
        return;
      }
      m := Finish(r);
    }

    /** The branch for errors that the server sent. */
    method FollowReply(r: Result, partial: seq<Result>, env: Env) returns (m: Move)
      requires Valid() && r.Error?
      modifies this
      ensures m == ReplyMove(Config(), old(View()), old(asked), partial, r.kind, env) && Moved(m)
    {
      var scan := Scan("", true, false, false);
      if r.kind.Moved? {
        scan := Scan(r.kind.addr, true, true, false);
      } else if r.kind.ExecAbort? {
        scan := ScanReplies(partial);
      } else if r.kind.TryAgain? && redir < movedRetries {
        Forget();
        Send(asked);
        return Redirect("", lastconn, asked, true);
      }
      m := FollowScan(r, scan, env);
    }

    /** The outcome of EXEC decides, with the outcomes of this attempt, about the whole transaction: either
        it is sent again, with no outcome carried over, or the callback is called, once. */
    method ResolveExec(r: Result, env: Env) returns (m: Move)
      requires Valid() && Complete() && GoodEnv(View(), env)
      modifies this
      ensures m == TransactionMove(Config(), old(View()), old(asked), OfAttempt(old(got), n), r, env)
      ensures TransactionRule(Config(), old(View()), old(asked), OfAttempt(old(got), n), r, env, m)
      ensures Allowed(TransactionLimits(Config()), old(View()), m) && Moved(m)
    {
      ghost var outcomes := OfAttempt(got, n);
      MovesAllowed(Request(0, 0, false, 0), Config(), View(), asked, outcomes, r, env);
      TransactionDecides(Config(), View(), asked, outcomes, r, env);
      res := res[n := r];
      var partial := res[..n];
      got := got[n := r];
      assert partial == outcomes;
      if r.Value? {
        m := Finish(r);
        return;
      }
      if env.closed {
        m := Finish(r);
        return;
      }
      if env.cancelled {
        m := Finish(Error(RequestCancelled));
        return;
      }
      var err := r.kind;
      if err.IO? {
        m := Finish(r);
        return;
      }
      if NotSent(err) {
        m := RetryElsewhere(r, env);
        return;
      }
      if !IsReply(err) {
        m := Finish(r);
        return;
      }
      m := FollowReply(r, partial, env);
    }

    /** A redirect starts the hard-error count over. */
    method Forget()
      modifies this`redir, this`hardErrs, this`seen
      ensures redir == IncUint8(old(redir)) && hardErrs == 0 && seen == []
    {
      redir := IncUint8(redir);
      hardErrs := 0;
      seen := [];
    }

    /** transaction.send: a fresh array, so nothing of an earlier attempt is left. */
    method Send(ask: bool)
      requires live
      modifies this`res, this`asked, this`got
      ensures Valid() && got == map[] && asked == (old(asked) || ask)
      ensures forall i :: 0 <= i < |res| ==> res[i] == Value(0)
    {
      res := seq(n + 1, _ => Value(0));
      got := map[];
      if ask {
        asked := true;
      }
    }
  }
}
