/** The retry and redirect logic of rediscluster/cluster.go.

    Part one is the budget shared by requests and transactions; part two decides, as
    `request.Resolve` and `transaction.Resolve` do, what to do with an outcome. */
module Retry {
  import opened Errors

  type ConnId = nat

  // ----------------------------------------------------------------- budget

  /** The mutable part of a request handle. `hardErrs` and `redir` are uint8 fields. */
  datatype Budget = Budget(hardErrs: nat, redir: nat, seen: seq<ConnId>, lastconn: ConnId)

  /** `maxRedir` is Opts.MovedRetries; `retries` is what `hardErrs` is compared with. */
  datatype Limits = Limits(maxRedir: nat, retries: nat)

  /** What an outcome leads to: another try at the same shard, a redirect, or the user's callback. */
  datatype Move =
    | Again(conn: ConnId)
    | Redirect(addr: string, conn: ConnId, asking: bool, wait: bool)   // `addr` is "" for TRYAGAIN: the same connection
    | Deliver(res: Result)

  function IncUint8(x: nat): nat {
    (x + 1) % 256
  }

  function Start(conn: ConnId): Budget {
    Budget(0, 0, [], conn)
  }

  /** The guards under which the code makes the move; connForSlot never returns a seen connection. */
  predicate Allowed(l: Limits, b: Budget, m: Move) {
    match m
    case Again(c) => b.hardErrs < l.retries && c !in b.seen + [b.lastconn]
    case Redirect(_, _, _, _) => b.redir < l.maxRedir
    case Deliver(_) => true
  }

  function Apply(b: Budget, m: Move): Budget {
    match m
    case Again(c) => Budget(IncUint8(b.hardErrs), b.redir, b.seen + [b.lastconn], c)
    case Redirect(_, c, _, _) => Budget(0, IncUint8(b.redir), [], c)
    case Deliver(_) => b
  }

  /** A run of moves: only the last may deliver. */
  predicate LegalMoves(l: Limits, b: Budget, ms: seq<Move>)
    decreases |ms|
  {
    ms != [] ==> Allowed(l, b, ms[0]) && LegalMoves(l, Apply(b, ms[0]), ms[1..])
                 && (ms[0].Deliver? ==> |ms| == 1)
  }

  /** How many times the command goes out in the moves. */
  function Sends(ms: seq<Move>): nat {
    if ms == [] then 0 else (if ms[0].Deliver? then 0 else 1) + Sends(ms[1..])
  }

  function Delivered(ms: seq<Move>): nat {
    if ms == [] then 0 else (if ms[0].Deliver? then 1 else 0) + Delivered(ms[1..])
  }

  /** The budget cannot wrap around. */
  predicate Bounded(l: Limits) {
    l.maxRedir <= 255 && l.retries <= 255
  }

  predicate Within(l: Limits, b: Budget) {
    b.hardErrs <= l.retries && b.redir <= l.maxRedir
  }

  /** Sends still possible: redirects left, then hard errors left. */
  function Left(l: Limits, b: Budget): nat
    requires Within(l, b)
  {
    (l.maxRedir - b.redir) * (l.retries + 1) + (l.retries - b.hardErrs)
  }

  /** The documented ceiling on sends, the first one included. */
  function MaxSends(l: Limits): nat {
    (l.maxRedir + 1) * (l.retries + 1)
  }

  lemma MoveCosts(l: Limits, b: Budget, m: Move)
    requires Bounded(l) && Within(l, b) && Allowed(l, b, m) && !m.Deliver?
    ensures Within(l, Apply(b, m)) && Left(l, Apply(b, m)) < Left(l, b)
  {
    if m.Redirect? { RedirectCosts(l.maxRedir - b.redir, l.retries, b.hardErrs); }
  }

  lemma RedirectCosts(redirs: nat, retries: nat, used: nat)
    requires redirs > 0 && used <= retries
    ensures (redirs - 1) * (retries + 1) + retries < redirs * (retries + 1) + (retries - used)
  {
    OneLess(redirs, retries + 1);
  }

  lemma OneLess(x: int, y: int)
    ensures x * y == (x - 1) * y + y
  {}

  lemma {:induction false} SendsWithinLeft(l: Limits, b: Budget, ms: seq<Move>)
    requires Bounded(l) && Within(l, b) && LegalMoves(l, b, ms)
    ensures Sends(ms) <= Left(l, b)
    decreases |ms|
  {
    if ms != [] {
      if ms[0].Deliver? {
        assert ms[1..] == [];
      } else {
        MoveCosts(l, b, ms[0]);
        SendsWithinLeft(l, Apply(b, ms[0]), ms[1..]);
      }
    }
  }

  /** Every run makes at most (MovedRetries+1)*(retries+1) sends, the first one included. */
  lemma SendsBounded(l: Limits, conn: ConnId, ms: seq<Move>)
    requires Bounded(l) && LegalMoves(l, Start(conn), ms)
    ensures 1 + Sends(ms) <= MaxSends(l)
  {
    SendsWithinLeft(l, Start(conn), ms);
    OneLess(l.maxRedir + 1, l.retries + 1);
  }

  /** Every outcome is answered by one send or by the one delivery, so a run that cannot go on has
      called the user exactly once. */
  lemma {:induction false} OneDelivery(l: Limits, b: Budget, ms: seq<Move>)
    requires LegalMoves(l, b, ms)
    ensures Sends(ms) + Delivered(ms) == |ms| && Delivered(ms) <= 1
    ensures Delivered(ms) == 1 <==> ms != [] && ms[|ms| - 1].Deliver?
    decreases |ms|
  {
    if ms != [] {
      OneDelivery(l, Apply(b, ms[0]), ms[1..]);
      if |ms| > 1 { assert ms[1..][|ms| - 2] == ms[|ms| - 1]; }
    }
  }

  // Between two redirects no connection is used twice.

  /** The connections the command has gone to since the last redirect. */
  function Tried(b: Budget): seq<ConnId> {
    b.seen + [b.lastconn]
  }

  predicate Distinct(cs: seq<ConnId>) {
    forall i, j :: 0 <= i < j < |cs| ==> cs[i] != cs[j]
  }

  function AfterMoves(b: Budget, ms: seq<Move>): Budget
    decreases |ms|
  {
    if ms == [] then b else AfterMoves(Apply(b, ms[0]), ms[1..])
  }

  /** Since the last redirect the command went to pairwise distinct connections; a retry adds the
      new connection to them and a redirect starts over with its target. */
  lemma {:induction false} TriedDistinct(l: Limits, b: Budget, ms: seq<Move>)
    requires LegalMoves(l, b, ms) && Distinct(Tried(b))
    ensures Distinct(Tried(AfterMoves(b, ms)))
    decreases |ms|
  {
    if ms != [] {
      TriedDistinct(l, Apply(b, ms[0]), ms[1..]);
    }
  }

  // The connections a command can go to are finitely many.

  predicate MovesWithin(ms: seq<Move>, pool: set<ConnId>) {
    forall i :: 0 <= i < |ms| && !ms[i].Deliver? ==> ms[i].conn in pool
  }

  /** The most sends between two redirects: the retries while the uint8 counter can reach their limit,
      and in any case no connection twice. */
  function PerShard(l: Limits, size: nat): nat {
    if l.retries <= 255 && l.retries + 1 <= size then l.retries + 1 else size
  }

  /** The exact ceiling on sends over a pool of connections. */
  function PoolCeiling(l: Limits, size: nat): nat {
    (l.maxRedir + 1) * PerShard(l, size)
  }

  lemma {:induction false} DistinctFits(cs: seq<ConnId>, pool: set<ConnId>)
    requires Distinct(cs) && forall c :: c in cs ==> c in pool
    ensures |cs| <= |pool|
  {
    if cs != [] {
      var n := |cs| - 1;
      assert cs[n] in pool;
      forall c | c in cs[..n] ensures c in pool - {cs[n]} {}
      DistinctFits(cs[..n], pool - {cs[n]});
    }
  }

  predicate Fresh(l: Limits, b: Budget, pool: set<ConnId>) {
    && Distinct(Tried(b)) && (forall c :: c in Tried(b) ==> c in pool)
    && b.redir <= l.maxRedir <= 255
    && (l.retries <= 255 ==> |b.seen| == b.hardErrs <= l.retries)
  }

  lemma FreshKept(l: Limits, b: Budget, m: Move, pool: set<ConnId>)
    requires Fresh(l, b, pool) && Allowed(l, b, m) && !m.Deliver? && m.conn in pool
    ensures Fresh(l, Apply(b, m), pool)
  {}

  lemma FreshFits(l: Limits, b: Budget, pool: set<ConnId>)
    requires Fresh(l, b, pool)
    ensures |Tried(b)| <= PerShard(l, |pool|)
  {
    DistinctFits(Tried(b), pool);
  }

  lemma {:induction false} SendsWithinPool(l: Limits, b: Budget, ms: seq<Move>, pool: set<ConnId>)
    requires Fresh(l, b, pool) && LegalMoves(l, b, ms) && MovesWithin(ms, pool)
    ensures Sends(ms) + |Tried(b)| <= (l.maxRedir - b.redir + 1) * PerShard(l, |pool|)
    decreases |ms|
  {
    FreshFits(l, b, pool);
    OneLess(l.maxRedir - b.redir + 1, PerShard(l, |pool|));
    if ms != [] && !ms[0].Deliver? {
      FreshKept(l, b, ms[0], pool);
      SendsWithinPool(l, Apply(b, ms[0]), ms[1..], pool);
    } else {
      NonNegative(l.maxRedir - b.redir, PerShard(l, |pool|));
      assert ms != [] ==> ms[1..] == [];
    }
  }

  lemma NonNegative(x: nat, y: nat)
    ensures x * y >= 0
  {}

  // -------------------------------------------------------------- decisions

  /** What the surroundings answer while an outcome is handled: the cluster's context, the user's
      future, connForSlot and ensureConnForAddress. */
  datatype Env = Env(closed: bool, cancelled: bool, pick: Option<ConnId>, target: Option<ConnId>)

  predicate GoodEnv(b: Budget, env: Env) {
    env.pick.Some? ==> env.pick.value !in Tried(b)
  }

  datatype Request = Request(connsPerHost: nat, movedRetries: nat, mayRetry: bool, off: int)

  function RequestLimits(r: Request): Limits {
    Limits(r.movedRetries, if r.mayRetry then r.connsPerHost * 2 else r.connsPerHost)
  }

  function TryAgainMove(l: Limits, b: Budget, kind: Kind, env: Env): Move {
    if b.hardErrs >= l.retries then Deliver(Error(kind))
    else match env.pick
      case None => Deliver(Error(NoAliveConnection))
      case Some(c) => Again(c)
  }

  function RedirectMove(addr: string, env: Env, asking: bool, wait: bool): Move {
    match env.target
    case None => Deliver(Error(NoAliveConnection))
    case Some(c) => Redirect(addr, c, asking, wait)
  }

  /** request.Resolve. */
  function RequestMove(r: Request, b: Budget, res: Result, env: Env): Move {
    if res.Value? then Deliver(res)
    else if env.closed then Deliver(Value(r.off))
    else if env.cancelled then Deliver(Error(RequestCancelled))
    else if res.kind.IO? && !r.mayRetry then Deliver(res)
    else if res.kind.IO? || NotSent(res.kind) then TryAgainMove(RequestLimits(r), b, res.kind, env)
    else if ClusterMove(res.kind) && b.redir < r.movedRetries then
      RedirectMove(res.kind.addr, env, res.kind.Ask?, false)
    else Deliver(res)
  }

  datatype Policy = MasterOnly | MasterAndSlaves | PreferSlaves | ForceMasterAndSlaves | ForcePreferSlaves

  /** fixPolicy. */
  function FixPolicy(slotAsking: bool, replicaSafe: bool, policy: Policy): Policy {
    if slotAsking then MasterOnly
    else match policy
      case MasterOnly => MasterOnly
      case ForceMasterAndSlaves => MasterAndSlaves
      case ForcePreferSlaves => PreferSlaves
      case _ => if replicaSafe then policy else MasterOnly
  }

  function MayRetry(slotAsking: bool, replicaSafe: bool, policy: Policy): bool {
    FixPolicy(slotAsking, replicaSafe, policy) != MasterOnly || replicaSafe
  }

  /** A command is retried after an I/O error only if it is listed as replica-safe, or the caller
      forced a replica policy and the slot is not being migrated. */
  lemma RetryOnlyIfSafe(slotAsking: bool, replicaSafe: bool, policy: Policy)
    ensures MayRetry(slotAsking, replicaSafe, policy)
            <==> replicaSafe || (!slotAsking && (policy.ForceMasterAndSlaves? || policy.ForcePreferSlaves?))
  {}

  /** A replica may be asked exactly if the slot is not being migrated and the caller forced that policy, or
      chose it for a replica-safe command; the policy is never one of the forced ones. */
  lemma ReplicaPolicyIff(slotAsking: bool, replicaSafe: bool, policy: Policy)
    ensures FixPolicy(slotAsking, replicaSafe, policy) == PreferSlaves
            <==> !slotAsking && (policy == ForcePreferSlaves || (policy == PreferSlaves && replicaSafe))
    ensures FixPolicy(slotAsking, replicaSafe, policy) == MasterAndSlaves
            <==> !slotAsking && (policy == ForceMasterAndSlaves || (policy == MasterAndSlaves && replicaSafe))
    ensures FixPolicy(slotAsking, replicaSafe, policy) in {MasterOnly, MasterAndSlaves, PreferSlaves}
  {}

  // Transactions.

  datatype Transaction = Transaction(n: nat, connsPerHost: nat, movedRetries: nat)

  function TransactionLimits(t: Transaction): Limits {
    Limits(t.movedRetries, t.connsPerHost)
  }

  predicate IsMove(r: Result) {
    r.Error? && ClusterMove(r.kind)
  }

  /** Length of the longest prefix of MOVED and ASK replies. */
  function MovePrefix(rs: seq<Result>): (p: nat)
    ensures p <= |rs|
    ensures forall i :: 0 <= i < p ==> IsMove(rs[i])
    ensures p < |rs| ==> !IsMove(rs[p])
  {
    if rs != [] && IsMove(rs[0]) then 1 + MovePrefix(rs[1..]) else 0
  }

  predicate AnyMoved(rs: seq<Result>) {
    exists i :: 0 <= i < |rs| && rs[i].Error? && rs[i].kind.Moved?
  }

  predicate AnyAsk(rs: seq<Result>) {
    exists i :: 0 <= i < |rs| && rs[i].Error? && rs[i].kind.Ask?
  }

  function MovedTo(r: Result): string {
    if IsMove(r) then r.kind.addr else ""
  }

  datatype Scan = Scan(moved: string, allmoved: bool, moving: bool, asking: bool)

  /** What the scan of the partial replies of an aborted transaction finds. */
  function ScanOf(rs: seq<Result>): Scan {
    var p := MovePrefix(rs);
    Scan(if p == 0 then "" else MovedTo(rs[p - 1]), p == |rs|, AnyMoved(rs[..p]), AnyAsk(rs[..p]))
  }

  /** What the EXEC reply alone, or the partial replies behind EXECABORT, say about a redirect. */
  function ScanFor(partial: seq<Result>, kind: Kind): Scan {
    match kind
    case Moved(addr) => Scan(addr, true, true, false)
    case ExecAbort => ScanOf(partial)
    case _ => Scan("", true, false, false)
  }

  /** The part of transaction.Resolve for errors that the server sent. */
  function ReplyMove(t: Transaction, b: Budget, asked: bool, partial: seq<Result>, kind: Kind, env: Env): Move {
    if kind.TryAgain? && b.redir < t.movedRetries then Redirect("", b.lastconn, asked, true)
    else
      var scan := ScanFor(partial, kind);
      if scan.moved != "" && scan.moving != scan.asking && b.redir < t.movedRetries
         && (scan.allmoved || scan.asking)
      then RedirectMove(scan.moved, env, scan.asking, !scan.allmoved)
      else Deliver(Error(kind))
  }

  /** transaction.Resolve on the outcome `res` of EXEC. `asked` tells whether ASKING was ever used. */
  function TransactionMove(t: Transaction, b: Budget, asked: bool, partial: seq<Result>, res: Result, env: Env): Move {
    if res.Value? then Deliver(res)
    else if env.closed then Deliver(res)
    else if env.cancelled then Deliver(Error(RequestCancelled))
    else if res.kind.IO? then Deliver(res)
    else if NotSent(res.kind) then TryAgainMove(TransactionLimits(t), b, res.kind, env)
    else if !IsReply(res.kind) then Deliver(res)
    else ReplyMove(t, b, asked, partial, res.kind, env)
  }

  /** Both decisions stay within the budget's guards. */
  lemma MovesAllowed(r: Request, t: Transaction, b: Budget, asked: bool, partial: seq<Result>, res: Result, env: Env)
    requires GoodEnv(b, env)
    ensures Allowed(RequestLimits(r), b, RequestMove(r, b, res, env))
    ensures Allowed(TransactionLimits(t), b, TransactionMove(t, b, asked, partial, res, env))
  {}

  lemma {:induction false} MovePrefixIs(rs: seq<Result>, p: nat)
    requires p <= |rs| && (forall i :: 0 <= i < p ==> IsMove(rs[i]))
    requires p < |rs| ==> !IsMove(rs[p])
    ensures MovePrefix(rs) == p
  {
    if p > 0 { MovePrefixIs(rs[1..], p - 1); }
  }

  predicate AllMoved(rs: seq<Result>) {
    forall i :: 0 <= i < |rs| ==> rs[i].Error? && rs[i].kind.Moved?
  }

  predicate AllAsk(rs: seq<Result>) {
    forall i :: 0 <= i < |rs| ==> rs[i].Error? && rs[i].kind.Ask?
  }

  /** Among redirects, "no ASK" means all MOVED and "no MOVED" means all ASK. */
  lemma RedirectKinds(rs: seq<Result>)
    requires forall i :: 0 <= i < |rs| ==> IsMove(rs[i])
    ensures AllMoved(rs) <==> !AnyAsk(rs)
    ensures AllAsk(rs) <==> !AnyMoved(rs)
    ensures rs != [] ==> (AnyAsk(rs) || AnyMoved(rs)) && !(AllAsk(rs) && AllMoved(rs))
    ensures rs != [] && AllAsk(rs) ==> rs[0].kind.Ask?
    ensures rs != [] && AllMoved(rs) ==> rs[0].kind.Moved?
  {
    assert forall i :: 0 <= i < |rs| ==> rs[i].kind.Ask? || rs[i].kind.Moved?;
    if rs != [] { assert IsMove(rs[0]); }
  }

  /** The first p replies are redirects that agree: all replies MOVED, or the first p ASK. */
  predicate Agree(rs: seq<Result>, p: nat) {
    0 < p <= |rs| && ((AllMoved(rs[..p]) && p == |rs|) || AllAsk(rs[..p]))
  }

  lemma ScanKinds(rs: seq<Result>, p: nat)
    requires 0 < p <= |rs| && forall i :: 0 <= i < p ==> IsMove(rs[i])
    ensures var moving, asking := AnyMoved(rs[..p]), AnyAsk(rs[..p]);
      && (moving != asking && (p == |rs| || asking) <==> Agree(rs, p))
      && rs[0].Error? && (moving != asking ==> (asking <==> rs[0].kind.Ask?))
  {
    assert forall i :: 0 <= i < p ==> rs[..p][i] == rs[i];
    RedirectKinds(rs[..p]);
    assert IsMove(rs[0]) && rs[..p][0] == rs[0];
  }

  predicate ScanFollows(scan: Scan) {
    scan.moved != "" && scan.moving != scan.asking && (scan.allmoved || scan.asking)
  }

  lemma ScanDecides(rs: seq<Result>)
    ensures var p, scan := MovePrefix(rs), ScanOf(rs);
      && (ScanFollows(scan) <==> p > 0 && rs[p - 1].kind.addr != "" && Agree(rs, p))
      && (ScanFollows(scan) ==>
            scan.moved == rs[p - 1].kind.addr && scan.asking == rs[0].kind.Ask? && scan.allmoved == (p == |rs|))
  {
    var p := MovePrefix(rs);
    if p > 0 {
      assert IsMove(rs[p - 1]);
      ScanKinds(rs, p);
    }
  }

  lemma AbortFollowsScan(t: Transaction, b: Budget, asked: bool, partial: seq<Result>, env: Env)
    requires !env.closed && !env.cancelled && b.redir < t.movedRetries && env.target.Some?
    ensures var scan, m := ScanOf(partial), TransactionMove(t, b, asked, partial, Error(ExecAbort), env);
      m == if ScanFollows(scan) then Redirect(scan.moved, env.target.value, scan.asking, !scan.allmoved)
           else Deliver(Error(ExecAbort))
  {}

  /** An aborted transaction, with redirects left, follows its partial replies exactly when they agree
      on the kind of move: all MOVED without exception, or ASK from the first reply up to the first
      reply that is no redirect. It goes to the address of the last redirect before that, with ASKING
      exactly in the second case, and waits exactly if some reply was no redirect. */
  lemma AbortRedirectsIff(t: Transaction, b: Budget, asked: bool, partial: seq<Result>, env: Env)
    requires !env.closed && !env.cancelled && b.redir < t.movedRetries && env.target.Some?
    ensures var p := MovePrefix(partial); var m := TransactionMove(t, b, asked, partial, Error(ExecAbort), env);
      && (m.Redirect? <==> p > 0 && partial[p - 1].kind.addr != "" && Agree(partial, p))
      && (m.Redirect? ==>
            m == Redirect(partial[p - 1].kind.addr, env.target.value, partial[0].kind.Ask?, p < |partial|))
  {
    ScanDecides(partial);
    AbortFollowsScan(t, b, asked, partial, env);
  }

  // ------------------------------------------------- the decisions as tables

  /** The next connection the selection offers, or its error. */
  predicate TriesNext(env: Env, m: Move) {
    m == if env.pick.Some? then Again(env.pick.value) else Deliver(Error(NoAliveConnection))
  }

  /** To the address, if it can be reached; the new connection is not one of those tried before. */
  predicate Follows(addr: string, asking: bool, wait: bool, env: Env, m: Move) {
    m == if env.target.Some? then Redirect(addr, env.target.value, asking, wait) else Deliver(Error(NoAliveConnection))
  }

  /** What request.Resolve owes to every outcome: a value is delivered as it is; what was not sent, or may
      be repeated, is tried elsewhere; MOVED and ASK are followed to their own address, with ASKING for ASK
      and for nothing else; any other error is delivered as it is. */
  predicate RequestRule(r: Request, b: Budget, res: Result, env: Env, m: Move) {
    match res
    case Value(_) => m == Deliver(res)
    case Error(kind) =>
      if env.closed then m == Deliver(Value(r.off))
      else if env.cancelled then m == Deliver(Error(RequestCancelled))
      else match kind
        case IO => if r.mayRetry && b.hardErrs < 2 * r.connsPerHost then TriesNext(env, m) else m == Deliver(res)
        case NotConnected => RetryRule(r, b, res, env, m)
        case DialFailed => RetryRule(r, b, res, env, m)
        case ContextClosed => RetryRule(r, b, res, env, m)
        case Loading => RetryRule(r, b, res, env, m)
        case Moved(addr) => if b.redir < r.movedRetries then Follows(addr, false, false, env, m) else m == Deliver(res)
        case Ask(addr) => if b.redir < r.movedRetries then Follows(addr, true, false, env, m) else m == Deliver(res)
        case _ => m == Deliver(res)
  }

  /** As many hard errors as connections to a host, or twice that for a repeatable command. */
  predicate RetryRule(r: Request, b: Budget, res: Result, env: Env, m: Move) {
    if b.hardErrs < r.connsPerHost || (r.mayRetry && b.hardErrs < 2 * r.connsPerHost) then TriesNext(env, m)
    else m == Deliver(res)
  }

  lemma RequestDecides(r: Request, b: Budget, res: Result, env: Env)
    ensures RequestRule(r, b, res, env, RequestMove(r, b, res, env))
  {}

  /** The partial replies of an aborted transaction agree on a redirect: all of them MOVED, or ASK up to
      the first reply, at p, that is no redirect. The address is the last one. */
  predicate AgreeOn(rs: seq<Result>, p: nat, addr: string, asking: bool) {
    && 0 < p <= |rs| && addr != "" && rs[p - 1] == Error(if asking then Ask(addr) else Moved(addr))
    && (forall i :: 0 <= i < p ==> rs[i].Error? && if asking then rs[i].kind.Ask? else rs[i].kind.Moved?)
    && (p < |rs| ==> asking && !(rs[p].Error? && (rs[p].kind.Moved? || rs[p].kind.Ask?)))
  }

  /** What transaction.Resolve owes to EXECABORT: it follows what the partial replies agree on, waiting if
      one of them was no redirect, and delivers the error if they do not agree. */
  ghost predicate AbortRule(t: Transaction, b: Budget, partial: seq<Result>, res: Result, env: Env, m: Move) {
    if b.redir < t.movedRetries && (exists p: nat, addr, asking :: AgreeOn(partial, p, addr, asking)) then
      forall p: nat, addr, asking :: AgreeOn(partial, p, addr, asking) ==> Follows(addr, asking, p < |partial|, env, m)
    else m == Deliver(res)
  }

  /** And to every outcome of EXEC: TRYAGAIN is waited out on the same connection, with ASKING if ASKING
      was ever used; MOVED is followed without it; an I/O error is never retried. */
  ghost predicate TransactionRule(t: Transaction, b: Budget, asked: bool, partial: seq<Result>, res: Result, env: Env,
      m: Move) {
    match res
    case Value(_) => m == Deliver(res)
    case Error(kind) =>
      if env.closed then m == Deliver(res)
      else if env.cancelled then m == Deliver(Error(RequestCancelled))
      else match kind
        case NotConnected => ResendRule(t, b, res, env, m)
        case DialFailed => ResendRule(t, b, res, env, m)
        case ContextClosed => ResendRule(t, b, res, env, m)
        case Loading => ResendRule(t, b, res, env, m)
        case TryAgain =>
          m == if b.redir < t.movedRetries then Redirect("", b.lastconn, asked, true) else Deliver(res)
        case Moved(addr) =>
          if b.redir < t.movedRetries && addr != "" then Follows(addr, false, false, env, m) else m == Deliver(res)
        case ExecAbort => AbortRule(t, b, partial, res, env, m)
        case _ => m == Deliver(res)
  }

  predicate ResendRule(t: Transaction, b: Budget, res: Result, env: Env, m: Move) {
    if b.hardErrs < t.connsPerHost then TriesNext(env, m) else m == Deliver(res)
  }

  lemma AgreedPrefix(rs: seq<Result>, p: nat, addr: string, asking: bool)
    requires AgreeOn(rs, p, addr, asking)
    ensures p == MovePrefix(rs) && Agree(rs, p) && rs[p - 1].kind.addr == addr && rs[0].kind.Ask? == asking
  {
    MovePrefixIs(rs, p);
    assert forall i :: 0 <= i < p ==> rs[..p][i] == rs[i];
  }

  lemma PrefixAgreed(rs: seq<Result>)
    requires var p := MovePrefix(rs); p > 0 && rs[p - 1].kind.addr != "" && Agree(rs, p)
    ensures var p := MovePrefix(rs); AgreeOn(rs, p, rs[p - 1].kind.addr, rs[0].kind.Ask?)
  {
    var p := MovePrefix(rs);
    assert forall i :: 0 <= i < p ==> rs[..p][i] == rs[i];
  }

  lemma AbortDecides(t: Transaction, b: Budget, asked: bool, partial: seq<Result>, env: Env)
    requires !env.closed && !env.cancelled
    ensures AbortRule(t, b, partial, Error(ExecAbort), env,
                      TransactionMove(t, b, asked, partial, Error(ExecAbort), env))
  {
    ScanDecides(partial);
    if ScanFollows(ScanOf(partial)) { PrefixAgreed(partial); }
    forall p: nat, addr, asking | AgreeOn(partial, p, addr, asking)
      ensures ScanFollows(ScanOf(partial)) && ScanOf(partial) == Scan(addr, p == |partial|, !asking, asking)
    {
      AgreedPrefix(partial, p, addr, asking);
    }
  }

  lemma TransactionDecides(t: Transaction, b: Budget, asked: bool, partial: seq<Result>, res: Result, env: Env)
    ensures TransactionRule(t, b, asked, partial, res, env, TransactionMove(t, b, asked, partial, res, env))
  {
    if res == Error(ExecAbort) && !env.closed && !env.cancelled { AbortDecides(t, b, asked, partial, env); }
  }

  // ------------------------------------------------------ at-most-once

  /** One try: the outcome that decides, whether the command's bytes were passed to Write, and
      whether the server executed it. */
  datatype Attempt = Attempt(res: Result, written: bool, executed: bool)

  /** The connection's promise, proved in module Composition. */
  predicate ConnPromise(a: Attempt) {
    a.res.Error? && NotSent(a.res.kind) && !a.res.kind.Loading? ==> !a.written
  }

  /** Replies by which a server turns a command away. */
  predicate MeansNotExecuted(k: Kind) {
    ClusterMove(k) || k.Loading? || k.TryAgain? || k.ExecAbort?
  }

  /** The server's side of the redirections: such a reply means the command was not executed. */
  predicate ServerPromise(a: Attempt) {
    && (a.executed ==> a.written)
    && (a.res.Error? && MeansNotExecuted(a.res.kind) ==> !a.executed)
  }

  datatype Event = Event(attempt: Attempt, partial: seq<Result>, env: Env)

  datatype Command = Single(r: Request) | Tx(t: Transaction)

  function LimitsOf(c: Command): Limits {
    match c
    case Single(r) => RequestLimits(r)
    case Tx(t) => TransactionLimits(t)
  }

  function Decide(c: Command, b: Budget, asked: bool, ev: Event): Move {
    match c
    case Single(r) => RequestMove(r, b, ev.attempt.res, ev.env)
    case Tx(t) => TransactionMove(t, b, asked, ev.partial, ev.attempt.res, ev.env)
  }

  /** A run of the command: each event is the outcome of the latest send; after the delivery there
      is no other. */
  predicate LegalRun(c: Command, b: Budget, asked: bool, evs: seq<Event>)
    decreases |evs|
  {
    evs != [] ==>
      var m := Decide(c, b, asked, evs[0]);
      GoodEnv(b, evs[0].env)
      && (m.Deliver? ==> |evs| == 1)
      && LegalRun(c, Apply(b, m), asked || (m.Redirect? && m.asking), evs[1..])
  }

  function MovesOf(c: Command, b: Budget, asked: bool, evs: seq<Event>): (ms: seq<Move>)
    ensures |ms| == |evs|
    decreases |evs|
  {
    if evs == [] then []
    else
      var m := Decide(c, b, asked, evs[0]);
      [m] + MovesOf(c, Apply(b, m), asked || (m.Redirect? && m.asking), evs[1..])
  }

  lemma {:induction false} RunMovesLegal(c: Command, b: Budget, asked: bool, evs: seq<Event>)
    requires LegalRun(c, b, asked, evs)
    ensures LegalMoves(LimitsOf(c), b, MovesOf(c, b, asked, evs))
    decreases |evs|
  {
    if evs != [] {
      var m := Decide(c, b, asked, evs[0]);
      RunMovesLegal(c, Apply(b, m), asked || (m.Redirect? && m.asking), evs[1..]);
      assert MovesOf(c, b, asked, evs)[1..] == MovesOf(c, Apply(b, m), asked || (m.Redirect? && m.asking), evs[1..]);
    }
  }

  /** Every connection that the surroundings offer is in the pool. */
  predicate OffersOnly(evs: seq<Event>, pool: set<ConnId>) {
    forall i :: 0 <= i < |evs| ==>
      && (evs[i].env.pick.Some? ==> evs[i].env.pick.value in pool)
      && (evs[i].env.target.Some? ==> evs[i].env.target.value in pool)
  }

  lemma DecidedWithin(c: Command, b: Budget, asked: bool, ev: Event, pool: set<ConnId>)
    requires b.lastconn in pool && OffersOnly([ev], pool)
    ensures var m := Decide(c, b, asked, ev); !m.Deliver? ==> m.conn in pool
  {
    assert [ev][0] == ev;
  }

  lemma {:induction false} RunMovesWithin(c: Command, b: Budget, asked: bool, evs: seq<Event>, pool: set<ConnId>)
    requires LegalRun(c, b, asked, evs) && OffersOnly(evs, pool) && b.lastconn in pool
    ensures MovesWithin(MovesOf(c, b, asked, evs), pool)
    decreases |evs|
  {
    if evs != [] {
      var m := Decide(c, b, asked, evs[0]);
      DecidedWithin(c, b, asked, evs[0], pool);
      RunMovesWithin(c, Apply(b, m), asked || (m.Redirect? && m.asking), evs[1..], pool);
    }
  }

  /** A run of a request or a transaction over the connections of the pool. */
  predicate RunOver(c: Command, conn: ConnId, evs: seq<Event>, pool: set<ConnId>) {
    conn in pool && LegalRun(c, Start(conn), false, evs) && OffersOnly(evs, pool)
  }

  function RunSends(c: Command, conn: ConnId, evs: seq<Event>): nat {
    1 + Sends(MovesOf(c, Start(conn), false, evs))
  }

  lemma RunFitsPool(c: Command, conn: ConnId, evs: seq<Event>, pool: set<ConnId>)
    requires RunOver(c, conn, evs, pool) && LimitsOf(c).maxRedir <= 255
    ensures RunSends(c, conn, evs) <= PoolCeiling(LimitsOf(c), |pool|)
  {
    RunMovesLegal(c, Start(conn), false, evs);
    RunMovesWithin(c, Start(conn), false, evs, pool);
    SendsWithinPool(LimitsOf(c), Start(conn), MovesOf(c, Start(conn), false, evs), pool);
  }

  /** Main bound: any run of a request or a transaction, whatever its retry limit, sends at most
      (MovedRetries+1) times the smaller of retries+1 and the number of connections, never twice to one
      connection between redirects, and has delivered exactly once when it stops sending. */
  lemma RunsTerminate(c: Command, conn: ConnId, evs: seq<Event>, pool: set<ConnId>)
    requires RunOver(c, conn, evs, pool) && LimitsOf(c).maxRedir <= 255
    ensures var ms := MovesOf(c, Start(conn), false, evs); var ceiling := PoolCeiling(LimitsOf(c), |pool|);
      && 1 + Sends(ms) <= ceiling && |evs| <= ceiling
      && Delivered(ms) == |evs| - Sends(ms) <= 1
      && Distinct(Tried(AfterMoves(Start(conn), ms)))
  {
    var ms := MovesOf(c, Start(conn), false, evs);
    RunFitsPool(c, conn, evs, pool);
    RunMovesLegal(c, Start(conn), false, evs);
    OneDelivery(LimitsOf(c), Start(conn), ms);
    TriedDistinct(LimitsOf(c), Start(conn), ms);
  }

  // The ceiling is reached: every connection in turn refuses, then the shard redirects, over and over.

  function RefusedEvent(next: ConnId): Event {
    Event(Attempt(Error(NotConnected), false, false), [], Env(false, false, Some(next), None))
  }

  function MovedEvent(target: ConnId): Event {
    Event(Attempt(Error(Moved("a")), true, false), [], Env(false, false, None, Some(target)))
  }

  /** The outcomes from the i-th connection on, with m retries to each shard and `redirs` redirects to go. */
  function Busiest(cs: seq<ConnId>, m: nat, i: nat, redirs: nat): seq<Event>
    requires i <= m < |cs|
    decreases redirs, m - i
  {
    if i < m then [RefusedEvent(cs[i + 1])] + Busiest(cs, m, i + 1, redirs)
    else if redirs == 0 then []
    else [MovedEvent(cs[0])] + Busiest(cs, m, 0, redirs - 1)
  }

  predicate BusyAt(l: Limits, b: Budget, cs: seq<ConnId>, i: nat, redirs: nat)
    requires i < |cs|
  {
    redirs <= l.maxRedir && b == Budget(i % 256, l.maxRedir - redirs, cs[..i], cs[i])
  }

  lemma RefusedMove(c: Command, b: Budget, asked: bool, cs: seq<ConnId>, i: nat, redirs: nat)
    requires i + 1 < |cs| && Distinct(cs) && BusyAt(LimitsOf(c), b, cs, i, redirs) && i % 256 < LimitsOf(c).retries
    ensures var m := Decide(c, b, asked, RefusedEvent(cs[i + 1]));
      m == Again(cs[i + 1]) && GoodEnv(b, RefusedEvent(cs[i + 1]).env)
        && BusyAt(LimitsOf(c), Apply(b, m), cs, i + 1, redirs)
  {
    assert cs[..i] + [cs[i]] == cs[..i + 1];
    assert Tried(b) == cs[..i + 1];
    assert forall k :: 0 <= k <= i ==> cs[..i + 1][k] == cs[k];
  }

  lemma MovedMove(c: Command, b: Budget, asked: bool, cs: seq<ConnId>, i: nat, redirs: nat)
    requires i < |cs| && BusyAt(LimitsOf(c), b, cs, i, redirs) && 0 < redirs && LimitsOf(c).maxRedir <= 255
    ensures var m := Decide(c, b, asked, MovedEvent(cs[0]));
      m == Redirect("a", cs[0], false, false) && GoodEnv(b, MovedEvent(cs[0]).env)
      && BusyAt(LimitsOf(c), Apply(b, m), cs, 0, redirs - 1)
  {}

  lemma RunFrom(c: Command, b: Budget, asked: bool, ev: Event, rest: seq<Event>)
    requires var m := Decide(c, b, asked, ev);
      && !m.Deliver? && GoodEnv(b, ev.env)
      && LegalRun(c, Apply(b, m), asked || (m.Redirect? && m.asking), rest)
      && Sends(MovesOf(c, Apply(b, m), asked || (m.Redirect? && m.asking), rest)) == |rest|
    ensures LegalRun(c, b, asked, [ev] + rest) && Sends(MovesOf(c, b, asked, [ev] + rest)) == |rest| + 1
  {
    assert ([ev] + rest)[1..] == rest;
    var m := Decide(c, b, asked, ev);
    var later := MovesOf(c, Apply(b, m), asked || (m.Redirect? && m.asking), rest);
    assert MovesOf(c, b, asked, [ev] + rest) == [m] + later;
    assert ([m] + later)[1..] == later;
  }

  lemma {:induction false} BusiestRuns(c: Command, b: Budget, asked: bool, cs: seq<ConnId>, m: nat, i: nat, redirs: nat)
    requires i <= m < |cs| && Distinct(cs) && BusyAt(LimitsOf(c), b, cs, i, redirs)
    requires LimitsOf(c).maxRedir <= 255 && (m <= LimitsOf(c).retries || LimitsOf(c).retries >= 256)
    ensures var evs := Busiest(cs, m, i, redirs);
      LegalRun(c, b, asked, evs) && Sends(MovesOf(c, b, asked, evs)) == |evs|
    decreases redirs, m - i
  {
    if i < m {
      RefusedMove(c, b, asked, cs, i, redirs);
      BusiestRuns(c, Apply(b, Again(cs[i + 1])), asked, cs, m, i + 1, redirs);
      RunFrom(c, b, asked, RefusedEvent(cs[i + 1]), Busiest(cs, m, i + 1, redirs));
    } else if redirs > 0 {
      MovedMove(c, b, asked, cs, i, redirs);
      BusiestRuns(c, Apply(b, Redirect("a", cs[0], false, false)), asked, cs, m, 0, redirs - 1);
      RunFrom(c, b, asked, MovedEvent(cs[0]), Busiest(cs, m, 0, redirs - 1));
    }
  }

  lemma {:induction false} BusiestCount(cs: seq<ConnId>, m: nat, i: nat, redirs: nat)
    requires i <= m < |cs|
    ensures i + 1 + |Busiest(cs, m, i, redirs)| == (redirs + 1) * (m + 1)
    ensures forall x :: x in Busiest(cs, m, i, redirs) ==>
              exists y :: 0 <= y < |cs| && (x == RefusedEvent(cs[y]) || x == MovedEvent(cs[y]))
    decreases redirs, m - i
  {
    if i < m {
      BusiestCount(cs, m, i + 1, redirs);
    } else if redirs > 0 {
      BusiestCount(cs, m, 0, redirs - 1);
      OneLess(redirs + 1, m + 1);
    }
  }

  /** The pool in some order, from `conn` on. */
  lemma {:induction false} Listing(conn: ConnId, pool: set<ConnId>) returns (cs: seq<ConnId>)
    requires conn in pool
    ensures |cs| == |pool| && cs[0] == conn && Distinct(cs) && forall c :: c in cs ==> c in pool
    decreases |pool|
  {
    var rest := pool - {conn};
    if rest == {} {
      assert pool == {conn};
      cs := [conn];
    } else {
      var next :| next in rest;
      var more := Listing(next, rest);
      cs := [conn] + more;
    }
  }

  /** Some run of outcomes makes as many sends as the ceiling allows. */
  lemma CeilingReached(c: Command, conn: ConnId, pool: set<ConnId>) returns (evs: seq<Event>)
    requires conn in pool && LimitsOf(c).maxRedir <= 255
    ensures RunOver(c, conn, evs, pool) && RunSends(c, conn, evs) == PoolCeiling(LimitsOf(c), |pool|)
  {
    var l := LimitsOf(c);
    var cs := Listing(conn, pool);
    var m := PerShard(l, |pool|) - 1;
    evs := Busiest(cs, m, 0, l.maxRedir);
    assert cs[..0] == [];
    BusiestRuns(c, Start(conn), false, cs, m, 0, l.maxRedir);
    BusiestCount(cs, m, 0, l.maxRedir);
    BusiestOffers(cs, m, l.maxRedir, pool);
  }

  lemma BusiestOffers(cs: seq<ConnId>, m: nat, redirs: nat, pool: set<ConnId>)
    requires m < |cs| && forall c :: c in cs ==> c in pool
    ensures OffersOnly(Busiest(cs, m, 0, redirs), pool)
  {
    var evs := Busiest(cs, m, 0, redirs);
    BusiestCount(cs, m, 0, redirs);
    forall i | 0 <= i < |evs| ensures OffersOnly([evs[i]], pool) {
      assert evs[i] in evs;
      var y :| 0 <= y < |cs| && (evs[i] == RefusedEvent(cs[y]) || evs[i] == MovedEvent(cs[y]));
      assert cs[y] in cs;
    }
    assert forall i :: 0 <= i < |evs| ==> [evs[i]][0] == evs[i];
  }

  ghost predicate KeepsTo(c: Command, conn: ConnId, pool: set<ConnId>, n: nat) {
    forall evs :: RunOver(c, conn, evs, pool) ==> RunSends(c, conn, evs) <= n
  }

  /** Every run keeps to (MovedRetries+1)*(retries+1) sends exactly when the retry limit fits the uint8
      counter, or there are too few connections to exceed it. */
  lemma DocumentedCeilingIff(c: Command, conn: ConnId, pool: set<ConnId>)
    requires conn in pool && LimitsOf(c).maxRedir <= 255
    ensures KeepsTo(c, conn, pool, MaxSends(LimitsOf(c)))
            <==> LimitsOf(c).retries <= 255 || |pool| <= LimitsOf(c).retries + 1
  {
    var l := LimitsOf(c);
    PoolAgainstDocumented(l, |pool|);
    if PoolCeiling(l, |pool|) <= MaxSends(l) {
      forall evs | RunOver(c, conn, evs, pool) ensures RunSends(c, conn, evs) <= MaxSends(l) {
        RunFitsPool(c, conn, evs, pool);
      }
    } else {
      var evs := CeilingReached(c, conn, pool);
      assert RunSends(c, conn, evs) > MaxSends(l);
    }
  }

  lemma PoolAgainstDocumented(l: Limits, size: nat)
    ensures PoolCeiling(l, size) <= MaxSends(l) <==> l.retries <= 255 || size <= l.retries + 1
  {
    if l.retries <= 255 || size <= l.retries + 1 {
      TimesMore(l.maxRedir + 1, PerShard(l, size), l.retries + 1);
    } else {
      TimesMore(l.maxRedir + 1, l.retries + 2, size);
      OneLess(l.retries + 2, l.maxRedir + 1);
    }
  }

  lemma TimesMore(k: nat, x: nat, y: nat)
    requires x <= y
    ensures k * x <= k * y
  {
    assert k * y == k * x + k * (y - x);
    NonNegative(k, y - x);
  }

  predicate NeverTwice(c: Command) {
    c.Single? ==> !c.r.mayRetry
  }

  /** A write is sent again only after an outcome that proves it was not executed. */
  lemma ResendMeansNotExecuted(c: Command, b: Budget, asked: bool, ev: Event)
    requires NeverTwice(c) && ConnPromise(ev.attempt) && ServerPromise(ev.attempt)
    requires !Decide(c, b, asked, ev).Deliver?
    ensures !ev.attempt.executed
  {}

  /** At-most-once execution: over any run of retries and redirects of a write or a transaction only
      the last attempt can have been executed by a server. */
  lemma {:induction false} ExecutedAtMostOnce(c: Command, b: Budget, asked: bool, evs: seq<Event>, i: nat, j: nat)
    requires NeverTwice(c) && LegalRun(c, b, asked, evs)
    requires forall k :: 0 <= k < |evs| ==> ConnPromise(evs[k].attempt) && ServerPromise(evs[k].attempt)
    requires i < |evs| && j < |evs| && evs[i].attempt.executed && evs[j].attempt.executed
    ensures i == j == |evs| - 1
    decreases |evs|
  {
    if |evs| > 1 {
      var m := Decide(c, b, asked, evs[0]);
      ResendMeansNotExecuted(c, b, asked, evs[0]);
      ExecutedAtMostOnce(c, Apply(b, m), asked || (m.Redirect? && m.asking), evs[1..], i - 1, j - 1);
    }
  }
}
