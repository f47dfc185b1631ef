/** From the bytes of a reply to what becomes of its request: redis/reader.go under the reader of
    redisconn/conn.go and under the Resolve functions of rediscluster/cluster.go. */
module Replies {
  import opened Errors
  import opened Decimal
  import opened Resp
  import opened Retry
  import ParseSlots
  import Pipeline
  import PipelineCauses

  /** The error type of redis/error.go that the reader makes of an error line. */
  function KindOf(what: ErrorClass): Kind {
    match what
    case PlainError => Plain
    case LoadingError => Loading
    case ExecAbortError => ExecAbort
    case TryAgainError => TryAgain
    case MovedError(_, addr) => Kind.Moved(ParseSlots.AsText(addr))
    case AskError(_, addr) => Kind.Ask(ParseSlots.AsText(addr))
  }

  /** What a future gets of a reply; `payload` stands for its value. */
  function ResultOf(v: Resp.Value, payload: int): Result {
    match v
    case ErrorLine(_, what) => Error(KindOf(what))
    case Broken(fault) => Error(if fault == InputEnded then IO else BadResponse)
    case _ => Result.Value(payload)
  }

  function ReplyTo(bytes: Bytes, payload: int): Result {
    ResultOf(ReadResponse(bytes).0, payload)
  }

  /** Whatever bytes come next, the reader of a socket can take them for a reply; they break the pair exactly
      if they are no reply, and an error reply of any class is handed on like a value. */
  lemma OnlyBrokenRepliesBreak(s: Pipeline.Conn, k: nat, bytes: Bytes, payload: int)
    requires k < |s.pairs| && s.pairs[k].reader.Reading?
    ensures var st := Pipeline.Step.Read(k, ReplyTo(bytes, payload));
      Pipeline.Enabled(s, st) && (PipelineCauses.BreakOf(st, k).Some? <==> ReadResponse(bytes).0.Broken?)
  {}

  // -------------------------------------------------------------- error lines

  predicate Short(text: Bytes) {
    NoLF(text) && |text| + 3 <= BUFFER
  }

  lemma LineReply(text: Bytes, rest: Bytes, payload: int)
    requires Short(text)
    ensures ReplyTo(Sent('-', text) + rest, payload) == ResultOf(ReadError(text), payload)
  {
    LineReplies(text, rest);
  }

  function AskText(slot: int, addr: Bytes): Bytes {
    ASK + IntText(slot) + [SPACE] + addr
  }

  function MovedText(slot: int, addr: Bytes): Bytes {
    MOVED + IntText(slot) + [SPACE] + addr
  }

  lemma AskReply(slot: int, addr: Bytes, rest: Bytes, payload: int)
    requires IsInt64(slot) && NoSpace(addr) && Short(AskText(slot, addr))
    ensures ReplyTo(Sent('-', AskText(slot, addr)) + rest, payload) == Error(Kind.Ask(ParseSlots.AsText(addr)))
  {
    LineReply(AskText(slot, addr), rest, payload);
    AskReads(slot, addr);
  }

  lemma MovedReply(slot: int, addr: Bytes, rest: Bytes, payload: int)
    requires IsInt64(slot) && NoSpace(addr) && Short(MovedText(slot, addr))
    ensures ReplyTo(Sent('-', MovedText(slot, addr)) + rest, payload) == Error(Kind.Moved(ParseSlots.AsText(addr)))
  {
    LineReply(MovedText(slot, addr), rest, payload);
    MovedReads(slot, addr);
  }

  /** "-ASK slot address" sends a request to that very address with ASKING, and "-MOVED slot address" without,
      as long as redirects are left. */
  lemma RedirectLine(slot: int, addr: Bytes, rest: Bytes, payload: int, r: Retry.Request, b: Budget, env: Env)
    requires IsInt64(slot) && NoSpace(addr) && Short(AskText(slot, addr)) && Short(MovedText(slot, addr))
    requires !env.closed && !env.cancelled && env.target.Some? && b.redir < r.movedRetries
    ensures RequestMove(r, b, ReplyTo(Sent('-', AskText(slot, addr)) + rest, payload), env)
            == Redirect(ParseSlots.AsText(addr), env.target.value, true, false)
    ensures RequestMove(r, b, ReplyTo(Sent('-', MovedText(slot, addr)) + rest, payload), env)
            == Redirect(ParseSlots.AsText(addr), env.target.value, false, false)
  {
    AskReply(slot, addr, rest, payload);
    MovedReply(slot, addr, rest, payload);
  }

  /** "-LOADING" sends a request, or as EXEC's reply a transaction, to the next connection, as long as there
      is one and hard errors are left, even a command that must not be repeated. */
  lemma LoadingLine(text: Bytes, rest: Bytes, payload: int, c: Command, b: Budget, asked: bool, partial: seq<Result>,
      env: Env)
    requires Short(text) && StartsWith(text, "LOADING")
    requires !env.closed && !env.cancelled && env.pick.Some? && b.hardErrs < LimitsOf(c).retries
    ensures var res := ReplyTo(Sent('-', text) + rest, payload);
      Decide(c, b, asked, Event(Attempt(res, true, false), partial, env)) == Again(env.pick.value)
  {
    LineReply(text, rest, payload);
    ErrorClasses(text);
  }

  /** "-TRYAGAIN" as EXEC's reply makes a transaction wait and go to the same connection again, with ASKING if
      it ever asked; a single request it fails. */
  lemma TryAgainLine(text: Bytes, rest: Bytes, payload: int, t: Transaction, r: Retry.Request, b: Budget, asked: bool,
      partial: seq<Result>, env: Env)
    requires Short(text) && StartsWith(text, "TRYAGAIN")
    requires !env.closed && !env.cancelled && b.redir < t.movedRetries
    ensures var res := ReplyTo(Sent('-', text) + rest, payload);
      && TransactionMove(t, b, asked, partial, res, env) == Redirect("", b.lastconn, asked, true)
      && RequestMove(r, b, res, env) == Deliver(Error(TryAgain))
  {
    LineReply(text, rest, payload);
    ErrorClasses(text);
  }

  /** "-EXECABORT" makes it follow the redirect that its partial replies agree on. */
  lemma AbortLine(text: Bytes, rest: Bytes, payload: int, t: Transaction, b: Budget, asked: bool, partial: seq<Result>,
      p: nat, addr: string, asking: bool, env: Env)
    requires Short(text) && StartsWith(text, "EXECABORT") && AgreeOn(partial, p, addr, asking)
    requires !env.closed && !env.cancelled && env.target.Some? && b.redir < t.movedRetries
    ensures var res := ReplyTo(Sent('-', text) + rest, payload);
      TransactionMove(t, b, asked, partial, res, env) == Redirect(addr, env.target.value, asking, p < |partial|)
  {
    LineReply(text, rest, payload);
    ErrorClasses(text);
    AbortDecides(t, b, asked, partial, env);
  }
}
