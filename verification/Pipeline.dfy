/** The pipelined connection of redisconn/conn.go as a state machine.

    Senders append whole batches of futures to one queue; each socket has a
    writer, which swaps the queue out, writes it and hands it to a channel, and a
    reader, which pairs replies with futures. Reconnects leave old pairs alive
    beside the new one. Every step below is one atomic action of the code: a
    critical section of `futmtx`, a channel operation, a socket operation, or a
    store to `state`. Whatever the network does is a parameter of the step. */
module Pipeline {
  import opened Errors

  // ---------------------------------------------------------------- futures

  datatype What = Asking | Multi | Req(i: nat) | Exec(n: nat)

  /** One entry of the queue: position `pos` of the submission numbered `batch`. */
  datatype Future = Future(batch: nat, pos: nat, what: What)

  /** What one call of SendAsk or SendBatchFlags puts in line. */
  datatype Sub = Sub(n: nat, asking: bool, multi: bool, exec: bool)

  function Whats(sub: Sub): seq<What> {
    (if sub.asking then [Asking] else []) + (if sub.multi then [Multi] else [])
    + seq(sub.n, i requires 0 <= i => Req(i))
    + (if sub.exec then [Exec(sub.n)] else [])
  }

  function Futures(batch: nat, sub: Sub): seq<Future> {
    var w := Whats(sub);
    seq(|w|, p requires 0 <= p < |w| => Future(batch, p, w[p]))
  }

  predicate Before(a: Future, b: Future) {
    a.batch < b.batch || (a.batch == b.batch && a.pos < b.pos)
  }

  predicate Increasing(fs: seq<Future>) {
    forall i, j :: 0 <= i < j < |fs| ==> Before(fs[i], fs[j])
  }

  // ------------------------------------------------------------------ state

  datatype Phase = Disconnected | Connecting | Connected | Closed

  /** What the holder of `conn.mutex` has under way. */
  datatype Control = Idle | Dialing | Dialed | Dropping(err: Kind)

  datatype Writer = Waiting | Woken | Holding | Wrote | Leaving | Gone
  datatype Reader = Reading | HasReply(res: Result) | Draining | Finished | Crashed

  /** One socket with its goroutines (`oneconn`). `written`, `done` and `read`
      are histories: futures passed to Write, futures resolved by the reader, and
      answers the socket delivered. */
  datatype Pair = Pair(
    writer: Writer, batch: seq<Future>,
    chan: seq<seq<Future>>,
    reader: Reader, rest: seq<Future>,
    failure: Option<Kind>,
    written: seq<Future>, done: seq<Future>, read: seq<Result>)

  /** Where the futures of a submission are. */
  datatype Place = Queued | Rejected | Dropped | OnPair(k: nat)

  datatype Resolution = Resolution(fut: Future, res: Result)

  datatype Conn = Conn(
    phase: Phase, control: Control, current: Option<nat>,
    queue: seq<Future>, token: bool, signalClosed: bool,
    pairs: seq<Pair>,
    subs: seq<Sub>, home: seq<Place>, log: seq<Resolution>)

  const CHANNEL_CAPACITY: nat := 64

  function Init(): Conn {
    Conn(Disconnected, Idle, None, [], false, false, [], [], [], [])
  }

  function NewPair(): Pair {
    Pair(Waiting, [], [], Reading, [], None, [], [], [])
  }

  // ------------------------------------------------------------------ steps

  /** Outcome of the checks made before the queue is locked. */
  datatype Check = Fine | Cancelled | Malformed(pos: nat)

  datatype Step =
    | Submit(n: nat, asking: bool, tx: bool, check: Check)
    | Wake(k: nat)                       // the writer consumes the wake token
    | Stray(k: nat)                      // the writer wakes on a stale timer tick
    | Take(k: nat)                       // swap the queue out
    | Write(k: nat, ok: bool)
    | Push(k: nat)                       // one.futures <- futures
    | Stop(k: nat)                       // control or futsignal is closed
    | Leave(k: nat)                      // deferred send, then close(one.futures)
    | Read(k: nat, res: Result)          // ReadResponse returned
    | Fetch(k: nat)                      // receive from one.futures
    | Drain(k: nat)
    | StartDial | DialOk | DialFail | Publish
    | Lost(k: nat)                       // reconnect closes the current socket
    | Shutdown                           // control sees the context done
    | Drop                               // dropFutures under futmtx

  function Inflight(p: Pair): seq<Future> {
    if p.writer.Wrote? || p.writer.Leaving? then p.batch else []
  }

  /** All futures the writer of this pair ever swapped out of the queue. */
  function Taken(p: Pair): seq<Future> {
    p.written + if p.writer.Holding? then p.batch else []
  }

  predicate Enabled(s: Conn, st: Step) {
    match st
    case Submit(n, asking, tx, check) => check.Malformed? ==> check.pos < n
    case Wake(k) => k < |s.pairs| && s.pairs[k].writer.Waiting? && s.token && !s.signalClosed
    case Stray(k) => k < |s.pairs| && s.pairs[k].writer.Waiting?
    case Take(k) => k < |s.pairs| && s.pairs[k].writer.Woken?
    case Write(k, ok) => k < |s.pairs| && s.pairs[k].writer.Holding?
    case Push(k) => k < |s.pairs| && s.pairs[k].writer.Wrote? && |s.pairs[k].chan| < CHANNEL_CAPACITY
    case Stop(k) => k < |s.pairs| && s.pairs[k].writer.Waiting? && (s.pairs[k].failure.Some? || s.signalClosed)
    case Leave(k) => k < |s.pairs| && s.pairs[k].writer.Leaving?
                     && (s.pairs[k].batch == [] || |s.pairs[k].chan| < CHANNEL_CAPACITY)
    case Read(k, res) => k < |s.pairs| && s.pairs[k].reader.Reading?
                         && (IsAnswer(res) || res.kind.IO? || res.kind.BadResponse?)
    case Fetch(k) => k < |s.pairs| && s.pairs[k].reader.HasReply?
                     && (s.pairs[k].chan != [] || s.pairs[k].writer.Gone?)
    case Drain(k) => k < |s.pairs| && s.pairs[k].reader.Draining?
                     && (s.pairs[k].rest != [] || s.pairs[k].chan != [] || s.pairs[k].writer.Gone?)
    case StartDial => s.control.Idle? && s.current.None? && s.phase.Disconnected?
    case DialOk => s.control.Dialing?
    case DialFail => s.control.Dialing?
    case Publish => s.control.Dialed?
    case Lost(k) => s.control.Idle? && !s.phase.Closed? && s.current == Some(k)
                    && k < |s.pairs| && s.pairs[k].failure.Some?
    case Shutdown => s.control.Idle? && !s.phase.Closed?
    case Drop => s.control.Dropping?
  }

  // Submission: SendAsk, SendBatchFlags.

  /** Why a submission is turned away, if it is: `doSend` and `doSendBatch` in order. */
  function Refusal(s: Conn, n: nat, check: Check): Option<Kind> {
    if check.Malformed? then Some(BatchFormat)
    else if check.Cancelled? then Some(RequestCancelled)
    else if n == 0 then None
    else if s.phase.Closed? then Some(ContextClosed)
    else if s.phase.Disconnected? then Some(NotConnected)
    else None
  }

  /** What the future of a refused submission gets. A batch of no requests is answered at once. */
  function RefusalResult(f: Future, refusal: Option<Kind>, check: Check): Result {
    if refusal.None? then Value(0)
    else if check.Malformed? && f.what == Req(check.pos) then Error(BadRequest)
    else Error(refusal.value)
  }

  function ResolveAll(fs: seq<Future>, r: Future -> Result): (log: seq<Resolution>)
    ensures |log| == |fs|
    ensures forall i :: 0 <= i < |fs| ==> log[i] == Resolution(fs[i], r(fs[i]))
  {
    seq(|fs|, i requires 0 <= i < |fs| => Resolution(fs[i], r(fs[i])))
  }

  function DoSubmit(s: Conn, n: nat, asking: bool, tx: bool, check: Check): Conn {
    var refusal := Refusal(s, n, check);
    if refusal.Some? || n == 0 then
      var sub := Sub(n, false, false, tx);
      s.(subs := s.subs + [sub], home := s.home + [Rejected],
         log := s.log + ResolveAll(Futures(|s.subs|, sub), f => RefusalResult(f, refusal, check)))
    else
      var sub := Sub(n, asking, tx, tx);
      s.(subs := s.subs + [sub], home := s.home + [Queued],
         token := s.token || s.queue == [],
         queue := s.queue + Futures(|s.subs|, sub))
  }

  // The writer.

  function MoveQueued(home: seq<Place>, to: Place): (moved: seq<Place>)
    ensures |moved| == |home|
    ensures forall b :: 0 <= b < |home| ==> moved[b] == if home[b] == Queued then to else home[b]
  {
    seq(|home|, b requires 0 <= b < |home| => if home[b] == Queued then to else home[b])
  }

  function DoTake(s: Conn, k: nat): Conn
    requires k < |s.pairs|
  {
    if s.queue == [] then s.(pairs := s.pairs[k := s.pairs[k].(writer := Waiting)])
    else s.(pairs := s.pairs[k := s.pairs[k].(writer := Holding, batch := s.queue)],
            queue := [], home := MoveQueued(s.home, OnPair(k)))
  }

  /** `erronce`: only the first failure of a pair is kept. */
  function Fail(p: Pair, err: Kind): Pair {
    if p.failure.Some? then p else p.(failure := Some(err))
  }

  function DoWrite(p: Pair, ok: bool): Pair {
    var q := p.(written := p.written + p.batch);
    if ok then q.(writer := Wrote) else Fail(q, IO).(writer := Leaving)
  }

  function DoLeave(p: Pair): Pair {
    p.(writer := Gone, batch := [], chan := if p.batch == [] then p.chan else p.chan + [p.batch])
  }

  // The reader.

  /** Hands the oldest future the reader holds over for resolution. */
  function Answered(p: Pair): Pair
    requires p.rest != []
  {
    p.(reader := Reading, rest := p.rest[1..], done := p.done + [p.rest[0]])
  }

  function DoRead(s: Conn, k: nat, res: Result): Conn
    requires k < |s.pairs|
  {
    var p := s.pairs[k];
    if !IsAnswer(res) then s.(pairs := s.pairs[k := Fail(p, res.kind).(reader := Draining)])
    else
      var q := p.(read := p.read + [res]);
      if p.rest == [] then s.(pairs := s.pairs[k := q.(reader := HasReply(res))])
      else s.(pairs := s.pairs[k := Answered(q)], log := s.log + [Resolution(p.rest[0], res)])
  }

  function DoFetch(s: Conn, k: nat): Conn
    requires k < |s.pairs| && s.pairs[k].reader.HasReply?
  {
    var p := s.pairs[k];
    if p.chan == [] then s.(pairs := s.pairs[k := p.(reader := Draining)])
    else if p.chan[0] == [] then s.(pairs := s.pairs[k := p.(reader := Crashed)])  // futures[i] out of range
    else
      var q := p.(rest := p.chan[0], chan := p.chan[1..]);
      s.(pairs := s.pairs[k := Answered(q)],
         log := s.log + [Resolution(q.rest[0], p.reader.res)])
  }

  /** `one.err`; without a failure it is nil, which a caller would take for a value. */
  function PairError(p: Pair): Result {
    if p.failure.Some? then Error(p.failure.value) else Value(0)
  }

  function DoDrain(s: Conn, k: nat): Conn
    requires k < |s.pairs|
  {
    var p := s.pairs[k];
    if p.rest != [] then
      s.(pairs := s.pairs[k := p.(rest := p.rest[1..], done := p.done + [p.rest[0]])],
         log := s.log + [Resolution(p.rest[0], PairError(p))])
    else if p.chan != [] then
      s.(pairs := s.pairs[k := p.(rest := p.chan[0], chan := p.chan[1..])])
    else
      s.(pairs := s.pairs[k := p.(reader := Finished)])
  }

  // The holder of conn.mutex.

  function ErrorAll(fs: seq<Future>, err: Kind): (log: seq<Resolution>)
    ensures |log| == |fs|
    ensures forall i :: 0 <= i < |fs| ==> log[i] == Resolution(fs[i], Error(err))
  {
    seq(|fs|, i requires 0 <= i < |fs| => Resolution(fs[i], Error(err)))
  }

  function DoDrop(s: Conn): Conn
    requires s.control.Dropping?
  {
    s.(control := Idle, token := false, queue := [],
       signalClosed := s.signalClosed || s.phase.Closed?,
       home := MoveQueued(s.home, Dropped),
       log := s.log + ErrorAll(s.queue, s.control.err))
  }

  function Next(s: Conn, st: Step): Conn
    requires Enabled(s, st)
  {
    match st
    case Submit(n, asking, tx, check) => DoSubmit(s, n, asking, tx, check)
    case Wake(k) => s.(token := false, pairs := s.pairs[k := s.pairs[k].(writer := Woken)])
    case Stray(k) => s.(pairs := s.pairs[k := s.pairs[k].(writer := Woken)])
    case Take(k) => DoTake(s, k)
    case Write(k, ok) => s.(pairs := s.pairs[k := DoWrite(s.pairs[k], ok)])
    case Push(k) => s.(pairs := s.pairs[k := s.pairs[k].(writer := Waiting, batch := [],
                                                         chan := s.pairs[k].chan + [s.pairs[k].batch])])
    case Stop(k) => s.(pairs := s.pairs[k := s.pairs[k].(writer := Leaving)])
    case Leave(k) => s.(pairs := s.pairs[k := DoLeave(s.pairs[k])])
    case Read(k, res) => DoRead(s, k, res)
    case Fetch(k) => DoFetch(s, k)
    case Drain(k) => DoDrain(s, k)
    case StartDial => s.(phase := Connecting, control := Dialing)
    case DialOk => s.(control := Dialed, current := Some(|s.pairs|), pairs := s.pairs + [NewPair()])
    case DialFail => s.(phase := Disconnected, control := Dropping(DialFailed))
    case Publish => s.(phase := Connected, control := Idle)
    case Lost(k) => s.(phase := Disconnected, current := None, control := Dropping(s.pairs[k].failure.value))
    case Shutdown => s.(phase := Closed, current := None, control := Dropping(ContextClosed))
    case Drop => DoDrop(s)
  }

  // ------------------------------------------------------------------- runs

  /** Every step of the run from `s` is enabled when it is taken. */
  predicate Legal(s: Conn, steps: seq<Step>)
    decreases |steps|
  {
    steps != [] ==> Enabled(s, steps[0]) && Legal(Next(s, steps[0]), steps[1..])
  }

  /** The state the run from `s` ends in. */
  function After(s: Conn, steps: seq<Step>): Conn
    requires Legal(s, steps)
    decreases |steps|
  {
    if steps == [] then s else After(Next(s, steps[0]), steps[1..])
  }

  /** Some interleaving of the steps leads here. */
  ghost predicate Reachable(s: Conn) {
    exists steps :: Legal(Init(), steps) && After(Init(), steps) == s
  }
}
