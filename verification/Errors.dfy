/** The error kinds of the client and the traits the retry logic looks at.

    `Kind` names the error types of redis/error.go, redisconn/error.go and
    rediscluster/error.go; messages and properties are dropped, except the
    address carried by MOVED and ASK. */
module Errors {

  datatype Option<+T> = None | Some(value: T)

  datatype Kind =
    | IO                     // read or write failed: unknown whether the server saw the request
    | BadResponse            // the ErrResponse namespace: the reply could not be parsed
    | Plain                  // an error reply with no special meaning to the client
    | Moved(addr: string)
    | Ask(addr: string)
    | Loading
    | ExecAbort
    | TryAgain
    | NotConnected           // ErrConnection namespace: refused by a disconnected connection
    | DialFailed             // ErrConnection namespace: ErrDial, ErrAuth, ErrInit, ErrConnSetup
    | ContextClosed
    | RequestCancelled
    | BadRequest             // ErrArgumentType, ErrCommandForbidden
    | BatchFormat
    | NoSlotKey
    | ConfigEmpty
    | NoAliveConnection

  /** What a future is resolved with. */
  datatype Result = Value(payload: int) | Error(kind: Kind)

  /** `IsOfType(ErrResult)`: the error was sent by the server. */
  predicate IsReply(k: Kind) {
    k.Plain? || k.Moved? || k.Ask? || k.Loading? || k.ExecAbort? || k.TryAgain?
  }

  /** `HasTrait(ErrTraitNotSent)`. */
  predicate NotSent(k: Kind) {
    k.ContextClosed? || k.NotConnected? || k.DialFailed? || k.Loading?
  }

  /** `HasTrait(ErrTraitClusterMove)`. */
  predicate ClusterMove(k: Kind) {
    k.Moved? || k.Ask?
  }

  /** A parsed answer of the server, as opposed to an error that breaks the connection. */
  predicate IsAnswer(r: Result) {
    r.Value? || IsReply(r.kind)
  }
}
