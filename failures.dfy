/**
 * The error values of the voting engine (internal/usecase/poll.go) together
 * with the two ways Go code builds errors around them: `fmt.Errorf` with
 * `%w`, which wraps an inner error, and `errors.Is`, which looks through
 * the wrapping.
 */
module Failures {

  /** Why a request to the storage server failed. */
  datatype Cause =
    | DuplicateKey   // an insert met an existing primary key
    | Io             // connection loss, timeout, missing index, ...

  /** Why a record could not be read back from its field sequence. */
  datatype DecodeError =
    | LengthMismatch(n: int)   // "array len doesn't match: %d"
    | TypeMismatch             // the next value is not of the expected kind
    | EndOfInput               // the stream ended early

  datatype Error =
    // the sentinel errors of the use-case package
    | InvalidUserID
    | UserIsNotPollAuthor
    | PollNotFound
    | PollIsNotActive
    | AnswerNotFound
    | AnswerAlreadyExists
    // rejection of a negative vote, which the corrected validation adds
    | NoSuchOption
    // failures reported by the storage server or the record codec
    | Store(cause: Cause)
    | Decode(reason: DecodeError)
    // `fmt.Errorf` without `%w`: a bare message
    | Message(text: string)
    // `fmt.Errorf("<context>: %w", inner)`
    | Wrapped(context: string, inner: Error)
    // a Go runtime panic (index out of range, bad `make` length)
    | Panic(what: string)
    // `Lock` on a mutex that is already held: the call never returns
    | Blocked

  /** `errors.Is`: `target` is `err` itself or is found by unwrapping it. */
  predicate Is(err: Error, target: Error)
  {
    err == target || (err.Wrapped? && Is(err.inner, target))
  }

  /** A value or the error that stopped the computation of it. */
  datatype Result<T> = Ok(value: T) | Err(error: Error)

  /** A Go `error` return: `nil` or an error. */
  datatype Outcome = Pass | Fail(error: Error)

  datatype Option<T> = None | Some(value: T)
}
