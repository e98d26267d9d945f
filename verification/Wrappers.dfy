/** Types shared by all modules, and the client's error kinds. */
module Wrappers {

  /** A u8 as a number. */
  type byte = n: int | 0 <= n < 256

  datatype Option<+T> = None | Some(value: T)

  datatype Result<+T, +E> = Success(value: T) | Failure(error: E)

  /** The error kinds of `src/error.rs`; the human-readable detail is not modelled. */
  datatype ErrorKind =
    | Unreachable
    | NotPaired
    | AuthRejected
    | PairingFailed
    | ProtocolError
    | ConfigIo

  /** How reading from a connection stops: its end, or an error of the connection. */
  datatype IoError = TimedOut | WouldBlock | Eof | OtherIo

  /** Everything that happened so far, the latest outermost. */
  datatype Trace<+E> = Silence | After(past: Trace<E>, last: E)
}
