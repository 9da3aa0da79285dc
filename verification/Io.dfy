/** Sockets and readiness, as far as the relay can tell. */
module Io {
  /** The kinds of I/O error the relay tells apart. */
  datatype IoError = WouldBlock | OtherError

  datatype Result<+T> = Ok(value: T) | Err(error: IoError)

  /** What a sink makes of a slice: it takes at most `limit` bytes, or fails without taking any. */
  datatype Sink = Takes(limit: nat) | Fails(error: IoError)

  /** The interests registered for a socket. */
  datatype Ready = Ready(readable: bool, writable: bool)

  /** Readiness of a polled socket; neither bit set means error or hang-up. */
  datatype Event = Event(readable: bool, writable: bool)
}
