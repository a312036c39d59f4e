/** Values shared by every resource kind: Go's nullable `error`, the results of
    the I/O calls the resources make, 64-bit integers, timestamps, readers and
    the callbacks a Refresh produces. */
module Core {

  /** Go's sentinel errors, plus any error reported by the operating system or
      the storage service. */
  datatype Error =
    | UnknownType                 // resource.UnknownTypeError
    | NotImplemented              // resource.NotImplementedError (declared, never returned by this core)
    | MissingProtocol             // resource.missingProtocolError
    | MalformedProtocol           // resource.malformedProtocolError (declared, never returned)
    | External(message: string)   // an error from os.Stat, os.Open, Close or the storage client

  /** `None` is Go's `nil`. */
  datatype Option<+T> = None | Some(value: T)

  /** The `(value, error)` pair of a Go call whose value is meaningless when the
      error is not nil. */
  datatype Result<+T> = Success(value: T) | Failure(error: Error)

  /** Go's `int64`. */
  newtype int64 = x: int | -0x8000_0000_0000_0000 <= x < 0x8000_0000_0000_0000

  /** A `time.Time`; the model only ever compares two of them for equality. */
  datatype Time = Time(instant: int)

  /** `time.Time{}`. */
  const ZeroTime := Time(0)

  /** An open `io.Reader` (an `*os.File` or a `*storage.Reader`). */
  datatype Reader = Reader(id: nat)

  /** One call of a Refresh callback: the update function with a reader, or the
      error handler with a possibly nil error. */
  datatype Event = Update(reader: Reader) | HandleError(err: Option<Error>)

  /** How many times the update function was called. */
  function Updates(events: seq<Event>): (n: nat)
    ensures n <= |events|
    ensures n == 0 <==> forall k :: 0 <= k < |events| ==> !events[k].Update?
  {
    if events == [] then 0
    else (if events[0].Update? then 1 else 0) + Updates(events[1..])
  }

  /** How many times the error handler was called. */
  function ErrorCalls(events: seq<Event>): (n: nat)
    ensures n + Updates(events) == |events|
  {
    if events == [] then 0
    else (if events[0].HandleError? then 1 else 0) + ErrorCalls(events[1..])
  }
}
