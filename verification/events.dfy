/**
 * Events, payloads and the exception hierarchy of actchain
 * (actchain/event.py and actchain/exceptions.py), as values.
 */
module Events {

  /** A payload value: event data is schema-free, so values may nest. */
  datatype Value = Int(i: int) | Str(s: string) | Dict(fields: map<string, Value>)

  /** Event data: a string-keyed mapping (the `Mapping` bound of the event data type). */
  type Payload = map<string, Value>

  /** The immutable envelope passed between nodes: producer name and payload. */
  datatype Event = Event(name: string, data: Payload)

  datatype Option<+T> = None | Some(value: T)

  /**
   * What can go wrong. The first five are the library's own exceptions or the
   * Python built-ins it raises; UserCodeError is an exception raised by code the
   * library calls (a handler, a transform, a callback, a loop source) and
   * passed on unchanged.
   */
  datatype ChainError =
    | TypeError
    | IndexError
    | ValueError(reason: string)
    | EventHandleError(event: Event)
    | ChainableAlreadyRunning(chainable: string)
    | UnsupportedOperation(reason: string)
    | UserCodeError

  datatype Result<+T> = Ok(value: T) | Err(error: ChainError)

  /**
   * The outcome of one call into user code: it returns a payload or None
   * (the absence-of-result marker), or it raises.
   */
  datatype Call = Returns(result: Option<Payload>) | Raises

  /** What a call into user code gives the library: its result, or the exception it raised. */
  function Invoke(call: Call): (r: Result<Option<Payload>>)
    ensures r.Err? <==> call.Raises?
    ensures r.Ok? ==> r.value == call.result
  {
    match call
    case Returns(result) => Ok(result)
    case Raises => Err(UserCodeError)
  }

  /** An argument handed to `trigger`, which checks at run time that it is an Event. */
  datatype Arg = AnEvent(event: Event) | NotAnEvent(payload: Payload)
}
