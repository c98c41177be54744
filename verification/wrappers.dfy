/** Option and Result: the model's stand-ins for Python's `None` and for raised exceptions. */
module Wrappers {

  datatype Option<+T> = None | Some(value: T)

  /** Python truthiness of an optional sequence (a string, a list): present and non-empty. */
  predicate Truthy<T>(s: Option<seq<T>>)
  {
    s.Some? && |s.value| > 0
  }

  /** `Err` carries the message of the exception the source raises. */
  datatype Result<+T> = Ok(value: T) | Err(error: seq<char>)

  /** The outcome of a call into code that is not modelled (an SDK, a subprocess, the network). */
  datatype Remote<+T> = Replied(reply: T) | Raised(message: seq<char>)
}
