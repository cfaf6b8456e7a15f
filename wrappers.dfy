/** Option and Result values used for Python's None and for raised exceptions. */
module Wrappers {

  datatype Option<+T> = None | Some(value: T)

  /** The exception classes the modelled Python code can raise or catch. */
  datatype PyError =
    | TypeError        // unhashable key, comparison of unrelated types, iteration of a scalar
    | AttributeError   // `.get` on something that is not a dict
    | ValueError       // int() of text that is not an integer literal, bad unpacking
    | KeyError         // `d[k]` for a missing key
    | ConfigurationError(message: string)
    | RequestError     // a network failure (requests.exceptions.RequestException)
    | OtherError       // any other failure of an I/O collaborator

  datatype Result<+T> = Ok(value: T) | Err(error: PyError) {
    predicate IsFailure() { Err? }
    function PropagateFailure<U>(): Result<U>
      requires Err?
    {
      Err(error)
    }
    function Extract(): T
      requires Ok?
    {
      value
    }
  }

  /** What a read from an outside service gave: the value, or a failure of the read itself. */
  datatype Fetched<+T> = FetchFailed | Fetched(value: T)
}
