/** Failure-carrying values shared by the model: Python's `None` and the
    exceptions the scraper lets escape. */
module Results {

  /** A value that may be absent, as Python's `Optional[T]`. */
  datatype Option<+T> = None | Some(value: T)

  /** The exception classes the modelled code can raise. */
  datatype PyError =
    | IndexError      // `title_tuple[1]` on a tuple that is too short
    | ValueError      // `int(...)` on text that is not an integer
    | AttributeError  // a method called on `None` (`m.group` when nothing matched)

  /** The outcome of a call that either returns a value or raises. */
  datatype Result<+T> = Ok(value: T) | Err(error: PyError) {

    predicate IsFailure() {
      Err?
    }

    function PropagateFailure<U>(): Result<U>
      requires Err?
    {
      Err(error)
    }

    function Extract(): T
      requires Ok?
    {
      value
    }
  }
}
