/** Outcomes of the extraction code: a value, or the Python exception that aborts it. */
module Results {

  datatype Option<+T> = None | Some(value: T)

  /** The exceptions the extraction code can raise on already-decoded data. */
  datatype Fault =
    | ValueError(text: string)  // int() applied to a string that is not an integer literal
    | IndexError                // [0] or [-1] applied to an empty list
    | AttributeError            // .lower() applied to None

  /** A computation that either returns a value or raises. */
  datatype Result<+T> = Ok(value: T) | Err(fault: Fault)
  {
    /** An Err result stops the computation that `:-` is applied in. */
    predicate IsFailure() {
      Err?
    }

    /** The same exception, as a result of another value type. */
    function PropagateFailure<U>(): Result<U>
      requires Err?
    {
      Err(fault)
    }

    function Extract(): T
      requires Ok?
    {
      value
    }
  }
}
