/**
 * Exceptions of the modelled code, as values.
 *
 * The C++ code throws `std::runtime_error`, `std::invalid_argument` and
 * `std::out_of_range`; here each throw returns a `Throw`/`Fail` value that
 * carries the exception class and the cause its message names.
 */
module Errors {

  /** The cause a thrown exception reports. */
  datatype Cause =
    | NotStarted       // "SwapDevice: Device is not started"
    | OpenFile         // open(2) failed
    | SeekFile         // lseek(2) failed
    | ReadFile         // read(2) returned fewer bytes than asked for
    | MapFile          // mmap(2) failed
    | BufferNotFound   // the pointer handed back is not in the buffer table
    | MissingWeight    // weight_offset.at(id) with an unknown id
    | BadValue         // a string that does not parse, or a value its validator refuses
    | ValueOutOfRange  // an integer that does not fit the property's type
    | EmptyRequest     // a memory request of size zero or with an empty validity interval
    | EmptyProperty    // a property read before any value was given to it

  /** The C++ exception class thrown. */
  datatype Exception =
    | RuntimeError(cause: Cause)
    | InvalidArgument(cause: Cause)
    | OutOfRange(cause: Cause)

  /** A value, or the exception thrown instead of returning it. */
  datatype Result<+T> = Ok(value: T) | Throw(ex: Exception) {
    predicate IsFailure() { Throw? }

    function PropagateFailure<U>(): Result<U>
      requires Throw?
    {
      Throw(ex)
    }

    function Extract(): T
      requires Ok?
    {
      value
    }
  }

  /** Normal return, or the exception thrown instead. */
  datatype Outcome = Pass | Fail(ex: Exception)
}
