/** Option and Result, the two ways the search core reports "nothing" and "error". */
module Results {

  /** An optional value; Python's `None` becomes `None`. */
  datatype Option<+T> = None | Some(value: T)

  /** A computed value, or the exception the source would raise instead. */
  datatype Result<+T, +E> = Success(value: T) | Failure(error: E)
}
