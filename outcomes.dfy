/** The exceptions the modelled Java code can raise, as values. */
module Outcomes {

  datatype Error =
    | IllegalArgument(message: string)        // java.lang.IllegalArgumentException
    | IndexOutOfBounds(index: int, length: int) // java.lang.ArrayIndexOutOfBoundsException

  /** A call either returns a value or throws one of the exceptions above. */
  datatype Result<T> = Success(value: T) | Failure(error: Error)
}
