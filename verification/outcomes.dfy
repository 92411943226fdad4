/** Optional values and results with an error, used wherever the program
    can fail or a lookup can miss. */
module Outcomes {

  datatype Option<+T> = None | Some(value: T)

  datatype Result<+T, +E> = Success(value: T) | Failure(error: E)
}
