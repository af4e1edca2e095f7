/** Failure values shared by every component of the pipeline. Each constructor
    names the Python exception the corresponding step of the script raises. */
module Errors {

  datatype Error =
    | MathDomainError     // math.sqrt of a negative patch count
    | ZeroDivisionError   // a patch count below one folds to zero bands
    | ParseError          // a file name that is not "<MonthName>_<Year>"
    | PathIndexError      // a path too shallow to hold a category segment
    | ReadError           // a path the grid reader cannot open
    | ShapeMismatch       // grids whose shapes do not broadcast
    | EmptyReduction      // min or max of a patch without cells
    | MissingJoinColumn   // a merge on a key column an empty table does not have

  datatype Result<+T> = Ok(value: T) | Err(error: Error) {
    predicate IsFailure() { Err? }
    function PropagateFailure<U>(): Result<U> requires Err? { Err(error) }
    function Extract(): T requires Ok? { value }
  }

  datatype Option<+T> = None | Some(value: T)
}
