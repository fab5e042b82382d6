/** Failure-carrying results used throughout the model of the per-directory
    test driver. The driver has two ways of stopping abnormally:
    - `Fatal`: the driver's own `Fatal()` routine, which logs a message and
      exits the whole directory run with a fixed exit code;
    - `Crash`: a Python exception that nothing catches (an index out of
      range, for instance), which also ends the run.
 */
module Wrappers {

  datatype Option<+T> = None | Some(value: T)

  datatype Failure = Fatal(message: string) | Crash(message: string)

  /** The exception Python raises for an index past the end of a list. */
  const IndexError: Failure := Crash("IndexError: list index out of range")

  datatype Result<+T> = Ok(value: T) | Err(failure: Failure) {
    predicate IsFailure() {
      Err?
    }

    function PropagateFailure<U>(): Result<U>
      requires Err?
    {
      Err(failure)
    }

    function Extract(): T
      requires Ok?
    {
      value
    }
  }
}
