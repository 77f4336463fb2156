/** Failure values of the listing pipeline.

    The program aborts on every one of these (through `?`, `unwrap`, `expect`
    or `panic!`); here each abort becomes an `Err` value carrying the cause. */
module Errors {

  datatype Option<+T> = None | Some(value: T)

  datatype Error =
    | NoMatch(line: string)          // a line that the session or window grammar rejects
    | TooLarge(digits: string)       // a digit run whose value does not fit a usize
    | UnknownSession(id: nat)        // a window line naming a session that was never listed
    | NotSingleSession(count: nat)   // get/attach asked of a listing with `count` != 1 sessions
    | NotSingleTab(count: nat)       // get asked of a session with `count` != 1 tabs

  /** An outcome that `:-` can propagate, as `?` does in the program. */
  datatype Result<+T> = Ok(value: T) | Err(error: Error) {
    predicate IsFailure() { Err? }

    function PropagateFailure<U>(): Result<U>
      requires Err?
    {
      Err(error)
    }

    function Extract(): T
      requires Ok?
    {
      value
    }
  }
}
