/** Failure-carrying results shared by the three engines.

    The source signals a malformed input or an impossible lookup by letting
    Python raise; the model returns `Err` with the reason instead, and the
    fuel-bounded drivers report `OutOfFuel` where the source would recurse on. */
module Outcomes {

  datatype Option<+T> = None | Some(value: T)

  /** Why a run stops. */
  datatype Fault =
    | Malformed       // an index past the end of a command, or int() of a non-number
    | UnknownCommand  // an operation letter other than R, W or C where the source raises
    | MissingKey      // a dictionary lookup of an absent key
    | MissingTxn      // find_transaction returned None and the caller used it
    | StaleVersion    // list.remove of a version that is no longer in its chain
    | OutOfFuel       // a bounded driver used up its fuel

  datatype Result<+T> = Ok(value: T) | Err(fault: Fault) {

    predicate IsFailure() {
      Err?
    }

    function PropagateFailure<U>(): Result<U>
      requires Err?
    {
      Err(fault)
    }

    function Extract(): T
      requires Ok?
    {
      value
    }
  }
}
