/** Failure-compatible wrappers shared by the model: `Option` for Python's `None`,
    `Result` for a call that either returns a value or raises, and `Completion` for a
    call whose side effects happen before it raises. */
module Wrappers {

  datatype Option<+T> = None | Some(value: T)

  datatype Result<+R, +E> = Success(value: R) | Failure(error: E)

  /** How a state update ended. Both alternatives carry the state as it stands when
      control leaves the call: an exception does not undo what was already done. */
  datatype Completion<+S, +E> = Normal(state: S) | Abrupt(state: S, fault: E)
}
