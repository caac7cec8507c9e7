/** Small value wrappers shared by every module of the model. */
module Wrappers {

  /** A JavaScript value that may be `undefined`/`null` (None) or present (Some). */
  datatype Option<+T> = None | Some(value: T)

  /** The outcome of an awaited contract read: it returned a value or it threw. */
  datatype Call<+T> = Returned(value: T) | Threw
}
