/** Optional values and failure-carrying results shared by the whole model. */
module Outcomes {

  /** A present or absent value: JavaScript's `null` and `undefined` both map to `None`. */
  datatype Option<+T> = None | Some(value: T)

  /** The ways evaluating or parsing an expression can fail. */
  datatype Failure =
    | TypeError              // a property read or a call on null/undefined, or a call on a non-function
    | NotANumber             // the computation would produce NaN
    | DivisionByZero         // the computation would produce an infinity
    | Unmodelled(name: string) // a floating-point library function this model does not interpret

  /** A value or the failure that replaced it; usable with `:-`. */
  datatype Result<+T> = Ok(value: T) | Err(error: Failure) {
    predicate IsFailure() { Err? }

    function PropagateFailure<U>(): Result<U>
      requires Err?
    {
      Err(error)
    }

    function Extract(): T
      requires Ok?
    {
      value
    }
  }
}
