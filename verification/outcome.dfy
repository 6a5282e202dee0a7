/** Failure-compatible wrappers shared by every module of the model, and the
    kinds of exception the plugin's `write` can raise. */
module Outcome {

  datatype Option<+T> = None | Some(value: T)

  /** Success or failure; usable with `:-`. */
  datatype Result<+T, +E> = Ok(value: T) | Err(error: E) {
    predicate IsFailure() {
      Err?
    }

    function PropagateFailure<U>(): Result<U, E>
      requires Err?
    {
      Err(error)
    }

    function Extract(): T
      requires Ok?
    {
      value
    }
  }

  /** The exceptions a flush can end with. Ruby's own errors are named after
      their classes; `OutsideModel` marks an input whose behaviour in Ruby
      depends on code this model does not describe (general `eval`, the many
      formats `DateTime.parse` accepts, `inspect` of containers). */
  datatype Failure =
    | NoMethodError                          // a method called on nil, a boolean or a Hash that lacks it
    | TypeError                              // "no implicit conversion" in `+` or `[]`
    | JsonParserError                        // JSON.parse of a response body that is not JSON
    | InvalidDate                            // `DateTime.parse` of a month or day the calendar lacks
    | OutsideModel(what: string)
    | SplunkHECOutputError(message: string)  // the collector answered with a status other than 200
}
