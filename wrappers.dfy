/** The one failure-compatible wrapper the model needs: a value that may be absent. */
module Wrappers {

  /** `None` stands for a JavaScript value that is absent; `Some(v)` for a
      present value. */
  datatype Option<+T> = None | Some(value: T) {

    /** The value, or `default` when absent (JavaScript's `x || default`
        when every present value is truthy). */
    function GetOr(default: T): T
    {
      match this
      case Some(v) => v
      case None => default
    }
  }
}
