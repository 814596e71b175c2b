/** The optional values of the pages: a field of a backend response that may be
    absent (`undefined`/`null`), or a piece of state that starts as `null`. */
module Wrappers {
  datatype Option<+T> = None | Some(value: T) {
    /** The value, or `default` when absent. The pages write this as
        JavaScript's `x || default`, which also replaces a present `0` or `""`;
        the pages use it only where the default is that same `0` or `""`, so
        the result is the same either way. */
    function GetOr(default: T): (r: T)
      ensures Some? ==> r == value
      ensures None? ==> r == default
    {
      match this
      case Some(v) => v
      case None => default
    }
  }
}
