/** The optional-value type used for JavaScript's `undefined`/`null` results. */
module Wrappers {

  /** `None` stands for a missing value (`undefined` or `null`), `Some` for a present one. */
  datatype Option<+T> = None | Some(value: T) {

    /** The present value, or `default` when there is none (JavaScript's `??`). */
    function GetOr(default: T): T {
      match this
      case Some(v) => v
      case None => default
    }
  }
}
