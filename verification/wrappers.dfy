/** The optional value used for PHP's `null`. */
module Wrappers {

  /** `None` stands for PHP `null`, `Some(v)` for a present value. */
  datatype Option<+T> = None | Some(value: T) {

    /** PHP's null-coalescing `this ?? other`. */
    function OrElse(other: Option<T>): Option<T> {
      match this
      case Some(_) => this
      case None => other
    }
  }
}
