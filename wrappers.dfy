/** An optional value: JavaScript's `undefined`/`null` on one side, a present value on the other. */
module Wrappers {
  datatype Option<+T> = None | Some(value: T) {
    /** The `??` operator: the value when present, otherwise the default. */
    function GetOr(default: T): T {
      match this
      case Some(v) => v
      case None => default
    }
  }
}
