/** JavaScript values as the source handles them: a value that may be
    `undefined` or `null`, a value-or-thrown-error outcome, and the
    truthiness tests the source applies before it uses an argument. */
module Js {

  /** `None` stands for `undefined` or `null`. */
  datatype Option<+T> = None | Some(value: T) {

    /** `x ?? d`: the value, or `d` when it is missing. */
    function GetOr(default: T): T {
      match this
      case Some(v) => v
      case None => default
    }
  }

  /** A resolver either returns a value or throws an error. */
  datatype Result<+T, +E> = Success(value: T) | Failure(error: E)

  /** `if (s)` on an optional string: only a non-empty string is truthy. */
  predicate TruthyText(o: Option<string>) {
    o.Some? && o.value != ""
  }

  /** `if (n)` on an optional integer: `0` is falsy. */
  predicate TruthyInt(o: Option<int>) {
    o.Some? && o.value != 0
  }

  /** `if (x)` on an optional number: `0` is falsy. */
  predicate TruthyReal(o: Option<real>) {
    o.Some? && o.value != 0.0
  }
}
