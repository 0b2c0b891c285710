/**
 * JavaScript-level values shared by the whole model: optional values,
 * `null`/`undefined`-aware values for the `??` operator, the errors the
 * library throws (or lets the DOM throw), and results carrying them.
 */
module JsValues {

  /** A value that may be absent (an optional property, a `null` DOM reference). */
  datatype Option<+T> = None | Some(value: T) {
    /** `x ?? default` for a value whose only nullish form is "absent". */
    function GetOr(default: T): T {
      match this
      case Some(v) => v
      case None => default
    }
  }

  /**
   * A value where JavaScript distinguishes `undefined` (also: an absent
   * property) from `null`; both are nullish for `??`.
   */
  datatype Nullish<+T> = Undefined | Null | Defined(value: T) {
    /** `x ?? default`. */
    function Or(default: T): T {
      match this
      case Defined(v) => v
      case _ => default
    }
  }

  /** The errors that reach a caller of the library. */
  datatype Error =
    | Thrown(message: string)  // `throw new Error(message)` in the library
    | TypeError                // a property read or call on `null`/`undefined`
    | NotFoundError            // DOM: the reference child is not a child of the parent
    | HierarchyRequestError    // DOM: the inserted node is an inclusive ancestor of the parent
    | InvalidStateError        // DOM: `toString()` of a matrix with a non-finite coefficient

  /** A value, or the error that was thrown (or the rejection of a promise). */
  datatype Result<+T> = Ok(value: T) | Err(error: Error)

  /** Success without a value, or the error that was thrown. */
  datatype Outcome = Pass | Fail(error: Error)
}
