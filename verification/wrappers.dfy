/** Optional values, and the three ways a JSON object can answer a key lookup. */
module Wrappers {

  /** A value that may be missing; stands for the source's `null` references and nullable scalars. */
  datatype Option<+T> = None | Some(value: T) {

    /** The value, or `default` when there is none (the source's `??`). */
    function GetOr(default: T): T {
      match this
      case Some(v) => v
      case None => default
    }
  }

  /** A JSON property as the source reads it: the key is missing, present with a JSON null,
      or present with a value. The distinction matters where the source dereferences a
      property without a null-conditional operator, which throws on a missing key. */
  datatype JsonField<+T> = Absent | JsonNull | Present(value: T) {

    /** The property read with `?.Value<T>()` for a reference type: missing and null both give null. */
    function OrNull(): Option<T> {
      match this
      case Present(v) => Some(v)
      case _ => None
    }
  }
}
