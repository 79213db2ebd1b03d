/** Optional values: TypeScript's `T | undefined` and `T | null`. */
module Wrappers {

  datatype Option<+T> = None | Some(value: T) {

    /** The value, or `default` when absent (the `??` and `||` fallbacks of the source). */
    function GetOr(default: T): T {
      match this
      case Some(v) => v
      case None => default
    }

    /** This value when present, otherwise `other` (a spread of an optional field). */
    function OrElse(other: Option<T>): Option<T> {
      if this.Some? then this else other
    }
  }
}
