/** JavaScript's `undefined`/`null` for optional fields: a value is either absent or present. */
module Nullish {

  datatype Option<+T> = None | Some(value: T) {

    /** `x ?? fallback`: the value when present (even a falsy one), the fallback otherwise. */
    function GetOr(fallback: T): (r: T)
      ensures Some? ==> r == value
      ensures None? ==> r == fallback
    {
      match this
      case Some(v) => v
      case None => fallback
    }
  }

  /** Truthiness of an optional string: present and non-empty. */
  predicate Truthy(s: Option<string>) {
    s.Some? && s.value != ""
  }
}
