/** Values as they arrive in a request body or sit in a schemaless document:
    a field is either absent or holds a value. `null` is read as absent; the places
    where JavaScript's `!== undefined` tells the two apart are not modelled. */
module Json {

  datatype Option<+T> = None | Some(value: T) {

    /** `x || fallback` for a field whose falsy values are only the absent ones. */
    function GetOr(fallback: T): T {
      match this
      case Some(v) => v
      case None => fallback
    }
  }

  /** JavaScript truthiness of an optional string: absent and "" are falsy. */
  predicate Truthy(s: Option<string>) {
    s.Some? && s.value != ""
  }

  /** `s || ""` */
  function OrEmpty(s: Option<string>): string {
    if Truthy(s) then s.value else ""
  }
}
