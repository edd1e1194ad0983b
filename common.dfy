/** Small shared vocabulary: an optional value (Python's `None` or a value). */
module Common {

  datatype Option<+T> = None | Some(value: T)

  /** Python truthiness of an optional string: neither `None` nor the empty string. */
  predicate Truthy(s: Option<string>) {
    s.Some? && s.value != ""
  }
}
