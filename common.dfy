/** Values shared by every part of the model: optional values, success-or-error
    results, and the JavaScript truthiness test the services apply to optional strings. */
module Common {

  /** A value that may be absent (`undefined` in the source). */
  datatype Option<+T> = None | Some(value: T)

  /** Either a value or the error the source throws or returns instead. */
  datatype Result<+R, +E> = Success(value: R) | Failure(error: E)

  /** JavaScript truthiness of an optional string: present and not the empty string. */
  predicate Truthy(s: Option<string>)
  {
    s.Some? && s.value != ""
  }
}
