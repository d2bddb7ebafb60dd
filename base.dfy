/** Small value types shared by every module of the model. */
module Base {

  /** Python's `None` versus a present value. */
  datatype Option<+T> = None | Some(value: T)

  /** The outcome of a call that may raise: its value, or the text of the exception. */
  datatype Result<+T, +E> = Ok(value: T) | Err(error: E)

  /** One octet of a file or of an audio stream. */
  newtype byte = x: int | 0 <= x < 256

  type Bytes = seq<byte>

  /** Python's `s.endswith(suffix)`. */
  predicate EndsWith(s: string, suffix: string)
  {
    |suffix| <= |s| && s[|s| - |suffix|..] == suffix
  }

  /** Python's truthiness of an optional form field: present and not the empty string. */
  predicate Truthy(s: Option<string>)
  {
    s.Some? && s.value != ""
  }
}
