/** Small shared vocabulary: optional values, the success-or-thrown-error
    result every store call produces, and the two interface languages. */
module Base {

  /** A value that may be absent (`undefined` / `null` in the program). */
  datatype Option<+T> = None | Some(value: T)

  /** Either a value, or the message of an `Error` that was thrown. */
  datatype Result<+T> = Ok(value: T) | Err(message: string)

  /** The interface language: Slovak (the default) or English. */
  datatype Language = Sk | En
}
