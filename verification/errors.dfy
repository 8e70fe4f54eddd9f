/**
 * The application's error type, the `Result` every fallible operation
 * returns, and `Option`.  `ApplicationError` has exactly the two variants of the Rust enum;
 * its `Display` text is the one the `#[error(...)]` attributes declare.
 */
module AppErrors {

  datatype ApplicationError =
    | LanguageNotFound
      /** The Argon2 primitive failed; carries the primitive's own error text. */
    | PasswordHash(detail: string)

  datatype Result<T> = Ok(value: T) | Err(error: ApplicationError)

  datatype Option<T> = None | Some(value: T)

  const LanguageNotFoundText := "Language Not Found"
  const PasswordHashPrefix := "Password Hashing Failed: "

  /** The `Display` text of an error. */
  function Message(e: ApplicationError): (r: string)
    ensures e.LanguageNotFound? ==> r == LanguageNotFoundText
    ensures e.PasswordHash? ==> |r| == |PasswordHashPrefix| + |e.detail|
    ensures e.PasswordHash? ==> r[..|PasswordHashPrefix|] == PasswordHashPrefix
    ensures e.PasswordHash? ==> r[|PasswordHashPrefix|..] == e.detail
  {
    match e
    case LanguageNotFound => LanguageNotFoundText
    case PasswordHash(detail) => PasswordHashPrefix + detail
  }
}
