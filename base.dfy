/** Values shared by every part of the model: optional values, the opaque
    error of the Rust code (`Box<dyn Error>`), results, and URLs. */
module Base {

  datatype Option<T> = None | Some(value: T)

  /** The boxed error returned by `reqwest`, `html_parser` and friends; only its
      message is kept. */
  datatype Error = Error(message: string)

  /** `Result<T, Box<dyn Error>>`. */
  datatype Result<T> = Ok(value: T) | Err(error: Error)

  /** A parsed, canonical URL (`url::Url`). Two URLs are the same exactly when
      their serializations are equal, which is what `Vec::contains` compares. */
  datatype Url = Url(serialized: string)

  /** `url::Url::parse`, which the model does not interpret: every operation that
      parses takes it as a parameter of this type. */
  type Parser = string -> Option<Url>
}
