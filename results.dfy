/** Option and Result values shared by the model of every component. */
module Results {

  datatype Option<+T> = None | Some(value: T) {
    /** `x ?? d` in the TypeScript source. */
    function GetOr(default: T): T
    {
      match this
      case Some(v) => v
      case None => default
    }
  }

  /** A Rust `Result<T, String>`, or a promise that resolves to `T` or rejects with a message. */
  datatype Result<+T> = Ok(value: T) | Err(error: string)
}
