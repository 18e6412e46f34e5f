/** Shared value types: optional values, the exceptions the quiz code can
    raise, and a result type that carries either a value or one of them. */
module Common {

  datatype Option<+T> = None | Some(value: T)

  /** The Python exceptions the modelled code raises, by kind. */
  datatype Error =
    | ZeroDivisionError            // `x % 0` on an empty corpus
    | KeyError(key: int)           // dictionary lookup of a missing question number
    | IndexError                   // raised explicitly when a player has no question number
    | AttributeError               // `.decode()` called on the `None` a missing key yields

  datatype Result<+T> = Ok(value: T) | Err(error: Error)
}
