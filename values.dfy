/** Values shared by the store, its edit records and its transactions. */
module Values {

  /** What the conflict guard compares: the NEW_KEY sentinel, which stands for
      "the key is absent", or a stored string. */
  datatype Val = NewKey | Str(s: string)

  /** The two exceptions of the engine: a read of a missing key without a
      default (KeyError), and a guarded write whose expected old value is
      stale (TransactionConflict). */
  datatype Error = KeyError | TransactionConflict

  /** A read's default: None is the "raise KeyError" marker of the source. */
  datatype Option<T> = None | Some(value: T)

  /** The value a call returns, or the exception it raises. */
  datatype Result<T> = Ok(value: T) | Err(error: Error)

  /** Normal completion of a call that returns nothing, or its exception. */
  datatype Outcome = Done | Failed(error: Error)
}
