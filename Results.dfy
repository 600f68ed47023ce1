/** Outcome types shared by the model: Python's `None`-or-value and
    "returns a value or raises an exception carrying a message". */
module Results {

  datatype Option<+T> = None | Some(value: T)

  /** `Err(msg)` stands for a raised exception whose `str(e)` is `msg`. */
  datatype Result<+T> = Ok(value: T) | Err(msg: string)
}
