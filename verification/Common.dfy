/** Small result types shared by the whole model. */
module Common {

  datatype Option<+T> = None | Some(value: T)

  /** A Go run-time panic, or the value the call returned. */
  datatype Outcome<+T> = Panic | Value(value: T)

  function Max(a: int, b: int): (m: int) {
    if a < b then b else a
  }

  function Min(a: int, b: int): (m: int) {
    if a < b then a else b
  }
}
