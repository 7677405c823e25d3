/** The usual optional value. */
module Maybe {
  datatype Option<+T> = None | Some(value: T)

  function Max(a: int, b: int): (m: int) {
    if a < b then b else a
  }

  function Min(a: int, b: int): (m: int) {
    if a < b then a else b
  }
}
