/** Values shared by the models of several components. */
module Values {

  /** A 16-bit word of a drive or a PLC. */
  type Word = bv16

  datatype Option<T> = None | Some(value: T)

  datatype Result<T, E> = Ok(value: T) | Err(error: E)

  /** A request or status bit that one thread raises and another lowers. */
  datatype Flag = Lowered | Raised

  function RaisedIf(condition: bool): Flag {
    if condition then Raised else Lowered
  }

  /** A floating-point reading: a number, or an infinity or NaN. */
  datatype Number = NotFinite | Finite(value: real)

  function Distance(a: real, b: real): (r: real)
    ensures r >= 0.0 && (r == a - b || r == b - a)
  {
    if a < b then b - a else a - b
  }
}
