/** Small shared vocabulary: optional values, results with an error side, and
    fitness bounds that may be positive infinity (Python's math.inf). */
module Values {

  datatype Option<T> = None | Some(value: T)

  datatype Result<T, E> = Ok(value: T) | Err(error: E)

  /** A real number or +infinity; the store starts its best value and the
      acceptance limit at +infinity. */
  datatype ExtReal = Fin(v: real) | PosInf

  /** `y < e` where `e` may be +infinity. */
  predicate Below(y: real, e: ExtReal)
  {
    e.PosInf? || y < e.v
  }

  /** `a <= b` on extended reals. */
  predicate AtMost(a: ExtReal, b: ExtReal)
  {
    b.PosInf? || (a.Fin? && a.v <= b.v)
  }

  function Min(a: int, b: int): (m: int)
  {
    if a <= b then a else b
  }

  function Max(a: int, b: int): (m: int)
  {
    if a <= b then b else a
  }
}
