/** Small shared definitions. */
module Common {
  datatype Option<+T> = None | Some(value: T)

  function RealMin(x: real, y: real): real {
    if x <= y then x else y
  }

  // Python's int(x) on a float: truncation toward zero.
  function Truncate(x: real): int {
    if x >= 0.0 then x.Floor else -((-x).Floor)
  }
}
