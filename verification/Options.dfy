/** A value that may be absent: a null pointer, a failed lookup. */
module Options {
  datatype Option<+T> = None | Some(value: T)

  /** A position counted from `n` places further left. */
  function Shift(r: Option<nat>, n: nat): Option<nat> {
    match r
    case None => None
    case Some(i) => Some(i + n)
  }
}
