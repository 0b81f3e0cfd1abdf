/** The nullable values of the source (`number | null`) as an option type. */
module Wrappers {

  datatype Option<+T> = None | Some(value: T)

  /** A nullable score counts as 0 when it is null (the source's `v ?? 0`). */
  function OrZero(v: Option<int>): int
  {
    match v
    case None => 0
    case Some(x) => x
  }
}
