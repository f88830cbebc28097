// What several parts of the model share.
module Basics {
  datatype Option<T> = None | Some(value: T)

  function Power(n: nat): (p: nat)
    ensures p > 0
  {
    if n == 0 then 1 else 2 * Power(n - 1)
  }
}
