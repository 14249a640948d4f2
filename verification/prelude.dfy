/** Small failure-carrying datatypes shared by the whole model. */
module Prelude {

  /** A value that may be absent (a sprite that was killed, a shot not fired). */
  datatype Option<+T> = None | Some(value: T)

  /** The outcome of an operation that can raise in the game. */
  datatype Result<+R, +E> = Success(value: R) | Failure(error: E)

  function Abs(n: int): (r: nat)
    ensures r == n || r == -n
  {
    if n < 0 then -n else n
  }
}
