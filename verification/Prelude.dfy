/** Option, Result and the arithmetic helpers shared by every component of the model. */
module Prelude {

  datatype Option<+T> = None | Some(value: T)

  datatype Result<+T, +E> = Success(value: T) | Failure(error: E)

  function Max(x: nat, y: nat): nat {
    if x < y then y else x
  }

  function Min(x: nat, y: nat): nat {
    if x < y then x else y
  }
}
