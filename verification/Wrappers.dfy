/** Values that may be absent. */
module Wrappers {
  datatype Option<+T> = None | Some(value: T)

  function Min(a: int, b: int): int {
    if a <= b then a else b
  }

  function Max(a: int, b: int): int {
    if a <= b then b else a
  }

  /** Subtraction that stops at zero, as Rust's `saturating_sub` does. */
  function Monus(a: nat, b: nat): nat {
    if b <= a then a - b else 0
  }
}
