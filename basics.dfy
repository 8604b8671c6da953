/** Option and Result values shared by every module of the model. */
module Basics {

  /** Python's `Optional[T]`: a value or `None`. */
  datatype Option<T> = None | Some(value: T)

  /** A value, or the exception an operation raises instead. */
  datatype Result<T, E> = Ok(value: T) | Err(error: E)

  function Max(a: int, b: int): int { if a >= b then a else b }

  function MaxReal(a: real, b: real): real { if a >= b then a else b }

  function MinReal(a: real, b: real): real { if a <= b then a else b }

  /** A prefix one element longer is the shorter prefix followed by that element. */
  lemma PrefixSnoc<T>(s: seq<T>, i: int)
    requires 0 <= i < |s|
    ensures s[..i + 1] == s[..i] + [s[i]]
  {
  }
}
