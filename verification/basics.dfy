/** Option and Result values shared by every module of the model. */
module Basics {

  /** A nullable column or an absent request field. */
  datatype Option<+T> = None | Some(value: T)

  /** The outcome of a store operation that may throw in the source. */
  datatype Result<+T, +E> = Ok(value: T) | Err(error: E)

  function Min(a: int, b: int): int { if a <= b then a else b }

  /** `value || fallback` for a string field: a missing or empty value takes the fallback. */
  function Fallback(value: Option<string>, fallback: string): (s: string)
    ensures value.Some? && value.value != "" ==> s == value.value
    ensures value.None? || value.value == "" ==> s == fallback
  {
    if value.Some? && value.value != "" then value.value else fallback
  }
}
