/** Failure-carrying datatypes shared by the whole model.

    Go reports failures as an `error` value whose only observable part, once it
    reaches the dispatcher, is its message `err.Error()`; errors are therefore
    modelled as plain strings.
 */
module Wrappers {

  /** An optional value: Go's nil pointer, a missing map entry, an absent field. */
  datatype Option<+T> = None | Some(value: T)

  /** A value or the message of the error that prevented it. */
  datatype Result<+T> = Success(value: T) | Failure(error: string)

  /** The outcome of a step that yields no value (`err == nil` or not). */
  datatype Outcome = Pass | Fail(error: string)

  /** Go's `uint32`. */
  type uint32 = x: int | 0 <= x < 0x1_0000_0000

  /** A setting with a default: the value as given unless it is empty. */
  function OrElse(s: string, fallback: string): (r: string)
    ensures s != "" ==> r == s
    ensures s == "" ==> r == fallback
  {
    if s == "" then fallback else s
  }

  function Min(a: int, b: int): (m: int)
    ensures m <= a && m <= b
    ensures m == a || m == b
  {
    if a <= b then a else b
  }
}
