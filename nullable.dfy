/** Values that JavaScript code in the front end may leave missing (`null`,
    `undefined`), and the `x || fallback` idiom every error path uses. */
module Nullable {

  /** A slot that may hold nothing: `T | null` in the source's types. */
  datatype Option<+T> = None | Some(value: T)

  /** `x || fallback` for a string that may be missing. JavaScript counts
      the empty string as false, so an empty message falls back too. */
  function OrElse(x: Option<string>, fallback: string): (r: string)
    ensures x.Some? && x.value != "" ==> r == x.value
    ensures x.None? || x.value == "" ==> r == fallback
    ensures fallback != "" ==> r != ""
  {
    if x.Some? && x.value != "" then x.value else fallback
  }
}
