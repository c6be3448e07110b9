/** Small datatypes shared by the models. */
module Basics {
  datatype Option<+T> = None | Some(value: T)

  newtype byte = x: int | 0 <= x < 256

  type Bytes = seq<byte>

  /** A string field that is only set when it is not empty. */
  function NonEmpty(s: string): Option<string> {
    if s == "" then None else Some(s)
  }
}
