/** Types and notions the components share. */
module Basics {

  type byte = b: int | 0 <= b < 256 witness 0
  type Bytes = seq<byte>

  datatype Option<T> = None | Some(value: T)

  ghost predicate Distinct<T>(s: seq<T>) {
    forall i, j :: 0 <= i < j < |s| ==> s[i] != s[j]
  }
}
