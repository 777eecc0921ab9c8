/** What all modules share: optional values, bytes as numbers, values as the bytes of a machine word, and addresses. */
module Basics {
  datatype Option<T> = None | Some(value: T)

  type byte = x: int | 0 <= x < 256
  type Bytes = seq<byte>

  const VALUE_SIZE := 8

  function Zeros(): Bytes { seq(VALUE_SIZE, _ => 0) }

  type Ptr = int
  const NULL: Ptr := 0

  function Min(a: nat, b: nat): nat { if a < b then a else b }

  ghost predicate Distinct<T>(s: seq<T>) {
    forall i, j :: 0 <= i < j < |s| ==> s[i] != s[j]
  }

  /** s without its element at position p. */
  function Without<T>(s: seq<T>, p: nat): seq<T>
    requires p < |s|
  {
    s[..p] + s[p + 1..]
  }
}
