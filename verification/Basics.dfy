/** Types and functions that several modules share. */
module Basics {

  type byte = x: int | 0 <= x < 256

  datatype Option<T> = None | Some(value: T)

  /** The sequence without its element at position j. */
  function Without<T>(s: seq<T>, j: nat): (t: seq<T>)
    requires j < |s|
    ensures |t| == |s| - 1
    ensures forall i: nat :: i < |t| ==> t[i] == s[if i < j then i else i + 1]
  {
    s[..j] + s[j + 1..]
  }
}
