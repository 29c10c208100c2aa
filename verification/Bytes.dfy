/** Bytes, newlines, and small facts about slices. */
module Bytes {
  type byte = b: int | 0 <= b < 256

  const NL: byte := 10

  /** The last position of `b` in the first `n` bytes of `s`, or -1. */
  function LastIndex(s: seq<byte>, n: nat, b: byte): (r: int)
    requires n <= |s|
    ensures -1 <= r < n
    ensures r >= 0 ==> s[r] == b
    ensures forall k :: r < k < n ==> s[k] != b
  {
    if n == 0 then -1 else if s[n - 1] == b then n - 1 else LastIndex(s, n - 1, b)
  }
}
