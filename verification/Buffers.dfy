/** Bounded buffers (data_structures.rs): the head trim and the read index every collection shares. */
module Buffers {
  import opened Prelude

  const U64: nat := 0x1_0000_0000_0000_0000

  /** A 64-bit version counter after one more change. */
  function Bumped(version: nat): nat {
    (version + 1) % U64
  }

  lemma BumpedCount(n: nat)
    ensures Bumped(n % U64) == (n + 1) % U64 && U64 == 0x1_0000_0000_0000_0000
  {
  }

  /** The newest `maxSize` elements. */
  function Tail<T>(s: seq<T>, maxSize: Option<nat>): (r: seq<T>)
    ensures maxSize.Some? ==> |r| <= maxSize.value
  {
    s[Overflow(|s|, maxSize)..]
  }

  function Overflow(length: nat, maxSize: Option<nat>): (n: nat)
    ensures n <= length
  {
    if maxSize.Some? && length > maxSize.value then length - maxSize.value else 0
  }

  /** As many elements as fit, from the end, in order; what overflows is what does not fit. */
  lemma TailIs<T>(s: seq<T>, maxSize: Option<nat>)
    ensures |Tail(s, maxSize)| == if maxSize.Some? && |s| > maxSize.value then maxSize.value else |s|
    ensures Tail(s, maxSize) == s[|s| - |Tail(s, maxSize)|..]
    ensures Overflow(|s|, maxSize) + |Tail(s, maxSize)| == |s|
  {
  }

  /** The place a possibly negative index denotes. */
  function NormalizeReadIndex(index: int, length: nat): (i: Option<nat>)
    ensures i.Some? <==> 0 - length <= index < length
    ensures i.Some? ==> i.value < length && (i.value == index || i.value == length + index)
  {
    var i := if index >= 0 then index else length + index;
    if 0 <= i < length then Some(i) else None
  }
}
