/**
 * The context window every chunk source cuts around a change: up to
 * `beforeLen` chunks before the changed offset and up to `afterLen` chunks
 * from it on, computed on `size_t` the way the sources do, so that the
 * offset `SIZE_MAX` (a change before the first chunk) gives an empty window.
 */
module Contexts {
  import opened Utility
  import opened Differences

  /** Start of the window: `offset - beforeLen`, or 0 when that wraps around. */
  function WindowStart(offset: nat, beforeLen: nat): (from: nat)
    ensures offset <= SIZE_MAX && beforeLen <= SIZE_MAX ==>
      from == if offset >= beforeLen then offset - beforeLen else 0
  {
    var d := SizeSub(offset, beforeLen);
    if d > offset then 0 else d
  }

  /** End of the window: `offset + afterLen` on `size_t`. */
  function WindowEnd(offset: nat, afterLen: nat): (to: nat)
    ensures offset + afterLen <= SIZE_MAX ==> to == offset + afterLen
    ensures offset <= SIZE_MAX && afterLen <= SIZE_MAX && offset + afterLen > SIZE_MAX ==>
      to == offset + afterLen - SIZE_MODULUS && to < afterLen
  {
    SizeAdd(offset, afterLen)
  }

  /** Index of the changed chunk inside the window, as the sources compute it. */
  function BeforeIndex(offset: nat, beforeLen: nat, afterLen: nat): (before: nat)
    ensures afterLen <= beforeLen ==> before == Min(offset, beforeLen)
  {
    Min(if offset < afterLen then offset else beforeLen, offset)
  }

  /** The window of `data` around `offset`, clamped by `VectorSlice`. */
  function Window<T>(data: seq<T>, offset: nat, beforeLen: nat, afterLen: nat): seq<T>
  {
    VectorSlice(data, WindowStart(offset, beforeLen), WindowEnd(offset, afterLen))
  }

  /**
   * For an offset inside the data, the window is the plain slice around it
   * and the changed chunk sits at the before index.
   */
  lemma WindowAroundOffset<T>(data: seq<T>, offset: nat, beforeLen: nat, afterLen: nat)
    requires offset < |data| && |data| + afterLen <= SIZE_MAX && beforeLen <= SIZE_MAX
    requires 1 <= afterLen <= beforeLen
    ensures var w := Window(data, offset, beforeLen, afterLen);
      && w == data[Max(0, offset - beforeLen)..Min(|data|, offset + afterLen)]
      && BeforeIndex(offset, beforeLen, afterLen) < |w|
      && w[BeforeIndex(offset, beforeLen, afterLen)] == data[offset]
  {
    var w := Window(data, offset, beforeLen, afterLen);
    var from := Max(0, offset - beforeLen);
    assert WindowStart(offset, beforeLen) == from;
    assert w == data[from..Min(|data|, offset + afterLen)];
    assert w[offset - from] == data[offset];
  }

  /** The offset of a change before the first chunk wraps to `SIZE_MAX`; its window is empty. */
  lemma WindowAtWrappedOffset<T>(data: seq<T>, beforeLen: nat, afterLen: nat)
    requires 1 <= afterLen && beforeLen <= SIZE_MAX && afterLen <= SIZE_MAX && |data| + beforeLen <= SIZE_MAX
    ensures Window(data, SIZE_MAX, beforeLen, afterLen) == []
    ensures BeforeIndex(SIZE_MAX, beforeLen, afterLen) == beforeLen
  {
  }
}
