/**
 * Python's suffix slice `xs[-n:]`, which both `add_interaction` (trimming) and
 * `get_history` (the last n entries) use. Python first turns the negative start
 * into an index by adding the length and then clamps it into [0, len]; the
 * consequences are that `xs[-0:]` is the whole list and that a negative n
 * (a positive start) drops a prefix of n entries instead.
 */
module Slices {

  /** The index Python's slicing uses for a start value `start` on a sequence of length `len`. */
  function SliceStart(start: int, len: nat): (i: nat)
    ensures i <= len
    ensures start < 0 && start + len >= 0 ==> i == start + len
    ensures start < 0 && start + len < 0 ==> i == 0
    ensures 0 <= start <= len ==> i == start
    ensures start > len ==> i == len
  {
    if start < 0 then
      if start + len < 0 then 0 else start + len
    else if start > len then len
    else start
  }

  /** `xs[-n:]`. */
  function LastN<T>(xs: seq<T>, n: int): (r: seq<T>)
    ensures n >= 1 ==> |r| == if n <= |xs| then n else |xs|
    ensures n == 0 ==> r == xs
    ensures n < 0 ==> r == xs[if -n <= |xs| then -n else |xs|..]
    ensures exists k :: 0 <= k <= |xs| && r == xs[k..]
  {
    xs[SliceStart(-n, |xs|)..]
  }

  /** For n >= 1, `xs[-n:]` is exactly the suffix of the last min(n, len) entries. */
  lemma LastNIsSuffix<T>(xs: seq<T>, n: int)
    requires n >= 1
    ensures LastN(xs, n) == xs[|xs| - (if n <= |xs| then n else |xs|)..]
    ensures n >= |xs| ==> LastN(xs, n) == xs
  {
  }
}
