/** Python's `xs[:stop]` for an integer `stop`, negative values counting from the end. */
module Slices {

  /** The index at which `xs[:stop]` ends, for a list of length `len`. */
  function SliceEnd(len: nat, stop: int): (e: nat)
    ensures e <= len
  {
    if stop < 0 then (if len + stop >= 0 then len + stop else 0)
    else if stop <= len then stop else len
  }

  /** `xs[:stop]`. */
  function Prefix<T>(xs: seq<T>, stop: int): (r: seq<T>)
    ensures |r| == SliceEnd(|xs|, stop)
    ensures forall i :: 0 <= i < |r| ==> r[i] == xs[i]
  {
    xs[..SliceEnd(|xs|, stop)]
  }
}
