/** `slice::chunks`: how the candidate list is cut into batches. */
module Batches {
  import opened Seqs

  /** The number of lookups launched together before the next barrier. */
  const BatchSize: nat := 100

  /** Consecutive pieces of `s` of length `n`, the last one possibly shorter;
      no piece for an empty `s`. (`chunks(0)` panics; the program passes 100.) */
  function Chunks<T>(s: seq<T>, n: nat): (r: seq<seq<T>>)
    requires n > 0
    ensures Flatten(r) == s
    ensures forall i :: 0 <= i < |r| ==> 0 < |r[i]| <= n
    ensures forall i :: 0 <= i < |r| - 1 ==> |r[i]| == n
    decreases |s|
  {
    if s == [] then []
    else if |s| <= n then
      FlattenSingle(s);
      [s]
    else
      var rest := Chunks(s[n..], n);
      assert ([s[..n]] + rest)[1..] == rest;
      assert s == s[..n] + s[n..];
      [s[..n]] + rest
  }
}
