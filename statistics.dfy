/**
 * The two statistics series (one energy and one number sample per frame)
 * and the tail of a series that the graph shows.
 */
module Statistics {

  datatype Option<T> = None | Some(value: T)

  /** `[a, b].min` on sample counts and indices; the parameters have their own real-valued versions. */
  function Min(a: int, b: int): int {
    if a <= b then a else b
  }

  function Max(a: int, b: int): int {
    if a >= b then a else b
  }

  /** Ruby's `ary.drop(n)`: everything after the first n elements, nothing when n exceeds the length. */
  function Drop(s: seq<int>, n: nat): (r: seq<int>)
    ensures |r| == if n <= |s| then |s| - n else 0
    ensures forall i :: 0 <= i < |r| ==> r[i] == s[n + i]
  {
    if n <= |s| then s[n..] else []
  }

  /**
   * The points a graph shows: the last `numPoints` samples of `ary`, in
   * order; `None` (the early `false` return) when there are no samples.
   */
  function GraphTail(ary: seq<int>, numPoints: int): (r: Option<seq<int>>)
    ensures r.None? <==> ary == []
    ensures r.Some? ==> |r.value| == Min(Max(numPoints, 0), |ary|)
    ensures r.Some? ==> forall i :: 0 <= i < |r.value| ==> r.value[i] == ary[|ary| - |r.value| + i]
    ensures r.Some? && numPoints >= |ary| ==> r.value == ary
  {
    if ary == [] then None
    else Some(Drop(ary, Max(|ary| - numPoints, 0)))
  }

  /** Once a sample has been recorded, a graph of at least one point ends with it. */
  lemma GraphTailEndsWithLatest(ary: seq<int>, sample: int, numPoints: int)
    requires numPoints > 0
    ensures GraphTail(ary + [sample], numPoints).Some?
    ensures var t := GraphTail(ary + [sample], numPoints).value; t != [] && t[|t| - 1] == sample
  {
  }
}
