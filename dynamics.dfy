/**
 * Single-site exchange trials as values. The random choices of a step (the
 * site and the outcome of the acceptance draw) are a `Trial`; the lattice
 * after a run of trials is a function of the lattice before and the trials.
 */
module Dynamics {
  import opened Lattice
  import opened Observables

  /** One step's random choices: site (x, y) and whether the flip is accepted. */
  datatype Trial = Trial(x: int, y: int, accept: bool)

  predicate ValidTrial(t: Trial) {
    InRange(t.x, t.y)
  }

  predicate AllValid(ts: seq<Trial>) {
    forall i :: 0 <= i < |ts| ==> ValidTrial(ts[i])
  }

  /** The lattice after one trial: the chosen cell flipped if accepted, nothing else touched. */
  function ApplyTrial(g: Grid, t: Trial): (g': Grid)
    requires Shaped(g) && ValidTrial(t)
    ensures Shaped(g')
    ensures Binary(g) ==> Binary(g')
    ensures forall r, c :: 0 <= r < HEIGHT && 0 <= c < WIDTH ==>
      g'[r][c] == if t.accept && r == t.y && c == t.x then 1 - g[r][c] else g[r][c]
  {
    if t.accept then Flip(g, t.x, t.y) else g
  }

  /** The lattice after the trials, in order. A run in which every trial is rejected changes nothing. */
  function RunTrials(g: Grid, ts: seq<Trial>): (g': Grid)
    requires Shaped(g) && AllValid(ts)
    ensures Shaped(g')
    ensures (forall i :: 0 <= i < |ts| ==> !ts[i].accept) ==> g' == g
    decreases |ts|
  {
    if ts == [] then g else ApplyTrial(RunTrials(g, ts[..|ts| - 1]), ts[|ts| - 1])
  }

  /** Some trial accepted a flip at site (c, r). */
  predicate Touched(ts: seq<Trial>, r: int, c: int) {
    exists i :: 0 <= i < |ts| && ts[i].accept && ts[i].y == r && ts[i].x == c
  }

  /** A run of trials keeps every cell 0 or 1 and leaves every site no accepted trial chose as it was. */
  lemma {:induction false} RunTrialsFrame(g: Grid, ts: seq<Trial>)
    requires Shaped(g) && AllValid(ts)
    ensures Binary(g) ==> Binary(RunTrials(g, ts))
    ensures forall r, c :: 0 <= r < HEIGHT && 0 <= c < WIDTH && !Touched(ts, r, c) ==>
      RunTrials(g, ts)[r][c] == g[r][c]
  {
    if ts != [] {
      var front := ts[..|ts| - 1];
      assert AllValid(front);
      RunTrialsFrame(g, front);
    }
  }

  /** Each accepted trial adds or removes exactly one particle, so a run moves the count by at most its length. */
  lemma {:induction false} RunTrialsOccupiedDrift(g: Grid, ts: seq<Trial>)
    requires Shaped(g) && Binary(g) && AllValid(ts)
    ensures -|ts| <= Occupied(RunTrials(g, ts)) - Occupied(g) <= |ts|
  {
    if ts != [] {
      var front := ts[..|ts| - 1];
      var t := ts[|ts| - 1];
      assert AllValid(front);
      RunTrialsOccupiedDrift(g, front);
      RunTrialsFrame(g, front);
      if t.accept {
        FlipChangesOccupied(RunTrials(g, front), t.x, t.y);
      }
    }
  }
}
