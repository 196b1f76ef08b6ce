/**
 * The lattice of the phase-transition simulator: HEIGHT rows of WIDTH cells,
 * each cell 0 (empty) or 1 (occupied), with periodic (toroidal) boundaries.
 * The grid is a list of rows, as the simulator keeps it.
 */
module Lattice {

  const WIDTH: nat := 160
  const HEIGHT: nat := 100

  /** Rows of cells, indexed `g[row][column]`, i.e. `g[y][x]`. */
  type Grid = seq<seq<int>>

  /** HEIGHT rows, each of WIDTH cells. */
  predicate Shaped(g: Grid) {
    |g| == HEIGHT && forall r :: 0 <= r < |g| ==> |g[r]| == WIDTH
  }

  /** Every cell holds 0 or 1. */
  predicate Binary(g: Grid) {
    forall r, c :: 0 <= r < |g| && 0 <= c < |g[r]| ==> g[r][c] == 0 || g[r][c] == 1
  }

  /** A site the simulator may pick: column x, row y. */
  predicate InRange(x: int, y: int) {
    0 <= x < WIDTH && 0 <= y < HEIGHT
  }

  /**
   * The index `i % n` of a wrapped coordinate. Ruby's `%` with a positive
   * divisor is never negative, which is Dafny's Euclidean `%`.
   */
  function Wrap(i: int, n: int): (r: int)
    requires n > 0
    ensures 0 <= r < n
    ensures 0 <= i < n ==> r == i
    ensures i == -1 ==> r == n - 1
    ensures i == n ==> r == 0
  {
    i % n
  }

  /** Moving a coordinate by whole turns of the torus does not move it. */
  lemma {:induction false} WrapPeriodic(i: int, k: int, n: int)
    requires n > 0
    ensures Wrap(i + k * n, n) == Wrap(i, n)
    decreases if k < 0 then -k else k
  {
    if k > 0 {
      WrapPeriodic(i, k - 1, n);
      assert i + k * n == (i + (k - 1) * n) + n;
      ModShift(i + (k - 1) * n, n);
    } else if k < 0 {
      WrapPeriodic(i, k + 1, n);
      assert i + (k + 1) * n == (i + k * n) + n;
      ModShift(i + k * n, n);
    }
  }

  /** One whole turn: `(j + n) % n == j % n`. */
  lemma ModShift(j: int, n: int)
    requires n > 0
    ensures (j + n) % n == j % n
  {
    var q, r := j / n, j % n;
    assert j == q * n + r;
    assert j + n == (q + 1) * n + r;
    ModUnique(j + n, n, q + 1, r);
  }

  /** Division with remainder is unique: `j == q * n + r` with `0 <= r < n` fixes `j % n`. */
  lemma ModUnique(j: int, n: int, q: int, r: int)
    requires n > 0 && 0 <= r < n && j == q * n + r
    ensures j % n == r
  {
    var q', r' := j / n, j % n;
    assert j == q' * n + r';
    var d := q - q';
    assert d * n == r' - r by {
      assert q * n - q' * n == (q - q') * n;
    }
    if d >= 1 {
      MulAtLeast(d, n);
    } else if d <= -1 {
      MulAtLeast(-d, n);
    }
  }

  lemma MulAtLeast(a: int, n: int)
    requires a >= 1 && n > 0
    ensures a * n >= n
  {
  }

  /** The sum of the four orthogonal neighbours of site (x, y), each index wrapped. */
  function NeighborSum(g: Grid, x: int, y: int): (s: int)
    requires Shaped(g) && InRange(x, y)
    ensures Binary(g) ==> 0 <= s <= 4
  {
    g[Wrap(y + 1, HEIGHT)][x] + g[Wrap(y - 1, HEIGHT)][x]
      + g[y][Wrap(x + 1, WIDTH)] + g[y][Wrap(x - 1, WIDTH)]
  }

  /** The grid with cell (x, y) replaced by `1 - cell`. */
  function Flip(g: Grid, x: int, y: int): (g': Grid)
    requires Shaped(g) && InRange(x, y)
    ensures Shaped(g')
    ensures forall r, c {:trigger g'[r][c]} :: 0 <= r < HEIGHT && 0 <= c < WIDTH ==>
      g'[r][c] == if r == y && c == x then 1 - g[r][c] else g[r][c]
    ensures Binary(g) ==> Binary(g')
  {
    g[y := g[y][x := 1 - g[y][x]]]
  }

  /** One row of WIDTH empty cells, Ruby's `[0]*WIDTH`. */
  function EmptyRow(): (row: seq<int>)
    ensures |row| == WIDTH && forall c :: 0 <= c < |row| ==> row[c] == 0
  {
    seq(WIDTH, _ => 0)
  }

  /** The lattice with every site empty. */
  function EmptyGrid(): (g: Grid)
    ensures Shaped(g) && Binary(g)
    ensures forall r, c :: 0 <= r < HEIGHT && 0 <= c < WIDTH ==> g[r][c] == 0
  {
    seq(HEIGHT, _ => EmptyRow())
  }
}
