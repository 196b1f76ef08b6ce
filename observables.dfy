/**
 * The per-frame observables of the lattice: the number of occupied sites and
 * the number of bonds, a bond being an occupied site together with an
 * occupied up-neighbour or an occupied left-neighbour (so that every pair of
 * adjacent occupied sites is counted once). Both are sums of a per-site term
 * over the grid in row-major order, which is the order the frame loop visits.
 */
module Observables {
  import opened Lattice
  import Functional

  /** 1 when site (c, r) holds a positive value, as the frame loop tests it; 0 otherwise. */
  function Occ(g: Grid, r: int, c: int): (o: int)
    ensures o == 0 || o == 1
  {
    if 0 <= r < |g| && 0 <= c < |g[r]| && g[r][c] > 0 then 1 else 0
  }

  /** The bonds counted at site (c, r): its up- and left-neighbour, if it is occupied. */
  function SiteBonds(g: Grid, r: int, c: int): (b: int)
    ensures 0 <= b <= 2
  {
    if Occ(g, r, c) == 1 then Occ(g, Wrap(r - 1, HEIGHT), c) + Occ(g, r, Wrap(c - 1, WIDTH)) else 0
  }

  /**
   * A per-site term: its value at site (c, r) of a lattice. The lattice is an
   * explicit argument rather than captured by the term, so that a sum over a
   * lattice that is not a literal is not unrolled site by site by the verifier;
   * terms built inside a proof may ignore it.
   */
  type SiteTerm = (Grid, int, int) -> int

  /** The two per-site terms of site (c, r), spelled out as the frame loop tests them. */
  lemma FrameSiteTerms(g: Grid, r: int, c: int)
    requires Shaped(g) && 0 <= r < HEIGHT && 0 <= c < WIDTH
    ensures Occ(g, r, c) == if g[r][c] > 0 then 1 else 0
    ensures SiteBonds(g, r, c) ==
      if g[r][c] > 0 then
        (if g[Wrap(r - 1, HEIGHT)][c] > 0 then 1 else 0) + (if g[r][Wrap(c - 1, WIDTH)] > 0 then 1 else 0)
      else 0
  {
  }

  /** Sum of `f(g, r, c)` over the first n columns of row r. */
  function SumRow(f: SiteTerm, g: Grid, r: int, n: nat): int {
    if n == 0 then 0 else SumRow(f, g, r, n - 1) + f(g, r, n - 1)
  }

  /** Sum of `f(g, r, c)` over the first m full rows. */
  function SumGrid(f: SiteTerm, g: Grid, m: nat): int {
    if m == 0 then 0 else SumGrid(f, g, m - 1) + SumRow(f, g, m - 1, WIDTH)
  }

  /** The number of occupied sites (`cnt_number` of a frame). */
  function Occupied(g: Grid): (k: int)
    ensures 0 <= k <= WIDTH * HEIGHT
  {
    SumGridBounds(Occ, g, HEIGHT, 1);
    SumGrid(Occ, g, HEIGHT)
  }

  /** The number of bonds (`cnt_energy` of a frame). */
  function Bonds(g: Grid): (k: int)
    ensures 0 <= k <= 2 * WIDTH * HEIGHT
  {
    SumGridBounds(SiteBonds, g, HEIGHT, 2);
    SumGrid(SiteBonds, g, HEIGHT)
  }

  lemma {:induction false} SumRowBounds(f: SiteTerm, g: Grid, r: int, n: nat, k: int)
    requires forall c :: 0 <= c < n ==> 0 <= f(g, r, c) <= k
    ensures 0 <= SumRow(f, g, r, n) <= n * k
  {
    if n > 0 {
      SumRowBounds(f, g, r, n - 1, k);
      assert n * k == (n - 1) * k + k;
    }
  }

  lemma {:induction false} SumGridBounds(f: SiteTerm, g: Grid, m: nat, k: int)
    requires forall r, c :: 0 <= r < m && 0 <= c < WIDTH ==> 0 <= f(g, r, c) <= k
    ensures 0 <= SumGrid(f, g, m) <= m * WIDTH * k
  {
    if m > 0 {
      SumGridBounds(f, g, m - 1, k);
      SumRowBounds(f, g, m - 1, WIDTH, k);
      assert m * WIDTH * k == (m - 1) * WIDTH * k + WIDTH * k;
    }
  }

  /** Row sums of two terms that agree except at column c0 differ by their difference there. */
  lemma {:induction false} SumRowPoint(f: SiteTerm, g: Grid, h: SiteTerm, g2: Grid, r: int, n: nat, c0: int)
    requires forall c :: 0 <= c < n && c != c0 ==> f(g, r, c) == h(g2, r, c)
    ensures SumRow(f, g, r, n) - SumRow(h, g2, r, n) == if 0 <= c0 < n then f(g, r, c0) - h(g2, r, c0) else 0
  {
    if n > 0 {
      SumRowPoint(f, g, h, g2, r, n - 1, c0);
    }
  }

  /** Grid sums of two terms that agree except at site (c0, r0) differ by their difference there. */
  lemma {:induction false} SumGridPoint(f: SiteTerm, g: Grid, h: SiteTerm, g2: Grid, m: nat, r0: int, c0: int)
    requires forall r, c :: 0 <= r < m && 0 <= c < WIDTH && !(r == r0 && c == c0) ==> f(g, r, c) == h(g2, r, c)
    ensures SumGrid(f, g, m) - SumGrid(h, g2, m) ==
      if 0 <= r0 < m && 0 <= c0 < WIDTH then f(g, r0, c0) - h(g2, r0, c0) else 0
  {
    if m > 0 {
      SumGridPoint(f, g, h, g2, m - 1, r0, c0);
      SumRowPoint(f, g, h, g2, m - 1, WIDTH, if m - 1 == r0 then c0 else -1);
    }
  }

  /** A lattice with every cell empty, such as the one a reset builds, has no particles and no bonds. */
  lemma EmptyLatticeObservables(g: Grid)
    requires Shaped(g)
    requires forall r, c :: 0 <= r < HEIGHT && 0 <= c < WIDTH ==> g[r][c] == 0
    ensures Occupied(g) == 0 && Bonds(g) == 0
  {
    forall r, c | 0 <= r < HEIGHT && 0 <= c < WIDTH
      ensures Occ(g, r, c) == 0 && SiteBonds(g, r, c) == 0
    {
      assert g[r][c] == 0;
    }
    SumGridBounds(Occ, g, HEIGHT, 0);
    SumGridBounds(SiteBonds, g, HEIGHT, 0);
  }

  /** A flip adds one particle at an empty site and removes one at an occupied site. */
  lemma FlipChangesOccupied(g: Grid, x: int, y: int)
    requires Shaped(g) && Binary(g) && InRange(x, y)
    ensures Occupied(Flip(g, x, y)) - Occupied(g) == if g[y][x] == 0 then 1 else -1
  {
    OccAgreeOutside(g, x, y);
    SumGridPoint(Occ, Flip(g, x, y), Occ, g, HEIGHT, y, x);
  }

  /** A flip changes the occupation term of the flipped site by one and of no other site. */
  lemma OccAgreeOutside(g: Grid, x: int, y: int)
    requires Shaped(g) && Binary(g) && InRange(x, y)
    ensures forall r, c ::
              0 <= r < HEIGHT && 0 <= c < WIDTH && !(r == y && c == x)
              ==> Occ(Flip(g, x, y), r, c) == Occ(g, r, c)
    ensures Occ(Flip(g, x, y), y, x) - Occ(g, y, x) == if g[y][x] == 0 then 1 else -1
  {
  }

  /**
   * A flip at (x, y) changes the bond count by plus or minus the neighbour
   * sum: the bonds the site makes with its up- and left-neighbour are
   * counted at the site itself, those with its down- and right-neighbour at
   * those neighbours. These three sites are distinct on a lattice this size.
   */
  lemma FlipChangesBonds(g: Grid, x: int, y: int)
    requires Shaped(g) && Binary(g) && InRange(x, y)
    ensures Bonds(Flip(g, x, y)) - Bonds(g) ==
      if g[y][x] == 0 then NeighborSum(g, x, y) else -NeighborSum(g, x, y)
  {
    var g' := Flip(g, x, y);
    var down, right := Wrap(y + 1, HEIGHT), Wrap(x + 1, WIDTH);
    FlipBondsThreeSites(g, x, y);
    FlipBondTerms(g, x, y);
    var n := NeighborSum(g, x, y);
    assert n == g[down][x] + g[Wrap(y - 1, HEIGHT)][x] + g[y][right] + g[y][Wrap(x - 1, WIDTH)];
    if g[y][x] != 0 {
      assert g[y][x] == 1;
    }
  }

  /** The bond count after a flip differs from before only by the terms of three sites. */
  lemma FlipBondsThreeSites(g: Grid, x: int, y: int)
    requires Shaped(g) && InRange(x, y)
    ensures var g' := Flip(g, x, y);
      var down, right := Wrap(y + 1, HEIGHT), Wrap(x + 1, WIDTH);
      Bonds(g') - Bonds(g) ==
        (SiteBonds(g', y, x) - SiteBonds(g, y, x))
        + (SiteBonds(g', down, x) - SiteBonds(g, down, x))
        + (SiteBonds(g', y, right) - SiteBonds(g, y, right))
  {
    var g' := Flip(g, x, y);
    var down, right := Wrap(y + 1, HEIGHT), Wrap(x + 1, WIDTH);
    // The terms of g with the new terms swapped in at (x, y), then also at (x, down).
    var f1 := (_: Grid, r: int, c: int) => if r == y && c == x then SiteBonds(g', r, c) else SiteBonds(g, r, c);
    var f2 := (_: Grid, r: int, c: int) => if r == down && c == x then SiteBonds(g', r, c) else f1(g, r, c);
    BondsAgreeOutside(g, x, y);
    assert down != y && right != x;
    SumGridPoint(SiteBonds, g', f2, g, HEIGHT, y, right);
    SumGridPoint(f2, g, f1, g, HEIGHT, down, x);
    SumGridPoint(f1, g, SiteBonds, g, HEIGHT, y, x);
  }

  /** Only the flipped site and its down- and right-neighbour count different bonds after a flip. */
  lemma BondsAgreeOutside(g: Grid, x: int, y: int)
    requires Shaped(g) && InRange(x, y)
    ensures forall r, c ::
              0 <= r < HEIGHT && 0 <= c < WIDTH && !(r == y && c == x)
              && !(r == Wrap(y + 1, HEIGHT) && c == x) && !(r == y && c == Wrap(x + 1, WIDTH))
              ==> SiteBonds(Flip(g, x, y), r, c) == SiteBonds(g, r, c)
  {
  }

  /** The three bond terms a flip at (x, y) changes, and by how much: by the neighbour's occupation, with the sign of the flip. */
  lemma FlipBondTerms(g: Grid, x: int, y: int)
    requires Shaped(g) && Binary(g) && InRange(x, y)
    ensures var g' := Flip(g, x, y);
      var down, right := Wrap(y + 1, HEIGHT), Wrap(x + 1, WIDTH);
      var sign := if g[y][x] == 0 then 1 else -1;
      SiteBonds(g', y, x) - SiteBonds(g, y, x)
        == sign * (g[Wrap(y - 1, HEIGHT)][x] + g[y][Wrap(x - 1, WIDTH)]) &&
      SiteBonds(g', down, x) - SiteBonds(g, down, x) == sign * g[down][x] &&
      SiteBonds(g', y, right) - SiteBonds(g, y, right) == sign * g[y][right]
  {
  }

  /** The grand-canonical Hamiltonian `E - mu * N` of a lattice with the given bond and particle counts, `E = -bonds`. */
  function GrandCanonical(bonds: int, particles: int, chemPot: real): real {
    -(bonds as real) - chemPot * particles as real
  }

  /** The grand-canonical Hamiltonian of the whole lattice. */
  function TotalHamiltonian(g: Grid, chemPot: real): real {
    GrandCanonical(Bonds(g), Occupied(g), chemPot)
  }

  /**
   * The local difference `h_current - h_new` a step computes is exactly the
   * drop of the whole lattice's Hamiltonian that the flip would cause.
   */
  lemma FlipDeltaIsGlobal(g: Grid, x: int, y: int, chemPot: real)
    requires Shaped(g) && Binary(g) && InRange(x, y)
    ensures TotalHamiltonian(g, chemPot) - TotalHamiltonian(Flip(g, x, y), chemPot)
      == Functional.FlipDelta(g[y][x], NeighborSum(g, x, y), chemPot)
  {
    var g', n := Flip(g, x, y), NeighborSum(g, x, y);
    FlipChangesOccupied(g, x, y);
    FlipChangesBonds(g, x, y);
    if g[y][x] == 0 {
      GrandCanonicalShift(Bonds(g), Occupied(g), Bonds(g'), Occupied(g'), n, 1, chemPot);
    } else {
      assert g[y][x] == 1;
      GrandCanonicalShift(Bonds(g), Occupied(g), Bonds(g'), Occupied(g'), n, -1, chemPot);
    }
  }

  /** Adding `sign` particles and `sign * n` bonds lowers the Hamiltonian by `sign * (n + mu)`. */
  lemma GrandCanonicalShift(b: int, k: int, b': int, k': int, n: int, sign: int, chemPot: real)
    requires sign == 1 || sign == -1
    requires b' == b + sign * n && k' == k + sign
    ensures GrandCanonical(b, k, chemPot) - GrandCanonical(b', k', chemPot)
      == if sign == 1 then n as real + chemPot else -(n as real) - chemPot
  {
  }
}
