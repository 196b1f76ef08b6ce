/**
 * The local energy and number functionals of one site, and the change of the
 * grand-canonical Hamiltonian `E - mu * N` that flipping the site causes.
 */
module Functional {

  /** Energy of a site: an occupied site gets -1 per occupied neighbour. */
  function Energy(occupied: int, neighbors: int): (e: int)
    ensures occupied == 0 ==> e == 0
    ensures occupied == 1 ==> e == -neighbors
    ensures (occupied == 0 || occupied == 1) && 0 <= neighbors <= 4 ==> -4 <= e <= 0
  {
    -occupied * neighbors
  }

  /** Particle number of a site: its occupation. */
  function Number(occupied: int, neighbors: int): (n: int)
    ensures (occupied == 0 || occupied == 1) ==> 0 <= n <= 1
    ensures n == 1 <==> occupied == 1
  {
    occupied
  }

  /** Grand-canonical Hamiltonian `e - chemPot * n` of one site. */
  function Hamiltonian(e: int, n: int, chemPot: real): (h: real)
    ensures n == 0 ==> h == e as real
    ensures n == 1 ==> h == e as real - chemPot
  {
    e as real - chemPot * n as real
  }

  /**
   * `h_current - h_new` for the proposal that replaces `occupied` by
   * `1 - occupied` at a site with `neighbors` occupied neighbours.
   * The acceptance probability of the move is a function of this value
   * divided by the temperature.
   */
  function FlipDelta(occupied: int, neighbors: int, chemPot: real): (d: real)
    ensures d == (1 - 2 * occupied) as real * (neighbors as real + chemPot)
    ensures occupied == 1 ==> d == -(neighbors as real) - chemPot
    ensures occupied == 0 ==> d == neighbors as real + chemPot
  {
    var hCurrent := Hamiltonian(Energy(occupied, neighbors), Number(occupied, neighbors), chemPot);
    var hNew := Hamiltonian(Energy(1 - occupied, neighbors), Number(1 - occupied, neighbors), chemPot);
    hCurrent - hNew
  }

  /** Flipping a site and flipping it back: the two deltas cancel. */
  lemma FlipDeltaAntisymmetric(occupied: int, neighbors: int, chemPot: real)
    ensures FlipDelta(1 - occupied, neighbors, chemPot) == -FlipDelta(occupied, neighbors, chemPot)
  {
  }
}
