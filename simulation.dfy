/**
 * The simulation controller: the lattice, the two parameters, the pause and
 * graph flags and the two statistics series, as one object whose methods
 * update them in place.
 */
module Simulation {
  import opened Lattice
  import Functional
  import opened Observables
  import opened Parameters
  import opened Statistics
  import opened Dynamics

  /** Trials per tick. */
  const SPEED: nat := 100
  /** Pixels per site; a graph spans WIDTH * CELL_SIZE points. */
  const CELL_SIZE: nat := 8
  const GRAPH_POINTS: nat := WIDTH * CELL_SIZE

  /** The keys the controller reacts to; every other key does nothing. */
  datatype Button = Escape | KeyP | KeyR | KeyS | KeyA | KeyD | KeyW | KeyX | KeyG | Other

  /** 0 becomes 1 and 1 becomes 0, as the pause and graph keys do. */
  function Toggle(flag: int): (r: int)
    ensures (flag == 0 || flag == 1) ==> (r == 0 || r == 1) && r != flag
  {
    1 - flag
  }

  /** Toggling twice restores the flag. */
  lemma ToggleTwice(flag: int)
    ensures Toggle(Toggle(flag)) == flag
  {
  }

  class PhaseTransition {
    var cells: Grid
    var temperature: real
    var chemPot: real
    var paused: int
    var graph: int
    var energyList: seq<int>
    var numberList: seq<int>

    /** The state every public method keeps. */
    ghost predicate Valid()
      reads this
    {
      Shaped(cells) && Binary(cells)
      && (paused == 0 || paused == 1) && (graph == 0 || graph == 1)
      && TemperatureInRange(temperature) && ChemPotInRange(chemPot)
      && |energyList| == |numberList|
    }

    /** Start paused, with the graphs shown, the default parameters and an empty lattice. */
    constructor ()
      ensures Valid()
      ensures cells == EmptyGrid() && energyList == [] && numberList == []
      ensures temperature == INITIAL_TEMPERATURE && chemPot == INITIAL_CHEM_POT
      ensures paused == 1 && graph == 1
    {
      temperature := INITIAL_TEMPERATURE;
      chemPot := INITIAL_CHEM_POT;
      paused := 1;
      graph := 1;
      cells := [];
      energyList := [];
      numberList := [];
      new;
      Reset();
    }

    /** Rebuild the lattice row by row as all empty and clear both series; nothing else changes. */
    method Reset()
      modifies this
      ensures cells == EmptyGrid() && energyList == [] && numberList == []
      ensures temperature == old(temperature) && chemPot == old(chemPot)
      ensures paused == old(paused) && graph == old(graph)
    {
      var rows: Grid := [];
      var row := 0;
      while row < HEIGHT
        invariant 0 <= row <= HEIGHT
        invariant rows == EmptyGrid()[..row]
      {
        rows := rows + [EmptyRow()];
        row := row + 1;
      }
      cells := rows;
      energyList := [];
      numberList := [];
    }

    /**
     * One exchange trial at the trial's site. Returns `h_current - h_new`,
     * the quantity the acceptance probability is computed from; the cell is
     * flipped exactly when the trial's draw accepts.
     */
    method Step(trial: Trial) returns (delta: real)
      requires Valid() && ValidTrial(trial)
      modifies this`cells
      ensures Valid()
      ensures delta == Functional.FlipDelta(old(cells)[trial.y][trial.x], NeighborSum(old(cells), trial.x, trial.y), chemPot)
      ensures -3.0 <= delta <= 3.0
      ensures cells == ApplyTrial(old(cells), trial)
    {
      var x, y := trial.x, trial.y;
      var occupied := cells[y][x];
      var neighbors := cells[Wrap(y + 1, HEIGHT)][x] + cells[Wrap(y - 1, HEIGHT)][x]
        + cells[y][Wrap(x + 1, WIDTH)] + cells[y][Wrap(x - 1, WIDTH)];
      var eCurrent := Functional.Energy(occupied, neighbors);
      var eNew := Functional.Energy(1 - occupied, neighbors);
      var nCurrent := Functional.Number(occupied, neighbors);
      var nNew := Functional.Number(1 - occupied, neighbors);
      var hCurrent := Functional.Hamiltonian(eCurrent, nCurrent, chemPot);
      var hNew := Functional.Hamiltonian(eNew, nNew, chemPot);
      delta := hCurrent - hNew;
      DeltaBound(cells, x, y, chemPot);
      if trial.accept {
        cells := cells[y := cells[y][x := 1 - cells[y][x]]];
      }
    }

    /** One tick: SPEED trials in order when running, nothing when paused. */
    method Update(trials: seq<Trial>)
      requires Valid() && |trials| == SPEED && AllValid(trials)
      modifies this`cells
      ensures Valid()
      ensures cells == if paused == 0 then RunTrials(old(cells), trials) else old(cells)
    {
      if paused == 0 {
        var i := 0;
        while i < SPEED
          invariant 0 <= i <= SPEED
          invariant Valid()
          invariant cells == RunTrials(old(cells), trials[..i])
        {
          var _ := Step(trials[i]);
          assert trials[..i + 1][..i] == trials[..i];
          i := i + 1;
        }
        assert trials[..SPEED] == trials;
      }
    }

    /**
     * The counting loop of a frame: the number of occupied sites and the
     * number of occupied sites with an occupied up- or left-neighbour.
     */
    method CountFrame() returns (cntEnergy: int, cntNumber: int)
      requires Valid()
      ensures cntNumber == Occupied(cells) && cntEnergy == Bonds(cells)
      ensures 0 <= cntNumber <= WIDTH * HEIGHT && 0 <= cntEnergy <= 2 * WIDTH * HEIGHT
    {
      var g := cells;
      cntEnergy, cntNumber := 0, 0;
      var row := 0;
      while row < HEIGHT
        invariant 0 <= row <= HEIGHT
        invariant cntNumber == SumGrid(Occ, g, row)
        invariant cntEnergy == SumGrid(SiteBonds, g, row)
      {
        cntEnergy, cntNumber := CountRow(g, row, cntEnergy, cntNumber);
        row := row + 1;
      }
    }

    /** The inner loop of the frame count: add row `row`'s sites to the running counts. */
    static method CountRow(g: Grid, row: int, cntEnergy0: int, cntNumber0: int) returns (cntEnergy: int, cntNumber: int)
      requires Shaped(g) && 0 <= row < HEIGHT
      ensures cntNumber == cntNumber0 + SumRow(Occ, g, row, WIDTH)
      ensures cntEnergy == cntEnergy0 + SumRow(SiteBonds, g, row, WIDTH)
    {
      cntEnergy, cntNumber := cntEnergy0, cntNumber0;
      var col := 0;
      while col < WIDTH
        invariant 0 <= col <= WIDTH
        invariant cntNumber == cntNumber0 + SumRow(Occ, g, row, col)
        invariant cntEnergy == cntEnergy0 + SumRow(SiteBonds, g, row, col)
      {
        FrameSiteTerms(g, row, col);
        if g[row][col] > 0 {
          cntNumber := cntNumber + 1;
          if g[Wrap(row - 1, HEIGHT)][col] > 0 {
            cntEnergy := cntEnergy + 1;
          }
          if g[row][Wrap(col - 1, WIDTH)] > 0 {
            cntEnergy := cntEnergy + 1;
          }
        }
        col := col + 1;
      }
    }

    /**
     * One frame: record one energy sample and one number sample, then, when
     * the graphs are on, hand back the tails of the two series they plot.
     */
    method Draw() returns (numberPlot: Option<seq<int>>, energyPlot: Option<seq<int>>)
      requires Valid()
      modifies this`energyList, this`numberList
      ensures Valid()
      ensures energyList == old(energyList) + [Bonds(cells)]
      ensures numberList == old(numberList) + [Occupied(cells)]
      ensures graph > 0 ==> numberPlot == Statistics.GraphTail(numberList, GRAPH_POINTS)
      ensures graph > 0 ==> energyPlot == Statistics.GraphTail(energyList, GRAPH_POINTS)
      ensures graph == 0 ==> numberPlot.None? && energyPlot.None?
    {
      var cntEnergy, cntNumber := CountFrame();
      energyList := energyList + [cntEnergy];
      numberList := numberList + [cntNumber];
      numberPlot, energyPlot := None, None;
      if graph > 0 {
        numberPlot := Statistics.GraphTail(numberList, GRAPH_POINTS);
        energyPlot := Statistics.GraphTail(energyList, GRAPH_POINTS);
      }
    }

    /**
     * A key press. S runs one trial whatever the pause state, R resets, P and
     * G toggle their flags, A/D and W/X step the temperature and the chemical
     * potential and clamp them; Escape (closing the window) is not modelled.
     */
    method ButtonDown(id: Button, trial: Trial)
      requires Valid() && (id == KeyS ==> ValidTrial(trial))
      modifies this
      ensures Valid()
      ensures paused == if id == KeyP then Toggle(old(paused)) else old(paused)
      ensures graph == if id == KeyG then Toggle(old(graph)) else old(graph)
      ensures temperature == match id
        case KeyA => Parameters.StepDown(old(temperature), MIN_TEMPERATURE)
        case KeyD => Parameters.StepUp(old(temperature), MAX_TEMPERATURE)
        case _ => old(temperature)
      ensures chemPot == match id
        case KeyW => Parameters.StepUp(old(chemPot), MAX_CHEM_POT)
        case KeyX => Parameters.StepDown(old(chemPot), MIN_CHEM_POT)
        case _ => old(chemPot)
      ensures cells == match id
        case KeyR => EmptyGrid()
        case KeyS => ApplyTrial(old(cells), trial)
        case _ => old(cells)
      ensures id == KeyR ==> energyList == [] && numberList == []
      ensures id != KeyR ==> energyList == old(energyList) && numberList == old(numberList)
    {
      if id == KeyP {
        paused := 1 - paused;
      }
      if id == KeyR {
        Reset();
      }
      if id == KeyS {
        var _ := Step(trial);
      }
      if id == KeyA {
        temperature := temperature - STEP;
        temperature := Parameters.Max(temperature, MIN_TEMPERATURE);
      }
      if id == KeyD {
        temperature := temperature + STEP;
        temperature := Parameters.Min(temperature, MAX_TEMPERATURE);
      }
      if id == KeyW {
        chemPot := chemPot + STEP;
        chemPot := Parameters.Min(chemPot, MAX_CHEM_POT);
      }
      if id == KeyX {
        chemPot := chemPot - STEP;
        chemPot := Parameters.Max(chemPot, MIN_CHEM_POT);
      }
      if id == KeyG {
        graph := 1 - graph;
      }
    }
  }

  /**
   * On a 0/1 lattice with the chemical potential in range, `h_current - h_new`
   * is `±(neighbours + mu)` with `neighbours` in 0..4 and `mu` in [-3, -1],
   * so it lies in [-3, 3].
   */
  lemma DeltaBound(g: Grid, x: int, y: int, mu: real)
    requires Shaped(g) && Binary(g) && InRange(x, y) && ChemPotInRange(mu)
    ensures -3.0 <= Functional.FlipDelta(g[y][x], NeighborSum(g, x, y), mu) <= 3.0
  {
  }

  /**
   * The argument `(h_current - h_new) / T` of the exponential lies in [-30, 30]
   * for every in-range temperature, so `q` stays finite and positive.
   */
  lemma ExpArgumentBound(g: Grid, x: int, y: int, mu: real, t: real)
    requires Shaped(g) && Binary(g) && InRange(x, y) && ChemPotInRange(mu) && TemperatureInRange(t)
    ensures -30.0 <= Functional.FlipDelta(g[y][x], NeighborSum(g, x, y), mu) / t <= 30.0
  {
    DeltaBound(g, x, y, mu);
    QuotientBound(Functional.FlipDelta(g[y][x], NeighborSum(g, x, y), mu), t);
  }

  /** A quantity of size at most 3 divided by a temperature of at least 0.1 has size at most 30. */
  lemma QuotientBound(d: real, t: real)
    requires -3.0 <= d <= 3.0 && 0.1 <= t
    ensures -30.0 <= d / t <= 30.0
  {
  }

  /** Resetting twice leaves a simulator in the same state as resetting once. */
  method ResetIsIdempotent(once: PhaseTransition, twice: PhaseTransition)
    requires once != twice
    requires once.temperature == twice.temperature && once.chemPot == twice.chemPot
    requires once.paused == twice.paused && once.graph == twice.graph
    modifies once, twice
    ensures once.cells == twice.cells && once.energyList == twice.energyList && once.numberList == twice.numberList
    ensures once.temperature == twice.temperature && once.chemPot == twice.chemPot
    ensures once.paused == twice.paused && once.graph == twice.graph
  {
    once.Reset();
    twice.Reset();
    twice.Reset();
  }
}
