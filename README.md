# Phase transition lattice gas — a Dafny model

`PhaseTransition` (ruby/main.rb) simulates a lattice gas on a 160 × 100
periodic grid. Every cell is empty (0) or occupied (1). On each tick
(`update`), while the simulation runs, `SPEED` = 100 single-site exchange
steps are made.

A step (`step`) does the following:

- picks a site;
- sums its four wrapped neighbours;
- compares the grand-canonical Hamiltonian `E - mu * N` of the site before
  and after replacing its occupation by `1 - occupation`, where the energy
  functional is `-occupied * neighbours` and the number functional is
  `occupied`;
- makes that flip with probability `q / (1 + q)`, where
  `q = exp((h_current - h_new) / T)`.

Each frame (`draw`) counts the occupied sites and the bonds. Each
occupied site counts one bond for an occupied up-neighbour and one for an
occupied left-neighbour. The frame pushes one sample onto each of two series and,
when the graphs are on, hands each series and the count `WIDTH * CELL_SIZE`
to the graph routine, which keeps the last that many samples.

Key presses (`button_down`) do the following:

- P toggles pause;
- G toggles the graphs;
- R resets the lattice and the series;
- S makes one step;
- A/D and W/X move the temperature and the chemical potential by 0.1,
  clamped to [0.1, 1.0] and [-3.0, -1.0].

The model is split by concern:

- `lattice.dfy` (module `Lattice`): the grid as a sequence of rows, the
  wrap-around index, the neighbour sum, the one-cell flip and the empty
  lattice.
- `functional.dfy` (module `Functional`): the site functionals and the
  Hamiltonian difference of a flip.
- `observables.dfy` (module `Observables`): the particle and bond counts as
  sums over the grid in row-major order. Also what a flip does to them, and
  why the local difference a step computes is the change of the whole
  lattice's Hamiltonian.
- `dynamics.dfy` (module `Dynamics`): a step's random choices as a value
  (`Trial`), and runs of trials as functions on lattices.
- `parameters.dfy` (module `Parameters`): temperature and chemical
  potential, their one-step changes and their clamping.
- `statistics.dfy` (module `Statistics`): the graph tail of a series.
- `simulation.dfy` (module `Simulation`): the `PhaseTransition` object. Its
  fields are updated in place by `Reset`, `Step`, `Update`, `Draw` and
  `ButtonDown`, and every method keeps the invariant `Valid()`:
  - the grid has the right shape;
  - every cell is 0 or 1;
  - both flags are 0 or 1;
  - both parameters are in range;
  - the two series have equal lengths.

The model follows the code wherever the comments disagree with it. The
comment at ruby/main.rb:37 gives the temperature range as [0, 1], but the
code clamps at 0.1 (ruby/main.rb:213), and the model uses 0.1.

## Model

| member | source | states |
|---|---|---|
| Lattice.Wrap | ruby/main.rb:79-82 | Ruby's `i % n` for a positive `n` always lies in `[0, n)`: an in-range index is unchanged, `-1` wraps to `n - 1` and `n` wraps to `0`, so all four neighbour indices of an in-range site are in range |
| Lattice.WrapPeriodic | ruby/main.rb:79-82 | shifting a coordinate by any whole number of periods does not change the wrapped index: the grid is a torus |
| Lattice.NeighborSum | ruby/main.rb:79-82 | on a 0/1 lattice the sum of the four wrapped neighbours of an in-range site lies in [0, 4] |
| Lattice.Flip | ruby/main.rb:98-100 | writing `1 - cell` at (x, y) keeps the grid's shape and its 0/1 values, changes that cell to `1 - old`, and leaves every other cell as it was |
| Lattice.EmptyRow | ruby/main.rb:52-52 | one row of the rebuilt lattice: WIDTH cells, every one 0 |
| Lattice.EmptyGrid | ruby/main.rb:50-53 | the rebuilt lattice has HEIGHT rows of WIDTH cells, all 0 |
| Functional.Energy | ruby/main.rb:60-62 | an empty site has energy 0 and an occupied one `-neighbours`, so a 0/1 site with at most four occupied neighbours has energy between -4 and 0 |
| Functional.Number | ruby/main.rb:65-67 | the site's particle number is 1 exactly when it is occupied, and lies in 0..1 for a 0/1 site, whatever its neighbours |
| Functional.Hamiltonian | ruby/main.rb:91-92 | `energy - mu * number`: the energy alone when the number is 0, and the energy minus `mu` when it is 1 |
| Functional.FlipDelta | ruby/main.rb:60-92 | `h_current - h_new` equals `(1 - 2 * occupied) * (neighbours + mu)`: `-neighbours - mu` for an occupied site and `neighbours + mu` for an empty one |
| Functional.FlipDeltaAntisymmetric | ruby/main.rb:85-92 | the difference for flipping back is the negation of the difference for flipping |
| Observables.FrameSiteTerms | ruby/main.rb:160-170 | the particle term and the bond term of a site are exactly what the frame loop's three `> 0` tests add for that site |
| Observables.Occupied | ruby/main.rb:157-161 | the particle count of a frame lies in [0, WIDTH * HEIGHT] |
| Observables.Bonds | ruby/main.rb:157-170 | the bond count of a frame lies in [0, 2 * WIDTH * HEIGHT] |
| Observables.EmptyLatticeObservables | ruby/main.rb:49-55 | a lattice whose cells are all empty, as after a reset, has no particles and no bonds |
| Observables.FlipChangesOccupied | ruby/main.rb:98-100 | a flip adds exactly one particle at an empty site and removes exactly one at an occupied site |
| Observables.OccAgreeOutside | ruby/main.rb:98-100 | after a flip, the occupation of every site other than the flipped one is unchanged, and the flipped site's occupation moves by plus or minus one |
| Observables.FlipChangesBonds | ruby/main.rb:79-100 | a flip changes the bond count by `+neighbours` when it fills a site and by `-neighbours` when it empties one |
| Observables.FlipBondsThreeSites | ruby/main.rb:157-170 | after a flip at (x, y), the bond count differs only by the bond terms of (x, y), its down-neighbour and its right-neighbour |
| Observables.BondsAgreeOutside | ruby/main.rb:163-170 | the bond term of every other site is the same after the flip |
| Observables.FlipBondTerms | ruby/main.rb:163-170 | the flipped site's term changes by its up- and left-neighbours' occupations, and the down- and right-neighbours' terms change by their own occupations, each with the sign of the flip |
| Observables.FlipDeltaIsGlobal | ruby/main.rb:85-92 | the local `h_current - h_new` of a step is exactly the drop of the whole lattice's Hamiltonian `-bonds - mu * particles` that the flip causes |
| Observables.GrandCanonicalShift | ruby/main.rb:91-92 | adding `sign` particles and `sign * n` bonds lowers `-bonds - mu * particles` by `sign * (n + mu)` |
| Dynamics.ApplyTrial | ruby/main.rb:70-101 | one trial keeps the shape and the 0/1 values, flips the chosen cell exactly when the trial is accepted, and leaves every other cell unchanged |
| Dynamics.RunTrials | ruby/main.rb:104-110 | the lattice after the trials in order keeps its shape, and a run in which every trial is rejected leaves it unchanged |
| Dynamics.RunTrialsFrame | ruby/main.rb:104-110 | a run of trials keeps every cell 0 or 1, and leaves every site that no accepted trial chose unchanged |
| Dynamics.RunTrialsOccupiedDrift | ruby/main.rb:104-110 | a run of `k` trials changes the particle count by at most `k` either way |
| Parameters.StepDown | ruby/main.rb:211-226 | one step down never goes below the floor or more than 0.1 down, never rises from at or above the floor, and lands on the floor when the step would cross it |
| Parameters.StepUp | ruby/main.rb:215-222 | one step up never goes above the ceiling or more than 0.1 up, never falls from at or below the ceiling, and lands on the ceiling when the step would cross it |
| Parameters.TemperatureKeysKeepRange | ruby/main.rb:211-218 | A and D keep a temperature within [0.1, 1.0] |
| Parameters.ChemPotKeysKeepRange | ruby/main.rb:219-226 | W and X keep a chemical potential within [-3.0, -1.0] |
| Parameters.StepDownTimesClosedForm | ruby/main.rb:211-214 | n presses of a step-down key from at or above the floor give `max(v - 0.1 * n, floor)` |
| Parameters.StepUpTimesClosedForm | ruby/main.rb:219-222 | n presses of a step-up key from at or below the ceiling give `min(v + 0.1 * n, ceiling)` |
| Parameters.CoolingBottomsOut | ruby/main.rb:211-214 | enough presses of A land the temperature exactly on 0.1 |
| Parameters.ChemPotTopsOut | ruby/main.rb:219-222 | enough presses of W land the chemical potential exactly on -1.0 |
| Statistics.Drop | ruby/main.rb:129-129 | dropping the first `n` samples leaves `len - n` of them (none when `n > len`), the i-th being sample `n + i` of the series |
| Statistics.GraphTail | ruby/main.rb:120-129 | an empty series gives `false` (None). Otherwise the result has `min(num_points, len)` elements, which are the last ones of the series in order, and it is the whole series when `num_points >= len` |
| Statistics.GraphTailEndsWithLatest | ruby/main.rb:179-184 | once a sample has been pushed, the graph tail is non-empty and ends with that sample |
| Simulation.Toggle | ruby/main.rb:202-204 | `1 - flag` maps 0 and 1 to each other |
| Simulation.ToggleTwice | ruby/main.rb:203 | two toggles restore the flag |
| Simulation.PhaseTransition.constructor | ruby/main.rb:39-45 | the simulator starts paused, with the graphs on, temperature 0.3, chemical potential -2.5, an empty lattice and empty series |
| Simulation.PhaseTransition.Reset | ruby/main.rb:49-55 | the lattice is rebuilt row by row as HEIGHT rows of WIDTH zeros, and both series are emptied; pause, graph, temperature and chemical potential are unchanged |
| Simulation.PhaseTransition.Step | ruby/main.rb:70-101 | returns `h_current - h_new` for the chosen site, computed from the wrapped neighbour sum. The new lattice is the old one with the chosen cell flipped exactly when the trial is accepted, and the invariant holds |
| Simulation.PhaseTransition.Update | ruby/main.rb:104-110 | when running, the lattice is the result of exactly SPEED trials in order; when paused, it is unchanged |
| Simulation.PhaseTransition.CountFrame | ruby/main.rb:154-176 | the nested counting loop ends with `cnt_number` equal to the number of occupied sites and `cnt_energy` equal to the number of bonds, within their bounds |
| Simulation.PhaseTransition.CountRow | ruby/main.rb:158-175 | the inner loop adds exactly one row's particle and bond terms to the running counts |
| Simulation.PhaseTransition.Draw | ruby/main.rb:153-185 | the energy series gains exactly one sample, the frame's bond count, and the number series exactly one, its particle count, so their lengths stay equal. With the graphs on, each plot is the graph tail of its series; with them off, nothing is plotted |
| Simulation.PhaseTransition.ButtonDown | ruby/main.rb:198-230 | for each key: P and G toggle their flag, R gives an empty lattice and empty series, S applies one trial, A/D/W/X step and clamp their parameter; every other field is unchanged and the invariant holds |
| Simulation.DeltaBound | ruby/main.rb:85-92 | on a 0/1 lattice with the chemical potential in [-3, -1], `h_current - h_new` lies in [-3, 3] |
| Simulation.ExpArgumentBound | ruby/main.rb:94-94 | with the temperature in [0.1, 1.0] as well, the argument of `Math.exp` lies in [-30, 30] |
| Simulation.ResetIsIdempotent | ruby/main.rb:49-55 | resetting twice leaves the same state as resetting once |

## Left out

- The Gosu window: fonts, colours, the point image, every `draw_rect`, `draw_line` and `draw_text`, `needs_cursor?`, and `close` on Escape (a `Button.Escape` press changes nothing in the model). These are user-interface calls into a foreign library.
- `rand`: the site a step picks and the outcome of the acceptance draw are the fields of a `Trial` given to `Step`, `Update` and `ButtonDown` as inputs.
- `Math.exp` and `q / (1 + q)`: floating-point numerics. `Step` returns the argument `h_current - h_new` instead, and the accept decision comes from the trial.
- The pixel scaling of the graph points and the min/max labels in `draw_graph`: floating-point arithmetic that divides by `max - min`, which can be zero. `Draw` stops at the points each graph would show.
- The per-site density, energy and Hamiltonian read-outs formatted with `sprintf`, including the frame's `hamiltonian`, which is used only for display. The energy series records the bond count positively, while the step's energy functional is `-occupied * neighbours`. The model records the series as the code does.
- `p @energy_list` in `reset`: console output.
- Parameters.StepDown, Parameters.StepUp: the ±0.1 steps are exact reals, so IEEE rounding of repeated steps is not modelled.
- Simulation.PhaseTransition.Draw: the series samples are integers, where the code accumulates floats starting at 0.0. Every sample is a whole number below 2^53, so they are equal.
- Wrap-around at other coordinates than those the code uses (y±1, x±1 of an in-range site) is covered by `Lattice.Wrap` and `Lattice.WrapPeriodic`, but no general get/set with arbitrary coordinates exists in the code, so none is modelled.
- The statistical behaviour of the dynamics (detailed balance, the equilibrium distribution) depends on the random draws and `exp`, and is not modelled.
