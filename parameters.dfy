/**
 * The thermodynamic parameters: temperature and chemical potential. Each is
 * changed only by a fixed step of 0.1 followed by a clamp at one end of its
 * range. Values are exact reals, not floating point.
 */
module Parameters {

  /** Every key press moves a parameter by this much (before clamping). */
  const STEP: real := 0.1

  const MIN_TEMPERATURE: real := 0.1
  const MAX_TEMPERATURE: real := 1.0
  const INITIAL_TEMPERATURE: real := 0.3

  const MIN_CHEM_POT: real := -3.0
  const MAX_CHEM_POT: real := -1.0
  const INITIAL_CHEM_POT: real := -2.5

  predicate TemperatureInRange(t: real) {
    MIN_TEMPERATURE <= t <= MAX_TEMPERATURE
  }

  predicate ChemPotInRange(mu: real) {
    MIN_CHEM_POT <= mu <= MAX_CHEM_POT
  }

  /** `[a, b].max` on the real-valued parameters; the series statistics have their own integer versions. */
  function Max(a: real, b: real): real {
    if a >= b then a else b
  }

  function Min(a: real, b: real): real {
    if a <= b then a else b
  }

  /** `v -= 0.1; v = [v, floor].max`: one step down, never below `floor`. */
  function StepDown(v: real, floor: real): (r: real)
    ensures floor <= r
    ensures v - STEP <= r
    ensures floor <= v ==> r <= v
    ensures v - STEP <= floor ==> r == floor
  {
    Max(v - STEP, floor)
  }

  /** `v += 0.1; v = [v, ceiling].min`: one step up, never above `ceiling`. */
  function StepUp(v: real, ceiling: real): (r: real)
    ensures r <= ceiling
    ensures r <= v + STEP
    ensures v <= ceiling ==> v <= r
    ensures v + STEP >= ceiling ==> r == ceiling
  {
    Min(v + STEP, ceiling)
  }

  /** Key A keeps the temperature in its range, and so does key D. */
  lemma TemperatureKeysKeepRange(t: real)
    requires TemperatureInRange(t)
    ensures TemperatureInRange(StepDown(t, MIN_TEMPERATURE))
    ensures TemperatureInRange(StepUp(t, MAX_TEMPERATURE))
  {
  }

  /** Key W keeps the chemical potential in its range, and so does key X. */
  lemma ChemPotKeysKeepRange(mu: real)
    requires ChemPotInRange(mu)
    ensures ChemPotInRange(StepUp(mu, MAX_CHEM_POT))
    ensures ChemPotInRange(StepDown(mu, MIN_CHEM_POT))
  {
  }

  /** The value after n presses of a step-down key. */
  function StepDownTimes(v: real, floor: real, n: nat): (r: real)
  {
    if n == 0 then v else StepDown(StepDownTimes(v, floor, n - 1), floor)
  }

  /** The value after n presses of a step-up key. */
  function StepUpTimes(v: real, ceiling: real, n: nat): (r: real)
  {
    if n == 0 then v else StepUp(StepUpTimes(v, ceiling, n - 1), ceiling)
  }

  /** From at or above the floor, n presses move down by n steps, and stop at the floor. */
  lemma {:induction false} StepDownTimesClosedForm(v: real, floor: real, n: nat)
    requires floor <= v
    ensures StepDownTimes(v, floor, n) == Max(v - n as real * STEP, floor)
  {
    if n > 0 {
      StepDownTimesClosedForm(v, floor, n - 1);
      var above := v - (n - 1) as real * STEP;
      assert StepDownTimes(v, floor, n) == StepDown(Max(above, floor), floor);
    }
  }

  /** From at or below the ceiling, n presses move up by n steps, and stop at the ceiling. */
  lemma {:induction false} StepUpTimesClosedForm(v: real, ceiling: real, n: nat)
    requires v <= ceiling
    ensures StepUpTimes(v, ceiling, n) == Min(v + n as real * STEP, ceiling)
  {
    if n > 0 {
      StepUpTimesClosedForm(v, ceiling, n - 1);
      var below := v + (n - 1) as real * STEP;
      assert StepUpTimes(v, ceiling, n) == StepUp(Min(below, ceiling), ceiling);
    }
  }

  /** Enough presses of key A land the temperature exactly on its minimum 0.1. */
  lemma CoolingBottomsOut(t: real, n: nat)
    requires TemperatureInRange(t)
    requires t - n as real * STEP <= MIN_TEMPERATURE
    ensures StepDownTimes(t, MIN_TEMPERATURE, n) == MIN_TEMPERATURE
  {
    StepDownTimesClosedForm(t, MIN_TEMPERATURE, n);
  }

  /** Enough presses of key W land the chemical potential exactly on its maximum -1.0. */
  lemma ChemPotTopsOut(mu: real, n: nat)
    requires ChemPotInRange(mu)
    requires mu + n as real * STEP >= MAX_CHEM_POT
    ensures StepUpTimes(mu, MAX_CHEM_POT, n) == MAX_CHEM_POT
  {
    StepUpTimesClosedForm(mu, MAX_CHEM_POT, n);
  }
}
