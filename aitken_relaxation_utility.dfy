/**
 * The Aitken relaxation utility of the FEM-DEM coupling: an iteration counter and a pair of
 * residual vectors whose roles are exchanged after every non-linear iteration.
 */
module AitkenRelaxationUtility {

  /** The counter is an `unsigned int`: increments wrap around at 2^32. */
  const UintModulus: int := 0x1_0000_0000

  /** The default relaxation parameter of the constructor. */
  const DefaultOmegaOld: real := 0.825

  /** The two residual-vector pointers, as the vectors they point at. */
  datatype Residuals = Residuals(older: seq<real>, newer: seq<real>)

  /** std::swap of the two pointers. */
  function Swap(r: Residuals): (s: Residuals)
    ensures s.older == r.newer && s.newer == r.older
  {
    Residuals(r.newer, r.older)
  }

  /** Swapping twice restores the original assignment of the pointers. */
  lemma {:induction false} SwapTwiceRestores(r: Residuals)
    ensures Swap(Swap(r)) == r
  {
  }

  /** One increment of the unsigned counter. */
  function Increment(n: int): (m: int)
    requires 0 <= n < UintModulus
    ensures 0 <= m < UintModulus
    ensures n + 1 < UintModulus ==> m == n + 1
    ensures n + 1 == UintModulus ==> m == 0
  {
    (n + 1) % UintModulus
  }

  class Aitken {
    var iteration: int
    var omegaOld: real
    var omegaNew: real
    var residuals: Residuals

    predicate Valid() reads this { 0 <= iteration < UintModulus }

    /** The constructor sets only the old relaxation parameter; the other fields are left indeterminate. */
    constructor (omegaOld: real := DefaultOmegaOld)
      ensures this.omegaOld == omegaOld
    {
      this.omegaOld := omegaOld;
    }

    /** The copy constructor copies only the old relaxation parameter. */
    constructor Copy(other: Aitken)
      ensures omegaOld == other.omegaOld
    {
      omegaOld := other.omegaOld;
    }

    /** InitializeSolutionStep: the iteration counter restarts at 1. */
    method InitializeSolutionStep()
      modifies this
      ensures iteration == 1 && Valid()
      ensures omegaOld == old(omegaOld) && omegaNew == old(omegaNew) && residuals == old(residuals)
    {
      iteration := 1;
    }

    /** UpdateSolution has an empty body: the guess and every field stay as they are. */
    method UpdateSolution(residual: seq<real>, guess: seq<real>) returns (updated: seq<real>)
      ensures updated == guess
    {
      updated := guess;
    }

    /** FinalizeNonLinearIteration: the residual pointers are exchanged and the counter goes up by one. */
    method FinalizeNonLinearIteration()
      requires Valid()
      modifies this
      ensures Valid() && iteration == Increment(old(iteration)) && residuals == Swap(old(residuals))
      ensures omegaOld == old(omegaOld) && omegaNew == old(omegaNew)
    {
      residuals := Residuals(residuals.newer, residuals.older);
      iteration := (iteration + 1) % UintModulus;
    }

    /** FinalizeSolutionStep: the iteration counter is reset to 1. */
    method FinalizeSolutionStep()
      modifies this
      ensures iteration == 1 && Valid()
      ensures omegaOld == old(omegaOld) && omegaNew == old(omegaNew) && residuals == old(residuals)
    {
      iteration := 1;
    }
  }
}
