/**
 * The spin/spinor configuration of a density computation and the counts the
 * density calculator derives from it (src/dft/densityCalculator.cc:94-104):
 * the occupation factor of a band, the number of spin channels, the number
 * of stored density components and the number of wavefunction spinor
 * components.
 */
module DensityModes {

  /** The flags of dftParameters that the density calculator reads. */
  datatype Params = Params(
    spinPolarized: bool,
    noncolin: bool,
    hasSOC: bool,
    constraintMagnetization: bool)
  {
    /** Spinor wavefunctions: two components per band. */
    predicate Spinor() {
      noncolin || hasSOC
    }
  }

  /** Electrons per band and spin channel: 1 with spin or spinors, else 2. */
  function SpinPolarizedFactor(p: Params): (f: real)
    ensures f == 1.0 || f == 2.0
    ensures f == 1.0 <==> (p.spinPolarized || p.Spinor())
  {
    if p.spinPolarized || p.noncolin || p.hasSOC then 1.0 else 2.0
  }

  /** Number of spin channels looped over (and reduced). */
  function NumSpinComponents(p: Params): (n: nat)
    ensures n == 1 || n == 2
    ensures n == 2 <==> p.spinPolarized
  {
    if p.spinPolarized then 2 else 1
  }

  /** Number of density components stored: 4 (rho, mz, my, mx in the order of the code) when non-collinear. */
  function NumRhoComponents(p: Params): (n: nat)
    ensures p.noncolin ==> n == 4
    ensures !p.noncolin ==> n == NumSpinComponents(p)
    ensures n >= NumSpinComponents(p)
  {
    if p.noncolin then 4 else NumSpinComponents(p)
  }

  /** Number of spinor components per band. */
  function NumWfnSpinors(p: Params): (n: nat)
    ensures n == 1 || n == 2
    ensures n == 2 <==> p.Spinor()
  {
    if p.noncolin || p.hasSOC then 2 else 1
  }

  /** A configuration the code is used with: spin polarisation excludes spinors. */
  predicate Consistent(p: Params) {
    !(p.spinPolarized && p.Spinor())
  }

  /**
   * Occupation capacity of one band index summed over the spin channels:
   * 2 electrons for scalar wavefunctions (2 x 1 unpolarised, 1 x 2 polarised)
   * and 1 per spinor band.
   */
  lemma BandCapacity(p: Params)
    requires Consistent(p)
    ensures SpinPolarizedFactor(p) * (NumSpinComponents(p) as real) * (NumWfnSpinors(p) as real) == 2.0
    ensures SpinPolarizedFactor(p) * (NumSpinComponents(p) as real) == (if p.Spinor() then 1.0 else 2.0)
  {
  }
}
