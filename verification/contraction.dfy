/**
 * The per-quadrature-point contraction of computeRhoGradRhoFromInterpolatedValues
 * (src/dft/densityCalculator.cc:593-748): occupation-weighted sums of
 * |psi|^2 and 2 Re(conj(psi) dpsi) for scalar wavefunctions, and the four
 * density/magnetisation components of two-component spinors, together with
 * the flattened index layouts the routine reads and writes.
 *
 * Wavefunction values are complex; the real NumberType is the case of a
 * zero imaginary part.
 */
module Contraction {
  import opened Numerics
  import opened DensityModes

  // ---------------------------------------------------------------------
  // Per-band terms
  // ---------------------------------------------------------------------

  /** 2 Re(conj(psi) dpsi): the gradient term of one band along one direction. */
  function GradTerm(psi: Complex, dpsi: Complex): real {
    2.0 * CMul(Conj(psi), dpsi).re
  }

  /**
   * The density/magnetisation term of a spinor band (up, down): component 0
   * |u|^2 + |d|^2, 1 |u|^2 - |d|^2, 2 2 Im(conj(u) d), 3 2 Re(conj(u) d).
   */
  function SpinorTerm(comp: nat, up: Complex, down: Complex): real
    requires comp < 4
  {
    if comp == 0 then NormSq(up) + NormSq(down)
    else if comp == 1 then NormSq(up) - NormSq(down)
    else if comp == 2 then 2.0 * CMul(Conj(up), down).im
    else 2.0 * CMul(Conj(up), down).re
  }

  /** The gradient terms of a spinor band along one direction (du, dd the derivatives of up and down). */
  function SpinorGradTerm(comp: nat, up: Complex, down: Complex, dUp: Complex, dDown: Complex): real
    requires comp < 4
  {
    if comp == 0 then 2.0 * CAdd(CMul(Conj(up), dUp), CMul(Conj(down), dDown)).re
    else if comp == 1 then 2.0 * CSub(CMul(Conj(up), dUp), CMul(Conj(down), dDown)).re
    else if comp == 2 then 2.0 * CAdd(CMul(Conj(dUp), down), CMul(Conj(up), dDown)).im
    else 2.0 * CAdd(CMul(Conj(dUp), down), CMul(Conj(up), dDown)).re
  }

  /** The wavefunction moved by t along the direction dpsi. */
  function Along(psi: Complex, t: real, dpsi: Complex): Complex {
    CAdd(psi, CScale(t, dpsi))
  }

  /**
   * The gradient term is the derivative of the density term: along a
   * direction, |psi + t dpsi|^2 is |psi|^2 + t GradTerm + t^2 |dpsi|^2.
   */
  lemma GradTermIsDerivative(psi: Complex, dpsi: Complex, t: real)
    ensures NormSq(Along(psi, t, dpsi)) == NormSq(psi) + t * GradTerm(psi, dpsi) + t * t * NormSq(dpsi)
  {
    ConjMulParts(psi, dpsi);
    SquareAlong(psi.re, dpsi.re, t);
    SquareAlong(psi.im, dpsi.im, t);
  }

  lemma SquareAlong(a: real, c: real, t: real)
    ensures (a + t * c) * (a + t * c) == a * a + 2.0 * t * (a * c) + t * t * (c * c)
  {
  }

  /** The parts of conj(z) w. */
  lemma ConjMulParts(z: Complex, w: Complex)
    ensures CMul(Conj(z), w).re == z.re * w.re + z.im * w.im
    ensures CMul(Conj(z), w).im == z.re * w.im - z.im * w.re
  {
  }

  /** |u + du|^2 splits into |u|^2, the gradient term and |du|^2. */
  lemma DensityPolarization(u: Complex, du: Complex)
    ensures NormSq(CAdd(u, du)) == NormSq(u) + GradTerm(u, du) + NormSq(du)
  {
    ConjMulParts(u, du);
    assert (u.re + du.re) * (u.re + du.re) == u.re * u.re + 2.0 * (u.re * du.re) + du.re * du.re;
    assert (u.im + du.im) * (u.im + du.im) == u.im * u.im + 2.0 * (u.im * du.im) + du.im * du.im;
  }

  /** (a + p)(c + r) distributed. */
  lemma Distribute(a: real, p: real, c: real, r: real)
    ensures (a + p) * (c + r) == a * c + p * c + a * r + p * r
  {
  }

  /** conj(u + du) (d + dd) is bilinear. */
  lemma CrossPolarization(u: Complex, d: Complex, du: Complex, dd: Complex)
    ensures CMul(Conj(CAdd(u, du)), CAdd(d, dd)) ==
            CAdd(CAdd(CMul(Conj(u), d), CAdd(CMul(Conj(du), d), CMul(Conj(u), dd))), CMul(Conj(du), dd))
  {
    ConjMulParts(CAdd(u, du), CAdd(d, dd));
    ConjMulParts(u, d);
    ConjMulParts(du, d);
    ConjMulParts(u, dd);
    ConjMulParts(du, dd);
    Distribute(u.re, du.re, d.re, dd.re);
    Distribute(u.im, du.im, d.im, dd.im);
    Distribute(u.re, du.re, d.im, dd.im);
    Distribute(u.im, du.im, d.re, dd.re);
  }

  /**
   * The spinor gradient terms are the cross terms of the spinor density
   * terms: for the band (u + du, d + dd) each component splits into the
   * component of (u, d), the gradient term, and the component of (du, dd).
   */
  lemma SpinorPolarization(comp: nat, u: Complex, d: Complex, du: Complex, dd: Complex)
    requires comp < 4
    ensures SpinorTerm(comp, CAdd(u, du), CAdd(d, dd)) ==
            SpinorTerm(comp, u, d) + SpinorGradTerm(comp, u, d, du, dd) + SpinorTerm(comp, du, dd)
  {
    if comp < 2 {
      DensityPolarization(u, du);
      DensityPolarization(d, dd);
    } else {
      CrossPolarization(u, d, du, dd);
    }
  }

  /** Scaling a direction by t scales its gradient term by t and its own density term by t^2. */
  lemma ScaledDirection(u: Complex, d: Complex, du: Complex, t: real)
    ensures GradTerm(u, CScale(t, du)) == t * GradTerm(u, du)
    ensures CMul(Conj(u), CScale(t, du)) == CScale(t, CMul(Conj(u), du))
    ensures CMul(Conj(CScale(t, du)), d) == CScale(t, CMul(Conj(du), d))
    ensures NormSq(CScale(t, du)) == t * t * NormSq(du)
  {
    ConjMulParts(u, du);
    ConjMulParts(u, CScale(t, du));
    ConjMulParts(du, d);
    ConjMulParts(CScale(t, du), d);
    assert (t * du.re) * (t * du.re) == t * t * (du.re * du.re);
    assert (t * du.im) * (t * du.im) == t * t * (du.im * du.im);
  }

  /** conj(t du) (t dd) = t^2 conj(du) dd. */
  lemma ScaledCross(du: Complex, dd: Complex, t: real)
    ensures CMul(Conj(CScale(t, du)), CScale(t, dd)) == CScale(t * t, CMul(Conj(du), dd))
  {
    ConjMulParts(du, dd);
    ConjMulParts(CScale(t, du), CScale(t, dd));
    assert (t * du.re) * (t * dd.re) == t * t * (du.re * dd.re);
    assert (t * du.im) * (t * dd.im) == t * t * (du.im * dd.im);
    assert (t * du.re) * (t * dd.im) == t * t * (du.re * dd.im);
    assert (t * du.im) * (t * dd.re) == t * t * (du.im * dd.re);
  }

  /** Factoring t out of the linear combinations the spinor terms are made of. */
  lemma FactorOut(t: real, a: real, b: real)
    ensures 2.0 * (t * a + t * b) == t * (2.0 * (a + b))
    ensures 2.0 * (t * a - t * b) == t * (2.0 * (a - b))
    ensures 2.0 * (t * a) == t * (2.0 * a)
  {
  }

  /**
   * Scaling the direction by t scales the gradient terms by t; with
   * SpinorPolarization, the spinor gradient terms are the derivatives of the
   * spinor density terms.
   */
  lemma SpinorGradHomogeneous(comp: nat, u: Complex, d: Complex, du: Complex, dd: Complex, t: real)
    requires comp < 4
    ensures SpinorGradTerm(comp, u, d, CScale(t, du), CScale(t, dd)) == t * SpinorGradTerm(comp, u, d, du, dd)
  {
    if comp < 2 {
      ScaledDirection(u, d, du, t);
      ScaledDirection(d, d, dd, t);
      FactorOut(t, CMul(Conj(u), du).re, CMul(Conj(d), dd).re);
    } else {
      ScaledDirection(u, d, du, t);
      ScaledDirection(u, d, dd, t);
      if comp == 2 {
        FactorOut(t, CMul(Conj(du), d).im, CMul(Conj(u), dd).im);
      } else {
        FactorOut(t, CMul(Conj(du), d).re, CMul(Conj(u), dd).re);
      }
    }
  }

  /** The direction's own density terms scale by t^2. */
  lemma SpinorTermHomogeneous(comp: nat, du: Complex, dd: Complex, t: real)
    requires comp < 4
    ensures SpinorTerm(comp, CScale(t, du), CScale(t, dd)) == t * t * SpinorTerm(comp, du, dd)
  {
    if comp < 2 {
      ScaledDirection(du, du, du, t);
      ScaledDirection(dd, dd, dd, t);
      FactorOut(t * t, NormSq(du), NormSq(dd));
      assert t * t * NormSq(du) + t * t * NormSq(dd) == t * t * (NormSq(du) + NormSq(dd));
      assert t * t * NormSq(du) - t * t * NormSq(dd) == t * t * (NormSq(du) - NormSq(dd));
    } else {
      ScaledCross(du, dd, t);
      FactorOut(t * t, CMul(Conj(du), dd).im, CMul(Conj(du), dd).re);
    }
  }

  /** |conj(u) d|^2 = |u|^2 |d|^2 (Lagrange's identity in two dimensions). */
  lemma NormSqOfProduct(u: Complex, d: Complex)
    ensures NormSq(CMul(Conj(u), d)) == NormSq(u) * NormSq(d)
  {
    var a, b, c, e := u.re, u.im, d.re, d.im;
    var z := CMul(Conj(u), d);
    assert z.re == a * c + b * e;
    assert z.im == a * e - b * c;
    assert (a * c + b * e) * (a * c + b * e) + (a * e - b * c) * (a * e - b * c) ==
           (a * a + b * b) * (c * c + e * e);
  }

  /**
   * A single spinor band is a pure state: its magnetisation vector
   * (components 1, 2, 3) has the length of its density (component 0).
   */
  lemma PureSpinorMagnetization(u: Complex, d: Complex)
    ensures SpinorTerm(1, u, d) * SpinorTerm(1, u, d) + SpinorTerm(2, u, d) * SpinorTerm(2, u, d) +
            SpinorTerm(3, u, d) * SpinorTerm(3, u, d) ==
            SpinorTerm(0, u, d) * SpinorTerm(0, u, d)
  {
    var z := CMul(Conj(u), d);
    NormSqOfProduct(u, d);
    var p, q := NormSq(u), NormSq(d);
    assert (2.0 * z.im) * (2.0 * z.im) + (2.0 * z.re) * (2.0 * z.re) == 4.0 * NormSq(z);
    assert (p - q) * (p - q) + 4.0 * (p * q) == (p + q) * (p + q);
  }

  // ---------------------------------------------------------------------
  // Occupation-weighted sums over the bands of a block at one point
  // ---------------------------------------------------------------------

  function DensityTerms(psi: seq<Complex>): (r: Vector)
    ensures |r| == |psi| && forall w :: 0 <= w < |psi| ==> r[w] == NormSq(psi[w])
  {
    seq(|psi|, w requires 0 <= w < |psi| => NormSq(psi[w]))
  }

  function GradTerms(psi: seq<Complex>, dpsi: seq<Complex>): (r: Vector)
    requires |psi| == |dpsi|
    ensures |r| == |psi| && forall w :: 0 <= w < |psi| ==> r[w] == GradTerm(psi[w], dpsi[w])
  {
    seq(|psi|, w requires 0 <= w < |psi| => GradTerm(psi[w], dpsi[w]))
  }

  function SpinorTerms(comp: nat, up: seq<Complex>, down: seq<Complex>): (r: Vector)
    requires comp < 4 && |up| == |down|
    ensures |r| == |up| && forall w :: 0 <= w < |up| ==> r[w] == SpinorTerm(comp, up[w], down[w])
  {
    seq(|up|, w requires 0 <= w < |up| => SpinorTerm(comp, up[w], down[w]))
  }

  function SpinorGradTerms(comp: nat, up: seq<Complex>, down: seq<Complex>, dUp: seq<Complex>, dDown: seq<Complex>): (r: Vector)
    requires comp < 4 && |up| == |down| == |dUp| == |dDown|
    ensures |r| == |up| && forall w :: 0 <= w < |up| ==> r[w] == SpinorGradTerm(comp, up[w], down[w], dUp[w], dDown[w])
  {
    seq(|up|, w requires 0 <= w < |up| => SpinorGradTerm(comp, up[w], down[w], dUp[w], dDown[w]))
  }

  /** Band by band, psi + dpsi. */
  function AddAll(psi: seq<Complex>, dpsi: seq<Complex>): (r: seq<Complex>)
    requires |psi| == |dpsi|
    ensures |r| == |psi| && forall w :: 0 <= w < |psi| ==> r[w] == CAdd(psi[w], dpsi[w])
  {
    seq(|psi|, w requires 0 <= w < |psi| => CAdd(psi[w], dpsi[w]))
  }

  /** rho at a point from a block: sum over bands w of occ[w] |psi_w|^2. */
  function CollinearDensity(occ: Vector, psi: seq<Complex>): real
    requires |occ| == |psi|
  {
    Dot(occ, DensityTerms(psi))
  }

  /** One direction of grad rho at a point from a block: sum over w of 2 occ[w] Re(conj(psi_w) dpsi_w). */
  function CollinearGradient(occ: Vector, psi: seq<Complex>, dpsi: seq<Complex>): real
    requires |occ| == |psi| == |dpsi|
  {
    Dot(occ, GradTerms(psi, dpsi))
  }

  /** Component comp of the spinor density at a point from a block. */
  function SpinorDensity(comp: nat, occ: Vector, up: seq<Complex>, down: seq<Complex>): real
    requires comp < 4 && |occ| == |up| == |down|
  {
    Dot(occ, SpinorTerms(comp, up, down))
  }

  function SpinorGradient(comp: nat, occ: Vector, up: seq<Complex>, down: seq<Complex>,
                          dUp: seq<Complex>, dDown: seq<Complex>): real
    requires comp < 4 && |occ| == |up| == |down| == |dUp| == |dDown|
  {
    Dot(occ, SpinorGradTerms(comp, up, down, dUp, dDown))
  }

  /**
   * The accumulated gradient is the cross term of the accumulated density:
   * with every band shifted by its direction, rho splits into rho of the
   * bands, the accumulated gradient along the directions, and rho of the
   * directions (with GradTermIsDerivative and SpinorHomogeneous, the
   * gradient is the derivative of the density).
   */
  lemma CollinearPolarization(occ: Vector, psi: seq<Complex>, dpsi: seq<Complex>)
    requires |occ| == |psi| == |dpsi|
    ensures CollinearDensity(occ, AddAll(psi, dpsi)) ==
            CollinearDensity(occ, psi) + CollinearGradient(occ, psi, dpsi) + CollinearDensity(occ, dpsi)
  {
    var moved := AddAll(psi, dpsi);
    forall w | 0 <= w < |psi|
      ensures DensityTerms(moved)[w] == DensityTerms(psi)[w] + GradTerms(psi, dpsi)[w] + DensityTerms(dpsi)[w]
    {
      GradTermIsDerivative(psi[w], dpsi[w], 1.0);
      assert Along(psi[w], 1.0, dpsi[w]) == moved[w];
    }
    DotAdd3(occ, DensityTerms(psi), GradTerms(psi, dpsi), DensityTerms(dpsi), DensityTerms(moved));
  }

  lemma SpinorPolarizationSummed(comp: nat, occ: Vector, up: seq<Complex>, down: seq<Complex>,
                                 dUp: seq<Complex>, dDown: seq<Complex>)
    requires comp < 4 && |occ| == |up| == |down| == |dUp| == |dDown|
    ensures SpinorDensity(comp, occ, AddAll(up, dUp), AddAll(down, dDown)) ==
            SpinorDensity(comp, occ, up, down) + SpinorGradient(comp, occ, up, down, dUp, dDown) +
            SpinorDensity(comp, occ, dUp, dDown)
  {
    var s := SpinorTerms(comp, AddAll(up, dUp), AddAll(down, dDown));
    var a := SpinorTerms(comp, up, down);
    var b := SpinorGradTerms(comp, up, down, dUp, dDown);
    var c := SpinorTerms(comp, dUp, dDown);
    forall w | 0 <= w < |up|
      ensures s[w] == a[w] + b[w] + c[w]
    {
      SpinorPolarization(comp, up[w], down[w], dUp[w], dDown[w]);
    }
    DotAdd3(occ, a, b, c, s);
  }

  /** With non-negative weights the accumulated density, and the spinor component 0, are non-negative. */
  lemma DensityNonNegative(occ: Vector, psi: seq<Complex>)
    requires |occ| == |psi| && forall w :: 0 <= w < |occ| ==> occ[w] >= 0.0
    ensures CollinearDensity(occ, psi) >= 0.0
  {
    DotNonNegative(occ, DensityTerms(psi));
  }

  lemma SpinorDensityNonNegative(occ: Vector, up: seq<Complex>, down: seq<Complex>)
    requires |occ| == |up| == |down| && forall w :: 0 <= w < |occ| ==> occ[w] >= 0.0
    ensures SpinorDensity(0, occ, up, down) >= 0.0
  {
    DotNonNegative(occ, SpinorTerms(0, up, down));
  }

  /** What the spinor branch adds at a point: four components when non-collinear, component 0 only with SOC alone. */
  function SpinorIncrements(p: Params, occ: Vector, up: seq<Complex>, down: seq<Complex>): (r: Vector)
    requires p.Spinor() && |occ| == |up| == |down|
    ensures |r| == (if p.noncolin then 4 else 1)
    ensures forall comp :: 0 <= comp < |r| ==> r[comp] == SpinorDensity(comp, occ, up, down)
  {
    if p.noncolin then
      [SpinorDensity(0, occ, up, down), SpinorDensity(1, occ, up, down),
       SpinorDensity(2, occ, up, down), SpinorDensity(3, occ, up, down)]
    else [SpinorDensity(0, occ, up, down)]
  }

  /** The SOC-only density is the collinear density of the two spinor components together. */
  lemma SpinOrbitDensityIsBothComponents(occ: Vector, up: seq<Complex>, down: seq<Complex>)
    requires |occ| == |up| == |down|
    ensures SpinorDensity(0, occ, up, down) == CollinearDensity(occ, up) + CollinearDensity(occ, down)
  {
    DotAdd(occ, DensityTerms(up), DensityTerms(down), SpinorTerms(0, up, down));
  }

  // ---------------------------------------------------------------------
  // Flattened layouts, written as the code writes them
  // ---------------------------------------------------------------------

  /** Scalar wavefunction values: cell (relative to the cell range), quad, band. */
  function WfcIndex(c: nat, q: nat, w: nat, nQ: nat, b: nat): nat {
    c * nQ * b + q * b + w
  }

  /** Scalar wavefunction gradients: cell, direction, quad, band. */
  function GradWfcIndex(c: nat, dim: nat, q: nat, w: nat, nQ: nat, b: nat): nat {
    c * nQ * b * 3 + dim * nQ * b + q * b + w
  }

  /** Spinor values: cell, quad, spinor component (0 up, 1 down), band. */
  function SpinorWfcIndex(c: nat, q: nat, s: nat, w: nat, nQ: nat, b: nat): nat {
    c * nQ * b * 2 + q * b * 2 + s * b + w
  }

  /** Spinor gradients: cell, direction, quad, spinor component, band. */
  function SpinorGradWfcIndex(c: nat, dim: nat, q: nat, s: nat, w: nat, nQ: nat, b: nat): nat {
    c * nQ * b * 3 * 2 + dim * nQ * b * 2 + q * b * 2 + s * b + w
  }

  /** Density: component, cell, quad. */
  function RhoIndex(comp: nat, c: nat, q: nat, nCells: nat, nQ: nat): nat {
    comp * nCells * nQ + c * nQ + q
  }

  /** Density gradient: component, cell, quad, direction. */
  function GradRhoIndex(comp: nat, c: nat, q: nat, dim: nat, nCells: nat, nQ: nat): nat {
    comp * nCells * nQ * 3 + c * nQ * 3 + 3 * q + dim
  }

  lemma WfcIndexLayout(c: nat, q: nat, w: nat, nQ: nat, b: nat)
    ensures WfcIndex(c, q, w, nQ, b) == Flat3(c, q, w, nQ, b)
  {
    assert (c * nQ + q) * b == c * nQ * b + q * b;
  }

  lemma GradWfcIndexLayout(c: nat, dim: nat, q: nat, w: nat, nQ: nat, b: nat)
    ensures GradWfcIndex(c, dim, q, w, nQ, b) == Flat4(c, dim, q, w, 3, nQ, b)
  {
    assert ((c * 3 + dim) * nQ + q) * b == (c * 3 + dim) * nQ * b + q * b;
    assert (c * 3 + dim) * nQ * b == c * 3 * nQ * b + dim * nQ * b;
    assert c * 3 * nQ * b == c * nQ * b * 3;
  }

  lemma SpinorWfcIndexLayout(c: nat, q: nat, s: nat, w: nat, nQ: nat, b: nat)
    ensures SpinorWfcIndex(c, q, s, w, nQ, b) == Flat4(c, q, s, w, nQ, 2, b)
  {
    assert ((c * nQ + q) * 2 + s) * b == (c * nQ + q) * 2 * b + s * b;
    assert (c * nQ + q) * 2 * b == c * nQ * 2 * b + q * 2 * b;
    assert c * nQ * 2 * b == c * nQ * b * 2;
    assert q * 2 * b == q * b * 2;
  }

  lemma SpinorGradWfcIndexLayout(c: nat, dim: nat, q: nat, s: nat, w: nat, nQ: nat, b: nat)
    ensures SpinorGradWfcIndex(c, dim, q, s, w, nQ, b) == Flat5(c, dim, q, s, w, 3, nQ, 2, b)
  {
    var x := (c * 3 + dim) * nQ + q;
    assert (x * 2 + s) * b == x * 2 * b + s * b;
    assert x * 2 * b == (c * 3 + dim) * nQ * 2 * b + q * 2 * b;
    assert (c * 3 + dim) * nQ * 2 * b == c * 3 * nQ * 2 * b + dim * nQ * 2 * b;
    assert c * 3 * nQ * 2 * b == c * nQ * b * 3 * 2;
    assert dim * nQ * 2 * b == dim * nQ * b * 2;
    assert q * 2 * b == q * b * 2;
  }

  lemma RhoIndexLayout(comp: nat, c: nat, q: nat, nCells: nat, nQ: nat)
    ensures RhoIndex(comp, c, q, nCells, nQ) == Flat3(comp, c, q, nCells, nQ)
  {
    assert (comp * nCells + c) * nQ == comp * nCells * nQ + c * nQ;
  }

  lemma GradRhoIndexLayout(comp: nat, c: nat, q: nat, dim: nat, nCells: nat, nQ: nat)
    ensures GradRhoIndex(comp, c, q, dim, nCells, nQ) == Flat4(comp, c, q, dim, nCells, nQ, 3)
  {
    assert ((comp * nCells + c) * nQ + q) * 3 == (comp * nCells + c) * nQ * 3 + q * 3;
    assert (comp * nCells + c) * nQ * 3 == comp * nCells * nQ * 3 + c * nQ * 3;
  }

  /**
   * Every read of the scalar branch stays inside the buffers allocated in
   * computeRhoFromPSI (cellsBlockSize nQ BVec values, three times that for
   * gradients) for a cell block of at most cellsBlockSize cells and a band
   * block of at most BVec bands, and distinct (cell, quad, band) triples read
   * distinct entries.
   */
  lemma ScalarReadsInBounds(c: nat, dim: nat, q: nat, w: nat, cells: nat, nQ: nat, b: nat,
                            cellsBlockSize: nat, bVec: nat)
    requires c < cells <= cellsBlockSize && dim < 3 && q < nQ && w < b <= bVec
    ensures WfcIndex(c, q, w, nQ, b) < cellsBlockSize * nQ * bVec
    ensures GradWfcIndex(c, dim, q, w, nQ, b) < cellsBlockSize * nQ * bVec * 3
  {
    WfcIndexLayout(c, q, w, nQ, b);
    Flat3Bound(c, q, w, cells, nQ, b);
    ProductMonotone3(cells, nQ, b, cellsBlockSize, bVec);
    GradWfcIndexLayout(c, dim, q, w, nQ, b);
    Flat4Bound(c, dim, q, w, cells, 3, nQ, b);
    ProductMonotone4(cells, nQ, b, cellsBlockSize, bVec);
  }

  lemma SpinorReadsInBounds(c: nat, dim: nat, q: nat, s: nat, w: nat, cells: nat, nQ: nat, b: nat,
                            cellsBlockSize: nat, bVec: nat)
    requires c < cells <= cellsBlockSize && dim < 3 && q < nQ && s < 2 && w < b <= bVec
    ensures SpinorWfcIndex(c, q, s, w, nQ, b) < cellsBlockSize * nQ * bVec * 2
    ensures SpinorGradWfcIndex(c, dim, q, s, w, nQ, b) < cellsBlockSize * nQ * bVec * 3 * 2
  {
    SpinorWfcIndexLayout(c, q, s, w, nQ, b);
    Flat4Bound(c, q, s, w, cells, nQ, 2, b);
    ProductMonotoneSpinor(cells, nQ, b, cellsBlockSize, bVec);
    SpinorGradWfcIndexLayout(c, dim, q, s, w, nQ, b);
    Flat5Bound(c, dim, q, s, w, cells, 3, nQ, 2, b);
    ProductMonotoneSpinorGrad(cells, nQ, b, cellsBlockSize, bVec);
  }

  lemma ProductMonotone3(cells: nat, nQ: nat, b: nat, cellsBlockSize: nat, bVec: nat)
    requires cells <= cellsBlockSize && b <= bVec
    ensures cells * nQ * b <= cellsBlockSize * nQ * bVec
  {
    MulMonotone(cells, cellsBlockSize, nQ);
    assert cells * nQ * b <= cellsBlockSize * nQ * b;
    assert cellsBlockSize * nQ * b <= cellsBlockSize * nQ * bVec;
  }

  lemma ProductMonotone4(cells: nat, nQ: nat, b: nat, cellsBlockSize: nat, bVec: nat)
    requires cells <= cellsBlockSize && b <= bVec
    ensures cells * 3 * nQ * b <= cellsBlockSize * nQ * bVec * 3
  {
    ProductMonotone3(cells, nQ, b, cellsBlockSize, bVec);
    assert cells * 3 * nQ * b == (cells * nQ * b) * 3;
    assert cellsBlockSize * nQ * bVec * 3 == (cellsBlockSize * nQ * bVec) * 3;
  }

  lemma ProductMonotoneSpinor(cells: nat, nQ: nat, b: nat, cellsBlockSize: nat, bVec: nat)
    requires cells <= cellsBlockSize && b <= bVec
    ensures cells * nQ * 2 * b <= cellsBlockSize * nQ * bVec * 2
  {
    ProductMonotone3(cells, nQ, b, cellsBlockSize, bVec);
    assert cells * nQ * 2 * b == (cells * nQ * b) * 2;
    assert cellsBlockSize * nQ * bVec * 2 == (cellsBlockSize * nQ * bVec) * 2;
  }

  lemma ProductMonotoneSpinorGrad(cells: nat, nQ: nat, b: nat, cellsBlockSize: nat, bVec: nat)
    requires cells <= cellsBlockSize && b <= bVec
    ensures cells * 3 * nQ * 2 * b <= cellsBlockSize * nQ * bVec * 3 * 2
  {
    ProductMonotone3(cells, nQ, b, cellsBlockSize, bVec);
    assert cells * 3 * nQ * 2 * b == (cells * nQ * b) * 6;
    assert cellsBlockSize * nQ * bVec * 3 * 2 == (cellsBlockSize * nQ * bVec) * 6;
  }

  /** Distinct reads: the scalar and spinor layouts are injective. */
  lemma ReadsAreDistinct(c: nat, q: nat, s: nat, w: nat, c': nat, q': nat, s': nat, w': nat, nQ: nat, b: nat)
    requires q < nQ && w < b && q' < nQ && w' < b && s < 2 && s' < 2
    ensures WfcIndex(c, q, w, nQ, b) == WfcIndex(c', q', w', nQ, b) ==> c == c' && q == q' && w == w'
    ensures SpinorWfcIndex(c, q, s, w, nQ, b) == SpinorWfcIndex(c', q', s', w', nQ, b) ==>
              c == c' && q == q' && s == s' && w == w'
  {
    WfcIndexLayout(c, q, w, nQ, b);
    WfcIndexLayout(c', q', w', nQ, b);
    if WfcIndex(c, q, w, nQ, b) == WfcIndex(c', q', w', nQ, b) {
      Flat3Injective(c, q, w, c', q', w', nQ, b);
    }
    SpinorWfcIndexLayout(c, q, s, w, nQ, b);
    SpinorWfcIndexLayout(c', q', s', w', nQ, b);
    if SpinorWfcIndex(c, q, s, w, nQ, b) == SpinorWfcIndex(c', q', s', w', nQ, b) {
      Flat4Injective(c, q, s, w, c', q', s', w', nQ, 2, b);
    }
  }

  /**
   * The writes: rho holds numRhoComponents x nCells x nQ entries. Every
   * write is in bounds and distinct (component, cell, quad) triples write
   * distinct entries.
   */
  lemma RhoWritesInBoundsAndDistinct(comp: nat, c: nat, q: nat, comp': nat, c': nat, q': nat,
                                     numComp: nat, nCells: nat, nQ: nat)
    requires comp < numComp && c < nCells && q < nQ
    requires comp' < numComp && c' < nCells && q' < nQ
    ensures RhoIndex(comp, c, q, nCells, nQ) < nCells * nQ * numComp
    ensures RhoIndex(comp, c, q, nCells, nQ) == RhoIndex(comp', c', q', nCells, nQ) ==>
              comp == comp' && c == c' && q == q'
  {
    RhoIndexLayout(comp, c, q, nCells, nQ);
    RhoIndexLayout(comp', c', q', nCells, nQ);
    Flat3Bound(comp, c, q, numComp, nCells, nQ);
    assert numComp * nCells * nQ == nCells * nQ * numComp;
    if RhoIndex(comp, c, q, nCells, nQ) == RhoIndex(comp', c', q', nCells, nQ) {
      Flat3Injective(comp, c, q, comp', c', q', nCells, nQ);
    }
  }

  /** The same for grad rho, three times the size, with the direction innermost. */
  lemma GradRhoWritesInBounds(comp: nat, c: nat, q: nat, dim: nat, numComp: nat, nCells: nat, nQ: nat)
    requires comp < numComp && c < nCells && q < nQ && dim < 3
    ensures GradRhoIndex(comp, c, q, dim, nCells, nQ) < nCells * nQ * 3 * numComp
  {
    GradRhoIndexLayout(comp, c, q, dim, nCells, nQ);
    Flat4Bound(comp, c, q, dim, numComp, nCells, nQ, 3);
    RotateProduct(numComp, nCells, nQ, 3);
  }

  lemma RotateProduct(a: nat, b: nat, c: nat, d: nat)
    ensures a * b * c * d == b * c * d * a
  {
    var x := b * c * d;
    assert a * b * c * d == a * x;
  }

  lemma GradRhoWritesDistinct(comp: nat, c: nat, q: nat, dim: nat, comp': nat, c': nat, q': nat, dim': nat,
                              nCells: nat, nQ: nat)
    requires c < nCells && q < nQ && dim < 3 && c' < nCells && q' < nQ && dim' < 3
    ensures GradRhoIndex(comp, c, q, dim, nCells, nQ) == GradRhoIndex(comp', c', q', dim', nCells, nQ) ==>
              comp == comp' && c == c' && q == q' && dim == dim'
  {
    GradRhoIndexLayout(comp, c, q, dim, nCells, nQ);
    GradRhoIndexLayout(comp', c', q', dim', nCells, nQ);
    if GradRhoIndex(comp, c, q, dim, nCells, nQ) == GradRhoIndex(comp', c', q', dim', nCells, nQ) {
      Flat4Injective(comp, c, q, dim, comp', c', q', dim', nCells, nQ, 3);
    }
  }
}
