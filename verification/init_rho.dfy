/**
 * The initial electron density (src/dft/initRho.cc): a superposition of
 * atomic radial densities over the atoms and their periodic images,
 * weighted by per-atom charge and magnetisation factors read from the
 * atom's row of the coordinates file; the post-processing of that sum into
 * stored density components (absolute value, constrained magnetisation,
 * gradients forced to zero at vanishing density); the normalisation to the
 * electron count; the nodal path's split of the degrees of freedom among
 * k-point groups; and the up/down recombination of the guess built from
 * eigenvectors.
 *
 * The radial densities (alglib splines or the ONCV tables), their
 * derivatives, the cut-off radii, sin and cos are parameters. A site is
 * seen from one evaluation point: its row of atomLocations (the master
 * atom's row for an image), the offset of the point from the site and
 * their distance.
 */
module InitRho {
  import opened Numerics
  import opened DensityModes
  import opened BandGroups
  import opened SpinAlgebra

  // ---------------------------------------------------------------------
  // Per-atom factors (src/dft/initRho.cc:523-568)
  // ---------------------------------------------------------------------

  /** The trigonometric functions the non-collinear factors use. */
  datatype Trig = Trig(sin: real -> real, cos: real -> real)

  /**
   * Charge factor and magnetisation factors of one atom: its radial
   * density is scaled by rho, and the magnetisation components are magZ,
   * magY, magX times that scaled density.
   */
  datatype Factors = Factors(rho: real, magZ: real, magY: real, magX: real)

  /** The factors of an atom whose row carries none: unit charge, no moment. */
  const DefaultFactors := Factors(1.0, 0.0, 0.0, 0.0)

  /**
   * Row lengths that carry factors, by number of magnetisation components:
   * one component reads columns 5 (moment) and 6 (charge), three read
   * columns 5-7 (moment, polar and azimuthal angle) and 8 (charge), any
   * other number reads column 5 as the charge.
   */
  predicate HasFactorColumns(numMag: nat, len: nat) {
    if numMag == 1 then len == 6 || len == 7
    else if numMag == 3 then len == 8 || len == 9
    else len == 6
  }

  /** Whether the row ends in an explicit charge-factor column. */
  predicate HasChargeColumn(numMag: nat, len: nat) {
    if numMag == 1 then len == 7
    else if numMag == 3 then len == 9
    else len == 6
  }

  function AtomFactors(row: seq<real>, numMag: nat, trig: Trig): (f: Factors)
    ensures !HasFactorColumns(numMag, |row|) ==> f == DefaultFactors
    ensures !HasChargeColumn(numMag, |row|) ==> f.rho == 1.0
    ensures HasChargeColumn(numMag, |row|) ==> f.rho == row[|row| - 1]
    ensures numMag != 3 ==> f.magY == 0.0 && f.magX == 0.0
    ensures numMag != 1 && numMag != 3 ==> f.magZ == 0.0
    ensures numMag == 1 && HasFactorColumns(1, |row|) ==> f.magZ == row[5]
  {
    if numMag == 1 then
      if |row| == 6 then Factors(1.0, row[5], 0.0, 0.0)
      else if |row| == 7 then Factors(row[6], row[5], 0.0, 0.0)
      else DefaultFactors
    else if numMag == 3 then
      if |row| == 8 || |row| == 9 then
        var moment := row[5];
        var theta := row[6];
        var phi := row[7];
        Factors(if |row| == 9 then row[8] else 1.0,
                trig.cos(theta) * moment,
                trig.sin(theta) * trig.sin(phi) * moment,
                trig.sin(theta) * trig.cos(phi) * moment)
      else DefaultFactors
    else if |row| == 6 then Factors(row[5], 0.0, 0.0, 0.0)
    else DefaultFactors
  }

  /** Row length before the optional charge column. */
  function MomentColumns(numMag: nat): nat {
    if numMag == 1 then 6 else if numMag == 3 then 8 else 5
  }

  /**
   * Appending the charge column to a row changes the charge factor to the
   * appended value and leaves the magnetisation factors as they were.
   */
  lemma ChargeColumnOnlyScalesCharge(row: seq<real>, c: real, numMag: nat, trig: Trig)
    requires |row| == MomentColumns(numMag)
    ensures AtomFactors(row, numMag, trig).rho == 1.0
    ensures AtomFactors(row + [c], numMag, trig) == AtomFactors(row, numMag, trig).(rho := c)
  {
    var longer := row + [c];
    assert longer[..|row|] == row;
    assert |longer| == |row| + 1 && longer[|row|] == c;
    if numMag == 3 {
      assert longer[5] == row[5] && longer[6] == row[6] && longer[7] == row[7];
    } else if numMag == 1 {
      assert longer[5] == row[5];
    }
  }

  /**
   * With three components the magnetisation factor is the moment in
   * spherical coordinates: its squared length is the squared moment.
   */
  lemma NoncollinearMomentLength(row: seq<real>, trig: Trig)
    requires |row| == 8 || |row| == 9
    requires trig.sin(row[6]) * trig.sin(row[6]) + trig.cos(row[6]) * trig.cos(row[6]) == 1.0
    requires trig.sin(row[7]) * trig.sin(row[7]) + trig.cos(row[7]) * trig.cos(row[7]) == 1.0
    ensures var f := AtomFactors(row, 3, trig);
            f.magZ * f.magZ + f.magY * f.magY + f.magX * f.magX == row[5] * row[5]
  {
    var f := AtomFactors(row, 3, trig);
    var m, ct, st, sp, cp := row[5], trig.cos(row[6]), trig.sin(row[6]), trig.sin(row[7]), trig.cos(row[7]);
    assert f.magZ == ct * m && f.magY == st * sp * m && f.magX == st * cp * m;
    SphericalLength(m, ct, st, sp, cp);
  }

  lemma SphericalLength(m: real, ct: real, st: real, sp: real, cp: real)
    requires st * st + ct * ct == 1.0 && sp * sp + cp * cp == 1.0
    ensures (ct * m) * (ct * m) + (st * sp * m) * (st * sp * m) + (st * cp * m) * (st * cp * m) == m * m
  {
    calc {
      (ct * m) * (ct * m) + (st * sp * m) * (st * sp * m) + (st * cp * m) * (st * cp * m);
      m * m * (ct * ct + st * st * (sp * sp + cp * cp));
      m * m * (ct * ct + st * st);
      m * m;
    }
  }

  // ---------------------------------------------------------------------
  // Superposition of atomic densities (src/dft/initRho.cc:564-684, 296-377)
  // ---------------------------------------------------------------------

  /** Radial density of a species, its radial derivative, and its cut-off radius. */
  datatype Radial = Radial(value: (real, real) -> real, slope: (real, real) -> real, cutoff: real -> real)

  datatype Vec3 = Vec3(x: real, y: real, z: real)
  {
    function Plus(o: Vec3): Vec3 {
      Vec3(x + o.x, y + o.y, z + o.z)
    }

    function Times(c: real): Vec3 {
      Vec3(c * x, c * y, c * z)
    }
  }

  const Origin := Vec3(0.0, 0.0, 0.0)

  /**
   * An atom or periodic image seen from one evaluation point: the atom's
   * row (column 0 is the species), the offset of the point from the site,
   * and their distance.
   */
  datatype Site = Site(row: seq<real>, offset: Vec3, distance: real)
  {
    predicate WellFormed() {
      |row| >= 5
    }

    function Species(): real
      requires WellFormed()
    {
      row[0]
    }
  }

  predicate AllWellFormed(sites: seq<Site>) {
    forall i :: 0 <= i < |sites| ==> sites[i].WellFormed()
  }

  /** Superposed density and magnetisation at one point. */
  datatype Superposed = Superposed(rho: real, magZ: real, magY: real, magX: real)
  {
    function Plus(o: Superposed): Superposed {
      Superposed(rho + o.rho, magZ + o.magZ, magY + o.magY, magX + o.magX)
    }
  }

  const Nothing := Superposed(0.0, 0.0, 0.0, 0.0)

  predicate WithinCutoff(s: Site, rad: Radial)
    requires s.WellFormed()
  {
    s.distance <= rad.cutoff(s.Species())
  }

  /** One site's share: charge factor times radial density, split by the moment factors. */
  function SiteValue(s: Site, numMag: nat, trig: Trig, rad: Radial): (v: Superposed)
    requires s.WellFormed()
    ensures !WithinCutoff(s, rad) ==> v == Nothing
    ensures numMag != 3 ==> v.magY == 0.0 && v.magX == 0.0
    ensures numMag != 1 && numMag != 3 ==> v.magZ == 0.0
  {
    if WithinCutoff(s, rad) then
      var f := AtomFactors(s.row, numMag, trig);
      var t := f.rho * rad.value(s.Species(), s.distance);
      Superposed(t, f.magZ * t, f.magY * t, f.magX * t)
    else
      Nothing
  }

  /** Each magnetisation component of a site is its moment factor times the site's density. */
  lemma SiteMomentsFollowDensity(s: Site, numMag: nat, trig: Trig, rad: Radial)
    requires s.WellFormed()
    ensures var f := AtomFactors(s.row, numMag, trig);
            var v := SiteValue(s, numMag, trig, rad);
            v.magZ == f.magZ * v.rho && v.magY == f.magY * v.rho && v.magX == f.magX * v.rho
  {
  }

  predicate AllBeyondCutoff(sites: seq<Site>, rad: Radial)
    requires AllWellFormed(sites)
  {
    forall i :: 0 <= i < |sites| ==> !WithinCutoff(sites[i], rad)
  }

  /** The sum over sites of their shares. */
  function Superpose(sites: seq<Site>, numMag: nat, trig: Trig, rad: Radial): (v: Superposed)
    requires AllWellFormed(sites)
    ensures numMag != 3 ==> v.magY == 0.0 && v.magX == 0.0
    ensures numMag != 1 && numMag != 3 ==> v.magZ == 0.0
    decreases |sites|
  {
    if |sites| == 0 then Nothing
    else SiteValue(sites[0], numMag, trig, rad).Plus(Superpose(sites[1..], numMag, trig, rad))
  }

  /** Sites all beyond their cut-off contribute nothing. */
  lemma {:induction false} SuperposeOfDistantSites(sites: seq<Site>, numMag: nat, trig: Trig, rad: Radial)
    requires AllWellFormed(sites) && AllBeyondCutoff(sites, rad)
    ensures Superpose(sites, numMag, trig, rad) == Nothing
    decreases |sites|
  {
    if |sites| > 0 {
      assert !WithinCutoff(sites[0], rad);
      SuperposeOfDistantSites(sites[1..], numMag, trig, rad);
    }
  }

  lemma AppendWellFormed(a: seq<Site>, b: seq<Site>)
    requires AllWellFormed(a) && AllWellFormed(b)
    ensures AllWellFormed(a + b)
  {
    forall i | 0 <= i < |a + b|
      ensures (a + b)[i].WellFormed()
    {
      if i < |a| {
        assert (a + b)[i] == a[i];
      } else {
        assert (a + b)[i] == b[i - |a|];
      }
    }
  }

  lemma SuperposeCons(s: Site, rest: seq<Site>, numMag: nat, trig: Trig, rad: Radial)
    requires s.WellFormed() && AllWellFormed(rest)
    ensures AllWellFormed([s] + rest)
    ensures Superpose([s] + rest, numMag, trig, rad) == SiteValue(s, numMag, trig, rad).Plus(Superpose(rest, numMag, trig, rad))
  {
    AppendWellFormed([s], rest);
    assert ([s] + rest)[1..] == rest;
  }

  lemma PlusAssociative(h: Superposed, x: Superposed, y: Superposed)
    ensures h.Plus(x.Plus(y)) == h.Plus(x).Plus(y)
  {
  }

  /** The sum does not depend on how the sites are split into two lists. */
  lemma {:induction false} SuperposeAppend(a: seq<Site>, b: seq<Site>, numMag: nat, trig: Trig, rad: Radial)
    requires AllWellFormed(a) && AllWellFormed(b)
    ensures AllWellFormed(a + b)
    ensures Superpose(a + b, numMag, trig, rad) == Superpose(a, numMag, trig, rad).Plus(Superpose(b, numMag, trig, rad))
    decreases |a|
  {
    AppendWellFormed(a, b);
    if |a| > 0 {
      var tail := a[1..];
      assert a == [a[0]] + tail;
      assert a + b == [a[0]] + (tail + b);
      SuperposeAppend(tail, b, numMag, trig, rad);
      SuperposeCons(a[0], tail + b, numMag, trig, rad);
      SuperposeCons(a[0], tail, numMag, trig, rad);
      PlusAssociative(SiteValue(a[0], numMag, trig, rad), Superpose(tail, numMag, trig, rad), Superpose(b, numMag, trig, rad));
    } else {
      assert a + b == b;
    }
  }

  /**
   * The quadrature path sums the atoms and then the images in two loops;
   * the result is the superposition over all of them, images counting as
   * their master atoms placed at the image position.
   */
  function ValueAt(atoms: seq<Site>, images: seq<Site>, numMag: nat, trig: Trig, rad: Radial): (v: Superposed)
    requires AllWellFormed(atoms) && AllWellFormed(images)
    ensures AllWellFormed(atoms + images)
    ensures v == Superpose(atoms + images, numMag, trig, rad)
  {
    SuperposeAppend(atoms, images, numMag, trig, rad);
    Superpose(atoms, numMag, trig, rad).Plus(Superpose(images, numMag, trig, rad))
  }

  /** Sites beyond their cut-off can be dropped. */
  lemma DistantSitesIgnored(near: seq<Site>, far: seq<Site>, numMag: nat, trig: Trig, rad: Radial)
    requires AllWellFormed(near) && AllWellFormed(far)
    requires AllBeyondCutoff(far, rad)
    ensures AllWellFormed(near + far)
    ensures Superpose(near + far, numMag, trig, rad) == Superpose(near, numMag, trig, rad)
  {
    SuperposeAppend(near, far, numMag, trig, rad);
    SuperposeOfDistantSites(far, numMag, trig, rad);
  }

  // ---------------------------------------------------------------------
  // Stored values at a quadrature point (src/dft/initRho.cc:684-698)
  // ---------------------------------------------------------------------

  /**
   * The stored components: |rho| first; with spin polarisation the
   * z-magnetisation, which under constrained magnetisation is
   * start_magnetization times |rho|; in the non-collinear case the three
   * moments in the order z, y, x (these overwrite the spin-polarised entry).
   */
  function StoreQuadValues(p: Params, startMag: real, v: Superposed): (out: seq<real>)
    ensures |out| == NumRhoComponents(p)
    ensures out[0] >= 0.0 && (out[0] == v.rho || out[0] == -v.rho)
    ensures p.noncolin ==> out[1..] == [v.magZ, v.magY, v.magX]
    ensures p.spinPolarized && !p.noncolin && p.constraintMagnetization ==> out[1] == startMag * out[0]
    ensures p.spinPolarized && !p.noncolin && !p.constraintMagnetization ==> out[1] == v.magZ
  {
    var rho := Abs(v.rho);
    if p.noncolin then [rho, v.magZ, v.magY, v.magX]
    else if p.spinPolarized then [rho, if p.constraintMagnetization then startMag * rho else v.magZ]
    else [rho]
  }

  /**
   * A constrained start magnetisation of at most one in size yields a
   * stored magnetisation no larger than the stored density.
   */
  lemma ConstrainedMagnetizationBounded(p: Params, startMag: real, v: Superposed)
    requires p.spinPolarized && !p.noncolin && p.constraintMagnetization
    requires -1.0 <= startMag <= 1.0
    ensures var out := StoreQuadValues(p, startMag, v);
            -out[0] <= out[1] <= out[0]
  {
    var out := StoreQuadValues(p, startMag, v);
    BoundedProduct(startMag, out[0]);
  }

  lemma BoundedProduct(s: real, a: real)
    requires -1.0 <= s <= 1.0 && a >= 0.0
    ensures -a <= s * a <= a
  {
    if s >= 0.0 {
      assert s * a <= 1.0 * a;
    } else {
      assert (-s) * a <= 1.0 * a;
    }
  }

  // ---------------------------------------------------------------------
  // Gradients of the superposition (src/dft/initRho.cc:770-998)
  // ---------------------------------------------------------------------

  /** Gradient of the density and of the three magnetisation components. */
  datatype Gradients = Gradients(rho: Vec3, magZ: Vec3, magY: Vec3, magX: Vec3)
  {
    function Plus(o: Gradients): Gradients {
      Gradients(rho.Plus(o.rho), magZ.Plus(o.magZ), magY.Plus(o.magY), magX.Plus(o.magX))
    }
  }

  const NoGradients := Gradients(Origin, Origin, Origin, Origin)

  /** With floating nuclear charges, sites closer than 1e-3 are skipped. */
  const FloatingSkipRadius: real := 0.001

  /** Whether a site enters the gradient sums. */
  predicate CountsForGradient(s: Site, floating: bool, rad: Radial)
    requires s.WellFormed()
  {
    !(floating && s.distance < FloatingSkipRadius) && WithinCutoff(s, rad)
  }

  /**
   * A counted site at distance zero: the code divides by the distance and
   * produces a non-number there.
   */
  predicate AtCentre(s: Site, floating: bool, rad: Radial)
    requires s.WellFormed()
  {
    CountsForGradient(s, floating, rad) && s.distance == 0.0
  }

  /** The moment factors applied to a density-gradient share. */
  function Spread(f: Factors, t: Vec3): (g: Gradients)
    ensures g.rho == t
  {
    Gradients(t, t.Times(f.magZ), t.Times(f.magY), t.Times(f.magX))
  }

  /**
   * One site's share of the gradients: charge factor times radial slope
   * times the unit vector from the site to the point. When
   * `unscaledZ` holds, the z component leaves out the charge factor, as the
   * image-charge loop of the code does.
   */
  function SiteGradient(s: Site, unscaledZ: bool, numMag: nat, trig: Trig, rad: Radial, floating: bool): (r: Result<Gradients>)
    requires s.WellFormed()
    ensures r.Failure? <==> AtCentre(s, floating, rad)
    ensures !CountsForGradient(s, floating, rad) ==> r == Success(NoGradients)
  {
    if !CountsForGradient(s, floating, rad) then Success(NoGradients)
    else if s.distance == 0.0 then Failure("evaluation point at a site centre")
    else
      var f := AtomFactors(s.row, numMag, trig);
      var d := rad.slope(s.Species(), s.distance);
      Success(Spread(f, DensityShare(f.rho, d, UnitDirection(s), unscaledZ)))
  }

  /** The unit vector from the site to the evaluation point. */
  function UnitDirection(s: Site): Vec3
    requires s.distance != 0.0
  {
    Vec3(s.offset.x / s.distance, s.offset.y / s.distance, s.offset.z / s.distance)
  }

  /** Charge factor times radial slope times direction, optionally without the factor in z. */
  function DensityShare(c: real, d: real, u: Vec3, unscaledZ: bool): Vec3 {
    Vec3(c * d * u.x, c * d * u.y, if unscaledZ then d * u.z else c * d * u.z)
  }

  lemma DensityShareScales(c: real, d: real, u: Vec3)
    ensures DensityShare(c, d, u, false) == DensityShare(1.0, d, u, false).Times(c)
  {
    assert c * d * u.x == c * (1.0 * d * u.x);
    assert c * d * u.y == c * (1.0 * d * u.y);
    assert c * d * u.z == c * (1.0 * d * u.z);
  }

  /** Adds two partial sums; the first failure wins. */
  function AddResults(a: Result<Gradients>, b: Result<Gradients>): (r: Result<Gradients>)
    ensures r.Failure? <==> a.Failure? || b.Failure?
  {
    if a.Failure? then a
    else if b.Failure? then b
    else Success(a.value.Plus(b.value))
  }

  /** The gradient sums over a list of sites. */
  function GradientSum(sites: seq<Site>, unscaledZ: bool, numMag: nat, trig: Trig, rad: Radial, floating: bool): (r: Result<Gradients>)
    requires AllWellFormed(sites)
    ensures r.Failure? <==> exists i :: 0 <= i < |sites| && AtCentre(sites[i], floating, rad)
    decreases |sites|
  {
    if |sites| == 0 then Success(NoGradients)
    else
      var rest := GradientSum(sites[1..], unscaledZ, numMag, trig, rad, floating);
      assert (exists i :: 0 <= i < |sites| && AtCentre(sites[i], floating, rad)) <==>
             AtCentre(sites[0], floating, rad) || exists i :: 0 <= i < |sites[1..]| && AtCentre(sites[1..][i], floating, rad);
      AddResults(SiteGradient(sites[0], unscaledZ, numMag, trig, rad, floating), rest)
  }

  /** The gradients as the code computes them: images lose the charge factor in z. */
  function GradientAtAsWritten(atoms: seq<Site>, images: seq<Site>, numMag: nat, trig: Trig, rad: Radial, floating: bool): (r: Result<Gradients>)
    requires AllWellFormed(atoms) && AllWellFormed(images)
    ensures r.Failure? <==> (exists i :: 0 <= i < |atoms| && AtCentre(atoms[i], floating, rad)) ||
                            (exists i :: 0 <= i < |images| && AtCentre(images[i], floating, rad))
  {
    AddResults(GradientSum(atoms, false, numMag, trig, rad, floating), GradientSum(images, true, numMag, trig, rad, floating))
  }

  /** The gradients with every image scaled like its master atom. */
  function GradientAt(atoms: seq<Site>, images: seq<Site>, numMag: nat, trig: Trig, rad: Radial, floating: bool): (r: Result<Gradients>)
    requires AllWellFormed(atoms) && AllWellFormed(images)
    ensures r.Failure? <==> (exists i :: 0 <= i < |atoms| && AtCentre(atoms[i], floating, rad)) ||
                            (exists i :: 0 <= i < |images| && AtCentre(images[i], floating, rad))
  {
    AddResults(GradientSum(atoms, false, numMag, trig, rad, floating), GradientSum(images, false, numMag, trig, rad, floating))
  }

  lemma GradientsPlusAssociative(h: Gradients, x: Gradients, y: Gradients)
    ensures h.Plus(x.Plus(y)) == h.Plus(x).Plus(y)
  {
  }

  lemma AddResultsAssociative(h: Result<Gradients>, x: Result<Gradients>, y: Result<Gradients>)
    ensures AddResults(h, AddResults(x, y)) == AddResults(AddResults(h, x), y)
  {
    if h.Success? && x.Success? && y.Success? {
      GradientsPlusAssociative(h.value, x.value, y.value);
    }
  }

  lemma AddNoGradients(r: Result<Gradients>)
    ensures AddResults(Success(NoGradients), r) == r
  {
  }

  lemma {:induction false} GradientSumAppend(a: seq<Site>, b: seq<Site>, unscaledZ: bool, numMag: nat, trig: Trig, rad: Radial, floating: bool)
    requires AllWellFormed(a) && AllWellFormed(b)
    ensures AllWellFormed(a + b)
    ensures GradientSum(a + b, unscaledZ, numMag, trig, rad, floating) ==
            AddResults(GradientSum(a, unscaledZ, numMag, trig, rad, floating), GradientSum(b, unscaledZ, numMag, trig, rad, floating))
    decreases |a|
  {
    AppendWellFormed(a, b);
    if |a| > 0 {
      var tail := a[1..];
      assert (a + b)[1..] == tail + b;
      assert (a + b)[0] == a[0];
      GradientSumAppend(tail, b, unscaledZ, numMag, trig, rad, floating);
      AddResultsAssociative(SiteGradient(a[0], unscaledZ, numMag, trig, rad, floating),
                            GradientSum(tail, unscaledZ, numMag, trig, rad, floating),
                            GradientSum(b, unscaledZ, numMag, trig, rad, floating));
    } else {
      assert a + b == b;
      AddNoGradients(GradientSum(b, unscaledZ, numMag, trig, rad, floating));
    }
  }

  /**
   * With the correction, an image contributes to the gradients exactly as
   * its master atom would at the image's position: the two loops compute
   * the gradient of the superposition over atoms and images together.
   */
  lemma ImagesGradientLikeAtoms(atoms: seq<Site>, images: seq<Site>, numMag: nat, trig: Trig, rad: Radial, floating: bool)
    requires AllWellFormed(atoms) && AllWellFormed(images)
    ensures AllWellFormed(atoms + images)
    ensures GradientAt(atoms, images, numMag, trig, rad, floating) == GradientSum(atoms + images, false, numMag, trig, rad, floating)
  {
    GradientSumAppend(atoms, images, false, numMag, trig, rad, floating);
  }

  /**
   * The share of a site in the density gradient is its charge factor times
   * the share of the same site with unit charge, in all three directions;
   * the moment gradients do not depend on the charge column.
   */
  lemma SiteGradientScalesWithCharge(s: Site, c: real, numMag: nat, trig: Trig, rad: Radial, floating: bool)
    requires s.WellFormed() && |s.row| == MomentColumns(numMag)
    requires !AtCentre(s, floating, rad)
    ensures var charged := s.(row := s.row + [c]);
            charged.WellFormed() &&
            SiteGradient(charged, false, numMag, trig, rad, floating).value ==
            (if CountsForGradient(s, floating, rad)
             then Spread(AtomFactors(s.row, numMag, trig), SiteGradient(s, false, numMag, trig, rad, floating).value.rho.Times(c))
             else NoGradients)
  {
    var charged := s.(row := s.row + [c]);
    ChargeColumnOnlyScalesCharge(s.row, c, numMag, trig);
    assert charged.row[0] == s.row[0];
    assert charged.WellFormed() && charged.Species() == s.Species();
    if CountsForGradient(s, floating, rad) {
      var f := AtomFactors(s.row, numMag, trig);
      var d := rad.slope(s.Species(), s.distance);
      var u := UnitDirection(s);
      DensityShareScales(c, d, u);
      assert SiteGradient(s, false, numMag, trig, rad, floating).value.rho == DensityShare(1.0, d, u, false);
      assert SiteGradient(charged, false, numMag, trig, rad, floating).value == Spread(f.(rho := c), DensityShare(c, d, u, false));
    }
  }

  /**
   * The site used by the counterexample: one magnetisation component, a
   * charge factor of 2 in column 6, the point one unit above the site in z.
   */
  function ChargedSite(): Site {
    Site([0.0, 0.0, 0.0, 0.0, 0.0, 0.0, 2.0], Vec3(0.0, 0.0, 1.0), 1.0)
  }

  /** Unit radial slope and a cut-off of 10 for every species. */
  function UnitSlope(): Radial {
    Radial((species: real, r: real) => 1.0, (species: real, r: real) => 1.0, (species: real) => 10.0)
  }

  /**
   * The image of a charged atom: the code gives its density gradient a z
   * component of 1 while the same site as an atom (and the density the
   * image itself adds, which is scaled) calls for 2.
   */
  lemma ImageGradientMissesChargeFactor(trig: Trig)
    ensures ChargedSite().WellFormed()
    ensures GradientAtAsWritten([], [ChargedSite()], 1, trig, UnitSlope(), false).Success?
    ensures GradientAtAsWritten([], [ChargedSite()], 1, trig, UnitSlope(), false).value.rho.z == 1.0
    ensures GradientAt([], [ChargedSite()], 1, trig, UnitSlope(), false) == GradientAt([ChargedSite()], [], 1, trig, UnitSlope(), false)
    ensures GradientAt([], [ChargedSite()], 1, trig, UnitSlope(), false).value.rho.z == 2.0
  {
    var s := ChargedSite();
    var rad := UnitSlope();
    assert AtomFactors(s.row, 1, trig).rho == 2.0;
    assert !AtCentre(s, false, rad);
    var asWritten := SiteGradient(s, true, 1, trig, rad, false);
    var fixed := SiteGradient(s, false, 1, trig, rad, false);
    assert asWritten.value.rho.z == 1.0;
    assert fixed.value.rho.z == 2.0;
    assert GradientSum([s], true, 1, trig, rad, false) == AddResults(asWritten, Success(NoGradients));
    assert GradientSum([s], false, 1, trig, rad, false) == AddResults(fixed, Success(NoGradients));
  }

  // ---------------------------------------------------------------------
  // Stored gradients (src/dft/initRho.cc:999-1059)
  // ---------------------------------------------------------------------

  /** Below this magnitude the density counts as zero. */
  const DensityThreshold: real := 0.00000001

  /** The sign of the stored density: 0 when it is within 1e-8 of zero. */
  function SignRho(rho: real): (s: int)
    ensures -1 <= s <= 1
    ensures s == 0 <==> Abs(rho) <= DensityThreshold
    ensures s == 1 <==> rho > DensityThreshold
  {
    if Abs(rho) > DensityThreshold then (if rho > 0.0 then 1 else -1) else 0
  }

  /**
   * The stored gradients: the density gradient times the sign of the stored
   * density; with spin polarisation the z-magnetisation gradient, which
   * under constrained magnetisation is start_magnetization times the raw
   * density gradient; in the non-collinear case the three moment gradients
   * in the order z, y, x.
   */
  function StoreQuadGradients(p: Params, startMag: real, storedRho: real, g: Gradients): (out: seq<Vec3>)
    ensures |out| == NumRhoComponents(p)
    ensures Abs(storedRho) <= DensityThreshold ==> out[0] == Origin
    ensures storedRho > DensityThreshold ==> out[0] == g.rho
    ensures p.noncolin ==> out[1..] == [g.magZ, g.magY, g.magX]
    ensures p.spinPolarized && !p.noncolin && p.constraintMagnetization ==> out[1] == g.rho.Times(startMag)
    ensures p.spinPolarized && !p.noncolin && !p.constraintMagnetization ==> out[1] == g.magZ
  {
    var sign := SignRho(storedRho);
    var rho := g.rho.Times(sign as real);
    if p.noncolin then [rho, g.magZ, g.magY, g.magX]
    else if p.spinPolarized then [rho, if p.constraintMagnetization then g.rho.Times(startMag) else g.magZ]
    else [rho]
  }

  /**
   * Since the stored density is the absolute value of the superposition,
   * the stored density gradient is the raw one where the density exceeds
   * 1e-8 in size and exactly zero elsewhere.
   */
  lemma StoredGradientVanishesOnlyAtLowDensity(p: Params, startMag: real, v: Superposed, g: Gradients)
    ensures var stored := StoreQuadValues(p, startMag, v)[0];
            StoreQuadGradients(p, startMag, stored, g)[0] == (if Abs(v.rho) > DensityThreshold then g.rho else Origin)
  {
    var stored := StoreQuadValues(p, startMag, v)[0];
    assert Abs(stored) == Abs(v.rho);
  }

  // ---------------------------------------------------------------------
  // Nodal path (src/dft/initRho.cc:246-265, 381-395, 498-508)
  // ---------------------------------------------------------------------

  /**
   * The nodal components of one degree of freedom: |rho|, then the moments
   * the number of magnetisation components calls for (one: z; three: z, y,
   * x); any other entry keeps the 0 it was cleared to.
   */
  function NodalPointValues(numMag: nat, v: Superposed): (out: seq<real>)
    ensures |out| == numMag + 1
    ensures out[0] >= 0.0 && (out[0] == v.rho || out[0] == -v.rho)
    ensures numMag == 1 ==> out[1] == v.magZ
    ensures numMag == 3 ==> out[1..] == [v.magZ, v.magY, v.magX]
    ensures numMag != 1 && numMag != 3 ==> forall c :: 1 <= c <= numMag ==> out[c] == 0.0
  {
    [Abs(v.rho)] +
    (if numMag == 1 then [v.magZ]
     else if numMag == 3 then [v.magZ, v.magY, v.magX]
     else Zeros(numMag))
  }

  /**
   * Before its constraint step (ConstrainNodalMagnetization) the nodal path
   * stores at a degree of freedom what the quadrature path stores at a
   * quadrature point, in every mode except the collinear spin-polarised
   * constrained one, where the quadrature path already stores
   * start_magnetization |rho|. In spin-polarised non-collinear constrained
   * runs the later nodal step still overwrites component 1, which the
   * quadrature path does not do.
   */
  lemma NodalMatchesQuadrature(p: Params, startMag: real, v: Superposed)
    requires !(p.spinPolarized && !p.noncolin && p.constraintMagnetization)
    ensures NodalPointValues(NumRhoComponents(p) - 1, v) == StoreQuadValues(p, startMag, v)
  {
    var nodal := NodalPointValues(NumRhoComponents(p) - 1, v);
    var quad := StoreQuadValues(p, startMag, v);
    assert nodal[0] == Abs(v.rho) == quad[0];
    if p.noncolin {
      assert nodal == [nodal[0]] + nodal[1..];
      assert quad == [quad[0]] + quad[1..];
    }
  }

  /** The k-point group `task` handles the degrees of freedom low <= dof < high. */
  predicate HandlesDof(bounds: seq<nat>, task: nat, dof: nat) {
    Low(bounds, task) <= dof < High(bounds, task)
  }

  /**
   * What one k-point group writes into a nodal component: the value at the
   * unconstrained degrees of freedom it handles, 0 everywhere else.
   */
  function GroupNodalValues(n: nat, bounds: seq<nat>, task: nat, constrained: nat -> bool, value: nat -> real): (v: Vector)
    ensures |v| == n
    ensures forall dof :: 0 <= dof < n && !HandlesDof(bounds, task, dof) ==> v[dof] == 0.0
    ensures forall dof :: 0 <= dof < n && constrained(dof) ==> v[dof] == 0.0
    ensures forall dof :: 0 <= dof < n && HandlesDof(bounds, task, dof) && !constrained(dof) ==> v[dof] == value(dof)
  {
    seq(n, dof requires 0 <= dof < n => if HandlesDof(bounds, task, dof) && !constrained(dof) then value(dof) else 0.0)
  }

  /** The sum over the groups 0 .. groups-1 of what they wrote at one degree of freedom. */
  function ReducedNodalValue(n: nat, bounds: seq<nat>, groups: nat, constrained: nat -> bool, value: nat -> real, dof: nat): real
    requires dof < n
    decreases groups
  {
    if groups == 0 then 0.0
    else ReducedNodalValue(n, bounds, groups - 1, constrained, value, dof) + GroupNodalValues(n, bounds, groups - 1, constrained, value)[dof]
  }

  lemma {:induction false} ReducedNodalIsIndicatorSum(n: nat, bounds: seq<nat>, m: nat, constrained: nat -> bool, value: nat -> real, dof: nat)
    requires dof < n
    ensures ReducedNodalValue(n, bounds, m, constrained, value, dof) ==
            SumIndicator(bounds, m, dof + 1, if constrained(dof) then 0.0 else value(dof))
    decreases m
  {
    if m > 0 {
      ReducedNodalIsIndicatorSum(n, bounds, m - 1, constrained, value, dof);
      assert HandlesDof(bounds, m - 1, dof) <==> Owns(bounds, m - 1, dof + 1);
    }
  }

  /**
   * When the groups' ranges split [0, n), the summed nodal vectors hold at
   * every degree of freedom exactly its value (0 where it is constrained):
   * each degree of freedom is computed by one group only.
   */
  lemma NodalReductionIsSuperposition(bounds: seq<nat>, groups: nat, n: nat, constrained: nat -> bool, value: nat -> real, dof: nat)
    requires IsBandPartition(bounds, groups, n) && dof < n
    ensures ReducedNodalValue(n, bounds, groups, constrained, value, dof) == (if constrained(dof) then 0.0 else value(dof))
  {
    var v := if constrained(dof) then 0.0 else value(dof);
    ReducedNodalIsIndicatorSum(n, bounds, groups, constrained, value, dof);
    var owner := ExactlyOneOwner(bounds, groups, n, dof + 1);
    SumOverGroupsOfOwned(bounds, groups, dof + 1, owner, v);
  }

  /**
   * With spin polarisation and constrained magnetisation the nodal path,
   * after normalising, overwrites the magnetisation at every unconstrained
   * degree of freedom with start_magnetization times the density there.
   */
  function ConstrainNodalMagnetization(rho: Vector, mag: Vector, startMag: real, constrained: nat -> bool): (r: Vector)
    requires |rho| == |mag|
    ensures |r| == |mag|
  {
    seq(|mag|, dof requires 0 <= dof < |mag| => if constrained(dof) then mag[dof] else startMag * rho[dof])
  }

  /**
   * The constrained nodal magnetisation keeps the constrained degrees of
   * freedom and is bounded by the density elsewhere, as on the quadrature
   * path.
   */
  lemma ConstrainedNodalBounded(rho: Vector, mag: Vector, startMag: real, constrained: nat -> bool, dof: nat)
    requires |rho| == |mag| && dof < |mag|
    requires -1.0 <= startMag <= 1.0 && rho[dof] >= 0.0
    ensures constrained(dof) ==> ConstrainNodalMagnetization(rho, mag, startMag, constrained)[dof] == mag[dof]
    ensures !constrained(dof) ==> -rho[dof] <= ConstrainNodalMagnetization(rho, mag, startMag, constrained)[dof] <= rho[dof]
  {
    var m := ConstrainNodalMagnetization(rho, mag, startMag, constrained)[dof];
    if !constrained(dof) {
      var a := rho[dof];
      assert m == startMag * a;
      BoundedProduct(startMag, a);
    }
  }

  /**
   * The case NodalMatchesQuadrature leaves out: with constrained
   * magnetisation an unconstrained degree of freedom ends up with the
   * moment the quadrature path stores for the same density.
   */
  lemma ConstrainedNodalMatchesQuadrature(p: Params, startMag: real, v: Superposed,
                                          rho: Vector, mag: Vector, constrained: nat -> bool, dof: nat)
    requires p.spinPolarized && !p.noncolin && p.constraintMagnetization
    requires |rho| == |mag| && dof < |mag| && !constrained(dof)
    requires rho[dof] == NodalPointValues(1, v)[0]
    ensures ConstrainNodalMagnetization(rho, mag, startMag, constrained)[dof] == StoreQuadValues(p, startMag, v)[1]
  {
    var quad := StoreQuadValues(p, startMag, v);
    assert quad[0] == Abs(v.rho) == rho[dof];
  }

  /**
   * The nodal path constrains after normalising, the quadrature path before:
   * both orders give the same result, since scaling commutes with the
   * constraint.
   */
  lemma ConstrainCommutesWithScaling(s: real, rho: Vector, mag: Vector, startMag: real, constrained: nat -> bool)
    requires |rho| == |mag|
    ensures ConstrainNodalMagnetization(Scale(s, rho), Scale(s, mag), startMag, constrained) ==
            Scale(s, ConstrainNodalMagnetization(rho, mag, startMag, constrained))
  {
    var lhs := ConstrainNodalMagnetization(Scale(s, rho), Scale(s, mag), startMag, constrained);
    var rhs := Scale(s, ConstrainNodalMagnetization(rho, mag, startMag, constrained));
    forall dof | 0 <= dof < |mag|
      ensures lhs[dof] == rhs[dof]
    {
      if !constrained(dof) {
        assert startMag * (s * rho[dof]) == s * (startMag * rho[dof]);
      }
    }
  }

  // ---------------------------------------------------------------------
  // Normalisation (src/dft/initRho.cc:1566-1591, 1614-1637, 508-518)
  // ---------------------------------------------------------------------

  /**
   * The total charge of a density: its quadrature sum with the weights
   * JxW. totalCharge itself is not part of this model; this is the linear
   * functional it computes.
   */
  function Charge(jxw: Vector, rho: Vector): real
    requires |jxw| == |rho|
  {
    Dot(jxw, rho)
  }

  function ScaleAll(s: real, vs: seq<Vector>): (r: seq<Vector>)
    ensures |r| == |vs|
    ensures forall c :: 0 <= c < |vs| ==> r[c] == Scale(s, vs[c])
  {
    seq(|vs|, c requires 0 <= c < |vs| => Scale(s, vs[c]))
  }

  datatype Densities = Densities(values: seq<Vector>, gradients: seq<Vector>)

  /**
   * Scales every density component, and with a GGA functional every
   * gradient component, by numElectrons / charge of component 0. A zero
   * charge has no scaling factor (the code divides by zero).
   */
  function Normalize(d: Densities, gga: bool, jxw: Vector, numElectrons: nat): (r: Result<Densities>)
    requires |d.values| > 0 && |jxw| == |d.values[0]|
    ensures r.Failure? <==> Charge(jxw, d.values[0]) == 0.0
    ensures r.Success? ==> |r.value.values| == |d.values| && |r.value.gradients| == |d.gradients|
    ensures r.Success? ==> forall c :: 0 <= c < |d.values| ==> |r.value.values[c]| == |d.values[c]|
    ensures r.Success? ==> forall c :: 0 <= c < |d.gradients| ==> |r.value.gradients[c]| == |d.gradients[c]|
    ensures r.Success? && !gga ==> r.value.gradients == d.gradients
  {
    var charge := Charge(jxw, d.values[0]);
    if charge == 0.0 then Failure("zero total charge")
    else
      var scaling := numElectrons as real / charge;
      Success(Densities(ScaleAll(scaling, d.values), if gga then ScaleAll(scaling, d.gradients) else d.gradients))
  }

  /** After normalisation the charge of component 0 is the electron count. */
  lemma NormalizedChargeIsElectronCount(d: Densities, gga: bool, jxw: Vector, numElectrons: nat)
    requires |d.values| > 0 && |jxw| == |d.values[0]|
    requires Charge(jxw, d.values[0]) != 0.0
    ensures var r := Normalize(d, gga, jxw, numElectrons);
            r.Success? && Charge(jxw, r.value.values[0]) == numElectrons as real
  {
    var charge := Charge(jxw, d.values[0]);
    var scaling := numElectrons as real / charge;
    var r := Normalize(d, gga, jxw, numElectrons);
    DotScale(jxw, d.values[0], scaling, r.value.values[0]);
    assert scaling * charge == numElectrons as real;
  }

  /**
   * All components are scaled by the same factor: the ratio of any two
   * entries of any two components (gradients included under GGA) is kept.
   */
  lemma NormalizationPreservesRatios(d: Densities, gga: bool, jxw: Vector, numElectrons: nat,
                                      c: nat, i: nat, e: nat, j: nat)
    requires |d.values| > 0 && |jxw| == |d.values[0]|
    requires Normalize(d, gga, jxw, numElectrons).Success?
    requires c < |d.values| && i < |d.values[c]| && e < |d.values| && j < |d.values[e]|
    ensures var out := Normalize(d, gga, jxw, numElectrons).value;
            out.values[c][i] * d.values[e][j] == out.values[e][j] * d.values[c][i]
    ensures var out := Normalize(d, gga, jxw, numElectrons).value;
            gga && c < |d.gradients| && i < |d.gradients[c]| ==>
            out.gradients[c][i] * d.values[e][j] == out.values[e][j] * d.gradients[c][i]
  {
    var scaling := numElectrons as real / Charge(jxw, d.values[0]);
    var out := Normalize(d, gga, jxw, numElectrons).value;
    SameFactor(scaling, d.values[c][i], d.values[e][j]);
    if gga && c < |d.gradients| && i < |d.gradients[c]| {
      SameFactor(scaling, d.gradients[c][i], d.values[e][j]);
    }
  }

  lemma SameFactor(s: real, a: real, b: real)
    ensures (s * a) * b == (s * b) * a
  {
  }

  /** Normalising a normalised density changes nothing. */
  lemma NormalizeIdempotent(d: Densities, gga: bool, jxw: Vector, numElectrons: nat)
    requires |d.values| > 0 && |jxw| == |d.values[0]|
    requires numElectrons > 0 && Charge(jxw, d.values[0]) != 0.0
    ensures var r := Normalize(d, gga, jxw, numElectrons);
            r.Success? && Normalize(r.value, gga, jxw, numElectrons) == r
  {
    var r := Normalize(d, gga, jxw, numElectrons);
    NormalizedChargeIsElectronCount(d, gga, jxw, numElectrons);
    var n := numElectrons as real;
    assert n / n == 1.0;
    ScaleByOne(r.value.values);
    ScaleByOne(r.value.gradients);
  }

  lemma ScaleByOne(vs: seq<Vector>)
    ensures ScaleAll(1.0, vs) == vs
  {
    forall c | 0 <= c < |vs|
      ensures ScaleAll(1.0, vs)[c] == vs[c]
    {
      assert Scale(1.0, vs[c]) == vs[c];
    }
  }

  // ---------------------------------------------------------------------
  // Guess from eigenvectors: spin channels (src/dft/initRho.cc:1399-1420, 1528-1537)
  // ---------------------------------------------------------------------

  function ChannelEntry(buf: Vector, nq: nat, w: nat, s: nat, k: nat): real
    requires |buf| == nq * 2 * w && s < 2 && k < nq * w
  {
    FlatSurjective(k, nq, w);
    Flat3Bound(k / w, s, k % w, nq, 2, w);
    buf[Flat3(k / w, s, k % w, 2, w)]
  }

  /**
   * Channel s (0 up, 1 down) of a buffer laid out per point as the up
   * block then the down block, each w wide (1 for densities, 3 for
   * gradients).
   */
  function Channel(buf: Vector, nq: nat, w: nat, s: nat): (v: Vector)
    requires |buf| == nq * 2 * w && s < 2
    ensures |v| == nq * w
  {
    seq(nq * w, k requires 0 <= k < nq * w => ChannelEntry(buf, nq, w, s, k))
  }

  lemma ChannelAt(buf: Vector, nq: nat, w: nat, s: nat, q: nat, d: nat)
    requires |buf| == nq * 2 * w && s < 2 && q < nq && d < w
    ensures Flat(q, d, w) < nq * w && Flat3(q, s, d, 2, w) < |buf|
    ensures Channel(buf, nq, w, s)[Flat(q, d, w)] == buf[Flat3(q, s, d, 2, w)]
  {
    FlatBound(q, d, nq, w);
    FlatDivMod(q, d, w);
    Flat3Bound(q, s, d, nq, 2, w);
  }

  function InterleaveEntry(up: Vector, down: Vector, nq: nat, w: nat, k: nat): real
    requires |up| == nq * w && |down| == nq * w && k < nq * 2 * w
  {
    FlatSurjective(k, nq * 2, w);
    var a := k / w;
    FlatSurjective(a, nq, 2);
    FlatBound(a / 2, k % w, nq, w);
    if a % 2 == 0 then up[Flat(a / 2, k % w, w)] else down[Flat(a / 2, k % w, w)]
  }

  /** The per-point layout of the two channels: the inverse of Channel. */
  function Interleave(up: Vector, down: Vector, nq: nat, w: nat): (buf: Vector)
    requires |up| == nq * w && |down| == nq * w
    ensures |buf| == nq * 2 * w
  {
    seq(nq * 2 * w, k requires 0 <= k < nq * 2 * w => InterleaveEntry(up, down, nq, w, k))
  }

  /** Interleaving the two channels of a buffer gives the buffer back. */
  lemma InterleaveChannels(buf: Vector, nq: nat, w: nat)
    requires |buf| == nq * 2 * w
    ensures Interleave(Channel(buf, nq, w, 0), Channel(buf, nq, w, 1), nq, w) == buf
  {
    var up, down := Channel(buf, nq, w, 0), Channel(buf, nq, w, 1);
    var back := Interleave(up, down, nq, w);
    forall k | 0 <= k < |buf|
      ensures back[k] == buf[k]
    {
      FlatSurjective(k, nq * 2, w);
      var a := k / w;
      FlatSurjective(a, nq, 2);
      ChannelAt(buf, nq, w, a % 2, a / 2, k % w);
      assert Flat3(a / 2, a % 2, k % w, 2, w) == k;
    }
  }

  /**
   * The stored pair from the two spin channels: per point and direction,
   * component 0 is up + down and component 1 is up - down.
   */
  function CombineSpinChannels(buf: Vector, nq: nat, w: nat): (r: (Vector, Vector))
    requires |buf| == nq * 2 * w
    ensures |r.0| == nq * w && |r.1| == nq * w
  {
    ToTotalAndMagnetization(Channel(buf, nq, w, 0), Channel(buf, nq, w, 1))
  }

  lemma CombinedEntries(buf: Vector, nq: nat, w: nat, q: nat, d: nat)
    requires |buf| == nq * 2 * w && q < nq && d < w
    ensures Flat(q, d, w) < nq * w && Flat3(q, 0, d, 2, w) < |buf| && Flat3(q, 1, d, 2, w) < |buf|
    ensures var r := CombineSpinChannels(buf, nq, w);
            r.0[Flat(q, d, w)] == buf[Flat3(q, 0, d, 2, w)] + buf[Flat3(q, 1, d, 2, w)] &&
            r.1[Flat(q, d, w)] == buf[Flat3(q, 0, d, 2, w)] - buf[Flat3(q, 1, d, 2, w)]
  {
    ChannelAt(buf, nq, w, 0, q, d);
    ChannelAt(buf, nq, w, 1, q, d);
    var up, down := Channel(buf, nq, w, 0), Channel(buf, nq, w, 1);
    SumAndDifference(up, down, Flat(q, d, w), up[Flat(q, d, w)], down[Flat(q, d, w)]);
  }

  lemma SumAndDifference(up: Vector, down: Vector, k: nat, a: real, b: real)
    requires |up| == |down| && k < |up| && up[k] == a && down[k] == b
    ensures var r := ToTotalAndMagnetization(up, down);
            r.0[k] == a + b && r.1[k] == a - b
  {
    var r := ToTotalAndMagnetization(up, down);
    assert r.0[k] + r.1[k] == 2.0 * a;
    assert r.0[k] - r.1[k] == 2.0 * b;
  }

  /**
   * The combination loses nothing: splitting the stored pair back into
   * channels and interleaving them restores the per-point buffer.
   */
  lemma SpinChannelsRoundTrip(buf: Vector, nq: nat, w: nat)
    requires |buf| == nq * 2 * w
    ensures var r := CombineSpinChannels(buf, nq, w);
            var ud := FromTotalAndMagnetization(r.0, r.1);
            Interleave(ud.0, ud.1, nq, w) == buf
  {
    SpinBasisRoundTrip(Channel(buf, nq, w, 0), Channel(buf, nq, w, 1));
    InterleaveChannels(buf, nq, w);
  }
}
