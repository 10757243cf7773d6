/**
 * Chebyshev filtering of a subspace (linearAlgebraOperations::chebyshevFilter).
 *
 * The Hamiltonian is an abstract length-preserving map H on vectors; the
 * operator call HXCheby(src, sHX, sY, sX, dst) is modelled by the affine
 * contract dst := sHX * H(src) + sY * dst + sX * src. The filter runs the
 * scaled three-term Chebyshev recurrence, rotating two buffers X and Y.
 */
module ChebyshevFilter {
  import opened Numerics

  ghost predicate LengthPreserving(H: Vector -> Vector) {
    forall v: Vector :: |H(v)| == |v|
  }

  /** The affine operator contract assumed for HXCheby. */
  function HXCheby(H: Vector -> Vector, src: Vector, sHX: real, sY: real, sX: real, dst: Vector): (r: Vector)
    requires |H(src)| == |src| == |dst|
    ensures |r| == |src|
    ensures forall i :: 0 <= i < |src| ==> r[i] == sHX * H(src)[i] + sY * dst[i] + sX * src[i]
  {
    var hs := H(src);
    seq(|src|, i requires 0 <= i < |src| => sHX * hs[i] + sY * dst[i] + sX * src[i])
  }

  /** The scalars e, c, sigma1 and gamma the filter derives from the interval [a, b] and a0. */
  datatype Coefficients = Coefficients(e: real, c: real, sigma1: real, gamma: real)

  function FilterCoefficients(a: real, b: real, a0: real): (k: Coefficients)
    requires a != b && a0 != (b + a) / 2.0
    ensures k.c - k.e == a && k.c + k.e == b
    ensures k.e != 0.0 && k.sigma1 != 0.0
    ensures k.sigma1 * (a0 - k.c) == k.e
    ensures k.gamma * k.sigma1 == 2.0
  {
    var e := (b - a) / 2.0;
    var c := (b + a) / 2.0;
    var sigma := e / (a0 - c);
    Coefficients(e, c, sigma, 2.0 / sigma)
  }

  /**
   * Reference definition of the filter without buffer rotation: `cur` is the
   * degree-k iterate, `prev` the degree k-1 one (the input for k = 1), and
   * `sigma` the recurrence scalar after step k. A vanishing gamma - sigma is a
   * breakdown (the code would divide by zero).
   */
  datatype Iterate = Iterate(prev: Vector, cur: Vector, sigma: real)

  function FirstAlpha(co: Coefficients): real
    requires co.e != 0.0
  {
    co.sigma1 / co.e
  }

  function FirstShift(co: Coefficients): real
    requires co.e != 0.0
  {
    FirstAlpha(co) * -co.c
  }

  /** The first operator call, into the zeroed buffer dst: coefficients (sigma1/e, 0, -c sigma1/e). */
  function FirstCall(H: Vector -> Vector, x: Vector, co: Coefficients, dst: Vector): (r: Vector)
    requires LengthPreserving(H) && |dst| == |x| && co.e != 0.0
    ensures |r| == |x|
  {
    HXCheby(H, x, FirstAlpha(co), 0.0, FirstShift(co), dst)
  }

  /**
   * The scalars of one polynomial step for a degree >= 2:
   * sigma2 = 1/(gamma - sigma), alpha1 = 2 sigma2/e, alpha2 = -sigma sigma2,
   * and the shift -c alpha1 applied to the source buffer.
   */
  datatype StepCoeffs = StepCoeffs(sigma2: real, alpha1: real, alpha2: real, shift: real)

  /** The defining equations of the step scalars, free of division. */
  ghost predicate StepScalars(sc: StepCoeffs, sigma: real, co: Coefficients) {
    sc.sigma2 * (co.gamma - sigma) == 1.0 && sc.alpha1 * co.e == 2.0 * sc.sigma2 &&
    sc.alpha2 == -(sigma * sc.sigma2) && sc.shift == -co.c * sc.alpha1
  }

  function StepCoefficients(sigma: real, co: Coefficients): (sc: StepCoeffs)
    requires co.gamma - sigma != 0.0 && co.e != 0.0
    ensures StepScalars(sc, sigma, co)
  {
    var sigma2 := 1.0 / (co.gamma - sigma);
    var alpha1 := 2.0 * sigma2 / co.e;
    StepCoeffs(sigma2, alpha1, -(sigma * sigma2), -co.c * alpha1)
  }

  /** The call of one step: overwrites the older buffer `prev` with alpha1 H(cur) + alpha2 prev + shift cur. */
  function NextCall(H: Vector -> Vector, cur: Vector, prev: Vector, sigma: real, co: Coefficients): (r: Vector)
    requires LengthPreserving(H) && |prev| == |cur| && co.e != 0.0 && co.gamma - sigma != 0.0
    ensures |r| == |cur|
  {
    var sc := StepCoefficients(sigma, co);
    HXCheby(H, cur, sc.alpha1, sc.alpha2, sc.shift, prev)
  }

  function FilterIterate(H: Vector -> Vector, x: Vector, k: nat, co: Coefficients): (r: Result<Iterate>)
    requires k >= 1 && LengthPreserving(H) && co.e != 0.0
    ensures r.Success? ==> |r.value.prev| == |x| && |r.value.cur| == |x|
    decreases k
  {
    if k == 1 then
      Success(Iterate(x, FirstCall(H, x, co, Zeros(|x|)), co.sigma1))
    else
      match FilterIterate(H, x, k - 1, co)
      case Failure(msg) => Failure(msg)
      case Success(it) =>
        if co.gamma - it.sigma == 0.0 then Failure("Chebyshev recurrence breakdown: gamma == sigma")
        else Success(Iterate(it.cur, NextCall(H, it.cur, it.prev, it.sigma, co), StepCoefficients(it.sigma, co).sigma2))
  }

  function Degree(m: nat): (d: nat)
    ensures d >= 1
    ensures m >= 1 ==> d == m
  {
    if m == 0 then 1 else m
  }

  /**
   * chebyshevFilter: X and Y are the caller's two buffers. Returns the final
   * X and Y (equal after the closing copy) and the number of operator calls.
   */
  method Filter(H: Vector -> Vector, X: Vector, Y: Vector, m: nat, a: real, b: real, a0: real)
    returns (r: Result<(Vector, Vector)>, calls: nat)
    requires LengthPreserving(H) && |X| == |Y|
    requires a != b && a0 != (b + a) / 2.0
    ensures r.Success? <==> FilterIterate(H, X, Degree(m), FilterCoefficients(a, b, a0)).Success?
    ensures r.Success? ==> calls == Degree(m)
    ensures r.Success? ==> |r.value.0| == |X| && r.value.0 == r.value.1
    ensures r.Success? ==> r.value.0 == FilterIterate(H, X, Degree(m), FilterCoefficients(a, b, a0)).value.cur
  {
    var co := FilterCoefficients(a, b, a0);
    var sigma := co.sigma1;
    var x := X;
    var y := Zeros(|X|);
    y := FirstCall(H, x, co, y);
    calls := 1;
    var degree := 2;
    while degree < m + 1
      invariant 2 <= degree
      invariant degree <= Degree(m) + 1
      invariant calls == degree - 1
      invariant FilterIterate(H, X, degree - 1, co) == Success(Iterate(x, y, sigma))
    {
      if co.gamma - sigma == 0.0 {
        FailurePersists(H, X, degree, m, co);
        return Failure("Chebyshev recurrence breakdown: gamma == sigma"), calls;
      }
      x := NextCall(H, y, x, sigma, co);
      calls := calls + 1;
      x, y := y, x;
      sigma := StepCoefficients(sigma, co).sigma2;
      degree := degree + 1;
    }
    assert degree - 1 == Degree(m);
    x := y;
    r := Success((x, y));
  }

  /** Once the recurrence breaks down it stays broken for every higher degree. */
  lemma {:induction false} FailurePersists(H: Vector -> Vector, x: Vector, k: nat, m: nat, co: Coefficients)
    requires 1 <= k <= m && LengthPreserving(H) && co.e != 0.0
    requires FilterIterate(H, x, k, co).Failure?
    ensures FilterIterate(H, x, m, co).Failure?
    decreases m - k
  {
    if k < m {
      assert FilterIterate(H, x, k + 1, co).Failure?;
      FailurePersists(H, x, k + 1, m, co);
    }
  }

  // ---------------------------------------------------------------------
  // Action on an eigenvector: the filter applies a scaled Chebyshev polynomial
  // ---------------------------------------------------------------------

  ghost predicate IsEigenvector(H: Vector -> Vector, x: Vector, lambda: real) {
    forall s: real :: H(Scale(s, x)) == Scale(s * lambda, x)
  }

  lemma HXChebyOnLine(H: Vector -> Vector, x: Vector, lambda: real, p: real, q: real, sHX: real, sY: real, sX: real)
    requires LengthPreserving(H) && IsEigenvector(H, x, lambda)
    ensures HXCheby(H, Scale(p, x), sHX, sY, sX, Scale(q, x)) == Scale(LineCoefficient(sHX, sY, sX, p, q, lambda), x)
  {
    var px := Scale(p, x);
    assert H(px) == Scale(p * lambda, x);
    CombinationOnLine(x, H(px), px, Scale(q, x), HXCheby(H, px, sHX, sY, sX, Scale(q, x)), sHX, sY, sX, p, q, lambda);
  }

  /** sHX (p lambda x) + sY (q x) + sX (p x) is a multiple of x. */
  lemma CombinationOnLine(x: Vector, hx: Vector, px: Vector, qx: Vector, r: Vector,
                          sHX: real, sY: real, sX: real, p: real, q: real, lambda: real)
    requires hx == Scale(p * lambda, x) && px == Scale(p, x) && qx == Scale(q, x)
    requires |r| == |x| && forall i :: 0 <= i < |x| ==> r[i] == sHX * hx[i] + sY * qx[i] + sX * px[i]
    ensures r == Scale(LineCoefficient(sHX, sY, sX, p, q, lambda), x)
  {
    var k := LineCoefficient(sHX, sY, sX, p, q, lambda);
    var rhs := Scale(k, x);
    forall i | 0 <= i < |x|
      ensures r[i] == rhs[i]
    {
      assert hx[i] == p * lambda * x[i] && qx[i] == q * x[i] && px[i] == p * x[i];
      LineFactor(sHX, sY, sX, p, q, lambda, x[i], hx[i], qx[i], px[i]);
    }
  }

  lemma LineFactor(sHX: real, sY: real, sX: real, p: real, q: real, lambda: real, xi: real, h: real, qv: real, pv: real)
    requires h == p * lambda * xi && qv == q * xi && pv == p * xi
    ensures sHX * h + sY * qv + sX * pv == LineCoefficient(sHX, sY, sX, p, q, lambda) * xi
  {
    assert sHX * h == (sHX * p * lambda) * xi;
    assert sY * qv == (sY * q) * xi;
    assert sX * pv == (sX * p) * xi;
  }

  /** The coefficient of x after one affine call applied to p x with destination q x. */
  function LineCoefficient(sHX: real, sY: real, sX: real, p: real, q: real, lambda: real): real {
    sHX * p * lambda + sY * q + sX * p
  }

  /** The filter restricted to the line through an eigenvector: the recurrence on the coefficients of x. */
  datatype LineIterate = LineIterate(prev: real, cur: real, sigma: real)

  function LineFilter(lambda: real, k: nat, co: Coefficients): Result<LineIterate>
    requires k >= 1 && co.e != 0.0
    decreases k
  {
    if k == 1 then
      Success(LineIterate(1.0, LineCoefficient(FirstAlpha(co), 0.0, FirstShift(co), 1.0, 0.0, lambda), co.sigma1))
    else
      match LineFilter(lambda, k - 1, co)
      case Failure(msg) => Failure(msg)
      case Success(it) =>
        if co.gamma - it.sigma == 0.0 then Failure("Chebyshev recurrence breakdown: gamma == sigma")
        else Success(LineStep(it, co, lambda))
  }

  /** One recurrence step on the coefficients of x. */
  function LineStep(it: LineIterate, co: Coefficients, lambda: real): LineIterate
    requires co.gamma - it.sigma != 0.0 && co.e != 0.0
  {
    LineStepWith(it, StepCoefficients(it.sigma, co), lambda)
  }

  /** The step with given scalars: the new coefficient is the affine call's, sigma becomes sigma2. */
  function LineStepWith(it: LineIterate, sc: StepCoeffs, lambda: real): LineIterate {
    LineIterate(it.cur, LineCoefficient(sc.alpha1, sc.alpha2, sc.shift, it.cur, it.prev, lambda), sc.sigma2)
  }

  /** On an eigenvector every iterate stays on the line through x, with the coefficients of LineFilter. */
  lemma {:induction false} FilterStaysOnLine(H: Vector -> Vector, x: Vector, lambda: real, co: Coefficients, k: nat)
    requires LengthPreserving(H) && IsEigenvector(H, x, lambda) && co.e != 0.0 && k >= 1
    ensures FilterIterate(H, x, k, co).Success? == LineFilter(lambda, k, co).Success?
    ensures LineFilter(lambda, k, co).Success? ==>
              var li := LineFilter(lambda, k, co).value;
              FilterIterate(H, x, k, co).value == Iterate(Scale(li.prev, x), Scale(li.cur, x), li.sigma)
    decreases k
  {
    if k == 1 {
      assert x == Scale(1.0, x);
      assert Zeros(|x|) == Scale(0.0, x);
      HXChebyOnLine(H, x, lambda, 1.0, 0.0, FirstAlpha(co), 0.0, FirstShift(co));
    } else {
      FilterStaysOnLine(H, x, lambda, co, k - 1);
      match LineFilter(lambda, k - 1, co)
      case Failure(_) =>
      case Success(li) =>
        if co.gamma - li.sigma != 0.0 {
          var sc := StepCoefficients(li.sigma, co);
          HXChebyOnLine(H, x, lambda, li.cur, li.prev, sc.alpha1, sc.alpha2, sc.shift);
        }
    }
  }

  /** Chebyshev polynomial of the first kind, T_k(t). */
  function Cheb(k: nat, t: real): real
    decreases k
  {
    if k == 0 then 1.0 else if k == 1 then t else 2.0 * t * Cheb(k - 1, t) - Cheb(k - 2, t)
  }

  lemma AbsMul(x: real, y: real)
    ensures Abs(x * y) == Abs(x) * Abs(y)
  {
    if x < 0.0 && y < 0.0 {
      assert x * y == (-x) * (-y);
    } else if x < 0.0 {
      assert -(x * y) == (-x) * y;
    } else if y < 0.0 {
      assert -(x * y) == x * (-y);
    }
  }

  lemma AbsDifference(x: real, y: real)
    ensures Abs(x - y) >= Abs(x) - Abs(y)
  {
  }

  lemma MulAboveOne(a: real, b: real)
    requires a > 1.0 && b > 0.0
    ensures a * b > b
  {
    assert (a - 1.0) * b > 0.0;
  }

  /** The modulus step behind ChebGrowth, free of the recursion. */
  lemma GrowthStep(t0: real, tk: real, tkm1: real, tkp1: real)
    requires Abs(t0) > 1.0 && Abs(tk) > Abs(tkm1) && Abs(tk) >= 1.0
    requires tkp1 == 2.0 * t0 * tk - tkm1
    ensures Abs(tkp1) > Abs(tk)
  {
    var p := 2.0 * t0;
    AbsMul(p, tk);
    AbsMul(2.0, t0);
    MulAboveOne(Abs(t0), Abs(tk));
    assert Abs(p * tk) > 2.0 * Abs(tk);
    AbsDifference(p * tk, tkm1);
  }

  /** The three-term recurrence T_k = 2 t T_{k-1} - T_{k-2}. */
  lemma ChebUnfold(k: nat, t: real)
    requires k >= 2
    ensures Cheb(k, t) == 2.0 * t * Cheb(k - 1, t) - Cheb(k - 2, t)
  {
  }

  /** Outside [-1, 1] the Chebyshev polynomials grow strictly in modulus, so none vanishes. */
  lemma {:induction false} ChebGrowth(k: nat, t0: real)
    requires Abs(t0) > 1.0
    ensures Abs(Cheb(k + 1, t0)) > Abs(Cheb(k, t0)) >= 1.0
    decreases k
  {
    if k == 0 {
      assert Cheb(1, t0) == t0 && Cheb(0, t0) == 1.0;
    } else {
      ChebGrowth(k - 1, t0);
      ChebUnfold(k + 1, t0);
      GrowthStep(t0, Cheb(k, t0), Cheb(k - 1, t0), Cheb(k + 1, t0));
    }
  }

  lemma ChebNonZero(k: nat, t0: real)
    requires Abs(t0) > 1.0
    ensures Cheb(k, t0) != 0.0
  {
    ChebGrowth(k, t0);
  }

  // Small field identities used by the scalar step.

  lemma GammaIsTwiceT0(gamma: real, sigma1: real, t0: real)
    requires sigma1 != 0.0 && gamma * sigma1 == 2.0 && t0 * sigma1 == 1.0
    ensures gamma == 2.0 * t0
  {
    assert gamma == gamma * (sigma1 * t0);
  }

  /** The three-term recurrence c = 2 x b - a of the Chebyshev polynomials, for values b = T_k, a = T_{k-1}, c = T_{k+1}. */
  ghost predicate Recurrence(x: real, b: real, a: real, c: real) {
    c == 2.0 * x * b - a
  }

  lemma DenominatorStep(gamma: real, t0: real, sigma: real, uk: real, ukm1: real, ukp1: real)
    requires gamma == 2.0 * t0 && sigma * uk == ukm1 && Recurrence(t0, uk, ukm1, ukp1)
    ensures (gamma - sigma) * uk == ukp1
  {
  }

  lemma Sigma2Step(gamma: real, sigma: real, sigma2: real, uk: real, ukp1: real)
    requires (gamma - sigma) * uk == ukp1 && sigma2 * (gamma - sigma) == 1.0
    ensures sigma2 * ukp1 == uk
  {
    assert sigma2 * ukp1 == (sigma2 * (gamma - sigma)) * uk;
  }

  lemma Alpha1Step(alpha1: real, sigma2: real, e: real, c: real, lambda: real, t: real)
    requires t * e == lambda - c && alpha1 * e == 2.0 * sigma2
    ensures alpha1 * (lambda - c) == 2.0 * sigma2 * t
  {
    assert alpha1 * (lambda - c) == (alpha1 * e) * t;
  }

  lemma Regroup(alpha1: real, alpha2: real, shift: real, c: real, lambda: real, p: real, q: real)
    requires shift == -c * alpha1
    ensures LineCoefficient(alpha1, alpha2, shift, p, q, lambda) == (alpha1 * (lambda - c)) * p + alpha2 * q
  {
  }

  lemma CoefficientAlgebra(lc: real, a1lc: real, alpha2: real, sigma: real, sigma2: real, t: real, cur: real, prev: real,
                            uk: real, ukm1: real, ukp1: real, tk: real, tkm1: real)
    requires lc == a1lc * cur + alpha2 * prev && alpha2 == -(sigma * sigma2)
    requires a1lc == 2.0 * sigma2 * t && sigma2 * ukp1 == uk
    requires cur * uk == tk && prev * ukm1 == tkm1 && sigma * uk == ukm1
    ensures lc * ukp1 == 2.0 * t * tk - tkm1
  {
    assert a1lc * cur * ukp1 == 2.0 * t * cur * (sigma2 * ukp1);
    assert (sigma * sigma2) * prev * ukp1 == sigma * prev * (sigma2 * ukp1);
    assert sigma * prev * uk == prev * ukm1;
    assert lc * ukp1 == a1lc * cur * ukp1 - (sigma * sigma2) * prev * ukp1;
  }

  /**
   * The scalar step: if the degree-(k-1) line iterate satisfies the
   * Chebyshev relations (cur T_k(t0) = T_k(t), prev T_{k-1}(t0) = T_{k-1}(t),
   * sigma T_k(t0) = T_{k-1}(t0)), one more step with the scalars of
   * StepCoefficients satisfies them for k + 1.
   */
  lemma ScalarStep(co: Coefficients, sc: StepCoeffs, lambda: real, t: real, it: LineIterate,
                   uk: real, ukm1: real, ukp1: real, tk: real, tkm1: real, tkp1: real)
    requires t * co.e == lambda - co.c && (co.gamma - it.sigma) * uk == ukp1
    requires StepScalars(sc, it.sigma, co)
    requires Recurrence(t, tk, tkm1, tkp1)
    requires Related(it, uk, ukm1, tk, tkm1)
    ensures Related(LineStepWith(it, sc, lambda), ukp1, uk, tkp1, tk)
  {
    Sigma2Step(co.gamma, it.sigma, sc.sigma2, uk, ukp1);
    NextCoefficientStep(co, sc, lambda, t, it, uk, ukm1, ukp1, tk, tkm1, tkp1);
    var next := LineStepWith(it, sc, lambda);
    assert next.prev == it.cur && next.sigma == sc.sigma2;
  }

  /** The new coefficient of x times T_{k+1}(t0) is T_{k+1}(t). */
  lemma NextCoefficientStep(co: Coefficients, sc: StepCoeffs, lambda: real, t: real, it: LineIterate,
                            uk: real, ukm1: real, ukp1: real, tk: real, tkm1: real, tkp1: real)
    requires t * co.e == lambda - co.c
    requires StepScalars(sc, it.sigma, co) && sc.sigma2 * ukp1 == uk
    requires Recurrence(t, tk, tkm1, tkp1) && Related(it, uk, ukm1, tk, tkm1)
    ensures LineCoefficient(sc.alpha1, sc.alpha2, sc.shift, it.cur, it.prev, lambda) * ukp1 == tkp1
  {
    NextCoefficientScalars(co.e, co.c, sc.sigma2, sc.alpha1, sc.alpha2, sc.shift, lambda, t, it.cur, it.prev, it.sigma,
                           uk, ukm1, ukp1, tk, tkm1, tkp1);
  }

  /** NextCoefficientStep on plain reals. */
  lemma NextCoefficientScalars(e: real, c: real, sigma2: real, alpha1: real, alpha2: real, shift: real, lambda: real,
                               t: real, cur: real, prev: real, sigma: real,
                               uk: real, ukm1: real, ukp1: real, tk: real, tkm1: real, tkp1: real)
    requires t * e == lambda - c && alpha1 * e == 2.0 * sigma2
    requires alpha2 == -(sigma * sigma2) && shift == -c * alpha1 && sigma2 * ukp1 == uk
    requires tkp1 == 2.0 * t * tk - tkm1
    requires cur * uk == tk && prev * ukm1 == tkm1 && sigma * uk == ukm1
    ensures LineCoefficient(alpha1, alpha2, shift, cur, prev, lambda) * ukp1 == tkp1
  {
    var lc := LineCoefficient(alpha1, alpha2, shift, cur, prev, lambda);
    var a1lc := alpha1 * (lambda - c);
    Alpha1Step(alpha1, sigma2, e, c, lambda, t);
    Regroup(alpha1, alpha2, shift, c, lambda, cur, prev);
    CoefficientAlgebra(lc, a1lc, alpha2, sigma, sigma2, t, cur, prev, uk, ukm1, ukp1, tk, tkm1);
  }

  lemma BaseScalars(co: Coefficients, lambda: real, t: real, t0: real)
    requires co.e != 0.0 && t * co.e == lambda - co.c && t0 * co.sigma1 == 1.0
    ensures LineCoefficient(FirstAlpha(co), 0.0, FirstShift(co), 1.0, 0.0, lambda) * t0 == t
  {
    var alpha1 := FirstAlpha(co);
    assert LineCoefficient(alpha1, 0.0, FirstShift(co), 1.0, 0.0, lambda) == alpha1 * (lambda - co.c);
    assert alpha1 * co.e == co.sigma1;
    assert alpha1 * (lambda - co.c) * t0 == alpha1 * co.e * t * t0;
  }

  /**
   * Chebyshev relations of a degree-k line iterate, multiplied out:
   * cur T_k(t0) = T_k(t), prev T_{k-1}(t0) = T_{k-1}(t), sigma T_k(t0) = T_{k-1}(t0).
   */
  ghost predicate ChebyshevRelations(it: LineIterate, k: nat, t: real, t0: real)
    requires k >= 1
  {
    Related(it, Cheb(k, t0), Cheb(k - 1, t0), Cheb(k, t), Cheb(k - 1, t))
  }

  ghost predicate Related(it: LineIterate, uk: real, ukm1: real, tk: real, tkm1: real) {
    it.cur * uk == tk && it.prev * ukm1 == tkm1 && it.sigma * uk == ukm1
  }

  lemma {:induction false} LineFilterIsChebyshev(lambda: real, co: Coefficients, k: nat, t: real, t0: real)
    requires co.e != 0.0 && co.gamma == 2.0 * t0
    requires t * co.e == lambda - co.c && t0 * co.sigma1 == 1.0 && Abs(t0) > 1.0
    requires k >= 1
    ensures LineFilter(lambda, k, co).Success?
    ensures ChebyshevRelations(LineFilter(lambda, k, co).value, k, t, t0)
    decreases k
  {
    if k == 1 {
      BaseRelations(lambda, co, k, t, t0);
    } else {
      LineFilterIsChebyshev(lambda, co, k - 1, t, t0);
      ChebyshevInduction(lambda, co, k, t, t0);
    }
  }

  lemma ChebyshevInduction(lambda: real, co: Coefficients, k: nat, t: real, t0: real)
    requires co.e != 0.0 && t * co.e == lambda - co.c && co.gamma == 2.0 * t0 && Abs(t0) > 1.0
    requires k >= 2 && LineFilter(lambda, k - 1, co).Success?
    requires ChebyshevRelations(LineFilter(lambda, k - 1, co).value, k - 1, t, t0)
    ensures LineFilter(lambda, k, co).Success?
    ensures ChebyshevRelations(LineFilter(lambda, k, co).value, k, t, t0)
  {
    var it := LineFilter(lambda, k - 1, co).value;
    StepKeepsRelations(it, co, lambda, k, t, t0);
    LineFilterUnfold(lambda, co, k);
  }

  /** One step from a degree-(k-1) iterate with the Chebyshev relations does not break down and keeps them. */
  lemma StepKeepsRelations(it: LineIterate, co: Coefficients, lambda: real, k: nat, t: real, t0: real)
    requires co.e != 0.0 && t * co.e == lambda - co.c && co.gamma == 2.0 * t0 && Abs(t0) > 1.0
    requires k >= 2 && ChebyshevRelations(it, k - 1, t, t0)
    ensures co.gamma - it.sigma != 0.0
    ensures ChebyshevRelations(LineStep(it, co, lambda), k, t, t0)
  {
    var uk, ukm1, ukp1, tk, tkm1, tkp1 := ChebStepValues(k, t, t0);
    RelatedAt(it, k, t, t0, uk, ukm1, tk, tkm1);
    NoBreakdown(it, co.gamma, t0, uk, ukm1, tk, tkm1, ukp1);
    var sc := StepCoefficients(it.sigma, co);
    RelationsStep(it, co, sc, lambda, t, t0, uk, ukm1, ukp1, tk, tkm1, tkp1);
    RelationsFromValues(LineStepWith(it, sc, lambda), k, t, t0, ukp1, uk, tkp1, tk);
  }

  lemma BaseRelations(lambda: real, co: Coefficients, k: nat, t: real, t0: real)
    requires co.e != 0.0 && t * co.e == lambda - co.c && t0 * co.sigma1 == 1.0 && k == 1
    ensures LineFilter(lambda, k, co).Success?
    ensures ChebyshevRelations(LineFilter(lambda, k, co).value, k, t, t0)
  {
    BaseScalars(co, lambda, t, t0);
  }

  lemma LineFilterUnfold(lambda: real, co: Coefficients, k: nat)
    requires k >= 2 && co.e != 0.0 && LineFilter(lambda, k - 1, co).Success?
    requires co.gamma - LineFilter(lambda, k - 1, co).value.sigma != 0.0
    ensures LineFilter(lambda, k, co) == Success(LineStep(LineFilter(lambda, k - 1, co).value, co, lambda))
  {
  }

  /** With sigma T_{k-1}(t0) = T_{k-2}(t0) and T_k(t0) != 0, gamma - sigma = T_k(t0) / T_{k-1}(t0) is not zero. */
  lemma NoBreakdown(it: LineIterate, gamma: real, t0: real, uk: real, ukm1: real, tk: real, tkm1: real, ukp1: real)
    requires gamma == 2.0 * t0 && Related(it, uk, ukm1, tk, tkm1) && Recurrence(t0, uk, ukm1, ukp1) && ukp1 != 0.0
    ensures gamma - it.sigma != 0.0
  {
    DenominatorStep(gamma, t0, it.sigma, uk, ukm1, ukp1);
  }

  lemma RelationsStep(it: LineIterate, co: Coefficients, sc: StepCoeffs, lambda: real, t: real, t0: real,
                      uk: real, ukm1: real, ukp1: real, tk: real, tkm1: real, tkp1: real)
    requires t * co.e == lambda - co.c && co.gamma == 2.0 * t0
    requires StepScalars(sc, it.sigma, co)
    requires Recurrence(t0, uk, ukm1, ukp1) && Recurrence(t, tk, tkm1, tkp1)
    requires Related(it, uk, ukm1, tk, tkm1)
    ensures Related(LineStepWith(it, sc, lambda), ukp1, uk, tkp1, tk)
  {
    DenominatorStep(co.gamma, t0, it.sigma, uk, ukm1, ukp1);
    ScalarStep(co, sc, lambda, t, it, uk, ukm1, ukp1, tk, tkm1, tkp1);
  }

  /** The Chebyshev values one step from degree k - 1 to degree k needs, with their recurrences. */
  lemma ChebStepValues(k: nat, t: real, t0: real) returns (uk: real, ukm1: real, ukp1: real, tk: real, tkm1: real, tkp1: real)
    requires k >= 2 && Abs(t0) > 1.0
    ensures uk == Cheb(k - 1, t0) && ukm1 == Cheb(k - 2, t0) && ukp1 == Cheb(k, t0)
    ensures tk == Cheb(k - 1, t) && tkm1 == Cheb(k - 2, t) && tkp1 == Cheb(k, t)
    ensures ukp1 != 0.0 && Recurrence(t0, uk, ukm1, ukp1) && Recurrence(t, tk, tkm1, tkp1)
  {
    uk, ukm1, ukp1 := Cheb(k - 1, t0), Cheb(k - 2, t0), Cheb(k, t0);
    tk, tkm1, tkp1 := Cheb(k - 1, t), Cheb(k - 2, t), Cheb(k, t);
    ChebNonZero(k, t0);
    ChebUnfold(k, t0);
    ChebUnfold(k, t);
  }

  lemma RelatedAt(it: LineIterate, k: nat, t: real, t0: real, uk: real, ukm1: real, tk: real, tkm1: real)
    requires k >= 2 && ChebyshevRelations(it, k - 1, t, t0)
    requires uk == Cheb(k - 1, t0) && ukm1 == Cheb(k - 2, t0) && tk == Cheb(k - 1, t) && tkm1 == Cheb(k - 2, t)
    ensures Related(it, uk, ukm1, tk, tkm1)
  {
  }

  lemma RelationsFromValues(it: LineIterate, k: nat, t: real, t0: real, uk: real, ukm1: real, tk: real, tkm1: real)
    requires k >= 1 && uk == Cheb(k, t0) && ukm1 == Cheb(k - 1, t0) && tk == Cheb(k, t) && tkm1 == Cheb(k - 1, t)
    requires Related(it, uk, ukm1, tk, tkm1)
    ensures ChebyshevRelations(it, k, t, t0)
  {
  }

  lemma DivideOut(a: real, u: real, b: real)
    requires u != 0.0 && a * u == b
    ensures a == b / u
  {
  }

  /** The coefficients of the line iterate as quotients of Chebyshev values. */
  lemma LineFilterQuotients(lambda: real, co: Coefficients, k: nat)
    requires co.e != 0.0 && co.sigma1 != 0.0 && co.gamma * co.sigma1 == 2.0
    requires Abs(1.0 / co.sigma1) > 1.0
    requires k >= 1
    ensures var t := (lambda - co.c) / co.e;
            var t0 := 1.0 / co.sigma1;
            Cheb(k, t0) != 0.0 && Cheb(k - 1, t0) != 0.0 &&
            LineFilter(lambda, k, co) ==
              Success(LineIterate(Cheb(k - 1, t) / Cheb(k - 1, t0), Cheb(k, t) / Cheb(k, t0), Cheb(k - 1, t0) / Cheb(k, t0)))
  {
    var t := (lambda - co.c) / co.e;
    var t0 := 1.0 / co.sigma1;
    GammaIsTwiceT0(co.gamma, co.sigma1, t0);
    LineFilterIsChebyshev(lambda, co, k, t, t0);
    AsQuotients(LineFilter(lambda, k, co).value, k, t, t0);
  }

  lemma AsQuotients(it: LineIterate, k: nat, t: real, t0: real)
    requires k >= 1 && Abs(t0) > 1.0 && ChebyshevRelations(it, k, t, t0)
    ensures Cheb(k, t0) != 0.0 && Cheb(k - 1, t0) != 0.0
    ensures it == LineIterate(Cheb(k - 1, t) / Cheb(k - 1, t0), Cheb(k, t) / Cheb(k, t0), Cheb(k - 1, t0) / Cheb(k, t0))
  {
    ChebNonZero(k, t0);
    ChebNonZero(k - 1, t0);
    RelatedAsQuotients(it, Cheb(k, t0), Cheb(k - 1, t0), Cheb(k, t), Cheb(k - 1, t));
  }

  lemma RelatedAsQuotients(it: LineIterate, uk: real, ukm1: real, tk: real, tkm1: real)
    requires uk != 0.0 && ukm1 != 0.0 && Related(it, uk, ukm1, tk, tkm1)
    ensures it == LineIterate(tkm1 / ukm1, tk / uk, ukm1 / uk)
  {
    DivideOut(it.cur, uk, tk);
    DivideOut(it.prev, ukm1, tkm1);
    DivideOut(it.sigma, uk, ukm1);
  }

  /**
   * On an eigenvector x with eigenvalue lambda, the degree-k iterate is
   * (T_k(t) / T_k(t0)) x where t = (lambda - c)/e and t0 = (a0 - c)/e = 1/sigma1,
   * and no breakdown occurs when |t0| > 1.
   */
  lemma FilterOnEigenvector(H: Vector -> Vector, x: Vector, lambda: real, co: Coefficients, k: nat)
    requires LengthPreserving(H) && IsEigenvector(H, x, lambda)
    requires co.e != 0.0 && co.sigma1 != 0.0 && co.gamma * co.sigma1 == 2.0
    requires Abs(1.0 / co.sigma1) > 1.0
    requires k >= 1
    ensures var t := (lambda - co.c) / co.e;
            var t0 := 1.0 / co.sigma1;
            Cheb(k, t0) != 0.0 && Cheb(k - 1, t0) != 0.0 &&
            FilterIterate(H, x, k, co) ==
              Success(Iterate(Scale(Cheb(k - 1, t) / Cheb(k - 1, t0), x),
                              Scale(Cheb(k, t) / Cheb(k, t0), x),
                              Cheb(k - 1, t0) / Cheb(k, t0)))
  {
    LineFilterQuotients(lambda, co, k);
    FilterStaysOnLine(H, x, lambda, co, k);
  }

  /**
   * The filter as called: [a, b] is the unwanted upper part of the spectrum
   * and a0 < a the lower bound. Then |t0| > 1, the recurrence never breaks
   * down on an eigenvector, and Filter returns (T_m(t) / T_m(t0)) x.
   */
  lemma FilterDampsOnEigenvector(H: Vector -> Vector, x: Vector, lambda: real, m: nat, a: real, b: real, a0: real)
    requires LengthPreserving(H) && IsEigenvector(H, x, lambda)
    requires a < b && a0 < a
    ensures var co := FilterCoefficients(a, b, a0);
            var t := (lambda - co.c) / co.e;
            var t0 := (a0 - co.c) / co.e;
            Abs(t0) > 1.0 && Cheb(Degree(m), t0) != 0.0 &&
            FilterIterate(H, x, Degree(m), co).Success? &&
            FilterIterate(H, x, Degree(m), co).value.cur == Scale(Cheb(Degree(m), t) / Cheb(Degree(m), t0), x)
  {
    var co := FilterCoefficients(a, b, a0);
    BelowInterval(a0, co);
    FilterOnEigenvector(H, x, lambda, co, Degree(m));
  }

  lemma BelowInterval(a0: real, co: Coefficients)
    requires co.e > 0.0 && a0 < co.c - co.e && co.sigma1 * (a0 - co.c) == co.e
    ensures (a0 - co.c) / co.e == 1.0 / co.sigma1
    ensures Abs(1.0 / co.sigma1) > 1.0
  {
    var d := a0 - co.c;
    assert d < -co.e;
    assert d / co.e < -1.0;
    assert co.sigma1 * d / co.e == 1.0;
  }

  /** Degree one on an eigenvector: the filter returns (sigma1 / e)(lambda - c) x. */
  lemma DegreeOneOnEigenvector(H: Vector -> Vector, x: Vector, lambda: real, a: real, b: real, a0: real)
    requires LengthPreserving(H) && IsEigenvector(H, x, lambda)
    requires a != b && a0 != (b + a) / 2.0
    ensures var co := FilterCoefficients(a, b, a0);
            FilterIterate(H, x, 1, co) == Success(Iterate(x, Scale(co.sigma1 / co.e * (lambda - co.c), x), co.sigma1))
  {
    var co := FilterCoefficients(a, b, a0);
    FilterStaysOnLine(H, x, lambda, co, 1);
    assert LineCoefficient(FirstAlpha(co), 0.0, FirstShift(co), 1.0, 0.0, lambda) == co.sigma1 / co.e * (lambda - co.c);
    assert Scale(1.0, x) == x;
  }
}
