/**
 * The two Lanczos estimators of the spectrum bounds
 * (lanczosLowerUpperBoundEigenSpectrum and
 * generalisedLanczosLowerUpperBoundEigenSpectrum in
 * src/linAlg/linearAlgebraOperationsOpt.cc:108-540), for real NumberType.
 *
 * The operators HX, HXCheby and overlapMatrixTimesX are abstract maps under
 * the affine call contract of ChebyshevFilter.HXCheby; the random start
 * vector is an input; sqrt is a parameter; the LAPACK eigensolver of the
 * tridiagonal matrix is a parameter returning its eigenvalues.
 */
module Lanczos {
  import opened Numerics
  import opened ChebyshevFilter

  /** Lanczos steps: 40 when the output must be reproducible, 20 otherwise. */
  function LanczosIterations(reproducible: bool): nat {
    if reproducible then 40 else 20
  }

  // ---------------------------------------------------------------------
  // The recurrence
  // ---------------------------------------------------------------------

  /**
   * Standard: H is HX, vectors are normalised in the Euclidean norm.
   * Generalised: vectors are normalised in the S inner product, the residual
   * is built with HXCheby (HC) and alpha with HX.
   */
  datatype Variant =
    | Standard(H: Vector -> Vector)
    | Generalised(H: Vector -> Vector, HC: Vector -> Vector, S: Vector -> Vector)
  {
    /** The operator the residual is built from. */
    function StepOperator(): Vector -> Vector {
      if Standard? then H else HC
    }
  }

  ghost predicate ValidVariant(v: Variant) {
    LengthPreserving(v.H) && (v.Generalised? ==> LengthPreserving(v.HC) && LengthPreserving(v.S))
  }

  /** Z (prev), X (cur) and Y (residual) of the code, and the tridiagonal entries so far. */
  datatype LanczosState = LanczosState(prev: Vector, cur: Vector, residual: Vector, alphas: seq<real>, betas: seq<real>)

  /** The norm of a vector: ||y|| (standard) or sqrt(|<y, S y>|) (generalised). */
  function VariantNorm(v: Variant, sqrt: real -> real, y: Vector): real
    requires ValidVariant(v)
  {
    if v.Standard? then sqrt(Dot(y, y)) else sqrt(Abs(Dot(y, v.S(y))))
  }

  /** H x through the operator call contract, into a buffer whose old content is scaled by 0. */
  function Apply(H: Vector -> Vector, x: Vector): (r: Vector)
    requires LengthPreserving(H)
    ensures |r| == |x| && forall i :: 0 <= i < |x| ==> r[i] == H(x)[i]
  {
    HXCheby(H, x, 1.0, 0.0, 0.0, Zeros(|x|))
  }

  /** The normalised random vector, alpha_0 and the first residual. */
  function Start(v: Variant, sqrt: real -> real, x0: Vector): (r: Result<LanczosState>)
    requires ValidVariant(v)
    ensures r.Failure? <==> VariantNorm(v, sqrt, x0) == 0.0
    ensures r.Success? ==> |r.value.alphas| == 1 && |r.value.betas| == 0 &&
                           |r.value.prev| == |r.value.cur| == |r.value.residual| == |x0|
  {
    var norm := VariantNorm(v, sqrt, x0);
    if norm == 0.0 then Failure("Lanczos start vector has zero norm")
    else
      var x := Scale(1.0 / norm, x0);
      var y := Apply(v.H, x);
      var alpha := Dot(y, x);
      Success(LanczosState(Zeros(|x|), x, AddScaled(y, -alpha, x), [alpha], []))
  }

  /** One pass of the loop body: beta, the new vector, the new alpha and residual. */
  function Step(v: Variant, sqrt: real -> real, s: LanczosState): (r: Result<LanczosState>)
    requires ValidVariant(v)
    requires |s.prev| == |s.cur| == |s.residual|
    ensures r.Failure? <==> VariantNorm(v, sqrt, s.residual) == 0.0
    ensures r.Success? ==> |r.value.alphas| == |s.alphas| + 1 && |r.value.betas| == |s.betas| + 1 &&
                           |r.value.prev| == |r.value.cur| == |r.value.residual| == |s.cur| &&
                           r.value.alphas[..|s.alphas|] == s.alphas && r.value.betas[..|s.betas|] == s.betas
  {
    var beta := VariantNorm(v, sqrt, s.residual);
    if beta == 0.0 then Failure("Lanczos breakdown: zero residual")
    else Success(Advance(v, s, beta))
  }

  /** The loop body once beta is known: normalise, apply the operator, orthogonalise. */
  function Advance(v: Variant, s: LanczosState, beta: real): (r: LanczosState)
    requires ValidVariant(v)
    requires |s.prev| == |s.cur| == |s.residual| && beta != 0.0
    ensures |r.prev| == |r.cur| == |r.residual| == |s.cur|
    ensures |r.alphas| == |s.alphas| + 1 && r.alphas[..|s.alphas|] == s.alphas && r.betas == s.betas + [beta]
    ensures r.prev == s.cur && r.cur == Scale(1.0 / beta, s.residual)
    ensures r.residual == AddScaled(AddScaled(Apply(v.StepOperator(), r.cur), -beta, s.cur), -r.alphas[|s.alphas|], r.cur)
  {
    var z := s.cur;
    var x := Scale(1.0 / beta, s.residual);
    var y := AddScaled(Apply(v.StepOperator(), x), -beta, z);
    var alpha := if v.Standard? then Dot(y, x) else Dot(Apply(v.H, x), x);
    LanczosState(z, x, AddScaled(y, -alpha, x), s.alphas + [alpha], s.betas + [beta])
  }

  /** The state after `steps` passes of the loop (the code runs n - 1). */
  function Run(v: Variant, sqrt: real -> real, x0: Vector, steps: nat): (r: Result<LanczosState>)
    requires ValidVariant(v)
    ensures r.Success? ==> |r.value.alphas| == steps + 1 && |r.value.betas| == steps &&
                           |r.value.prev| == |r.value.cur| == |r.value.residual| == |x0|
    decreases steps
  {
    if steps == 0 then Start(v, sqrt, x0)
    else
      match Run(v, sqrt, x0, steps - 1)
      case Failure(msg) => Failure(msg)
      case Success(s) => Step(v, sqrt, s)
  }

  lemma InverseScale(beta: real, a: real)
    requires beta != 0.0
    ensures beta * (1.0 / beta * a) == a
  {
  }

  lemma Rearrange(hx: real, y: real, r: real, z: real, x: real, alpha: real, beta: real)
    requires y == hx + -beta * z && r == y + -alpha * x
    ensures hx == beta * z + alpha * x + r
  {
  }

  /** beta x = r, entrywise. */
  ghost predicate ScaledBy(beta: real, x: Vector, r: Vector) {
    |x| == |r| && forall i :: 0 <= i < |x| ==> beta * x[i] == r[i]
  }

  /** hx = beta z + alpha x + res, entrywise. */
  ghost predicate ThreeTermRelation(hx: Vector, z: Vector, x: Vector, res: Vector, alpha: real, beta: real) {
    |hx| == |z| == |x| == |res| &&
    forall i :: 0 <= i < |x| ==> hx[i] == beta * z[i] + alpha * x[i] + res[i]
  }

  /**
   * The Lanczos three-term relation of one step: with x the new vector,
   * z the previous one, beta and alpha the new entries and y the new residual,
   * Op x = beta z + alpha x + y; and beta x is the residual the step started
   * from. Chained over the steps these give
   * Op x_j = beta_j x_(j-1) + alpha_j x_j + beta_(j+1) x_(j+1).
   */
  lemma StepRelation(v: Variant, sqrt: real -> real, s: LanczosState, t: LanczosState)
    requires ValidVariant(v) && |s.prev| == |s.cur| == |s.residual|
    requires Step(v, sqrt, s) == Success(t)
    ensures |t.alphas| > 0 && |t.betas| > 0 && t.prev == s.cur
    ensures ScaledBy(t.betas[|t.betas| - 1], t.cur, s.residual)
    ensures ThreeTermRelation(Apply(v.StepOperator(), t.cur), t.prev, t.cur, t.residual,
                              t.alphas[|t.alphas| - 1], t.betas[|t.betas| - 1])
  {
    var beta := VariantNorm(v, sqrt, s.residual);
    assert beta != 0.0 && t == Advance(v, s, beta);
    AdvanceRelation(v, s, beta, t);
  }

  lemma AdvanceRelation(v: Variant, s: LanczosState, beta: real, t: LanczosState)
    requires ValidVariant(v) && |s.prev| == |s.cur| == |s.residual| && beta != 0.0
    requires t == Advance(v, s, beta)
    ensures |t.alphas| > 0 && |t.betas| > 0 && t.prev == s.cur
    ensures ScaledBy(t.betas[|t.betas| - 1], t.cur, s.residual)
    ensures ThreeTermRelation(Apply(v.StepOperator(), t.cur), t.prev, t.cur, t.residual,
                              t.alphas[|t.alphas| - 1], t.betas[|t.betas| - 1])
  {
    var x := t.cur;
    var hx := Apply(v.StepOperator(), x);
    var y := AddScaled(hx, -beta, s.cur);
    var alpha := t.alphas[|s.alphas|];
    assert t.betas[|t.betas| - 1] == beta && t.alphas[|t.alphas| - 1] == alpha;
    ScaledBack(beta, s.residual, x);
    ThreeTerm(hx, s.cur, x, y, t.residual, alpha, beta);
  }

  lemma ScaledBack(beta: real, r: Vector, x: Vector)
    requires beta != 0.0 && x == Scale(1.0 / beta, r)
    ensures ScaledBy(beta, x, r)
  {
    forall i | 0 <= i < |x|
      ensures beta * x[i] == r[i]
    {
      InverseScale(beta, r[i]);
    }
  }

  lemma ThreeTerm(hx: Vector, z: Vector, x: Vector, y: Vector, res: Vector, alpha: real, beta: real)
    requires |hx| == |z| == |x|
    requires y == AddScaled(hx, -beta, z) && res == AddScaled(y, -alpha, x)
    ensures ThreeTermRelation(hx, z, x, res, alpha, beta)
  {
    forall i | 0 <= i < |x|
      ensures hx[i] == beta * z[i] + alpha * x[i] + res[i]
    {
      Rearrange(hx[i], y[i], res[i], z[i], x[i], alpha, beta);
    }
  }

  /**
   * The start of the recurrence: the norm times the first vector is the
   * random vector, and H x = alpha_0 x + y is the three-term relation with no
   * previous vector (a zero prev and beta 0).
   */
  lemma StartRelation(v: Variant, sqrt: real -> real, x0: Vector, t: LanczosState)
    requires ValidVariant(v) && Start(v, sqrt, x0) == Success(t)
    ensures |t.alphas| == 1 && t.prev == Zeros(|x0|)
    ensures ScaledBy(VariantNorm(v, sqrt, x0), t.cur, x0)
    ensures ThreeTermRelation(Apply(v.H, t.cur), t.prev, t.cur, t.residual, t.alphas[0], 0.0)
  {
    var norm := VariantNorm(v, sqrt, x0);
    ScaledBack(norm, x0, t.cur);
    var hx := Apply(v.H, t.cur);
    assert AddScaled(hx, -0.0, t.prev) == hx;
    ThreeTerm(hx, t.prev, t.cur, hx, t.residual, t.alphas[0], 0.0);
  }

  /** The generalised variant recomputes beta after the loop: the value the next step would use. */
  function ResidualEstimate(v: Variant, sqrt: real -> real, s: LanczosState): (r: real)
    requires ValidVariant(v)
    ensures r == VariantNorm(v, sqrt, s.residual)
    ensures |s.prev| == |s.cur| == |s.residual| ==> (r == 0.0 <==> Step(v, sqrt, s).Failure?)
  {
    if v.Standard? then sqrt(Dot(s.residual, s.residual))
    else sqrt(Abs(Dot(s.residual, v.S(s.residual))))
  }

  // ---------------------------------------------------------------------
  // Storage of the tridiagonal matrix
  // ---------------------------------------------------------------------

  /**
   * Entry (column c, row r) of the lower triangle of the tridiagonal matrix,
   * column-major: alpha_c on the diagonal, the beta of step c + 1 below it,
   * 0 elsewhere.
   */
  function TridiagonalEntry(alphas: seq<real>, betas: seq<real>, c: nat, r: nat): real {
    if r == c && c < |alphas| then alphas[c]
    else if r == c + 1 && c < |betas| then betas[c]
    else 0.0
  }

  /** Reference n x n column-major matrix with lda = n. */
  function Tridiagonal(alphas: seq<real>, betas: seq<real>, n: nat): (T: seq<real>)
    requires n > 0
    ensures |T| == n * n
    ensures forall c: nat, r: nat :: c < n && r < n ==> Flat(c, r, n) < n * n && T[Flat(c, r, n)] == TridiagonalEntry(alphas, betas, c, r)
  {
    var T := seq(n * n, k requires 0 <= k < n * n => TridiagonalEntry(alphas, betas, k / n, k % n));
    forall c: nat, r: nat | c < n && r < n
      ensures Flat(c, r, n) < n * n && T[Flat(c, r, n)] == TridiagonalEntry(alphas, betas, c, r)
    {
      FlatBound(c, r, n, n);
      FlatDivMod(c, r, n);
    }
    T
  }

  /** Entries filled after the loop has run up to (not including) j. */
  function FilledEntry(alphas: seq<real>, betas: seq<real>, j: nat, c: nat, r: nat): real {
    if c < j && r < j then TridiagonalEntry(alphas, betas, c, r) else 0.0
  }

  ghost predicate FilledUpTo(T: seq<real>, alphas: seq<real>, betas: seq<real>, n: nat, j: nat) {
    |T| == n * n &&
    forall c: nat, r: nat :: c < n && r < n ==>
      Flat(c, r, n) < |T| && T[Flat(c, r, n)] == FilledEntry(alphas, betas, j, c, r)
  }

  /** Iteration j writes beta at (j - 1) n + j (column j - 1, row j) and alpha at j (n + 1) (the diagonal). */
  lemma WriteIndices(n: nat, j: nat)
    requires 1 <= j < n
    ensures (j - 1) * (n + 1) + 1 == Flat(j - 1, j, n) && Flat(j - 1, j, n) < n * n
    ensures Flat(j - 1, j, n) + n == Flat(j, j, n) && Flat(j, j, n) == j * (n + 1) && Flat(j, j, n) < n * n
  {
    FlatBound(j - 1, j, n, n);
    FlatBound(j, j, n, n);
  }

  lemma FillStep(T: seq<real>, alphas: seq<real>, betas: seq<real>, n: nat, j: nat)
    requires 1 <= j < n && |alphas| == n && |betas| == n - 1
    requires FilledUpTo(T, alphas, betas, n, j)
    ensures Flat(j - 1, j, n) < |T| && Flat(j, j, n) < |T|
    ensures FilledUpTo(T[Flat(j - 1, j, n) := betas[j - 1]][Flat(j, j, n) := alphas[j]], alphas, betas, n, j + 1)
  {
    WriteIndices(n, j);
    var T' := T[Flat(j - 1, j, n) := betas[j - 1]][Flat(j, j, n) := alphas[j]];
    forall c: nat, r: nat | c < n && r < n
      ensures Flat(c, r, n) < |T'| && T'[Flat(c, r, n)] == FilledEntry(alphas, betas, j + 1, c, r)
    {
      FlatBound(c, r, n, n);
      if Flat(c, r, n) == Flat(j, j, n) {
        FlatInjective(c, r, j, j, n);
      } else if Flat(c, r, n) == Flat(j - 1, j, n) {
        FlatInjective(c, r, j - 1, j, n);
      } else {
        assert (c, r) != (j, j) && (c, r) != (j - 1, j);
      }
    }
  }

  /**
   * The code's fill of Tlanczos: n^2 zeros, T[0] = alpha_0, then per step
   * index += 1 (beta) and index += n (alpha). It produces exactly the
   * tridiagonal reference, so every write is inside the matrix and only the
   * diagonal and the sub-diagonal are written.
   */
  method FillTridiagonal(alphas: seq<real>, betas: seq<real>, n: nat) returns (T: seq<real>)
    requires n > 0 && |alphas| == n && |betas| == n - 1
    ensures T == Tridiagonal(alphas, betas, n)
  {
    T := Zeros(n * n);
    FlatBound(0, 0, n, n);
    T := T[0 := alphas[0]];
    forall c: nat, r: nat | c < n && r < n
      ensures Flat(c, r, n) < |T| && T[Flat(c, r, n)] == FilledEntry(alphas, betas, 1, c, r)
    {
      FlatBound(c, r, n, n);
      if Flat(c, r, n) == 0 {
        FlatInjective(c, r, 0, 0, n);
      }
    }
    var index := 0;
    var j := 1;
    while j < n
      invariant 1 <= j <= n
      invariant index == (j - 1) * (n + 1)
      invariant FilledUpTo(T, alphas, betas, n, j)
    {
      FillStep(T, alphas, betas, n, j);
      WriteIndices(n, j);
      index := index + 1;
      T := T[index := betas[j - 1]];
      index := index + n;
      T := T[index := alphas[j]];
      j := j + 1;
    }
    SameMatrix(T, Tridiagonal(alphas, betas, n), alphas, betas, n);
  }

  lemma SameMatrix(T: seq<real>, R: seq<real>, alphas: seq<real>, betas: seq<real>, n: nat)
    requires n > 0 && FilledUpTo(T, alphas, betas, n, n)
    requires |R| == n * n
    requires forall c: nat, r: nat :: c < n && r < n ==> Flat(c, r, n) < n * n && R[Flat(c, r, n)] == TridiagonalEntry(alphas, betas, c, r)
    ensures T == R
  {
    forall k | 0 <= k < n * n
      ensures T[k] == R[k]
    {
      FlatSurjective(k, n, n);
    }
  }

  /** The stored lower triangle is that of a symmetric tridiagonal matrix: nothing beyond the sub-diagonal. */
  lemma TridiagonalBand(alphas: seq<real>, betas: seq<real>, n: nat, c: nat, r: nat)
    requires n > 0 && c < n && r < n && r != c && r != c + 1
    ensures Tridiagonal(alphas, betas, n)[Flat(c, r, n)] == 0.0
  {
  }

  // ---------------------------------------------------------------------
  // std::sort of the eigenvalues
  // ---------------------------------------------------------------------

  ghost predicate Sorted(s: seq<real>) {
    forall i, j :: 0 <= i < j < |s| ==> s[i] <= s[j]
  }

  ghost predicate AllAtLeast(s: seq<real>, lo: real) {
    forall i :: 0 <= i < |s| ==> lo <= s[i]
  }

  lemma AtLeastByMultiset(r: seq<real>, s: seq<real>, x: real, lo: real)
    requires multiset(r) == multiset(s) + multiset{x}
    requires AllAtLeast(s, lo) && lo <= x
    ensures AllAtLeast(r, lo)
  {
    forall i | 0 <= i < |r|
      ensures lo <= r[i]
    {
      assert r[i] in multiset(r);
      if r[i] != x {
        assert r[i] in multiset(s);
        var k :| 0 <= k < |s| && s[k] == r[i];
      }
    }
  }

  function Insert(x: real, s: seq<real>): (r: seq<real>)
    ensures multiset(r) == multiset(s) + multiset{x}
    ensures Sorted(s) ==> Sorted(r)
    decreases |s|
  {
    if |s| == 0 then [x]
    else if x <= s[0] then
      PrependSmallest(x, s);
      [x] + s
    else
      var t := Insert(x, s[1..]);
      assert s == [s[0]] + s[1..];
      InsertBehindHead(x, s, t);
      [s[0]] + t
  }

  lemma SortedCons(a: real, t: seq<real>)
    requires Sorted(t) && AllAtLeast(t, a)
    ensures Sorted([a] + t)
  {
    forall i, j | 0 <= i < j < |[a] + t|
      ensures ([a] + t)[i] <= ([a] + t)[j]
    {
      if i > 0 {
        assert ([a] + t)[i] == t[i - 1];
      }
      assert ([a] + t)[j] == t[j - 1];
    }
  }

  lemma PrependSmallest(x: real, s: seq<real>)
    requires |s| > 0 && x <= s[0]
    ensures Sorted(s) ==> Sorted([x] + s)
  {
    if Sorted(s) {
      assert AllAtLeast(s, x) by {
        forall i | 0 <= i < |s|
          ensures x <= s[i]
        {
          assert s[0] <= s[i];
        }
      }
      SortedCons(x, s);
    }
  }

  lemma InsertBehindHead(x: real, s: seq<real>, t: seq<real>)
    requires |s| > 0 && s[0] < x
    requires multiset(t) == multiset(s[1..]) + multiset{x}
    requires Sorted(s[1..]) ==> Sorted(t)
    ensures Sorted(s) ==> Sorted([s[0]] + t)
  {
    if Sorted(s) {
      var tail := s[1..];
      assert Sorted(tail) && AllAtLeast(tail, s[0]) by {
        forall i | 0 <= i < |tail|
          ensures s[0] <= tail[i]
        {
          assert tail[i] == s[i + 1];
        }
        forall i, j | 0 <= i < j < |tail|
          ensures tail[i] <= tail[j]
        {
          assert tail[i] == s[i + 1] && tail[j] == s[j + 1];
        }
      }
      AtLeastByMultiset(t, tail, x, s[0]);
      SortedCons(s[0], t);
    }
  }

  /** Ascending order of the eigenvalues (std::sort). */
  function Sort(s: seq<real>): (r: seq<real>)
    ensures Sorted(r) && multiset(r) == multiset(s)
    decreases |s|
  {
    if |s| == 0 then []
    else
      assert s == [s[0]] + s[1..];
      Insert(s[0], Sort(s[1..]))
  }

  /** After sorting, the first entry is the smallest eigenvalue and the last the largest. */
  lemma SortedEnds(s: seq<real>)
    requires |s| > 0
    ensures |Sort(s)| == |s|
    ensures Sort(s)[0] in s && Sort(s)[|s| - 1] in s
    ensures forall i :: 0 <= i < |s| ==> Sort(s)[0] <= s[i] <= Sort(s)[|s| - 1]
  {
    var r := Sort(s);
    SameLength(r, s);
    MemberOf(r, s, 0);
    MemberOf(r, s, |r| - 1);
    forall i | 0 <= i < |s|
      ensures r[0] <= s[i] <= r[|s| - 1]
    {
      SortedContains(r, s, i);
    }
  }

  lemma SameLength(r: seq<real>, s: seq<real>)
    requires multiset(r) == multiset(s)
    ensures |r| == |s|
  {
    assert |multiset(r)| == |r| && |multiset(s)| == |s|;
  }

  lemma MemberOf(r: seq<real>, s: seq<real>, k: nat)
    requires multiset(r) == multiset(s) && k < |r|
    ensures r[k] in s
  {
    assert r[k] in multiset(r);
  }

  lemma SortedContains(r: seq<real>, s: seq<real>, i: nat)
    requires Sorted(r) && multiset(r) == multiset(s) && i < |s|
    ensures |r| > 0 && r[0] <= s[i] <= r[|r| - 1]
  {
    assert s[i] in multiset(s);
    assert s[i] in multiset(r);
    var k :| 0 <= k < |r| && r[k] == s[i];
  }

  // ---------------------------------------------------------------------
  // The bounds
  // ---------------------------------------------------------------------

  function Floor(x: real): (f: real)
    ensures f <= x < f + 1.0
  {
    x.Floor as real
  }

  function Ceil(x: real): (c: real)
    ensures c - 1.0 < x <= c
  {
    -((-x).Floor as real)
  }

  /** The rounding rule: floor of the smallest, ceil of the largest plus the residual (/10 unless reproducible). */
  function SpectrumBounds(sorted: seq<real>, residual: real, reproducible: bool): (b: (real, real))
    requires |sorted| > 0
    ensures b.0 <= sorted[0] < b.0 + 1.0
    ensures var top := sorted[|sorted| - 1] + (if reproducible then residual else residual / 10.0);
            top <= b.1 < top + 1.0
  {
    (Floor(sorted[0]), Ceil(sorted[|sorted| - 1] + (if reproducible then residual else residual / 10.0)))
  }

  /** The result of an estimator: the bounds and, for the record, the Ritz values and the residual used. */
  datatype Estimate = Estimate(lower: real, upper: real, ritz: seq<real>, residual: real)

  /** Every Ritz value lies above the lower bound, and below the upper bound once the residual is non-negative. */
  ghost predicate BracketsRitz(e: Estimate) {
    forall i :: 0 <= i < |e.ritz| ==> e.lower <= e.ritz[i] && (e.residual >= 0.0 ==> e.ritz[i] <= e.upper)
  }

  /** The rounded bounds of the sorted eigenvalues bracket every eigenvalue. */
  lemma RoundedBoundsBracket(eigs: seq<real>, residual: real, reproducible: bool)
    requires |eigs| > 0
    ensures |Sort(eigs)| > 0
    ensures var b := SpectrumBounds(Sort(eigs), residual, reproducible);
            BracketsRitz(Estimate(b.0, b.1, eigs, residual))
  {
    SortedEnds(eigs);
    var b := SpectrumBounds(Sort(eigs), residual, reproducible);
    assert reproducible || residual / 10.0 >= 0.0 || residual < 0.0;
    assert b.0 <= Sort(eigs)[0];
  }

  /**
   * Either estimator: n - 1 loop passes, the tridiagonal matrix, its
   * eigenvalues, sorted, and the rounding rule. It fails exactly when a loop
   * pass breaks down or the eigensolver does not return n values; otherwise
   * the Ritz values are the sorted eigenvalues of the tridiagonal matrix of
   * the recurrence, the residual is the norm of the last residual, and the
   * bounds are the rounding rule applied to them. The lower bound is below
   * every Ritz value, and the upper bound above every Ritz value once the
   * residual is non-negative (as a norm is).
   */
  function LanczosBounds(v: Variant, sqrt: real -> real, eigensolve: seq<real> -> seq<real>, x0: Vector, reproducible: bool)
    : (r: Result<Estimate>)
    requires ValidVariant(v)
    ensures var n := LanczosIterations(reproducible);
            var run := Run(v, sqrt, x0, n - 1);
            r.Success? <==> run.Success? && |eigensolve(Tridiagonal(run.value.alphas, run.value.betas, n))| == n
    ensures var n := LanczosIterations(reproducible);
            var run := Run(v, sqrt, x0, n - 1);
            r.Success? ==>
              r.value.ritz == Sort(eigensolve(Tridiagonal(run.value.alphas, run.value.betas, n))) &&
              r.value.residual == VariantNorm(v, sqrt, run.value.residual) &&
              (r.value.lower, r.value.upper) == SpectrumBounds(r.value.ritz, r.value.residual, reproducible)
    ensures r.Success? ==> |r.value.ritz| == LanczosIterations(reproducible) && Sorted(r.value.ritz) && BracketsRitz(r.value)
  {
    var run := Run(v, sqrt, x0, LanczosIterations(reproducible) - 1);
    if run.Failure? then Failure(run.error)
    else EstimateFrom(v, sqrt, eigensolve, run.value, reproducible)
  }

  /**
   * The stage after the recurrence: eigenvalues of the k x k tridiagonal
   * matrix, sorted, and the rounding rule. It fails exactly when the
   * eigensolver does not return k values.
   */
  function EstimateFrom(v: Variant, sqrt: real -> real, eigensolve: seq<real> -> seq<real>, s: LanczosState,
                        reproducible: bool): (r: Result<Estimate>)
    requires ValidVariant(v)
    ensures var n := LanczosIterations(reproducible);
            r.Success? <==> |eigensolve(Tridiagonal(s.alphas, s.betas, n))| == n
    ensures var n := LanczosIterations(reproducible);
            r.Success? ==>
              r.value.ritz == Sort(eigensolve(Tridiagonal(s.alphas, s.betas, n))) &&
              r.value.residual == VariantNorm(v, sqrt, s.residual) &&
              (r.value.lower, r.value.upper) == SpectrumBounds(r.value.ritz, r.value.residual, reproducible)
    ensures r.Success? ==> |r.value.ritz| == LanczosIterations(reproducible) && Sorted(r.value.ritz) && BracketsRitz(r.value)
  {
    var n := LanczosIterations(reproducible);
    var eigs := eigensolve(Tridiagonal(s.alphas, s.betas, n));
    if |eigs| != n then Failure("eigensolver returned the wrong number of eigenvalues")
    else
      var residual := ResidualEstimate(v, sqrt, s);
      var ritz := Sort(eigs);
      RoundedBoundsBracket(eigs, residual, reproducible);
      SameLength(ritz, eigs);
      var b := SpectrumBounds(ritz, residual, reproducible);
      BracketsSorted(eigs, b.0, b.1, residual);
      Success(Estimate(b.0, b.1, ritz, residual))
  }

  /** Bounds that bracket the eigenvalues bracket their sorted copy. */
  lemma BracketsSorted(eigs: seq<real>, lower: real, upper: real, residual: real)
    requires BracketsRitz(Estimate(lower, upper, eigs, residual))
    ensures BracketsRitz(Estimate(lower, upper, Sort(eigs), residual))
  {
    var r := Sort(eigs);
    forall i | 0 <= i < |r|
      ensures lower <= r[i] && (residual >= 0.0 ==> r[i] <= upper)
    {
      MemberOf(r, eigs, i);
      var k :| 0 <= k < |eigs| && eigs[k] == r[i];
    }
  }
}
