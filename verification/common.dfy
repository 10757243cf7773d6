/**
 * Shared vocabulary of the model: a success/failure wrapper, dense real
 * vectors, finite sums, complex numbers as pairs of reals, and the
 * mixed-radix index arithmetic that every flattened buffer of the code uses.
 */
module Numerics {

  // ---------------------------------------------------------------------
  // Result
  // ---------------------------------------------------------------------

  datatype Result<T> = Success(value: T) | Failure(error: string)
  {
    predicate IsFailure() {
      Failure?
    }
  }

  // ---------------------------------------------------------------------
  // Real helpers
  // ---------------------------------------------------------------------

  function Abs(x: real): real {
    if x < 0.0 then -x else x
  }

  function MinNat(a: nat, b: nat): (r: nat)
    ensures r <= a && r <= b
    ensures r == a || r == b
  {
    if a <= b then a else b
  }

  // ---------------------------------------------------------------------
  // Dense vectors
  // ---------------------------------------------------------------------

  type Vector = seq<real>

  function Zeros(n: nat): (v: Vector)
    ensures |v| == n
    ensures forall i :: 0 <= i < n ==> v[i] == 0.0
  {
    seq(n, _ => 0.0)
  }

  function Scale(s: real, v: Vector): (r: Vector)
    ensures |r| == |v|
    ensures forall i :: 0 <= i < |v| ==> r[i] == s * v[i]
  {
    seq(|v|, i requires 0 <= i < |v| => s * v[i])
  }

  function Add(u: Vector, v: Vector): (r: Vector)
    requires |u| == |v|
    ensures |r| == |u|
    ensures forall i :: 0 <= i < |u| ==> r[i] == u[i] + v[i]
  {
    seq(|u|, i requires 0 <= i < |u| => u[i] + v[i])
  }

  /** u + s * v, the "add(scalar, vector)" of the multivector class. */
  function AddScaled(u: Vector, s: real, v: Vector): (r: Vector)
    requires |u| == |v|
    ensures |r| == |u|
    ensures forall i :: 0 <= i < |u| ==> r[i] == u[i] + s * v[i]
  {
    seq(|u|, i requires 0 <= i < |u| => u[i] + s * v[i])
  }

  function Dot(u: Vector, v: Vector): real
    requires |u| == |v|
    decreases |u|
  {
    if |u| == 0 then 0.0 else Dot(u[..|u| - 1], v[..|v| - 1]) + u[|u| - 1] * v[|v| - 1]
  }

  /** Dot is additive in its second argument. */
  lemma {:induction false} DotAdd(w: Vector, a: Vector, b: Vector, s: Vector)
    requires |w| == |a| == |b| == |s|
    requires forall i :: 0 <= i < |s| ==> s[i] == a[i] + b[i]
    ensures Dot(w, s) == Dot(w, a) + Dot(w, b)
    decreases |w|
  {
    if |w| > 0 {
      var n := |w| - 1;
      DotAdd(w[..n], a[..n], b[..n], s[..n]);
      assert w[n] * s[n] == w[n] * a[n] + w[n] * b[n];
    }
  }

  /** The same for three terms. */
  lemma {:induction false} DotAdd3(w: Vector, a: Vector, b: Vector, c: Vector, s: Vector)
    requires |w| == |a| == |b| == |c| == |s|
    requires forall i :: 0 <= i < |s| ==> s[i] == a[i] + b[i] + c[i]
    ensures Dot(w, s) == Dot(w, a) + Dot(w, b) + Dot(w, c)
    decreases |w|
  {
    if |w| > 0 {
      var n := |w| - 1;
      DotAdd3(w[..n], a[..n], b[..n], c[..n], s[..n]);
      assert w[n] * s[n] == w[n] * a[n] + w[n] * b[n] + w[n] * c[n];
    }
  }

  /** g lists the products u[i] v[i] from index lo on. */
  ghost predicate ProductsFrom(u: Vector, v: Vector, lo: nat, g: nat -> real) {
    |u| == |v| && forall i :: 0 <= i < |u| ==> g(lo + i) == u[i] * v[i]
  }

  /** A dot product is the sum of its products, indexed from lo. */
  lemma {:induction false} DotAsSumRange(u: Vector, v: Vector, lo: nat, g: nat -> real)
    requires ProductsFrom(u, v, lo, g)
    ensures Dot(u, v) == SumRange(lo, lo + |u|, g)
    decreases |u|
  {
    if |u| > 0 {
      var n := |u| - 1;
      forall i | 0 <= i < n
        ensures g(lo + i) == u[..n][i] * v[..n][i]
      {
        assert u[..n][i] == u[i] && v[..n][i] == v[i];
      }
      DotAsSumRange(u[..n], v[..n], lo, g);
      assert g(lo + n) == u[n] * v[n];
      assert Dot(u, v) == Dot(u[..n], v[..n]) + u[n] * v[n];
      assert SumRange(lo, lo + |u|, g) == SumRange(lo, lo + n, g) + g(lo + n);
    }
  }

  /** Non-negative weights of non-negative values sum to a non-negative number. */
  lemma {:induction false} DotNonNegative(w: Vector, a: Vector)
    requires |w| == |a|
    requires forall i :: 0 <= i < |w| ==> w[i] >= 0.0 && a[i] >= 0.0
    ensures Dot(w, a) >= 0.0
    decreases |w|
  {
    if |w| > 0 {
      var n := |w| - 1;
      DotNonNegative(w[..n], a[..n]);
      assert w[n] * a[n] >= 0.0;
    }
  }

  /** Dot is homogeneous in its second argument. */
  lemma {:induction false} DotScale(w: Vector, a: Vector, s: real, r: Vector)
    requires |w| == |a| == |r|
    requires forall i :: 0 <= i < |r| ==> r[i] == s * a[i]
    ensures Dot(w, r) == s * Dot(w, a)
    decreases |w|
  {
    if |w| > 0 {
      var n := |w| - 1;
      DotScale(w[..n], a[..n], s, r[..n]);
      assert w[n] * r[n] == s * (w[n] * a[n]);
    }
  }

  /** Sum of the entries of a vector. */
  function Sum(v: Vector): real
    decreases |v|
  {
    if |v| == 0 then 0.0 else Sum(v[..|v| - 1]) + v[|v| - 1]
  }

  /** Sum of g(k) for lo <= k < hi. */
  function SumRange(lo: nat, hi: nat, g: nat -> real): real
    decreases if hi <= lo then 0 else hi - lo
  {
    if hi <= lo then 0.0 else SumRange(lo, hi - 1, g) + g(hi - 1)
  }

  lemma {:induction false} SumRangeSplit(lo: nat, mid: nat, hi: nat, g: nat -> real)
    requires lo <= mid <= hi
    ensures SumRange(lo, hi, g) == SumRange(lo, mid, g) + SumRange(mid, hi, g)
    decreases hi - mid
  {
    if hi > mid {
      SumRangeSplit(lo, mid, hi - 1, g);
    }
  }

  lemma {:induction false} SumRangeExt(lo: nat, hi: nat, g: nat -> real, h: nat -> real)
    requires forall k :: lo <= k < hi ==> g(k) == h(k)
    ensures SumRange(lo, hi, g) == SumRange(lo, hi, h)
    decreases if hi <= lo then 0 else hi - lo
  {
    if hi > lo {
      SumRangeExt(lo, hi - 1, g, h);
    }
  }

  lemma {:induction false} SumRangeAdd(lo: nat, hi: nat, g: nat -> real, h: nat -> real, gh: nat -> real)
    requires forall k :: lo <= k < hi ==> gh(k) == g(k) + h(k)
    ensures SumRange(lo, hi, gh) == SumRange(lo, hi, g) + SumRange(lo, hi, h)
    decreases if hi <= lo then 0 else hi - lo
  {
    if hi > lo {
      SumRangeAdd(lo, hi - 1, g, h, gh);
    }
  }

  lemma {:induction false} SumRangeScale(lo: nat, hi: nat, s: real, g: nat -> real, sg: nat -> real)
    requires forall k :: lo <= k < hi ==> sg(k) == s * g(k)
    ensures SumRange(lo, hi, sg) == s * SumRange(lo, hi, g)
    decreases if hi <= lo then 0 else hi - lo
  {
    if hi > lo {
      SumRangeScale(lo, hi - 1, s, g, sg);
    }
  }

  lemma {:induction false} SumRangeNonNegative(lo: nat, hi: nat, g: nat -> real)
    requires forall k :: lo <= k < hi ==> g(k) >= 0.0
    ensures SumRange(lo, hi, g) >= 0.0
    decreases if hi <= lo then 0 else hi - lo
  {
    if hi > lo {
      SumRangeNonNegative(lo, hi - 1, g);
    }
  }

  /** A sum whose terms vanish except at k equals the term at k. */
  lemma {:induction false} SumRangeSingle(lo: nat, hi: nat, g: nat -> real, k: nat)
    requires lo <= k < hi
    requires forall j :: lo <= j < hi && j != k ==> g(j) == 0.0
    ensures SumRange(lo, hi, g) == g(k)
  {
    SumRangeSplit(lo, k, hi, g);
    SumRangeZero(lo, k, g);
    SumRangeSplit(k, k + 1, hi, g);
    SumRangeZero(k + 1, hi, g);
  }

  lemma {:induction false} SumRangeZero(lo: nat, hi: nat, g: nat -> real)
    requires forall j :: lo <= j < hi ==> g(j) == 0.0
    ensures SumRange(lo, hi, g) == 0.0
    decreases if hi <= lo then 0 else hi - lo
  {
    if hi > lo {
      SumRangeZero(lo, hi - 1, g);
    }
  }

  /** Re-indexing a sum by a shift d. */
  lemma {:induction false} SumRangeShift(lo: nat, hi: nat, d: nat, g: nat -> real, h: nat -> real)
    requires forall k :: lo <= k < hi ==> h(k + d) == g(k)
    ensures SumRange(lo, hi, g) == SumRange(lo + d, hi + d, h)
    decreases if hi <= lo then 0 else hi - lo
  {
    if hi > lo {
      SumRangeShift(lo, hi - 1, d, g, h);
      assert h(hi - 1 + d) == g(hi - 1);
    }
  }

  /** The sum over j < n of c(i, j). */
  function RowSum(c: (nat, nat) -> real, i: nat, n: nat): real
    decreases n
  {
    if n == 0 then 0.0 else RowSum(c, i, n - 1) + c(i, n - 1)
  }

  /** The sum over i < m of c(i, j). */
  function ColSum(c: (nat, nat) -> real, j: nat, m: nat): real
    decreases m
  {
    if m == 0 then 0.0 else ColSum(c, j, m - 1) + c(m - 1, j)
  }

  /** Sum of the first m row sums. */
  function SumOfRows(c: (nat, nat) -> real, m: nat, n: nat): real
    decreases m
  {
    if m == 0 then 0.0 else SumOfRows(c, m - 1, n) + RowSum(c, m - 1, n)
  }

  /** Sum of the first n column sums. */
  function SumOfCols(c: (nat, nat) -> real, m: nat, n: nat): real
    decreases n
  {
    if n == 0 then 0.0 else SumOfCols(c, m, n - 1) + ColSum(c, n - 1, m)
  }

  lemma {:induction false} SumOfColsPeel(c: (nat, nat) -> real, m: nat, n: nat)
    requires m > 0
    ensures SumOfCols(c, m, n) == SumOfCols(c, m - 1, n) + RowSum(c, m - 1, n)
    decreases n
  {
    if n > 0 {
      SumOfColsPeel(c, m, n - 1);
    }
  }

  /** Finite double sums may be taken in either order. */
  lemma {:induction false} SumSwap(c: (nat, nat) -> real, m: nat, n: nat)
    ensures SumOfRows(c, m, n) == SumOfCols(c, m, n)
    decreases m
  {
    if m > 0 {
      SumSwap(c, m - 1, n);
      SumOfColsPeel(c, m, n);
    } else {
      SumOfColsEmpty(c, n);
    }
  }

  lemma {:induction false} SumOfColsEmpty(c: (nat, nat) -> real, n: nat)
    ensures SumOfCols(c, 0, n) == 0.0
    decreases n
  {
    if n > 0 {
      SumOfColsEmpty(c, n - 1);
    }
  }

  // ---------------------------------------------------------------------
  // Complex numbers (the complex NumberType of the code)
  // ---------------------------------------------------------------------

  datatype Complex = Complex(re: real, im: real)

  function Conj(z: Complex): Complex {
    Complex(z.re, -z.im)
  }

  function CMul(z: Complex, w: Complex): Complex {
    Complex(z.re * w.re - z.im * w.im, z.re * w.im + z.im * w.re)
  }

  function CAdd(z: Complex, w: Complex): Complex {
    Complex(z.re + w.re, z.im + w.im)
  }

  function CSub(z: Complex, w: Complex): Complex {
    Complex(z.re - w.re, z.im - w.im)
  }

  function CScale(t: real, z: Complex): Complex {
    Complex(t * z.re, t * z.im)
  }

  /** |z|^2; the code's abs(z) * abs(z) and abs(z * z) both equal it. */
  function NormSq(z: Complex): real {
    z.re * z.re + z.im * z.im
  }

  // ---------------------------------------------------------------------
  // Mixed-radix index arithmetic of flattened buffers
  // ---------------------------------------------------------------------

  /** Position of (a, b) in a row-major buffer whose rows have length n. */
  function Flat(a: nat, b: nat, n: nat): nat {
    a * n + b
  }

  lemma FlatBound(a: nat, b: nat, m: nat, n: nat)
    requires a < m && b < n
    ensures Flat(a, b, n) < m * n
  {
    assert a * n + b < (a + 1) * n;
    assert (a + 1) * n <= m * n by {
      MulMonotone(a + 1, m, n);
    }
  }

  lemma MulSucc(i: nat, b: nat)
    ensures (i + 1) * b == i * b + b
  {
  }

  lemma MulMonotone(x: nat, y: nat, n: nat)
    requires x <= y
    ensures x * n <= y * n
  {
  }

  lemma MulMonotoneIf(x: nat, y: nat, n: nat)
    ensures x <= y ==> x * n <= y * n
  {
    if x <= y {
      MulMonotone(x, y, n);
    }
  }

  /** A non-zero multiple of n is at least n away from 0. */
  lemma MulAwayFromZero(d: int, n: nat)
    ensures d >= 1 ==> d * n >= n
    ensures d <= -1 ==> d * n + n <= 0
  {
    if d >= 1 {
      MulMonotone(1, d, n);
    }
    if d <= -1 {
      MulMonotone(1, -d, n);
      assert d * n == 0 - (-d) * n;
    }
  }

  lemma FlatDivMod(a: nat, b: nat, n: nat)
    requires b < n
    ensures Flat(a, b, n) / n == a
    ensures Flat(a, b, n) % n == b
  {
    var k := a * n + b;
    var q := k / n;
    var r := k % n;
    assert k == q * n + r;
    assert (q - a) * n == q * n - a * n;
    MulAwayFromZero(q - a, n);
  }

  /** Distinct pairs land in distinct positions. */
  lemma FlatInjective(a: nat, b: nat, a': nat, b': nat, n: nat)
    requires b < n && b' < n
    requires Flat(a, b, n) == Flat(a', b', n)
    ensures a == a' && b == b'
  {
    FlatDivMod(a, b, n);
    FlatDivMod(a', b', n);
  }

  /** Every position of an m*n buffer is some pair. */
  lemma FlatSurjective(k: nat, m: nat, n: nat)
    requires k < m * n
    ensures n > 0 && k / n < m && k % n < n
    ensures Flat(k / n, k % n, n) == k
  {
    MulMonotoneIf(m, k / n, n);
  }

  /** Position of (a, b, c) in a row-major a x nb x nc buffer. */
  function Flat3(a: nat, b: nat, c: nat, nb: nat, nc: nat): nat {
    Flat(Flat(a, b, nb), c, nc)
  }

  /** Position of (a, b, c, d) in a row-major buffer with inner extents nb, nc, nd. */
  function Flat4(a: nat, b: nat, c: nat, d: nat, nb: nat, nc: nat, nd: nat): nat {
    Flat(Flat3(a, b, c, nb, nc), d, nd)
  }

  /** Position of (a, b, c, d, e) in a row-major buffer with inner extents nb, nc, nd, ne. */
  function Flat5(a: nat, b: nat, c: nat, d: nat, e: nat, nb: nat, nc: nat, nd: nat, ne: nat): nat {
    Flat(Flat4(a, b, c, d, nb, nc, nd), e, ne)
  }

  lemma Flat3Bound(a: nat, b: nat, c: nat, na: nat, nb: nat, nc: nat)
    requires a < na && b < nb && c < nc
    ensures Flat3(a, b, c, nb, nc) < na * nb * nc
  {
    FlatBound(a, b, na, nb);
    FlatBound(Flat(a, b, nb), c, na * nb, nc);
  }

  lemma Flat4Bound(a: nat, b: nat, c: nat, d: nat, na: nat, nb: nat, nc: nat, nd: nat)
    requires a < na && b < nb && c < nc && d < nd
    ensures Flat4(a, b, c, d, nb, nc, nd) < na * nb * nc * nd
  {
    Flat3Bound(a, b, c, na, nb, nc);
    FlatBound(Flat3(a, b, c, nb, nc), d, na * nb * nc, nd);
  }

  lemma Flat5Bound(a: nat, b: nat, c: nat, d: nat, e: nat, na: nat, nb: nat, nc: nat, nd: nat, ne: nat)
    requires a < na && b < nb && c < nc && d < nd && e < ne
    ensures Flat5(a, b, c, d, e, nb, nc, nd, ne) < na * nb * nc * nd * ne
  {
    Flat4Bound(a, b, c, d, na, nb, nc, nd);
    FlatBound(Flat4(a, b, c, d, nb, nc, nd), e, na * nb * nc * nd, ne);
  }

  lemma Flat3Injective(a: nat, b: nat, c: nat, a': nat, b': nat, c': nat, nb: nat, nc: nat)
    requires b < nb && c < nc && b' < nb && c' < nc
    requires Flat3(a, b, c, nb, nc) == Flat3(a', b', c', nb, nc)
    ensures a == a' && b == b' && c == c'
  {
    FlatInjective(Flat(a, b, nb), c, Flat(a', b', nb), c', nc);
    FlatInjective(a, b, a', b', nb);
  }

  lemma Flat4Injective(a: nat, b: nat, c: nat, d: nat, a': nat, b': nat, c': nat, d': nat, nb: nat, nc: nat, nd: nat)
    requires b < nb && c < nc && d < nd && b' < nb && c' < nc && d' < nd
    requires Flat4(a, b, c, d, nb, nc, nd) == Flat4(a', b', c', d', nb, nc, nd)
    ensures a == a' && b == b' && c == c' && d == d'
  {
    FlatInjective(Flat3(a, b, c, nb, nc), d, Flat3(a', b', c', nb, nc), d', nd);
    Flat3Injective(a, b, c, a', b', c', nb, nc);
  }

  lemma Flat5Injective(a: nat, b: nat, c: nat, d: nat, e: nat, a': nat, b': nat, c': nat, d': nat, e': nat,
                       nb: nat, nc: nat, nd: nat, ne: nat)
    requires b < nb && c < nc && d < nd && e < ne && b' < nb && c' < nc && d' < nd && e' < ne
    requires Flat5(a, b, c, d, e, nb, nc, nd, ne) == Flat5(a', b', c', d', e', nb, nc, nd, ne)
    ensures a == a' && b == b' && c == c' && d == d' && e == e'
  {
    FlatInjective(Flat4(a, b, c, d, nb, nc, nd), e, Flat4(a', b', c', d', nb, nc, nd), e', ne);
    Flat4Injective(a, b, c, d, a', b', c', d', nb, nc, nd);
  }
}
