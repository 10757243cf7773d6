/**
 * The end of computeRhoFromPSI (src/dft/densityCalculator.cc:470-577): the
 * partial densities of the k-point pools and of the band groups are summed
 * by two in-place all-reductions, pool first, and the reduced buffer is
 * recombined into the output components.
 *
 * A reduction is modelled as what one rank holds afterwards: the first `len`
 * entries of its buffer become the sum over all ranks, the rest stay as the
 * rank computed them.
 */
module DensityOutput {
  import opened Numerics
  import opened DensityModes
  import opened SpinAlgebra

  // ---------------------------------------------------------------------
  // In-place all-reduction
  // ---------------------------------------------------------------------

  /** Entry i of the buffer, 0 past its end. */
  function Entry(v: Vector, i: nat): real {
    if i < |v| then v[i] else 0.0
  }

  /** Sum over the ranks 0 .. n-1 of entry i of their buffers. */
  function SumOverRanks(parts: seq<Vector>, i: nat, n: nat): real
    requires n <= |parts|
    decreases n
  {
    if n == 0 then 0.0 else SumOverRanks(parts, i, n - 1) + Entry(parts[n - 1], i)
  }

  /** Every rank holds a buffer of the same length m. */
  ghost predicate SameLength(parts: seq<Vector>, m: nat) {
    forall g :: 0 <= g < |parts| ==> |parts[g]| == m
  }

  /** The buffer `rank` holds after MPI_Allreduce(MPI_IN_PLACE, buf, len, MPI_SUM) over the ranks of `parts`. */
  function AllReduceInPlace(parts: seq<Vector>, rank: nat, len: nat): (r: Vector)
    requires rank < |parts|
    ensures |r| == |parts[rank]|
    ensures forall i :: 0 <= i < |r| && len <= i ==> r[i] == parts[rank][i]
  {
    seq(|parts[rank]|, i requires 0 <= i < |parts[rank]| =>
      if i < len then SumOverRanks(parts, i, |parts|) else parts[rank][i])
  }

  /**
   * After the reduction all ranks agree on the first len entries, and there
   * each holds the sum of every rank's contribution.
   */
  lemma AllReduceAgrees(parts: seq<Vector>, m: nat, len: nat, r1: nat, r2: nat, i: nat)
    requires SameLength(parts, m) && r1 < |parts| && r2 < |parts|
    requires i < len && i < m
    ensures AllReduceInPlace(parts, r1, len)[i] == AllReduceInPlace(parts, r2, len)[i]
    ensures AllReduceInPlace(parts, r1, len)[i] == SumOverRanks(parts, i, |parts|)
  {
  }

  /** A reduction over a single rank leaves its buffer as it is. */
  lemma AllReduceSingleRank(v: Vector, len: nat)
    ensures AllReduceInPlace([v], 0, len) == v
  {
    var r := AllReduceInPlace([v], 0, len);
    forall i | 0 <= i < |v|
      ensures r[i] == v[i]
    {
      if i < len {
        assert SumOverRanks([v], i, 0) == 0.0;
      }
    }
  }

  // ---------------------------------------------------------------------
  // The reduction length
  // ---------------------------------------------------------------------

  /**
   * Entries of the rho buffer (w = 1) or of the gradRho buffer (w = 3):
   * cells x quadrature points x w x stored components.
   */
  function RhoBufferLength(p: Params, nCells: nat, nQ: nat, w: nat): nat {
    nCells * nQ * w * NumRhoComponents(p)
  }

  /** The length the code passes to the reductions: cells x quadrature points x spin channels (x 3 for gradRho). */
  function ReductionLengthAsWritten(p: Params, nCells: nat, nQ: nat, w: nat): nat {
    nCells * nQ * NumSpinComponents(p) * w
  }

  /** The length that reduces every stored component. */
  function ReductionLength(p: Params, nCells: nat, nQ: nat, w: nat): (len: nat)
    ensures len == RhoBufferLength(p, nCells, nQ, w)
  {
    nCells * nQ * w * NumRhoComponents(p)
  }

  /**
   * The length written in the code covers the whole buffer exactly when the
   * density is collinear (or the buffer is empty); in non-collinear mode it
   * covers only component 0.
   */
  lemma AsWrittenLengthCoversBuffer(p: Params, nCells: nat, nQ: nat, w: nat)
    ensures ReductionLengthAsWritten(p, nCells, nQ, w) <= RhoBufferLength(p, nCells, nQ, w)
    ensures ReductionLengthAsWritten(p, nCells, nQ, w) == RhoBufferLength(p, nCells, nQ, w) <==>
              (!p.noncolin || nCells * nQ * w == 0)
    ensures p.noncolin && !p.spinPolarized ==> ReductionLengthAsWritten(p, nCells, nQ, w) == nCells * nQ * w
  {
    var n := nCells * nQ * w;
    assert ReductionLengthAsWritten(p, nCells, nQ, w) == n * NumSpinComponents(p) by {
      RotateLast(nCells * nQ, NumSpinComponents(p), w);
    }
    if p.noncolin {
      assert n * NumRhoComponents(p) == 4 * n;
      if n > 0 && !p.spinPolarized {
        assert n * NumSpinComponents(p) == n < 4 * n;
      }
      if p.spinPolarized {
        assert n * NumSpinComponents(p) == 2 * n;
      }
    }
  }

  lemma RotateLast(a: nat, b: nat, c: nat)
    ensures a * b * c == a * c * b
  {
  }

  /** What one rank holds after the reduction as written, over ranks that all hold full buffers. */
  function ReduceRhoAsWritten(p: Params, nCells: nat, nQ: nat, w: nat, parts: seq<Vector>, rank: nat): (r: Vector)
    requires rank < |parts|
    ensures |r| == |parts[rank]|
    ensures forall i :: 0 <= i < |r| && i < ReductionLengthAsWritten(p, nCells, nQ, w) ==>
              r[i] == SumOverRanks(parts, i, |parts|)
  {
    AllReduceInPlace(parts, rank, ReductionLengthAsWritten(p, nCells, nQ, w))
  }

  /** What one rank holds after the reduction over the whole buffer. */
  function ReduceRho(p: Params, nCells: nat, nQ: nat, w: nat, parts: seq<Vector>, rank: nat): (r: Vector)
    requires rank < |parts|
    ensures |r| == |parts[rank]|
  {
    AllReduceInPlace(parts, rank, ReductionLength(p, nCells, nQ, w))
  }

  /**
   * With the full length, every entry of every rank's buffer is the sum over
   * all ranks: the magnetisation components included.
   */
  lemma ReduceRhoIsTotal(p: Params, nCells: nat, nQ: nat, w: nat, parts: seq<Vector>, rank: nat)
    requires rank < |parts| && SameLength(parts, RhoBufferLength(p, nCells, nQ, w))
    ensures forall i :: 0 <= i < |parts[rank]| ==>
              ReduceRho(p, nCells, nQ, w, parts, rank)[i] == SumOverRanks(parts, i, |parts|)
  {
  }

  /**
   * The code as written: two band groups each holding the magnetisation
   * component mz = 1 at the single point of a non-collinear run. After the
   * reduction the rank still holds its own 1 instead of the total 2.
   */
  lemma NoncollinearMagnetizationNotReduced()
    ensures var p := Params(false, true, false, false);
            var parts: seq<Vector> := [[0.0, 1.0, 0.0, 0.0], [0.0, 1.0, 0.0, 0.0]];
            SameLength(parts, RhoBufferLength(p, 1, 1, 1)) &&
            ReduceRhoAsWritten(p, 1, 1, 1, parts, 0)[1] == 1.0 &&
            SumOverRanks(parts, 1, 2) == 2.0 &&
            ReduceRho(p, 1, 1, 1, parts, 0)[1] == 2.0
  {
    var p := Params(false, true, false, false);
    var parts: seq<Vector> := [[0.0, 1.0, 0.0, 0.0], [0.0, 1.0, 0.0, 0.0]];
    assert ReductionLengthAsWritten(p, 1, 1, 1) == 1;
    assert SumOverRanks(parts, 1, 2) == SumOverRanks(parts, 1, 1) + 1.0;
    assert SumOverRanks(parts, 1, 1) == SumOverRanks(parts, 1, 0) + 1.0;
  }

  // ---------------------------------------------------------------------
  // Pool reduction, then band-group reduction
  // ---------------------------------------------------------------------

  /** The buffers of the ranks, indexed [pool][band group], each of length m. */
  ghost predicate RankGrid(parts: seq<seq<Vector>>, groups: nat, m: nat) {
    forall k :: 0 <= k < |parts| ==>
      |parts[k]| == groups && forall g :: 0 <= g < groups ==> |parts[k][g]| == m
  }

  /** The buffers of band group g across the pools: the ranks of one interpoolcomm. */
  function PoolColumn(parts: seq<seq<Vector>>, g: nat): (col: seq<Vector>)
    ensures |col| == |parts|
    ensures forall k :: 0 <= k < |parts| ==> col[k] == (if g < |parts[k]| then parts[k][g] else [])
  {
    seq(|parts|, k requires 0 <= k < |parts| => if g < |parts[k]| then parts[k][g] else [])
  }

  /** The buffers after the pool reduction, still indexed [pool][band group]. */
  function AfterPoolReduction(parts: seq<seq<Vector>>, len: nat): (r: seq<seq<Vector>>)
    ensures |r| == |parts|
    ensures forall k :: 0 <= k < |parts| ==> |r[k]| == |parts[k]|
  {
    seq(|parts|, k requires 0 <= k < |parts| =>
      seq(|parts[k]|, g requires 0 <= g < |parts[k]| => AllReduceInPlace(PoolColumn(parts, g), k, len)))
  }

  /** The buffer of rank (pool, group) after the pool reduction and then the band-group reduction. */
  function PoolThenGroup(parts: seq<seq<Vector>>, pool: nat, group: nat, len: nat): (r: Vector)
    requires pool < |parts| && group < |parts[pool]|
    ensures |r| == |parts[pool][group]|
  {
    var afterPool := AfterPoolReduction(parts, len);
    AllReduceInPlace(afterPool[pool], group, len)
  }

  /** Contribution of rank (pool k, group g) to entry i. */
  function Contribution(parts: seq<seq<Vector>>, i: nat): (nat, nat) -> real {
    (k: nat, g: nat) => if k < |parts| && g < |parts[k]| then Entry(parts[k][g], i) else 0.0
  }

  lemma {:induction false} PoolColumnSum(parts: seq<seq<Vector>>, g: nat, i: nat, n: nat)
    requires n <= |parts|
    ensures SumOverRanks(PoolColumn(parts, g), i, n) == ColSum(Contribution(parts, i), g, n)
    decreases n
  {
    if n > 0 {
      PoolColumnSum(parts, g, i, n - 1);
    }
  }

  lemma {:induction false} GroupRowSum(parts: seq<seq<Vector>>, afterPool: seq<Vector>, groups: nat, i: nat, n: nat)
    requires n <= |afterPool| == groups
    requires forall g :: 0 <= g < groups ==> Entry(afterPool[g], i) == ColSum(Contribution(parts, i), g, |parts|)
    ensures SumOverRanks(afterPool, i, n) == SumOfCols(Contribution(parts, i), |parts|, n)
    decreases n
  {
    if n > 0 {
      GroupRowSum(parts, afterPool, groups, i, n - 1);
    }
  }

  /**
   * Pool reduction then band-group reduction leaves on every rank, in the
   * reduced entries, the sum of all ranks' contributions; summing the groups
   * of each pool first would give the same number.
   */
  lemma PoolThenGroupIsTotal(parts: seq<seq<Vector>>, groups: nat, m: nat, len: nat, pool: nat, group: nat, i: nat)
    requires RankGrid(parts, groups, m) && pool < |parts| && group < groups
    requires i < len && i < m
    ensures PoolThenGroup(parts, pool, group, len)[i] == SumOfCols(Contribution(parts, i), |parts|, groups)
    ensures PoolThenGroup(parts, pool, group, len)[i] == SumOfRows(Contribution(parts, i), |parts|, groups)
  {
    var afterPool := AfterPoolReduction(parts, len);
    forall g | 0 <= g < groups
      ensures Entry(afterPool[pool][g], i) == ColSum(Contribution(parts, i), g, |parts|)
    {
      PoolColumnSum(parts, g, i, |parts|);
    }
    GroupRowSum(parts, afterPool[pool], groups, i, groups);
    SumSwap(Contribution(parts, i), |parts|, groups);
  }

  // ---------------------------------------------------------------------
  // Output components
  // ---------------------------------------------------------------------

  /** Number of output components written. */
  function NumOutputs(p: Params): (n: nat)
    ensures p.spinPolarized ==> n == 2
    ensures !p.spinPolarized && p.noncolin ==> n == 4
    ensures !p.spinPolarized && !p.noncolin ==> n == 1
  {
    if p.spinPolarized then 2 else if p.noncolin then 4 else 1
  }

  /** Component c of the reduced buffer: entries [c m, (c + 1) m). */
  function Slice(buf: Vector, c: nat, m: nat): (r: Vector)
    requires (c + 1) * m <= |buf|
    ensures |r| == m
  {
    buf[c * m .. (c + 1) * m]
  }

  /**
   * The output densities from the reduced buffer with m entries per
   * component (m = cells x quads for rho, 3 x cells x quads for its
   * gradient): (up + down, up - down) when spin-polarised, the four
   * components when non-collinear, the buffer itself otherwise.
   */
  function Recombine(p: Params, buf: Vector, m: nat): (out: seq<Vector>)
    requires |buf| == NumRhoComponents(p) * m
    ensures |out| == NumOutputs(p)
    ensures forall c :: 0 <= c < |out| ==> |out[c]| == m
    ensures p.spinPolarized ==> forall i :: 0 <= i < m ==>
              out[0][i] + out[1][i] == 2.0 * buf[i] && out[0][i] - out[1][i] == 2.0 * buf[m + i]
  {
    if p.spinPolarized then
      assert 2 * m <= |buf| by {
        assert NumRhoComponents(p) >= 2;
        MulMonotone(2, NumRhoComponents(p), m);
      }
      var tm := ToTotalAndMagnetization(Slice(buf, 0, m), Slice(buf, 1, m));
      [tm.0, tm.1]
    else if p.noncolin then
      [Slice(buf, 0, m), Slice(buf, 1, m), Slice(buf, 2, m), Slice(buf, 3, m)]
    else
      [buf]
  }

  /** The reduced buffer back from the outputs. */
  function Uncombine(p: Params, out: seq<Vector>, m: nat): (buf: Vector)
    requires |out| == NumOutputs(p) && forall c :: 0 <= c < |out| ==> |out[c]| == m
    ensures |buf| == NumOutputs(p) * m
  {
    if p.spinPolarized then
      var ud := FromTotalAndMagnetization(out[0], out[1]);
      ud.0 + ud.1
    else if p.noncolin then out[0] + out[1] + out[2] + out[3]
    else out[0]
  }

  /**
   * For a consistent configuration the recombination loses nothing: the
   * reduced buffer is recovered from the outputs.
   */
  lemma RecombineRoundTrip(p: Params, buf: Vector, m: nat)
    requires Consistent(p) && |buf| == NumRhoComponents(p) * m
    ensures Uncombine(p, Recombine(p, buf, m), m) == buf
  {
    var out := Recombine(p, buf, m);
    if p.spinPolarized {
      assert |buf| == 2 * m;
      var up := Slice(buf, 0, m);
      var down := Slice(buf, 1, m);
      SpinBasisRoundTrip(up, down);
      assert up + down == buf;
    } else if p.noncolin {
      assert |buf| == 4 * m;
      assert Slice(buf, 0, m) + Slice(buf, 1, m) + Slice(buf, 2, m) + Slice(buf, 3, m) == buf;
    }
  }
}
