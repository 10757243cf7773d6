/**
 * The accumulation loops of computeRhoGradRhoFromInterpolatedValues
 * (src/dft/densityCalculator.cc:593-748): for every cell of the cell range
 * and every quadrature point, each density (and density-gradient) entry
 * receives the occupation-weighted sum, in band order, of the per-band terms
 * of Contraction. Entries of cells outside the range, and of components the
 * branch does not write, are left as they were.
 *
 * A field is laid out as entry (comp, cell, quad, slot) at
 * Flat4(comp, cell, quad, slot, nCells, nQ, per), with per = 1 for rho and
 * per = 3 (the direction) for grad rho.
 */
module RhoAccumulation {
  import opened Numerics
  import opened DensityModes
  import opened Contraction

  /** The per-band terms of entry k. */
  function EntryTerms(term: (nat, nat) -> real, k: nat, n: nat): (r: Vector)
    ensures |r| == n && forall w :: 0 <= w < n ==> r[w] == term(k, w)
  {
    seq(n, w requires 0 <= w < n => term(k, w))
  }

  lemma DotPrefixStep(u: Vector, v: Vector, n: nat)
    requires |u| == |v| && n < |u|
    ensures Dot(u[..n + 1], v[..n + 1]) == Dot(u[..n], v[..n]) + u[n] * v[n]
  {
    assert u[..n + 1][..n] == u[..n];
    assert v[..n + 1][..n] == v[..n];
  }

  /**
   * Entries lo .. hi-1, one after the other, each accumulating
   * occ[w] * term(k, w) for w = 0 .. |occ|-1 in that order.
   */
  method AccumulateEntries(field: seq<real>, lo: nat, hi: nat, occ: Vector, term: (nat, nat) -> real)
    returns (r: seq<real>)
    requires lo <= hi <= |field|
    ensures |r| == |field|
    ensures forall k :: lo <= k < hi ==> r[k] == field[k] + Dot(occ, EntryTerms(term, k, |occ|))
    ensures forall k :: 0 <= k < |field| && (k < lo || hi <= k) ==> r[k] == field[k]
  {
    r := field;
    var k := lo;
    while k < hi
      invariant lo <= k <= hi && |r| == |field|
      invariant forall k' :: lo <= k' < k ==> r[k'] == field[k'] + Dot(occ, EntryTerms(term, k', |occ|))
      invariant forall k' :: 0 <= k' < |field| && (k' < lo || k <= k') ==> r[k'] == field[k']
    {
      var terms := EntryTerms(term, k, |occ|);
      ghost var before := r;
      var w := 0;
      while w < |occ|
        invariant 0 <= w <= |occ| && |r| == |field|
        invariant r[k] == field[k] + Dot(occ[..w], terms[..w])
        invariant forall k' :: 0 <= k' < |field| && k' != k ==> r[k'] == before[k']
      {
        DotPrefixStep(occ, terms, w);
        r := r[k := r[k] + occ[w] * term(k, w)];
        w := w + 1;
      }
      assert occ[..|occ|] == occ && terms[..|occ|] == terms;
      k := k + 1;
    }
  }

  // ---------------------------------------------------------------------
  // Where the entries of a cell range lie
  // ---------------------------------------------------------------------

  /** With r < n, Flat(x, r, n) lies in [lo n, hi n) exactly when x lies in [lo, hi). */
  lemma FlatRange(x: nat, r: nat, n: nat, lo: nat, hi: nat)
    requires r < n
    ensures lo * n <= Flat(x, r, n) < hi * n <==> lo <= x < hi
  {
    assert Flat(x, r, n) < (x + 1) * n;
    if x >= hi {
      MulMonotone(hi, x, n);
    }
    if x >= lo {
      MulMonotone(lo, x, n);
    } else {
      MulMonotone(x + 1, lo, n);
    }
    if x < hi {
      MulMonotone(x + 1, hi, n);
    }
  }

  /** The rows of component comp for cells [first, last) are exactly those of that component and cells. */
  lemma RowRange(comp: nat, c: nat, comp0: nat, first: nat, last: nat, nCells: nat)
    requires c < nCells && first <= last <= nCells
    ensures Flat(comp0, first, nCells) <= Flat(comp, c, nCells) < Flat(comp0, last, nCells) <==>
              comp == comp0 && first <= c < last
  {
    if comp < comp0 {
      ComponentsApart(comp, comp0, nCells);
    } else if comp > comp0 {
      ComponentsApart(comp0, comp, nCells);
    }
  }

  /** The rows of an earlier component all precede those of a later one. */
  lemma ComponentsApart(lo: nat, hi: nat, nCells: nat)
    requires lo < hi
    ensures lo * nCells + nCells <= hi * nCells
  {
    MulSucc(lo, nCells);
    MulMonotone(lo + 1, hi, nCells);
  }

  /** The first entry of the rows of component comp from cell `cell` on. */
  function RowStart(comp: nat, cell: nat, nCells: nat, nQ: nat, per: nat): nat {
    Flat4(comp, cell, 0, 0, nCells, nQ, per)
  }

  /** An entry lies in the cell range of component comp0 exactly when it belongs to it. */
  lemma EntryRange(comp: nat, c: nat, q: nat, j: nat, comp0: nat, first: nat, last: nat,
                   nCells: nat, nQ: nat, per: nat)
    requires c < nCells && q < nQ && j < per && first <= last <= nCells
    ensures RowStart(comp0, first, nCells, nQ, per) <= Flat4(comp, c, q, j, nCells, nQ, per) <
              RowStart(comp0, last, nCells, nQ, per) <==>
            comp == comp0 && first <= c < last
  {
    var x := Flat(comp, c, nCells);
    var x0, x1 := Flat(comp0, first, nCells), Flat(comp0, last, nCells);
    RowRange(comp, c, comp0, first, last, nCells);
    FlatRange(x, q, nQ, x0, x1);
    assert Flat(x0, 0, nQ) == x0 * nQ && Flat(x1, 0, nQ) == x1 * nQ;
    FlatRange(Flat(x, q, nQ), j, per, x0 * nQ, x1 * nQ);
  }

  /** The cell range of the last component ends inside a field of numComp components. */
  lemma RowStartBound(comp: nat, last: nat, numComp: nat, nCells: nat, nQ: nat, per: nat)
    requires comp < numComp && last <= nCells
    ensures RowStart(comp, last, nCells, nQ, per) <= numComp * nCells * nQ * per
  {
    var x := Flat(comp, last, nCells);
    assert x <= numComp * nCells by {
      MulMonotone(comp + 1, numComp, nCells);
    }
    MulMonotone(x, numComp * nCells, nQ);
    MulMonotone(x * nQ, numComp * nCells * nQ, per);
  }

  /** Recovering (cell, quad, slot) from an entry. */
  function CellOf(k: nat, nCells: nat, nQ: nat, per: nat): nat {
    if nCells == 0 || nQ == 0 || per == 0 then 0 else (k / per / nQ) % nCells
  }

  function QuadOf(k: nat, nQ: nat, per: nat): nat {
    if nQ == 0 || per == 0 then 0 else (k / per) % nQ
  }

  function SlotOf(k: nat, per: nat): nat {
    if per == 0 then 0 else k % per
  }

  lemma DecodeEntry(comp: nat, c: nat, q: nat, j: nat, nCells: nat, nQ: nat, per: nat)
    requires c < nCells && q < nQ && j < per
    ensures CellOf(Flat4(comp, c, q, j, nCells, nQ, per), nCells, nQ, per) == c
    ensures QuadOf(Flat4(comp, c, q, j, nCells, nQ, per), nQ, per) == q
    ensures SlotOf(Flat4(comp, c, q, j, nCells, nQ, per), per) == j
  {
    var k := Flat4(comp, c, q, j, nCells, nQ, per);
    FlatDivMod(Flat3(comp, c, q, nCells, nQ), j, per);
    FlatDivMod(Flat(comp, c, nCells), q, nQ);
    FlatDivMod(comp, c, nCells);
  }

  lemma RowStartMonotone(comp: nat, first: nat, last: nat, nCells: nat, nQ: nat, per: nat)
    requires first <= last
    ensures RowStart(comp, first, nCells, nQ, per) <= RowStart(comp, last, nCells, nQ, per)
  {
    MulMonotone(Flat(comp, first, nCells), Flat(comp, last, nCells), nQ);
    MulMonotone(Flat(comp, first, nCells) * nQ, Flat(comp, last, nCells) * nQ, per);
  }

  /** Every entry of a field of numComp components lies inside it. */
  lemma EntriesInField(numComp: nat, nCells: nat, nQ: nat, per: nat)
    ensures forall comp: nat, c: nat, q: nat, j: nat :: comp < numComp && c < nCells && q < nQ && j < per ==>
              Flat4(comp, c, q, j, nCells, nQ, per) < numComp * nCells * nQ * per
  {
    forall comp: nat, c: nat, q: nat, j: nat | comp < numComp && c < nCells && q < nQ && j < per
      ensures Flat4(comp, c, q, j, nCells, nQ, per) < numComp * nCells * nQ * per
    {
      Flat4Bound(comp, c, q, j, numComp, nCells, nQ, per);
    }
  }

  /** The entries of the cell range of comp are the flat range [RowStart(first), RowStart(last)). */
  lemma CellRangeEntries(comp: nat, first: nat, last: nat, nCells: nat, nQ: nat, per: nat)
    requires first <= last <= nCells
    ensures forall comp': nat, c: nat, q: nat, j: nat :: c < nCells && q < nQ && j < per ==>
              (RowStart(comp, first, nCells, nQ, per) <= Flat4(comp', c, q, j, nCells, nQ, per) <
                 RowStart(comp, last, nCells, nQ, per) <==>
               comp' == comp && first <= c < last)
  {
    forall comp': nat, c: nat, q: nat, j: nat | c < nCells && q < nQ && j < per
      ensures RowStart(comp, first, nCells, nQ, per) <= Flat4(comp', c, q, j, nCells, nQ, per) <
                RowStart(comp, last, nCells, nQ, per) <==>
              comp' == comp && first <= c < last
    {
      EntryRange(comp', c, q, j, comp, first, last, nCells, nQ, per);
    }
  }

  /**
   * One component of one field over the cells [first, last): every entry of
   * those cells receives its band sum; every other entry of the field is
   * left as it was.
   */
  method AccumulateComponent(field: seq<real>, comp: nat, first: nat, last: nat,
                             numComp: nat, nCells: nat, nQ: nat, per: nat,
                             occ: Vector, term: (nat, nat) -> real) returns (r: seq<real>)
    requires comp < numComp && first <= last <= nCells
    requires |field| == numComp * nCells * nQ * per
    ensures |r| == |field|
    ensures forall comp': nat, c: nat, q: nat, j: nat :: comp' < numComp && c < nCells && q < nQ && j < per ==>
              Flat4(comp', c, q, j, nCells, nQ, per) < |r|
    ensures forall c: nat, q: nat, j: nat :: first <= c < last && q < nQ && j < per ==>
              r[Flat4(comp, c, q, j, nCells, nQ, per)] ==
              field[Flat4(comp, c, q, j, nCells, nQ, per)] + Dot(occ, EntryTerms(term, Flat4(comp, c, q, j, nCells, nQ, per), |occ|))
    ensures forall comp': nat, c: nat, q: nat, j: nat ::
              comp' < numComp && c < nCells && q < nQ && j < per && (comp' != comp || c < first || last <= c) ==>
              r[Flat4(comp', c, q, j, nCells, nQ, per)] == field[Flat4(comp', c, q, j, nCells, nQ, per)]
  {
    var lo, hi := RowStart(comp, first, nCells, nQ, per), RowStart(comp, last, nCells, nQ, per);
    RowStartBound(comp, last, numComp, nCells, nQ, per);
    RowStartMonotone(comp, first, last, nCells, nQ, per);
    EntriesInField(numComp, nCells, nQ, per);
    CellRangeEntries(comp, first, last, nCells, nQ, per);
    r := AccumulateEntries(field, lo, hi, occ, term);
  }

  // ---------------------------------------------------------------------
  // What the two branches read
  // ---------------------------------------------------------------------

  /**
   * Entry i of an interpolated buffer. Past its end it reads as zero, a case
   * that never arises once InterpolatedFilled holds (FilledReadsInRange).
   */
  function At(v: seq<Complex>, i: nat): Complex {
    if i < |v| then v[i] else Complex(0.0, 0.0)
  }

  /**
   * The interpolated buffers hold every value the cell range reads:
   * cells x quadrature points x bands x spinor components, and three
   * directions of each for the gradient (the sizes allocated at
   * src/dft/densityCalculator.cc:140-155 for a full cell block).
   */
  predicate InterpolatedFilled(spinors: nat, wfc: seq<Complex>, gradWfc: seq<Complex>,
                               first: nat, last: nat, nQ: nat, b: nat, evalGrad: bool) {
    first <= last &&
    (last - first) * nQ * b * spinors <= |wfc| &&
    (evalGrad ==> (last - first) * nQ * b * spinors * 3 <= |gradWfc|)
  }

  /** Under InterpolatedFilled every read of the scalar layout is inside the buffers. */
  lemma FilledScalarReadsInRange(wfc: seq<Complex>, gradWfc: seq<Complex>, first: nat, last: nat, nQ: nat, b: nat,
                                 evalGrad: bool, c: nat, dim: nat, q: nat, w: nat)
    requires InterpolatedFilled(1, wfc, gradWfc, first, last, nQ, b, evalGrad)
    requires c < last - first && dim < 3 && q < nQ && w < b
    ensures WfcIndex(c, q, w, nQ, b) < |wfc|
    ensures evalGrad ==> GradWfcIndex(c, dim, q, w, nQ, b) < |gradWfc|
  {
    ScalarReadsInBounds(c, dim, q, w, last - first, nQ, b, last - first, b);
  }

  /** Under InterpolatedFilled every read of the spinor layout is inside the buffers. */
  lemma FilledSpinorReadsInRange(wfc: seq<Complex>, gradWfc: seq<Complex>, first: nat, last: nat, nQ: nat, b: nat,
                                 evalGrad: bool, c: nat, dim: nat, q: nat, s: nat, w: nat)
    requires InterpolatedFilled(2, wfc, gradWfc, first, last, nQ, b, evalGrad)
    requires c < last - first && dim < 3 && q < nQ && s < 2 && w < b
    ensures SpinorWfcIndex(c, q, s, w, nQ, b) < |wfc|
    ensures evalGrad ==> SpinorGradWfcIndex(c, dim, q, s, w, nQ, b) < |gradWfc|
  {
    SpinorReadsInBounds(c, dim, q, s, w, last - first, nQ, b, last - first, b);
  }

  /** Cell c relative to the first cell of the range. */
  function Rel(c: nat, first: nat): nat {
    if c >= first then c - first else 0
  }

  /** The b band values of scalar wavefunctions at (cell c of the block, quad q). */
  function ScalarValues(wfc: seq<Complex>, c: nat, q: nat, nQ: nat, b: nat): (r: seq<Complex>)
    ensures |r| == b && forall w :: 0 <= w < b ==> r[w] == At(wfc, WfcIndex(c, q, w, nQ, b))
  {
    seq(b, w requires 0 <= w < b => At(wfc, WfcIndex(c, q, w, nQ, b)))
  }

  /** Their derivatives along direction dim. */
  function ScalarGradValues(gradWfc: seq<Complex>, c: nat, dim: nat, q: nat, nQ: nat, b: nat): (r: seq<Complex>)
    ensures |r| == b && forall w :: 0 <= w < b ==> r[w] == At(gradWfc, GradWfcIndex(c, dim, q, w, nQ, b))
  {
    seq(b, w requires 0 <= w < b => At(gradWfc, GradWfcIndex(c, dim, q, w, nQ, b)))
  }

  /** The spinor component s (0 up, 1 down) of the b bands at (cell c of the block, quad q). */
  function SpinorValues(wfc: seq<Complex>, c: nat, q: nat, s: nat, nQ: nat, b: nat): (r: seq<Complex>)
    ensures |r| == b && forall w :: 0 <= w < b ==> r[w] == At(wfc, SpinorWfcIndex(c, q, s, w, nQ, b))
  {
    seq(b, w requires 0 <= w < b => At(wfc, SpinorWfcIndex(c, q, s, w, nQ, b)))
  }

  function SpinorGradValues(gradWfc: seq<Complex>, c: nat, dim: nat, q: nat, s: nat, nQ: nat, b: nat): (r: seq<Complex>)
    ensures |r| == b && forall w :: 0 <= w < b ==> r[w] == At(gradWfc, SpinorGradWfcIndex(c, dim, q, s, w, nQ, b))
  {
    seq(b, w requires 0 <= w < b => At(gradWfc, SpinorGradWfcIndex(c, dim, q, s, w, nQ, b)))
  }

  /** Within the range and a filled buffer, ScalarValues reads the buffer itself. */
  lemma ScalarValuesRead(wfc: seq<Complex>, c: nat, q: nat, w: nat, cells: nat, nQ: nat, b: nat)
    requires c < cells && q < nQ && w < b && cells * nQ * b <= |wfc|
    ensures WfcIndex(c, q, w, nQ, b) < |wfc|
    ensures ScalarValues(wfc, c, q, nQ, b)[w] == wfc[WfcIndex(c, q, w, nQ, b)]
  {
    ScalarReadsInBounds(c, 0, q, w, cells, nQ, b, cells, b);
  }

  // ---------------------------------------------------------------------
  // The per-band term of each entry
  // ---------------------------------------------------------------------

  function ScalarRhoTerm(wfc: seq<Complex>, first: nat, nCells: nat, nQ: nat, b: nat, k: nat, w: nat): real {
    NormSq(At(wfc, WfcIndex(Rel(CellOf(k, nCells, nQ, 1), first), QuadOf(k, nQ, 1), w, nQ, b)))
  }

  function ScalarRhoTerms(wfc: seq<Complex>, first: nat, nCells: nat, nQ: nat, b: nat): (nat, nat) -> real {
    (k: nat, w: nat) => ScalarRhoTerm(wfc, first, nCells, nQ, b, k, w)
  }

  function ScalarGradRhoTerm(wfc: seq<Complex>, gradWfc: seq<Complex>, first: nat, nCells: nat, nQ: nat, b: nat,
                             k: nat, w: nat): real {
    var c, q := Rel(CellOf(k, nCells, nQ, 3), first), QuadOf(k, nQ, 3);
    GradTerm(At(wfc, WfcIndex(c, q, w, nQ, b)), At(gradWfc, GradWfcIndex(c, SlotOf(k, 3), q, w, nQ, b)))
  }

  function ScalarGradRhoTerms(wfc: seq<Complex>, gradWfc: seq<Complex>, first: nat, nCells: nat, nQ: nat, b: nat)
    : (nat, nat) -> real {
    (k: nat, w: nat) => ScalarGradRhoTerm(wfc, gradWfc, first, nCells, nQ, b, k, w)
  }

  /**
   * The spinor terms are indexed by the field component fc they are stored
   * in; with the spin channel's offset off that is spinor component fc - off.
   */
  function SpinorRhoTerm(off: nat, fc: nat, wfc: seq<Complex>, first: nat, nCells: nat, nQ: nat, b: nat, k: nat, w: nat): real
    requires off <= fc < off + 4
  {
    var c, q := Rel(CellOf(k, nCells, nQ, 1), first), QuadOf(k, nQ, 1);
    SpinorTerm(fc - off, At(wfc, SpinorWfcIndex(c, q, 0, w, nQ, b)), At(wfc, SpinorWfcIndex(c, q, 1, w, nQ, b)))
  }

  function SpinorRhoTerms(off: nat, fc: nat, wfc: seq<Complex>, first: nat, nCells: nat, nQ: nat, b: nat): (nat, nat) -> real
    requires off <= fc < off + 4
  {
    (k: nat, w: nat) => SpinorRhoTerm(off, fc, wfc, first, nCells, nQ, b, k, w)
  }

  function SpinorGradRhoTerm(off: nat, fc: nat, wfc: seq<Complex>, gradWfc: seq<Complex>, first: nat, nCells: nat, nQ: nat,
                             b: nat, k: nat, w: nat): real
    requires off <= fc < off + 4
  {
    var c, q, dim := Rel(CellOf(k, nCells, nQ, 3), first), QuadOf(k, nQ, 3), SlotOf(k, 3);
    SpinorGradTerm(fc - off, At(wfc, SpinorWfcIndex(c, q, 0, w, nQ, b)), At(wfc, SpinorWfcIndex(c, q, 1, w, nQ, b)),
                   At(gradWfc, SpinorGradWfcIndex(c, dim, q, 0, w, nQ, b)),
                   At(gradWfc, SpinorGradWfcIndex(c, dim, q, 1, w, nQ, b)))
  }

  function SpinorGradRhoTerms(off: nat, fc: nat, wfc: seq<Complex>, gradWfc: seq<Complex>, first: nat, nCells: nat, nQ: nat,
                              b: nat): (nat, nat) -> real
    requires off <= fc < off + 4
  {
    (k: nat, w: nat) => SpinorGradRhoTerm(off, fc, wfc, gradWfc, first, nCells, nQ, b, k, w)
  }

  // ---------------------------------------------------------------------
  // The band sums of the entries are the contractions at the points
  // ---------------------------------------------------------------------

  lemma ScalarRhoSums(wfc: seq<Complex>, occ: Vector, comp: nat, first: nat, nCells: nat, nQ: nat, b: nat)
    requires |occ| == b
    ensures forall c: nat, q: nat :: first <= c < nCells && q < nQ ==>
              Dot(occ, EntryTerms(ScalarRhoTerms(wfc, first, nCells, nQ, b), Flat4(comp, c, q, 0, nCells, nQ, 1), b)) ==
              CollinearDensity(occ, ScalarValues(wfc, c - first, q, nQ, b))
  {
    forall c: nat, q: nat | first <= c < nCells && q < nQ
      ensures EntryTerms(ScalarRhoTerms(wfc, first, nCells, nQ, b), Flat4(comp, c, q, 0, nCells, nQ, 1), b) ==
              DensityTerms(ScalarValues(wfc, c - first, q, nQ, b))
    {
      DecodeEntry(comp, c, q, 0, nCells, nQ, 1);
    }
  }

  lemma ScalarGradRhoSums(wfc: seq<Complex>, gradWfc: seq<Complex>, occ: Vector, comp: nat, first: nat,
                          nCells: nat, nQ: nat, b: nat)
    requires |occ| == b
    ensures forall c: nat, q: nat, dim: nat :: first <= c < nCells && q < nQ && dim < 3 ==>
              Dot(occ, EntryTerms(ScalarGradRhoTerms(wfc, gradWfc, first, nCells, nQ, b), Flat4(comp, c, q, dim, nCells, nQ, 3), b)) ==
              CollinearGradient(occ, ScalarValues(wfc, c - first, q, nQ, b), ScalarGradValues(gradWfc, c - first, dim, q, nQ, b))
  {
    forall c: nat, q: nat, dim: nat | first <= c < nCells && q < nQ && dim < 3
      ensures EntryTerms(ScalarGradRhoTerms(wfc, gradWfc, first, nCells, nQ, b), Flat4(comp, c, q, dim, nCells, nQ, 3), b) ==
              GradTerms(ScalarValues(wfc, c - first, q, nQ, b), ScalarGradValues(gradWfc, c - first, dim, q, nQ, b))
    {
      DecodeEntry(comp, c, q, dim, nCells, nQ, 3);
    }
  }

  lemma SpinorRhoSums(wfc: seq<Complex>, occ: Vector, off: nat, fc: nat, first: nat, nCells: nat, nQ: nat, b: nat)
    requires |occ| == b && off <= fc < off + 4
    ensures forall c: nat, q: nat :: first <= c < nCells && q < nQ ==>
              Dot(occ, EntryTerms(SpinorRhoTerms(off, fc, wfc, first, nCells, nQ, b), Flat4(fc, c, q, 0, nCells, nQ, 1), b)) ==
              SpinorDensity(fc - off, occ, SpinorValues(wfc, c - first, q, 0, nQ, b), SpinorValues(wfc, c - first, q, 1, nQ, b))
  {
    forall c: nat, q: nat | first <= c < nCells && q < nQ
      ensures EntryTerms(SpinorRhoTerms(off, fc, wfc, first, nCells, nQ, b), Flat4(fc, c, q, 0, nCells, nQ, 1), b) ==
              SpinorTerms(fc - off, SpinorValues(wfc, c - first, q, 0, nQ, b), SpinorValues(wfc, c - first, q, 1, nQ, b))
    {
      DecodeEntry(fc, c, q, 0, nCells, nQ, 1);
    }
  }

  lemma SpinorGradRhoSums(wfc: seq<Complex>, gradWfc: seq<Complex>, occ: Vector, off: nat, fc: nat, first: nat,
                          nCells: nat, nQ: nat, b: nat)
    requires |occ| == b && off <= fc < off + 4
    ensures forall c: nat, q: nat, dim: nat :: first <= c < nCells && q < nQ && dim < 3 ==>
              Dot(occ, EntryTerms(SpinorGradRhoTerms(off, fc, wfc, gradWfc, first, nCells, nQ, b), Flat4(fc, c, q, dim, nCells, nQ, 3), b)) ==
              SpinorGradient(fc - off, occ, SpinorValues(wfc, c - first, q, 0, nQ, b), SpinorValues(wfc, c - first, q, 1, nQ, b),
                             SpinorGradValues(gradWfc, c - first, dim, q, 0, nQ, b), SpinorGradValues(gradWfc, c - first, dim, q, 1, nQ, b))
  {
    forall c: nat, q: nat, dim: nat | first <= c < nCells && q < nQ && dim < 3
      ensures EntryTerms(SpinorGradRhoTerms(off, fc, wfc, gradWfc, first, nCells, nQ, b), Flat4(fc, c, q, dim, nCells, nQ, 3), b) ==
              SpinorGradTerms(fc - off, SpinorValues(wfc, c - first, q, 0, nQ, b), SpinorValues(wfc, c - first, q, 1, nQ, b),
                              SpinorGradValues(gradWfc, c - first, dim, q, 0, nQ, b), SpinorGradValues(gradWfc, c - first, dim, q, 1, nQ, b))
    {
      DecodeEntry(fc, c, q, dim, nCells, nQ, 3);
    }
  }

  /** rho entries are the per = 1 layout, grad rho entries the per = 3 layout. */
  lemma FieldLayouts(nCells: nat, nQ: nat)
    ensures forall comp: nat, c: nat, q: nat :: Flat4(comp, c, q, 0, nCells, nQ, 1) == RhoIndex(comp, c, q, nCells, nQ)
    ensures forall comp: nat, c: nat, q: nat, dim: nat ::
              Flat4(comp, c, q, dim, nCells, nQ, 3) == GradRhoIndex(comp, c, q, dim, nCells, nQ)
  {
    forall comp: nat, c: nat, q: nat
      ensures Flat4(comp, c, q, 0, nCells, nQ, 1) == RhoIndex(comp, c, q, nCells, nQ)
    {
      RhoIndexLayout(comp, c, q, nCells, nQ);
    }
    forall comp: nat, c: nat, q: nat, dim: nat
      ensures Flat4(comp, c, q, dim, nCells, nQ, 3) == GradRhoIndex(comp, c, q, dim, nCells, nQ)
    {
      GradRhoIndexLayout(comp, c, q, dim, nCells, nQ);
    }
  }

  // ---------------------------------------------------------------------
  // The two branches of computeRhoGradRhoFromInterpolatedValues
  // ---------------------------------------------------------------------

  /**
   * Scalar wavefunctions: spin channel spinIndex of rho (the code passes
   * rho offset by spinIndex nCells nQ) receives |psi|^2 sums, and, when the
   * gradient is evaluated, each direction of grad rho the 2 Re(conj(psi) dpsi)
   * sums.
   */
  method ContractScalar(rho: seq<real>, gradRho: seq<real>, spinIndex: nat, numSpin: nat,
                        first: nat, last: nat, nCells: nat, nQ: nat,
                        occ: Vector, wfc: seq<Complex>, gradWfc: seq<Complex>, evalGrad: bool)
    returns (rho': seq<real>, gradRho': seq<real>)
    requires spinIndex < numSpin && first <= last <= nCells
    requires InterpolatedFilled(1, wfc, gradWfc, first, last, nQ, |occ|, evalGrad)
    requires |rho| == numSpin * nCells * nQ
    requires evalGrad ==> |gradRho| == numSpin * nCells * nQ * 3
    ensures |rho'| == |rho| && |gradRho'| == |gradRho|
    ensures forall comp: nat, c: nat, q: nat :: comp < numSpin && c < nCells && q < nQ ==>
              RhoIndex(comp, c, q, nCells, nQ) < |rho'|
    ensures forall c: nat, q: nat :: first <= c < last && q < nQ ==>
              rho'[RhoIndex(spinIndex, c, q, nCells, nQ)] ==
              rho[RhoIndex(spinIndex, c, q, nCells, nQ)] + CollinearDensity(occ, ScalarValues(wfc, c - first, q, nQ, |occ|))
    ensures forall comp: nat, c: nat, q: nat ::
              comp < numSpin && c < nCells && q < nQ && (comp != spinIndex || c < first || last <= c) ==>
              rho'[RhoIndex(comp, c, q, nCells, nQ)] == rho[RhoIndex(comp, c, q, nCells, nQ)]
    ensures !evalGrad ==> gradRho' == gradRho
    ensures evalGrad ==> forall comp: nat, c: nat, q: nat, dim: nat :: comp < numSpin && c < nCells && q < nQ && dim < 3 ==>
              GradRhoIndex(comp, c, q, dim, nCells, nQ) < |gradRho'|
    ensures evalGrad ==> forall c: nat, q: nat, dim: nat :: first <= c < last && q < nQ && dim < 3 ==>
              gradRho'[GradRhoIndex(spinIndex, c, q, dim, nCells, nQ)] ==
              gradRho[GradRhoIndex(spinIndex, c, q, dim, nCells, nQ)] +
              CollinearGradient(occ, ScalarValues(wfc, c - first, q, nQ, |occ|), ScalarGradValues(gradWfc, c - first, dim, q, nQ, |occ|))
    ensures evalGrad ==> forall comp: nat, c: nat, q: nat, dim: nat ::
              comp < numSpin && c < nCells && q < nQ && dim < 3 && (comp != spinIndex || c < first || last <= c) ==>
              gradRho'[GradRhoIndex(comp, c, q, dim, nCells, nQ)] == gradRho[GradRhoIndex(comp, c, q, dim, nCells, nQ)]
  {
    var b := |occ|;
    FieldLayouts(nCells, nQ);
    ScalarRhoSums(wfc, occ, spinIndex, first, nCells, nQ, b);
    assert numSpin * nCells * nQ * 1 == numSpin * nCells * nQ;
    rho' := AccumulateComponent(rho, spinIndex, first, last, numSpin, nCells, nQ, 1, occ,
                                ScalarRhoTerms(wfc, first, nCells, nQ, b));
    gradRho' := gradRho;
    if evalGrad {
      ScalarGradRhoSums(wfc, gradWfc, occ, spinIndex, first, nCells, nQ, b);
      gradRho' := AccumulateComponent(gradRho, spinIndex, first, last, numSpin, nCells, nQ, 3, occ,
                                      ScalarGradRhoTerms(wfc, gradWfc, first, nCells, nQ, b));
    }
  }

  /** Density components written by the spinor branch: all four when non-collinear, else the total only. */
  function SpinorComponents(noncolin: bool): (n: nat)
    ensures 1 <= n <= 4
  {
    if noncolin then 4 else 1
  }

  /**
   * Spinor wavefunctions: the code passes rho offset by spinIndex nCells nQ,
   * so spinor component comp lands in component spinIndex + comp of the
   * numComp-component field, which receives the sums of
   * SpinorTerm(comp, up, down). The code updates the components band by
   * band; the model adds one component after the other, which gives every
   * entry the same sum in the same band order since the components occupy
   * disjoint entries.
   */
  method ContractSpinor(noncolin: bool, rho: seq<real>, gradRho: seq<real>, spinIndex: nat, numComp: nat,
                        first: nat, last: nat, nCells: nat, nQ: nat,
                        occ: Vector, wfc: seq<Complex>, gradWfc: seq<Complex>, evalGrad: bool)
    returns (rho': seq<real>, gradRho': seq<real>)
    requires spinIndex + SpinorComponents(noncolin) <= numComp && first <= last <= nCells
    requires InterpolatedFilled(2, wfc, gradWfc, first, last, nQ, |occ|, evalGrad)
    requires |rho| == numComp * nCells * nQ
    requires evalGrad ==> |gradRho| == numComp * nCells * nQ * 3
    ensures |rho'| == |rho| && |gradRho'| == |gradRho|
    ensures forall fc: nat, c: nat, q: nat :: fc < numComp && c < nCells && q < nQ ==>
              RhoIndex(fc, c, q, nCells, nQ) < |rho'|
    ensures forall fc: nat, c: nat, q: nat ::
              spinIndex <= fc < spinIndex + SpinorComponents(noncolin) && first <= c < last && q < nQ ==>
              rho'[RhoIndex(fc, c, q, nCells, nQ)] ==
              rho[RhoIndex(fc, c, q, nCells, nQ)] +
              SpinorDensity(fc - spinIndex, occ, SpinorValues(wfc, c - first, q, 0, nQ, |occ|),
                            SpinorValues(wfc, c - first, q, 1, nQ, |occ|))
    ensures forall fc: nat, c: nat, q: nat ::
              fc < numComp && c < nCells && q < nQ &&
              (fc < spinIndex || spinIndex + SpinorComponents(noncolin) <= fc || c < first || last <= c) ==>
              rho'[RhoIndex(fc, c, q, nCells, nQ)] == rho[RhoIndex(fc, c, q, nCells, nQ)]
    ensures !evalGrad ==> gradRho' == gradRho
    ensures evalGrad ==> forall fc: nat, c: nat, q: nat, dim: nat ::
              fc < numComp && c < nCells && q < nQ && dim < 3 ==>
              GradRhoIndex(fc, c, q, dim, nCells, nQ) < |gradRho'|
    ensures evalGrad ==> forall fc: nat, c: nat, q: nat, dim: nat ::
              spinIndex <= fc < spinIndex + SpinorComponents(noncolin) && first <= c < last && q < nQ && dim < 3 ==>
              gradRho'[GradRhoIndex(fc, c, q, dim, nCells, nQ)] ==
              gradRho[GradRhoIndex(fc, c, q, dim, nCells, nQ)] +
              SpinorGradient(fc - spinIndex, occ, SpinorValues(wfc, c - first, q, 0, nQ, |occ|),
                             SpinorValues(wfc, c - first, q, 1, nQ, |occ|),
                             SpinorGradValues(gradWfc, c - first, dim, q, 0, nQ, |occ|),
                             SpinorGradValues(gradWfc, c - first, dim, q, 1, nQ, |occ|))
    ensures evalGrad ==> forall fc: nat, c: nat, q: nat, dim: nat ::
              fc < numComp && c < nCells && q < nQ && dim < 3 &&
              (fc < spinIndex || spinIndex + SpinorComponents(noncolin) <= fc || c < first || last <= c) ==>
              gradRho'[GradRhoIndex(fc, c, q, dim, nCells, nQ)] == gradRho[GradRhoIndex(fc, c, q, dim, nCells, nQ)]
  {
    var b, numSpinor := |occ|, SpinorComponents(noncolin);
    FieldLayouts(nCells, nQ);
    assert numComp * nCells * nQ * 1 == numComp * nCells * nQ;
    EntriesInField(numComp, nCells, nQ, 1);
    EntriesInField(numComp, nCells, nQ, 3);
    rho', gradRho' := rho, gradRho;
    var comp := spinIndex;
    while comp < spinIndex + numSpinor
      invariant spinIndex <= comp <= spinIndex + numSpinor && |rho'| == |rho| && |gradRho'| == |gradRho|
      invariant forall fc: nat, c: nat, q: nat :: spinIndex <= fc < comp && first <= c < last && q < nQ ==>
                  rho'[Flat4(fc, c, q, 0, nCells, nQ, 1)] ==
                  rho[Flat4(fc, c, q, 0, nCells, nQ, 1)] +
                  Dot(occ, EntryTerms(SpinorRhoTerms(spinIndex, fc, wfc, first, nCells, nQ, b),
                                      Flat4(fc, c, q, 0, nCells, nQ, 1), b))
      invariant forall fc: nat, c: nat, q: nat ::
                  fc < numComp && c < nCells && q < nQ && (fc < spinIndex || comp <= fc || c < first || last <= c) ==>
                  rho'[Flat4(fc, c, q, 0, nCells, nQ, 1)] == rho[Flat4(fc, c, q, 0, nCells, nQ, 1)]
      invariant !evalGrad ==> gradRho' == gradRho
      invariant evalGrad ==> forall fc: nat, c: nat, q: nat, dim: nat ::
                  spinIndex <= fc < comp && first <= c < last && q < nQ && dim < 3 ==>
                  gradRho'[Flat4(fc, c, q, dim, nCells, nQ, 3)] ==
                  gradRho[Flat4(fc, c, q, dim, nCells, nQ, 3)] +
                  Dot(occ, EntryTerms(SpinorGradRhoTerms(spinIndex, fc, wfc, gradWfc, first, nCells, nQ, b),
                                      Flat4(fc, c, q, dim, nCells, nQ, 3), b))
      invariant evalGrad ==> forall fc: nat, c: nat, q: nat, dim: nat ::
                  fc < numComp && c < nCells && q < nQ && dim < 3 &&
                  (fc < spinIndex || comp <= fc || c < first || last <= c) ==>
                  gradRho'[Flat4(fc, c, q, dim, nCells, nQ, 3)] == gradRho[Flat4(fc, c, q, dim, nCells, nQ, 3)]
    {
      rho' := AccumulateComponent(rho', comp, first, last, numComp, nCells, nQ, 1, occ,
                                  SpinorRhoTerms(spinIndex, comp, wfc, first, nCells, nQ, b));
      if evalGrad {
        gradRho' := AccumulateComponent(gradRho', comp, first, last, numComp, nCells, nQ, 3, occ,
                                        SpinorGradRhoTerms(spinIndex, comp, wfc, gradWfc, first, nCells, nQ, b));
      }
      comp := comp + 1;
    }
    forall fc: nat | spinIndex <= fc < spinIndex + numSpinor
      ensures forall c: nat, q: nat :: first <= c < nCells && q < nQ ==>
                Dot(occ, EntryTerms(SpinorRhoTerms(spinIndex, fc, wfc, first, nCells, nQ, b), Flat4(fc, c, q, 0, nCells, nQ, 1), b)) ==
                SpinorDensity(fc - spinIndex, occ, SpinorValues(wfc, c - first, q, 0, nQ, b), SpinorValues(wfc, c - first, q, 1, nQ, b))
      ensures forall c: nat, q: nat, dim: nat :: first <= c < nCells && q < nQ && dim < 3 ==>
                Dot(occ, EntryTerms(SpinorGradRhoTerms(spinIndex, fc, wfc, gradWfc, first, nCells, nQ, b),
                                    Flat4(fc, c, q, dim, nCells, nQ, 3), b)) ==
                SpinorGradient(fc - spinIndex, occ, SpinorValues(wfc, c - first, q, 0, nQ, b), SpinorValues(wfc, c - first, q, 1, nQ, b),
                               SpinorGradValues(gradWfc, c - first, dim, q, 0, nQ, b), SpinorGradValues(gradWfc, c - first, dim, q, 1, nQ, b))
    {
      SpinorRhoSums(wfc, occ, spinIndex, fc, first, nCells, nQ, b);
      SpinorGradRhoSums(wfc, gradWfc, occ, spinIndex, fc, first, nCells, nQ, b);
    }
  }

  /** The field components the spinor branch writes for spin channel spinIndex. */
  predicate SpinorWrites(p: Params, spinIndex: nat, comp: nat) {
    spinIndex <= comp < spinIndex + SpinorComponents(p.noncolin)
  }

  /**
   * What component comp of rho gains at (cell c of the block, quad q): with
   * spinors, the spinor components from the spin channel's offset on; else
   * the scalar density in the spin channel's own component; nothing in the
   * other components.
   */
  function PointDensity(p: Params, spinIndex: nat, comp: nat, occ: Vector, wfc: seq<Complex>,
                        c: nat, q: nat, nQ: nat): real
  {
    if p.Spinor() then
      if SpinorWrites(p, spinIndex, comp) then
        SpinorDensity(comp - spinIndex, occ, SpinorValues(wfc, c, q, 0, nQ, |occ|), SpinorValues(wfc, c, q, 1, nQ, |occ|))
      else 0.0
    else if comp == spinIndex then CollinearDensity(occ, ScalarValues(wfc, c, q, nQ, |occ|))
    else 0.0
  }

  /** What direction dim of component comp of grad rho gains at (c, q). */
  function PointGradient(p: Params, spinIndex: nat, comp: nat, dim: nat, occ: Vector, wfc: seq<Complex>,
                         gradWfc: seq<Complex>, c: nat, q: nat, nQ: nat): real
  {
    var b := |occ|;
    if p.Spinor() then
      if SpinorWrites(p, spinIndex, comp) then
        SpinorGradient(comp - spinIndex, occ, SpinorValues(wfc, c, q, 0, nQ, b), SpinorValues(wfc, c, q, 1, nQ, b),
                       SpinorGradValues(gradWfc, c, dim, q, 0, nQ, b), SpinorGradValues(gradWfc, c, dim, q, 1, nQ, b))
      else 0.0
    else if comp == spinIndex then CollinearGradient(occ, ScalarValues(wfc, c, q, nQ, b), ScalarGradValues(gradWfc, c, dim, q, nQ, b))
    else 0.0
  }

  /**
   * The writes of the call for spin channel spinIndex stay inside rho: the
   * scalar branch writes one component, the spinor branch
   * SpinorComponents(noncolin) components from spinIndex on.
   */
  predicate WritesInside(p: Params, spinIndex: nat) {
    spinIndex < NumSpinComponents(p) &&
    (p.Spinor() ==> spinIndex + SpinorComponents(p.noncolin) <= NumRhoComponents(p))
  }

  /** The spinor branch, stated point by point. */
  method SpinorBranch(p: Params, spinIndex: nat, rho: seq<real>, gradRho: seq<real>,
                      first: nat, last: nat, nCells: nat, nQ: nat,
                      occ: Vector, wfc: seq<Complex>, gradWfc: seq<Complex>,
                      evalGrad: bool)
    returns (rho': seq<real>, gradRho': seq<real>)
    requires p.Spinor()
    requires WritesInside(p, spinIndex) && first <= last <= nCells
    requires InterpolatedFilled(NumWfnSpinors(p), wfc, gradWfc, first, last, nQ, |occ|, evalGrad)
    requires |rho| == NumRhoComponents(p) * nCells * nQ
    requires evalGrad ==> |gradRho| == NumRhoComponents(p) * nCells * nQ * 3
    ensures |rho'| == |rho| && |gradRho'| == |gradRho|
    ensures forall comp: nat, c: nat, q: nat :: comp < NumRhoComponents(p) && c < nCells && q < nQ ==>
              RhoIndex(comp, c, q, nCells, nQ) < |rho'| &&
              rho'[RhoIndex(comp, c, q, nCells, nQ)] ==
              rho[RhoIndex(comp, c, q, nCells, nQ)] +
              (if first <= c < last then PointDensity(p, spinIndex, comp, occ, wfc, c - first, q, nQ) else 0.0)
    ensures !evalGrad ==> gradRho' == gradRho
    ensures evalGrad ==> forall comp: nat, c: nat, q: nat, dim: nat ::
              comp < NumRhoComponents(p) && c < nCells && q < nQ && dim < 3 ==>
              GradRhoIndex(comp, c, q, dim, nCells, nQ) < |gradRho'| &&
              gradRho'[GradRhoIndex(comp, c, q, dim, nCells, nQ)] ==
              gradRho[GradRhoIndex(comp, c, q, dim, nCells, nQ)] +
              (if first <= c < last then PointGradient(p, spinIndex, comp, dim, occ, wfc, gradWfc, c - first, q, nQ) else 0.0)
  {
    rho', gradRho' := ContractSpinor(p.noncolin, rho, gradRho, spinIndex, NumRhoComponents(p), first, last, nCells, nQ,
                                     occ, wfc, gradWfc, evalGrad);
  }

  /** The scalar branch, stated point by point. */
  method ScalarBranch(p: Params, spinIndex: nat, rho: seq<real>, gradRho: seq<real>,
                      first: nat, last: nat, nCells: nat, nQ: nat,
                      occ: Vector, wfc: seq<Complex>, gradWfc: seq<Complex>,
                      evalGrad: bool)
    returns (rho': seq<real>, gradRho': seq<real>)
    requires !p.Spinor()
    requires WritesInside(p, spinIndex) && first <= last <= nCells
    requires InterpolatedFilled(NumWfnSpinors(p), wfc, gradWfc, first, last, nQ, |occ|, evalGrad)
    requires |rho| == NumRhoComponents(p) * nCells * nQ
    requires evalGrad ==> |gradRho| == NumRhoComponents(p) * nCells * nQ * 3
    ensures |rho'| == |rho| && |gradRho'| == |gradRho|
    ensures forall comp: nat, c: nat, q: nat :: comp < NumRhoComponents(p) && c < nCells && q < nQ ==>
              RhoIndex(comp, c, q, nCells, nQ) < |rho'| &&
              rho'[RhoIndex(comp, c, q, nCells, nQ)] ==
              rho[RhoIndex(comp, c, q, nCells, nQ)] +
              (if first <= c < last then PointDensity(p, spinIndex, comp, occ, wfc, c - first, q, nQ) else 0.0)
    ensures !evalGrad ==> gradRho' == gradRho
    ensures evalGrad ==> forall comp: nat, c: nat, q: nat, dim: nat ::
              comp < NumRhoComponents(p) && c < nCells && q < nQ && dim < 3 ==>
              GradRhoIndex(comp, c, q, dim, nCells, nQ) < |gradRho'| &&
              gradRho'[GradRhoIndex(comp, c, q, dim, nCells, nQ)] ==
              gradRho[GradRhoIndex(comp, c, q, dim, nCells, nQ)] +
              (if first <= c < last then PointGradient(p, spinIndex, comp, dim, occ, wfc, gradWfc, c - first, q, nQ) else 0.0)
  {
    rho', gradRho' := ContractScalar(rho, gradRho, spinIndex, NumSpinComponents(p), first, last, nCells, nQ,
                                     occ, wfc, gradWfc, evalGrad);
  }

  /**
   * computeRhoGradRhoFromInterpolatedValues for one cell range and band
   * block: every entry of rho (and of grad rho when evaluated) of a cell in
   * the range gains its point contribution, every other entry is unchanged.
   */
  method ComputeRhoGradRhoFromInterpolatedValues(p: Params, spinIndex: nat, rho: seq<real>, gradRho: seq<real>,
                                                 first: nat, last: nat, nCells: nat, nQ: nat,
                                                 occ: Vector, wfc: seq<Complex>, gradWfc: seq<Complex>,
                                                 evalGrad: bool)
    returns (rho': seq<real>, gradRho': seq<real>)
    requires WritesInside(p, spinIndex) && first <= last <= nCells
    requires InterpolatedFilled(NumWfnSpinors(p), wfc, gradWfc, first, last, nQ, |occ|, evalGrad)
    requires |rho| == NumRhoComponents(p) * nCells * nQ
    requires evalGrad ==> |gradRho| == NumRhoComponents(p) * nCells * nQ * 3
    ensures |rho'| == |rho| && |gradRho'| == |gradRho|
    ensures forall comp: nat, c: nat, q: nat :: comp < NumRhoComponents(p) && c < nCells && q < nQ ==>
              RhoIndex(comp, c, q, nCells, nQ) < |rho'| &&
              rho'[RhoIndex(comp, c, q, nCells, nQ)] ==
              rho[RhoIndex(comp, c, q, nCells, nQ)] +
              (if first <= c < last then PointDensity(p, spinIndex, comp, occ, wfc, c - first, q, nQ) else 0.0)
    ensures !evalGrad ==> gradRho' == gradRho
    ensures evalGrad ==> forall comp: nat, c: nat, q: nat, dim: nat ::
              comp < NumRhoComponents(p) && c < nCells && q < nQ && dim < 3 ==>
              GradRhoIndex(comp, c, q, dim, nCells, nQ) < |gradRho'| &&
              gradRho'[GradRhoIndex(comp, c, q, dim, nCells, nQ)] ==
              gradRho[GradRhoIndex(comp, c, q, dim, nCells, nQ)] +
              (if first <= c < last then PointGradient(p, spinIndex, comp, dim, occ, wfc, gradWfc, c - first, q, nQ) else 0.0)
  {
    if p.noncolin || p.hasSOC {
      rho', gradRho' := SpinorBranch(p, spinIndex, rho, gradRho, first, last, nCells, nQ, occ, wfc, gradWfc, evalGrad);
    } else {
      rho', gradRho' := ScalarBranch(p, spinIndex, rho, gradRho, first, last, nCells, nQ, occ, wfc, gradWfc, evalGrad);
    }
  }
}
