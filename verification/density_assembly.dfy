/**
 * How computeRhoFromPSI assembles the density of one k-point and spin
 * channel at one quadrature point (src/dft/densityCalculator.cc:184-440):
 * the bands are copied block by block out of X (or XFrac), each band group
 * contracts the blocks it owns with their occupation weights, and the band
 * groups' partial sums are added by the band-group reduction.
 *
 * The per-band term at the point is kept abstract (`terms[j]`): it is
 * |psi_j|^2 for rho, 2 Re(conj(psi_j) dpsi_j) for a gradient direction, or
 * one of the four spinor terms, as computed by the Contraction module.
 */
module DensityAssembly {
  import opened Numerics
  import opened DensityModes
  import opened Tiling
  import opened BandGroups
  import opened Occupations
  import opened Contraction

  // ---------------------------------------------------------------------
  // Copying a band block out of X
  // ---------------------------------------------------------------------

  /**
   * Where band `band` of node `node` of (k-point k, spin channel spin) lives:
   * X stores, per (k, spin), a node-major matrix with `stride` bands per node
   * (stride = total for X, Nfr for XFrac).
   */
  function XIndex(nDofs: nat, spinors: nat, stride: nat, numSpin: nat, k: nat, spin: nat, node: nat, band: nat): nat {
    nDofs * stride * spinors * (numSpin * k + spin) + node * stride + band
  }

  /** X is row-major in (k-point and spin slice, node, band). */
  lemma XIndexLayout(nDofs: nat, spinors: nat, stride: nat, numSpin: nat, k: nat, spin: nat, node: nat, band: nat)
    ensures XIndex(nDofs, spinors, stride, numSpin, k, spin, node, band) ==
            Flat3(numSpin * k + spin, node, band, nDofs * spinors, stride)
  {
    var s := numSpin * k + spin;
    assert nDofs * stride * spinors * s == s * (nDofs * spinors) * stride;
    assert (s * (nDofs * spinors) + node) * stride == s * (nDofs * spinors) * stride + node * stride;
  }

  lemma SliceBelow(numSpin: nat, numK: nat, k: nat, spin: nat)
    requires k < numK && spin < numSpin
    ensures numSpin * k + spin < numK * numSpin
  {
    assert numSpin * k + spin < numSpin * (k + 1);
    assert numSpin * (k + 1) <= numSpin * numK by {
      MulLeftMonotone(numSpin, k + 1, numK);
    }
  }

  /** Every read of the copy falls inside X, and distinct (node, band) read distinct entries. */
  lemma XIndexInBounds(nDofs: nat, spinors: nat, stride: nat, numSpin: nat, numK: nat, k: nat, spin: nat,
                       node: nat, band: nat, node': nat, band': nat)
    requires k < numK && spin < numSpin
    requires node < nDofs * spinors && band < stride && node' < nDofs * spinors && band' < stride
    ensures XIndex(nDofs, spinors, stride, numSpin, k, spin, node, band) < numK * numSpin * (nDofs * spinors) * stride
    ensures (XIndex(nDofs, spinors, stride, numSpin, k, spin, node, band) ==
             XIndex(nDofs, spinors, stride, numSpin, k, spin, node', band')) ==> node == node' && band == band'
  {
    XIndexLayout(nDofs, spinors, stride, numSpin, k, spin, node, band);
    XIndexLayout(nDofs, spinors, stride, numSpin, k, spin, node', band');
    SliceBelow(numSpin, numK, k, spin);
    Flat3Bound(numSpin * k + spin, node, band, numK * numSpin, nDofs * spinors, stride);
    if XIndex(nDofs, spinors, stride, numSpin, k, spin, node, band) ==
       XIndex(nDofs, spinors, stride, numSpin, k, spin, node', band') {
      Flat3Injective(numSpin * k + spin, node, band, numSpin * k + spin, node', band', nDofs * spinors, stride);
    }
  }

  /** The first `rows` rows of a block hold bands jvec .. jvec + size - 1 of X. */
  ghost predicate CopiedRows(blk: seq<Complex>, X: seq<Complex>, nDofs: nat, spinors: nat, stride: nat, numSpin: nat,
                             k: nat, spin: nat, jvec: nat, size: nat, rows: nat)
  {
    |blk| == rows * size &&
    forall n: nat, i: nat :: n < rows && i < size ==>
      Flat(n, i, size) < |blk| &&
      XIndex(nDofs, spinors, stride, numSpin, k, spin, n, jvec + i) < |X| &&
      blk[Flat(n, i, size)] == X[XIndex(nDofs, spinors, stride, numSpin, k, spin, n, jvec + i)]
  }

  lemma AppendRow(blk: seq<Complex>, X: seq<Complex>, nDofs: nat, spinors: nat, stride: nat, numSpin: nat, numK: nat,
                  k: nat, spin: nat, jvec: nat, size: nat, node: nat)
    requires |X| == numK * numSpin * (nDofs * spinors) * stride
    requires k < numK && spin < numSpin && 0 < size && jvec + size <= stride && node < nDofs * spinors
    requires CopiedRows(blk, X, nDofs, spinors, stride, numSpin, k, spin, jvec, size, node)
    ensures XIndex(nDofs, spinors, stride, numSpin, k, spin, node, jvec) + size <= |X|
    ensures CopiedRows(blk + X[XIndex(nDofs, spinors, stride, numSpin, k, spin, node, jvec) ..
                               XIndex(nDofs, spinors, stride, numSpin, k, spin, node, jvec) + size],
                       X, nDofs, spinors, stride, numSpin, k, spin, jvec, size, node + 1)
  {
    var base := XIndex(nDofs, spinors, stride, numSpin, k, spin, node, jvec);
    XIndexInBounds(nDofs, spinors, stride, numSpin, numK, k, spin, node, jvec + size - 1, node, jvec + size - 1);
    NewRowEntry(nDofs, spinors, stride, numSpin, k, spin, node, jvec, size - 1);
    var row := X[base .. base + size];
    var blk' := blk + row;
    assert |blk'| == (node + 1) * size;
    forall n: nat, i: nat | n < node + 1 && i < size
      ensures Flat(n, i, size) < |blk'|
      ensures XIndex(nDofs, spinors, stride, numSpin, k, spin, n, jvec + i) < |X|
      ensures blk'[Flat(n, i, size)] == X[XIndex(nDofs, spinors, stride, numSpin, k, spin, n, jvec + i)]
    {
      XIndexInBounds(nDofs, spinors, stride, numSpin, numK, k, spin, n, jvec + i, n, jvec + i);
      if n < node {
        OldEntryKept(blk, row, node, size, n, i);
      } else {
        NewEntry(blk, row, node, size, i);
        NewRowEntry(nDofs, spinors, stride, numSpin, k, spin, node, jvec, i);
      }
    }
  }

  lemma OldEntryKept(blk: seq<Complex>, row: seq<Complex>, node: nat, size: nat, n: nat, i: nat)
    requires |blk| == node * size && n < node && i < size
    ensures Flat(n, i, size) < |blk|
    ensures (blk + row)[Flat(n, i, size)] == blk[Flat(n, i, size)]
  {
    FlatBound(n, i, node, size);
  }

  lemma NewEntry(blk: seq<Complex>, row: seq<Complex>, node: nat, size: nat, i: nat)
    requires |blk| == node * size && |row| == size && i < size
    ensures Flat(node, i, size) == |blk| + i
    ensures (blk + row)[Flat(node, i, size)] == row[i]
  {
  }

  /** Entry i of the new row is read from base + i. */
  lemma NewRowEntry(nDofs: nat, spinors: nat, stride: nat, numSpin: nat, k: nat, spin: nat,
                    node: nat, jvec: nat, i: nat)
    ensures XIndex(nDofs, spinors, stride, numSpin, k, spin, node, jvec + i) ==
            XIndex(nDofs, spinors, stride, numSpin, k, spin, node, jvec) + i
  {
  }

  /**
   * The host copy of a band block: for every node, `size` consecutive bands
   * starting at jvec are copied into the node's row of the block.
   */
  method CopyBlock(X: seq<Complex>, nDofs: nat, spinors: nat, stride: nat, numSpin: nat, numK: nat,
                   k: nat, spin: nat, jvec: nat, size: nat) returns (blk: seq<Complex>)
    requires |X| == numK * numSpin * (nDofs * spinors) * stride
    requires k < numK && spin < numSpin && 0 < size && jvec + size <= stride
    ensures |blk| == nDofs * spinors * size
    ensures CopiedRows(blk, X, nDofs, spinors, stride, numSpin, k, spin, jvec, size, nDofs * spinors)
  {
    blk := [];
    var rows := nDofs * spinors;
    var node := 0;
    while node < rows
      invariant node <= rows
      invariant CopiedRows(blk, X, nDofs, spinors, stride, numSpin, k, spin, jvec, size, node)
    {
      AppendRow(blk, X, nDofs, spinors, stride, numSpin, numK, k, spin, jvec, size, node);
      var base := XIndex(nDofs, spinors, stride, numSpin, k, spin, node, jvec);
      blk := blk + X[base .. base + size];
      node := node + 1;
    }
  }

  // ---------------------------------------------------------------------
  // One spin channel of one k-point
  // ---------------------------------------------------------------------

  /** What the occupation weights of one spin channel of one k-point depend on. */
  datatype Channel = Channel(p: Params, ctx: Context, occupancy: real -> real, eigenValues: seq<real>, total: nat)
  {
    /** eigenValues[kPoint] holds the channel's total eigenvalues. */
    predicate Valid() {
      ChannelStart(total, ctx.spinIndex) + total <= |eigenValues|
    }

    /** The eigenvalue of band j of the channel. */
    function Eigenvalue(j: nat): real {
      var idx := EigenIndex(total, ctx.spinIndex, j, 0);
      if idx < |eigenValues| then eigenValues[idx] else 0.0
    }
  }

  /** Band j's main-loop weight times its term at the point. */
  function WeightedTerm(ch: Channel, split: bool, terms: Vector, j: nat): real
    requires ch.Valid() && |terms| == ch.total
  {
    if j < ch.total then BandWeight(ch.p, split, ch.ctx, ch.occupancy, ch.eigenValues, ch.total, j) * terms[j] else 0.0
  }

  function WeightedTerms(ch: Channel, split: bool, terms: Vector): nat -> real
    requires ch.Valid() && |terms| == ch.total
  {
    (j: nat) => WeightedTerm(ch, split, terms, j)
  }

  /** The fractional-pass weight of fractional band j (band total - Nfr + j of the channel). */
  function FractionalBandWeight(ch: Channel, nfr: nat, j: nat): real
    requires ch.Valid() && j < nfr <= ch.total
  {
    FractionalReadsTopBands(ch.total, nfr, ch.ctx.spinIndex, 0, j);
    EigenIndexInChannel(ch.total, ch.ctx.spinIndex + 1, ch.ctx.spinIndex, ch.total - nfr + j, 0);
    FractionalWeight(ch.p, ch.ctx, ch.occupancy, ch.eigenValues[FractionalEigenIndex(ch.total, nfr, ch.ctx.spinIndex, 0, j)])
  }

  /** Fractional band j's weight times its term at the point. */
  function FractionalWeightedTerm(ch: Channel, nfr: nat, fracTerms: Vector, j: nat): real
    requires ch.Valid() && nfr <= ch.total && |fracTerms| == nfr
  {
    if j < nfr then FractionalBandWeight(ch, nfr, j) * fracTerms[j] else 0.0
  }

  function FractionalWeightedTerms(ch: Channel, nfr: nat, fracTerms: Vector): nat -> real
    requires ch.Valid() && nfr <= ch.total && |fracTerms| == nfr
  {
    (j: nat) => FractionalWeightedTerm(ch, nfr, fracTerms, j)
  }

  // ---------------------------------------------------------------------
  // What a block contributes
  // ---------------------------------------------------------------------

  /** A main block's contribution at the point: its weights dotted with its bands' terms. */
  function MainBlockValue(ch: Channel, split: bool, terms: Vector, blk: Block): real
    requires ch.Valid() && |terms| == ch.total
  {
    if blk.End() <= ch.total then
      var w := MainBlockWeights(ch.p, split, ch.ctx, ch.occupancy, ch.eigenValues, ch.total, blk.start, blk.size);
      Dot(w, terms[blk.start .. blk.End()])
    else 0.0
  }

  /** A fractional block's contribution: fractional weights dotted with the XFrac bands' terms. */
  function FractionalBlockValue(ch: Channel, nfr: nat, fracTerms: Vector, blk: Block): real
    requires ch.Valid() && nfr <= ch.total && |fracTerms| == nfr
  {
    if blk.End() <= nfr then
      var w := FractionalBlockWeights(ch.p, ch.ctx, ch.occupancy, ch.eigenValues, ch.total, nfr, blk.start, blk.size);
      Dot(w, fracTerms[blk.start .. blk.End()])
    else 0.0
  }

  /** The collinear contraction of a block's wavefunction values is its block value on the density terms. */
  lemma CollinearBlockValue(ch: Channel, split: bool, psi: seq<Complex>, blk: Block)
    requires ch.Valid() && |psi| == ch.total && blk.End() <= ch.total
    ensures CollinearDensity(MainBlockWeights(ch.p, split, ch.ctx, ch.occupancy, ch.eigenValues, ch.total, blk.start, blk.size),
                             psi[blk.start .. blk.End()]) ==
            MainBlockValue(ch, split, DensityTerms(psi), blk)
  {
    assert DensityTerms(psi[blk.start .. blk.End()]) == DensityTerms(psi)[blk.start .. blk.End()];
  }

  /** A main block contributes the weighted terms of exactly its bands. */
  lemma MainBlockValueIsBandSum(ch: Channel, split: bool, terms: Vector, blk: Block)
    requires ch.Valid() && |terms| == ch.total && blk.End() <= ch.total
    ensures MainBlockValue(ch, split, terms, blk) == SumRange(blk.start, blk.End(), WeightedTerms(ch, split, terms))
  {
    var w := MainBlockWeights(ch.p, split, ch.ctx, ch.occupancy, ch.eigenValues, ch.total, blk.start, blk.size);
    var t := terms[blk.start .. blk.End()];
    MainBlockEntries(ch, split, terms, blk, w, t);
    DotAsSumRange(w, t, blk.start, WeightedTerms(ch, split, terms));
    assert MainBlockValue(ch, split, terms, blk) == Dot(w, t);
  }

  lemma MainBlockEntries(ch: Channel, split: bool, terms: Vector, blk: Block, w: Vector, t: Vector)
    requires ch.Valid() && |terms| == ch.total && blk.End() <= ch.total
    requires w == MainBlockWeights(ch.p, split, ch.ctx, ch.occupancy, ch.eigenValues, ch.total, blk.start, blk.size)
    requires t == terms[blk.start .. blk.End()]
    ensures ProductsFrom(w, t, blk.start, WeightedTerms(ch, split, terms))
  {
    forall i | 0 <= i < |w|
      ensures WeightedTerms(ch, split, terms)(blk.start + i) == w[i] * t[i]
    {
      MainBlockEntry(ch, split, terms, blk, i);
    }
  }

  lemma MainBlockEntry(ch: Channel, split: bool, terms: Vector, blk: Block, i: nat)
    requires ch.Valid() && |terms| == ch.total && blk.End() <= ch.total && i < blk.size
    ensures WeightedTerms(ch, split, terms)(blk.start + i) ==
            MainBlockWeights(ch.p, split, ch.ctx, ch.occupancy, ch.eigenValues, ch.total, blk.start, blk.size)[i] *
            terms[blk.start .. blk.End()][i]
  {
    MainBlockWeightsAreBandWeights(ch.p, split, ch.ctx, ch.occupancy, ch.eigenValues, ch.total, blk.start, blk.size, i);
    assert terms[blk.start .. blk.End()][i] == terms[blk.start + i];
  }

  /** A fractional block contributes the fractional weighted terms of exactly its bands. */
  lemma FractionalBlockValueIsBandSum(ch: Channel, nfr: nat, fracTerms: Vector, blk: Block)
    requires ch.Valid() && nfr <= ch.total && |fracTerms| == nfr && blk.End() <= nfr
    ensures FractionalBlockValue(ch, nfr, fracTerms, blk) ==
            SumRange(blk.start, blk.End(), FractionalWeightedTerms(ch, nfr, fracTerms))
  {
    var w := FractionalBlockWeights(ch.p, ch.ctx, ch.occupancy, ch.eigenValues, ch.total, nfr, blk.start, blk.size);
    var t := fracTerms[blk.start .. blk.End()];
    FractionalBlockEntries(ch, nfr, fracTerms, blk, w, t);
    DotAsSumRange(w, t, blk.start, FractionalWeightedTerms(ch, nfr, fracTerms));
    assert FractionalBlockValue(ch, nfr, fracTerms, blk) == Dot(w, t);
  }

  lemma FractionalBlockEntries(ch: Channel, nfr: nat, fracTerms: Vector, blk: Block, w: Vector, t: Vector)
    requires ch.Valid() && nfr <= ch.total && |fracTerms| == nfr && blk.End() <= nfr
    requires w == FractionalBlockWeights(ch.p, ch.ctx, ch.occupancy, ch.eigenValues, ch.total, nfr, blk.start, blk.size)
    requires t == fracTerms[blk.start .. blk.End()]
    ensures ProductsFrom(w, t, blk.start, FractionalWeightedTerms(ch, nfr, fracTerms))
  {
    forall i | 0 <= i < |w|
      ensures FractionalWeightedTerms(ch, nfr, fracTerms)(blk.start + i) == w[i] * t[i]
    {
      FractionalBlockEntry(ch, nfr, fracTerms, blk, i);
    }
  }

  lemma FractionalBlockEntry(ch: Channel, nfr: nat, fracTerms: Vector, blk: Block, i: nat)
    requires ch.Valid() && nfr <= ch.total && |fracTerms| == nfr && blk.End() <= nfr && i < blk.size
    ensures FractionalWeightedTerms(ch, nfr, fracTerms)(blk.start + i) ==
            FractionalBlockWeights(ch.p, ch.ctx, ch.occupancy, ch.eigenValues, ch.total, nfr, blk.start, blk.size)[i] *
            fracTerms[blk.start .. blk.End()][i]
  {
    assert FractionalEigenIndex(ch.total, nfr, ch.ctx.spinIndex, blk.start, i) ==
           FractionalEigenIndex(ch.total, nfr, ch.ctx.spinIndex, 0, blk.start + i);
    assert fracTerms[blk.start .. blk.End()][i] == fracTerms[blk.start + i];
  }

  // ---------------------------------------------------------------------
  // Band groups
  // ---------------------------------------------------------------------

  /** What band group g accumulates: the values of the blocks whose (shifted) end it owns. */
  function GroupDensity(blocks: seq<Block>, bounds: seq<nat>, g: nat, shift: nat, value: Block -> real): real
    decreases |blocks|
  {
    if |blocks| == 0 then 0.0
    else
      (if Owns(bounds, g, blocks[0].End() + shift) then value(blocks[0]) else 0.0) +
      GroupDensity(blocks[1..], bounds, g, shift, value)
  }

  /** The band-group reduction of groups 0 .. n-1. */
  function ReducedDensity(blocks: seq<Block>, bounds: seq<nat>, n: nat, shift: nat, value: Block -> real): real
    decreases n
  {
    if n == 0 then 0.0 else ReducedDensity(blocks, bounds, n - 1, shift, value) + GroupDensity(blocks, bounds, n - 1, shift, value)
  }

  /** Every block's value is the sum of h over its bands. */
  ghost predicate ValuesAreBandSums(blocks: seq<Block>, value: Block -> real, h: nat -> real) {
    forall i :: 0 <= i < |blocks| ==> value(blocks[i]) == SumRange(blocks[i].start, blocks[i].End(), h)
  }

  lemma {:induction false} GroupDensityIsContribution(blocks: seq<Block>, bounds: seq<nat>, g: nat, shift: nat,
                                                      value: Block -> real, h: nat -> real)
    requires ValuesAreBandSums(blocks, value, h)
    ensures GroupDensity(blocks, bounds, g, shift, value) == GroupContribution(blocks, bounds, g, shift, h)
    decreases |blocks|
  {
    if |blocks| > 0 {
      assert ValuesAreBandSums(blocks[1..], value, h) by {
        forall i | 0 <= i < |blocks[1..]|
          ensures value(blocks[1..][i]) == SumRange(blocks[1..][i].start, blocks[1..][i].End(), h)
        {
          assert blocks[1..][i] == blocks[i + 1];
        }
      }
      GroupDensityIsContribution(blocks[1..], bounds, g, shift, value, h);
    }
  }

  lemma {:induction false} ReducedDensityIsSumOverGroups(blocks: seq<Block>, bounds: seq<nat>, n: nat, shift: nat,
                                                         value: Block -> real, h: nat -> real)
    requires ValuesAreBandSums(blocks, value, h)
    ensures ReducedDensity(blocks, bounds, n, shift, value) == SumOverGroups(blocks, bounds, n, shift, h)
    decreases n
  {
    if n > 0 {
      ReducedDensityIsSumOverGroups(blocks, bounds, n - 1, shift, value, h);
      GroupDensityIsContribution(blocks, bounds, n - 1, shift, value, h);
    }
  }

  function MainBlockValues(ch: Channel, split: bool, terms: Vector): Block -> real
    requires ch.Valid() && |terms| == ch.total
  {
    (blk: Block) => MainBlockValue(ch, split, terms, blk)
  }

  function FractionalBlockValues(ch: Channel, nfr: nat, fracTerms: Vector): Block -> real
    requires ch.Valid() && nfr <= ch.total && |fracTerms| == nfr
  {
    (blk: Block) => FractionalBlockValue(ch, nfr, fracTerms, blk)
  }

  lemma MainValuesAreBandSums(ch: Channel, split: bool, terms: Vector, blocks: seq<Block>)
    requires ch.Valid() && |terms| == ch.total && Tiles(blocks, 0, ch.total)
    ensures ValuesAreBandSums(blocks, MainBlockValues(ch, split, terms), WeightedTerms(ch, split, terms))
  {
    forall i | 0 <= i < |blocks|
      ensures MainBlockValues(ch, split, terms)(blocks[i]) ==
              SumRange(blocks[i].start, blocks[i].End(), WeightedTerms(ch, split, terms))
    {
      TileBlocksInRange(blocks, 0, ch.total, i);
      MainBlockValueIsBandSum(ch, split, terms, blocks[i]);
    }
  }

  lemma FractionalValuesAreBandSums(ch: Channel, nfr: nat, fracTerms: Vector, blocks: seq<Block>)
    requires ch.Valid() && nfr <= ch.total && |fracTerms| == nfr && Tiles(blocks, 0, nfr)
    ensures ValuesAreBandSums(blocks, FractionalBlockValues(ch, nfr, fracTerms), FractionalWeightedTerms(ch, nfr, fracTerms))
  {
    forall i | 0 <= i < |blocks|
      ensures FractionalBlockValues(ch, nfr, fracTerms)(blocks[i]) ==
              SumRange(blocks[i].start, blocks[i].End(), FractionalWeightedTerms(ch, nfr, fracTerms))
    {
      TileBlocksInRange(blocks, 0, nfr, i);
      FractionalBlockValueIsBandSum(ch, nfr, fracTerms, blocks[i]);
    }
  }

  /**
   * The main band loop followed by the band-group reduction: the band groups
   * together add each band's weighted term exactly once.
   */
  lemma MainPassIsBandSum(ch: Channel, split: bool, terms: Vector, bounds: seq<nat>, groups: nat, bVec: nat)
    requires ch.Valid() && |terms| == ch.total
    requires IsBandPartition(bounds, groups, ch.total) && bVec > 0
    ensures ReducedDensity(BandBlocks(ch.total, bVec), bounds, groups, 0, MainBlockValues(ch, split, terms)) ==
            SumRange(0, ch.total, WeightedTerms(ch, split, terms))
  {
    var blocks := BandBlocks(ch.total, bVec);
    BandBlocksTile(0, ch.total, bVec);
    MainValuesAreBandSums(ch, split, terms, blocks);
    ReducedDensityIsSumOverGroups(blocks, bounds, groups, 0, MainBlockValues(ch, split, terms), WeightedTerms(ch, split, terms));
    MainBlocksReduceToFullSum(bounds, groups, ch.total, bVec, WeightedTerms(ch, split, terms));
  }

  /**
   * The fractional loop of the spectrum-split path followed by the
   * band-group reduction: each of the Nfr fractional bands is added once.
   */
  lemma FractionalPassIsBandSum(ch: Channel, nfr: nat, fracTerms: Vector, bounds: seq<nat>, groups: nat, bVec: nat)
    requires ch.Valid() && nfr <= ch.total && |fracTerms| == nfr
    requires IsBandPartition(bounds, groups, ch.total) && bVec > 0
    ensures ReducedDensity(BandBlocks(nfr, bVec), bounds, groups, ch.total - nfr, FractionalBlockValues(ch, nfr, fracTerms)) ==
            SumRange(0, nfr, FractionalWeightedTerms(ch, nfr, fracTerms))
  {
    var blocks := BandBlocks(nfr, bVec);
    BandBlocksTile(0, nfr, bVec);
    FractionalValuesAreBandSums(ch, nfr, fracTerms, blocks);
    ReducedDensityIsSumOverGroups(blocks, bounds, groups, ch.total - nfr, FractionalBlockValues(ch, nfr, fracTerms),
                                  FractionalWeightedTerms(ch, nfr, fracTerms));
    FractionalBlocksReduceToFullSum(bounds, groups, ch.total, nfr, bVec, FractionalWeightedTerms(ch, nfr, fracTerms));
  }

  // ---------------------------------------------------------------------
  // Spectrum splitting
  // ---------------------------------------------------------------------

  /**
   * The premise of spectrum splitting: the bands below the fractional window
   * are fully occupied (occupancy 1, or at most the spin channel's Fermi
   * level under constrained magnetisation).
   */
  ghost predicate FullyOccupiedBelow(ch: Channel, nfr: nat) {
    forall j: nat :: j + nfr < ch.total ==>
      if ch.p.constraintMagnetization then ch.Eigenvalue(j) <= ch.ctx.SpinFermiLevel()
      else ch.occupancy(ch.Eigenvalue(j)) == 1.0
  }

  /** XFrac's band j is band total - Nfr + j of X: the fractional pass sees the top bands. */
  ghost predicate FractionalBandsAreTopBands(terms: Vector, fracTerms: Vector, nfr: nat) {
    nfr <= |terms| && |fracTerms| == nfr &&
    forall j :: 0 <= j < nfr ==> fracTerms[j] == terms[|terms| - nfr + j]
  }

  lemma FullBandWeightUnchanged(ch: Channel, nfr: nat, j: nat)
    requires ch.Valid() && FullyOccupiedBelow(ch, nfr) && j + nfr < ch.total
    ensures BandWeight(ch.p, true, ch.ctx, ch.occupancy, ch.eigenValues, ch.total, j) ==
            BandWeight(ch.p, false, ch.ctx, ch.occupancy, ch.eigenValues, ch.total, j)
  {
    EigenIndexInChannel(ch.total, ch.ctx.spinIndex + 1, ch.ctx.spinIndex, j, 0);
    var eig := ch.Eigenvalue(j);
    var full := ch.ctx.kWeight * SpinPolarizedFactor(ch.p);
    if !ch.p.constraintMagnetization {
      assert ch.occupancy(eig) == 1.0;
      assert ch.occupancy(eig) * ch.ctx.kWeight * SpinPolarizedFactor(ch.p) == full;
    }
  }

  lemma DistributeRight(a: real, b: real, c: real, t: real)
    requires a + b == c
    ensures a * t + b * t == c * t
  {
  }

  /** Fractional weighted terms re-indexed to the channel's band numbers. */
  function ShiftedFractionalTerms(ch: Channel, nfr: nat, fracTerms: Vector): nat -> real
    requires ch.Valid() && nfr <= ch.total && |fracTerms| == nfr
  {
    (j: nat) => if j >= ch.total - nfr then FractionalWeightedTerm(ch, nfr, fracTerms, j - (ch.total - nfr)) else 0.0
  }

  /**
   * Spectrum splitting is exact: the main pass with full weights plus the
   * fractional pass gives every band its unsplit weight.
   */
  lemma SpectrumSplitIsExact(ch: Channel, terms: Vector, fracTerms: Vector, nfr: nat)
    requires ch.Valid() && |terms| == ch.total && nfr <= ch.total
    requires FractionalBandsAreTopBands(terms, fracTerms, nfr)
    requires FullyOccupiedBelow(ch, nfr)
    ensures SumRange(0, ch.total, WeightedTerms(ch, true, terms)) +
            SumRange(0, nfr, FractionalWeightedTerms(ch, nfr, fracTerms)) ==
            SumRange(0, ch.total, WeightedTerms(ch, false, terms))
  {
    var lo := ch.total - nfr;
    SumRangeSplit(0, lo, ch.total, WeightedTerms(ch, true, terms));
    SumRangeSplit(0, lo, ch.total, WeightedTerms(ch, false, terms));
    LowerBandsUnchanged(ch, terms, nfr);
    FractionalPassReindexed(ch, nfr, fracTerms);
    TopBandsRecombine(ch, terms, fracTerms, nfr);
  }

  /** Below the fractional window the split and unsplit passes add the same. */
  lemma LowerBandsUnchanged(ch: Channel, terms: Vector, nfr: nat)
    requires ch.Valid() && |terms| == ch.total && nfr <= ch.total
    requires FullyOccupiedBelow(ch, nfr)
    ensures SumRange(0, ch.total - nfr, WeightedTerms(ch, true, terms)) ==
            SumRange(0, ch.total - nfr, WeightedTerms(ch, false, terms))
  {
    forall j | 0 <= j < ch.total - nfr
      ensures WeightedTerms(ch, true, terms)(j) == WeightedTerms(ch, false, terms)(j)
    {
      FullBandWeightUnchanged(ch, nfr, j);
    }
    SumRangeExt(0, ch.total - nfr, WeightedTerms(ch, true, terms), WeightedTerms(ch, false, terms));
  }

  lemma FractionalPassReindexed(ch: Channel, nfr: nat, fracTerms: Vector)
    requires ch.Valid() && nfr <= ch.total && |fracTerms| == nfr
    ensures SumRange(0, nfr, FractionalWeightedTerms(ch, nfr, fracTerms)) ==
            SumRange(ch.total - nfr, ch.total, ShiftedFractionalTerms(ch, nfr, fracTerms))
  {
    var lo := ch.total - nfr;
    forall k | 0 <= k < nfr
      ensures ShiftedFractionalTerms(ch, nfr, fracTerms)(k + lo) == FractionalWeightedTerms(ch, nfr, fracTerms)(k)
    {
    }
    SumRangeShift(0, nfr, lo, FractionalWeightedTerms(ch, nfr, fracTerms), ShiftedFractionalTerms(ch, nfr, fracTerms));
  }

  /** In the window, the full weight plus the fractional correction is the unsplit weight. */
  lemma TopBandsRecombine(ch: Channel, terms: Vector, fracTerms: Vector, nfr: nat)
    requires ch.Valid() && |terms| == ch.total && nfr <= ch.total
    requires FractionalBandsAreTopBands(terms, fracTerms, nfr)
    ensures SumRange(ch.total - nfr, ch.total, WeightedTerms(ch, false, terms)) ==
            SumRange(ch.total - nfr, ch.total, WeightedTerms(ch, true, terms)) +
            SumRange(ch.total - nfr, ch.total, ShiftedFractionalTerms(ch, nfr, fracTerms))
  {
    forall j | ch.total - nfr <= j < ch.total
      ensures WeightedTerms(ch, false, terms)(j) ==
              WeightedTerms(ch, true, terms)(j) + ShiftedFractionalTerms(ch, nfr, fracTerms)(j)
    {
      TopBandRecombines(ch, terms, fracTerms, nfr, j);
    }
    SumRangeAdd(ch.total - nfr, ch.total, WeightedTerms(ch, true, terms), ShiftedFractionalTerms(ch, nfr, fracTerms),
                WeightedTerms(ch, false, terms));
  }

  lemma TopBandRecombines(ch: Channel, terms: Vector, fracTerms: Vector, nfr: nat, j: nat)
    requires ch.Valid() && |terms| == ch.total && nfr <= ch.total
    requires FractionalBandsAreTopBands(terms, fracTerms, nfr)
    requires ch.total - nfr <= j < ch.total
    ensures WeightedTerm(ch, false, terms, j) ==
            WeightedTerm(ch, true, terms, j) + FractionalWeightedTerm(ch, nfr, fracTerms, j - (ch.total - nfr))
  {
    var f := j - (ch.total - nfr);
    FractionalBlockCompletesBand(ch.p, ch.ctx, ch.occupancy, ch.eigenValues, ch.total, nfr, 0, f + 1, f);
    assert FractionalBlockWeights(ch.p, ch.ctx, ch.occupancy, ch.eigenValues, ch.total, nfr, 0, f + 1)[f] ==
           FractionalBandWeight(ch, nfr, f);
    assert fracTerms[f] == terms[j];
    DistributeRight(BandWeight(ch.p, true, ch.ctx, ch.occupancy, ch.eigenValues, ch.total, j),
                    FractionalBandWeight(ch, nfr, f),
                    BandWeight(ch.p, false, ch.ctx, ch.occupancy, ch.eigenValues, ch.total, j), terms[j]);
  }

  /**
   * The density contribution of one spin channel of one k-point at a point,
   * after the band-group reduction: the main pass, plus the fractional pass
   * when the spectrum is split.
   */
  function ChannelDensity(ch: Channel, split: bool, terms: Vector, fracTerms: Vector, nfr: nat,
                          bounds: seq<nat>, groups: nat, bVec: nat): real
    requires ch.Valid() && |terms| == ch.total && nfr <= ch.total && |fracTerms| == nfr && bVec > 0
  {
    ReducedDensity(BandBlocks(ch.total, bVec), bounds, groups, 0, MainBlockValues(ch, split, terms)) +
    (if split then ReducedDensity(BandBlocks(nfr, bVec), bounds, groups, ch.total - nfr, FractionalBlockValues(ch, nfr, fracTerms))
     else 0.0)
  }

  /**
   * Whatever the band-block size and band-group partition, and whether or
   * not the spectrum is split, the assembled value is the sum over all bands
   * of (occupancy weight) x (band term).
   */
  lemma ChannelDensityIsOccupationSum(ch: Channel, split: bool, terms: Vector, fracTerms: Vector, nfr: nat,
                                      bounds: seq<nat>, groups: nat, bVec: nat)
    requires ch.Valid() && |terms| == ch.total && nfr <= ch.total && |fracTerms| == nfr
    requires IsBandPartition(bounds, groups, ch.total) && bVec > 0
    requires split ==> FractionalBandsAreTopBands(terms, fracTerms, nfr) && FullyOccupiedBelow(ch, nfr)
    ensures ChannelDensity(ch, split, terms, fracTerms, nfr, bounds, groups, bVec) ==
            SumRange(0, ch.total, WeightedTerms(ch, false, terms))
  {
    MainPassIsBandSum(ch, split, terms, bounds, groups, bVec);
    if split {
      FractionalPassIsBandSum(ch, nfr, fracTerms, bounds, groups, bVec);
      SpectrumSplitIsExact(ch, terms, fracTerms, nfr);
    }
  }
}
