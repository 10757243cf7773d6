/**
 * Occupation weights of the density loop (src/dft/densityCalculator.cc:
 * 197-237 for the main band blocks, 336-372 for the fractional block of the
 * spectrum-split path). The Fermi-Dirac occupancy getPartialOccupancy(eig,
 * fermiEnergy, C_kb, TVal) is a parameter `occupancy`.
 */
module Occupations {
  import opened DensityModes

  /** What the weights of one k-point and spin channel depend on. */
  datatype Context = Context(
    kWeight: real,
    spinIndex: nat,
    fermiEnergyUp: real,
    fermiEnergyDown: real)
  {
    /** The Fermi level of this spin channel under constrained magnetisation. */
    function SpinFermiLevel(): real {
      if spinIndex == 0 then fermiEnergyUp else fermiEnergyDown
    }
  }

  /** Weight of a band of a main block with eigenvalue eig. */
  function MainWeight(p: Params, spectrumSplit: bool, ctx: Context, occupancy: real -> real, eig: real): real {
    var full := ctx.kWeight * SpinPolarizedFactor(p);
    if spectrumSplit then full
    else if p.constraintMagnetization then (if eig > ctx.SpinFermiLevel() then 0.0 else full)
    else occupancy(eig) * ctx.kWeight * SpinPolarizedFactor(p)
  }

  /** Weight of a band of the fractional block (spectrum split only) with eigenvalue eig. */
  function FractionalWeight(p: Params, ctx: Context, occupancy: real -> real, eig: real): real {
    if p.constraintMagnetization then
      (if eig > ctx.SpinFermiLevel() then -ctx.kWeight * SpinPolarizedFactor(p) else 0.0)
    else (occupancy(eig) - 1.0) * ctx.kWeight * SpinPolarizedFactor(p)
  }

  /**
   * Spectrum splitting is exact for the fractional bands: the full weight of
   * the main pass plus the (negative) correction of the fractional pass is
   * the weight the band gets without splitting.
   */
  lemma SplitWeightsRecombine(p: Params, ctx: Context, occupancy: real -> real, eig: real)
    ensures MainWeight(p, true, ctx, occupancy, eig) + FractionalWeight(p, ctx, occupancy, eig) ==
            MainWeight(p, false, ctx, occupancy, eig)
  {
    var full := ctx.kWeight * SpinPolarizedFactor(p);
    if !p.constraintMagnetization {
      assert full + (occupancy(eig) - 1.0) * ctx.kWeight * SpinPolarizedFactor(p) ==
             occupancy(eig) * ctx.kWeight * SpinPolarizedFactor(p);
    }
  }

  /** o k f lies in [0, k f] for o in [0, 1], k >= 0 and f in {1, 2}. */
  lemma FractionOf(o: real, k: real, f: real)
    requires 0.0 <= o <= 1.0 && k >= 0.0 && (f == 1.0 || f == 2.0)
    ensures 0.0 <= o * k * f <= k * f
  {
    assert k - o * k == (1.0 - o) * k;
  }

  /** With occupancies in [0, 1] and a non-negative k-point weight, a band's weight lies in [0, kw factor]. */
  lemma MainWeightBounds(p: Params, spectrumSplit: bool, ctx: Context, occupancy: real -> real, eig: real)
    requires ctx.kWeight >= 0.0 && 0.0 <= occupancy(eig) <= 1.0
    ensures 0.0 <= MainWeight(p, spectrumSplit, ctx, occupancy, eig) <= ctx.kWeight * SpinPolarizedFactor(p)
  {
    var o, k, f := occupancy(eig), ctx.kWeight, SpinPolarizedFactor(p);
    var w := MainWeight(p, spectrumSplit, ctx, occupancy, eig);
    NonNegativeProduct(k, f);
    if !spectrumSplit && !p.constraintMagnetization {
      assert w == o * k * f;
      FractionOf(o, k, f);
    } else {
      assert w == 0.0 || w == k * f;
    }
  }

  lemma NonNegativeProduct(a: real, b: real)
    requires a >= 0.0 && b >= 0.0
    ensures a * b >= 0.0
  {
  }

  /** The fractional correction lies in [-kw factor, 0]. */
  lemma FractionalWeightBounds(p: Params, ctx: Context, occupancy: real -> real, eig: real)
    requires ctx.kWeight >= 0.0 && 0.0 <= occupancy(eig) <= 1.0
    ensures -ctx.kWeight * SpinPolarizedFactor(p) <= FractionalWeight(p, ctx, occupancy, eig) <= 0.0
  {
    var o, k, f := occupancy(eig), ctx.kWeight, SpinPolarizedFactor(p);
    var w := FractionalWeight(p, ctx, occupancy, eig);
    NonNegativeProduct(k, f);
    if !p.constraintMagnetization {
      assert w == (o - 1.0) * k * f;
      FractionOf(1.0 - o, k, f);
      NegatedFraction(o, k, f);
    } else {
      assert w == 0.0 || w == -k * f;
    }
  }

  lemma NegatedFraction(o: real, k: real, f: real)
    ensures (o - 1.0) * k * f == -((1.0 - o) * k * f)
  {
  }

  /** Under constrained magnetisation a main band is either empty or fully occupied, by the spin channel's Fermi level. */
  lemma ConstrainedWeightIsStep(p: Params, ctx: Context, occupancy: real -> real, eig: real)
    requires p.constraintMagnetization
    ensures MainWeight(p, false, ctx, occupancy, eig) == 0.0 <==>
              (eig > ctx.SpinFermiLevel() || ctx.kWeight == 0.0)
    ensures eig <= ctx.SpinFermiLevel() ==>
              MainWeight(p, false, ctx, occupancy, eig) == ctx.kWeight * SpinPolarizedFactor(p)
  {
  }

  // ---------------------------------------------------------------------
  // Which eigenvalue a band of a block reads
  // ---------------------------------------------------------------------

  /**
   * Where spin channel s starts in eigenValues[kPoint]: the channels are
   * stored one after the other, `total` values each. Written as a sum of
   * channel lengths; ChannelStartIsProduct shows it is total * s.
   */
  function ChannelStart(total: nat, s: nat): nat
    decreases s
  {
    if s == 0 then 0 else ChannelStart(total, s - 1) + total
  }

  lemma {:induction false} ChannelStartIsProduct(total: nat, s: nat)
    ensures ChannelStart(total, s) == total * s
    decreases s
  {
    if s > 0 {
      ChannelStartIsProduct(total, s - 1);
      assert total * s == total * (s - 1) + total;
    }
  }

  /** A later channel starts no earlier than an earlier channel ends. */
  lemma {:induction false} ChannelsFollowEachOther(total: nat, s: nat, t: nat)
    requires s < t
    ensures ChannelStart(total, s) + total <= ChannelStart(total, t)
    decreases t
  {
    if s + 1 < t {
      ChannelsFollowEachOther(total, s, t - 1);
    }
  }

  /** eigenValues[kPoint] holds total values per spin channel, channel after channel. */
  function EigenIndex(total: nat, spinIndex: nat, jvec: nat, i: nat): nat {
    ChannelStart(total, spinIndex) + jvec + i
  }

  /** The fractional block reads the eigenvalue of band (total - Nfr) + jvec + i. */
  function FractionalEigenIndex(total: nat, nfr: nat, spinIndex: nat, jvec: nat, i: nat): nat
    requires nfr <= total
  {
    ChannelStart(total, spinIndex) + (total - nfr) + jvec + i
  }

  /**
   * Band jvec + i of spin channel s reads inside the spin channel's slice of
   * eigenValues[kPoint], which lies below the end of the last of numSpin
   * channels, and different bands of a channel read different entries.
   */
  lemma EigenIndexInChannel(total: nat, numSpin: nat, spinIndex: nat, jvec: nat, i: nat)
    requires spinIndex < numSpin && jvec + i < total
    ensures ChannelStart(total, spinIndex) <= EigenIndex(total, spinIndex, jvec, i) < ChannelStart(total, spinIndex) + total
    ensures EigenIndex(total, spinIndex, jvec, i) < ChannelStart(total, numSpin)
  {
    ChannelsFollowEachOther(total, spinIndex, numSpin);
  }

  lemma MulLeftMonotone(a: nat, x: nat, y: nat)
    requires x <= y
    ensures a * x <= a * y
  {
  }

  /** Fractional band j is the top band total - Nfr + j of the same channel. */
  lemma FractionalReadsTopBands(total: nat, nfr: nat, spinIndex: nat, jvec: nat, i: nat)
    requires nfr <= total && jvec + i < nfr
    ensures FractionalEigenIndex(total, nfr, spinIndex, jvec, i) == EigenIndex(total, spinIndex, total - nfr + jvec, i)
    ensures total - nfr + jvec + i < total
  {
  }

  /** The weights the host fills partialOccupVec with for a main block [jvec, jvec + size). */
  function MainBlockWeights(p: Params, spectrumSplit: bool, ctx: Context, occupancy: real -> real,
                            eigenValues: seq<real>, total: nat, jvec: nat, size: nat): (w: seq<real>)
    requires jvec + size <= total && ChannelStart(total, ctx.spinIndex) + total <= |eigenValues|
    ensures |w| == size
  {
    seq(size, i requires 0 <= i < size =>
      assert EigenIndex(total, ctx.spinIndex, jvec, i) < |eigenValues| by {
        EigenIndexInChannel(total, ctx.spinIndex + 1, ctx.spinIndex, jvec, i);
      }
      MainWeight(p, spectrumSplit, ctx, occupancy, eigenValues[EigenIndex(total, ctx.spinIndex, jvec, i)]))
  }

  /** The weights of a fractional block [jvec, jvec + size) of the Nfr top bands. */
  function FractionalBlockWeights(p: Params, ctx: Context, occupancy: real -> real,
                                  eigenValues: seq<real>, total: nat, nfr: nat, jvec: nat, size: nat): (w: seq<real>)
    requires nfr <= total && jvec + size <= nfr && ChannelStart(total, ctx.spinIndex) + total <= |eigenValues|
    ensures |w| == size
  {
    seq(size, i requires 0 <= i < size =>
      assert FractionalEigenIndex(total, nfr, ctx.spinIndex, jvec, i) < |eigenValues| by {
        FractionalReadsTopBands(total, nfr, ctx.spinIndex, jvec, i);
        EigenIndexInChannel(total, ctx.spinIndex + 1, ctx.spinIndex, total - nfr + jvec, i);
      }
      FractionalWeight(p, ctx, occupancy, eigenValues[FractionalEigenIndex(total, nfr, ctx.spinIndex, jvec, i)]))
  }

  /** The weight band j of a spin channel gets from the main loop. */
  function BandWeight(p: Params, spectrumSplit: bool, ctx: Context, occupancy: real -> real,
                      eigenValues: seq<real>, total: nat, j: nat): real
    requires j < total && ChannelStart(total, ctx.spinIndex) + total <= |eigenValues|
  {
    EigenIndexInChannel(total, ctx.spinIndex + 1, ctx.spinIndex, j, 0);
    MainWeight(p, spectrumSplit, ctx, occupancy, eigenValues[EigenIndex(total, ctx.spinIndex, j, 0)])
  }

  /** Entry i of a main block's weights is the weight of band jvec + i. */
  lemma MainBlockWeightsAreBandWeights(p: Params, spectrumSplit: bool, ctx: Context, occupancy: real -> real,
                                       eigenValues: seq<real>, total: nat, jvec: nat, size: nat, i: nat)
    requires jvec + size <= total && ChannelStart(total, ctx.spinIndex) + total <= |eigenValues| && i < size
    ensures MainBlockWeights(p, spectrumSplit, ctx, occupancy, eigenValues, total, jvec, size)[i] ==
            BandWeight(p, spectrumSplit, ctx, occupancy, eigenValues, total, jvec + i)
  {
  }

  /**
   * Entry i of a fractional block's weights, added to the split main weight
   * of the same band, gives the unsplit weight of band total - Nfr + jvec + i.
   */
  lemma FractionalBlockCompletesBand(p: Params, ctx: Context, occupancy: real -> real,
                                     eigenValues: seq<real>, total: nat, nfr: nat, jvec: nat, size: nat, i: nat)
    requires nfr <= total && jvec + size <= nfr && ChannelStart(total, ctx.spinIndex) + total <= |eigenValues| && i < size
    ensures BandWeight(p, true, ctx, occupancy, eigenValues, total, total - nfr + jvec + i) +
            FractionalBlockWeights(p, ctx, occupancy, eigenValues, total, nfr, jvec, size)[i] ==
            BandWeight(p, false, ctx, occupancy, eigenValues, total, total - nfr + jvec + i)
  {
    FractionalReadsTopBands(total, nfr, ctx.spinIndex, jvec, i);
    var eig := eigenValues[EigenIndex(total, ctx.spinIndex, total - nfr + jvec + i, 0)];
    assert FractionalEigenIndex(total, nfr, ctx.spinIndex, jvec, i) == EigenIndex(total, ctx.spinIndex, total - nfr + jvec + i, 0);
    SplitWeightsRecombine(p, ctx, occupancy, eig);
  }
}
