# DFT-FE density core in Dafny

This project models the numerical core of DFT-FE, a real-space finite-element
code for Kohn-Sham density functional theory. The model covers five parts:

- **Electron density assembly** from the wavefunctions (`densityCalculator.cc`):
  - how the bands are cut into blocks, and how band groups split them;
  - the occupation weight of each band, including the spectrum-split
    (fractional) pass and the constrained-magnetization step occupation;
  - how each quadrature point's density ρ and gradient ∇ρ are contracted from
    interpolated wavefunction values, for collinear, spin-polarized and
    non-collinear/spin-orbit spinors;
  - the reductions over k-point pools and band groups;
  - the recombination of the buffer into total density and magnetization.
- **Chebyshev filtering** of a subspace (`linearAlgebraOperationsOpt.cc`).
  The model follows the three-term recurrence with its scaled coefficients. It
  proves that, on an eigenvector of the operator, the filter multiplies by the
  scaled Chebyshev polynomial ratio Tₘ((λ−c)/e)/Tₘ((a₀−c)/e).
- **Lanczos upper-bound estimation** (`linearAlgebraOperationsOpt.cc`):
  - the start vector, the step recurrence and its three-term relation;
  - the tridiagonal matrix the loop fills;
  - the sort of its eigenvalues;
  - the returned lower and upper spectrum bounds.
- **Initial guess for the density** (`initRho.cc`):
  - superposition of atomic densities from atoms and periodic images, with the
    cutoff and the per-atom charge/moment factors;
  - constrained magnetization;
  - atomic gradients and the signed gradient stored per quadrature point;
  - the nodal variant, its reduction over k-point groups and its constrained
    magnetization;
  - normalization to the electron count;
  - the up/down ↔ total/magnetization recombination.
- **Finite-element basis bookkeeping** (`FEBasisOperations.cc`):
  - `init` and `reinit`;
  - the flattened cell-to-process dof map;
  - storage sizes;
  - the shape-function value and gradient layouts, with their transposes;
  - the cell mass entries and their inverses;
  - the scratch multivector pool.

Doubles are modelled as `real`. Several things are function parameters:
- the occupancy function and the radial atomic density tables;
- square roots;
- the Hamiltonian and overlap operators;
- the dense eigensolver.

Where the source would produce IEEE inf/NaN, the model returns
`Result.Failure`; where the source checks an index itself
(`FEBasisOperations.GetMultiVector`), a bad index is a `Failure` too. Reads the
source leaves unchecked are kept in range by preconditions that state the
buffer sizes the source allocates (`RhoAccumulation.InterpolatedFilled` for the
interpolated wavefunctions). Two lookup helpers read 0 past a buffer's end:
`RhoAccumulation.At`, which no read reaches under those preconditions, and
`DensityOutput.Entry` (see "## Left out").

Modules: `Numerics` (common.dfy), `SpinAlgebra`, `DensityModes`, `Tiling`,
`BandGroups`, `Occupations`, `Contraction`, `RhoAccumulation`, `DensityOutput`,
`DensityAssembly`, `ChebyshevFilter`, `Lanczos`, `InitRho`, `FEBasisOperations`.

## Model

| member | source | states |
|---|---|---|
| SpinAlgebra.SpinBasisRoundTrip | src/dft/densityCalculator.cc:510-545 | recombining the spin-up/spin-down channels into total density and magnetization, then splitting them back, returns the original channels |
| SpinAlgebra.SpinBasisRoundTripInverse | src/dft/initRho.cc:1528-1537 | splitting total/magnetization into channels and recombining returns the original pair, so the two bases are in bijection |
| DensityModes.SpinPolarizedFactor | src/dft/densityCalculator.cc:94-97 | the occupation factor is 1 exactly when the run is spin-polarized, non-collinear or spin-orbit, and 2 otherwise |
| DensityModes.NumSpinComponents | src/dft/densityCalculator.cc:98-99 | two spin components exactly for spin-polarized runs, otherwise one |
| DensityModes.NumRhoComponents | src/dft/densityCalculator.cc:100-101 | four density components for non-collinear runs, otherwise as many as spin components, and never fewer than the spin components |
| DensityModes.NumWfnSpinors | src/dft/densityCalculator.cc:103-104 | two spinor components exactly for non-collinear or spin-orbit runs |
| DensityModes.BandCapacity | src/dft/densityCalculator.cc:94-104 | for a consistent parameter set, spinPolarizedFactor × spin components × spinor components is 2 (every band holds two electrons in every mode), and spinPolarizedFactor × spin components is 1 for spinor runs and 2 otherwise |
| Tiling.DensityBlockWidth | src/dft/densityCalculator.cc:91-92 | BVec is the smaller of the Chebyshev block size and the end of band group 0's range, and is positive exactly when both are |
| Tiling.BandBlocksFrom | src/dft/densityCalculator.cc:184-188 | the blocks `(jvec, min(BVec, total − jvec))` of the band loop from a start index, each holding at most BVec bands; BandBlocksTile and BandBlocksShape state the tiling |
| Tiling.CellBlocksFrom | src/dft/densityCalculator.cc:279-287 | the cell blocks of the loop over block indices, full blocks and then the remainder block, and every block it yields is non-empty (an empty remainder is skipped) |
| Tiling.BandBlocksTile | src/dft/densityCalculator.cc:184-188 | the band loop `jvec += BVec` with block size `min(BVec, total - jvec)` visits blocks that tile [0, total) without gaps or overlaps |
| Tiling.BandBlocksShape | src/dft/densityCalculator.cc:184-188 | block i starts at i·BVec and every block except the last has exactly BVec bands |
| Tiling.CellBlocksAreBandBlocks | src/dft/densityCalculator.cc:112-116 | cell blocks built from the quotient and remainder of the cell count are exactly the blocks of the `min`-style loop |
| Tiling.CellBlocksTile | src/dft/densityCalculator.cc:279-287 | the cell-block loop covers every locally owned cell once |
| Tiling.TilesCoverExactlyOnce | src/dft/densityCalculator.cc:279-287 | in a tiling every index in range is covered by exactly one block and indices outside by none |
| Tiling.SumOverTiles | src/dft/densityCalculator.cc:184-188 | summing per-block contributions over a tiling equals the sum over the covered index range |
| Tiling.TileBlocksInRange | src/dft/densityCalculator.cc:279-287 | every block of a tiling is non-empty and lies inside the tiled range, so the copies it drives stay in bounds |
| BandGroups.OwnerUnique | src/dft/densityCalculator.cc:192-195 | with band-group bounds that partition the bands, a block end is owned by at most one group |
| BandGroups.ExactlyOneOwner | src/dft/densityCalculator.cc:192-195 | every block end in (0, total] has exactly one owning group |
| BandGroups.GroupsPartitionBlocks | src/dft/densityCalculator.cc:490-508 | summing over groups the blocks each one owns equals summing over all blocks |
| BandGroups.MainBlocksReduceToFullSum | src/dft/densityCalculator.cc:490-508 | after the band-group reduction the main pass has summed every band once |
| BandGroups.FractionalBlocksReduceToFullSum | src/dft/densityCalculator.cc:324-334 | the fractional pass, shifted to the top bands, sums every fractional band exactly once after the reduction |
| Occupations.SplitWeightsRecombine | src/dft/densityCalculator.cc:336-372 | with spectrum splitting the full weight plus the (non-positive) fractional weight equals the ordinary occupation weight |
| Occupations.MainWeightBounds | src/dft/densityCalculator.cc:197-236 | the main-pass weight lies between 0 and kWeight·spinPolarizedFactor |
| Occupations.FractionalWeightBounds | src/dft/densityCalculator.cc:336-372 | the fractional weight lies between −kWeight·spinPolarizedFactor and 0 |
| Occupations.MainWeight | src/dft/densityCalculator.cc:197-236 | the partialOccupVec entry of a main-block band: kWeight·spinPolarizedFactor under spectrum splitting; under constrained magnetization that full weight or 0 according as the eigenvalue is at most or above the spin channel's Fermi level; otherwise occupancy(eig)·kWeight·spinPolarizedFactor. No contract of its own: MainWeightBounds, ConstrainedWeightIsStep and SplitWeightsRecombine state its properties |
| Occupations.FractionalWeight | src/dft/densityCalculator.cc:336-372 | the partialOccupVec entry of a fractional-block band: −kWeight·spinPolarizedFactor above the channel Fermi level and 0 otherwise under constrained magnetization, else (occupancy(eig) − 1)·kWeight·spinPolarizedFactor. No contract of its own: FractionalWeightBounds and SplitWeightsRecombine state its properties |
| Occupations.ConstrainedWeightIsStep | src/dft/densityCalculator.cc:201-218 | under constrained magnetization the weight is zero iff the eigenvalue lies above the spin channel's Fermi level (or the k-point weight is 0), and is the full weight kWeight·spinPolarizedFactor otherwise |
| Occupations.ChannelStartIsProduct | src/dft/densityCalculator.cc:209-211 | the first eigenvalue of spin channel s sits at index total·s, the offset the code adds |
| Occupations.EigenIndexInChannel | src/dft/densityCalculator.cc:209-211 | the eigenvalue index `total·spin + jvec + i` stays inside the current spin channel's slice |
| Occupations.FractionalReadsTopBands | src/dft/densityCalculator.cc:336-372 | the fractional pass reads the eigenvalue of band `total − nfr + jvec + i`, one of the top nfr bands |
| Occupations.MainBlockWeightsAreBandWeights | src/dft/densityCalculator.cc:219-236 | entry i of the block's occupation vector is the weight of band jvec + i |
| Occupations.FractionalBlockCompletesBand | src/dft/densityCalculator.cc:336-372 | a top band's full-pass weight plus its fractional weight is its ordinary occupation weight |
| Contraction.GradTermIsDerivative | src/dft/densityCalculator.cc:717-745 | \|ψ + t·dψ\|² = \|ψ\|² + t·g + t²·\|dψ\|², where g is the gradient term the code accumulates, so g is the first-order change of the density |
| Contraction.SpinorPolarization | src/dft/densityCalculator.cc:654-702 | each spinor component term of (ψ↑+dψ↑, ψ↓+dψ↓) expands into the term of (ψ↑, ψ↓), the accumulated gradient term and the term of (dψ↑, dψ↓), so each gradient term is the first-order change of its component |
| Contraction.SpinorGradHomogeneous | src/dft/densityCalculator.cc:654-702 | each spinor gradient term is linear in the derivative: scaling (dψ↑, dψ↓) by t scales the term by t |
| Contraction.PureSpinorMagnetization | src/dft/densityCalculator.cc:636-653 | for one spinor mx² + my² + mz² = ρ²: a single state is fully polarized |
| Contraction.CollinearPolarization | src/dft/densityCalculator.cc:715-745 | the occupation-weighted density of ψ + dψ is the density of ψ plus the accumulated gradient sum plus the density of dψ |
| Contraction.CollinearDensity | src/dft/densityCalculator.cc:704-716 | the collinear density at a point, Σ_w occ[w]·\|ψ_w\|². No contract of its own: DensityNonNegative and CollinearPolarization state its properties |
| Contraction.SpinorDensity | src/dft/densityCalculator.cc:620-653 | component comp of the spinor density at a point, Σ_w occ[w]·(spinor term comp of ψ↑_w, ψ↓_w). No contract of its own: SpinorIncrements, SpinorDensityNonNegative and PureSpinorMagnetization state its properties |
| Contraction.SpinorPolarizationSummed | src/dft/densityCalculator.cc:636-702 | the same expansion holds for every spinor component after the occupation-weighted sum over bands |
| Contraction.DensityNonNegative | src/dft/densityCalculator.cc:715-716 | non-negative weights give a non-negative collinear density |
| Contraction.SpinorDensityNonNegative | src/dft/densityCalculator.cc:636-640 | non-negative weights give a non-negative spinor density |
| Contraction.SpinorIncrements | src/dft/densityCalculator.cc:636-653 | the spinor path produces four components (ρ, mz, my, mx) for non-collinear runs and only ρ otherwise, each the occupation-weighted spinor term |
| Contraction.SpinOrbitDensityIsBothComponents | src/dft/densityCalculator.cc:620-635 | with spin-orbit but no non-collinear magnetization only the density component is written, and it is the sum over both spinor components |
| Contraction.ScalarReadsInBounds | src/dft/densityCalculator.cc:704-716 | every wavefunction and gradient read in the collinear contraction is inside the interpolated buffers |
| Contraction.SpinorReadsInBounds | src/dft/densityCalculator.cc:627-635 | every spinor read is inside the interpolated buffers |
| Contraction.ReadsAreDistinct | src/dft/densityCalculator.cc:627-635 | distinct (cell, quad, band, spinor) tuples read distinct buffer slots |
| Contraction.RhoWritesInBoundsAndDistinct | src/dft/densityCalculator.cc:636-653 | every density write is inside the output block and distinct points and components write distinct slots |
| Contraction.GradRhoWritesInBounds | src/dft/densityCalculator.cc:654-702 | every gradient write is inside the gradient output |
| Contraction.GradRhoWritesDistinct | src/dft/densityCalculator.cc:654-702 | distinct (component, cell, quad, dim) tuples write distinct gradient slots |
| RhoAccumulation.AccumulateEntries | src/dft/densityCalculator.cc:704-716 | the accumulation loop adds, to every entry in the range, the weighted sum of its band terms and leaves the other entries unchanged |
| RhoAccumulation.AccumulateComponent | src/dft/densityCalculator.cc:636-653 | accumulating one density component over a cell range updates exactly that component's slots of those cells |
| RhoAccumulation.ContractScalar | src/dft/densityCalculator.cc:704-746 | the collinear contraction adds the occupation-weighted density to component spinIndex at every point of the cell range (and the gradient when requested), and leaves every other entry unchanged |
| RhoAccumulation.ContractSpinor | src/dft/densityCalculator.cc:620-703 | called on rho offset by spinIndex components, the spinor contraction adds spinor component k's occupation-weighted term (and gradient) to field component spinIndex + k at every point of the cell range, and leaves every other entry, including the other spin channel's, unchanged |
| RhoAccumulation.ComputeRhoGradRhoFromInterpolatedValues | src/dft/densityCalculator.cc:593-748 | for every mode, spin-polarized spinor runs included (the caller offsets rho by spinIndex·cells·quads, densityCalculator.cc:310-314), every density and gradient entry grows by the point's contribution inside the cell range and by nothing outside it; without gradients the gradient buffer is untouched |
| RhoAccumulation.FilledScalarReadsInRange | src/dft/densityCalculator.cc:140-155 | when the interpolated buffers have the size the source allocates for the cell range (`InterpolatedFilled`), every collinear value and gradient read of the contraction (densityCalculator.cc:711-714, 720-745) lies inside them, so no read falls on the zero padding of `At` |
| RhoAccumulation.FilledSpinorReadsInRange | src/dft/densityCalculator.cc:140-155 | likewise every spinor read, up and down components of values and gradients (densityCalculator.cc:626-633, 655-670), lies inside the buffers |
| DensityOutput.AllReduceAgrees | src/dft/densityCalculator.cc:470-489 | after an in-place all-reduce every rank holds the same vector, the entrywise sum over ranks |
| DensityOutput.AllReduceSingleRank | src/dft/densityCalculator.cc:472-473 | with one rank the reduction leaves the buffer unchanged |
| DensityOutput.AllReduceInPlace | src/dft/densityCalculator.cc:470-508 | the buffer a rank holds after `MPI_Allreduce(MPI_IN_PLACE, buf, len, MPI_SUM)`: same length, and every entry at or past len unchanged; AllReduceAgrees states the reduced prefix |
| DensityOutput.AsWrittenLengthCoversBuffer | src/dft/densityCalculator.cc:474-477 | the reduction length `cells·quads·numSpinComponents` never exceeds the buffer, covers it iff the run is not non-collinear (or the buffer is empty), and is a quarter of it in non-collinear runs |
| DensityOutput.ReduceRhoAsWritten | src/dft/densityCalculator.cc:490-508 | the as-written reduction keeps the buffer length and sums over ranks the first `cells·quads·numSpinComponents` entries |
| DensityOutput.ReduceRho | src/dft/densityCalculator.cc:490-508 | the corrected reduction over the full buffer length keeps the rank's buffer length; ReduceRhoIsTotal states that every entry becomes the sum over ranks |
| DensityOutput.NoncollinearMagnetizationNotReduced | src/dft/densityCalculator.cc:495-496 | in non-collinear mode with two band groups the as-written reduction leaves the magnetization of rank 0 unsummed |
| DensityOutput.ReduceRhoIsTotal | src/dft/densityCalculator.cc:490-508 | after the corrected reduction every rank holds the entrywise sum of all ranks' buffers, for every component |
| DensityOutput.PoolThenGroupIsTotal | src/dft/densityCalculator.cc:470-508 | reducing over k-point pools and then over band groups gives every rank the total over the whole rank grid |
| DensityOutput.NumOutputs | src/dft/densityCalculator.cc:510-577 | two outputs (total, magnetization) for spin-polarized runs, four for non-collinear runs, one otherwise |
| DensityOutput.Recombine | src/dft/densityCalculator.cc:510-577 | one output per output count, each with one entry per point; in spin-polarized runs total + magnetization is twice the up channel and total − magnetization twice the down channel |
| DensityOutput.Uncombine | src/dft/densityCalculator.cc:510-577 | rebuilds the reduced buffer from the outputs (up and down from total and magnetization when spin-polarized, the four components when non-collinear), of length outputs·points; RecombineRoundTrip states that it inverts Recombine |
| DensityOutput.RecombineRoundTrip | src/dft/densityCalculator.cc:510-577 | in every mode the recombination loses nothing: undoing it returns the component buffer |
| DensityAssembly.XIndexInBounds | src/dft/densityCalculator.cc:243-252 | the memcpy source index `nDofs·total·spinors·(numSpin·k + spin) + node·total + band`, for every node below nDofs·spinors and band below total, lies inside the wavefunction array of numK·numSpin slices, and distinct (node, band) pairs read distinct entries |
| DensityAssembly.CopyBlock | src/dft/densityCalculator.cc:243-252 | the copy loop fills the flattened block row by row with exactly the wavefunction entries of bands [jvec, jvec + size) |
| DensityAssembly.CollinearBlockValue | src/dft/densityCalculator.cc:279-287 | one block's contribution at a point is the weighted sum of |ψ|² over its bands |
| DensityAssembly.MainBlockValueIsBandSum | src/dft/densityCalculator.cc:184-287 | a main-pass block adds the band sum over its bands with their occupation weights |
| DensityAssembly.FractionalBlockValueIsBandSum | src/dft/densityCalculator.cc:379-440 | a fractional block adds the band sum over top bands with their fractional weights |
| DensityAssembly.MainPassIsBandSum | src/dft/densityCalculator.cc:184-508 | after the band loop and the band-group reduction the density is the occupation-weighted sum over all bands |
| DensityAssembly.FractionalPassIsBandSum | src/dft/densityCalculator.cc:324-440 | the fractional pass contributes the fractional-weight sum over the top nfr bands |
| DensityAssembly.SpectrumSplitIsExact | src/dft/densityCalculator.cc:324-390 | provided the bands below the top nfr are fully occupied (`FullyOccupiedBelow`: occupancy 1, or at most the channel's Fermi level under constrained magnetization) and XFrac's band j carries the term of band total − nfr + j of X (`FractionalBandsAreTopBands`), the main pass with full weights plus the fractional pass equals the ordinary occupation-weighted sum over all bands |
| DensityAssembly.ChannelDensityIsOccupationSum | src/dft/densityCalculator.cc:184-440 | for any block size and band-group partition, an unsplit spin channel's density is the ordinary occupation-weighted band sum; a split one is too, under the same two premises (`FullyOccupiedBelow` and `FractionalBandsAreTopBands`) |
| ChebyshevFilter.HXCheby | src/linAlg/linearAlgebraOperationsOpt.cc:72-73 | the operator call combines α₁·H·x + α₂·y + β·x entrywise and keeps the length |
| ChebyshevFilter.FilterCoefficients | src/linAlg/linearAlgebraOperationsOpt.cc:52-57 | c − e = a and c + e = b (centre and half-width of [a, b]), e and σ₁ are non-zero, σ₁·(a₀ − c) = e and γ·σ₁ = 2 |
| ChebyshevFilter.StepCoefficients | src/linAlg/linearAlgebraOperationsOpt.cc:79-80 | σ₂·(γ − σ) = 1, α₁·e = 2σ₂, α₂ = −σσ₂ and the shift is −c·α₁ |
| ChebyshevFilter.Filter | src/linAlg/linearAlgebraOperationsOpt.cc:42-103 | the loop succeeds iff the reference recurrence does; it then makes one operator call per degree (m of them, at least one), ends with X equal to Y, and X is the reference's last iterate |
| ChebyshevFilter.FailurePersists | src/linAlg/linearAlgebraOperationsOpt.cc:77-99 | once a step coefficient is undefined the filter result is undefined |
| ChebyshevFilter.FilterStaysOnLine | src/linAlg/linearAlgebraOperationsOpt.cc:77-99 | on an eigenvector x every iterate is a scalar multiple of x |
| ChebyshevFilter.ChebGrowth | src/linAlg/linearAlgebraOperationsOpt.cc:77-99 | for \|t\| > 1 the Chebyshev values grow strictly in absolute value with the degree |
| ChebyshevFilter.LineFilterIsChebyshev | src/linAlg/linearAlgebraOperationsOpt.cc:77-99 | with \|t₀\| > 1 the scalar recurrence never breaks down and its iterates satisfy the scaled Chebyshev relations Tₖ(t₀)·yₖ = Tₖ(t) and σₖ·Tₖ(t₀) = Tₖ₋₁(t₀) |
| ChebyshevFilter.FilterOnEigenvector | src/linAlg/linearAlgebraOperationsOpt.cc:42-103 | on an eigenvector with eigenvalue λ, after k degrees the iterate is Tₖ((λ−c)/e)/Tₖ(1/σ₁) times x (and the previous one the same ratio at k − 1) |
| ChebyshevFilter.FilterDampsOnEigenvector | src/linAlg/linearAlgebraOperationsOpt.cc:42-103 | for a₀ < a < b, the way the filter is called, \|(a₀−c)/e\| > 1, the filter never breaks down, and it maps an eigenvector x to Tₘ((λ−c)/e)/Tₘ((a₀−c)/e)·x |
| ChebyshevFilter.DegreeOneOnEigenvector | src/linAlg/linearAlgebraOperationsOpt.cc:72-73 | the first call alone maps an eigenvector x to (σ₁/e)·(λ−c)·x = ((λ−c)/(a₀−c))·x |
| Lanczos.Start | src/linAlg/linearAlgebraOperationsOpt.cc:161-184 | starting fails iff the random vector has zero norm; otherwise the state holds one α, no β, and vectors of the input's length |
| Lanczos.StartRelation | src/linAlg/linearAlgebraOperationsOpt.cc:161-184 | after a successful start, the norm times the first vector is the random vector, and H·x = α₀·x + y is the three-term relation with a zero previous vector and β = 0 |
| Lanczos.Step | src/linAlg/linearAlgebraOperationsOpt.cc:192-223 | a step fails iff the residual has zero norm; otherwise it appends one α and one β, keeping the earlier ones and the vector length |
| Lanczos.Run | src/linAlg/linearAlgebraOperationsOpt.cc:161-222 | the start and then `steps` passes of the loop: on success the state holds steps + 1 α's and steps β's and vectors of the random vector's length; it fails as soon as a step (or the start) fails. StepRelation and StartRelation state the recurrence |
| Lanczos.StepRelation | src/linAlg/linearAlgebraOperationsOpt.cc:192-223 | every successful step shifts the old vector into prev, has β·v = f (the old residual), and satisfies the three-term relation H·v = β·v_prev + α·v + f' |
| Lanczos.ResidualEstimate | src/linAlg/linearAlgebraOperationsOpt.cc:268-273 | the residual estimate is the (S-)norm of the last residual, and it is zero exactly when one more step would break down |
| Lanczos.Tridiagonal | src/linAlg/linearAlgebraOperationsOpt.cc:186-222 | the k×k column-major matrix holds the α's on the diagonal, β of step c + 1 at (column c, row c + 1) on the sub-diagonal only (the lower triangle LAPACK reads with uplo = 'L'), and zero elsewhere |
| Lanczos.WriteIndices | src/linAlg/linearAlgebraOperationsOpt.cc:219-222 | the write positions (j−1)(n+1)+1 and j(n+1) of step j are in range and address column j−1, row j (the sub-diagonal) and column j, row j (the diagonal) of the column-major matrix |
| Lanczos.FillTridiagonal | src/linAlg/linearAlgebraOperationsOpt.cc:186-222 | the write loop produces exactly the tridiagonal matrix |
| Lanczos.TridiagonalBand | src/linAlg/linearAlgebraOperationsOpt.cc:186-222 | every entry off the diagonal and the stored off-diagonal of the matrix is zero |
| Lanczos.Sort | src/linAlg/linearAlgebraOperationsOpt.cc:266 | the sorted eigenvalues are ascending and a permutation of the input |
| Lanczos.SortedEnds | src/linAlg/linearAlgebraOperationsOpt.cc:266 | after sorting the first entry is the minimum and the last the maximum of the eigenvalues |
| Lanczos.SpectrumBounds | src/linAlg/linearAlgebraOperationsOpt.cc:282-285 | the lower bound is the floor of the smallest Ritz value and the upper bound the ceiling of the largest plus the residual (divided by 10 unless the output must be reproducible) |
| Lanczos.LanczosBounds | src/linAlg/linearAlgebraOperationsOpt.cc:110-285 | the estimate fails exactly when a loop pass breaks down or the eigensolver does not return n values (n = 40 reproducible, 20 otherwise); otherwise the Ritz values are the sorted eigenvalues of the tridiagonal matrix the recurrence built, the residual is the norm of the last residual, (lower, upper) is the floor/ceiling rounding of the smallest and largest Ritz value plus the residual, and these bounds bracket every Ritz value |
| Lanczos.EstimateFrom | src/linAlg/linearAlgebraOperationsOpt.cc:225-288 | after the recurrence, the estimate fails exactly when the eigensolver does not return n values; otherwise the Ritz values are the sorted eigenvalues of the tridiagonal matrix, the residual is the norm of the last residual vector, the bounds are the floor of the smallest and the ceiling of the largest plus the residual (a tenth of it unless reproducible), the lower bound lies below every Ritz value, and the upper bound above every one when the residual is non-negative |
| InitRho.AtomFactors | src/dft/initRho.cc:523-568 | a row without factor columns gives unit charge and no moment; the charge factor is the last column when the row has one and 1 otherwise; a collinear moment is column 5; x and y moments exist only with three magnetization components |
| InitRho.ChargeColumnOnlyScalesCharge | src/dft/initRho.cc:523-568 | the extra charge column rescales only the density factor, never the moments |
| InitRho.NoncollinearMomentLength | src/dft/initRho.cc:540-566 | the non-collinear moment built from (m, θ, φ) has length \|m\| |
| InitRho.SiteValue | src/dft/initRho.cc:567-586 | a site beyond its cutoff contributes nothing, and moment components the magnetization mode lacks are zero |
| InitRho.SiteMomentsFollowDensity | src/dft/initRho.cc:567-586 | each moment component a site contributes is the atom's moment factor times the density it contributes |
| InitRho.SuperposeOfDistantSites | src/dft/initRho.cc:567-586 | sites all beyond their cutoff superpose to zero density |
| InitRho.SuperposeAppend | src/dft/initRho.cc:655-675 | adding image sites after the atoms adds their contributions to the atoms' sum |
| InitRho.Superpose | src/dft/initRho.cc:517-595 | the sum over sites of their density and moment shares; the x and y moments are 0 unless three moment components are requested, and the z moment is 0 unless one or three are |
| InitRho.ValueAt | src/dft/initRho.cc:564-675 | the value at a quadrature point is the superposition over the atoms followed by the images |
| InitRho.DistantSitesIgnored | src/dft/initRho.cc:567-586 | a point beyond every cutoff gets zero density |
| InitRho.StoreQuadValues | src/dft/initRho.cc:684-698 | the stored density is \|ρ\|; non-collinear runs store mz, my, mx; spin-polarized runs store start_magnetization × stored density under constrained magnetization and mz otherwise |
| InitRho.ConstrainedMagnetizationBounded | src/dft/initRho.cc:685-693 | with constrained magnetization the stored moment is bounded by the stored density in magnitude |
| InitRho.SiteGradient | src/dft/initRho.cc:759-842 | a site counts when it lies within its cutoff and is not skipped (floating nuclear charges skip sites closer than 1e-3); a site that does not count contributes no gradient, and the gradient is a `Failure` exactly for a counted site at distance 0, where the source divides 0 by 0 |
| InitRho.GradientSum | src/dft/initRho.cc:759-842 | summing site gradients is a `Failure` exactly when some counted site lies at distance 0 from the point |
| InitRho.GradientAtAsWritten | src/dft/initRho.cc:876-972 | the as-written gradient over atoms and images (image z component without the charge factor) is a `Failure` exactly when some counted atom or image lies at distance 0 |
| InitRho.GradientAt | src/dft/initRho.cc:876-972 | the corrected gradient over atoms and images is a `Failure` exactly when some counted atom or image lies at distance 0 |
| InitRho.ImagesGradientLikeAtoms | src/dft/initRho.cc:876-972 | the corrected gradient is the atom-style sum over atoms followed by images: an image contributes what an atom at its position would |
| InitRho.SiteGradientScalesWithCharge | src/dft/initRho.cc:805-842 | appending a charge column c multiplies a site's density gradient by c in all three directions |
| InitRho.ImageGradientMissesChargeFactor | src/dft/initRho.cc:958-972 | for an image with charge factor 2 at unit distance along z the as-written z gradient is 1 where 2 is intended |
| InitRho.SignRho | src/dft/initRho.cc:999-1011 | the sign lies in [−1, 1], is 0 iff \|ρ\| ≤ 1e-8, and is 1 iff ρ > 1e-8 |
| InitRho.StoreQuadGradients | src/dft/initRho.cc:1018-1037 | the stored density gradient is zero when the stored density is at most 1e-8 and ∇ρ when it is above; the magnetization gradients follow the same modes as the values |
| InitRho.StoredGradientVanishesOnlyAtLowDensity | src/dft/initRho.cc:999-1023 | composed with the value path, the stored density gradient is ∇ρ when \|ρ\| > 1e-8 and zero otherwise |
| InitRho.NodalPointValues | src/dft/initRho.cc:381-394 | a degree of freedom stores \|ρ\| then mz (one component) or mz, my, mx (three), and zeros otherwise |
| InitRho.NodalMatchesQuadrature | src/dft/initRho.cc:381-394 | before the nodal constraint step (initRho.cc:444-459), a degree of freedom stores what a quadrature point with the same superposition stores, in every mode except collinear spin-polarized constrained magnetization (where the quadrature path stores start_magnetization·\|ρ\|); spin-polarized non-collinear constrained runs are covered only up to that later step, which overwrites nodal component 1 |
| InitRho.GroupNodalValues | src/dft/initRho.cc:258-271 | a k-point group writes the value at the unconstrained degrees of freedom in its range and leaves 0 everywhere else |
| InitRho.NodalReductionIsSuperposition | src/dft/initRho.cc:399-408 | when the groups' ranges split the degrees of freedom, the summed vectors hold each unconstrained value exactly once and 0 at constrained ones |
| InitRho.ConstrainedNodalBounded | src/dft/initRho.cc:444-459 | the constrained nodal magnetization keeps constrained degrees of freedom and elsewhere lies within ±ρ |
| InitRho.ConstrainedNodalMatchesQuadrature | src/dft/initRho.cc:444-459 | an unconstrained degree of freedom gets the moment a quadrature point with the same density gets under constrained magnetization |
| InitRho.ConstrainNodalMagnetization | src/dft/initRho.cc:444-459 | the nodal constraint step of spin-polarized constrained runs (the source does not test for non-collinear): keeps the length and overwrites every unconstrained degree of freedom of component 1 with start_magnetization times the density; ConstrainedNodalBounded and ConstrainedNodalMatchesQuadrature state its properties |
| InitRho.ConstrainCommutesWithScaling | src/dft/initRho.cc:412-459 | constraining after the normalization scaling, as the nodal path does, equals scaling after constraining, as the quadrature path does |
| InitRho.Normalize | src/dft/initRho.cc:1560-1591 | fails iff the total charge is 0; otherwise keeps every shape, and leaves the gradients alone without a GGA functional |
| InitRho.NormalizedChargeIsElectronCount | src/dft/initRho.cc:1560-1591 | after scaling the total charge equals the electron count |
| InitRho.Charge | src/dft/initRho.cc:1565-1568 | the total charge as the JxW-weighted quadrature sum of the density (totalCharge itself is not part of this model). No contract of its own: NormalizedChargeIsElectronCount states what normalizing does to it |
| InitRho.NormalizationPreservesRatios | src/dft/initRho.cc:1560-1591 | normalization multiplies every entry (and, with GGA, every gradient entry) by the same factor: ratios between entries are kept |
| InitRho.NormalizeIdempotent | src/dft/initRho.cc:1560-1591 | normalizing an already normalized density changes nothing |
| InitRho.InterleaveChannels | src/dft/initRho.cc:1399-1420 | splitting an interleaved two-channel buffer into its channels and interleaving them again returns the buffer |
| InitRho.CombinedEntries | src/dft/initRho.cc:1399-1420 | the combined density is up+down and the magnetization up−down, for values and gradients |
| InitRho.CombineSpinChannels | src/dft/initRho.cc:1399-1420 | splits the interleaved two-channel buffer into the total and magnetization arrays, each of points·width entries; CombinedEntries states every entry and SpinChannelsRoundTrip the inverse |
| InitRho.SpinChannelsRoundTrip | src/dft/initRho.cc:1528-1537 | splitting the combined arrays back into channels returns the interleaved input |
| FEBasisOperations.Init | utils/FEBasisOperations.cc:98-137 | fails iff the update-flag and quadrature-id lists differ in length; otherwise the basis is valid, has no vectors yet, and records whether all cells are affine/cartesian |
| FEBasisOperations.Reinit | utils/FEBasisOperations.cc:345-370 | fails iff the quadrature id is absent; selects its first occurrence, keeps the cell block size when given 0 and the vector count when given 0, and rebuilds the flattened map only when the vector count changes |
| FEBasisOperations.ReinitPreservesValid | utils/FEBasisOperations.cc:345-370 | a successful reinit keeps the basis valid |
| FEBasisOperations.ReinitIdempotent | utils/FEBasisOperations.cc:345-370 | reinit with the same arguments twice equals reinit once |
| FEBasisOperations.FlattenedMap | utils/FEBasisOperations.cc:744-761 | the flattened map has one entry per cell dof, each the process dof index times the vector count |
| FEBasisOperations.FlattenedMapRecoversDofs | utils/FEBasisOperations.cc:744-761 | dividing a flattened entry by the vector count recovers the dof index, with remainder 0 |
| FEBasisOperations.FlattenedBlocksDisjoint | utils/FEBasisOperations.cc:744-761 | the vector blocks of two cell dofs share a slot iff the dofs are the same |
| FEBasisOperations.InverseJacobianSizeFactors | utils/FEBasisOperations.cc:1018-1028 | the inverse-Jacobian array holds cells × (1 or nQuads) × (3 or 9) entries, by whether cells are affine and cartesian |
| FEBasisOperations.Storage | utils/FEBasisOperations.cc:979-1025 | under its flag each array gets its size: 3·cells·quads quadrature coordinates, dofs·quads shape values, 3·dofs·quads shape gradients (internal layout the same size), 3·quads² collocation gradients, cells·quads JxW, and cells × (1 or quads Jacobians) × (3 or 9 entries) inverse Jacobians; the transposes match their tables under the transpose flag and are empty otherwise; without their flags the cleared arrays are empty, while the quadrature points, and the inverse Jacobians of affine cells, keep their previous size |
| FEBasisOperations.ValuesAndTransposeAgree | utils/FEBasisOperations.cc:1031-1047 | the transposed shape-value table holds at (i,q) what the table holds at (q,i) |
| FEBasisOperations.GradientsAndTransposeAgree | utils/FEBasisOperations.cc:1080-1089 | the transposed gradient table holds at (d,i,q) what the gradient table holds at (d,q,i) |
| FEBasisOperations.LayoutPermutation | utils/FEBasisOperations.cc:1063-1077 | the (q,d,i) and (d,q,i) index maps are mutually inverse, so the internal reordering is a permutation |
| FEBasisOperations.InternalLayout | utils/FEBasisOperations.cc:1063-1077 | with affine cells the internal gradient layout is the dimension-major table unchanged |
| FEBasisOperations.InternalLayoutEntries | utils/FEBasisOperations.cc:1063-1077 | otherwise the internal entry (q,d,i) is the dimension-major entry (d,q,i), the gradient of shape i at q in direction d |
| FEBasisOperations.CellMassEntries | utils/FEBasisOperations.cc:2045-2073 | constrained dofs get 1; otherwise mass and its square root are stored with inverses that multiply back to 1 above 1e-15 and are 0 below |
| FEBasisOperations.InverseSqrtSquared | utils/FEBasisOperations.cc:2057-2073 | above the threshold the squared inverse square root is the inverse mass |
| FEBasisOperations.CreateScratch | utils/FEBasisOperations.cc:2236-2262 | creating k scratch vectors appends k of the requested block size under the key, or starts a new entry, and leaves other keys unchanged |
| FEBasisOperations.GetMultiVector | utils/FEBasisOperations.cc:2310-2320 | fails iff the block size is absent or the index out of range; otherwise returns that scratch vector |
| FEBasisOperations.CreateThenGet | utils/FEBasisOperations.cc:2236-2320 | after creating scratch vectors of a block size, each new index returns a vector of that size |

## Left out

- MPI communication beyond the summations it performs is not modelled.
  Communicators, ranks and barriers are not modelled; an all-reduce is an
  entrywise sum over a sequence of rank buffers.
- Device (GPU) code paths and the memory-space tags are not modelled: they
  duplicate the host logic.
- Floating point is modelled as exact real arithmetic. Rounding is not
  modelled. Inputs that give inf/NaN in the source become `Failure`.
- The occupancy function (Fermi–Dirac), square roots, sin/cos and the radial
  atomic density tables are parameters. The spline and pseudopotential table
  files are not read.
- The Hamiltonian and overlap operators are parameters. `HXCheby` is modelled
  with the assumed convention dst = α₁·H·src + α₂·dst + β·src, since the
  operator class is not part of this model.
- The dense symmetric eigensolver (LAPACK) used by the Lanczos estimate is a
  parameter. The Ritz values are whatever it returns for the tridiagonal
  matrix, and the bounds are stated relative to them.
- The random start vector of the Lanczos estimate is an input.
- Lanczos.LanczosBounds, Lanczos.EstimateFrom: only the real-valued instance is modelled; the complex
  template instance is not. A zero norm of the start vector or of a residual is
  a `Failure`, where the source divides by zero. The bracketing of the Ritz
  values by the upper bound is stated only when the residual estimate is
  non-negative, since the square root is a parameter. An eigensolver that
  returns the wrong number of eigenvalues is a `Failure`; the `info` code of
  LAPACK is not inspected by the source and not modelled.
- Lanczos.Start: a zero start vector is a `Failure`, where the source divides
  by zero.
- Lanczos.Step: a zero β is a `Failure`, where the source divides by zero.
- The generalized Lanczos variant shares the model of the standard one. A
  `Variant` selects the overlap inner product and the `HXCheby`-based residual.
- Verbosity printing and timers are left out.
- ChebyshevFilter.Filter: requires a ≠ b and a₀ ≠ c, the cases where the
  source's coefficients are finite.
- deal.II machinery is not modelled:
  - matrix-free data, FEValues, quadrature rules and constraint matrices;
  - `interpolateKernel` and `distribute`.
  The quadrature point coordinates and the interpolated values are inputs.
- The band-group and k-point-pool bounds are assumed to partition the bands.
  This is stated as `IsBandPartition`.
- InitRho.SuperposeAppend: the bounding-box pre-check before the image loop is
  treated as always passing. It is an optimisation that does not change the
  sum.
- `totalCharge` is modelled as the quadrature-weighted (JxW) dot product of the
  density.
- InitRho.SiteGradient: a counted site at distance 0 is a `Failure` where the
  source divides 0 by 0 and produces a NaN. Sites closer than 1e-3 are skipped
  only with floating nuclear charges, as in the source; otherwise a nearby
  site divides by its (non-zero) distance like any other.
- InitRho.Normalize: a zero total charge is a `Failure` rather than an infinite
  scaling factor.
- The threshold of `signRho` is 1e-8. A commented-out alternative value in the
  source is ignored.
- RhoAccumulation.ComputeRhoGradRhoFromInterpolatedValues: requires the
  written components to lie inside rho (`WritesInside`). The one mode where they
  do not is spin-polarized and non-collinear at spinIndex 1: there the spinor
  branch writes components 1 to 4 of a four-component buffer, past its end. That
  out-of-range write is not modelled. It also requires the interpolated
  buffers to hold every value the range reads (`InterpolatedFilled`), as the
  source's allocation does; a shorter buffer, which the source would read past,
  is not modelled.
- DensityOutput.AllReduceInPlace: a rank whose buffer is shorter than the
  reduced length contributes 0 past its end (`Entry`). MPI requires every rank
  to pass a buffer of at least that length, and every lemma about the reduction
  assumes buffers of one common length (`SameLength`, `RankGrid`), so the
  padding is reached only outside what those lemmas state.
- DensityAssembly.SpectrumSplitIsExact: X's band terms are taken to be those of
  the eigenvectors themselves, and XFrac's to repeat the top nfr of them. The
  source only promises this when the caller fills X and XFrac that way; with
  other contents the split density is not the ordinary occupation sum, and the
  model promises nothing then. DensityAssembly.ChannelDensityIsOccupationSum
  rests on the same premises for split runs.
- Tiling.BandBlocksFrom: requires a positive block width. BVec
  (`DensityBlockWidth`) is 0 when band group 0 owns no band or the Chebyshev
  block size is 0; the source's loop `jvec += BVec` then never advances and
  does not terminate for a non-empty band range. That non-terminating run is
  not modelled; the band-block lemmas (`BandBlocksTile`, `BandBlocksShape`,
  `MainPassIsBandSum` and those built on them) hold for BVec > 0 only.
- The partial-occupancy computation itself (`getPartialOccupancy`) is a
  parameter.
- FEBasisOperations.CellMassEntries: requires a non-negative mass together with
  its square root. The NaN the source would produce for a negative mass is not
  modelled.
- FEBasisOperations.GetMultiVector: an index out of range is a `Failure`; the
  source does not check it.
- FEBasisOperations.Init: the cell block size starts at 0, where the source
  leaves it uninitialised until `reinit`.
- FEBasisOperations.CellMassEntries: the default value of the resized inverse
  arrays is taken as 0.
- These `FEBasisOperations` parts are not modelled:
  - the numerical values of Jacobians, JxW and shape functions, computed by
    deal.II (only their sizes and layouts are modelled);
  - `resizeTempStorage`, the interpolation kernels, the single-precision
    scratch pool (same logic as the double one) and
    `clearScratchMultiVectors`.

## Findings

| source | as written | input that shows it | evidently intended | confidence | as-written member | corrected member |
|---|---|---|---|---|---|---|
| src/dft/densityCalculator.cc:470-508 | both all-reduces of the density buffer use the length `cells·quads·numSpinComponents`, which in non-collinear mode is one quarter of the four-component buffer | non-collinear run, one cell with one quadrature point, two band groups whose buffers are each [0, 1, 0, 0]: rank 0 keeps mz = 1 instead of 2 | reduce `cells·quads·numRhoComponents` entries, so that every component is summed | likely; not executed | DensityOutput.NoncollinearMagnetizationNotReduced | DensityOutput.ReduceRhoIsTotal |
| src/dft/initRho.cc:958-972 | the image-charge gradient multiplies the x and y components by the atom's charge factor, but not the z component | an atom whose charge column gives factor 2, an image at distance 1 along z, unit radial slope: the z gradient is 1 instead of 2 | the z component scaled by the charge factor like the x and y components and like the atom loop | likely; not executed | InitRho.ImageGradientMissesChargeFactor | InitRho.ImagesGradientLikeAtoms |
