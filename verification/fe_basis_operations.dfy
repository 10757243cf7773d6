/**
 * Bookkeeping of the finite-element basis-operations class
 * (utils/FEBasisOperations.cc): the configuration check of init, the state
 * changes of reinit, the flattened cell-dof index map, the storage sizes
 * and layouts of the shape-function and Jacobian arrays, the per-dof
 * entries of the cell mass vectors, and the pool of scratch multivectors.
 *
 * deal.II objects (MatrixFree, FEValues, constraints) are replaced by
 * their results: the cell types, the cell-to-process dof map, the shape
 * function values and gradients as functions, the constrained test as a
 * predicate.
 */
module FEBasisOperations {
  import opened Numerics

  // ---------------------------------------------------------------------
  // Configuration (utils/FEBasisOperations.cc:95-137, 345-369)
  // ---------------------------------------------------------------------

  /** What a quadrature rule is asked to compute. */
  datatype UpdateFlags = UpdateFlags(
    values: bool,
    gradients: bool,
    transpose: bool,
    quadPoints: bool,
    jxw: bool,
    inverseJacobians: bool,
    collocationGradients: bool)

  /** The geometry class of a batch of cells, from most to least special. */
  datatype CellType = Cartesian | Affine | General

  predicate AllCartesian(cells: seq<CellType>) {
    forall i :: 0 <= i < |cells| ==> cells[i] == Cartesian
  }

  predicate AllAffine(cells: seq<CellType>) {
    forall i :: 0 <= i < |cells| ==> cells[i] != General
  }

  /** Cartesian cells are affine. */
  lemma CartesianIsAffine(cells: seq<CellType>)
    requires AllCartesian(cells)
    ensures AllAffine(cells)
  {
    forall i | 0 <= i < |cells|
      ensures cells[i] != General
    {
      assert cells[i] == Cartesian;
    }
  }

  /** The state the class keeps between calls. */
  datatype Basis = Basis(
    quadratureIDs: seq<nat>,
    updateFlags: seq<UpdateFlags>,
    allAffine: bool,
    allCartesian: bool,
    quadratureID: nat,
    quadratureIndex: nat,
    cellsBlockSize: nat,
    nVectors: nat,
    nCells: nat,
    nDofsPerCell: nat,
    cellDofMap: seq<nat>,
    flattenedMap: seq<nat>)
  {
    /**
     * The flattened map, once built (nVectors is 0 until the first reinit
     * with a block size), matches the cell-dof map and the block size.
     */
    predicate Valid() {
      |updateFlags| == |quadratureIDs| &&
      |cellDofMap| == nCells * nDofsPerCell &&
      (allCartesian ==> allAffine) &&
      (nVectors != 0 ==> flattenedMap == FlattenedMap(cellDofMap, nVectors))
    }
  }

  /**
   * init: the cell-type scan and the check that there is one set of update
   * flags per quadrature rule. The block sizes start at 0 and the flattened
   * map is not built yet.
   */
  function Init(cells: seq<CellType>, quadratureIDs: seq<nat>, updateFlags: seq<UpdateFlags>,
                nCells: nat, nDofsPerCell: nat, cellDofMap: seq<nat>): (r: Result<Basis>)
    requires |cellDofMap| == nCells * nDofsPerCell
    ensures r.Failure? <==> |updateFlags| != |quadratureIDs|
    ensures r.Success? ==> r.value.Valid() && r.value.nVectors == 0
    ensures r.Success? ==> (r.value.allAffine <==> AllAffine(cells)) && (r.value.allCartesian <==> AllCartesian(cells))
  {
    if |updateFlags| != |quadratureIDs| then
      Failure("Inconsistent size of update flags for FEBasisOperations class.")
    else
      assert AllCartesian(cells) ==> AllAffine(cells) by {
        if AllCartesian(cells) { CartesianIsAffine(cells); }
      }
      Success(Basis(quadratureIDs, updateFlags, AllAffine(cells), AllCartesian(cells),
                    0, 0, 0, 0, nCells, nDofsPerCell, cellDofMap, []))
  }

  /** Position of the first occurrence of x in s. */
  function FirstIndex(s: seq<nat>, x: nat): (k: nat)
    requires x in s
    ensures k < |s| && s[k] == x
    ensures forall j :: 0 <= j < k ==> s[j] != x
  {
    if s[0] == x then 0 else 1 + FirstIndex(s[1..], x)
  }

  /**
   * reinit: selects the quadrature rule (an unregistered one is an error),
   * keeps the previous cell block size when asked for 0, and takes a new
   * vector block size only when it is non-zero and different, rebuilding
   * the flattened map exactly then.
   */
  function Reinit(b: Basis, vecBlockSize: nat, cellsBlockSize: nat, quadratureID: nat): (r: Result<Basis>)
    ensures r.Failure? <==> quadratureID !in b.quadratureIDs
    ensures r.Success? ==> r.value.quadratureID == quadratureID
    ensures r.Success? ==> r.value.quadratureIndex < |b.quadratureIDs| &&
                           b.quadratureIDs[r.value.quadratureIndex] == quadratureID &&
                           forall j :: 0 <= j < r.value.quadratureIndex ==> b.quadratureIDs[j] != quadratureID
    ensures r.Success? ==> r.value.cellsBlockSize == (if cellsBlockSize == 0 then b.cellsBlockSize else cellsBlockSize)
    ensures r.Success? ==> r.value.nVectors == (if vecBlockSize == 0 then b.nVectors else vecBlockSize)
    ensures r.Success? ==> (r.value.flattenedMap != b.flattenedMap ==> vecBlockSize != 0 && vecBlockSize != b.nVectors)
    ensures r.Success? ==> r.value.(quadratureID := b.quadratureID, quadratureIndex := b.quadratureIndex,
                                    cellsBlockSize := b.cellsBlockSize, nVectors := b.nVectors,
                                    flattenedMap := b.flattenedMap) == b
  {
    if quadratureID !in b.quadratureIDs then
      Failure("FEBasisOperations Class not initialized with this quadrature Index.")
    else
      var b1 := b.(quadratureID := quadratureID,
                   quadratureIndex := FirstIndex(b.quadratureIDs, quadratureID),
                   cellsBlockSize := if cellsBlockSize == 0 then b.cellsBlockSize else cellsBlockSize);
      if b.nVectors != vecBlockSize && vecBlockSize != 0 then
        Success(b1.(nVectors := vecBlockSize, flattenedMap := FlattenedMap(b.cellDofMap, vecBlockSize)))
      else
        Success(b1)
  }

  /** reinit keeps the flattened map consistent with the block size. */
  lemma ReinitPreservesValid(b: Basis, vecBlockSize: nat, cellsBlockSize: nat, quadratureID: nat)
    requires b.Valid()
    ensures var r := Reinit(b, vecBlockSize, cellsBlockSize, quadratureID);
            r.Success? ==> r.value.Valid()
  {
  }

  /** Calling reinit twice with the same arguments is the same as once. */
  lemma ReinitIdempotent(b: Basis, vecBlockSize: nat, cellsBlockSize: nat, quadratureID: nat)
    requires Reinit(b, vecBlockSize, cellsBlockSize, quadratureID).Success?
    ensures var b1 := Reinit(b, vecBlockSize, cellsBlockSize, quadratureID).value;
            Reinit(b1, vecBlockSize, cellsBlockSize, quadratureID) == Success(b1)
  {
    var b1 := Reinit(b, vecBlockSize, cellsBlockSize, quadratureID).value;
    assert b1.quadratureIDs == b.quadratureIDs;
    if vecBlockSize != 0 {
      assert b1.nVectors == vecBlockSize;
    }
  }

  // ---------------------------------------------------------------------
  // Flattened index map (utils/FEBasisOperations.cc:744-767)
  // ---------------------------------------------------------------------

  /**
   * Entry i is the process-local dof of cell-dof i times the vector block
   * size: the first column of that dof in a dof-major multivector.
   */
  function FlattenedMap(cellDofMap: seq<nat>, nVectors: nat): (m: seq<nat>)
    ensures |m| == |cellDofMap|
    ensures forall i :: 0 <= i < |m| ==> m[i] == Flat(cellDofMap[i], 0, nVectors)
  {
    seq(|cellDofMap|, i requires 0 <= i < |cellDofMap| => cellDofMap[i] * nVectors)
  }

  /** The dof is recovered from a flattened entry by dividing by the block size. */
  lemma FlattenedMapRecoversDofs(cellDofMap: seq<nat>, nVectors: nat, i: nat)
    requires nVectors > 0 && i < |cellDofMap|
    ensures FlattenedMap(cellDofMap, nVectors)[i] / nVectors == cellDofMap[i]
    ensures FlattenedMap(cellDofMap, nVectors)[i] % nVectors == 0
  {
    FlatDivMod(cellDofMap[i], 0, nVectors);
  }

  /**
   * The vector blocks [m[i], m[i] + nVectors) of two cell-dofs coincide
   * when the dofs do and are disjoint otherwise.
   */
  lemma FlattenedBlocksDisjoint(cellDofMap: seq<nat>, nVectors: nat, i: nat, j: nat, u: nat, v: nat)
    requires i < |cellDofMap| && j < |cellDofMap| && u < nVectors && v < nVectors
    ensures var m := FlattenedMap(cellDofMap, nVectors);
            m[i] + u == m[j] + v <==> cellDofMap[i] == cellDofMap[j] && u == v
  {
    var m := FlattenedMap(cellDofMap, nVectors);
    assert m[i] + u == Flat(cellDofMap[i], u, nVectors);
    assert m[j] + v == Flat(cellDofMap[j], v, nVectors);
    if m[i] + u == m[j] + v {
      FlatInjective(cellDofMap[i], u, cellDofMap[j], v, nVectors);
    }
  }

  // ---------------------------------------------------------------------
  // Storage sizes (utils/FEBasisOperations.cc:978-1025)
  // ---------------------------------------------------------------------

  /** Inverse Jacobians per cell: one for affine cells, one per quadrature point otherwise. */
  function JacobiansPerCell(allAffine: bool, nQuads: nat): (n: nat)
    ensures allAffine ==> n == 1
    ensures !allAffine ==> n == nQuads
  {
    if allAffine then 1 else nQuads
  }

  /** Entries of one stored inverse Jacobian: the diagonal for cartesian cells, else the 3x3 matrix. */
  function EntriesPerJacobian(allCartesian: bool): (n: nat)
    ensures n == 3 || n == 9
    ensures n == 3 <==> allCartesian
  {
    if allCartesian then 3 else 9
  }

  /** Size of the inverse-Jacobian array, as the resize call states it. */
  function InverseJacobianSize(allAffine: bool, allCartesian: bool, nCells: nat, nQuads: nat): nat {
    if allCartesian then nCells * 3
    else if allAffine then nCells * 9
    else nCells * 9 * nQuads
  }

  /** The inverse-Jacobian array holds every cell's Jacobians, each with its entries. */
  lemma InverseJacobianSizeFactors(allAffine: bool, allCartesian: bool, nCells: nat, nQuads: nat)
    requires allCartesian ==> allAffine
    ensures InverseJacobianSize(allAffine, allCartesian, nCells, nQuads) ==
            nCells * JacobiansPerCell(allAffine, nQuads) * EntriesPerJacobian(allCartesian)
  {
    if !allAffine {
      assert nCells * 9 * nQuads == nCells * nQuads * 9;
    }
  }

  /** Sizes of the per-quadrature arrays. */
  datatype StorageSizes = StorageSizes(
    quadPoints: nat,
    shapeValues: nat,
    shapeValuesTranspose: nat,
    shapeGradients: nat,
    shapeGradientsInternal: nat,
    shapeGradientsTranspose: nat,
    collocationGradients: nat,
    jxw: nat,
    inverseJacobians: nat)

  /**
   * The sizes one pass of the storage loop gives the arrays of a quadrature
   * rule with nQuads points, from the sizes prev they had before. The arrays
   * it clears are empty when their flag is off. The quadrature points are
   * resized only under their flag, and the inverse Jacobians are cleared only
   * for non-affine cells (affine cells share the array of the first rule), so
   * without their flags these keep their previous size.
   */
  function Storage(f: UpdateFlags, nCells: nat, nQuads: nat, nDofs: nat, allAffine: bool, allCartesian: bool,
                   prev: StorageSizes): (s: StorageSizes)
    ensures f.quadPoints ==> s.quadPoints == 3 * nCells * nQuads
    ensures !f.quadPoints ==> s.quadPoints == prev.quadPoints
    ensures f.values ==> s.shapeValues == nDofs * nQuads
    ensures s.shapeValuesTranspose == (if f.transpose then s.shapeValues else 0)
    ensures f.gradients ==> s.shapeGradients == 3 * nDofs * nQuads
    ensures s.shapeGradientsInternal == s.shapeGradients
    ensures s.shapeGradientsTranspose == (if f.transpose then s.shapeGradients else 0)
    ensures f.collocationGradients ==> s.collocationGradients == 3 * nQuads * nQuads
    ensures f.jxw ==> s.jxw == nCells * nQuads
    ensures !f.values ==> s.shapeValues == 0
    ensures !f.gradients ==> s.shapeGradients == 0
    ensures !f.collocationGradients ==> s.collocationGradients == 0
    ensures !f.jxw ==> s.jxw == 0
    ensures f.inverseJacobians && (allCartesian ==> allAffine) ==>
              s.inverseJacobians == nCells * JacobiansPerCell(allAffine, nQuads) * EntriesPerJacobian(allCartesian)
    ensures !f.inverseJacobians ==> s.inverseJacobians == (if allAffine then prev.inverseJacobians else 0)
  {
    StorageSizes(
      if f.quadPoints then 3 * nCells * nQuads else prev.quadPoints,
      if f.values then nDofs * nQuads else 0,
      if f.values && f.transpose then nDofs * nQuads else 0,
      if f.gradients then 3 * nDofs * nQuads else 0,
      if f.gradients then 3 * nDofs * nQuads else 0,
      if f.gradients && f.transpose then 3 * nDofs * nQuads else 0,
      if f.collocationGradients then 3 * nQuads * nQuads else 0,
      if f.jxw then nCells * nQuads else 0,
      InverseJacobianStorage(f.inverseJacobians, nCells, nQuads, allAffine, allCartesian, prev.inverseJacobians))
  }

  /**
   * Inverse-Jacobian storage: resized when requested; otherwise kept for
   * affine meshes and cleared for non-affine ones.
   */
  function InverseJacobianStorage(requested: bool, nCells: nat, nQuads: nat, allAffine: bool, allCartesian: bool,
                                  prev: nat): (r: nat)
    ensures requested && (allCartesian ==> allAffine) ==>
              r == nCells * JacobiansPerCell(allAffine, nQuads) * EntriesPerJacobian(allCartesian)
    ensures !requested ==> r == (if allAffine then prev else 0)
  {
    if requested then
      assert (allCartesian ==> allAffine) ==>
               InverseJacobianSize(allAffine, allCartesian, nCells, nQuads) ==
               nCells * JacobiansPerCell(allAffine, nQuads) * EntriesPerJacobian(allCartesian) by {
        if allCartesian ==> allAffine {
          InverseJacobianSizeFactors(allAffine, allCartesian, nCells, nQuads);
        }
      }
      InverseJacobianSize(allAffine, allCartesian, nCells, nQuads)
    else if allAffine then prev
    else 0
  }

  // ---------------------------------------------------------------------
  // Shape-function layouts (utils/FEBasisOperations.cc:1031-1090)
  // ---------------------------------------------------------------------

  function ValueEntry(shape: (nat, nat) -> real, nQuads: nat, nDofs: nat, k: nat): real
    requires k < nQuads * nDofs
  {
    FlatSurjective(k, nQuads, nDofs);
    shape(k % nDofs, k / nDofs)
  }

  /** Shape values, quadrature-point major: entry [q * nDofs + i] is N_i(x_q). */
  function ShapeValues(shape: (nat, nat) -> real, nQuads: nat, nDofs: nat): (v: Vector)
    ensures |v| == nQuads * nDofs
  {
    seq(nQuads * nDofs, k requires 0 <= k < nQuads * nDofs => ValueEntry(shape, nQuads, nDofs, k))
  }

  /** The transposed table, dof major: entry [i * nQuads + q] is N_i(x_q). */
  function ShapeValuesTranspose(shape: (nat, nat) -> real, nQuads: nat, nDofs: nat): (v: Vector)
    ensures |v| == nDofs * nQuads
  {
    seq(nDofs * nQuads, k requires 0 <= k < nDofs * nQuads => TransposeEntry(shape, nQuads, nDofs, k))
  }

  function TransposeEntry(shape: (nat, nat) -> real, nQuads: nat, nDofs: nat, k: nat): real
    requires k < nDofs * nQuads
  {
    FlatSurjective(k, nDofs, nQuads);
    shape(k / nQuads, k % nQuads)
  }

  /** The two tables hold the same numbers at transposed positions. */
  lemma ValuesAndTransposeAgree(shape: (nat, nat) -> real, nQuads: nat, nDofs: nat, q: nat, i: nat)
    requires q < nQuads && i < nDofs
    ensures Flat(q, i, nDofs) < nQuads * nDofs && Flat(i, q, nQuads) < nDofs * nQuads
    ensures ShapeValues(shape, nQuads, nDofs)[Flat(q, i, nDofs)] == shape(i, q)
    ensures ShapeValuesTranspose(shape, nQuads, nDofs)[Flat(i, q, nQuads)] == shape(i, q)
  {
    FlatBound(q, i, nQuads, nDofs);
    FlatBound(i, q, nDofs, nQuads);
    FlatDivMod(q, i, nDofs);
    FlatDivMod(i, q, nQuads);
  }

  /** Position in the internal gradient layout of (quadrature point, direction, dof). */
  function InternalIndex(q: nat, d: nat, i: nat, nDofs: nat): nat {
    Flat3(q, d, i, 3, nDofs)
  }

  /** Position in the direction-major gradient layout of (direction, quadrature point, dof). */
  function DimMajorIndex(d: nat, q: nat, i: nat, nQuads: nat, nDofs: nat): nat {
    Flat3(d, q, i, nQuads, nDofs)
  }

  /** Outer, middle and inner coordinate of position k in a layout with inner extents n2, n3. */
  function Outer3(k: nat, n2: nat, n3: nat): nat
    requires n2 > 0 && n3 > 0
  {
    (k / n3) / n2
  }

  function Middle3(k: nat, n2: nat, n3: nat): nat
    requires n2 > 0 && n3 > 0
  {
    (k / n3) % n2
  }

  function Inner3(k: nat, n3: nat): nat
    requires n3 > 0
  {
    k % n3
  }

  /** Every position of an n1 x n2 x n3 layout is one triple. */
  lemma Unflatten3(k: nat, n1: nat, n2: nat, n3: nat)
    requires k < n1 * n2 * n3
    ensures n2 > 0 && n3 > 0
    ensures Outer3(k, n2, n3) < n1 && Middle3(k, n2, n3) < n2 && Inner3(k, n3) < n3
    ensures Flat3(Outer3(k, n2, n3), Middle3(k, n2, n3), Inner3(k, n3), n2, n3) == k
  {
    FlatSurjective(k, n1 * n2, n3);
    FlatSurjective(k / n3, n1, n2);
  }

  /** The coordinates of a triple's position are the triple. */
  lemma Flatten3(a: nat, b: nat, c: nat, n2: nat, n3: nat)
    requires b < n2 && c < n3
    ensures Outer3(Flat3(a, b, c, n2, n3), n2, n3) == a
    ensures Middle3(Flat3(a, b, c, n2, n3), n2, n3) == b
    ensures Inner3(Flat3(a, b, c, n2, n3), n3) == c
  {
    FlatDivMod(Flat(a, b, n2), c, n3);
    FlatDivMod(a, b, n2);
  }

  /** The direction-major position of internal position k. */
  function ToDimMajor(k: nat, nQuads: nat, nDofs: nat): (j: nat)
    requires k < nQuads * 3 * nDofs
    ensures j < 3 * nQuads * nDofs
  {
    Unflatten3(k, nQuads, 3, nDofs);
    var q, d, i := Outer3(k, 3, nDofs), Middle3(k, 3, nDofs), Inner3(k, nDofs);
    Flat3Bound(d, q, i, 3, nQuads, nDofs);
    DimMajorIndex(d, q, i, nQuads, nDofs)
  }

  /** The internal position of direction-major position j. */
  function ToInternal(j: nat, nQuads: nat, nDofs: nat): (k: nat)
    requires j < 3 * nQuads * nDofs
    ensures k < nQuads * 3 * nDofs
  {
    Unflatten3(j, 3, nQuads, nDofs);
    var d, q, i := Outer3(j, nQuads, nDofs), Middle3(j, nQuads, nDofs), Inner3(j, nDofs);
    Flat3Bound(q, d, i, nQuads, 3, nDofs);
    InternalIndex(q, d, i, nDofs)
  }

  /** The reordering sends (q, d, i) to (d, q, i). */
  lemma ToDimMajorOfTriple(nQuads: nat, nDofs: nat, q: nat, d: nat, i: nat)
    requires q < nQuads && d < 3 && i < nDofs
    ensures InternalIndex(q, d, i, nDofs) < nQuads * 3 * nDofs
    ensures ToDimMajor(InternalIndex(q, d, i, nDofs), nQuads, nDofs) == DimMajorIndex(d, q, i, nQuads, nDofs)
  {
    Flat3Bound(q, d, i, nQuads, 3, nDofs);
    Flatten3(q, d, i, 3, nDofs);
  }

  /**
   * The reordering is a bijection of [0, 3 nQuads nDofs): the two index
   * maps are inverse to each other.
   */
  lemma LayoutPermutation(nQuads: nat, nDofs: nat, k: nat, j: nat)
    requires k < nQuads * 3 * nDofs && j < 3 * nQuads * nDofs
    ensures ToInternal(ToDimMajor(k, nQuads, nDofs), nQuads, nDofs) == k
    ensures ToDimMajor(ToInternal(j, nQuads, nDofs), nQuads, nDofs) == j
  {
    Unflatten3(k, nQuads, 3, nDofs);
    var q, d, i := Outer3(k, 3, nDofs), Middle3(k, 3, nDofs), Inner3(k, nDofs);
    Flatten3(d, q, i, nQuads, nDofs);
    Unflatten3(j, 3, nQuads, nDofs);
    var d', q', i' := Outer3(j, nQuads, nDofs), Middle3(j, nQuads, nDofs), Inner3(j, nDofs);
    Flatten3(q', d', i', 3, nDofs);
  }

  function GradientEntry(grad: (nat, nat, nat) -> real, nQuads: nat, nDofs: nat, j: nat): real
    requires j < 3 * nQuads * nDofs
  {
    Unflatten3(j, 3, nQuads, nDofs);
    grad(Inner3(j, nDofs), Middle3(j, nQuads, nDofs), Outer3(j, nQuads, nDofs))
  }

  /** Shape gradients, direction major: entry [d nQuads nDofs + q nDofs + i] is dN_i/dx_d at x_q. */
  function ShapeGradients(grad: (nat, nat, nat) -> real, nQuads: nat, nDofs: nat): (v: Vector)
    ensures |v| == 3 * nQuads * nDofs
  {
    seq(3 * nQuads * nDofs, j requires 0 <= j < 3 * nQuads * nDofs => GradientEntry(grad, nQuads, nDofs, j))
  }

  function GradientTransposeEntry(grad: (nat, nat, nat) -> real, nQuads: nat, nDofs: nat, j: nat): real
    requires j < 3 * nDofs * nQuads
  {
    Unflatten3(j, 3, nDofs, nQuads);
    grad(Middle3(j, nDofs, nQuads), Inner3(j, nQuads), Outer3(j, nDofs, nQuads))
  }

  /** The transposed gradients: entry [d nQuads nDofs + i nQuads + q] is dN_i/dx_d at x_q. */
  function ShapeGradientsTranspose(grad: (nat, nat, nat) -> real, nQuads: nat, nDofs: nat): (v: Vector)
    ensures |v| == 3 * nDofs * nQuads
  {
    seq(3 * nDofs * nQuads, j requires 0 <= j < 3 * nDofs * nQuads => GradientTransposeEntry(grad, nQuads, nDofs, j))
  }

  /** The gradient table and its transpose hold the same numbers at transposed positions. */
  lemma GradientsAndTransposeAgree(grad: (nat, nat, nat) -> real, nQuads: nat, nDofs: nat, d: nat, q: nat, i: nat)
    requires d < 3 && q < nQuads && i < nDofs
    ensures Flat3(d, q, i, nQuads, nDofs) < 3 * nQuads * nDofs && Flat3(d, i, q, nDofs, nQuads) < 3 * nDofs * nQuads
    ensures ShapeGradients(grad, nQuads, nDofs)[Flat3(d, q, i, nQuads, nDofs)] == grad(i, q, d)
    ensures ShapeGradientsTranspose(grad, nQuads, nDofs)[Flat3(d, i, q, nDofs, nQuads)] == grad(i, q, d)
  {
    Flat3Bound(d, q, i, 3, nQuads, nDofs);
    Flat3Bound(d, i, q, 3, nDofs, nQuads);
    Flatten3(d, q, i, nQuads, nDofs);
    Flatten3(d, i, q, nDofs, nQuads);
  }

  /**
   * The internal layout: a copy for affine cells, otherwise quadrature
   * point major with the three directions of one point side by side.
   */
  function InternalLayout(dimMajor: Vector, allAffine: bool, nQuads: nat, nDofs: nat): (v: Vector)
    requires |dimMajor| == 3 * nQuads * nDofs
    ensures |v| == |dimMajor|
    ensures allAffine ==> v == dimMajor
  {
    if allAffine then dimMajor
    else
      assert nQuads * 3 * nDofs == 3 * nQuads * nDofs;
      seq(nQuads * 3 * nDofs, k requires 0 <= k < nQuads * 3 * nDofs => dimMajor[ToDimMajor(k, nQuads, nDofs)])
  }

  /**
   * For non-affine cells, internal entry (q, d, i) is the direction-major
   * entry (d, q, i): the gradient of N_i in direction d at x_q.
   */
  lemma InternalLayoutEntries(grad: (nat, nat, nat) -> real, nQuads: nat, nDofs: nat, q: nat, d: nat, i: nat)
    requires q < nQuads && d < 3 && i < nDofs
    ensures InternalIndex(q, d, i, nDofs) < 3 * nQuads * nDofs
    ensures DimMajorIndex(d, q, i, nQuads, nDofs) < 3 * nQuads * nDofs
    ensures var dm := ShapeGradients(grad, nQuads, nDofs);
            InternalLayout(dm, false, nQuads, nDofs)[InternalIndex(q, d, i, nDofs)] == dm[DimMajorIndex(d, q, i, nQuads, nDofs)] &&
            dm[DimMajorIndex(d, q, i, nQuads, nDofs)] == grad(i, q, d)
  {
    Flat3Bound(q, d, i, nQuads, 3, nDofs);
    Flat3Bound(d, q, i, 3, nQuads, nDofs);
    ToDimMajorOfTriple(nQuads, nDofs, q, d, i);
    Flatten3(d, q, i, nQuads, nDofs);
  }

  // ---------------------------------------------------------------------
  // Cell mass vectors (utils/FEBasisOperations.cc:2045-2073)
  // ---------------------------------------------------------------------

  /** Below this magnitude a mass entry has no stored inverse. */
  const MassThreshold: real := 0.000000000000001

  datatype MassEntries = MassEntries(mass: real, inverse: real, sqrtMass: real, inverseSqrt: real)

  /**
   * The four cell arrays at one cell dof. A constrained dof gets 1 in all
   * four; otherwise the mass and its square root are stored, and the
   * inverses only when the mass exceeds 1e-15 in size (else they keep the
   * 0 the arrays were sized with). The square root is supplied by the
   * caller.
   */
  function CellMassEntries(constrained: bool, m: real, sqrtM: real): (e: MassEntries)
    requires !constrained ==> m >= 0.0 && sqrtM >= 0.0 && sqrtM * sqrtM == m
    ensures constrained ==> e == MassEntries(1.0, 1.0, 1.0, 1.0)
    ensures e.sqrtMass * e.sqrtMass == e.mass
    ensures !constrained ==> e.mass == m
    ensures Abs(e.mass) > MassThreshold ==> e.mass * e.inverse == 1.0 && e.sqrtMass * e.inverseSqrt == 1.0
    ensures !constrained && Abs(m) <= MassThreshold ==> e.inverse == 0.0 && e.inverseSqrt == 0.0
  {
    if constrained then MassEntries(1.0, 1.0, 1.0, 1.0)
    else if Abs(m) > MassThreshold then
      assert sqrtM != 0.0;
      MassEntries(m, 1.0 / m, sqrtM, 1.0 / sqrtM)
    else MassEntries(m, 0.0, sqrtM, 0.0)
  }

  /** Where the inverse is stored, the inverse square root squared is the inverse. */
  lemma InverseSqrtSquared(constrained: bool, m: real, sqrtM: real)
    requires !constrained ==> m >= 0.0 && sqrtM >= 0.0 && sqrtM * sqrtM == m
    ensures var e := CellMassEntries(constrained, m, sqrtM);
            e.inverseSqrt * e.inverseSqrt == e.inverse
  {
    var e := CellMassEntries(constrained, m, sqrtM);
    if !constrained && Abs(m) > MassThreshold {
      assert sqrtM != 0.0;
      calc {
        e.inverseSqrt * e.inverseSqrt;
        (1.0 / sqrtM) * (1.0 / sqrtM);
        1.0 / (sqrtM * sqrtM);
        1.0 / m;
      }
    }
  }

  // ---------------------------------------------------------------------
  // Scratch multivectors (utils/FEBasisOperations.cc:2235-2261, 2309-2318)
  // ---------------------------------------------------------------------

  /**
   * The scratch pool: for each block size, the list of multivectors, each
   * represented by the block size it was reinitialised with.
   */
  type ScratchPool = map<nat, seq<nat>>

  /** Every vector of the pool has the block size it is filed under. */
  ghost predicate PoolConsistent(pool: ScratchPool) {
    forall b :: b in pool ==> forall i :: 0 <= i < |pool[b]| ==> pool[b][i] == b
  }

  /**
   * createScratchMultiVectors: the first request for a block size creates
   * numMultiVecs vectors, a later one grows the list by numMultiVecs; all
   * of the list is reinitialised with the block size.
   */
  function CreateScratch(pool: ScratchPool, blockSize: nat, numMultiVecs: nat): (r: ScratchPool)
    ensures blockSize in r
    ensures |r[blockSize]| == (if blockSize in pool then |pool[blockSize]| else 0) + numMultiVecs
    ensures forall i :: 0 <= i < |r[blockSize]| ==> r[blockSize][i] == blockSize
    ensures forall b :: b != blockSize ==> (b in r <==> b in pool) && (b in pool ==> r[b] == pool[b])
  {
    var n := if blockSize in pool then |pool[blockSize]| + numMultiVecs else numMultiVecs;
    pool[blockSize := seq(n, _ => blockSize)]
  }

  /** getMultiVector: a block size with no list is an error. */
  function GetMultiVector(pool: ScratchPool, blockSize: nat, index: nat): (r: Result<nat>)
    ensures r.Failure? <==> blockSize !in pool || index >= |pool[blockSize]|
    ensures r.Success? ==> r.value == pool[blockSize][index]
  {
    if blockSize !in pool then Failure("MultiVector not found in scratch storage.")
    else if index >= |pool[blockSize]| then Failure("index beyond the scratch list")
    else Success(pool[blockSize][index])
  }

  /**
   * After a request, every index below the new list length yields a
   * vector of the requested block size, and the pool stays consistent.
   */
  lemma CreateThenGet(pool: ScratchPool, blockSize: nat, numMultiVecs: nat, index: nat)
    requires PoolConsistent(pool)
    ensures var r := CreateScratch(pool, blockSize, numMultiVecs);
            PoolConsistent(r) &&
            (index < (if blockSize in pool then |pool[blockSize]| else 0) + numMultiVecs ==>
               GetMultiVector(r, blockSize, index) == Success(blockSize))
  {
    var r := CreateScratch(pool, blockSize, numMultiVecs);
    forall b | b in r
      ensures forall i :: 0 <= i < |r[b]| ==> r[b][i] == b
    {
      if b != blockSize {
        assert r[b] == pool[b];
      }
    }
  }
}
