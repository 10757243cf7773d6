/**
 * Tiling of index ranges into consecutive blocks, as done by the density
 * calculator for bands (blocks of BVec wavefunctions, the last one shorter)
 * and for cells (full blocks of cellsBlockSize plus a remainder block that
 * is skipped when empty).
 */
module Tiling {
  import opened Numerics

  /** A half-open range [start, start + size). */
  datatype Block = Block(start: nat, size: nat)
  {
    function End(): nat {
      start + size
    }

    predicate Contains(j: nat) {
      start <= j < start + size
    }
  }

  /** The blocks are non-empty, consecutive, start at lo and end exactly at hi. */
  ghost predicate Tiles(blocks: seq<Block>, lo: nat, hi: nat)
    decreases |blocks|
  {
    if |blocks| == 0 then lo == hi
    else
      blocks[0].start == lo && blocks[0].size > 0 && blocks[0].End() <= hi &&
      Tiles(blocks[1..], blocks[0].End(), hi)
  }

  /** Number of blocks containing j. */
  function Covering(blocks: seq<Block>, j: nat): nat
    decreases |blocks|
  {
    if |blocks| == 0 then 0
    else (if blocks[0].Contains(j) then 1 else 0) + Covering(blocks[1..], j)
  }

  /** Sum of g over every index of every block, block by block. */
  function SumOverBlocks(blocks: seq<Block>, g: nat -> real): real
    decreases |blocks|
  {
    if |blocks| == 0 then 0.0
    else SumRange(blocks[0].start, blocks[0].End(), g) + SumOverBlocks(blocks[1..], g)
  }

  // ---------------------------------------------------------------------
  // Band blocks: jvec = start, start + B, ... while jvec < total,
  // each of size min(B, total - jvec).
  // ---------------------------------------------------------------------

  function BandBlocksFrom(start: nat, total: nat, blockSize: nat): (r: seq<Block>)
    requires blockSize > 0
    ensures forall i :: 0 <= i < |r| ==> r[i].size <= blockSize
    decreases if start < total then total - start else 0
  {
    if start >= total then []
    else [Block(start, MinNat(blockSize, total - start))] + BandBlocksFrom(start + blockSize, total, blockSize)
  }

  /** The band blocks of the density loop over all totalNumWaveFunctions bands. */
  function BandBlocks(total: nat, blockSize: nat): seq<Block>
    requires blockSize > 0
  {
    BandBlocksFrom(0, total, blockSize)
  }

  /**
   * BVec of the density loop: the Chebyshev block size, capped by the end of
   * band group 0's range. It is positive, so that the band loop advances,
   * exactly when both are.
   */
  function DensityBlockWidth(chebyBlockSize: nat, bandGroupBounds: seq<nat>): (r: nat)
    requires |bandGroupBounds| >= 2
    ensures r <= chebyBlockSize && r <= bandGroupBounds[1]
    ensures r == chebyBlockSize || r == bandGroupBounds[1]
    ensures r > 0 <==> chebyBlockSize > 0 && bandGroupBounds[1] > 0
  {
    MinNat(chebyBlockSize, bandGroupBounds[1])
  }

  lemma {:induction false} BandBlocksTile(start: nat, total: nat, blockSize: nat)
    requires blockSize > 0 && start <= total
    ensures Tiles(BandBlocksFrom(start, total, blockSize), start, total)
    decreases total - start
  {
    if start < total {
      var r := BandBlocksFrom(start, total, blockSize);
      assert r[1..] == BandBlocksFrom(start + blockSize, total, blockSize);
      if start + blockSize <= total {
        BandBlocksTile(start + blockSize, total, blockSize);
      } else {
        assert r[1..] == [];
      }
    }
  }

  /** Block i starts at start + i B, and every block but the last has the full size B. */
  ghost predicate Regular(r: seq<Block>, start: nat, blockSize: nat) {
    forall i :: 0 <= i < |r| ==>
      r[i].start == start + i * blockSize && (i < |r| - 1 ==> r[i].size == blockSize)
  }

  lemma {:induction false} BandBlocksShape(start: nat, total: nat, blockSize: nat)
    requires blockSize > 0
    ensures Regular(BandBlocksFrom(start, total, blockSize), start, blockSize)
    decreases if start < total then total - start else 0
  {
    if start < total {
      var r := BandBlocksFrom(start, total, blockSize);
      var rest := BandBlocksFrom(start + blockSize, total, blockSize);
      BandBlocksShape(start + blockSize, total, blockSize);
      assert r[1..] == rest;
      forall i | 0 <= i < |r|
        ensures r[i].start == start + i * blockSize
        ensures i < |r| - 1 ==> r[i].size == blockSize
      {
        if i > 0 {
          assert r[i] == rest[i - 1];
          assert rest[i - 1].start == start + blockSize + (i - 1) * blockSize;
          assert (i - 1) * blockSize + blockSize == i * blockSize;
          if i < |r| - 1 {
            assert i - 1 < |rest| - 1;
          }
        } else if |r| > 1 {
          assert start + blockSize < total;
        }
      }
    }
  }

  // ---------------------------------------------------------------------
  // Cell blocks: for iblock in 0 .. numCellBlocks (inclusive), size is
  // cellsBlockSize except for the last, which is the remainder; a block of
  // size 0 is skipped.
  // ---------------------------------------------------------------------

  function CellBlocksFrom(iblock: nat, numCellBlocks: nat, cellsBlockSize: nat, rem: nat): (r: seq<Block>)
    ensures forall i :: 0 <= i < |r| ==> r[i].size > 0
    decreases numCellBlocks + 1 - iblock
  {
    if iblock > numCellBlocks then []
    else
      var size := if iblock == numCellBlocks then rem else cellsBlockSize;
      (if size > 0 then [Block(iblock * cellsBlockSize, size)] else []) +
      CellBlocksFrom(iblock + 1, numCellBlocks, cellsBlockSize, rem)
  }

  /** The cell blocks of the density loop over nCells locally owned cells. */
  function CellBlocks(nCells: nat, cellsBlockSize: nat): seq<Block>
    requires cellsBlockSize > 0
  {
    var numCellBlocks := nCells / cellsBlockSize;
    CellBlocksFrom(0, numCellBlocks, cellsBlockSize, nCells - numCellBlocks * cellsBlockSize)
  }

  lemma StepBelowTotal(i: nat, q: nat, b: nat)
    requires i < q
    ensures i * b + b <= q * b
  {
    MulMonotone(i + 1, q, b);
  }

  /**
   * The cell loop visits exactly the blocks the band loop would with block
   * size cellsBlockSize: both tile [0, nCells) the same way.
   */
  lemma {:induction false} CellBlocksAreBandBlocks(i: nat, q: nat, b: nat, rem: nat, n: nat)
    requires b > 0 && rem < b && n == q * b + rem && i <= q + 1
    ensures CellBlocksFrom(i, q, b, rem) == BandBlocksFrom(i * b, n, b)
    decreases q + 1 - i
  {
    if i == q + 1 {
      MulSucc(q, b);
    } else {
      CellBlocksAreBandBlocks(i + 1, q, b, rem, n);
      MulSucc(i, b);
      if i < q {
        StepBelowTotal(i, q, b);
      }
      CellBlockStep(i, q, b, rem, n, i * b, q * b);
    }
  }

  /** One cell block against one band block, with s = i b and m = q b given. */
  lemma CellBlockStep(i: nat, q: nat, b: nat, rem: nat, n: nat, s: nat, m: nat)
    requires b > 0 && rem < b && n == m + rem && i <= q
    requires s == i * b && (i == q ==> s == m) && (i < q ==> s + b <= m)
    requires CellBlocksFrom(i + 1, q, b, rem) == BandBlocksFrom(s + b, n, b)
    ensures CellBlocksFrom(i, q, b, rem) == BandBlocksFrom(s, n, b)
  {
    if i == q && rem > 0 {
      assert MinNat(b, n - s) == rem;
    } else if i < q {
      assert MinNat(b, n - s) == b;
    }
  }

  lemma CellBlocksTile(nCells: nat, cellsBlockSize: nat)
    requires cellsBlockSize > 0
    ensures CellBlocks(nCells, cellsBlockSize) == BandBlocks(nCells, cellsBlockSize)
    ensures Tiles(CellBlocks(nCells, cellsBlockSize), 0, nCells)
  {
    var q := nCells / cellsBlockSize;
    var rem := nCells - q * cellsBlockSize;
    assert nCells == q * cellsBlockSize + nCells % cellsBlockSize;
    CellBlocksAreBandBlocks(0, q, cellsBlockSize, rem, nCells);
    BandBlocksTile(0, nCells, cellsBlockSize);
  }

  // ---------------------------------------------------------------------
  // Consequences of tiling
  // ---------------------------------------------------------------------

  /** A tiling covers every index of [lo, hi) exactly once and nothing outside it. */
  lemma {:induction false} TilesCoverExactlyOnce(blocks: seq<Block>, lo: nat, hi: nat, j: nat)
    requires Tiles(blocks, lo, hi)
    ensures Covering(blocks, j) == (if lo <= j < hi then 1 else 0)
    decreases |blocks|
  {
    if |blocks| > 0 {
      TilesCoverExactlyOnce(blocks[1..], blocks[0].End(), hi, j);
    }
  }

  /** Summing block by block gives the sum over the whole range. */
  lemma {:induction false} SumOverTiles(blocks: seq<Block>, lo: nat, hi: nat, g: nat -> real)
    requires Tiles(blocks, lo, hi)
    ensures SumOverBlocks(blocks, g) == SumRange(lo, hi, g)
    decreases |blocks|
  {
    if |blocks| > 0 {
      SumOverTiles(blocks[1..], blocks[0].End(), hi, g);
      SumRangeSplit(lo, blocks[0].End(), hi, g);
    }
  }

  /** Every block of a tiling lies inside [lo, hi). */
  lemma {:induction false} TileBlocksInRange(blocks: seq<Block>, lo: nat, hi: nat, i: nat)
    requires Tiles(blocks, lo, hi) && i < |blocks|
    ensures lo <= blocks[i].start && blocks[i].End() <= hi && blocks[i].size > 0
    decreases |blocks|
  {
    if i > 0 {
      TileBlocksInRange(blocks[1..], blocks[0].End(), hi, i - 1);
    }
  }
}
