/**
 * Band-group parallelisation of the density loop. The bands [0, total) are
 * split among band groups by the flat list bandGroupLowHighPlusOneIndices
 * = [low_0, high_0, low_1, high_1, ...]; a band block is processed by group g
 * only when low_g < jvec + blockSize <= high_g
 * (src/dft/densityCalculator.cc:192-195). The fractional block of the
 * spectrum-split path applies the same test to the block shifted by
 * total - Nfr (src/dft/densityCalculator.cc:331-334).
 */
module BandGroups {
  import opened Numerics
  import opened Tiling

  function Low(bounds: seq<nat>, g: nat): nat {
    if 2 * g < |bounds| then bounds[2 * g] else 0
  }

  function High(bounds: seq<nat>, g: nat): nat {
    if 2 * g + 1 < |bounds| then bounds[2 * g + 1] else 0
  }

  /**
   * The bounds split [0, total) into `groups` consecutive ranges: the
   * contract of createBandParallelizationIndices, which is not part of this
   * model.
   */
  ghost predicate IsBandPartition(bounds: seq<nat>, groups: nat, total: nat) {
    groups > 0 && |bounds| == 2 * groups &&
    Low(bounds, 0) == 0 && High(bounds, groups - 1) == total &&
    (forall g :: 0 <= g < groups ==> Low(bounds, g) <= High(bounds, g)) &&
    (forall g :: 0 <= g < groups - 1 ==> High(bounds, g) == Low(bounds, g + 1))
  }

  /** The ownership test of the band loop, on the end index of a block. */
  predicate Owns(bounds: seq<nat>, g: nat, blockEnd: nat) {
    Low(bounds, g) < blockEnd <= High(bounds, g)
  }

  lemma {:induction false} BoundsMonotone(bounds: seq<nat>, groups: nat, total: nat, g1: nat, g2: nat)
    requires IsBandPartition(bounds, groups, total)
    requires g1 < g2 < groups
    ensures High(bounds, g1) <= Low(bounds, g2)
    decreases g2 - g1
  {
    if g1 + 1 < g2 {
      BoundsMonotone(bounds, groups, total, g1 + 1, g2);
      NextGroup(bounds, groups, total, g1);
    } else {
      NextGroup(bounds, groups, total, g1);
    }
  }

  /** Group g ends where group g + 1 begins, and group g + 1 is not reversed. */
  lemma NextGroup(bounds: seq<nat>, groups: nat, total: nat, g: nat)
    requires IsBandPartition(bounds, groups, total) && g + 1 < groups
    ensures High(bounds, g) == Low(bounds, g + 1) <= High(bounds, g + 1)
  {
  }

  /** At most one group owns a block. */
  lemma OwnerUnique(bounds: seq<nat>, groups: nat, total: nat, e: nat, g1: nat, g2: nat)
    requires IsBandPartition(bounds, groups, total)
    requires g1 < groups && g2 < groups
    requires Owns(bounds, g1, e) && Owns(bounds, g2, e)
    ensures g1 == g2
  {
    if g1 < g2 {
      BoundsMonotone(bounds, groups, total, g1, g2);
    } else if g2 < g1 {
      BoundsMonotone(bounds, groups, total, g2, g1);
    }
  }

  /** Some group from g on owns a block ending in (low_g, total]. */
  lemma {:induction false} FindOwner(bounds: seq<nat>, groups: nat, total: nat, e: nat, g: nat) returns (owner: nat)
    requires IsBandPartition(bounds, groups, total)
    requires g < groups && Low(bounds, g) < e <= total
    ensures g <= owner < groups && Owns(bounds, owner, e)
    decreases groups - g
  {
    if e <= High(bounds, g) {
      owner := g;
    } else {
      if g == groups - 1 {
        assert false;
      }
      owner := FindOwner(bounds, groups, total, e, g + 1);
    }
  }

  /** Every block ending in (0, total] is processed by exactly one band group. */
  lemma ExactlyOneOwner(bounds: seq<nat>, groups: nat, total: nat, e: nat) returns (owner: nat)
    requires IsBandPartition(bounds, groups, total)
    requires 0 < e <= total
    ensures owner < groups && Owns(bounds, owner, e)
    ensures forall g: nat :: g < groups && Owns(bounds, g, e) ==> g == owner
  {
    owner := FindOwner(bounds, groups, total, e, 0);
    forall g: nat | g < groups && Owns(bounds, g, e)
      ensures g == owner
    {
      OwnerUnique(bounds, groups, total, e, g, owner);
    }
  }

  /**
   * What band group g accumulates: the sum of h over the bands of every block
   * it owns, the ownership test applied to the block end shifted by `shift`.
   */
  function GroupContribution(blocks: seq<Block>, bounds: seq<nat>, g: nat, shift: nat, h: nat -> real): real
    decreases |blocks|
  {
    if |blocks| == 0 then 0.0
    else
      (if Owns(bounds, g, blocks[0].End() + shift) then SumRange(blocks[0].start, blocks[0].End(), h) else 0.0) +
      GroupContribution(blocks[1..], bounds, g, shift, h)
  }

  /** The contributions of the groups 0 .. n-1. */
  function SumOverGroups(blocks: seq<Block>, bounds: seq<nat>, n: nat, shift: nat, h: nat -> real): real
    decreases n
  {
    if n == 0 then 0.0 else SumOverGroups(blocks, bounds, n - 1, shift, h) + GroupContribution(blocks, bounds, n - 1, shift, h)
  }

  /** The block ends, shifted, all fall in (0, total]. */
  ghost predicate EndsWithin(blocks: seq<Block>, shift: nat, total: nat) {
    forall i :: 0 <= i < |blocks| ==> 0 < blocks[i].End() + shift <= total
  }

  /** Sum over groups of the contribution of one owned term. */
  lemma {:induction false} SumOverGroupsOfOwned(bounds: seq<nat>, n: nat, e: nat, owner: nat, v: real)
    requires forall g: nat :: g < n && Owns(bounds, g, e) ==> g == owner
    ensures SumIndicator(bounds, n, e, v) == (if owner < n && Owns(bounds, owner, e) then v else 0.0)
    decreases n
  {
    if n > 0 {
      SumOverGroupsOfOwned(bounds, n - 1, e, owner, v);
    }
  }

  /** Sum over the groups 0 .. n-1 of v when the group owns the end e, else 0. */
  function SumIndicator(bounds: seq<nat>, n: nat, e: nat, v: real): real
    decreases n
  {
    if n == 0 then 0.0 else SumIndicator(bounds, n - 1, e, v) + (if Owns(bounds, n - 1, e) then v else 0.0)
  }

  lemma {:induction false} SumOverGroupsPeel(blocks: seq<Block>, bounds: seq<nat>, n: nat, shift: nat, h: nat -> real)
    requires |blocks| > 0
    ensures SumOverGroups(blocks, bounds, n, shift, h) ==
            SumIndicator(bounds, n, blocks[0].End() + shift, SumRange(blocks[0].start, blocks[0].End(), h)) +
            SumOverGroups(blocks[1..], bounds, n, shift, h)
    decreases n
  {
    if n > 0 {
      SumOverGroupsPeel(blocks, bounds, n - 1, shift, h);
    }
  }

  /**
   * Summing the band groups' partial densities (the band-group reduction)
   * gives the sum over every block: each block is counted by exactly one
   * group.
   */
  lemma {:induction false} GroupsPartitionBlocks(blocks: seq<Block>, bounds: seq<nat>, groups: nat, total: nat,
                                                 shift: nat, h: nat -> real)
    requires IsBandPartition(bounds, groups, total)
    requires EndsWithin(blocks, shift, total)
    ensures SumOverGroups(blocks, bounds, groups, shift, h) == SumOverBlocks(blocks, h)
    decreases |blocks|
  {
    if |blocks| == 0 {
      EmptyGroups(bounds, groups, shift, h);
    } else {
      var e := blocks[0].End() + shift;
      var owner := ExactlyOneOwner(bounds, groups, total, e);
      SumOverGroupsOfOwned(bounds, groups, e, owner, SumRange(blocks[0].start, blocks[0].End(), h));
      SumOverGroupsPeel(blocks, bounds, groups, shift, h);
      assert EndsWithin(blocks[1..], shift, total) by {
        forall i | 0 <= i < |blocks[1..]|
          ensures 0 < blocks[1..][i].End() + shift <= total
        {
          assert blocks[1..][i] == blocks[i + 1];
        }
      }
      GroupsPartitionBlocks(blocks[1..], bounds, groups, total, shift, h);
    }
  }

  lemma {:induction false} EmptyGroups(bounds: seq<nat>, n: nat, shift: nat, h: nat -> real)
    ensures SumOverGroups([], bounds, n, shift, h) == 0.0
    decreases n
  {
    if n > 0 {
      EmptyGroups(bounds, n - 1, shift, h);
    }
  }

  /** The ends of the blocks of a tiling of [lo, hi) lie in (lo, hi]. */
  lemma TilingEnds(blocks: seq<Block>, lo: nat, hi: nat, shift: nat, total: nat)
    requires Tiles(blocks, lo, hi) && hi + shift <= total
    ensures EndsWithin(blocks, shift, total)
  {
    forall i | 0 <= i < |blocks|
      ensures 0 < blocks[i].End() + shift <= total
    {
      TileBlocksInRange(blocks, lo, hi, i);
    }
  }

  /**
   * Any tiling of [0, hi) tested shifted by `shift` inside [0, total): the
   * band groups together accumulate the sum of h over [0, hi) once.
   */
  lemma TilingReducesToFullSum(blocks: seq<Block>, bounds: seq<nat>, groups: nat, total: nat, hi: nat, shift: nat,
                               h: nat -> real)
    requires IsBandPartition(bounds, groups, total) && Tiles(blocks, 0, hi) && hi + shift <= total
    ensures SumOverGroups(blocks, bounds, groups, shift, h) == SumRange(0, hi, h)
  {
    TilingEnds(blocks, 0, hi, shift, total);
    GroupsPartitionBlocks(blocks, bounds, groups, total, shift, h);
    SumOverTiles(blocks, 0, hi, h);
  }

  /**
   * The main band loop: with band blocks of size B over [0, total), the
   * band groups together accumulate the sum of h over all bands once.
   */
  lemma MainBlocksReduceToFullSum(bounds: seq<nat>, groups: nat, total: nat, blockSize: nat, h: nat -> real)
    requires IsBandPartition(bounds, groups, total) && blockSize > 0
    ensures SumOverGroups(BandBlocks(total, blockSize), bounds, groups, 0, h) == SumRange(0, total, h)
  {
    BandBlocksTile(0, total, blockSize);
    TilingReducesToFullSum(BandBlocks(total, blockSize), bounds, groups, total, total, 0, h);
  }

  /**
   * The fractional loop of the spectrum-split path: blocks tile [0, Nfr) and
   * are tested shifted by total - Nfr; the groups together accumulate the
   * sum over the Nfr fractional bands once.
   */
  lemma FractionalBlocksReduceToFullSum(bounds: seq<nat>, groups: nat, total: nat, nfr: nat, blockSize: nat,
                                        h: nat -> real)
    requires IsBandPartition(bounds, groups, total) && blockSize > 0 && nfr <= total
    ensures SumOverGroups(BandBlocks(nfr, blockSize), bounds, groups, total - nfr, h) == SumRange(0, nfr, h)
  {
    BandBlocksTile(0, nfr, blockSize);
    TilingReducesToFullSum(BandBlocks(nfr, blockSize), bounds, groups, total, nfr, total - nfr, h);
  }
}
